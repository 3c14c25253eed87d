/** Unnormalised fractions, compared only by cross-multiplication
    (inflow.cpp, det/mul/sub/cmp). A pair (num, den) stands for num/den; it
    is never reduced, and (1, 0) is used as "infinity". */
module Fraction {

  datatype Frac = Frac(num: int, den: int)

  /** ad - bc for x = a/b, y = c/d. */
  function Det(x: Frac, y: Frac): int {
    x.num * y.den - x.den * y.num
  }

  /** x * y, unnormalised. */
  function Mul(x: Frac, y: Frac): Frac {
    Frac(x.num * y.num, x.den * y.den)
  }

  /** x - y, unnormalised. */
  function Sub(x: Frac, y: Frac): Frac {
    Frac(Det(x, y), x.den * y.den)
  }

  /** x < y, by the sign of the cross product. */
  predicate Cmp(x: Frac, y: Frac) {
    Det(x, y) < 0
  }

  /** The rational number a fraction with a non-zero denominator stands for. */
  function Value(x: Frac): real
    requires x.den != 0
  {
    x.num as real / x.den as real
  }

  /** The fraction the scans start from: 1/0, "infinity". */
  const Infinity: Frac := Frac(1, 0)

  lemma DetAntisymmetric(x: Frac, y: Frac)
    ensures Det(x, y) == -Det(y, x)
  {
  }

  /** With positive denominators, cross-multiplication decides the rational order. */
  lemma CmpIsLess(x: Frac, y: Frac)
    requires x.den > 0 && y.den > 0
    ensures Cmp(x, y) <==> Value(x) < Value(y)
  {
    var a, b, c, d := x.num as real, x.den as real, y.num as real, y.den as real;
    assert Value(x) == a / b && Value(y) == c / d;
    assert a / b * (b * d) == a * d;
    assert c / d * (b * d) == c * b;
    ScaleLess(a / b, c / d, b * d);
    assert (Det(x, y) as real) == a * d - b * c;
  }

  lemma ScaleLess(u: real, v: real, m: real)
    requires m > 0.0
    ensures u < v <==> u * m < v * m
  {
  }

  /** With non-zero denominators, Sub represents the difference of the values. */
  lemma SubIsDifference(x: Frac, y: Frac)
    requires x.den != 0 && y.den != 0
    ensures Sub(x, y).den != 0
    ensures Value(Sub(x, y)) == Value(x) - Value(y)
  {
    var a, b, c, d := x.num as real, x.den as real, y.num as real, y.den as real;
    assert (x.den * y.den) as real == b * d;
    assert b * d != 0.0;
    assert (Det(x, y) as real) == a * d - b * c;
    var u, v := a / b, c / d;
    assert a == u * b && c == v * d;
    assert a * d - b * c == (u - v) * (b * d);
    assert (a * d - b * c) / (b * d) == u - v;
  }

  /** With non-zero denominators, Mul represents the product of the values. */
  lemma MulIsProduct(x: Frac, y: Frac)
    requires x.den != 0 && y.den != 0
    ensures Mul(x, y).den != 0
    ensures Value(Mul(x, y)) == Value(x) * Value(y)
  {
    var a, b, c, d := x.num as real, x.den as real, y.num as real, y.den as real;
    assert (x.den * y.den) as real == b * d;
    assert (x.num * y.num) as real == a * c;
    assert b * d != 0.0;
    var u, v := a / b, c / d;
    assert a == u * b && c == v * d;
    assert a * c == (u * v) * (b * d);
    assert (a * c) / (b * d) == u * v;
  }

  /** Every fraction with a positive denominator is below infinity, and infinity is below none. */
  lemma InfinityLoses(v: Frac)
    requires v.den > 0
    ensures Cmp(v, Infinity) && !Cmp(Infinity, v)
  {
  }

  /** Cmp is a strict order on fractions with positive denominators. */
  lemma CmpTransitive(x: Frac, y: Frac, z: Frac)
    requires x.den > 0 && y.den > 0 && z.den > 0
    requires Cmp(x, y) && Cmp(y, z)
    ensures Cmp(x, z)
  {
    CmpIsLess(x, y);
    CmpIsLess(y, z);
    CmpIsLess(x, z);
  }

  /** x >= y and z < y give x >= z (not below z). */
  lemma NotCmpThenCmp(x: Frac, y: Frac, z: Frac)
    requires x.den > 0 && y.den > 0 && z.den > 0
    requires !Cmp(x, y) && Cmp(z, y)
    ensures !Cmp(x, z)
  {
    CmpIsLess(x, y);
    CmpIsLess(z, y);
    CmpIsLess(x, z);
  }

  /** x < y and z >= y give x < z. */
  lemma CmpThenNotCmp(x: Frac, y: Frac, z: Frac)
    requires x.den > 0 && y.den > 0 && z.den > 0
    requires Cmp(x, y) && !Cmp(z, y)
    ensures Cmp(x, z)
  {
    CmpIsLess(x, y);
    CmpIsLess(z, y);
    CmpIsLess(x, z);
  }
}
