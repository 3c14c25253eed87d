/** The greedy line counter: get_lines in inflow.cpp and in inflow.py.
    Tokens are packed forward, each line taking as many tokens as fit.
    lines[i] is the number of the line holding token i-1 (lines[0] = 0), so
    lines[n] is the number of lines; chars is the sum of the line widths. */
module Greedy {
  import opened Paragraph

  function Repeat(v: int, k: nat): (r: seq<int>)
    ensures |r| == k && forall t :: 0 <= t < k ==> r[t] == v
  {
    seq(k, _ => v)
  }

  /** Where the greedy line starting at token s ends once it holds tokens s..e-1:
      tokens are added while the line still fits. */
  function LineEndFrom(p: seq<string>, w: int, s: int, e: int): (r: int)
    requires 0 <= s < e <= |p| && SegWidth(p, s, e) <= w
    ensures e <= r <= |p|
    ensures SegWidth(p, s, r) <= w
    ensures r == |p| || SegWidth(p, s, r + 1) > w
    decreases |p| - e
  {
    if e < |p| && SegWidth(p, s, e + 1) <= w then LineEndFrom(p, w, s, e + 1) else e
  }

  /** The end of the greedy line that starts at token s. */
  function LineEnd(p: seq<string>, w: int, s: int): (r: int)
    requires AllFit(p, w) && 0 <= s < |p|
    ensures s < r <= |p|
  {
    LineEndFrom(p, w, s, s + 1)
  }

  /** The entries lines[s+1..n] when the greedy line number num ended just before token s. */
  function GreedyFrom(p: seq<string>, w: int, s: int, num: int): (r: seq<int>)
    requires AllFit(p, w) && 0 <= s <= |p|
    ensures |r| == |p| - s
    decreases |p| - s
  {
    if s == |p| then []
    else
      var e := LineEnd(p, w, s);
      Repeat(num + 1, e - s) + GreedyFrom(p, w, e, num + 1)
  }

  /** The line-index vector of the greedy packing. */
  function GreedyLines(p: seq<string>, w: int): seq<int>
    requires AllFit(p, w)
  {
    [0] + GreedyFrom(p, w, 0, 0)
  }

  /** Sum of the widths of the greedy lines from token s on. */
  function GreedyChars(p: seq<string>, w: int, s: int): int
    requires AllFit(p, w) && 0 <= s <= |p|
    decreases |p| - s
  {
    if s == |p| then 0
    else
      var e := LineEnd(p, w, s);
      SegWidth(p, s, e) + GreedyChars(p, w, e)
  }

  /** Number of greedy lines from token s on. */
  function NumLines(p: seq<string>, w: int, s: int): nat
    requires AllFit(p, w) && 0 <= s <= |p|
    decreases |p| - s
  {
    if s == |p| then 0 else 1 + NumLines(p, w, LineEnd(p, w, s))
  }

  /** The first token of the greedy line (packing from s) that holds token t. */
  function LineStartFrom(p: seq<string>, w: int, s: int, t: int): int
    requires AllFit(p, w) && 0 <= s <= t < |p|
    decreases |p| - s
  {
    var e := LineEnd(p, w, s);
    if t < e then s else LineStartFrom(p, w, e, t)
  }

  /** cuts divides tokens a..b-1 into the lines cuts[q]..cuts[q+1], each non-empty and fitting the width. */
  ghost predicate Divides(p: seq<string>, w: int, cuts: seq<int>, a: int, b: int) {
    |cuts| >= 1 && cuts[0] == a && cuts[|cuts| - 1] == b && 0 <= a <= b <= |p| &&
    forall q :: 0 <= q < |cuts| - 1 ==> CutFits(p, w, cuts, q)
  }

  /** Line q of a division is non-empty and fits. */
  ghost predicate CutFits(p: seq<string>, w: int, cuts: seq<int>, q: int)
    requires 0 <= q < |cuts| - 1
  {
    0 <= cuts[q] < cuts[q + 1] <= |p| && SegWidth(p, cuts[q], cuts[q + 1]) <= w
  }

  /** The greedy vector, read at token t: the line of t, in terms of the line that
      ends just before t's line starts, and the step from the previous entry. */
  lemma {:induction false} GreedyFromAt(p: seq<string>, w: int, s: int, num: int, t: int)
    requires AllFit(p, w) && 0 <= s <= t < |p|
    ensures var g := GreedyFrom(p, w, s, num);
            var j := LineStartFrom(p, w, s, t);
            s <= j <= t && SegWidth(p, j, t + 1) <= w &&
            g[t - s] == (if j == s then num else g[j - s - 1]) + 1 &&
            (t == s ==> g[0] == num + 1) &&
            (t > s ==> g[t - s] == g[t - s - 1] || g[t - s] == g[t - s - 1] + 1)
    decreases |p| - s
  {
    var g := GreedyFrom(p, w, s, num);
    var e := LineEnd(p, w, s);
    var g' := GreedyFrom(p, w, e, num + 1);
    assert g == Repeat(num + 1, e - s) + g';
    if t < e {
      SegWidthMono(p, s, s, t + 1, e);
    } else {
      GreedyFromAt(p, w, e, num + 1, t);
      assert g[t - s] == g'[t - e];
      if t > e {
        assert g[t - s - 1] == g'[t - e - 1];
      }
      var j := LineStartFrom(p, w, e, t);
      if j > e {
        assert g[j - s - 1] == g'[j - e - 1];
      }
    }
  }

  /** The last entry of the greedy vector counts the lines. */
  lemma {:induction false} GreedyFromLast(p: seq<string>, w: int, s: int, num: int)
    requires AllFit(p, w) && 0 <= s < |p|
    ensures GreedyFrom(p, w, s, num)[|p| - s - 1] == num + NumLines(p, w, s)
    decreases |p| - s
  {
    var e := LineEnd(p, w, s);
    if e < |p| {
      GreedyFromLast(p, w, e, num + 1);
    }
  }

  /** Shape of the greedy vector: n+1 entries, starting at 0, rising by 0 or 1, line 1 first. */
  lemma GreedyLinesShape(p: seq<string>, w: int)
    requires AllFit(p, w)
    ensures var lines := GreedyLines(p, w);
            |lines| == |p| + 1 && lines[0] == 0 &&
            (|p| >= 1 ==> lines[1] == 1) &&
            forall i :: 0 <= i < |p| ==> lines[i + 1] - lines[i] in {0, 1}
  {
    var lines := GreedyLines(p, w);
    forall i | 0 <= i < |p| ensures lines[i + 1] - lines[i] in {0, 1} {
      GreedyFromAt(p, w, 0, 0, i);
    }
    if |p| >= 1 {
      GreedyFromAt(p, w, 0, 0, 0);
    }
  }

  /** The first token of the greedy line holding token i-1. */
  function LineStart(p: seq<string>, w: int, i: int): int
    requires AllFit(p, w) && 1 <= i <= |p|
  {
    LineStartFrom(p, w, 0, i - 1)
  }

  /** Every prefix of i >= 1 tokens ends with a greedy line: it starts at a token j < i
      such that tokens j..i-1 fit and lines[j] is one less than lines[i]. */
  lemma LineStartIsPredecessor(p: seq<string>, w: int, i: int)
    requires AllFit(p, w) && 1 <= i <= |p|
    ensures var lines := GreedyLines(p, w);
            var j := LineStart(p, w, i);
            0 <= j < i && SegWidth(p, j, i) <= w && lines[j] + 1 == lines[i]
  {
    GreedyFromAt(p, w, 0, 0, i - 1);
  }

  /** lines[n] is the number of greedy lines. */
  lemma GreedyLinesCount(p: seq<string>, w: int)
    requires AllFit(p, w)
    ensures GreedyLines(p, w)[|p|] == NumLines(p, w, 0)
  {
    if |p| > 0 {
      GreedyFromLast(p, w, 0, 0);
    }
  }

  /** chars is the total token length plus one space for each token that is not last on its line. */
  lemma {:induction false} GreedyCharsTotal(p: seq<string>, w: int, s: int)
    requires AllFit(p, w) && 0 <= s <= |p|
    ensures GreedyChars(p, w, s) == TotalLen(p[s..]) + (|p| - s) - NumLines(p, w, s)
    decreases |p| - s
  {
    if s < |p| {
      var e := LineEnd(p, w, s);
      GreedyCharsTotal(p, w, e);
      SegWidthTotal(p, s, e);
      assert p[s..] == p[s..e] + p[e..];
      TotalLenAppend(p[s..e], p[e..]);
    }
  }

  lemma GreedyCharsIsTotal(p: seq<string>, w: int)
    requires AllFit(p, w)
    ensures GreedyChars(p, w, 0) == TotalLen(p) + |p| - GreedyLines(p, w)[|p|]
  {
    GreedyCharsTotal(p, w, 0);
    GreedyLinesCount(p, w);
    assert p[0..] == p;
  }

  /** A line that can hold all remaining tokens takes all of them. */
  lemma {:induction false} LineEndAll(p: seq<string>, w: int, s: int, e: int)
    requires 0 <= s < e <= |p| && SegWidth(p, s, e) <= w
    requires SegWidth(p, s, |p|) <= w
    ensures LineEndFrom(p, w, s, e) == |p|
    decreases |p| - e
  {
    if e < |p| {
      SegWidthMono(p, s, s, e + 1, |p|);
      LineEndAll(p, w, s, e + 1);
    }
  }

  /** Paragraphs that take more than one greedy line do not fit on one line. */
  lemma OneLineIfFits(p: seq<string>, w: int)
    requires AllFit(p, w) && |p| >= 1
    requires GreedyLines(p, w)[|p|] > 1
    ensures SegWidth(p, 0, |p|) > w
  {
    if SegWidth(p, 0, |p|) <= w {
      LineEndAll(p, w, 0, 1);
      GreedyLinesCount(p, w);
      assert false;
    }
  }

  /** Greedy stays ahead: from any point s at or after a fitting division's start, the
      greedy packing needs no more lines than the division. */
  lemma {:induction false} GreedyAhead(p: seq<string>, w: int, s: int, cuts: seq<int>)
    requires AllFit(p, w) && 0 <= s <= |p|
    requires |cuts| >= 1 && Divides(p, w, cuts, cuts[0], |p|) && cuts[0] <= s
    ensures NumLines(p, w, s) <= |cuts| - 1
    decreases |cuts|
  {
    if s < |p| {
      assert |cuts| >= 2;
      assert CutFits(p, w, cuts, 0);
      var rest := cuts[1..];
      assert Divides(p, w, rest, rest[0], |p|) by {
        forall q | 0 <= q < |rest| - 1 ensures CutFits(p, w, rest, q) {
          assert CutFits(p, w, cuts, q + 1);
        }
      }
      if s >= cuts[1] {
        GreedyAhead(p, w, s, cuts[1..]);
      } else {
        var e := LineEnd(p, w, s);
        if e < cuts[1] {
          SegWidthMono(p, cuts[0], s, e + 1, cuts[1]);
          assert false;
        }
        GreedyAhead(p, w, e, cuts[1..]);
      }
    }
  }

  /** The greedy line count is the least number of fitting lines the paragraph can be cut into. */
  lemma GreedyIsMinimal(p: seq<string>, w: int, cuts: seq<int>)
    requires AllFit(p, w)
    requires Divides(p, w, cuts, 0, |p|)
    ensures GreedyLines(p, w)[|p|] <= |cuts| - 1
  {
    GreedyAhead(p, w, 0, cuts);
    GreedyLinesCount(p, w);
  }

  /** The greedy vector read from s: entry s is num, the entries of the line from s are
      num + 1, and from its end e on it is the vector read from e. */
  lemma GreedyFromFirstLine(p: seq<string>, w: int, s: int, num: int)
    requires AllFit(p, w) && 0 <= s < |p|
    ensures var e := LineEnd(p, w, s);
            var v, v' := [num] + GreedyFrom(p, w, s, num), [num + 1] + GreedyFrom(p, w, e, num + 1);
            v[0] == num && (forall y :: 1 <= y <= e - s ==> v[y] == num + 1) &&
            (forall y :: 0 <= y <= |p| - e ==> v[e - s + y] == v'[y])
  {
    var e := LineEnd(p, w, s);
    var g' := GreedyFrom(p, w, e, num + 1);
    var v, v' := [num] + GreedyFrom(p, w, s, num), [num + 1] + g';
    var r := Repeat(num + 1, e - s);
    assert GreedyFrom(p, w, s, num) == r + g';
    assert v == [num] + r + g';
    forall y | 1 <= y <= e - s ensures v[y] == num + 1 {
      assert v[y] == r[y - 1];
    }
    forall y | 0 <= y <= |p| - e ensures v[e - s + y] == v'[y] {
      if y > 0 {
        assert v[e - s + y] == g'[y - 1];
      }
    }
  }

  /** Tokens a..t-1 that fit on one line span at most one greedy line break: reading the
      greedy vector from s (entry s is num), entry t is at most entry a plus one. */
  lemma {:induction false} GreedyFromOneLine(p: seq<string>, w: int, s: int, num: int, a: int, t: int)
    requires AllFit(p, w) && 0 <= s <= a < t <= |p| && SegWidth(p, a, t) <= w
    ensures var v := [num] + GreedyFrom(p, w, s, num);
            v[t - s] <= v[a - s] + 1
    decreases |p| - s
  {
    var e := LineEnd(p, w, s);
    GreedyFromFirstLine(p, w, s, num);
    if t <= e {
    } else if a >= e {
      GreedyFromOneLine(p, w, e, num + 1, a, t);
    } else {
      if a == s {
        SegWidthMono(p, s, s, e + 1, t);
        assert false;
      }
      SegWidthMono(p, a, e, t, t);
      GreedyFromOneLine(p, w, e, num + 1, e, t);
    }
  }

  /** One fitting line a..t-1 adds at most one to the greedy vector. */
  lemma OneLineStep(p: seq<string>, w: int, a: int, t: int)
    requires AllFit(p, w) && 0 <= a < t <= |p| && SegWidth(p, a, t) <= w
    ensures GreedyLines(p, w)[t] <= GreedyLines(p, w)[a] + 1
  {
    GreedyFromOneLine(p, w, 0, 0, a, t);
  }

  /** Greedy stays ahead between any two points: a division of tokens a..b-1 into m lines
      has lines[b] <= lines[a] + m. */
  lemma {:induction false} DivisionBound(p: seq<string>, w: int, cuts: seq<int>, a: int, b: int)
    requires AllFit(p, w) && Divides(p, w, cuts, a, b)
    ensures GreedyLines(p, w)[b] <= GreedyLines(p, w)[a] + |cuts| - 1
    decreases |cuts|
  {
    if |cuts| >= 2 {
      var c, m := cuts[..|cuts| - 1], cuts[|cuts| - 2];
      assert CutFits(p, w, cuts, |cuts| - 2);
      DividesSplit(p, w, cuts, a, b, |cuts| - 2);
      DivisionBound(p, w, c, a, m);
      OneLineStep(p, w, m, b);
    }
  }

  /** The boundaries of a division of a..b-1 lie between a and b. */
  lemma {:induction false} CutsBelow(p: seq<string>, w: int, cuts: seq<int>, a: int, b: int, q: int)
    requires Divides(p, w, cuts, a, b) && 0 <= q < |cuts|
    ensures cuts[q] <= b
    decreases |cuts| - q
  {
    if q < |cuts| - 1 {
      assert CutFits(p, w, cuts, q);
      CutsBelow(p, w, cuts, a, b, q + 1);
    }
  }

  lemma {:induction false} CutsAbove(p: seq<string>, w: int, cuts: seq<int>, a: int, b: int, q: int)
    requires Divides(p, w, cuts, a, b) && 0 <= q < |cuts|
    ensures a <= cuts[q]
    decreases q
  {
    if q > 0 {
      assert CutFits(p, w, cuts, q - 1);
      CutsAbove(p, w, cuts, a, b, q - 1);
    }
  }

  /** Splitting a division at boundary q gives divisions of the two parts. */
  lemma DividesSplit(p: seq<string>, w: int, cuts: seq<int>, a: int, b: int, q: int)
    requires Divides(p, w, cuts, a, b) && 0 <= q < |cuts|
    ensures 0 <= cuts[q] <= |p|
    ensures Divides(p, w, cuts[..q + 1], a, cuts[q]) && Divides(p, w, cuts[q..], cuts[q], b)
  {
    var c, d := cuts[..q + 1], cuts[q..];
    CutsAbove(p, w, cuts, a, b, q);
    CutsBelow(p, w, cuts, a, b, q);
    forall r | 0 <= r < |c| - 1 ensures CutFits(p, w, c, r) {
      assert CutFits(p, w, cuts, r);
    }
    forall r | 0 <= r < |d| - 1 ensures CutFits(p, w, d, r) {
      assert CutFits(p, w, cuts, q + r);
    }
  }

  /** get_lines of inflow.cpp: the greedy vector and the sum of the greedy line widths. */
  method GetLines(para: seq<string>, width: int) returns (lines: seq<int>, chars: int)
    requires AllFit(para, width)
    ensures lines == GreedyLines(para, width)
    ensures chars == GreedyChars(para, width, 0)
  {
    var n := |para|;
    var i, num := 0, 0;
    chars := 0;
    lines := [0];
    while i < n
      invariant 0 <= i <= n
      invariant lines + GreedyFrom(para, width, i, num) == GreedyLines(para, width)
      invariant chars + GreedyChars(para, width, i) == GreedyChars(para, width, 0)
      decreases n - i
    {
      ghost var s := i;
      ghost var before := lines;
      num := num + 1;
      var lineChars;
      i, lines, lineChars := PackLine(para, width, i, num, lines);
      chars := chars + lineChars;
      assert lines == before + Repeat(num, LineEnd(para, width, s) - s);
    }
  }

  /** The body of get_lines's outer loop: pack line number num, which starts at token s.
      When token s alone is wider than the line, nothing moves: i stays at s and lines and
      chars are unchanged, so the outer loop of the source never ends. */
  method PackLine(para: seq<string>, width: int, s: int, num: int, lines0: seq<int>)
    returns (i: int, lines: seq<int>, lineChars: int)
    requires 0 <= s < |para|
    ensures |para[s]| > width ==> i == s && lines == lines0 && lineChars == 0
    ensures |para[s]| <= width ==>
              i == LineEndFrom(para, width, s, s + 1) &&
              lines == lines0 + Repeat(num, i - s) && lineChars == SegWidth(para, s, i)
  {
    var n := |para|;
    i := s;
    lines := lines0;
    ghost var fits := |para[s]| <= width;
    var x := 0;
    var v := |para[i]|;
    while v <= width && i + 1 < n
      invariant s <= i < n
      invariant x == (if i == s then 0 else SegWidth(para, s, i))
      invariant v == SegWidth(para, s, i + 1)
      invariant i > s ==> x <= width && fits
      invariant v <= width ==> LineEndFrom(para, width, s, i + 1) == LineEndFrom(para, width, s, s + 1)
      invariant v > width && fits ==> i > s && LineEndFrom(para, width, s, i) == LineEndFrom(para, width, s, s + 1)
      invariant lines == lines0 + Repeat(num, i - s)
      decreases n - i
    {
      i := i + 1;
      x := v;
      SegWidthSnoc(para, s, i);
      v := v + 1 + |para[i]|;
      lines := lines + [num];
    }
    lineChars := x;
    if v <= width {
      i := i + 1;
      lineChars := lineChars + v - x;
      lines := lines + [num];
    }
  }

  /** get_lines of inflow.py: the same greedy vector, without the character total. */
  method PyGetLines(par: seq<string>, width: int) returns (lines: seq<int>)
    requires AllFit(par, width)
    ensures lines == GreedyLines(par, width)
  {
    var n := |par|;
    var count, i := 0, 0;
    lines := [0];
    while i < n
      invariant 0 <= i <= n
      invariant lines + GreedyFrom(par, width, i, count) == GreedyLines(par, width)
      decreases n - i
    {
      ghost var s := i;
      ghost var before := lines;
      count := count + 1;
      i, lines := PyPackLine(par, width, i, count, lines);
      assert lines == before + Repeat(count, LineEnd(par, width, s) - s);
    }
  }

  /** The body of the outer loop of get_lines in inflow.py: pack line number count from
      token s. A token wider than the line leaves i and lines as they were: the loop never ends. */
  method PyPackLine(par: seq<string>, width: int, s: int, count: int, lines0: seq<int>)
    returns (i: int, lines: seq<int>)
    requires 0 <= s < |par|
    ensures |par[s]| > width ==> i == s && lines == lines0
    ensures |par[s]| <= width ==>
              i == LineEndFrom(par, width, s, s + 1) && lines == lines0 + Repeat(count, i - s)
  {
    var n := |par|;
    i := s;
    lines := lines0;
    ghost var fits := |par[s]| <= width;
    var lineWidth := |par[i]|;
    while i + 1 < n && lineWidth <= width
      invariant s <= i < n
      invariant lineWidth == SegWidth(par, s, i + 1)
      invariant i > s ==> SegWidth(par, s, i) <= width && fits
      invariant lineWidth <= width ==> LineEndFrom(par, width, s, i + 1) == LineEndFrom(par, width, s, s + 1)
      invariant lineWidth > width && fits ==> i > s && LineEndFrom(par, width, s, i) == LineEndFrom(par, width, s, s + 1)
      invariant lines == lines0 + Repeat(count, i - s)
      decreases n - i
    {
      i := i + 1;
      lines := lines + [count];
      SegWidthSnoc(par, s, i);
      lineWidth := lineWidth + 1 + |par[i]|;
    }
    if lineWidth <= width {
      i := i + 1;
      lines := lines + [count];
    }
  }
}
