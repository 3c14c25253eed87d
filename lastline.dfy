/** The last-line policy: process_dp in inflow.cpp. For paragraphs of more
    than three lines it chooses where the second-to-last line ends, so that the
    variance of the other lines is least, preferring a last line no longer than
    their mean. All comparisons are exact fraction comparisons. */
module LastLine {
  import opened Paragraph
  import opened Greedy
  import opened VarDP
  import opened Fraction

  /** Tokens i..n-1 can be the last line: they fit and the paragraph keeps its greedy line count. */
  predicate Candidate(p: seq<string>, lines: seq<int>, w: int, i: int)
    requires |lines| == |p| + 1
  {
    0 <= i < |p| && Feasible(p, lines, w, i, |p|)
  }

  /** Width of the last line when it starts at token i. */
  function LastLen(p: seq<string>, i: int): int
    requires 0 <= i <= |p|
  {
    SegWidth(p, i, |p|)
  }

  /** Mean width of the other lines: the remaining characters over lines[i]. */
  function Mean(p: seq<string>, lines: seq<int>, chars: int, i: int): Frac
    requires 0 <= i < |p| && |lines| == |p| + 1
  {
    Frac(chars - LastLen(p, i), lines[i])
  }

  /** Var[X] = E[X^2] - E[X]^2 of the other lines, as an unnormalised fraction. */
  function Variance(p: seq<string>, lines: seq<int>, chars: int, dp: seq<DPEntry>, i: int): Frac
    requires 0 <= i < |p| && |lines| == |p| + 1 && |dp| == |p| + 1 && dp[i].cost.Finite?
  {
    var mean := Mean(p, lines, chars, i);
    Sub(Frac(dp[i].cost.value, lines[i]), Mul(mean, mean))
  }

  /** The last line is no longer than the mean of the others. */
  predicate ShortLast(p: seq<string>, lines: seq<int>, chars: int, i: int)
    requires 0 <= i < |p| && |lines| == |p| + 1
  {
    Det(Frac(LastLen(p, i), 1), Mean(p, lines, chars, i)) <= 0
  }

  /** k is the best candidate of its class (short or long last line): no candidate of the
      class has a smaller variance, and every candidate of the class after k a larger one. */
  ghost predicate BestOfClass(p: seq<string>, lines: seq<int>, w: int, chars: int, dp: seq<DPEntry>, short: bool, k: int)
    requires |lines| == |p| + 1 && |dp| == |p| + 1 && AllFinite(dp)
  {
    Candidate(p, lines, w, k) && ShortLast(p, lines, chars, k) == short &&
    (forall j :: Candidate(p, lines, w, j) && ShortLast(p, lines, chars, j) == short ==>
       !Cmp(Variance(p, lines, chars, dp, j), Variance(p, lines, chars, dp, k))) &&
    (forall j :: k < j && Candidate(p, lines, w, j) && ShortLast(p, lines, chars, j) == short ==>
       Cmp(Variance(p, lines, chars, dp, k), Variance(p, lines, chars, dp, j)))
  }

  /** The start k of the last line that process_dp returns: n for at most three lines;
      otherwise the best candidate of the short class when that class has one, else the
      best candidate of the long class. */
  ghost predicate LastLineChoice(p: seq<string>, lines: seq<int>, w: int, chars: int, dp: seq<DPEntry>, k: int)
    requires |lines| == |p| + 1 && |dp| == |p| + 1 && AllFinite(dp)
  {
    (lines[|p|] <= 3 ==> k == |p|) &&
    (lines[|p|] > 3 ==>
       if exists j :: Candidate(p, lines, w, j) && ShortLast(p, lines, chars, j)
       then BestOfClass(p, lines, w, chars, dp, true, k)
       else BestOfClass(p, lines, w, chars, dp, false, k))
  }

  /** What the scan knows about one class after looking at the starts i+1..n-1: best is
      still infinity and the class had no candidate there, or best is the variance of
      the class's best candidate kc among them. */
  ghost predicate ClassSoFar(p: seq<string>, lines: seq<int>, w: int, chars: int, dp: seq<DPEntry>,
                             short: bool, kc: int, best: Frac, i: int)
    requires |lines| == |p| + 1 && |dp| == |p| + 1 && AllFinite(dp)
  {
    (best == Infinity ==>
       forall j :: i < j && Candidate(p, lines, w, j) ==> ShortLast(p, lines, chars, j) != short) &&
    (best != Infinity ==>
       i < kc && Candidate(p, lines, w, kc) && ShortLast(p, lines, chars, kc) == short &&
       best == Variance(p, lines, chars, dp, kc) &&
       (forall j :: i < j && Candidate(p, lines, w, j) && ShortLast(p, lines, chars, j) == short ==>
          !Cmp(Variance(p, lines, chars, dp, j), best)) &&
       (forall j :: kc < j && Candidate(p, lines, w, j) && ShortLast(p, lines, chars, j) == short ==>
          Cmp(best, Variance(p, lines, chars, dp, j))))
  }

  /** Candidates of long paragraphs have variances with positive denominators. */
  lemma VarianceDenPositive(p: seq<string>, lines: seq<int>, w: int, chars: int, dp: seq<DPEntry>, i: int)
    requires |lines| == |p| + 1 && |dp| == |p| + 1 && AllFinite(dp)
    requires lines[|p|] > 3 && Candidate(p, lines, w, i)
    ensures Variance(p, lines, chars, dp, i).den > 0
  {
    var l := lines[i];
    assert l >= 3;
    assert l * l > 0;
    assert l * (l * l) > 0;
  }

  /** Looking at start i: a candidate of the class that beats the best becomes the best. */
  lemma ClassTakes(p: seq<string>, lines: seq<int>, w: int, chars: int, dp: seq<DPEntry>,
                   short: bool, kc: int, best: Frac, i: int)
    requires |lines| == |p| + 1 && |dp| == |p| + 1 && AllFinite(dp) && lines[|p|] > 3
    requires ClassSoFar(p, lines, w, chars, dp, short, kc, best, i)
    requires Candidate(p, lines, w, i) && ShortLast(p, lines, chars, i) == short
    requires Cmp(Variance(p, lines, chars, dp, i), best)
    ensures ClassSoFar(p, lines, w, chars, dp, short, i, Variance(p, lines, chars, dp, i), i - 1)
  {
    var vi := Variance(p, lines, chars, dp, i);
    VarianceDenPositive(p, lines, w, chars, dp, i);
    assert vi != Infinity;
    forall j | i - 1 < j && Candidate(p, lines, w, j) && ShortLast(p, lines, chars, j) == short
      ensures !Cmp(Variance(p, lines, chars, dp, j), vi)
    {
      if j > i {
        VarianceDenPositive(p, lines, w, chars, dp, j);
        VarianceDenPositive(p, lines, w, chars, dp, kc);
        NotCmpThenCmp(Variance(p, lines, chars, dp, j), best, vi);
      }
    }
    forall j | i < j && Candidate(p, lines, w, j) && ShortLast(p, lines, chars, j) == short
      ensures Cmp(vi, Variance(p, lines, chars, dp, j))
    {
      var vj := Variance(p, lines, chars, dp, j);
      VarianceDenPositive(p, lines, w, chars, dp, j);
      VarianceDenPositive(p, lines, w, chars, dp, kc);
      if j > kc {
        CmpTransitive(vi, best, vj);
      } else if j < kc {
        CmpThenNotCmp(vi, best, vj);
      }
    }
  }

  /** Looking at start i: anything that is not a beating candidate of the class leaves it as it was. */
  lemma ClassKeeps(p: seq<string>, lines: seq<int>, w: int, chars: int, dp: seq<DPEntry>,
                   short: bool, kc: int, best: Frac, i: int)
    requires |lines| == |p| + 1 && |dp| == |p| + 1 && AllFinite(dp) && lines[|p|] > 3 && 0 <= i < |p|
    requires ClassSoFar(p, lines, w, chars, dp, short, kc, best, i)
    requires Candidate(p, lines, w, i) && ShortLast(p, lines, chars, i) == short ==>
             !Cmp(Variance(p, lines, chars, dp, i), best)
    ensures ClassSoFar(p, lines, w, chars, dp, short, kc, best, i - 1)
  {
    if Candidate(p, lines, w, i) && ShortLast(p, lines, chars, i) == short {
      VarianceDenPositive(p, lines, w, chars, dp, i);
      InfinityLoses(Variance(p, lines, chars, dp, i));
    }
  }

  /** The class test compares the last line with the mean exactly: it holds iff the
      last line is no longer than the mean of the other lines. */
  lemma ShortLastIsAtMostMean(p: seq<string>, lines: seq<int>, chars: int, i: int)
    requires 0 <= i < |p| && |lines| == |p| + 1 && lines[i] > 0
    ensures ShortLast(p, lines, chars, i) <==> (LastLen(p, i) as real) <= Value(Mean(p, lines, chars, i))
  {
    var m, xf := Mean(p, lines, chars, i), Frac(LastLen(p, i), 1);
    DetAntisymmetric(xf, m);
    CmpIsLess(m, xf);
  }

  /** The variance fraction stands for E[X^2] - E[X]^2, with E[X^2] the table's sum of
      squares over lines[i] and E[X] the mean. */
  lemma VarianceIsExact(p: seq<string>, lines: seq<int>, chars: int, dp: seq<DPEntry>, i: int)
    requires 0 <= i < |p| && |lines| == |p| + 1 && |dp| == |p| + 1 && dp[i].cost.Finite? && lines[i] != 0
    ensures Variance(p, lines, chars, dp, i).den != 0
    ensures var mean := Value(Mean(p, lines, chars, i));
            Value(Variance(p, lines, chars, dp, i)) ==
              (dp[i].cost.value as real) / (lines[i] as real) - mean * mean
  {
    var mean := Mean(p, lines, chars, i);
    MulIsProduct(mean, mean);
    SubIsDifference(Frac(dp[i].cost.value, lines[i]), Mul(mean, mean));
  }

  /** With chars the greedy total, the mean's numerator is exactly the total width of the
      table's lines for the first i tokens, and its denominator their number: the mean
      is the true mean line width of the lines before the last. */
  lemma MeanIsExact(p: seq<string>, lines: seq<int>, w: int, chars: int, dp: seq<DPEntry>, i: int)
    requires AllFit(p, w) && lines == GreedyLines(p, w) && chars == GreedyChars(p, w, 0)
    requires IsVarDP(p, lines, w, dp) && Candidate(p, lines, w, i)
    ensures ValidPreds(Preds(dp))
    ensures var cuts := Cuts(Preds(dp), i);
            chars - LastLen(p, i) == SumWidths(p, cuts) && lines[i] == |cuts| - 1
  {
    GreedyLinesShape(p, w);
    GreedyCharsIsTotal(p, w);
    ChainIsDivision(p, lines, w, dp, i);
    var cuts := Cuts(Preds(dp), i);
    SumWidthsTotal(p, w, cuts, i);
    SegWidthTotal(p, i, |p|);
    TotalLenSplit(p, i);
  }

  /** One step of the scan in process_dp: start i, whose last line x fits, is classified by
      comparing x with the mean and, if it is a candidate, may become its class's best. */
  method Consider(para: seq<string>, lines: seq<int>, width: int, chars: int, dp: seq<DPEntry>, i: int, x: int,
                  kl0: int, bestl0: Frac, kg0: int, bestg0: Frac)
    returns (kl: int, bestl: Frac, kg: int, bestg: Frac)
    requires |lines| == |para| + 1 && IsVarDP(para, lines, width, dp) && lines[|para|] > 3
    requires 0 <= i < |para| && x == SegWidth(para, i, |para|) && x <= width
    requires ClassSoFar(para, lines, width, chars, dp, true, kl0, bestl0, i)
    requires ClassSoFar(para, lines, width, chars, dp, false, kg0, bestg0, i)
    ensures ClassSoFar(para, lines, width, chars, dp, true, kl, bestl, i - 1)
    ensures ClassSoFar(para, lines, width, chars, dp, false, kg, bestg, i - 1)
  {
    var n := |para|;
    kl, bestl, kg, bestg := kl0, bestl0, kg0, bestg0;
    var mean := Frac(chars - x, lines[i]);
    var v := Sub(Frac(dp[i].cost.value, lines[i]), Mul(mean, mean));
    assert v == Variance(para, lines, chars, dp, i);
    if lines[i] + 1 == lines[n] {
      if Det(Frac(x, 1), mean) <= 0 {
        if Cmp(v, bestl) {
          ClassTakes(para, lines, width, chars, dp, true, kl, bestl, i);
          bestl := v;
          kl := i;
        } else {
          ClassKeeps(para, lines, width, chars, dp, true, kl, bestl, i);
        }
        ClassKeeps(para, lines, width, chars, dp, false, kg, bestg, i);
      } else {
        if Cmp(v, bestg) {
          ClassTakes(para, lines, width, chars, dp, false, kg, bestg, i);
          bestg := v;
          kg := i;
        } else {
          ClassKeeps(para, lines, width, chars, dp, false, kg, bestg, i);
        }
        ClassKeeps(para, lines, width, chars, dp, true, kl, bestl, i);
      }
    } else {
      ClassKeeps(para, lines, width, chars, dp, true, kl, bestl, i);
      ClassKeeps(para, lines, width, chars, dp, false, kg, bestg, i);
    }
  }

  /** process_dp of inflow.cpp: the start of the last line. */
  method ProcessDP(para: seq<string>, lines: seq<int>, chars: int, dp: seq<DPEntry>, width: int)
    returns (k: int)
    requires AllFit(para, width) && AllTokens(para)
    requires lines == GreedyLines(para, width)
    requires IsVarDP(para, lines, width, dp)
    ensures LastLineChoice(para, lines, width, chars, dp, k)
  {
    var n := |para|;
    if lines[n] <= 3 {
      return n;
    }
    GreedyLinesShape(para, width);
    OneLineIfFits(para, width);
    var x, kl, kg := 0, 0, 0;
    var bestl, bestg := Infinity, Infinity;
    var i := n - 1;
    while true
      invariant 0 <= i < n
      invariant x == SegWidth(para, i + 1, n)
      invariant ClassSoFar(para, lines, width, chars, dp, true, kl, bestl, i)
      invariant ClassSoFar(para, lines, width, chars, dp, false, kg, bestg, i)
      decreases i
    {
      if i + 1 < n {
        SegWidthFirst(para, i + 1, n);
      }
      x := x + (if x != 0 then 1 else 0) + |para[i]|;
      assert x == SegWidth(para, i, n);
      if x > width {
        break;
      }
      kl, bestl, kg, bestg := Consider(para, lines, width, chars, dp, i, x, kl, bestl, kg, bestg);
      i := i - 1;
    }
    TooWideBelow(para, width, i, n);
    LineStartIsPredecessor(para, width, n);
    assert Candidate(para, lines, width, LineStart(para, width, n));
    if bestl != Infinity {
      VarianceDenPositive(para, lines, width, chars, dp, kl);
    }
    k := if bestl.den != 0 then kl else kg;
  }
}
