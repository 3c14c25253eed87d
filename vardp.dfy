/** The minimum sum-of-squares dynamic program: vardp in inflow.cpp.
    For every prefix of i tokens it picks the first token k of the last line so
    that the prefix uses exactly lines[i] lines (lines[k] + 1 == lines[i]) and
    the sum of squared line widths is least. With the number of lines fixed,
    the least sum of squares is the least variance. */
module VarDP {
  import opened Paragraph
  import opened Greedy

  /** A sum of squares, or the "infinity" a scan starts from. */
  datatype Cost = Finite(value: int) | Infinite

  /** Entry i of the table: the first token of prefix i's last line, and the prefix's best cost. */
  datatype DPEntry = DPEntry(pred: int, cost: Cost)

  /** c is below the best cost found so far (every finite cost is below infinity). */
  predicate Below(c: int, best: Cost) {
    best.Infinite? || c < best.value
  }

  /** Tokens j..i-1 may be the last line of prefix i: they fit, and the prefix then keeps the greedy line count. */
  predicate Feasible(p: seq<string>, lines: seq<int>, w: int, j: int, i: int)
    requires 0 <= j <= i <= |p| && |lines| == |p| + 1
  {
    SegWidth(p, j, i) <= w && lines[j] + 1 == lines[i]
  }

  ghost predicate AllFinite(dp: seq<DPEntry>) {
    forall i :: 0 <= i < |dp| ==> dp[i].cost.Finite?
  }

  /** Cost of prefix i when its last line is tokens j..i-1. */
  function Via(p: seq<string>, dp: seq<DPEntry>, j: int, i: int): int
    requires 0 <= j < i <= |p| && j < |dp| && dp[j].cost.Finite?
  {
    dp[j].cost.value + SegWidth(p, j, i) * SegWidth(p, j, i)
  }

  /** Entry i is right: its predecessor is feasible and gives its cost, no feasible
      start gives less, and every feasible start after it gives strictly more
      (ties keep the largest start, the first one the downward scan meets). */
  ghost predicate DPStep(p: seq<string>, lines: seq<int>, w: int, dp: seq<DPEntry>, i: int)
    requires |lines| == |p| + 1 && 1 <= i < |dp| <= |p| + 1 && AllFinite(dp)
  {
    var k := dp[i].pred;
    0 <= k < i && Feasible(p, lines, w, k, i) &&
    dp[i].cost.value == Via(p, dp, k, i) &&
    (forall j :: k < j < i && Feasible(p, lines, w, j, i) ==> dp[i].cost.value < Via(p, dp, j, i)) &&
    (forall j :: 0 <= j < k && Feasible(p, lines, w, j, i) ==> dp[i].cost.value <= Via(p, dp, j, i))
  }

  /** The first |dp| entries of the table are right. */
  ghost predicate IsVarDPPrefix(p: seq<string>, lines: seq<int>, w: int, dp: seq<DPEntry>) {
    |lines| == |p| + 1 && 1 <= |dp| <= |p| + 1 &&
    dp[0] == DPEntry(0, Finite(0)) && AllFinite(dp) &&
    forall i :: 1 <= i < |dp| ==> DPStep(p, lines, w, dp, i)
  }

  /** The whole table, n+1 entries, is right. */
  ghost predicate IsVarDP(p: seq<string>, lines: seq<int>, w: int, dp: seq<DPEntry>) {
    IsVarDPPrefix(p, lines, w, dp) && |dp| == |p| + 1
  }

  /** Once tokens j..i-1 are too wide, every longer run ending at i is too: the scan may stop. */
  lemma TooWideBelow(p: seq<string>, w: int, j: int, i: int)
    requires 0 <= j <= i <= |p| && SegWidth(p, j, i) > w
    ensures forall j' :: 0 <= j' <= j ==> SegWidth(p, j', i) > w
  {
    forall j' | 0 <= j' <= j ensures SegWidth(p, j', i) > w {
      SegWidthMono(p, j', j, i, i);
    }
  }

  /** Entries already right stay right when the table grows. */
  lemma ExtendKeepsSteps(p: seq<string>, lines: seq<int>, w: int, dp: seq<DPEntry>, e: DPEntry)
    requires IsVarDPPrefix(p, lines, w, dp) && |dp| <= |p| && e.cost.Finite?
    requires var i, k := |dp|, e.pred;
      0 <= k < i && Feasible(p, lines, w, k, i) && e.cost.value == Via(p, dp, k, i) &&
      (forall j :: k < j < i && Feasible(p, lines, w, j, i) ==> e.cost.value < Via(p, dp, j, i)) &&
      (forall j :: 0 <= j < k && Feasible(p, lines, w, j, i) ==> e.cost.value <= Via(p, dp, j, i))
    ensures IsVarDPPrefix(p, lines, w, dp + [e])
  {
    var dp' := dp + [e];
    assert forall j :: 0 <= j < |dp| ==> dp'[j] == dp[j];
    forall i | 1 <= i <= |dp| ensures DPStep(p, lines, w, dp', i) {
      forall j | 0 <= j < i ensures Via(p, dp', j, i) == Via(p, dp, j, i) {
      }
      if i < |dp| {
        assert DPStep(p, lines, w, dp, i);
      }
    }
  }

  /** The predecessor column of the table. */
  function Preds(dp: seq<DPEntry>): (r: seq<int>)
    ensures |r| == |dp| && forall i :: 0 <= i < |dp| ==> r[i] == dp[i].pred
  {
    seq(|dp|, i requires 0 <= i < |dp| => dp[i].pred)
  }

  /** Every entry after the first points back to an earlier one. */
  predicate ValidPreds(preds: seq<int>) {
    forall i :: 1 <= i < |preds| ==> 0 <= preds[i] < i
  }

  /** The line boundaries of prefix i: follow the predecessors back to 0. */
  function Cuts(preds: seq<int>, i: int): (r: seq<int>)
    requires ValidPreds(preds) && 0 <= i < |preds|
    ensures |r| >= 1 && r[0] == 0 && r[|r| - 1] == i
    decreases i
  {
    if i == 0 then [0] else Cuts(preds, preds[i]) + [i]
  }

  /** A division that follows the greedy vector: its q-th boundary is one where the greedy
      packing has used exactly q lines. These are the divisions the table ranges over. */
  ghost predicate Constrained(p: seq<string>, lines: seq<int>, w: int, cuts: seq<int>, i: int)
    requires |lines| == |p| + 1
  {
    Divides(p, w, cuts, 0, i) &&
    forall q :: 0 <= q < |cuts| ==> 0 <= cuts[q] <= |p| && lines[cuts[q]] == q
  }

  /** Sum of the squared widths of the lines of a division. */
  function SumSq(p: seq<string>, cuts: seq<int>): int {
    if |cuts| < 2 then 0
    else
      var a, b := cuts[|cuts| - 2], cuts[|cuts| - 1];
      SumSq(p, cuts[..|cuts| - 1]) + (if 0 <= a <= b <= |p| then SegWidth(p, a, b) * SegWidth(p, a, b) else 0)
  }

  /** Sum of the widths of the lines of a division. */
  function SumWidths(p: seq<string>, cuts: seq<int>): int {
    if |cuts| < 2 then 0
    else
      var a, b := cuts[|cuts| - 2], cuts[|cuts| - 1];
      SumWidths(p, cuts[..|cuts| - 1]) + (if 0 <= a <= b <= |p| then SegWidth(p, a, b) else 0)
  }

  /** Dropping the last boundary of a division leaves a division of the shorter prefix. */
  lemma DivisionInit(p: seq<string>, w: int, cuts: seq<int>, i: int)
    requires Divides(p, w, cuts, 0, i) && |cuts| >= 2
    ensures CutFits(p, w, cuts, |cuts| - 2)
    ensures Divides(p, w, cuts[..|cuts| - 1], 0, cuts[|cuts| - 2])
  {
    var c := cuts[..|cuts| - 1];
    assert CutFits(p, w, cuts, |cuts| - 2);
    forall q | 0 <= q < |c| - 1 ensures CutFits(p, w, c, q) {
      assert CutFits(p, w, cuts, q);
    }
  }

  /** Every predecessor in a right table points to an earlier entry. */
  lemma PredsValid(p: seq<string>, lines: seq<int>, w: int, dp: seq<DPEntry>)
    requires IsVarDP(p, lines, w, dp)
    ensures ValidPreds(Preds(dp))
  {
    var preds := Preds(dp);
    forall i | 1 <= i < |preds| ensures 0 <= preds[i] < i {
      assert DPStep(p, lines, w, dp, i);
    }
  }

  /** A constrained division of prefix k extended by a feasible last line k..i-1 is a
      constrained division of prefix i, one line longer. */
  lemma ConstrainedSnoc(p: seq<string>, lines: seq<int>, w: int, c: seq<int>, k: int, i: int)
    requires |lines| == |p| + 1 && 0 <= k < i <= |p|
    requires Constrained(p, lines, w, c, k) && Feasible(p, lines, w, k, i) && |c| == lines[k] + 1
    ensures var cuts := c + [i];
            Constrained(p, lines, w, cuts, i) && |cuts| == lines[i] + 1 &&
            SumSq(p, cuts) == SumSq(p, c) + SegWidth(p, k, i) * SegWidth(p, k, i)
  {
    var cuts := c + [i];
    assert cuts[..|cuts| - 1] == c;
    forall q | 0 <= q < |cuts| - 1 ensures CutFits(p, w, cuts, q) {
      if q < |c| - 1 {
        assert CutFits(p, w, c, q);
      }
    }
    forall q | 0 <= q < |cuts| ensures 0 <= cuts[q] <= |p| && lines[cuts[q]] == q {
      if q < |c| {
        assert cuts[q] == c[q];
      }
    }
  }

  /** The predecessor chain of prefix i is a division into exactly lines[i] lines that
      follows the greedy vector, and the table's cost is its sum of squares. */
  lemma {:induction false} ChainIsDivision(p: seq<string>, lines: seq<int>, w: int, dp: seq<DPEntry>, i: int)
    requires IsVarDP(p, lines, w, dp) && lines[0] == 0 && 0 <= i <= |p|
    ensures ValidPreds(Preds(dp))
    ensures var cuts := Cuts(Preds(dp), i);
            Constrained(p, lines, w, cuts, i) && |cuts| == lines[i] + 1 &&
            dp[i].cost.value == SumSq(p, cuts)
    decreases i
  {
    PredsValid(p, lines, w, dp);
    var preds := Preds(dp);
    if i > 0 {
      assert DPStep(p, lines, w, dp, i);
      var k := dp[i].pred;
      ChainIsDivision(p, lines, w, dp, k);
      var c := Cuts(preds, k);
      assert Cuts(preds, i) == c + [i];
      ConstrainedSnoc(p, lines, w, c, k, i);
    }
  }

  /** Sum-of-squares minimality: no division of prefix i that follows the greedy vector
      has a smaller sum of squares than the table's entry. */
  lemma {:induction false} TableIsOptimal(p: seq<string>, lines: seq<int>, w: int, dp: seq<DPEntry>,
                                          cuts: seq<int>, i: int)
    requires IsVarDP(p, lines, w, dp) && lines[0] == 0 && 0 <= i <= |p|
    requires Constrained(p, lines, w, cuts, i)
    ensures dp[i].cost.value <= SumSq(p, cuts)
    decreases i
  {
    if i > 0 {
      assert lines[cuts[|cuts| - 1]] == |cuts| - 1;
      assert |cuts| >= 2;
      DivisionInit(p, w, cuts, i);
      var j := cuts[|cuts| - 2];
      var c := cuts[..|cuts| - 1];
      assert lines[cuts[|cuts| - 2]] == |cuts| - 2;
      assert Constrained(p, lines, w, c, j) by {
        forall q | 0 <= q < |c| ensures 0 <= c[q] <= |p| && lines[c[q]] == q {
          assert c[q] == cuts[q];
        }
      }
      TableIsOptimal(p, lines, w, dp, c, j);
      assert Feasible(p, lines, w, j, i);
      assert DPStep(p, lines, w, dp, i);
    } else {
      assert lines[cuts[|cuts| - 1]] == |cuts| - 1;
    }
  }

  /** Every division of the first i tokens into exactly lines[i] fitting lines follows the
      greedy vector: greedy stays ahead up to each boundary, and cannot catch up after it. */
  lemma DivisionFollowsGreedy(p: seq<string>, w: int, cuts: seq<int>, i: int)
    requires AllFit(p, w) && Divides(p, w, cuts, 0, i) && |cuts| - 1 == GreedyLines(p, w)[i]
    ensures Constrained(p, GreedyLines(p, w), w, cuts, i)
  {
    var lines := GreedyLines(p, w);
    GreedyLinesShape(p, w);
    forall q | 0 <= q < |cuts| ensures 0 <= cuts[q] <= |p| && lines[cuts[q]] == q {
      DividesSplit(p, w, cuts, 0, i, q);
      DivisionBound(p, w, cuts[..q + 1], 0, cuts[q]);
      DivisionBound(p, w, cuts[q..], cuts[q], i);
    }
  }

  /** Sum-of-squares minimality over all divisions: no division of the first i tokens into
      lines[i] fitting lines has a smaller sum of squares than the table's entry. */
  lemma TableIsLeast(p: seq<string>, lines: seq<int>, w: int, dp: seq<DPEntry>, cuts: seq<int>, i: int)
    requires AllFit(p, w) && lines == GreedyLines(p, w) && IsVarDP(p, lines, w, dp)
    requires Divides(p, w, cuts, 0, i) && |cuts| - 1 == lines[i]
    ensures dp[i].cost.value <= SumSq(p, cuts)
  {
    GreedyLinesShape(p, w);
    DivisionFollowsGreedy(p, w, cuts, i);
    TableIsOptimal(p, lines, w, dp, cuts, i);
  }

  /** The widths of a division's lines add up to the total token length plus one space per
      token that is not last on its line. */
  lemma {:induction false} SumWidthsTotal(p: seq<string>, w: int, cuts: seq<int>, i: int)
    requires Divides(p, w, cuts, 0, i)
    ensures SumWidths(p, cuts) == TotalLen(p[..i]) + i - (|cuts| - 1)
    decreases |cuts|
  {
    if |cuts| >= 2 {
      DivisionInit(p, w, cuts, i);
      var j := cuts[|cuts| - 2];
      SumWidthsTotal(p, w, cuts[..|cuts| - 1], j);
      SegWidthTotal(p, j, i);
      assert p[..i] == p[..j] + p[j..i];
      TotalLenAppend(p[..j], p[j..i]);
    } else {
      assert p[..0] == [];
    }
  }

  /** vardp of inflow.cpp over the greedy vector: the outer loop over prefixes. */
  method VarDPTable(para: seq<string>, lines: seq<int>, width: int) returns (dp: seq<DPEntry>)
    requires AllFit(para, width) && AllTokens(para)
    requires lines == GreedyLines(para, width)
    ensures IsVarDP(para, lines, width, dp)
  {
    GreedyLinesShape(para, width);
    var n := |para|;
    dp := [DPEntry(0, Finite(0))];
    var i := 1;
    while i < n + 1
      invariant 1 <= i <= n + 1 && |dp| == i
      invariant IsVarDPPrefix(para, lines, width, dp)
    {
      var k, best := BestLastLine(para, lines, width, dp, i);
      var e := DPEntry(k, best);
      ExtendKeepsSteps(para, lines, width, dp, e);
      dp := dp + [e];
      i := i + 1;
    }
  }

  /** The inner loop of vardp: scan the first token j of prefix i's last line downward
      while the line fits, keeping the feasible j of least cost. The entry it gives is right. */
  method BestLastLine(para: seq<string>, lines: seq<int>, width: int, dp: seq<DPEntry>, i: int)
    returns (k: int, best: Cost)
    requires AllFit(para, width) && AllTokens(para)
    requires lines == GreedyLines(para, width)
    requires IsVarDPPrefix(para, lines, width, dp) && |dp| == i <= |para|
    ensures best.Finite?
    ensures 0 <= k < i && Feasible(para, lines, width, k, i) && best.value == Via(para, dp, k, i)
    ensures forall j :: k < j < i && Feasible(para, lines, width, j, i) ==> best.value < Via(para, dp, j, i)
    ensures forall j :: 0 <= j < k && Feasible(para, lines, width, j, i) ==> best.value <= Via(para, dp, j, i)
  {
    k, best := 0, Infinite;
    var x := 0;
    var j := i - 1;
    ghost var broke := false;
    while j >= 0
      invariant -1 <= j < i && !broke
      invariant x == SegWidth(para, j + 1, i) && x <= width
      invariant best.Infinite? ==> forall j' :: j < j' < i ==> !Feasible(para, lines, width, j', i)
      invariant best.Finite? ==>
        j < k < i && Feasible(para, lines, width, k, i) && best.value == Via(para, dp, k, i) &&
        (forall j' :: k < j' < i && Feasible(para, lines, width, j', i) ==> best.value < Via(para, dp, j', i)) &&
        (forall j' :: j < j' < k && Feasible(para, lines, width, j', i) ==> best.value <= Via(para, dp, j', i))
      decreases j
    {
      if j + 1 < i {
        SegWidthFirst(para, j + 1, i);
      }
      var v := x + (if x != 0 then 1 else 0) + |para[j]|;
      assert v == SegWidth(para, j, i);
      if v <= width {
        x := v;
        var c := dp[j].cost.value + x * x;
        if Below(c, best) && lines[j] + 1 == lines[i] {
          k := j;
          best := Finite(c);
        }
      } else {
        broke := true;
        break;
      }
      j := j - 1;
    }
    if broke {
      TooWideBelow(para, width, j, i);
    }
    LineStartIsPredecessor(para, width, i);
    assert Feasible(para, lines, width, LineStart(para, width, i), i);
  }
}
