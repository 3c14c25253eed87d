/** Reconstruction of the output lines from the predecessor chain, in inflow.cpp
    (process) and in inflow.py (the tail of process), and the whole of process
    in inflow.cpp from the block's lines to the reflowed lines. */
module Reflow {
  import opened Paragraph
  import opened Greedy
  import opened VarDP
  import opened LastLine
  import opened Prefix

  /** The lines of tokens 0..k-1 along the predecessor chain from k, first line first. */
  function ChainSegs(p: seq<string>, preds: seq<int>, k: int): seq<seq<string>>
    requires ValidPreds(preds) && 0 <= k < |preds| && |preds| <= |p| + 1
    decreases k
  {
    if k == 0 then [] else ChainSegs(p, preds, preds[k]) + [p[preds[k]..k]]
  }

  /** All lines of the paragraph: the chain up to k, then tokens k.. as the last line. */
  function Segs(p: seq<string>, preds: seq<int>, k: int): seq<seq<string>>
    requires ValidPreds(preds) && 0 <= k < |preds| && |preds| <= |p| + 1
  {
    ChainSegs(p, preds, k) + (if k < |p| then [p[k..]] else [])
  }

  /** Each line printed: the prefix, then its tokens joined by single spaces. */
  function Render(prefix: string, segs: seq<seq<string>>): seq<string> {
    seq(|segs|, q requires 0 <= q < |segs| => prefix + Join(segs[q]))
  }

  /** The lines read the paragraph's tokens in order. */
  lemma {:induction false} ChainCovers(p: seq<string>, preds: seq<int>, k: int)
    requires ValidPreds(preds) && 0 <= k < |preds| && |preds| <= |p| + 1
    ensures Flatten(ChainSegs(p, preds, k)) == p[..k]
    decreases k
  {
    if k > 0 {
      var j := preds[k];
      ChainCovers(p, preds, j);
      FlattenAppend(ChainSegs(p, preds, j), [p[j..k]]);
      assert Flatten([p[j..k]]) == p[j..k];
      assert p[..j] + p[j..k] == p[..k];
    }
  }

  /** Concatenating the output lines, last line included, gives back the paragraph. */
  lemma SegsCover(p: seq<string>, preds: seq<int>, k: int)
    requires ValidPreds(preds) && 0 <= k < |preds| && |preds| <= |p| + 1
    ensures Flatten(Segs(p, preds, k)) == p
  {
    ChainCovers(p, preds, k);
    var tail := if k < |p| then [p[k..]] else [];
    FlattenAppend(ChainSegs(p, preds, k), tail);
    if k < |p| {
      assert Flatten(tail) == p[k..];
      assert p[..k] + p[k..] == p;
    } else {
      assert p[..k] == p;
    }
  }

  /** Along a correct table, the chain from k has exactly lines[k] lines, each non-empty and
      no wider than the width. */
  lemma {:induction false} ChainLines(p: seq<string>, lines: seq<int>, w: int, dp: seq<DPEntry>, k: int)
    requires IsVarDP(p, lines, w, dp) && lines[0] == 0 && 0 <= k <= |p|
    ensures ValidPreds(Preds(dp))
    ensures var segs := ChainSegs(p, Preds(dp), k);
            |segs| == lines[k] &&
            forall q :: 0 <= q < |segs| ==> segs[q] != [] && |Join(segs[q])| <= w
    decreases k
  {
    ChainIsDivision(p, lines, w, dp, k);
    if k > 0 {
      assert DPStep(p, lines, w, dp, k);
      var j := dp[k].pred;
      ChainLines(p, lines, w, dp, j);
      JoinLength(p, j, k);
      var init := ChainSegs(p, Preds(dp), j);
      var segs := init + [p[j..k]];
      assert forall q :: 0 <= q < |init| ==> segs[q] == init[q];
    }
  }

  /** Rendering one more line. */
  lemma RenderSnoc(prefix: string, segs: seq<seq<string>>, s: seq<string>)
    ensures Render(prefix, segs + [s]) == Render(prefix, segs) + [prefix + Join(s)]
  {
  }

  /** Stripping the prefix from the printed lines and splitting them gives back the tokens. */
  lemma {:induction false} RenderRoundTrip(prefix: string, segs: seq<seq<string>>)
    requires forall q :: 0 <= q < |segs| ==> AllTokens(segs[q])
    ensures StrippedWords(Render(prefix, segs), |prefix|) == Flatten(segs)
    decreases |segs|
  {
    if segs != [] {
      var out := Render(prefix, segs);
      assert out[1..] == Render(prefix, segs[1..]);
      assert out[0][|prefix|..] == Join(segs[0]);
      WordsOfJoin(segs[0]);
      RenderRoundTrip(prefix, segs[1..]);
    }
  }

  /** One printed line: the prefix, tokens s..e-2 each followed by a space, then token e-1. */
  method LineOf(para: seq<string>, s: int, e: int, prefix: string) returns (line: string)
    requires 0 <= s < e <= |para|
    ensures line == prefix + Join(para[s..e])
  {
    line := prefix;
    var j := s;
    while j < e - 1
      invariant s <= j <= e - 1
      invariant j == s ==> line == prefix
      invariant j > s ==> line == prefix + Join(para[s..j]) + " "
    {
      assert para[s..j + 1][..j - s] == para[s..j];
      line := line + para[j] + " ";
      j := j + 1;
    }
    assert para[s..e][..e - 1 - s] == para[s..e - 1];
    line := line + para[e - 1];
  }

  /** The index chain and output loops of process in inflow.cpp. */
  method Reconstruct(para: seq<string>, dp: seq<DPEntry>, k: int, prefix: string) returns (out: seq<string>)
    requires |dp| == |para| + 1 && ValidPreds(Preds(dp)) && 0 <= k <= |para|
    ensures out == Render(prefix, Segs(para, Preds(dp), k))
  {
    ghost var preds := Preds(dp);
    // the chain k, dp[k].pred, ... down to 0
    var idx := [k];
    while idx[|idx| - 1] > 0
      invariant |idx| >= 1 && idx[0] == k
      invariant forall t :: 0 <= t < |idx| ==> 0 <= idx[t] <= k
      invariant forall t :: 0 <= t < |idx| - 1 ==> idx[t] > 0 && idx[t + 1] == preds[idx[t]]
      decreases idx[|idx| - 1]
    {
      idx := idx + [dp[idx[|idx| - 1]].pred];
    }
    out := [];
    var i := |idx| - 1;
    while i > 0
      invariant 0 <= i <= |idx| - 1
      invariant out == Render(prefix, ChainSegs(para, preds, idx[i]))
    {
      var line := LineOf(para, idx[i], idx[i - 1], prefix);
      RenderSnoc(prefix, ChainSegs(para, preds, idx[i]), para[idx[i]..idx[i - 1]]);
      out := out + [line];
      i := i - 1;
    }
    if k < |para| {
      var line := LineOf(para, k, |para|, prefix);
      RenderSnoc(prefix, ChainSegs(para, preds, k), para[k..]);
      assert para[k..|para|] == para[k..];
      out := out + [line];
    }
  }

  /** What process gives: the printed lines, or an error for a token that is too wide
      (inflow.cpp) or a line that is too long (inflow.py). */
  datatype Output = Lines(out: seq<string>) | TokenTooWide(token: string) | LineTooLong

  /** " ".join of each line. */
  function JoinAll(segs: seq<seq<string>>): seq<string> {
    seq(|segs|, q requires 0 <= q < |segs| => Join(segs[q]))
  }

  function Reverse<T>(xs: seq<T>): (r: seq<T>)
    ensures |r| == |xs| && forall t :: 0 <= t < |xs| ==> r[t] == xs[|xs| - 1 - t]
  {
    if xs == [] then [] else Reverse(xs[1..]) + [xs[0]]
  }

  /** The reconstruction in process of inflow.py: the line count and predecessor choice
      (vardp and the float scan) are given as preds and k. */
  method PyReconstruct(par: seq<string>, width: int, prefix: string, preds: seq<int>, k: int) returns (r: Output)
    requires |preds| == |par| + 1 && ValidPreds(preds) && 0 <= k <= |par|
    ensures |par| == 0 ==> r == Lines([prefix])
    ensures |par| > 0 && !AllFit(par, width) ==> r == LineTooLong
    ensures |par| > 0 && AllFit(par, width) ==> r == Lines(Render(prefix, Segs(par, preds, k)))
  {
    if |par| == 0 {
      return Lines([prefix]);
    }
    if !AllFit(par, width) {
      return LineTooLong;
    }
    var out: seq<string> := [];
    var i := k;
    if k < |par| {
      out := out + [Join(par[k..])];
    }
    ghost var all := JoinAll(Segs(par, preds, k));
    assert JoinAll(ChainSegs(par, preds, k)) + Reverse(out) == all;
    while i > 0
      invariant 0 <= i <= k
      invariant JoinAll(ChainSegs(par, preds, i)) + Reverse(out) == all
    {
      var j := preds[i];
      assert JoinAll(ChainSegs(par, preds, i)) == JoinAll(ChainSegs(par, preds, j)) + [Join(par[j..i])];
      assert Reverse(out + [Join(par[j..i])]) == [Join(par[j..i])] + Reverse(out);
      out := out + [Join(par[j..i])];
      i := j;
    }
    var rev := Reverse(out);
    assert JoinAll(ChainSegs(par, preds, 0)) == [];
    assert rev == all;
    r := Lines(seq(|rev|, q requires 0 <= q < |rev| => prefix + rev[q]));
  }

  /** The reflowed block: as many lines as the greedy packing, each the prefix and at most
      the remaining width, and reading the lines back after the prefix gives the tokens. */
  ghost predicate ReflowOf(para: seq<string>, w: int, prefix: string, out: seq<string>)
    requires AllFit(para, w)
  {
    |out| == GreedyLines(para, w)[|para|] && Prefixed(out, prefix, w) && StrippedWords(out, |prefix|) == para
  }

  /** Every line starts with the prefix and is at most the prefix plus w long. */
  ghost predicate Prefixed(out: seq<string>, prefix: string, w: int) {
    forall q :: 0 <= q < |out| ==> |prefix| <= |out[q]| <= |prefix| + w && out[q][..|prefix|] == prefix
  }

  /** The printed lines of a correct table and an allowed last-line start form a reflow. */
  lemma RenderIsReflow(para: seq<string>, w: int, dp: seq<DPEntry>, k: int, prefix: string)
    requires AllFit(para, w) && AllTokens(para)
    requires IsVarDP(para, GreedyLines(para, w), w, dp)
    requires k == |para| || Candidate(para, GreedyLines(para, w), w, k)
    requires 0 <= k <= |para|
    ensures ValidPreds(Preds(dp))
    ensures ReflowOf(para, w, prefix, Render(prefix, Segs(para, Preds(dp), k)))
  {
    var lines := GreedyLines(para, w);
    GreedyLinesShape(para, w);
    ChainLines(para, lines, w, dp, k);
    var chain := ChainSegs(para, Preds(dp), k);
    var segs := Segs(para, Preds(dp), k);
    if k < |para| {
      JoinLength(para, k, |para|);
      assert para[k..|para|] == para[k..];
    }
    assert forall q :: 0 <= q < |chain| ==> segs[q] == chain[q];
    SegsCover(para, Preds(dp), k);
    forall q | 0 <= q < |segs| ensures AllTokens(segs[q]) {
      SegIsSlice(para, Preds(dp), k, q);
    }
    RenderRoundTrip(prefix, segs);
    var out := Render(prefix, segs);
    forall q | 0 <= q < |out| ensures out[q][..|prefix|] == prefix {
      assert out[q] == prefix + Join(segs[q]);
    }
  }

  /** Every line of Segs is a run of the paragraph's tokens. */
  lemma SegIsSlice(p: seq<string>, preds: seq<int>, k: int, q: int)
    requires ValidPreds(preds) && 0 <= k < |preds| && |preds| <= |p| + 1
    requires AllTokens(p) && 0 <= q < |Segs(p, preds, k)|
    ensures AllTokens(Segs(p, preds, k)[q])
  {
    var chain := ChainSegs(p, preds, k);
    if q < |chain| {
      ChainIsSlices(p, preds, k, q);
    }
  }

  lemma {:induction false} ChainIsSlices(p: seq<string>, preds: seq<int>, k: int, q: int)
    requires ValidPreds(preds) && 0 <= k < |preds| && |preds| <= |p| + 1
    requires AllTokens(p) && 0 <= q < |ChainSegs(p, preds, k)|
    ensures AllTokens(ChainSegs(p, preds, k)[q])
    decreases k
  {
    var j := preds[k];
    var init := ChainSegs(p, preds, j);
    if q < |init| {
      ChainIsSlices(p, preds, j, q);
      assert ChainSegs(p, preds, k)[q] == init[q];
    } else {
      var s := p[j..k];
      assert forall t :: 0 <= t < |s| ==> s[t] == p[j + t];
    }
  }

  /** process of inflow.cpp for one block of lines: parse the prefix and the tokens, then
      reflow the tokens in the width left. */
  method Process(lines: seq<string>, width: int) returns (r: Output)
    requires |lines| > 0
    ensures var pre := LongestPrefix(lines);
            var para := StrippedWords(lines, |pre|);
            var w := width - |pre|;
            (r.TokenTooWide? <==> !AllFit(para, w)) && (r.Lines? <==> AllFit(para, w)) &&
            (r.TokenTooWide? ==> FirstTooWide(para, w, r.token)) &&
            (r.Lines? ==> ReflowOf(para, w, pre, r.out) && IsBalanced(para, w, pre, r.out))
  {
    var parsed := ParsePrefix(lines, width);
    if parsed.WordTooLong? {
      return TokenTooWide(parsed.token);
    }
    var para, prefix := parsed.para, parsed.prefix;
    StrippedWordsTokens(lines, |prefix|);
    var out := ReflowTokens(para, width - |prefix|, prefix);
    r := Lines(out);
  }

  /** The rest of process: pack greedily, run the table, choose the last line and rebuild
      the lines. */
  method ReflowTokens(para: seq<string>, w: int, prefix: string) returns (out: seq<string>)
    requires AllFit(para, w) && AllTokens(para)
    ensures ReflowOf(para, w, prefix, out)
    ensures IsBalanced(para, w, prefix, out)
  {
    var lineLengths, chars := GetLines(para, w);
    var dp := VarDPTable(para, lineLengths, w);
    var k := ProcessDP(para, lineLengths, chars, dp, w);
    assert k == |para| || Candidate(para, lineLengths, w, k);
    GreedyLinesShape(para, w);
    ChainIsDivision(para, lineLengths, w, dp, 0);
    out := Reconstruct(para, dp, k, prefix);
    RenderIsReflow(para, w, dp, k, prefix);
    assert Balanced(para, w, prefix, dp, k, out);
  }

  /** out is the layout process prints: the lines along the predecessor chain of a correct
      sum-of-squares table over the greedy vector, ending where the last-line policy starts
      the last line. */
  ghost predicate Balanced(para: seq<string>, w: int, prefix: string, dp: seq<DPEntry>, k: int, out: seq<string>) {
    AllFit(para, w) &&
    var lines := GreedyLines(para, w);
    IsVarDP(para, lines, w, dp) && 0 <= k <= |para| &&
    LastLineChoice(para, lines, w, GreedyChars(para, w, 0), dp, k) &&
    ValidPreds(Preds(dp)) && out == Render(prefix, Segs(para, Preds(dp), k))
  }

  /** out is the balanced layout of some correct table and last-line choice. */
  ghost predicate IsBalanced(para: seq<string>, w: int, prefix: string, out: seq<string>) {
    exists dp, k :: Balanced(para, w, prefix, dp, k, out)
  }

  /** In a balanced layout the lines before the last have the least sum of squared widths
      among all divisions of those tokens that follow the greedy vector. */
  lemma BalancedIsLeastSquares(para: seq<string>, w: int, prefix: string, dp: seq<DPEntry>, k: int,
                               out: seq<string>, cuts: seq<int>)
    requires Balanced(para, w, prefix, dp, k, out)
    requires Constrained(para, GreedyLines(para, w), w, cuts, k)
    ensures var chain := Cuts(Preds(dp), k);
            Constrained(para, GreedyLines(para, w), w, chain, k) && SumSq(para, chain) <= SumSq(para, cuts)
  {
    var lines := GreedyLines(para, w);
    GreedyLinesShape(para, w);
    ChainIsDivision(para, lines, w, dp, k);
    TableIsOptimal(para, lines, w, dp, cuts, k);
  }
}
