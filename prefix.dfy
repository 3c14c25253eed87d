/** Prefix extraction and tokenisation: parse_prefix in inflow.cpp and
    get_prefix in inflow.py. The prefix of a block is the longest run of
    prefix characters that every line of the block starts with. */
module Prefix {
  import opened Paragraph

  /** The characters a prefix may consist of. */
  const PrefixChars: set<char> := {' ', '>', ':', '-', '*', '|', '#', '$', '%', '"', '\''}

  /** Column c can extend the prefix: line 0 has a prefix character there and every line has the same. */
  predicate Agree(lines: seq<string>, c: int)
    requires |lines| > 0 && 0 <= c
  {
    c < |lines[0]| && lines[0][c] in PrefixChars &&
    forall m :: 0 <= m < |lines| ==> c < |lines[m]| && lines[m][c] == lines[0][c]
  }

  /** The prefix columns from c on. */
  function PrefixFrom(lines: seq<string>, c: nat): string
    requires |lines| > 0
    decreases |lines[0]| - c
  {
    if Agree(lines, c) then [lines[0][c]] + PrefixFrom(lines, c + 1) else []
  }

  /** The longest common prefix of prefix characters. */
  function LongestPrefix(lines: seq<string>): string
    requires |lines| > 0
  {
    PrefixFrom(lines, 0)
  }

  /** Shortest line length (Python's min(map(len, lines))). */
  function MinLen(lines: seq<string>): (r: nat)
    requires |lines| > 0
    ensures forall m :: 0 <= m < |lines| ==> r <= |lines[m]|
    ensures exists m :: 0 <= m < |lines| && r == |lines[m]|
  {
    if |lines| == 1 then |lines[0]|
    else
      var r := MinLen(lines[1..]);
      assert forall m :: 1 <= m < |lines| ==> lines[1..][m - 1] == lines[m];
      if |lines[0]| <= r then |lines[0]| else r
  }

  /** Tokens of the lines once the first k characters of each are removed, in order. */
  function StrippedWords(lines: seq<string>, k: nat): seq<string> {
    if lines == [] then []
    else Words(if k <= |lines[0]| then lines[0][k..] else []) + StrippedWords(lines[1..], k)
  }

  lemma {:induction false} PrefixFromSpec(lines: seq<string>, c: nat)
    requires |lines| > 0
    ensures var r := PrefixFrom(lines, c);
            (forall d :: c <= d < c + |r| ==> Agree(lines, d) && r[d - c] == lines[0][d]) &&
            !Agree(lines, c + |r|)
    decreases |lines[0]| - c
  {
    if Agree(lines, c) {
      PrefixFromSpec(lines, c + 1);
      var r, r' := PrefixFrom(lines, c), PrefixFrom(lines, c + 1);
      assert r == [lines[0][c]] + r';
      forall d | c <= d < c + |r| ensures Agree(lines, d) && r[d - c] == lines[0][d] {
        if d > c {
          assert r[d - c] == r'[d - c - 1];
        }
      }
    }
  }

  /** The prefix is a prefix of every line, consists of prefix characters, and is maximal:
      at the next column line 0 has ended or holds a non-prefix character, or some line
      has ended or differs from line 0. */
  lemma LongestPrefixSpec(lines: seq<string>)
    requires |lines| > 0
    ensures var pre := LongestPrefix(lines);
            (forall m :: 0 <= m < |lines| ==> |pre| <= |lines[m]| && lines[m][..|pre|] == pre) &&
            (forall c :: 0 <= c < |pre| ==> pre[c] in PrefixChars) &&
            !Agree(lines, |pre|)
  {
    var pre := LongestPrefix(lines);
    PrefixFromSpec(lines, 0);
    forall m | 0 <= m < |lines| ensures |pre| <= |lines[m]| && lines[m][..|pre|] == pre {
      if |pre| > 0 {
        assert Agree(lines, |pre| - 1);
      }
      forall d | 0 <= d < |pre| ensures lines[m][d] == pre[d] {
        assert Agree(lines, d);
      }
    }
    forall c | 0 <= c < |pre| ensures pre[c] in PrefixChars {
      assert Agree(lines, c);
    }
  }

  /** A common prefix of prefix characters that cannot be extended is the longest one. */
  lemma LongestPrefixUnique(lines: seq<string>, q: string)
    requires |lines| > 0
    requires forall m :: 0 <= m < |lines| ==> |q| <= |lines[m]| && lines[m][..|q|] == q
    requires forall c :: 0 <= c < |q| ==> q[c] in PrefixChars
    requires !Agree(lines, |q|)
    ensures LongestPrefix(lines) == q
  {
    PrefixFromIs(lines, q, 0);
  }

  lemma {:induction false} PrefixFromIs(lines: seq<string>, q: string, c: nat)
    requires |lines| > 0 && c <= |q|
    requires forall m :: 0 <= m < |lines| ==> |q| <= |lines[m]| && lines[m][..|q|] == q
    requires forall c :: 0 <= c < |q| ==> q[c] in PrefixChars
    requires !Agree(lines, |q|)
    ensures PrefixFrom(lines, c) == q[c..]
    decreases |q| - c
  {
    if c < |q| {
      forall m | 0 <= m < |lines| ensures c < |lines[m]| && lines[m][c] == lines[0][c] {
        assert lines[m][..|q|][c] == q[c];
        assert lines[0][..|q|][c] == q[c];
      }
      assert Agree(lines, c);
      PrefixFromIs(lines, q, c + 1);
      assert lines[0][c] == lines[0][..|q|][c];
    }
  }

  lemma {:induction false} StrippedWordsAppend(a: seq<string>, b: seq<string>, k: nat)
    ensures StrippedWords(a + b, k) == StrippedWords(a, k) + StrippedWords(b, k)
    decreases |a|
  {
    if a == [] {
      assert a + b == b;
    } else {
      assert (a + b)[1..] == a[1..] + b;
      StrippedWordsAppend(a[1..], b, k);
    }
  }

  /** Every piece is a token. */
  lemma {:induction false} StrippedWordsTokens(lines: seq<string>, k: nat)
    ensures AllTokens(StrippedWords(lines, k))
    decreases |lines|
  {
    if lines != [] {
      StrippedWordsTokens(lines[1..], k);
      WordsAreTokens(if k <= |lines[0]| then lines[0][k..] else []);
      var a := Words(if k <= |lines[0]| then lines[0][k..] else []);
      var b := StrippedWords(lines[1..], k);
      assert forall t :: |a| <= t < |a + b| ==> (a + b)[t] == b[t - |a|];
    }
  }

  lemma StrippedWordsSnoc(lines: seq<string>, m: int, k: nat)
    requires 0 <= m < |lines|
    ensures StrippedWords(lines[..m + 1], k) ==
            StrippedWords(lines[..m], k) + Words(if k <= |lines[m]| then lines[m][k..] else [])
  {
    assert lines[..m + 1] == lines[..m] + [lines[m]];
    StrippedWordsAppend(lines[..m], [lines[m]], k);
  }

  /** get_prefix of inflow.py. */
  method GetPrefix(lines: seq<string>) returns (prefix: string)
    requires |lines| > 0
    ensures prefix == LongestPrefix(lines)
  {
    prefix := [];
    var smallest := MinLen(lines);
    var ch := 0;
    while ch < smallest
      invariant 0 <= ch <= smallest
      invariant LongestPrefix(lines) == prefix + PrefixFrom(lines, ch)
    {
      var m := 0;
      var stop := false;
      while m < |lines|
        invariant 0 <= m <= |lines|
        invariant forall m' :: 0 <= m' < m ==> lines[m'][ch] == lines[0][ch] && lines[m'][ch] in PrefixChars
        invariant stop ==> !Agree(lines, ch)
      {
        if lines[m][ch] != lines[0][ch] || lines[m][ch] !in PrefixChars {
          stop := true;
          break;
        }
        m := m + 1;
      }
      if stop {
        break;
      }
      prefix := prefix + [lines[0][ch]];
      ch := ch + 1;
    }
    if ch == smallest {
      assert !Agree(lines, ch);
    }
  }

  /** token is the first of toks that is wider than w. */
  ghost predicate FirstTooWide(toks: seq<string>, w: int, token: string) {
    exists q :: 0 <= q < |toks| && toks[q] == token && |token| > w && AllFit(toks[..q], w)
  }

  /** What parse_prefix of inflow.cpp gives: the tokens and the prefix, or the first token
      that is wider than the width left after the prefix. */
  datatype Parsed = Parsed(para: seq<string>, prefix: string) | WordTooLong(token: string)

  /** parse_prefix of inflow.cpp: the prefix scan, then the tokenisation. */
  method ParsePrefix(lines: seq<string>, width: int) returns (r: Parsed)
    requires |lines| > 0
    ensures var pre := LongestPrefix(lines);
            var toks := StrippedWords(lines, |pre|);
            (r.Parsed? <==> AllFit(toks, width - |pre|)) &&
            (r.Parsed? ==> r.prefix == pre && r.para == toks) &&
            (r.WordTooLong? ==> FirstTooWide(toks, width - |pre|, r.token))
  {
    var prefix := CommonPrefix(lines);
    LongestPrefixSpec(lines);
    r := Tokenize(lines, prefix, width - |prefix|);
  }

  /** The first loop of parse_prefix: extend the prefix column by column while line 0
      holds a prefix character that every other line repeats. */
  method CommonPrefix(lines: seq<string>) returns (prefix: string)
    requires |lines| > 0
    ensures prefix == LongestPrefix(lines)
  {
    prefix := [];
    var end := false;
    var ch := 0;
    while ch < |lines[0]|
      invariant 0 <= ch <= |lines[0]|
      invariant LongestPrefix(lines) == prefix + PrefixFrom(lines, ch)
      invariant !end
    {
      if lines[0][ch] !in PrefixChars {
        break;
      }
      var m := 0;
      while m < |lines|
        invariant 0 <= m <= |lines|
        invariant forall m' :: 0 <= m' < m ==> ch < |lines[m']| && lines[m'][ch] == lines[0][ch]
        invariant !end
      {
        if ch >= |lines[m]| || lines[m][ch] != lines[0][ch] {
          assert !Agree(lines, ch);
          end := true;
          break;
        }
        m := m + 1;
      }
      if end {
        break;
      } else {
        prefix := prefix + [lines[0][ch]];
      }
      ch := ch + 1;
    }
  }

  /** The second loop of parse_prefix: split every non-empty line after the prefix into
      tokens, failing on the first one wider than w. */
  method Tokenize(lines: seq<string>, prefix: string, w: int) returns (r: Parsed)
    requires forall m :: 0 <= m < |lines| ==> |prefix| <= |lines[m]|
    ensures var toks := StrippedWords(lines, |prefix|);
            (r.Parsed? <==> AllFit(toks, w)) &&
            (r.Parsed? ==> r.prefix == prefix && r.para == toks) &&
            (r.WordTooLong? ==> FirstTooWide(toks, w, r.token))
  {
    ghost var toks := StrippedWords(lines, |prefix|);
    var para: seq<string> := [];
    var m := 0;
    while m < |lines|
      invariant 0 <= m <= |lines|
      invariant para == StrippedWords(lines[..m], |prefix|)
      invariant AllFit(para, w)
    {
      var line := lines[m];
      StrippedWordsSnoc(lines, m, |prefix|);
      if |line| != 0 {
        var words := Words(line[|prefix|..]);
        var t;
        para, t := AppendTokens(para, words, w);
        if t < |words| {
          TooLongIsFirst(lines, m, |prefix|, words, t, w);
          return WordTooLong(words[t]);
        }
      } else {
        assert line[|prefix|..] == [];
      }
      m := m + 1;
    }
    assert lines[..m] == lines;
    r := Parsed(para, prefix);
  }

  /** The inner loop of the tokenisation: append the tokens of one line while they fit;
      t is the index of the first one that does not, or |words|. */
  method AppendTokens(para: seq<string>, words: seq<string>, w: int) returns (out: seq<string>, t: int)
    requires AllFit(para, w)
    ensures 0 <= t <= |words| && out == para + words[..t] && AllFit(out, w)
    ensures t < |words| ==> |words[t]| > w
  {
    out := para;
    t := 0;
    while t < |words|
      invariant 0 <= t <= |words|
      invariant out == para + words[..t]
      invariant AllFit(out, w)
    {
      if |words[t]| > w {
        return;
      }
      out := out + [words[t]];
      t := t + 1;
    }
  }

  /** The token Tokenize stops at is the first too-wide one of the whole block. */
  lemma TooLongIsFirst(lines: seq<string>, m: int, k: nat, words: seq<string>, t: int, w: int)
    requires 0 <= m < |lines| && k <= |lines[m]|
    requires words == Words(lines[m][k..]) && 0 <= t < |words| && |words[t]| > w
    ensures var toks := StrippedWords(lines, k);
            var q := |StrippedWords(lines[..m], k) + words[..t]|;
            q < |toks| && toks[q] == words[t] && toks[..q] == StrippedWords(lines[..m], k) + words[..t]
  {
    StrippedWordsAt(lines, m, k);
    SplitAt(StrippedWords(lines[..m], k), words, StrippedWords(lines[m + 1..], k), t);
  }

  /** The tokens of the block around line m. */
  lemma StrippedWordsAt(lines: seq<string>, m: int, k: nat)
    requires 0 <= m < |lines|
    ensures StrippedWords(lines, k) ==
            StrippedWords(lines[..m], k) + Words(if k <= |lines[m]| then lines[m][k..] else []) +
            StrippedWords(lines[m + 1..], k)
  {
    StrippedWordsSnoc(lines, m, k);
    assert lines == lines[..m + 1] + lines[m + 1..];
    StrippedWordsAppend(lines[..m + 1], lines[m + 1..], k);
  }

  lemma SplitAt(a: seq<string>, words: seq<string>, b: seq<string>, t: int)
    requires 0 <= t < |words|
    ensures var toks := a + words + b;
            |a + words[..t]| < |toks| && toks[|a + words[..t]|] == words[t] &&
            toks[..|a + words[..t]|] == a + words[..t]
  {
    var toks := a + words + b;
    assert toks[..|a| + t] == a + words[..t];
  }
}
