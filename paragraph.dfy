/** Tokens, segments of a paragraph and the widths of the lines they form.
    A paragraph is the flat sequence of tokens of one block; a line holding
    tokens p[j..i] is those tokens separated by single spaces. */
module Paragraph {

  /** The white-space characters a line is split on (the C locale's isspace). */
  predicate IsSpace(c: char) {
    c == ' ' || c == '\t' || c == '\n' || c == '\U{000B}' || c == '\U{000C}' || c == '\r'
  }

  /** A token: a non-empty run of non-space characters. */
  predicate IsToken(w: string) {
    |w| > 0 && forall c :: 0 <= c < |w| ==> !IsSpace(w[c])
  }

  predicate AllTokens(p: seq<string>) {
    forall t :: 0 <= t < |p| ==> IsToken(p[t])
  }

  /** Every token fits on a line of the given width by itself. */
  predicate AllFit(p: seq<string>, width: int) {
    forall t :: 0 <= t < |p| ==> |p[t]| <= width
  }

  /** Width of the line holding tokens p[j..i]: their lengths plus one space between neighbours. */
  function SegWidth(p: seq<string>, j: int, i: int): int
    requires 0 <= j <= i <= |p|
    decreases i - j
  {
    if j == i then 0
    else if j + 1 == i then |p[j]|
    else |p[j]| + 1 + SegWidth(p, j + 1, i)
  }

  /** A line is at least as wide as its first token. */
  lemma {:induction false} SegWidthFirst(p: seq<string>, j: int, i: int)
    requires 0 <= j < i <= |p|
    ensures SegWidth(p, j, i) >= |p[j]|
    decreases i - j
  {
    if j + 1 < i {
      SegWidthFirst(p, j + 1, i);
    }
  }

  /** Sum of the lengths of the tokens. */
  function TotalLen(ws: seq<string>): nat {
    if ws == [] then 0 else |ws[0]| + TotalLen(ws[1..])
  }

  /** The tokens joined by single spaces (Python's " ".join, and the C++ output loop). */
  function Join(ws: seq<string>): string {
    if |ws| == 0 then ""
    else if |ws| == 1 then ws[0]
    else Join(ws[..|ws| - 1]) + " " + ws[|ws| - 1]
  }

  function Flatten(xss: seq<seq<string>>): seq<string> {
    if xss == [] then [] else xss[0] + Flatten(xss[1..])
  }

  /** Number of leading non-space characters of s. */
  function WordLen(s: string): (n: nat)
    ensures n <= |s|
    ensures forall c :: 0 <= c < n ==> !IsSpace(s[c])
    ensures n < |s| ==> IsSpace(s[n])
  {
    if s == [] || IsSpace(s[0]) then 0 else 1 + WordLen(s[1..])
  }

  /** The white-space separated pieces of s, in order (istringstream >>, str.split()). */
  function Words(s: string): seq<string>
    decreases |s|
  {
    if s == [] then []
    else if IsSpace(s[0]) then Words(s[1..])
    else
      var n := WordLen(s);
      [s[..n]] + Words(s[n..])
  }

  /** The pieces are tokens, and they use no more characters than the line has. */
  lemma {:induction false} WordsAreTokens(s: string)
    ensures AllTokens(Words(s)) && TotalLen(Words(s)) <= |s|
    decreases |s|
  {
    if s == [] {
    } else if IsSpace(s[0]) {
      WordsAreTokens(s[1..]);
    } else {
      var n := WordLen(s);
      WordsAreTokens(s[n..]);
      var rest := Words(s[n..]);
      var r := [s[..n]] + rest;
      assert Words(s) == r;
      assert IsToken(s[..n]);
      assert forall t :: 1 <= t < |r| ==> r[t] == rest[t - 1];
      assert r[1..] == rest;
    }
  }

  /** Adding one token on the right of a line widens it by one space and the token. */
  lemma {:induction false} SegWidthSnoc(p: seq<string>, j: int, i: int)
    requires 0 <= j < i < |p|
    ensures SegWidth(p, j, i + 1) == SegWidth(p, j, i) + 1 + |p[i]|
    decreases i - j
  {
    if j + 1 < i {
      SegWidthSnoc(p, j + 1, i);
    }
  }

  /** A segment is at least as wide as any segment it contains. */
  lemma {:induction false} SegWidthMono(p: seq<string>, j: int, j': int, i': int, i: int)
    requires 0 <= j <= j' <= i' <= i <= |p|
    ensures SegWidth(p, j', i') <= SegWidth(p, j, i)
    decreases (j' - j) + (i - i')
  {
    if j < j' {
      SegWidthMono(p, j + 1, j', i', i);
    } else if i' < i {
      SegWidthMono(p, j, j', i', i - 1);
      if j < i - 1 {
        SegWidthSnoc(p, j, i - 1);
      }
    }
  }

  /** A line's width is the total token length plus one space per gap. */
  lemma {:induction false} SegWidthTotal(p: seq<string>, j: int, i: int)
    requires 0 <= j < i <= |p|
    ensures SegWidth(p, j, i) == TotalLen(p[j..i]) + (i - j - 1)
    decreases i - j
  {
    assert p[j..i][1..] == p[j + 1..i];
    if j + 1 < i {
      SegWidthTotal(p, j + 1, i);
    } else {
      assert p[j + 1..i] == [];
    }
  }

  lemma {:induction false} TotalLenAppend(a: seq<string>, b: seq<string>)
    ensures TotalLen(a + b) == TotalLen(a) + TotalLen(b)
    decreases |a|
  {
    if a != [] {
      assert (a + b)[1..] == a[1..] + b;
      TotalLenAppend(a[1..], b);
    } else {
      assert a + b == b;
    }
  }

  /** The total length of a sequence is the total of its two parts. */
  lemma {:induction false} TotalLenSplit(p: seq<string>, i: int)
    requires 0 <= i <= |p|
    ensures TotalLen(p) == TotalLen(p[..i]) + TotalLen(p[i..|p|])
  {
    var a, b := p[..i], p[i..|p|];
    TotalLenAppend(a, b);
    assert a + b == p;
  }

  /** The joined line is exactly as long as its segment's width. */
  lemma {:induction false} JoinLength(p: seq<string>, j: int, i: int)
    requires 0 <= j <= i <= |p|
    ensures |Join(p[j..i])| == SegWidth(p, j, i)
    decreases i - j
  {
    if i - j >= 2 {
      assert p[j..i][..i - j - 1] == p[j..i - 1];
      JoinLength(p, j, i - 1);
      SegWidthSnoc(p, j, i - 1);
    }
  }

  lemma {:induction false} FlattenAppend(a: seq<seq<string>>, b: seq<seq<string>>)
    ensures Flatten(a + b) == Flatten(a) + Flatten(b)
    decreases |a|
  {
    if a != [] {
      assert (a + b)[1..] == a[1..] + b;
      FlattenAppend(a[1..], b);
    } else {
      assert a + b == b;
    }
  }

  /** A single space separates the words on its two sides. */
  lemma {:induction false} WordsAcrossSpace(s: string, t: string)
    ensures Words(s + " " + t) == Words(s) + Words(t)
    decreases |s|
  {
    if s == [] {
      assert s + " " + t == [' '] + t;
      assert (s + " " + t)[1..] == t;
    } else if IsSpace(s[0]) {
      assert (s + " " + t)[1..] == s[1..] + " " + t;
      WordsAcrossSpace(s[1..], t);
    } else {
      var u := s + " " + t;
      var n := WordLen(s);
      WordLenPrefix(s, " " + t);
      assert u == s + (" " + t);
      assert WordLen(u) == n;
      assert u[..n] == s[..n];
      assert u[n..] == s[n..] + " " + t;
      assert u[0] == s[0];
      assert Words(u) == [u[..n]] + Words(u[n..]);
      WordsAcrossSpace(s[n..], t);
    }
  }

  /** Text after the first word's end does not change the first word's length. */
  lemma {:induction false} WordLenPrefix(s: string, t: string)
    requires t != [] && IsSpace(t[0])
    ensures WordLen(s + t) == WordLen(s)
    decreases |s|
  {
    if s == [] {
      assert s + t == t;
    } else if !IsSpace(s[0]) {
      assert (s + t)[1..] == s[1..] + t;
      WordLenPrefix(s[1..], t);
    }
  }

  /** Splitting a line of tokens joined by single spaces gives the tokens back. */
  lemma {:induction false} WordsOfJoin(ws: seq<string>)
    requires AllTokens(ws)
    ensures Words(Join(ws)) == ws
    decreases |ws|
  {
    if |ws| == 1 {
      WordsOfToken(ws[0]);
    } else if |ws| >= 2 {
      var init := ws[..|ws| - 1];
      assert AllTokens(init) by {
        forall t | 0 <= t < |init| ensures IsToken(init[t]) { assert init[t] == ws[t]; }
      }
      WordsOfJoin(init);
      WordsAcrossSpace(Join(init), ws[|ws| - 1]);
      WordsOfToken(ws[|ws| - 1]);
      assert init + [ws[|ws| - 1]] == ws;
    }
  }

  lemma WordsOfToken(w: string)
    requires IsToken(w)
    ensures Words(w) == [w]
  {
    WordLenAll(w);
    assert w[..|w|] == w;
    assert w[|w|..] == [];
  }

  lemma {:induction false} WordLenAll(w: string)
    requires forall c :: 0 <= c < |w| ==> !IsSpace(w[c])
    ensures WordLen(w) == |w|
    decreases |w|
  {
    if w != [] {
      WordLenAll(w[1..]);
    }
  }
}
