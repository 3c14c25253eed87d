/** The block splitter of inflow.py (parse_prefix and parse_lines): input lines
    are cut into blocks at lines equal to "\n"; each run of other lines loses
    its common prefix, and what is left is split again, recursively, so that
    lines which become blank only once the prefix is gone also separate blocks. */
module Blocks {
  import opened Paragraph
  import opened Prefix

  /** One block: its tokens, the width left for them, and the prefix to print. */
  datatype Block = Block(tokens: seq<string>, width: int, prefix: string)

  /** How the prefix of a nested block is combined with the outer one: as written
      (inflow.py:117, the inner prefix is dropped) or kept behind the outer one. */
  datatype Nesting = AsWritten | KeepInner

  /** Every line with its first k characters removed. */
  function Strip(lines: seq<string>, k: nat): seq<string>
    requires forall m :: 0 <= m < |lines| ==> k <= |lines[m]|
  {
    seq(|lines|, m requires 0 <= m < |lines| => lines[m][k..])
  }

  /** The nested blocks, given the outer prefix. */
  function Rewrap(bs: seq<Block>, prefix: string, v: Nesting): seq<Block> {
    seq(|bs|, q requires 0 <= q < |bs| =>
      Block(bs[q].tokens, bs[q].width, if v.AsWritten? then prefix else prefix + bs[q].prefix))
  }

  /** parse_prefix of inflow.py. */
  function PyParsePrefix(lines: seq<string>, width: int, v: Nesting): seq<Block>
    requires |lines| > 0
    decreases TotalLen(lines), 0, 0
  {
    var prefix := LongestPrefix(lines);
    if |prefix| == 0 then
      [Block(StrippedWords(lines, 0), width, prefix)]
    else
      LongestPrefixSpec(lines);
      StripShrinks(lines, |prefix|);
      Rewrap(ParseLinesFrom(Strip(lines, |prefix|), width - |prefix|, [], v), prefix, v)
  }

  /** The loop of parse_lines from some point on, with par the lines of the current run. */
  function ParseLinesFrom(lines: seq<string>, width: int, par: seq<string>, v: Nesting): seq<Block>
    decreases TotalLen(par) + TotalLen(lines), 1, |lines|
  {
    if lines == [] then
      Flush(par, width, v)
    else if lines[0] != "\n" then
      TotalLenAppend(par, [lines[0]]);
      ParseLinesFrom(lines[1..], width, par + [lines[0]], v)
    else
      Flush(par, width, v) + [Block([], width, "")] +
      ParseLinesFrom(lines[1..], width, [], v)
  }

  /** parse_lines of inflow.py. */
  function PyParseLines(lines: seq<string>, width: int, v: Nesting): seq<Block> {
    ParseLinesFrom(lines, width, [], v)
  }

  /** The blocks of one run of lines (nothing for an empty run). */
  function Flush(par: seq<string>, width: int, v: Nesting): seq<Block>
    decreases TotalLen(par), 0, 1
  {
    if |par| > 0 then PyParsePrefix(par, width, v) else []
  }

  /** Stripping a non-empty prefix from every line shortens the input: the recursion terminates. */
  lemma {:induction false} StripShrinks(lines: seq<string>, k: nat)
    requires k >= 1 && forall m :: 0 <= m < |lines| ==> k <= |lines[m]|
    ensures TotalLen(Strip(lines, k)) + |lines| <= TotalLen(lines)
    decreases |lines|
  {
    if lines != [] {
      assert Strip(lines, k)[1..] == Strip(lines[1..], k);
      StripShrinks(lines[1..], k);
    }
  }

  /** No block is wider, with its prefix, than the width it was split for. */
  ghost predicate FitIn(bs: seq<Block>, width: int) {
    forall q :: 0 <= q < |bs| ==> bs[q].width + |bs[q].prefix| <= width
  }

  /** Every block, with its prefix, takes exactly the width it was split for. */
  ghost predicate Fill(bs: seq<Block>, width: int) {
    forall q :: 0 <= q < |bs| ==> bs[q].width + |bs[q].prefix| == width
  }

  lemma FitConcat(a: seq<Block>, b: seq<Block>, width: int)
    requires FitIn(a, width) && FitIn(b, width)
    ensures FitIn(a + b, width) && (Fill(a, width) && Fill(b, width) ==> Fill(a + b, width))
  {
    assert forall q :: |a| <= q < |a + b| ==> (a + b)[q] == b[q - |a|];
  }

  lemma {:induction false} PrefixBlocksFit(lines: seq<string>, width: int, v: Nesting)
    requires |lines| > 0
    ensures var r := PyParsePrefix(lines, width, v);
            FitIn(r, width) && (v.KeepInner? ==> Fill(r, width))
    decreases TotalLen(lines), 0, 0
  {
    var prefix := LongestPrefix(lines);
    if |prefix| > 0 {
      LongestPrefixSpec(lines);
      StripShrinks(lines, |prefix|);
      var inner := ParseLinesFrom(Strip(lines, |prefix|), width - |prefix|, [], v);
      LinesBlocksFit(Strip(lines, |prefix|), width - |prefix|, [], v);
      var r := Rewrap(inner, prefix, v);
      assert forall q :: 0 <= q < |r| ==> r[q].width == inner[q].width;
    }
  }

  lemma {:induction false} LinesBlocksFit(lines: seq<string>, width: int, par: seq<string>, v: Nesting)
    ensures var r := ParseLinesFrom(lines, width, par, v);
            FitIn(r, width) && (v.KeepInner? ==> Fill(r, width))
    decreases TotalLen(par) + TotalLen(lines), 1, |lines|
  {
    if lines == [] {
      if |par| > 0 {
        PrefixBlocksFit(par, width, v);
      }
    } else if lines[0] != "\n" {
      TotalLenAppend(par, [lines[0]]);
      LinesBlocksFit(lines[1..], width, par + [lines[0]], v);
    } else {
      var head := Flush(par, width, v);
      if |par| > 0 {
        PrefixBlocksFit(par, width, v);
      }
      LinesBlocksFit(lines[1..], width, [], v);
      var tail := ParseLinesFrom(lines[1..], width, [], v);
      FitConcat(head, [Block([], width, "")], width);
      FitConcat(head + [Block([], width, "")], tail, width);
    }
  }

  /** With the prefix kept, every block plus its prefix takes the full width. */
  lemma ParsedBlocksFill(lines: seq<string>, width: int)
    ensures Fill(PyParseLines(lines, width, KeepInner), width)
  {
    LinesBlocksFit(lines, width, [], KeepInner);
  }

  /** As written, a non-empty prefix is the prefix of every block it yields, and the
      width of each is at most what is left of the width after the prefix. */
  lemma OuterPrefixOnly(lines: seq<string>, width: int)
    requires |lines| > 0 && |LongestPrefix(lines)| > 0
    ensures var prefix := LongestPrefix(lines);
            forall b :: b in PyParsePrefix(lines, width, AsWritten) ==>
              b.prefix == prefix && b.width <= width - |prefix|
  {
    var prefix := LongestPrefix(lines);
    LongestPrefixSpec(lines);
    StripShrinks(lines, |prefix|);
    var inner := ParseLinesFrom(Strip(lines, |prefix|), width - |prefix|, [], AsWritten);
    LinesBlocksFit(Strip(lines, |prefix|), width - |prefix|, [], AsWritten);
    var r := Rewrap(inner, prefix, AsWritten);
    forall b | b in r ensures b.prefix == prefix && b.width <= width - |prefix| {
      var q :| 0 <= q < |r| && r[q] == b;
      assert b.width == inner[q].width;
    }
  }

  /** Each line split on its own, in order (the loop of inflow.py:111-112). */
  function SplitEach(lines: seq<string>): seq<seq<string>> {
    seq(|lines|, m requires 0 <= m < |lines| => Words(lines[m]))
  }

  lemma {:induction false} StrippedWordsZero(lines: seq<string>)
    ensures StrippedWords(lines, 0) == Flatten(SplitEach(lines))
    decreases |lines|
  {
    if lines != [] {
      assert SplitEach(lines)[1..] == SplitEach(lines[1..]);
      assert lines[0][0..] == lines[0];
      StrippedWordsZero(lines[1..]);
    }
  }

  /** With no prefix, one block holds the tokens of every line in order, at the full width. */
  lemma EmptyPrefixOneBlock(lines: seq<string>, width: int, v: Nesting)
    requires |lines| > 0 && LongestPrefix(lines) == []
    ensures PyParsePrefix(lines, width, v) == [Block(Flatten(SplitEach(lines)), width, "")]
  {
    StrippedWordsZero(lines);
  }

  /** A run without separator lines is only collected. */
  lemma {:induction false} RunCollected(a: seq<string>, rest: seq<string>, width: int, par: seq<string>, v: Nesting)
    requires forall m :: 0 <= m < |a| ==> a[m] != "\n"
    ensures ParseLinesFrom(a + rest, width, par, v) == ParseLinesFrom(rest, width, par + a, v)
    decreases |a|
  {
    if a == [] {
      assert a + rest == rest && par + a == par;
    } else {
      assert (a + rest)[0] == a[0] && (a + rest)[1..] == a[1..] + rest;
      assert par + [a[0]] + a[1..] == par + a;
      RunCollected(a[1..], rest, width, par + [a[0]], v);
    }
  }

  /** Lines without a separator form at most one run. */
  lemma NoSeparator(a: seq<string>, width: int, v: Nesting)
    requires forall m :: 0 <= m < |a| ==> a[m] != "\n"
    ensures PyParseLines(a, width, v) == Flush(a, width, v)
  {
    RunCollected(a, [], width, [], v);
    assert a + [] == a && [] + a == a;
  }

  /** A separator line ends the run before it and yields one empty block of the full width
      with no prefix; the lines after it are split on their own. */
  lemma Separator(a: seq<string>, b: seq<string>, width: int, v: Nesting)
    requires forall m :: 0 <= m < |a| ==> a[m] != "\n"
    ensures PyParseLines(a + ["\n"] + b, width, v) ==
            Flush(a, width, v) + [Block([], width, "")] + PyParseLines(b, width, v)
  {
    assert a + ["\n"] + b == a + (["\n"] + b);
    RunCollected(a, ["\n"] + b, width, [], v);
    assert [] + a == a;
    assert (["\n"] + b)[1..] == b;
  }

  /** Two lines with the common prefix ">" whose rest, " a\n", has the prefix " " of its
      own. As written the block is printed behind ">" alone although its width was reduced
      for "> "; kept, the inner prefix restores the full width. */
  lemma InnerPrefixDropped()
    ensures PyParseLines(["> a\n", ">\n"], 79, AsWritten) == [Block(["a"], 77, ">"), Block([], 78, ">")]
    ensures PyParseLines(["> a\n", ">\n"], 79, KeepInner) == [Block(["a"], 77, "> "), Block([], 78, ">")]
  {
    OuterLevel(AsWritten);
    OuterLevel(KeepInner);
    assert ">" + " " == "> " && ">" + "" == ">";
  }

  lemma OuterLevel(v: Nesting)
    ensures PyParseLines(["> a\n", ">\n"], 79, v) ==
            Rewrap([Block(["a"], 77, " "), Block([], 78, "")], ">", v)
  {
    var outer := ["> a\n", ">\n"];
    assert outer[0][1] == ' ' && outer[1][1] == '\n';
    LongestPrefixUnique(outer, ">");
    NoSeparator(outer, 79, v);
    LongestPrefixSpec(outer);
    assert Strip(outer, 1) == [" a\n"] + ["\n"] + [];
    MiddleLevel(v);
  }

  lemma MiddleLevel(v: Nesting)
    ensures PyParseLines([" a\n"] + ["\n"] + [], 78, v) == [Block(["a"], 77, " "), Block([], 78, "")]
  {
    var run := [" a\n"];
    LongestPrefixUnique(run, " ");
    Separator(run, [], 78, v);
    LongestPrefixSpec(run);
    assert Strip(run, 1) == ["a\n"];
    InnerLevel(v);
    assert " " + "" == " ";
  }

  lemma InnerLevel(v: Nesting)
    ensures PyParseLines(["a\n"], 77, v) == [Block(["a"], 77, "")]
  {
    var rest := ["a\n"];
    LongestPrefixUnique(rest, "");
    NoSeparator(rest, 77, v);
    assert WordLen("a\n") == 1;
    assert "a\n"[..1] == "a" && "a\n"[1..] == "\n" && "\n"[1..] == [];
    assert Words("\n") == [];
    assert Words("a\n") == ["a"];
    assert StrippedWords(rest, 0) == ["a"];
  }

  /** One line of parse_lines: a text line joins the current run; a separator flushes it. */
  lemma ParseLinesStep(lines: seq<string>, width: int, par: seq<string>, v: Nesting)
    requires lines != []
    ensures ParseLinesFrom(lines, width, par, v) ==
            if lines[0] != "\n" then ParseLinesFrom(lines[1..], width, par + [lines[0]], v)
            else Flush(par, width, v) + [Block([], width, "")] + ParseLinesFrom(lines[1..], width, [], v)
  {
  }

  /** parse_lines of inflow.py as a loop. */
  method ParseLines(lines: seq<string>, width: int, v: Nesting) returns (pars: seq<Block>)
    ensures pars == PyParseLines(lines, width, v)
  {
    pars := [];
    var par: seq<string> := [];
    var i := 0;
    while i < |lines|
      invariant 0 <= i <= |lines|
      invariant pars + ParseLinesFrom(lines[i..], width, par, v) == PyParseLines(lines, width, v)
    {
      var line := lines[i];
      ParseLinesStep(lines[i..], width, par, v);
      assert lines[i..][0] == line && lines[i..][1..] == lines[i + 1..];
      if line != "\n" {
        par := par + [line];
      } else {
        ghost var flushed := pars + Flush(par, width, v);
        if |par| > 0 {
          pars := pars + PyParsePrefix(par, width, v);
        }
        assert pars == flushed;
        pars := pars + [Block([], width, "")];
        par := [];
      }
      i := i + 1;
    }
    assert lines[i..] == [];
    if |par| > 0 {
      pars := pars + PyParsePrefix(par, width, v);
    }
  }
}
