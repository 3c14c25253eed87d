# inflow, modelled in Dafny

inflow reflows plain text to a given width. The lines of one block share a
prefix (quote marks, comment leaders, indentation); the prefix is removed, the
rest of the block is split into tokens, and the tokens are packed again so
that the paragraph keeps the least number of lines a greedy packing needs,
while the line widths vary as little as possible. For paragraphs of more than
three lines the last line is not counted in that variance, and a last line no
longer than the mean of the others is preferred; for at most three lines every
line, the last one included, counts.

The model follows the two implementations of the repository:

- `inflow.cpp`, the integer implementation: the fraction helpers (module
  `Fraction`), the greedy line counter (`Greedy.GetLines`), the
  sum-of-squares table (`VarDP.VarDPTable`), the last-line policy
  (`LastLine.ProcessDP`), prefix extraction and tokenisation
  (`Prefix.ParsePrefix`), and `process` from a block's lines to its output
  lines (`Reflow.Reconstruct`, `Reflow.Process`);
- `inflow.py`, the older variant: its greedy counter (`Greedy.PyGetLines`),
  `get_prefix` (`Prefix.GetPrefix`), the recursive block splitter
  `parse_prefix`/`parse_lines` (module `Blocks`) and the reconstruction at the
  end of `process` (`Reflow.PyReconstruct`).

Shared definitions live in `Paragraph`: a token is a non-empty run of
non-space characters, `SegWidth(p, j, i)` is the width of the line holding
tokens `p[j..i]` separated by single spaces, `Join` is `" ".join`, and `Words`
is white-space splitting. The imperative parts of the source (the loops of
`get_lines`, `vardp`, `process_dp`, `parse_prefix`, `get_prefix`,
`parse_lines` and the output loops of `process`) are methods with loops, each
proved equal to a specification function or to a predicate that states what
the source promises; the pure parts are functions and lemmas.

Main results:

- the greedy vector has `n + 1` entries, starts at 0, rises by 0 or 1, every
  greedy line fits, `chars` is the total token length plus `n - lines[n]`, and
  no division of the paragraph into fitting lines uses fewer lines;
- every table entry has a feasible predecessor and the least sum of squares
  over all divisions that follow the greedy vector, ties going to the largest
  start; the predecessor chain from `i` has exactly `lines[i]` lines;
- the mean and the variance `process_dp` compares are exactly the mean and the
  variance of the widths of the lines before the last, fraction comparison is
  rational `<`, and the chosen start is the best of the short-last-line class
  whenever that class has a candidate;
- the prefix is the longest common run of prefix characters; the tokens are
  the white-space pieces of the stripped lines in order, or the first token
  that is too wide is reported;
- the output of `process` has as many lines as the greedy packing, each line
  starts with the prefix and fits the width, and splitting the lines again
  after the prefix gives back exactly the tokens.

For a block without tokens, `process` in `inflow.py` returns the prefix alone
(one line), while `process` in `inflow.cpp` prints nothing; each model follows
its own source.

## Model

| member | source | states |
|---|---|---|
| `Fraction.Det` | inflow.cpp:22-25 | definition of `det`; properties in `Fraction.DetAntisymmetric`, `Fraction.CmpIsLess` |
| `Fraction.Mul` | inflow.cpp:26-29 | definition of `mul`; properties in `Fraction.MulIsProduct` |
| `Fraction.Sub` | inflow.cpp:30-33 | definition of `sub`; properties in `Fraction.SubIsDifference` |
| `Fraction.Cmp` | inflow.cpp:34-37 | definition of `cmp`; properties in `Fraction.CmpIsLess`, `Fraction.CmpTransitive`, `Fraction.InfinityLoses` |
| `Fraction.DetAntisymmetric` | inflow.cpp:22-25 | `det(x, y) == -det(y, x)` |
| `Fraction.MulIsProduct` | inflow.cpp:26-29 | with non-zero denominators, `mul` represents the product of the two rationals |
| `Fraction.SubIsDifference` | inflow.cpp:30-33 | with non-zero denominators, `sub` represents the difference of the two rationals |
| `Fraction.CmpIsLess` | inflow.cpp:34-37 | with positive denominators, `cmp(x, y)` holds exactly when x < y as rationals |
| `Fraction.CmpTransitive` | inflow.cpp:34-37 | `cmp` is transitive on fractions with positive denominators |
| `Fraction.InfinityLoses` | inflow.cpp:107-108 | every fraction with a positive denominator is `cmp`-below the start value (1, 0), and (1, 0) is below none |
| `Paragraph.Words` | inflow.cpp:164-167 | definition of white-space splitting (`ss >> token`; `line.split()` at inflow.py:112); properties in `Paragraph.WordsAreTokens`, `Paragraph.WordsOfJoin`, `Paragraph.WordsAcrossSpace` |
| `Paragraph.Join` | inflow.py:80-83 | definition of `" ".join`; properties in `Paragraph.JoinLength`, `Paragraph.WordsOfJoin` |
| `Paragraph.WordsAreTokens` | inflow.cpp:164-173 | the white-space pieces of a line are tokens (non-empty, no space) and use at most the line's characters |
| `Paragraph.JoinLength` | inflow.cpp:203-206 | a printed line `p[j] ' ' ... p[i-1]` is exactly `SegWidth(p, j, i)` wide |
| `Paragraph.WordsOfJoin` | inflow.py:80-83 | splitting `" ".join(ws)` gives back `ws` for any tokens |
| `Greedy.LineEndFrom` | inflow.cpp:51-56 | a greedy line takes tokens while they fit: it fits, and either ends the paragraph or one more token would not fit |
| `Greedy.GetLines` | inflow.cpp:39-65 | the C++ counter returns the greedy vector `GreedyLines` and the greedy width total `GreedyChars` |
| `Greedy.PackLine` | inflow.cpp:48-62 | one outer round packs the greedy line from `i`; when token `i` alone is wider than the width, `i`, `lines` and `chars` do not change, so the source's loop never ends |
| `Greedy.PyGetLines` | inflow.py:11-26 | the Python counter returns the same greedy vector as the C++ one |
| `Greedy.PyPackLine` | inflow.py:16-24 | one round of the Python outer loop packs the greedy line from `i`, appending the line count once per token; a token alone wider than the width changes nothing |
| `Greedy.GreedyLinesShape` | inflow.cpp:43-63 | `lines` has n+1 entries, `lines[0] == 0`, `lines[1] == 1` when n >= 1, and each step is 0 or 1 |
| `Greedy.LineStartIsPredecessor` | inflow.cpp:47-63 | every prefix of i >= 1 tokens ends with a greedy line j..i-1 that fits and has `lines[j] + 1 == lines[i]` |
| `Greedy.GreedyLinesCount` | inflow.cpp:47-63 | `lines[n]` is the number of greedy lines |
| `Greedy.GreedyCharsIsTotal` | inflow.cpp:48-62 | `chars` equals the total token length plus n minus `lines[n]` |
| `Greedy.GreedyIsMinimal` | inflow.cpp:39-65 | no division of the paragraph into fitting lines uses fewer lines than the greedy packing |
| `Greedy.OneLineStep` | inflow.cpp:47-63 | when tokens a..t-1 fit on one line, `lines[t]` is at most `lines[a] + 1` |
| `Greedy.DivisionBound` | inflow.cpp:39-65 | a division of tokens a..b-1 into fitting lines uses at least `lines[b] - lines[a]` lines: greedy packing stays ahead between any two cuts |
| `Greedy.OneLineIfFits` | inflow.cpp:112-116 | a paragraph of more than one greedy line does not fit on one line, so the backward scan of `process_dp` reaches its `break` before index 0 |
| `VarDP.VarDPTable` | inflow.cpp:67-94 | the table has n+1 entries, `dp[0] == (0, 0)`, and every entry satisfies `DPStep`: feasible predecessor, cost via it, least cost, largest start among ties, no infinity left |
| `VarDP.BestLastLine` | inflow.cpp:76-90 | the downward scan for prefix i returns a feasible start k < i with cost `dp[k] + SegWidth(k, i)^2`, strictly below every later feasible start and at most every earlier one |
| `VarDP.TooWideBelow` | inflow.cpp:85-87 | once tokens j..i-1 are too wide every longer line ending at i is too, so the scan's `break` loses no candidate |
| `VarDP.PredsValid` | inflow.cpp:76-90 | every predecessor the table stores points to an earlier prefix, so the chain of inflow.cpp:197-199 reaches 0 |
| `VarDP.ChainIsDivision` | inflow.cpp:71-91 | the predecessor chain from i is a division of the first i tokens into exactly `lines[i]` fitting lines that follows the greedy vector, and `dp[i]` is its sum of squares |
| `VarDP.TableIsOptimal` | inflow.cpp:68-70 | no division of the first i tokens that follows the greedy vector has a smaller sum of squares than `dp[i]` |
| `VarDP.DivisionFollowsGreedy` | inflow.cpp:67-94 | every division of the first i tokens into `lines[i]` fitting lines follows the greedy vector: its q-th cut is at a token with `lines` value q |
| `VarDP.TableIsLeast` | inflow.cpp:67-94 | no division of the first i tokens into `lines[i]` fitting lines (the least number) has a smaller sum of squares than `dp[i]` |
| `LastLine.ProcessDP` | inflow.cpp:96-136 | `LastLineChoice`: for at most three lines the result is n; otherwise it is a last-line candidate of the short class when one exists (else of the long class) whose variance no candidate of the class beats, and which beats every later candidate of the class |
| `LastLine.Consider` | inflow.cpp:118-132 | one step of the backward scan keeps, for both classes, the best candidate among the starts seen so far (or infinity when the class had none) |
| `LastLine.ShortLastIsAtMostMean` | inflow.cpp:121 | the test `det((x, 1), mean) <= 0` holds exactly when the last line is at most the mean as rationals |
| `LastLine.VarianceIsExact` | inflow.cpp:117-119 | the compared fraction is the sum of squares over `lines[i]` minus the square of the mean |
| `LastLine.MeanIsExact` | inflow.cpp:118 | `chars - x` is the total width of the chain's lines before the last line and `lines[i]` their number |
| `Prefix.MinLen` | inflow.py:94 | the result is the length of some line and no line is shorter |
| `Prefix.LongestPrefixSpec` | inflow.cpp:145-160 | the prefix starts every line, consists of prefix characters, and cannot be extended by one column |
| `Prefix.LongestPrefixUnique` | inflow.py:91-92 | any common run of prefix characters that cannot be extended is the prefix |
| `Prefix.GetPrefix` | inflow.py:89-103 | `get_prefix` returns the longest common prefix |
| `Prefix.CommonPrefix` | inflow.cpp:145-160 | the prefix loop of `parse_prefix` returns the same longest common prefix |
| `Prefix.Tokenize` | inflow.cpp:161-175 | the tokens are the white-space pieces of the stripped lines in order when all fit, and otherwise the result names the first too-wide token |
| `Prefix.AppendTokens` | inflow.cpp:167-173 | the tokens of one line are appended until the first one wider than the width, which is reported by index |
| `Prefix.ParsePrefix` | inflow.cpp:138-177 | success exactly when every token fits the width left after the prefix; then the prefix and the tokens in order; else the first too-wide token |
| `Blocks.PyParsePrefix` | inflow.py:106-119 | definition of `parse_prefix` (as written or with inner prefixes kept); properties in `Blocks.PrefixBlocksFit`, `Blocks.OuterPrefixOnly`, `Blocks.EmptyPrefixOneBlock`, `Blocks.ParsedBlocksFill` |
| `Blocks.Rewrap` | inflow.py:116-118 | definition of the comprehension that re-labels the inner blocks; properties in `Blocks.OuterPrefixOnly`, `Blocks.ParsedBlocksFill`, `Blocks.InnerPrefixDropped` |
| `Blocks.ParseLinesFrom` | inflow.py:122-135 | definition of the `parse_lines` loop from a given run; properties in `Blocks.NoSeparator`, `Blocks.Separator`, `Blocks.LinesBlocksFit` |
| `Blocks.PyParseLines` | inflow.py:122-135 | definition of `parse_lines`; properties in `Blocks.LinesBlocksFit`, `Blocks.Separator`, `Blocks.ParseLines` |
| `Blocks.StripShrinks` | inflow.py:115-118 | removing a non-empty prefix shortens the input by at least one character per line, so the recursion terminates |
| `Blocks.PrefixBlocksFit` | inflow.py:106-119 | every block of `parse_prefix`, with its prefix, is at most the width; with inner prefixes kept, exactly the width |
| `Blocks.LinesBlocksFit` | inflow.py:122-135 | the same for every block of `parse_lines` |
| `Blocks.OuterPrefixOnly` | inflow.py:114-119 | as written, every block of a non-empty prefix carries that prefix and a width at most the width less the prefix |
| `Blocks.EmptyPrefixOneBlock` | inflow.py:109-113 | with an empty prefix the result is one block: the tokens of every line in order, at the full width |
| `Blocks.NoSeparator` | inflow.py:124-135 | lines without a `"\n"` line form one run handed to `parse_prefix` (nothing for no lines) |
| `Blocks.Separator` | inflow.py:126-132 | a `"\n"` line ends the run before it and yields one `([], width, "")` block, and the lines after it are split on their own |
| `Blocks.InnerPrefixDropped` | inflow.py:116-118 | for lines `"> a\n", ">\n"` at width 79: as written the blocks are `(["a"], 77, ">")` and `([], 78, ">")`; with the inner prefix kept `(["a"], 77, "> ")` and `([], 78, ">")` |
| `Blocks.ParsedBlocksFill` | inflow.py:116-118 | with the inner prefix kept, every block's width plus its prefix is the full width |
| `Blocks.ParseLines` | inflow.py:122-135 | the loop of `parse_lines` computes the recursive definition |
| `Reflow.ChainCovers` | inflow.cpp:196-207 | the lines along the chain from k read tokens 0..k-1 in order |
| `Reflow.SegsCover` | inflow.cpp:195-215 | the chain's lines plus the last line [k, n) read the whole paragraph in order |
| `Reflow.ChainLines` | inflow.cpp:196-199 | following the predecessors from k to 0 takes exactly `lines[k]` steps, and each line is non-empty and fits |
| `Reflow.RenderRoundTrip` | inflow.cpp:201-215 | removing the prefix from the printed lines and splitting them gives back the tokens |
| `Reflow.LineOf` | inflow.cpp:203-206 | a printed line is the prefix followed by the tokens joined by single spaces |
| `Reflow.Reconstruct` | inflow.cpp:195-215 | the C++ output is the prefix plus the joined tokens of each chain line, then of the last line when k < n |
| `Reflow.PyReconstruct` | inflow.py:56-86 | an empty paragraph gives the prefix alone, a too-long token the assertion error, otherwise the same lines as the C++ reconstruction |
| `Reflow.RenderIsReflow` | inflow.cpp:179-216 | the rebuilt lines number `lines[n]`, each starts with the prefix and is at most the prefix plus the width, and they give back the tokens |
| `Reflow.ReflowTokens` | inflow.cpp:190-215 | from tokens that all fit the reduced width, the output is a reflow of those tokens and is `Balanced`: exactly the rendering of the predecessor chain of a correct table over the greedy vector, ending at the start `LastLineChoice` picks |
| `Reflow.Process` | inflow.cpp:179-216 | for one block: an error exactly when a token is wider than the width less the prefix, carrying the first such token; otherwise a reflow (greedy line count, prefix on each line, within the width, tokens preserved) that is the `Balanced` layout of the tokens, the one the source prints |
| `Reflow.BalancedIsLeastSquares` | inflow.cpp:192-199 | in a `Balanced` layout the lines before the last are a division following the greedy vector with the least sum of squared widths among all such divisions |

## Left out

- `main` in both files (inflow.cpp:218-244, inflow.py:138-146): reading standard input, the width argument and printing are I/O. The driver's block splitting at empty lines in inflow.cpp is not part of this model; `Reflow.Process` handles one block.
- `std::cout` in `process` and `parse_prefix`: lines are returned as a sequence of strings, and the assertion abort in `parse_prefix` is the error result `WordTooLong` carrying the token. The assertion of inflow.py:60 is the result `LineTooLong`.
- `Reflow.PyReconstruct`: returns the list of lines; the final `"\n".join` of inflow.py:86 is not modelled.
- `Reflow.PyReconstruct`: the predecessors and k are parameters, because inflow.py's `vardp` (inflow.py:29-53) and its choice of k (inflow.py:64-76) use floating point; the C++ integer versions are modelled instead. Python's `get_lines` is modelled separately as `Greedy.PyGetLines`.
- inflow.py `vardp` (inflow.py:29-53): floating-point variance and division.
- src/inflow/__init__.py only re-exports names.
- `long long` overflow and the numeric value of `INF`: integers are unbounded and infinity is the constructor `Cost.Infinite`; the fraction (1, 0) stays a literal fraction.
- The `size_t` counter of inflow.cpp:112 never wraps, because the loop always leaves by its `break` (`Greedy.OneLineIfFits`); the model counts down an `int` and proves the index stays at or above 0.
- Widths are counted in string elements. inflow.cpp counts bytes (`size()`) and inflow.py counts code points (`len`), so the two implementations see the same lengths, and `Greedy.PyGetLines` agrees with `Greedy.GetLines`, only on text of one byte per character (ASCII).
- White space is the C locale's set (space, tab, newline, vertical tab, form feed, carriage return) for both `istringstream >>` and `str.split()`. `str.split()` also splits at `\x1c`-`\x1f` (file, group, record and unit separators), `\x85`, `\xa0` and the other Unicode white space; those characters are not modelled as white space.
- `Greedy.GetLines`, `Greedy.PyGetLines`: require every token to fit the width, because otherwise the source's outer loop never ends (shown by `Greedy.PackLine`).
- `VarDP.BestLastLine`: the inner loop of `vardp` is its own method, and the largest start among equal costs is chosen as in the source.
- `Prefix.CommonPrefix`, `Prefix.Tokenize`, `Prefix.AppendTokens`: the two loops of `parse_prefix` and its innermost token loop are separate methods called by `Prefix.ParsePrefix`.
- `Greedy.PackLine`, `Greedy.PyPackLine`: the body of the outer loop of `get_lines` is its own method called by `Greedy.GetLines` (`Greedy.PyGetLines`).
- `LastLine.Consider`: the body of the backward loop of `process_dp` is its own method called by `LastLine.ProcessDP`.
- `Reflow.ReflowTokens`: the part of `process` after `parse_prefix` is its own method called by `Reflow.Process`.
- `Blocks.ParseLines`: `parse_prefix` and `parse_lines` of inflow.py are mutually recursive functions; the loop of `parse_lines` is also a method proved equal to them.
- `VarDP.TableIsLeast`: optimality is over divisions into the least number of lines (`lines[i]`), the only ones the table considers; a division into more lines can have a smaller sum of squares and is not compared.
- Tokens are assumed non-empty where they come from white-space splitting, which is what makes `(x != 0)` the space between tokens.

## Findings

| source | as written | input that shows it | evidently intended | confidence | as-written member | corrected member |
|---|---|---|---|---|---|---|
| inflow.py:117 | nested blocks keep only the outer prefix, although their width was reduced by the inner prefix too | lines `"> a\n", ">\n"`, width 79: the first block is printed behind `">"` (as `">a"`) with width 77, so a line and its prefix use 78 columns | the block keeps `"> "` (outer plus inner prefix), and width plus prefix is the full width | medium, not executed | `Blocks.InnerPrefixDropped` | `Blocks.ParsedBlocksFill` |
