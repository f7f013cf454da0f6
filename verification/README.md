# String helpers of the compiler test harness, modelled in Dafny

This project models `scripts/harness-core/src/strings.ts`, the string helpers of
the TypeScript compiler's test harness. It has three parts:

- **Line scanner.** `splitLinesWorker` makes one left-to-right pass over the
  UTF-16 code units of a text. It sorts each unit into one of three classes:
  a line terminator (CR, LF, U+2028, U+2029, with CR LF taken as one
  terminator), a unit from a fixed whitespace table, or content. From that it
  collects the start offset of every line and the lines themselves. It can
  also drop lines that hold only whitespace. Three entry points configure
  it: `getLinesAndLineStarts`, `splitLines` and `computeLineStarts`.
- **Byte-order-mark helpers.** These find, return, strip or add a leading
  UTF-16 mark (the unit pair FF FE or FE FF) or a UTF-8 mark (the three
  units EF BB BF).
- **Padding.** `padLeft` and `padRight` add copies of a filler before or after
  a text until it reaches a given length.

Text is a `seq<CodeUnit>`, where `CodeUnit` is an integer in `0..0xFFFF`. The
code reads raw `charCodeAt` values, so unpaired surrogates are ordinary units
here.

Modules:

- `CodeUnits` (`code_units.dfy`) defines the text type.
- `Padding` (`padding.dfy`) holds the two padding loops.
- `ByteOrderMark` (`byte_order_mark.dfy`) holds the mark helpers and their
  split and add laws.
- `LineSplit` (`line_split.dfy`) says what a correct split is, without the
  scan. It has the unit classes and a line-by-line reference split,
  `SplitFrom`. It also has a declarative predicate, `IsLineSplit`: the lines
  sit at their starts, hold no terminator, and tile the text with exactly one
  terminator between neighbours. The reference split satisfies the predicate,
  and it is the only split that does.
- `LineScanner` (`line_scanner.dfy`) holds the scanner. `Scan` is the state
  machine of the source, with `pos`, `lineStart`, `nonWhiteSpace` and the
  two collectors. `SplitLinesWorkerLoop` is the same scan as a `while` loop.
  Both are proved equal to the reference split, projected onto the
  collectors the caller asked for. The module also has the three entry
  points and the edge-case lemmas.

## Model

| member | source | states |
|---|---|---|
| Padding.PadLeft | scripts/harness-core/src/strings.ts:1-4 | The text is returned unchanged when it is already `size` long. Otherwise the result is whole copies of `ch` followed by the text (copies of a non-empty `ch`; an empty one is allowed only when the text is already `size` long). It is at least `size` long and shorter than `size + |ch|`, because the loop stops at the first length that reaches `size`. With a one-unit `ch`, the length is exactly max(|text|, size) and every added unit is `ch`. |
| Padding.PadRight | scripts/harness-core/src/strings.ts:6-9 | The mirror of `PadLeft`: the text is a prefix of the result and the added suffix is whole copies of `ch`. The same length bounds hold, and the length is exactly max(|text|, size) for a one-unit `ch`. |
| ByteOrderMark.ByteOrderMarkLength | scripts/harness-core/src/strings.ts:16-29 | The result is 0, 2 or 3, and never more than the text's length. It is 0 for texts shorter than 2. It is 2 exactly when the text starts with FF FE or FE FF, and 3 exactly when it starts with EF BB BF. |
| ByteOrderMark.GetByteOrderMark | scripts/harness-core/src/strings.ts:11-14 | The result is a prefix of the text whose length is the mark length. It is empty, EF BB BF, FF FE or FE FF. |
| ByteOrderMark.RemoveByteOrderMark | scripts/harness-core/src/strings.ts:31-34 | The mark followed by the result is the text. A text without a mark comes back unchanged. |
| ByteOrderMark.AddUtf8ByteOrderMark | scripts/harness-core/src/strings.ts:36-38 | A text without a mark gets EF BB BF in front. A text with a mark comes back unchanged. Either way the result has a mark. |
| ByteOrderMark.ByteOrderMarkSplit | scripts/harness-core/src/strings.ts:11-34 | For every text, the mark followed by the text without its mark is the text, and the mark's length is the reported length. |
| ByteOrderMark.AddThenRemove | scripts/harness-core/src/strings.ts:31-38 | On a text without a mark, adding the UTF-8 mark gives mark length 3 and mark EF BB BF. Removing the mark again gives back the original text. |
| ByteOrderMark.AddIsIdempotent | scripts/harness-core/src/strings.ts:36-38 | Adding the UTF-8 mark twice gives the same text as adding it once. |
| ByteOrderMark.AddKeepsExistingMark | scripts/harness-core/src/strings.ts:36-38 | An existing mark is kept as it is. A UTF-16 mark is not turned into a UTF-8 one. |
| ByteOrderMark.RemoveStripsOneMark | scripts/harness-core/src/strings.ts:31-34 | Only one mark is removed. FF FE FF FE becomes FF FE, which still has a mark, so removing twice differs from removing once. |
| LineSplit.IsLineTerminator | scripts/harness-core/src/strings.ts:51-59 | The terminators are CR, LF, U+2028 and U+2029. None of them is in the whitespace table, so a unit is never both. |
| LineSplit.IsWhiteSpace | scripts/harness-core/src/strings.ts:71-92 | The whitespace table: TAB, VT, FF, space, U+00A0, U+FEFF, U+1680, U+2000 to U+200A, U+202F, U+205F, U+3000 and U+0085. It holds no terminator. |
| LineSplit.TerminatorLength | scripts/harness-core/src/strings.ts:51-55 | A terminator takes one or two units and stays inside the text. It takes two units exactly when it is a CR immediately followed by an LF, and one unit otherwise. |
| LineSplit.LineEnd | scripts/harness-core/src/strings.ts:45-68 | A line ends at the first terminator at or after its start, or at the end of the text. No unit before that point is a terminator. |
| LineSplit.SplitFromIsLineSplit | scripts/harness-core/src/strings.ts:40-106 | The reference split satisfies the declarative predicate `IsLineSplitFrom`. Each line is the slice at its start and holds no terminator. Consecutive lines are separated by exactly one terminator. The last line reaches the end of the text. |
| LineSplit.LineSplitIsUnique | scripts/harness-core/src/strings.ts:40-106 | Any lines and starts that satisfy `IsLineSplitFrom` are exactly the reference split. |
| LineSplit.FirstLineEnd | scripts/harness-core/src/strings.ts:45-68 | In any split, the first line runs exactly to the first terminator. A single line runs to the end of the text. Otherwise one terminator follows the first line. |
| LineSplit.LineAvoidsTerminators | scripts/harness-core/src/strings.ts:51-68 | No unit covered by a line is a terminator. |
| LineSplit.LineStartsIncrease | scripts/harness-core/src/strings.ts:60-66 | In a split, line starts strictly increase, and every line lies inside the text. |
| LineSplit.SeparatorsAreTerminators | scripts/harness-core/src/strings.ts:51-59 | Each gap between two consecutive lines is CR LF or a single terminator unit. |
| LineSplit.LinesRejoin | scripts/harness-core/src/strings.ts:60-68 | Putting each gap back between its lines rebuilds the text from the first line's start. |
| LineScanner.KeepContentIsFilter | scripts/harness-core/src/strings.ts:63-65 | Empty-line removal keeps exactly the lines that have a unit outside the whitespace table. It never adds a line, and it drops nothing when every line has content. |
| LineScanner.Flush | scripts/harness-core/src/strings.ts:60-65 | Flushing a line, here or in the final flush of lines 100-105, only appends to the collectors. It appends the line exactly when lines are collected and the line is kept (removal off, or the line has content), and then the appended line is the given one. It appends exactly one start, the given line start, when starts are collected. |
| LineScanner.Scan | scripts/harness-core/src/strings.ts:45-105 | Its full behaviour is pinned by `ScanMatchesSplit` and the ensures of `SplitLinesWorker`. Its own contract says the collectors only grow, and a collector that was not asked for is left untouched. The final flush always records one start. Without removal, lines and starts grow in step. Every recorded start lies between the current line start and the end of the text. |
| LineScanner.ScanMatchesSplit | scripts/harness-core/src/strings.ts:45-99 | Start the scan inside a line, with `nonWhiteSpace` telling whether that line has content so far. It then appends to its collectors the reference split from `lineStart`, reduced to what the options ask for. |
| LineScanner.TerminatorStep | scripts/harness-core/src/strings.ts:51-68 | At a terminator, flushing the line and resuming after the terminator (two units for CR LF) gives the same result as the reference split. |
| LineScanner.FlushThenProject | scripts/harness-core/src/strings.ts:60-65 | Flushing one line, then adding the rest of the split, gives the projection of the split that starts with that line. A line's start is always recorded when starts are collected. The line itself is recorded unless removal is on and the line has no content. |
| LineScanner.ExtendLine | scripts/harness-core/src/strings.ts:71-97 | A unit that is not a terminator keeps the line free of terminators. It gives the line content exactly when it is outside the whitespace table. |
| LineScanner.SplitLinesWorker | scripts/harness-core/src/strings.ts:40-106 | The single pass computes the reference split. Starts are returned only when asked for. Lines are returned only when asked for, and are filtered when removal is on. |
| LineScanner.SplitLinesWorkerLoop | scripts/harness-core/src/strings.ts:40-106 | The loop form, with `pos`, `end`, `lineStart`, `nonWhiteSpace` and a final flush, computes the same projection of the reference split. |
| LineScanner.GetLinesAndLineStarts | scripts/harness-core/src/strings.ts:115-120 | The result satisfies `IsLineSplit`. There are as many lines as starts, and at least one. The first start is 0, starts strictly increase, and none exceeds the text length. |
| LineScanner.SplitLines | scripts/harness-core/src/strings.ts:122-126 | Without removal, the result equals the lines of `GetLinesAndLineStarts`. With removal, it equals those lines filtered to the ones that have content. |
| LineScanner.ComputeLineStarts | scripts/harness-core/src/strings.ts:128-132 | The result equals the starts of `GetLinesAndLineStarts`. |
| LineScanner.LinesAndLineStartsCharacterized | scripts/harness-core/src/strings.ts:115-120 | `GetLinesAndLineStarts` returns a given pair exactly when that pair satisfies `IsLineSplit`. |
| LineScanner.LinesRebuildText | scripts/harness-core/src/strings.ts:51-68 | Joining the lines with the terminators that separated them gives back the text. Each such terminator is CR LF or one terminator unit. |
| LineScanner.LinesAreTerminatorFreeSlices | scripts/harness-core/src/strings.ts:60-66 | Each line is the slice of the text that starts at its line start, and no line holds a CR, LF, U+2028 or U+2029. |
| LineScanner.NoTerminatorGivesOneLine | scripts/harness-core/src/strings.ts:100-105 | A text with no terminator gives lines `[text]` and starts `[0]`. |
| LineScanner.EmptyText | scripts/harness-core/src/strings.ts:100-105 | The empty text gives one empty line at start 0. With removal on, it gives no line at all. |
| LineScanner.TrailingTerminatorGivesEmptyLine | scripts/harness-core/src/strings.ts:100-105 | A text that ends in a terminator has an empty last line, which starts at the text's length. |
| LineScanner.RemovalKeepsLinesWithContent | scripts/harness-core/src/strings.ts:103-105 | With removal on, a line of the unfiltered split is kept exactly when it has content. Every kept line comes from the unfiltered split. |
| LineScanner.CrLfIsOneTerminator | scripts/harness-core/src/strings.ts:51-54 | `a CR LF b` gives the lines `a` and `b`, starting at 0 and 3. |
| LineScanner.BlankLineSplit | scripts/harness-core/src/strings.ts:57-68 | `GetLinesAndLineStarts` on `a LF LF b` gives the lines `a`, an empty line and `b`, starting at 0, 2 and 3. |
| LineScanner.RemovalDropsEmptyLine | scripts/harness-core/src/strings.ts:63-65 | With removal on, `a LF LF b` gives the lines `a` and `b`. |

## Left out

- Padding.PadLeft: an empty `ch` makes the source loop forever when the text is shorter than `size`, so the model requires `|ch| >= 1 || size <= |text|`. An empty `ch` on a text already `size` long is modelled, and the text comes back unchanged.
- Padding.PadRight: an empty `ch` makes the source loop forever when the text is shorter than `size`, so the model requires `|ch| >= 1 || size <= |text|`. An empty `ch` on a text already `size` long is modelled, and the text comes back unchanged.
- `size` is modelled as an integer. JavaScript numbers that are fractional or `NaN` are not modelled.
- The default arguments (`ch = " "`, `removeEmptyElements = false`) are explicit parameters here.
- The optional `lineStarts` and `lines` arrays are modelled as boolean flags in `WorkerOptions`. A collector that was not passed comes back empty. JavaScript's `Array.push` and `String.slice` become sequence operations.
- The `LineStarts` and `LinesAndLineStarts` type declarations (lines 108-113) are the `LinesAndLineStarts` datatype.
- Unicode decoding, surrogate pairing and grapheme handling are not modelled. The code works on raw code-unit values.
- Idempotent mark removal is not promised. `RemoveByteOrderMark` strips exactly one mark (strings.ts:31-34), and `RemoveStripsOneMark` shows FF FE FF FE becoming FF FE.
