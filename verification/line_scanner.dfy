/** The single-pass line scanner of strings.ts (`splitLinesWorker`, lines
    40-106) and its three entry points (lines 115-132), proved to compute the
    reference split of `LineSplit`. */
module LineScanner {
  import opened CodeUnits
  import opened LineSplit

  /** Which collectors the caller passes and whether whitespace-only lines are
      dropped; an absent collector comes back empty. */
  datatype WorkerOptions = WorkerOptions(
    collectLineStarts: bool,
    collectLines: bool,
    removeEmptyElements: bool)

  /** The lines that survive empty-line removal, in order. */
  function KeepContent(lines: seq<Text>): seq<Text> {
    if lines == [] then []
    else (if HasContent(lines[0]) then [lines[0]] else []) + KeepContent(lines[1..])
  }

  /** Removal keeps exactly the lines with content: every kept line has
      content and comes from the input, every input line with content is kept,
      and nothing is dropped when all lines have content. */
  lemma {:induction false} KeepContentIsFilter(lines: seq<Text>)
    ensures |KeepContent(lines)| <= |lines|
    ensures forall line :: line in KeepContent(lines) ==> line in lines && HasContent(line)
    ensures forall line :: line in lines && HasContent(line) ==> line in KeepContent(lines)
    ensures (forall line :: line in lines ==> HasContent(line)) ==> KeepContent(lines) == lines
    decreases |lines|
  {
    if lines != [] {
      KeepContentIsFilter(lines[1..]);
      assert lines == [lines[0]] + lines[1..];
      forall line | line in lines
        ensures line == lines[0] || line in lines[1..]
      {
      }
    }
  }

  lemma {:induction false} KeepContentAppend(a: seq<Text>, b: seq<Text>)
    ensures KeepContent(a + b) == KeepContent(a) + KeepContent(b)
    decreases |a|
  {
    if a == [] {
      assert a + b == b;
    } else {
      KeepContentAppend(a[1..], b);
      assert (a + b)[0] == a[0];
      assert (a + b)[1..] == a[1..] + b;
      var head := if HasContent(a[0]) then [a[0]] else [];
      assert KeepContent(a + b) == head + KeepContent(a[1..] + b);
      assert KeepContent(a) == head + KeepContent(a[1..]);
    }
  }

  lemma KeepContentSingle(line: Text)
    ensures KeepContent([line]) == if HasContent(line) then [line] else []
  {
    assert [line][1..] == [];
  }

  /** What the worker hands back for a given configuration, given the full
      split of the text. */
  function Project(opts: WorkerOptions, whole: LinesAndLineStarts): LinesAndLineStarts {
    LinesAndLineStarts(
      if !opts.collectLines then []
      else if opts.removeEmptyElements then KeepContent(whole.lines)
      else whole.lines,
      if opts.collectLineStarts then whole.lineStarts else [])
  }

  function Append(a: LinesAndLineStarts, b: LinesAndLineStarts): LinesAndLineStarts {
    LinesAndLineStarts(a.lines + b.lines, a.lineStarts + b.lineStarts)
  }

  /** Records one finished line: its start always, the line itself unless it
      is whitespace-only and empty lines are being removed. */
  function Flush(opts: WorkerOptions, acc: LinesAndLineStarts, lineStart: nat, line: Text, nonWhiteSpace: bool)
    : (r: LinesAndLineStarts)
    ensures acc.lines <= r.lines && |r.lines| <= |acc.lines| + 1
    ensures |r.lines| == |acc.lines| + 1 <==> opts.collectLines && (!opts.removeEmptyElements || nonWhiteSpace)
    ensures |r.lines| == |acc.lines| + 1 ==> r.lines[|acc.lines|] == line
    ensures acc.lineStarts <= r.lineStarts
    ensures |r.lineStarts| == |acc.lineStarts| + (if opts.collectLineStarts then 1 else 0)
    ensures opts.collectLineStarts ==> r.lineStarts[|acc.lineStarts|] == lineStart
  {
    LinesAndLineStarts(
      if opts.collectLines && (!opts.removeEmptyElements || nonWhiteSpace) then acc.lines + [line]
      else acc.lines,
      if opts.collectLineStarts then acc.lineStarts + [lineStart] else acc.lineStarts)
  }

  /** One step of the scan per code unit from `pos`, carrying the start of the
      current line and whether it has seen a non-whitespace unit; the end of
      the text flushes the last line. */
  function Scan(text: Text, opts: WorkerOptions, pos: nat, lineStart: nat, nonWhiteSpace: bool,
                acc: LinesAndLineStarts): (r: LinesAndLineStarts)
    requires lineStart <= pos <= |text|
    ensures acc.lines <= r.lines && acc.lineStarts <= r.lineStarts
    ensures !opts.collectLines ==> r.lines == acc.lines
    ensures !opts.collectLineStarts ==> r.lineStarts == acc.lineStarts
    ensures opts.collectLineStarts ==> |r.lineStarts| > |acc.lineStarts|
    ensures opts.collectLines && opts.collectLineStarts && !opts.removeEmptyElements ==>
              |r.lines| - |acc.lines| == |r.lineStarts| - |acc.lineStarts|
    ensures forall k :: |acc.lineStarts| <= k < |r.lineStarts| ==> lineStart <= r.lineStarts[k] <= |text|
    decreases |text| - pos
  {
    if pos < |text| then
      var ch := text[pos];
      var end := pos;
      var next := pos + 1;
      if IsLineTerminator(ch) then
        var after := if ch == CR && next < |text| && text[next] == LF then next + 1 else next;
        Scan(text, opts, after, after, false, Flush(opts, acc, lineStart, text[lineStart..end], nonWhiteSpace))
      else if IsWhiteSpace(ch) then
        Scan(text, opts, next, lineStart, nonWhiteSpace, acc)
      else
        Scan(text, opts, next, lineStart, true, acc)
    else
      Flush(opts, acc, lineStart, text[lineStart..|text|], nonWhiteSpace)
  }

  /** Extending a line by one non-terminator unit. */
  lemma ExtendLine(prefix: Text, ch: CodeUnit)
    requires HasNoTerminator(prefix) && !IsLineTerminator(ch)
    ensures HasNoTerminator(prefix + [ch])
    ensures HasContent(prefix + [ch]) == (HasContent(prefix) || !IsWhiteSpace(ch))
  {
    var extended := prefix + [ch];
    assert extended[|prefix|] == ch;
    assert forall k :: 0 <= k < |prefix| ==> extended[k] == prefix[k];
    if HasContent(extended) && IsWhiteSpace(ch) {
      var k :| 0 <= k < |extended| && !IsWhiteSpace(extended[k]);
      assert k < |prefix|;
    }
  }

  /** A scan resumed inside a line (no terminator seen since `lineStart`,
      `nonWhiteSpace` telling whether it has content) appends the projection
      of the reference split from `lineStart` to what it has collected. */
  lemma {:induction false} ScanMatchesSplit(text: Text, opts: WorkerOptions, pos: nat, lineStart: nat,
                                            nonWhiteSpace: bool, acc: LinesAndLineStarts)
    requires lineStart <= pos <= |text|
    requires HasNoTerminator(text[lineStart..pos])
    requires nonWhiteSpace == HasContent(text[lineStart..pos])
    ensures Scan(text, opts, pos, lineStart, nonWhiteSpace, acc)
         == Append(acc, Project(opts, SplitFrom(text, lineStart)))
    decreases |text| - pos
  {
    var prefix := text[lineStart..pos];
    assert forall k :: lineStart <= k < pos ==> !IsLineTerminator(text[k]) by {
      forall k | lineStart <= k < pos
        ensures !IsLineTerminator(text[k])
      {
        assert text[k] == prefix[k - lineStart];
      }
    }
    NoTerminatorBeforeEnd(text, lineStart, pos);
    if pos == |text| {
      assert text[lineStart..] == prefix;
      assert SplitFrom(text, lineStart) == LinesAndLineStarts([prefix], [lineStart]);
      KeepContentSingle(prefix);
    } else if IsLineTerminator(text[pos]) {
      TerminatorStep(text, opts, pos, lineStart, nonWhiteSpace, acc);
    } else {
      assert text[lineStart..pos + 1] == prefix + [text[pos]];
      ExtendLine(prefix, text[pos]);
      ScanMatchesSplit(text, opts, pos + 1, lineStart, nonWhiteSpace || !IsWhiteSpace(text[pos]), acc);
    }
  }

  /** The terminator case of `ScanMatchesSplit`: flushing the line and
      resuming after the terminator. */
  lemma {:induction false} TerminatorStep(text: Text, opts: WorkerOptions, pos: nat, lineStart: nat,
                                          nonWhiteSpace: bool, acc: LinesAndLineStarts)
    requires lineStart <= pos < |text| && IsLineTerminator(text[pos])
    requires LineEnd(text, lineStart) == pos
    requires nonWhiteSpace == HasContent(text[lineStart..pos])
    ensures Scan(text, opts, pos, lineStart, nonWhiteSpace, acc)
         == Append(acc, Project(opts, SplitFrom(text, lineStart)))
    decreases |text| - pos, 0
  {
    var prefix := text[lineStart..pos];
    var after := pos + TerminatorLength(text, pos);
    var flushed := Flush(opts, acc, lineStart, prefix, nonWhiteSpace);
    ScanAtTerminator(text, opts, pos, lineStart, nonWhiteSpace, acc);
    assert text[after..after] == [];
    ScanMatchesSplit(text, opts, after, after, false, flushed);
    var rest := SplitFrom(text, after);
    SplitAtTerminator(text, lineStart, pos);
    FlushThenProject(opts, acc, lineStart, prefix, nonWhiteSpace, rest);
  }

  /** At a terminator the scan flushes the line and resumes after the
      terminator, two units on for CR LF. */
  lemma ScanAtTerminator(text: Text, opts: WorkerOptions, pos: nat, lineStart: nat,
                         nonWhiteSpace: bool, acc: LinesAndLineStarts)
    requires lineStart <= pos < |text| && IsLineTerminator(text[pos])
    ensures Scan(text, opts, pos, lineStart, nonWhiteSpace, acc)
         == Scan(text, opts, pos + TerminatorLength(text, pos), pos + TerminatorLength(text, pos), false,
                 Flush(opts, acc, lineStart, text[lineStart..pos], nonWhiteSpace))
  {
  }

  /** The terminator step with the flush written out, as the loop performs it. */
  lemma ScanAtTerminatorInline(text: Text, opts: WorkerOptions, pos: nat, lineStart: nat,
                               nonWhiteSpace: bool, lines: seq<Text>, lineStarts: seq<nat>)
    requires lineStart <= pos < |text| && IsLineTerminator(text[pos])
    ensures var after := if text[pos] == CR && pos + 1 < |text| && text[pos + 1] == LF then pos + 2 else pos + 1;
            Scan(text, opts, pos, lineStart, nonWhiteSpace, LinesAndLineStarts(lines, lineStarts))
            == Scan(text, opts, after, after, false, LinesAndLineStarts(
                 if opts.collectLines && (!opts.removeEmptyElements || nonWhiteSpace) then lines + [text[lineStart..pos]]
                 else lines,
                 if opts.collectLineStarts then lineStarts + [lineStart] else lineStarts))
  {
  }

  /** At the end of the text the scan is the final flush, written out as the
      loop performs it. */
  lemma ScanAtEndInline(text: Text, opts: WorkerOptions, pos: nat, lineStart: nat,
                        nonWhiteSpace: bool, lines: seq<Text>, lineStarts: seq<nat>)
    requires lineStart <= pos == |text|
    ensures Scan(text, opts, pos, lineStart, nonWhiteSpace, LinesAndLineStarts(lines, lineStarts))
            == LinesAndLineStarts(
                 if opts.collectLines && (!opts.removeEmptyElements || nonWhiteSpace) then lines + [text[lineStart..|text|]]
                 else lines,
                 if opts.collectLineStarts then lineStarts + [lineStart] else lineStarts)
  {
  }

  /** Any other unit extends the current line and may give it content. */
  lemma ScanAtContent(text: Text, opts: WorkerOptions, pos: nat, lineStart: nat,
                      nonWhiteSpace: bool, acc: LinesAndLineStarts)
    requires lineStart <= pos < |text| && !IsLineTerminator(text[pos])
    ensures Scan(text, opts, pos, lineStart, nonWhiteSpace, acc)
         == Scan(text, opts, pos + 1, lineStart, nonWhiteSpace || !IsWhiteSpace(text[pos]), acc)
  {
  }

  /** Flushing a line and then appending the projection of the remaining
      split is the projection of the split that starts with that line. */
  lemma FlushThenProject(opts: WorkerOptions, acc: LinesAndLineStarts, lineStart: nat, line: Text,
                         nonWhiteSpace: bool, rest: LinesAndLineStarts)
    requires nonWhiteSpace == HasContent(line)
    ensures Append(Flush(opts, acc, lineStart, line, nonWhiteSpace), Project(opts, rest))
         == Append(acc, Project(opts, LinesAndLineStarts([line] + rest.lines, [lineStart] + rest.lineStarts)))
  {
    FlushThenProjectStarts(opts, acc, lineStart, line, nonWhiteSpace, rest);
    FlushThenProjectLines(opts, acc, lineStart, line, nonWhiteSpace, rest);
  }

  lemma FlushThenProjectStarts(opts: WorkerOptions, acc: LinesAndLineStarts, lineStart: nat, line: Text,
                               nonWhiteSpace: bool, rest: LinesAndLineStarts)
    ensures Flush(opts, acc, lineStart, line, nonWhiteSpace).lineStarts + Project(opts, rest).lineStarts
         == acc.lineStarts + Project(opts, LinesAndLineStarts([line] + rest.lines, [lineStart] + rest.lineStarts)).lineStarts
  {
    if opts.collectLineStarts {
      assert acc.lineStarts + [lineStart] + rest.lineStarts == acc.lineStarts + ([lineStart] + rest.lineStarts);
    }
  }

  lemma FlushThenProjectLines(opts: WorkerOptions, acc: LinesAndLineStarts, lineStart: nat, line: Text,
                              nonWhiteSpace: bool, rest: LinesAndLineStarts)
    requires nonWhiteSpace == HasContent(line)
    ensures Flush(opts, acc, lineStart, line, nonWhiteSpace).lines + Project(opts, rest).lines
         == acc.lines + Project(opts, LinesAndLineStarts([line] + rest.lines, [lineStart] + rest.lineStarts)).lines
  {
    if opts.collectLines && opts.removeEmptyElements {
      KeepContentAppend([line], rest.lines);
      KeepContentSingle(line);
      if nonWhiteSpace {
        assert acc.lines + [line] + KeepContent(rest.lines) == acc.lines + ([line] + KeepContent(rest.lines));
      }
    } else if opts.collectLines {
      assert acc.lines + [line] + rest.lines == acc.lines + ([line] + rest.lines);
    }
  }

  /** The whole scan over `text` (strings.ts:40-106). */
  function SplitLinesWorker(text: Text, opts: WorkerOptions): (r: LinesAndLineStarts)
    ensures r == Project(opts, SplitFrom(text, 0))
  {
    assert text[0..0] == [];
    ScanMatchesSplit(text, opts, 0, 0, false, LinesAndLineStarts([], []));
    Scan(text, opts, 0, 0, false, LinesAndLineStarts([], []))
  }

  /** Both outputs, no line removed (strings.ts:115-120): the unique split of
      the text into lines and their start offsets. */
  function GetLinesAndLineStarts(text: Text): (r: LinesAndLineStarts)
    ensures IsLineSplit(text, r.lines, r.lineStarts)
    ensures |r.lines| == |r.lineStarts| >= 1 && r.lineStarts[0] == 0
    ensures forall i, j :: 0 <= i < j < |r.lineStarts| ==> r.lineStarts[i] < r.lineStarts[j]
    ensures forall i :: 0 <= i < |r.lineStarts| ==> r.lineStarts[i] <= |text|
  {
    var r := SplitLinesWorker(text, WorkerOptions(true, true, false));
    SplitFromIsLineSplit(text, 0);
    LineStartsIncrease(text, 0, r.lines, r.lineStarts);
    r
  }

  /** The lines alone, whitespace-only ones dropped on request
      (strings.ts:122-126). */
  function SplitLines(text: Text, removeEmptyElements: bool): (lines: seq<Text>)
    ensures !removeEmptyElements ==> lines == GetLinesAndLineStarts(text).lines
    ensures removeEmptyElements ==> lines == KeepContent(GetLinesAndLineStarts(text).lines)
  {
    SplitLinesWorker(text, WorkerOptions(false, true, removeEmptyElements)).lines
  }

  /** The line starts alone (strings.ts:128-132). */
  function ComputeLineStarts(text: Text): (starts: seq<nat>)
    ensures starts == GetLinesAndLineStarts(text).lineStarts
  {
    SplitLinesWorker(text, WorkerOptions(true, false, false)).lineStarts
  }

  /** The scan as the source writes it, a loop over `pos` with the two
      collectors and a final flush (strings.ts:40-106). */
  method SplitLinesWorkerLoop(text: Text, opts: WorkerOptions) returns (r: LinesAndLineStarts)
    ensures r == Project(opts, SplitFrom(text, 0))
  {
    var pos: nat := 0;
    var end: nat := 0;
    var lineStart: nat := 0;
    var nonWhiteSpace := false;
    var lineStarts: seq<nat> := [];
    var lines: seq<Text> := [];
    ghost var target := SplitLinesWorker(text, opts);
    while pos < |text|
      invariant lineStart <= pos <= |text|
      invariant Scan(text, opts, pos, lineStart, nonWhiteSpace, LinesAndLineStarts(lines, lineStarts)) == target
      decreases |text| - pos
    {
      var ch := text[pos];
      end := pos;
      if IsLineTerminator(ch) {
        ScanAtTerminatorInline(text, opts, pos, lineStart, nonWhiteSpace, lines, lineStarts);
        pos := pos + 1;
        if ch == CR && pos < |text| && text[pos] == LF {
          pos := pos + 1;
        }
        if opts.collectLineStarts {
          lineStarts := lineStarts + [lineStart];
        }
        if opts.collectLines && (!opts.removeEmptyElements || nonWhiteSpace) {
          lines := lines + [text[lineStart..end]];
        }
        lineStart := pos;
        nonWhiteSpace := false;
      } else {
        ScanAtContent(text, opts, pos, lineStart, nonWhiteSpace, LinesAndLineStarts(lines, lineStarts));
        pos := pos + 1;
        if !IsWhiteSpace(ch) {
          nonWhiteSpace := true;
        }
      }
    }
    ScanAtEndInline(text, opts, pos, lineStart, nonWhiteSpace, lines, lineStarts);
    if opts.collectLineStarts {
      lineStarts := lineStarts + [lineStart];
    }
    if opts.collectLines && (!opts.removeEmptyElements || nonWhiteSpace) {
      lines := lines + [text[lineStart..|text|]];
    }
    r := LinesAndLineStarts(lines, lineStarts);
  }

  /** `GetLinesAndLineStarts` returns a pair exactly when the pair splits the
      text in the declarative sense. */
  lemma LinesAndLineStartsCharacterized(text: Text, lines: seq<Text>, starts: seq<nat>)
    ensures IsLineSplit(text, lines, starts) <==> GetLinesAndLineStarts(text) == LinesAndLineStarts(lines, starts)
  {
    if IsLineSplit(text, lines, starts) {
      LineSplitIsUnique(text, 0, lines, starts);
    }
  }

  /** Putting the terminators back between the lines rebuilds the text, and
      each of those terminators is CR LF or a single terminator unit. */
  lemma LinesRebuildText(text: Text)
    ensures var r := GetLinesAndLineStarts(text);
            && JoinLines(r.lines, Separators(text, r.lines, r.lineStarts)) == text
            && forall sep :: sep in Separators(text, r.lines, r.lineStarts) ==>
                 sep == [CR, LF] || (|sep| == 1 && IsLineTerminator(sep[0]))
  {
    var r := GetLinesAndLineStarts(text);
    LinesRejoin(text, 0, r.lines, r.lineStarts);
    SeparatorsAreTerminators(text, r.lines, r.lineStarts);
  }

  /** Every line is the slice of the text at its start and holds no
      terminator unit. */
  lemma LinesAreTerminatorFreeSlices(text: Text)
    ensures var r := GetLinesAndLineStarts(text);
            forall i :: 0 <= i < |r.lines| ==>
              && r.lineStarts[i] + |r.lines[i]| <= |text|
              && r.lines[i] == text[r.lineStarts[i]..r.lineStarts[i] + |r.lines[i]|]
              && HasNoTerminator(r.lines[i])
  {
    var r := GetLinesAndLineStarts(text);
    forall i | 0 <= i < |r.lines|
      ensures r.lineStarts[i] + |r.lines[i]| <= |text|
      ensures r.lines[i] == text[r.lineStarts[i]..r.lineStarts[i] + |r.lines[i]|]
      ensures HasNoTerminator(r.lines[i])
    {
      assert LineOk(text, r.lines, r.lineStarts, i);
    }
  }

  /** A text without a terminator is one line starting at 0; in particular
      the empty text is one empty line. */
  lemma NoTerminatorGivesOneLine(text: Text)
    requires HasNoTerminator(text)
    ensures GetLinesAndLineStarts(text) == LinesAndLineStarts([text], [0])
    ensures SplitLines(text, false) == [text]
    ensures ComputeLineStarts(text) == [0]
  {
    assert IsLineAt(text, 0, text) by {
      assert text[0..|text|] == text;
    }
    assert LineOk(text, [text], [0], 0);
    assert IsLineSplit(text, [text], [0]);
    LinesAndLineStartsCharacterized(text, [text], [0]);
  }

  /** The empty text: one empty line at 0, and no line at all once
      whitespace-only lines are removed. */
  lemma EmptyText(text: Text)
    requires |text| == 0
    ensures SplitLines(text, false) == [[]]
    ensures ComputeLineStarts(text) == [0]
    ensures SplitLines(text, true) == []
  {
    NoTerminatorGivesOneLine(text);
    assert !HasContent(text);
    KeepContentSingle(text);
  }

  /** A text ending in a terminator ends with an empty line that starts at
      the end of the text. */
  lemma TrailingTerminatorGivesEmptyLine(text: Text)
    requires |text| >= 1 && IsLineTerminator(text[|text| - 1])
    ensures var r := GetLinesAndLineStarts(text);
            r.lines[|r.lines| - 1] == [] && r.lineStarts[|r.lineStarts| - 1] == |text|
  {
    var r := GetLinesAndLineStarts(text);
    var last := |r.lines| - 1;
    assert LineOk(text, r.lines, r.lineStarts, last);
    LineAvoidsTerminators(text, r.lineStarts[last], r.lines[last], |text| - 1);
  }

  /** With removal on, a line of the unfiltered split is kept exactly when it
      has a unit outside the whitespace table. */
  lemma RemovalKeepsLinesWithContent(text: Text)
    ensures |SplitLines(text, true)| <= |SplitLines(text, false)|
    ensures forall line :: line in SplitLines(text, false) ==>
              (line in SplitLines(text, true) <==> HasContent(line))
    ensures forall line :: line in SplitLines(text, true) ==> line in SplitLines(text, false)
  {
    KeepContentIsFilter(SplitLines(text, false));
  }

  /** CR LF is one terminator: "a\r\nb" is two lines, starting at 0 and 3. */
  lemma CrLfIsOneTerminator(text: Text)
    requires text == [0x61, CR, LF, 0x62]
    ensures SplitLines(text, false) == [[0x61], [0x62]]
    ensures ComputeLineStarts(text) == [0, 3]
  {
    assert LineEnd(text, 0) == 1;
    assert TerminatorLength(text, 1) == 2;
    assert LineEnd(text, 3) == 4;
    assert text[0..1] == [0x61] && text[3..] == [0x62];
    assert SplitFrom(text, 3) == LinesAndLineStarts([[0x62]], [3]);
    assert SplitFrom(text, 0) == LinesAndLineStarts([[0x61], [0x62]], [0, 3]);
  }

  /** "a\n\nb" is three lines, the middle one empty, starting at 0, 2 and 3. */
  lemma BlankLineSplit(text: Text)
    requires text == [0x61, LF, LF, 0x62]
    ensures GetLinesAndLineStarts(text) == LinesAndLineStarts([[0x61], [], [0x62]], [0, 2, 3])
  {
    assert LineEnd(text, 0) == 1;
    assert LineEnd(text, 2) == 2;
    assert LineEnd(text, 3) == 4;
    assert text[0..1] == [0x61] && text[2..2] == [] && text[3..] == [0x62];
    assert TerminatorLength(text, 1) == 1 && TerminatorLength(text, 2) == 1;
    assert SplitFrom(text, 3) == LinesAndLineStarts([[0x62]], [3]);
    assert SplitFrom(text, 2) == LinesAndLineStarts([[], [0x62]], [2, 3]);
    assert SplitFrom(text, 0) == LinesAndLineStarts([[0x61], [], [0x62]], [0, 2, 3]);
  }

  /** Removal drops the empty middle line of "a\n\nb". */
  lemma RemovalDropsEmptyLine(text: Text)
    requires text == [0x61, LF, LF, 0x62]
    ensures SplitLines(text, true) == [[0x61], [0x62]]
  {
    BlankLineSplit(text);
    KeepBlankDropped([[0x61], [], [0x62]]);
  }

  lemma KeepBlankDropped(all: seq<Text>)
    requires all == [[0x61], [], [0x62]]
    ensures KeepContent(all) == [[0x61], [0x62]]
  {
    var a: Text, b: Text := [0x61], [0x62];
    assert HasContent(a) by { assert !IsWhiteSpace(a[0]); }
    assert HasContent(b) by { assert !IsWhiteSpace(b[0]); }
    assert all[1..] == [[], b] && all[1..][1..] == [b] && [b][1..] == [];
    assert KeepContent([b]) == [b];
    assert KeepContent([[], b]) == [b];
  }

}
