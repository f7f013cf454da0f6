/** What the line scanner of strings.ts (lines 40-106) computes, stated
    without the scan: the classification of code units, a line-by-line
    reference split, and the declarative shape every split must have. */
module LineSplit {
  import opened CodeUnits

  const CR: CodeUnit := 0x000D
  const LF: CodeUnit := 0x000A
  const LS: CodeUnit := 0x2028
  const PS: CodeUnit := 0x2029

  /** The four units that end a line (strings.ts:51-59). None of them is in
      the whitespace table, so the order of the two tables does not matter. */
  function IsLineTerminator(c: CodeUnit): (b: bool)
    ensures b ==> !IsWhiteSpace(c)
  {
    c == CR || c == LF || c == LS || c == PS
  }

  /** The whitespace table of strings.ts:71-92; such units do not make a line
      count as non-empty, and none of them ends a line. */
  function IsWhiteSpace(c: CodeUnit): (b: bool)
    ensures b ==> c != CR && c != LF && c != LS && c != PS
  {
    || c in {0x0009, 0x000B, 0x000C, 0x0020, 0x00A0, 0xFEFF, 0x1680}
    || 0x2000 <= c <= 0x200A
    || c in {0x202F, 0x205F, 0x3000, 0x0085}
  }

  predicate HasNoTerminator(line: Text) {
    forall k :: 0 <= k < |line| ==> !IsLineTerminator(line[k])
  }

  /** A line survives empty-line removal when some unit is not whitespace. */
  predicate HasContent(line: Text) {
    exists k :: 0 <= k < |line| && !IsWhiteSpace(line[k])
  }

  /** Units consumed by the terminator at `e`: CR immediately followed by LF
      is one two-unit terminator. */
  function TerminatorLength(text: Text, e: nat): (n: nat)
    requires e < |text| && IsLineTerminator(text[e])
    ensures n == 1 || n == 2
    ensures e + n <= |text|
    ensures n == 2 <==> text[e] == CR && e + 1 < |text| && text[e + 1] == LF
  {
    if text[e] == CR && e + 1 < |text| && text[e + 1] == LF then 2 else 1
  }

  /** The first terminator at or after `s`, or the end of the text. */
  function LineEnd(text: Text, s: nat): (e: nat)
    requires s <= |text|
    ensures s <= e <= |text|
    ensures e < |text| ==> IsLineTerminator(text[e])
    ensures forall k :: s <= k < e ==> !IsLineTerminator(text[k])
    decreases |text| - s
  {
    if s == |text| || IsLineTerminator(text[s]) then s else LineEnd(text, s + 1)
  }

  datatype LinesAndLineStarts = LinesAndLineStarts(lines: seq<Text>, lineStarts: seq<nat>)

  /** Reference split of `text[s..]`, one line at a time: a line runs to the
      next terminator, and the next line starts after that terminator. */
  function SplitFrom(text: Text, s: nat): LinesAndLineStarts
    requires s <= |text|
    decreases |text| - s
  {
    var e := LineEnd(text, s);
    if e == |text| then
      LinesAndLineStarts([text[s..]], [s])
    else
      var rest := SplitFrom(text, e + TerminatorLength(text, e));
      LinesAndLineStarts([text[s..e]] + rest.lines, [s] + rest.lineStarts)
  }

  /** The reference split from a line whose end is the terminator at `e`. */
  lemma SplitAtTerminator(text: Text, s: nat, e: nat)
    requires s <= e < |text| && LineEnd(text, s) == e
    ensures var rest := SplitFrom(text, e + TerminatorLength(text, e));
            SplitFrom(text, s) == LinesAndLineStarts([text[s..e]] + rest.lines, [s] + rest.lineStarts)
  {
  }

  /** `line` occurs in `text` at `start` and holds no terminator. */
  predicate IsLineAt(text: Text, start: nat, line: Text) {
    && start + |line| <= |text|
    && text[start..start + |line|] == line
    && HasNoTerminator(line)
  }

  /** Exactly one terminator lies between the end `e` of a line and the start
      `next` of the following one. */
  predicate IsSeparatorAt(text: Text, e: nat, next: nat) {
    e < |text| && IsLineTerminator(text[e]) && next == e + TerminatorLength(text, e)
  }

  /** Line `i` of the split occurs at its start and holds no terminator. */
  predicate LineOk(text: Text, lines: seq<Text>, starts: seq<nat>, i: nat)
    requires i < |lines| == |starts|
  {
    IsLineAt(text, starts[i], lines[i])
  }

  /** One terminator separates line `i` from line `i + 1`. */
  predicate SeparatorOk(text: Text, lines: seq<Text>, starts: seq<nat>, i: nat)
    requires i + 1 < |lines| == |starts|
  {
    IsSeparatorAt(text, starts[i] + |lines[i]|, starts[i + 1])
  }

  /** `lines` and `starts` split `text[s..]`: the lines, each at its start, tile
      the text with one terminator between consecutive lines and none after
      the last. */
  predicate IsLineSplitFrom(text: Text, s: nat, lines: seq<Text>, starts: seq<nat>) {
    && |lines| == |starts| >= 1
    && starts[0] == s
    && (forall i: nat :: i < |lines| ==> LineOk(text, lines, starts, i))
    && (forall i: nat :: i + 1 < |lines| ==> SeparatorOk(text, lines, starts, i))
    && starts[|lines| - 1] + |lines[|lines| - 1]| == |text|
  }

  predicate IsLineSplit(text: Text, lines: seq<Text>, starts: seq<nat>) {
    IsLineSplitFrom(text, 0, lines, starts)
  }

  /** No unit covered by a line is a terminator. */
  lemma LineAvoidsTerminators(text: Text, start: nat, line: Text, k: nat)
    requires IsLineAt(text, start, line)
    ensures start <= k < start + |line| ==> !IsLineTerminator(text[k])
  {
    if start <= k < start + |line| {
      assert text[k] == line[k - start];
    }
  }

  /** A line, one terminator, then a split of the rest form a split. */
  lemma SplitCons(text: Text, s: nat, line: Text, lines: seq<Text>, starts: seq<nat>)
    requires IsLineAt(text, s, line)
    requires |starts| >= 1 && IsSeparatorAt(text, s + |line|, starts[0])
    requires IsLineSplitFrom(text, starts[0], lines, starts)
    ensures IsLineSplitFrom(text, s, [line] + lines, [s] + starts)
  {
    var ls, ss := [line] + lines, [s] + starts;
    forall i: nat | i < |ls|
      ensures LineOk(text, ls, ss, i)
    {
      if i > 0 {
        assert LineOk(text, lines, starts, i - 1);
        assert ls[i] == lines[i - 1] && ss[i] == starts[i - 1];
      }
    }
    forall i: nat | i + 1 < |ls|
      ensures SeparatorOk(text, ls, ss, i)
    {
      if i > 0 {
        assert SeparatorOk(text, lines, starts, i - 1);
        assert ls[i] == lines[i - 1] && ss[i] == starts[i - 1] && ss[i + 1] == starts[i];
      }
    }
    assert ss[|ls| - 1] == starts[|lines| - 1];
    assert ls[|ls| - 1] == lines[|lines| - 1];
  }

  /** Dropping the first line of a split of two or more lines leaves a split. */
  lemma SplitTail(text: Text, s: nat, lines: seq<Text>, starts: seq<nat>)
    requires IsLineSplitFrom(text, s, lines, starts) && |lines| >= 2
    ensures IsLineSplitFrom(text, starts[1], lines[1..], starts[1..])
  {
    var ls, ss := lines[1..], starts[1..];
    forall i: nat | i < |ls|
      ensures LineOk(text, ls, ss, i)
    {
      assert LineOk(text, lines, starts, i + 1);
    }
    forall i: nat | i + 1 < |ls|
      ensures SeparatorOk(text, ls, ss, i)
    {
      assert SeparatorOk(text, lines, starts, i + 1);
    }
  }

  /** The reference split has the declarative shape. */
  lemma {:induction false} SplitFromIsLineSplit(text: Text, s: nat)
    requires s <= |text|
    ensures IsLineSplitFrom(text, s, SplitFrom(text, s).lines, SplitFrom(text, s).lineStarts)
    decreases |text| - s
  {
    var e := LineEnd(text, s);
    if e == |text| {
      assert text[s..][..|text| - s] == text[s..];
      assert IsLineAt(text, s, text[s..]);
    } else {
      var next := e + TerminatorLength(text, e);
      var rest := SplitFrom(text, next);
      SplitFromIsLineSplit(text, next);
      assert IsLineAt(text, s, text[s..e]);
      SplitCons(text, s, text[s..e], rest.lines, rest.lineStarts);
    }
  }

  /** The first line of a split runs exactly to the first terminator. */
  lemma FirstLineEnd(text: Text, s: nat, lines: seq<Text>, starts: seq<nat>)
    requires IsLineSplitFrom(text, s, lines, starts)
    ensures s + |lines[0]| <= |text| && text[s..s + |lines[0]|] == lines[0]
    ensures LineEnd(text, s) == s + |lines[0]|
    ensures |lines| == 1 ==> s + |lines[0]| == |text|
    ensures |lines| > 1 ==> IsSeparatorAt(text, s + |lines[0]|, starts[1])
  {
    var e := s + |lines[0]|;
    assert LineOk(text, lines, starts, 0);
    forall k | s <= k < e
      ensures !IsLineTerminator(text[k])
    {
      LineAvoidsTerminators(text, s, lines[0], k);
    }
    NoTerminatorBeforeEnd(text, s, e);
    if |lines| > 1 {
      assert SeparatorOk(text, lines, starts, 0);
    }
  }

  /** Only the reference split has the declarative shape. */
  lemma {:induction false} LineSplitIsUnique(text: Text, s: nat, lines: seq<Text>, starts: seq<nat>)
    requires s <= |text|
    requires IsLineSplitFrom(text, s, lines, starts)
    ensures SplitFrom(text, s) == LinesAndLineStarts(lines, starts)
    decreases |lines|
  {
    FirstLineEnd(text, s, lines, starts);
    var e := s + |lines[0]|;
    if |lines| == 1 {
      assert text[s..] == lines[0];
      assert lines == [lines[0]] && starts == [s];
    } else {
      assert SeparatorOk(text, lines, starts, 0);
      assert LineOk(text, lines, starts, 0);
      SplitTail(text, s, lines, starts);
      LineSplitIsUnique(text, starts[1], lines[1..], starts[1..]);
      UniqueFirstLine(text, s, e, lines, starts);
    }
  }

  /** The step of `LineSplitIsUnique`: when the first line runs to the
      terminator at `e` and the rest is the reference split from after that
      terminator, the whole is the reference split from `s`. */
  lemma UniqueFirstLine(text: Text, s: nat, e: nat, lines: seq<Text>, starts: seq<nat>)
    requires s <= e < |text| && LineEnd(text, s) == e
    requires |lines| >= 2 && |starts| == |lines| && starts[0] == s && lines[0] == text[s..e]
    requires starts[1] == e + TerminatorLength(text, e)
    requires SplitFrom(text, starts[1]) == LinesAndLineStarts(lines[1..], starts[1..])
    ensures SplitFrom(text, s) == LinesAndLineStarts(lines, starts)
  {
    SplitAtTerminator(text, s, e);
    assert lines == [lines[0]] + lines[1..];
    assert starts == [starts[0]] + starts[1..];
  }

  /** With no terminator in `text[s..e]`, the line from `s` does not end
      before `e`. */
  lemma {:induction false} NoTerminatorBeforeEnd(text: Text, s: nat, e: nat)
    requires s <= e <= |text|
    requires forall k :: s <= k < e ==> !IsLineTerminator(text[k])
    ensures LineEnd(text, s) == LineEnd(text, e)
    decreases e - s
  {
    if s < e {
      NoTerminatorBeforeEnd(text, s + 1, e);
    }
  }

  /** Line starts strictly increase, and every line lies inside the text. */
  lemma {:induction false} LineStartsIncrease(text: Text, s: nat, lines: seq<Text>, starts: seq<nat>)
    requires IsLineSplitFrom(text, s, lines, starts)
    ensures forall i, j :: 0 <= i < j < |starts| ==> starts[i] < starts[j]
    ensures forall i :: 0 <= i < |starts| ==> s <= starts[i] && starts[i] + |lines[i]| <= |text|
    decreases |lines|
  {
    assert LineOk(text, lines, starts, 0);
    if |lines| >= 2 {
      var tailStarts := starts[1..];
      SplitTail(text, s, lines, starts);
      LineStartsIncrease(text, starts[1], lines[1..], tailStarts);
      assert SeparatorOk(text, lines, starts, 0);
      assert s < starts[1];
      forall i, j | 0 <= i < j < |starts|
        ensures starts[i] < starts[j]
      {
        assert starts[j] == tailStarts[j - 1];
        if i > 0 {
          assert starts[i] == tailStarts[i - 1];
        } else {
          assert starts[1] == tailStarts[0];
        }
      }
      forall i | 0 <= i < |starts|
        ensures s <= starts[i] && starts[i] + |lines[i]| <= |text|
      {
        assert LineOk(text, lines, starts, i);
      }
    }
  }

  /** The terminators between consecutive lines of a split, as they occur in
      the text. */
  function Separators(text: Text, lines: seq<Text>, starts: seq<nat>): (seps: seq<Text>)
    requires |starts| >= 1 && IsLineSplitFrom(text, starts[0], lines, starts)
    ensures |seps| == |lines| - 1
  {
    seq(|lines| - 1, i requires 0 <= i < |lines| - 1 =>
      assert SeparatorOk(text, lines, starts, i);
      text[starts[i] + |lines[i]|..starts[i + 1]])
  }

  /** Each separator is one terminator: CR LF, or a single terminator unit. */
  lemma SeparatorsAreTerminators(text: Text, lines: seq<Text>, starts: seq<nat>)
    requires |starts| >= 1 && IsLineSplitFrom(text, starts[0], lines, starts)
    ensures forall sep :: sep in Separators(text, lines, starts) ==>
              sep == [CR, LF] || (|sep| == 1 && IsLineTerminator(sep[0]))
  {
    var seps := Separators(text, lines, starts);
    forall i | 0 <= i < |seps|
      ensures seps[i] == [CR, LF] || (|seps[i]| == 1 && IsLineTerminator(seps[i][0]))
    {
      assert SeparatorOk(text, lines, starts, i);
      var e := starts[i] + |lines[i]|;
      if TerminatorLength(text, e) == 2 {
        assert seps[i] == text[e..e + 2];
      } else {
        assert seps[i] == [text[e]];
      }
    }
  }

  /** Lines interleaved with the terminators that separated them. */
  function JoinLines(lines: seq<Text>, seps: seq<Text>): Text
    requires |lines| == |seps| + 1
    decreases |seps|
  {
    if |seps| == 0 then lines[0] else lines[0] + seps[0] + JoinLines(lines[1..], seps[1..])
  }

  /** Putting the terminators back between the lines rebuilds the text. */
  lemma {:induction false} LinesRejoin(text: Text, s: nat, lines: seq<Text>, starts: seq<nat>)
    requires IsLineSplitFrom(text, s, lines, starts)
    ensures s <= |text|
    ensures JoinLines(lines, Separators(text, lines, starts)) == text[s..]
    decreases |lines|
  {
    FirstLineEnd(text, s, lines, starts);
    var seps := Separators(text, lines, starts);
    if |lines| == 1 {
      assert text[s..] == lines[0];
    } else {
      var e, next := s + |lines[0]|, starts[1];
      SplitTail(text, s, lines, starts);
      LinesRejoin(text, next, lines[1..], starts[1..]);
      SeparatorsTail(text, lines, starts);
      assert seps[0] == text[e..next];
      ConcatSlices(text, s, e, next);
    }
  }

  lemma SeparatorsTail(text: Text, lines: seq<Text>, starts: seq<nat>)
    requires |starts| >= 2 && IsLineSplitFrom(text, starts[0], lines, starts)
    ensures IsLineSplitFrom(text, starts[1], lines[1..], starts[1..])
    ensures Separators(text, lines[1..], starts[1..]) == Separators(text, lines, starts)[1..]
  {
    SplitTail(text, starts[0], lines, starts);
  }

  lemma ConcatSlices(text: Text, a: nat, b: nat, c: nat)
    requires a <= b <= c <= |text|
    ensures text[a..b] + text[b..c] + text[c..] == text[a..]
  {
  }

}
