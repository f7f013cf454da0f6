/** Fixed-width padding: `padLeft` and `padRight` in strings.ts. */
module Padding {
  import opened CodeUnits

  /** `pad` is a whole number of copies of `ch` laid end to end. */
  predicate IsCopiesOf(pad: Text, ch: Text)
    requires |ch| >= 1
    decreases |pad|
  {
    |pad| == 0 || (|ch| <= |pad| && pad[..|ch|] == ch && IsCopiesOf(pad[|ch|..], ch))
  }

  lemma CopiesPrepend(pad: Text, ch: Text)
    requires |ch| >= 1 && IsCopiesOf(pad, ch)
    ensures IsCopiesOf(ch + pad, ch)
  {
    assert (ch + pad)[..|ch|] == ch;
    assert (ch + pad)[|ch|..] == pad;
  }

  lemma {:induction false} CopiesAppend(pad: Text, ch: Text)
    requires |ch| >= 1 && IsCopiesOf(pad, ch)
    ensures IsCopiesOf(pad + ch, ch)
    decreases |pad|
  {
    var w := |ch|;
    if |pad| == 0 {
      assert pad + ch == ch;
      assert ch[..w] == ch && |ch[w..]| == 0;
    } else {
      CopiesAppend(pad[w..], ch);
      assert (pad + ch)[..w] == pad[..w];
      assert (pad + ch)[w..] == pad[w..] + ch;
    }
  }

  /** Copies of a one-unit `ch` are that unit throughout. */
  lemma {:induction false} SingleUnitCopies(pad: Text, ch: Text)
    requires |ch| == 1 && IsCopiesOf(pad, ch)
    ensures forall i :: 0 <= i < |pad| ==> pad[i] == ch[0]
    decreases |pad|
  {
    if |pad| > 0 {
      SingleUnitCopies(pad[1..], ch);
      assert pad[0] == pad[..1][0];
      forall i | 1 <= i < |pad|
        ensures pad[i] == ch[0]
      {
        assert pad[i] == pad[1..][i - 1];
      }
    }
  }

  /** Prepends copies of `ch` until the text is at least `size` units long
      (strings.ts:1-4). With an empty `ch` the source loops forever on a text
      shorter than `size`, so only that case is excluded here. */
  method PadLeft(text: Text, size: int, ch: Text) returns (r: Text)
    requires |ch| >= 1 || size <= |text|
    ensures |text| >= size ==> r == text
    ensures |text| <= |r| && r[|r| - |text|..] == text
    ensures |ch| >= 1 ==> IsCopiesOf(r[..|r| - |text|], ch)
    ensures size <= |r|
    ensures |text| < size ==> |r| < size + |ch|
    ensures |ch| == 1 ==> |r| == if |text| < size then size else |text|
    ensures |ch| == 1 ==> forall i :: 0 <= i < |r| - |text| ==> r[i] == ch[0]
  {
    r := text;
    while |r| < size
      invariant |text| <= |r| && r[|r| - |text|..] == text
      invariant |ch| >= 1 ==> IsCopiesOf(r[..|r| - |text|], ch)
      invariant |text| >= size ==> r == text
      invariant |text| < size ==> |r| < size + |ch|
      decreases size - |r|
    {
      CopiesPrepend(r[..|r| - |text|], ch);
      assert (ch + r)[..|ch + r| - |text|] == ch + r[..|r| - |text|];
      r := ch + r;
    }
    if |ch| == 1 {
      SingleUnitCopies(r[..|r| - |text|], ch);
    }
  }

  /** Appends copies of `ch` until the text is at least `size` units long
      (strings.ts:6-9). An empty `ch` is excluded only on a text shorter
      than `size`, as for `PadLeft`. */
  method PadRight(text: Text, size: int, ch: Text) returns (r: Text)
    requires |ch| >= 1 || size <= |text|
    ensures |text| >= size ==> r == text
    ensures |text| <= |r| && r[..|text|] == text
    ensures |ch| >= 1 ==> IsCopiesOf(r[|text|..], ch)
    ensures size <= |r|
    ensures |text| < size ==> |r| < size + |ch|
    ensures |ch| == 1 ==> |r| == if |text| < size then size else |text|
    ensures |ch| == 1 ==> forall i :: |text| <= i < |r| ==> r[i] == ch[0]
  {
    r := text;
    while |r| < size
      invariant |text| <= |r| && r[..|text|] == text
      invariant |ch| >= 1 ==> IsCopiesOf(r[|text|..], ch)
      invariant |text| >= size ==> r == text
      invariant |text| < size ==> |r| < size + |ch|
      decreases size - |r|
    {
      CopiesAppend(r[|text|..], ch);
      assert (r + ch)[|text|..] == r[|text|..] + ch;
      r := r + ch;
    }
    if |ch| == 1 {
      SingleUnitCopies(r[|text|..], ch);
      assert forall i :: |text| <= i < |r| ==> r[i] == r[|text|..][i - |text|];
    }
  }
}
