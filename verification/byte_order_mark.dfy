/** Byte-order-mark helpers of strings.ts (lines 11-38). A mark is looked for
    only as raw code-unit values: the UTF-16 mark as the pair FF FE or FE FF,
    the UTF-8 mark as the three units EF BB BF. */
module ByteOrderMark {
  import opened CodeUnits

  /** The UTF-8 mark as three separate code units. */
  const Utf8Mark: Text := [0xEF, 0xBB, 0xBF]

  predicate StartsWithUtf16Mark(text: Text) {
    |text| >= 2 && ((text[0] == 0xFF && text[1] == 0xFE) || (text[0] == 0xFE && text[1] == 0xFF))
  }

  predicate StartsWithUtf8Mark(text: Text) {
    |text| >= 3 && text[..3] == Utf8Mark
  }

  /** Length of the leading mark: 2 for UTF-16, 3 for UTF-8, 0 for none.
      The UTF-16 pair is checked first. */
  function ByteOrderMarkLength(text: Text): (n: nat)
    ensures n == 0 || n == 2 || n == 3
    ensures n <= |text|
    ensures |text| < 2 ==> n == 0
    ensures n == 2 <==> StartsWithUtf16Mark(text)
    ensures n == 3 <==> StartsWithUtf8Mark(text)
  {
    if |text| >= 2 then
      var ch0, ch1 := text[0], text[1];
      if (ch0 == 0xFF && ch1 == 0xFE) || (ch0 == 0xFE && ch1 == 0xFF) then
        2
      else if |text| >= 3 && ch0 == 0xEF && ch1 == 0xBB && text[2] == 0xBF then
        3
      else
        0
    else
      0
  }

  /** The leading mark itself, empty when there is none. */
  function GetByteOrderMark(text: Text): (mark: Text)
    ensures |mark| == ByteOrderMarkLength(text)
    ensures mark <= text
    ensures mark == [] || mark == Utf8Mark || mark == [0xFF, 0xFE] || mark == [0xFE, 0xFF]
  {
    var n := ByteOrderMarkLength(text);
    if n > 0 then text[..n] else []
  }

  /** The text without its leading mark; only one mark is removed. */
  function RemoveByteOrderMark(text: Text): (rest: Text)
    ensures GetByteOrderMark(text) + rest == text
    ensures ByteOrderMarkLength(text) == 0 ==> rest == text
    ensures |rest| == |text| - ByteOrderMarkLength(text)
  {
    var n := ByteOrderMarkLength(text);
    if n != 0 then text[n..] else text
  }

  /** Prepends the UTF-8 mark unless some mark is already there. */
  function AddUtf8ByteOrderMark(text: Text): (r: Text)
    ensures ByteOrderMarkLength(text) == 0 ==> r == Utf8Mark + text
    ensures ByteOrderMarkLength(text) != 0 ==> r == text
    ensures ByteOrderMarkLength(r) != 0
  {
    if ByteOrderMarkLength(text) == 0 then Utf8Mark + text else text
  }

  /** The mark and the rest split the text, and the mark has the reported
      length. */
  lemma ByteOrderMarkSplit(text: Text)
    ensures GetByteOrderMark(text) + RemoveByteOrderMark(text) == text
    ensures |GetByteOrderMark(text)| == ByteOrderMarkLength(text)
  {
  }

  /** On a text without a mark, adding the UTF-8 mark gives a text whose mark
      is exactly that, and removing it gives the text back. */
  lemma AddThenRemove(text: Text)
    requires ByteOrderMarkLength(text) == 0
    ensures ByteOrderMarkLength(AddUtf8ByteOrderMark(text)) == 3
    ensures GetByteOrderMark(AddUtf8ByteOrderMark(text)) == Utf8Mark
    ensures RemoveByteOrderMark(AddUtf8ByteOrderMark(text)) == text
  {
    var r := Utf8Mark + text;
    assert r[..3] == Utf8Mark;
    assert r[3..] == text;
  }

  /** Adding the UTF-8 mark twice is the same as adding it once. */
  lemma AddIsIdempotent(text: Text)
    ensures AddUtf8ByteOrderMark(AddUtf8ByteOrderMark(text)) == AddUtf8ByteOrderMark(text)
  {
  }

  /** A text that does start with a mark keeps it after `AddUtf8ByteOrderMark`,
      including a UTF-16 mark, which is not turned into a UTF-8 one. */
  lemma AddKeepsExistingMark(text: Text)
    requires ByteOrderMarkLength(text) != 0
    ensures GetByteOrderMark(AddUtf8ByteOrderMark(text)) == GetByteOrderMark(text)
    ensures StartsWithUtf16Mark(text) ==> !StartsWithUtf8Mark(AddUtf8ByteOrderMark(text))
  {
  }

  /** Only one mark is removed: a doubled UTF-16 mark keeps its second copy,
      so removal is not idempotent and the result can still carry a mark. */
  lemma RemoveStripsOneMark()
    ensures RemoveByteOrderMark([0xFF, 0xFE, 0xFF, 0xFE]) == [0xFF, 0xFE]
    ensures GetByteOrderMark(RemoveByteOrderMark([0xFF, 0xFE, 0xFF, 0xFE])) == [0xFF, 0xFE]
    ensures RemoveByteOrderMark(RemoveByteOrderMark([0xFF, 0xFE, 0xFF, 0xFE]))
         != RemoveByteOrderMark([0xFF, 0xFE, 0xFF, 0xFE])
  {
    var t: Text := [0xFF, 0xFE, 0xFF, 0xFE];
    assert t[2..] == [0xFF, 0xFE];
    var u: Text := [0xFF, 0xFE];
    assert u[..2] == u;
    assert u[2..] == [];
  }
}
