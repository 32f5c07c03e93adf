/** The offset-to-line mapping of the coverage report: the 1-based line that
    holds a character offset is the number of pieces that the text before
    the offset splits into. */
module LineMapping {
  import opened Text

  /** The end of `sourceCode.substring(0, offset)`: `substring` clamps its
      argument into `[0, length]`. */
  function ClampOffset(length: nat, offset: int): (end: nat)
    ensures end <= length
    ensures offset <= 0 ==> end == 0
    ensures 0 <= offset <= length ==> end == offset
    ensures offset >= length ==> end == length
  {
    if offset < 0 then 0 else if offset > length then length else offset
  }

  /** `sourceCode.substring(0, offset).split("\n").length` */
  function LineOf(sourceCode: string, offset: int): (line: nat)
    ensures line >= 1
    ensures offset <= 0 ==> line == 1
  {
    |Split(sourceCode[..ClampOffset(|sourceCode|, offset)])|
  }

  /** The line of an offset is one more than the number of line feeds in
      front of it. */
  lemma LineOfCountsNewlines(sourceCode: string, offset: int)
    ensures LineOf(sourceCode, offset) ==
      1 + CountNewlines(sourceCode[..ClampOffset(|sourceCode|, offset)])
  {
    SplitCount(sourceCode[..ClampOffset(|sourceCode|, offset)]);
  }

  /** The line of an offset inside the text is one more than the number of
      line feeds before it. */
  lemma LineOfInRange(sourceCode: string, offset: int)
    requires 0 <= offset <= |sourceCode|
    ensures LineOf(sourceCode, offset) == 1 + CountNewlines(sourceCode[..offset])
  {
    LineOfCountsNewlines(sourceCode, offset);
  }

  /** A later offset never lies on an earlier line. */
  lemma LineOfMonotone(sourceCode: string, a: int, b: int)
    requires a <= b
    ensures LineOf(sourceCode, a) <= LineOf(sourceCode, b)
  {
    var i := ClampOffset(|sourceCode|, a);
    var j := ClampOffset(|sourceCode|, b);
    LineOfCountsNewlines(sourceCode, a);
    LineOfCountsNewlines(sourceCode, b);
    assert sourceCode[..j] == sourceCode[..i] + sourceCode[i..j];
    assert multiset(sourceCode[..j]) == multiset(sourceCode[..i]) + multiset(sourceCode[i..j]);
  }

  /** Every offset lies on a line of the file, and an offset at or past the
      end lies on its last line. */
  lemma LineOfWithinFile(sourceCode: string, offset: int)
    ensures LineOf(sourceCode, offset) <= |Split(sourceCode)|
    ensures offset >= |sourceCode| ==> LineOf(sourceCode, offset) == |Split(sourceCode)|
  {
    assert sourceCode[..|sourceCode|] == sourceCode;
    if offset < |sourceCode| {
      LineOfMonotone(sourceCode, offset, |sourceCode|);
    }
  }
}
