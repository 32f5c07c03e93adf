/** `generateCoverageReport`: collect the uncovered lines of one file from
    its coverage records, then render the file with those lines in red. */
module CoverageReport {
  import opened Text
  import opened LineMapping
  import opened CoverageData
  import opened UncoveredLines
  import opened Report

  /** The report of one file. Line `i + 1` of the file is red exactly when a
      range that never ran spans it and it is not a closing-brace line whose
      line above no such range spans. */
  method GenerateCoverageReport(fileName: string, sourceCode: string, functions: seq<FunctionCoverage>)
    returns (out: seq<OutputLine>)
    ensures |out| == |Split(sourceCode)| + 1
    ensures out[0] == OutputLine(fileName, Header)
    ensures Join(Texts(out[1..])) == sourceCode
    ensures forall i :: 0 <= i < |Split(sourceCode)| ==>
      out[i + 1].text == Split(sourceCode)[i] && out[i + 1].style != Header
    ensures forall i :: 0 <= i < |Split(sourceCode)| ==>
      (out[i + 1].style == Uncovered <==>
        IsUncovered(sourceCode, functions, i + 1) &&
        !(StartsWithClosingBrace(Split(sourceCode)[i]) && !IsUncovered(sourceCode, functions, i)))
  {
    var uncoveredLines := CollectUncoveredLines(sourceCode, functions);
    out := RenderReport(fileName, sourceCode, uncoveredLines);
    forall i | 0 <= i < |Split(sourceCode)|
      ensures out[i + 1].style == Uncovered <==>
        IsUncovered(sourceCode, functions, i + 1) &&
        !(StartsWithClosingBrace(Split(sourceCode)[i]) && !IsUncovered(sourceCode, functions, i))
    {
      UncoveredMembers(sourceCode, functions, i);
      UncoveredMembers(sourceCode, functions, i + 1);
      assert out[i + 1] == OutputLine(Split(sourceCode)[i], LineStyle(uncoveredLines, i, Split(sourceCode)[i]));
    }
  }

  /** The first line is never red when it starts with a closing brace: no
      listed line number is 0, so the line above never counts as listed. */
  lemma FirstClosingBraceLinePlain(sourceCode: string, functions: seq<FunctionCoverage>)
    requires StartsWithClosingBrace(Split(sourceCode)[0])
    ensures LineStyle(UncoveredList(sourceCode, functions), 0, Split(sourceCode)[0]) == Plain
  {
    UncoveredWithinFile(sourceCode, functions);
  }

  /** A line that no zero-count range spans is never red. */
  lemma UnspannedLinePlain(sourceCode: string, functions: seq<FunctionCoverage>, i: nat)
    requires i < |Split(sourceCode)|
    requires !IsUncovered(sourceCode, functions, i + 1)
    ensures LineStyle(UncoveredList(sourceCode, functions), i, Split(sourceCode)[i]) == Plain
  {
    UncoveredMembers(sourceCode, functions, i + 1);
  }
}
