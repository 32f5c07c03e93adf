/** The rendering of one file's report. Instead of writing coloured text to
    the console, the renderer returns the lines it would write, each tagged
    with the colour it would be wrapped in. */
module Report {
  import opened Text

  /** The colour of a written line: none, the green of the file-name header,
      or the red of an uncovered line. */
  datatype Style = Plain | Header | Uncovered

  /** One console line: its text and the colour wrapped around it. */
  datatype OutputLine = OutputLine(text: string, style: Style)

  /** The closing-brace test of the renderer: `line.trimStart().startsWith("}")`
      holds exactly when the first character of the line that is not
      whitespace is a closing brace. */
  predicate StartsWithClosingBrace(line: string): (b: bool)
    ensures b <==> FirstNonBlankIs(line, '}')
  {
    StartsWith(TrimStart(line), "}")
  }

  /** The colour of the line at 0-based `index`: red when its line number
      `index + 1` is listed, unless the line starts with a closing brace and
      the line number `index` (that of the line above) is not listed. */
  function LineStyle(uncoveredLines: seq<int>, index: nat, line: string): (style: Style)
    ensures style != Header
    ensures style == Uncovered ==> index + 1 in uncoveredLines
    ensures index + 1 in uncoveredLines && index in uncoveredLines ==> style == Uncovered
  {
    if index + 1 in uncoveredLines && !(StartsWithClosingBrace(line) && index !in uncoveredLines)
    then Uncovered
    else Plain
  }

  /** The texts of a sequence of output lines. */
  function Texts(out: seq<OutputLine>): seq<string>
  {
    seq(|out|, k requires 0 <= k < |out| => out[k].text)
  }

  /** The rendering loop: a header carrying the file name, then every piece
      of `sourceCode.split("\n")`, in order and unchanged, each in the colour
      `LineStyle` decides. */
  method RenderReport(fileName: string, sourceCode: string, uncoveredLines: seq<int>)
    returns (out: seq<OutputLine>)
    ensures |out| == |Split(sourceCode)| + 1
    ensures out[0] == OutputLine(fileName, Header)
    ensures forall i :: 0 <= i < |Split(sourceCode)| ==>
      out[i + 1] == OutputLine(Split(sourceCode)[i], LineStyle(uncoveredLines, i, Split(sourceCode)[i]))
    ensures Join(Texts(out[1..])) == sourceCode
  {
    out := [OutputLine(fileName, Header)];
    var lines := Split(sourceCode);
    var lineIndex := 0;
    while lineIndex < |lines|
      invariant 0 <= lineIndex <= |lines|
      invariant |out| == lineIndex + 1
      invariant out[0] == OutputLine(fileName, Header)
      invariant forall i :: 0 <= i < lineIndex ==>
        out[i + 1] == OutputLine(lines[i], LineStyle(uncoveredLines, i, lines[i]))
    {
      var line := lines[lineIndex];
      var style := Plain;
      if lineIndex + 1 in uncoveredLines &&
         !(StartsWith(TrimStart(line), "}") && lineIndex !in uncoveredLines)
      {
        style := Uncovered;
      }
      assert style == LineStyle(uncoveredLines, lineIndex, line);
      out := out + [OutputLine(line, style)];
      lineIndex := lineIndex + 1;
    }
    RenderedTextsRejoin(out, sourceCode);
  }

  /** Output lines that carry the pieces of `sourceCode` after a header give
      back `sourceCode` when their texts are joined with line feeds. */
  lemma RenderedTextsRejoin(out: seq<OutputLine>, sourceCode: string)
    requires |out| == |Split(sourceCode)| + 1
    requires forall i :: 0 <= i < |Split(sourceCode)| ==> out[i + 1].text == Split(sourceCode)[i]
    ensures Join(Texts(out[1..])) == sourceCode
  {
    var lines := Split(sourceCode);
    forall k | 0 <= k < |lines|
      ensures Texts(out[1..])[k] == lines[k]
    {
      assert out[1..][k] == out[k + 1];
    }
    assert Texts(out[1..]) == lines;
    JoinSplit(sourceCode);
  }

  /** A line that does not start with a closing brace is red exactly when
      its number is listed; a line that does is red exactly when its own
      number and the number of the line above are both listed. */
  lemma LineStyleCases(uncoveredLines: seq<int>, index: nat, line: string)
    ensures !FirstNonBlankIs(line, '}') ==>
      (LineStyle(uncoveredLines, index, line) == Uncovered <==> index + 1 in uncoveredLines)
    ensures FirstNonBlankIs(line, '}') ==>
      (LineStyle(uncoveredLines, index, line) == Uncovered <==>
        index + 1 in uncoveredLines && index in uncoveredLines)
  {
    if StartsWithClosingBrace(line) {
      TrimmedStartsWith(line, '}');
    }
    if FirstNonBlankIs(line, '}') {
      var k :| 0 <= k < |line| && line[k] == '}' && forall m :: 0 <= m < k ==> IsWhitespace(line[m]);
      TrimStopsAt(line, k);
    }
  }
}
