/** The collection of uncovered lines: every range that never ran marks
    every line from the line of its start offset to the line of its end
    offset, both included. The list keeps the order in which the ranges are
    visited and may repeat a line. */
module UncoveredLines {
  import opened Text
  import opened LineMapping
  import opened CoverageData

  /** The integers `lo, lo + 1, ..., hi`, in increasing order. */
  function Interval(lo: int, hi: int): (r: seq<int>)
    ensures |r| == if lo <= hi then hi - lo + 1 else 0
    decreases hi - lo
  {
    if hi < lo then [] else Interval(lo, hi - 1) + [hi]
  }

  /** The interval holds exactly the integers from `lo` to `hi`. */
  lemma {:induction false} IntervalMembers(lo: int, hi: int)
    ensures forall k :: 0 <= k < |Interval(lo, hi)| ==> Interval(lo, hi)[k] == lo + k
    ensures forall x :: x in Interval(lo, hi) <==> lo <= x <= hi
    decreases hi - lo
  {
    if lo <= hi {
      IntervalMembers(lo, hi - 1);
      assert Interval(lo, hi) == Interval(lo, hi - 1) + [hi];
    }
  }

  /** The lines one range contributes: none when it ran, otherwise its line
      span. */
  function RangeLines(sourceCode: string, range: Range): seq<int>
  {
    if range.count != 0 then []
    else Interval(LineOf(sourceCode, range.startOffset), LineOf(sourceCode, range.endOffset))
  }

  /** The lines the ranges of one function contribute, in order. */
  function RangesLines(sourceCode: string, ranges: seq<Range>): seq<int>
  {
    if ranges == [] then []
    else RangesLines(sourceCode, ranges[..|ranges| - 1]) + RangeLines(sourceCode, ranges[|ranges| - 1])
  }

  /** The whole list of uncovered lines for a script's functions. */
  function UncoveredList(sourceCode: string, functions: seq<FunctionCoverage>): seq<int>
  {
    if functions == [] then []
    else UncoveredList(sourceCode, functions[..|functions| - 1]) + RangesLines(sourceCode, functions[|functions| - 1].ranges)
  }

  /** `line` lies in the line span of `range`, and `range` never ran. */
  predicate ZeroCountCovers(sourceCode: string, range: Range, line: int)
  {
    range.count == 0 &&
    LineOf(sourceCode, range.startOffset) <= line <= LineOf(sourceCode, range.endOffset)
  }

  /** `line` lies in the line span of some range, of some function, that
      never ran. */
  predicate IsUncovered(sourceCode: string, functions: seq<FunctionCoverage>, line: int)
  {
    exists f, r :: 0 <= f < |functions| && 0 <= r < |functions[f].ranges| &&
      ZeroCountCovers(sourceCode, functions[f].ranges[r], line)
  }

  /** The nested loops of `generateCoverageReport`: for every function, for
      every range that never ran, push every line from its start line to its
      end line. */
  method CollectUncoveredLines(sourceCode: string, functions: seq<FunctionCoverage>)
    returns (uncoveredLines: seq<int>)
    ensures uncoveredLines == UncoveredList(sourceCode, functions)
    ensures forall line :: line in uncoveredLines <==> IsUncovered(sourceCode, functions, line)
    ensures forall k :: 0 <= k < |uncoveredLines| ==> 1 <= uncoveredLines[k] <= |Split(sourceCode)|
  {
    uncoveredLines := [];
    var f := 0;
    while f < |functions|
      invariant 0 <= f <= |functions|
      invariant uncoveredLines == UncoveredList(sourceCode, functions[..f])
    {
      uncoveredLines := PushFunctionLines(sourceCode, functions[f].ranges, uncoveredLines);
      assert functions[..f + 1][..f] == functions[..f];
      f := f + 1;
    }
    assert functions[..f] == functions;
    UncoveredWithinFile(sourceCode, functions);
    forall line ensures line in uncoveredLines <==> IsUncovered(sourceCode, functions, line) {
      UncoveredMembers(sourceCode, functions, line);
    }
  }

  /** The body of the outer loop: the ranges of one function, each pushing
      its line span when its count is zero. */
  method PushFunctionLines(sourceCode: string, ranges: seq<Range>, uncoveredLines: seq<int>)
    returns (pushed: seq<int>)
    ensures pushed == uncoveredLines + RangesLines(sourceCode, ranges)
  {
    pushed := uncoveredLines;
    var r := 0;
    while r < |ranges|
      invariant 0 <= r <= |ranges|
      invariant pushed == uncoveredLines + RangesLines(sourceCode, ranges[..r])
    {
      var range := ranges[r];
      if range.count == 0 {
        var startLine := LineOf(sourceCode, range.startOffset);
        var endLine := LineOf(sourceCode, range.endOffset);
        pushed := PushLineSpan(pushed, startLine, endLine);
      }
      assert ranges[..r + 1][..r] == ranges[..r];
      r := r + 1;
    }
    assert ranges[..r] == ranges;
  }

  /** The innermost loop: push every line number from `startLine` to
      `endLine`, both included; nothing when `startLine > endLine`. */
  method PushLineSpan(uncoveredLines: seq<int>, startLine: int, endLine: int) returns (pushed: seq<int>)
    ensures pushed == uncoveredLines + Interval(startLine, endLine)
  {
    pushed := uncoveredLines;
    var line := startLine;
    while line <= endLine
      invariant startLine <= line <= if startLine <= endLine then endLine + 1 else startLine
      invariant pushed == uncoveredLines + Interval(startLine, line - 1)
    {
      assert Interval(startLine, line) == Interval(startLine, line - 1) + [line];
      pushed := pushed + [line];
      line := line + 1;
    }
  }

  /** A line is listed for a function's ranges exactly when one of them
      never ran and spans it. */
  lemma {:induction false} RangesLinesMembers(sourceCode: string, ranges: seq<Range>, line: int)
    ensures line in RangesLines(sourceCode, ranges) <==>
      exists r :: 0 <= r < |ranges| && ZeroCountCovers(sourceCode, ranges[r], line)
  {
    if ranges != [] {
      var init := ranges[..|ranges| - 1];
      var last := ranges[|ranges| - 1];
      RangesLinesMembers(sourceCode, init, line);
      if line in RangesLines(sourceCode, init) {
        var r :| 0 <= r < |init| && ZeroCountCovers(sourceCode, init[r], line);
        assert ranges[r] == init[r];
      }
      IntervalMembers(LineOf(sourceCode, last.startOffset), LineOf(sourceCode, last.endOffset));
      if line in RangeLines(sourceCode, last) {
        assert ZeroCountCovers(sourceCode, ranges[|ranges| - 1], line);
      }
      if r :| 0 <= r < |ranges| && ZeroCountCovers(sourceCode, ranges[r], line) {
        if r < |init| {
          assert init[r] == ranges[r];
        }
      }
    }
  }

  /** A line is in the uncovered list exactly when some zero-count range
      spans it: the list is the union of the line spans of the ranges that
      never ran, and ranges that ran add nothing. */
  lemma {:induction false} UncoveredMembers(sourceCode: string, functions: seq<FunctionCoverage>, line: int)
    ensures line in UncoveredList(sourceCode, functions) <==> IsUncovered(sourceCode, functions, line)
  {
    if functions != [] {
      var init := functions[..|functions| - 1];
      var last := functions[|functions| - 1];
      UncoveredMembers(sourceCode, init, line);
      RangesLinesMembers(sourceCode, last.ranges, line);
      assert UncoveredList(sourceCode, functions) == UncoveredList(sourceCode, init) + RangesLines(sourceCode, last.ranges);
      if IsUncovered(sourceCode, functions, line) {
        var f, r :| 0 <= f < |functions| && 0 <= r < |functions[f].ranges| &&
          ZeroCountCovers(sourceCode, functions[f].ranges[r], line);
        if f < |init| {
          assert init[f] == functions[f];
          assert IsUncovered(sourceCode, init, line);
        } else {
          assert functions[f] == last;
          assert line in RangesLines(sourceCode, last.ranges);
        }
      }
      if line in UncoveredList(sourceCode, functions) {
        if line in UncoveredList(sourceCode, init) {
          var f, r :| 0 <= f < |init| && 0 <= r < |init[f].ranges| &&
            ZeroCountCovers(sourceCode, init[f].ranges[r], line);
          assert functions[f] == init[f];
        } else {
          var r :| 0 <= r < |last.ranges| && ZeroCountCovers(sourceCode, last.ranges[r], line);
          assert functions[|functions| - 1] == last;
        }
      }
    }
  }

  /** Every zero-count range lists every line of its span. */
  lemma ZeroCountRangeListed(sourceCode: string, functions: seq<FunctionCoverage>, f: nat, r: nat, line: int)
    requires f < |functions| && r < |functions[f].ranges|
    requires functions[f].ranges[r].count == 0
    requires LineOf(sourceCode, functions[f].ranges[r].startOffset) <= line <= LineOf(sourceCode, functions[f].ranges[r].endOffset)
    ensures line in UncoveredList(sourceCode, functions)
  {
    UncoveredMembers(sourceCode, functions, line);
  }

  /** Every listed line is a line of the file: at least 1 and at most the
      number of pieces the text splits into. */
  lemma UncoveredWithinFile(sourceCode: string, functions: seq<FunctionCoverage>)
    ensures forall k :: 0 <= k < |UncoveredList(sourceCode, functions)| ==>
      1 <= UncoveredList(sourceCode, functions)[k] <= |Split(sourceCode)|
  {
    forall k | 0 <= k < |UncoveredList(sourceCode, functions)|
      ensures 1 <= UncoveredList(sourceCode, functions)[k] <= |Split(sourceCode)|
    {
      var line := UncoveredList(sourceCode, functions)[k];
      UncoveredMembers(sourceCode, functions, line);
      var f, r :| 0 <= f < |functions| && 0 <= r < |functions[f].ranges| &&
        ZeroCountCovers(sourceCode, functions[f].ranges[r], line);
      LineOfWithinFile(sourceCode, functions[f].ranges[r].endOffset);
    }
  }

  /** The list for two runs of ranges, one after the other, is the list
      for the first followed by the list for the second. */
  lemma {:induction false} RangesLinesAppend(sourceCode: string, first: seq<Range>, second: seq<Range>)
    ensures RangesLines(sourceCode, first + second) == RangesLines(sourceCode, first) + RangesLines(sourceCode, second)
  {
    if second == [] {
      assert first + second == first;
    } else {
      var init := second[..|second| - 1];
      var last := second[|second| - 1];
      var xs := first + second;
      assert xs[..|xs| - 1] == first + init;
      assert xs[|xs| - 1] == last;
      assert RangesLines(sourceCode, xs) == RangesLines(sourceCode, first + init) + RangeLines(sourceCode, last);
      RangesLinesAppend(sourceCode, first, init);
      assert RangesLines(sourceCode, second) == RangesLines(sourceCode, init) + RangeLines(sourceCode, last);
    }
  }

  /** A range that ran can be dropped from a function's ranges without
      changing the list at all. */
  lemma RanRangeAddsNothing(sourceCode: string, before: seq<Range>, range: Range, after: seq<Range>)
    requires range.count != 0
    ensures RangesLines(sourceCode, before + [range] + after) == RangesLines(sourceCode, before + after)
  {
    var withRange := before + [range];
    assert withRange[..|withRange| - 1] == before;
    assert RangesLines(sourceCode, withRange) == RangesLines(sourceCode, before);
    RangesLinesAppend(sourceCode, withRange, after);
    RangesLinesAppend(sourceCode, before, after);
  }
}
