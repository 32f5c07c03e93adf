# Coverage report of coverage-tool-js, modelled in Dafny

The tool runs one entry-point script under the runtime's precise-coverage
profiler and prints a report for every script that passes its filter: a
script loaded from a local absolute path, other than the tool itself. Each
line of such a script is printed plain or in red. A line is red when a code
range that never ran spans it, unless the line starts with a closing brace
and no such range spans the line above. This project models the logic behind that report:

- `CoverageData`: the profiler's records. A result has a URL and a list of
  functions. A function has a list of ranges. A range has a start offset, an
  end offset and an execution count.
- `Text`: the string operations the report uses. These are
  `split("\n")`, `trimStart()` and `startsWith`. The source never joins
  lines; `Join` is the model's inverse of `Split`, used only to state the
  round trip.
- `LineMapping`: the 1-based line of a character offset. It is computed as
  `sourceCode.substring(0, offset).split("\n").length`.
- `UncoveredLines`: the nested loops that push the line span of every
  zero-count range onto the list of uncovered lines.
- `Report`: the rendering loop and the red/plain rule with its
  closing-brace exception.
- `CoverageReport`: `generateCoverageReport`, which collects and then renders.
- `ResultFilter`: `filterCoverageResults`, which keeps the records of local
  absolute files other than the tool itself.
- `Wrappers`: an `Option` type. Here `None` stands for a call that throws.

The report is not written to the console. It is returned as a sequence of
`OutputLine(text, style)` records. The style is `Header` for the file name,
`Uncovered` for a red line and `Plain` for everything else. The two library
functions `fileURLToPath` and `isAbsolute` are parameters of the filter.
`toPath` returns `None` where `fileURLToPath` would throw.

The list of uncovered lines is a sequence, as in the source. It keeps the
order of the ranges and may repeat a line. Its specification is
`UncoveredLines.UncoveredList`. Lemmas characterise what it contains.

The model follows `src/coverage.js` on three edge cases:

- `substring` clamps offsets (src/coverage.js:34, 37), so a negative offset
  maps to line 1 and an offset past the end maps to the last line.
- Offset 0 maps to line 1 for every text, the empty text included.
- A range is skipped when its count is not zero (`count !== 0`,
  src/coverage.js:31), whatever the sign of the count.

## Model

| member | source | states |
|---|---|---|
| `Text.Split` | src/coverage.js:47 | `split("\n")` yields at least one piece, and no piece holds a line feed |
| `Text.SplitCount` | src/coverage.js:33-38 | the number of pieces is one more than the number of line feeds in the text |
| `Text.JoinSplit` | src/coverage.js:47 | joining the pieces with line feeds gives back the text |
| `Text.SplitJoin` | src/coverage.js:47 | splitting the join of pieces free of line feeds gives back those pieces, so split and join are inverse |
| `Text.TrimStart` | src/coverage.js:52 | `trimStart()` returns a suffix of the line; everything it drops is whitespace, and what it keeps does not start with whitespace |
| `Text.TrimmedStartsWith` | src/coverage.js:52 | when the trimmed line starts with `c`, `c` is the line's first character that is not whitespace |
| `Text.TrimStopsAt` | src/coverage.js:52 | the trimmed line is the suffix from the first character that is not whitespace, so it starts with that character |
| `Text.StartsWith` | src/coverage.js:17 | `s.startsWith(prefix)`, called here and at line 52, holds exactly when `s` agrees with `prefix` at every position of `prefix`; then `s` is `prefix` followed by the rest of `s` |
| `Text.StartsWithConcat` | src/coverage.js:17 | every text made of `prefix` followed by anything starts with `prefix` |
| `LineMapping.ClampOffset` | src/coverage.js:34-37 | the end of `substring(0, offset)`: a negative offset becomes 0, an offset inside the text is kept, and an offset past the end becomes the length of the text |
| `LineMapping.LineOfInRange` | src/coverage.js:33-38 | for an offset inside the text, the line is 1 plus the number of line feeds before the offset |
| `LineMapping.LineOf` | src/coverage.js:33-38 | the line of an offset is at least 1, and every offset at or before 0 lies on line 1 |
| `LineMapping.LineOfCountsNewlines` | src/coverage.js:33-38 | the line of an offset is 1 plus the number of line feeds in the text before the clamped offset |
| `LineMapping.LineOfMonotone` | src/coverage.js:33-38 | a start offset at or before an end offset gives a start line at or before the end line |
| `LineMapping.LineOfWithinFile` | src/coverage.js:33-47 | every line of an offset is at most the number of pieces of `sourceCode.split("\n")`, and an offset at or past the end lies on the last piece |
| `UncoveredLines.Interval` | src/coverage.js:40-42 | the span from `lo` to `hi` has `hi - lo + 1` entries, and none when `lo > hi` |
| `UncoveredLines.IntervalMembers` | src/coverage.js:40-42 | entry `k` of the span is `lo + k`, and an integer is in the span exactly when it lies between `lo` and `hi` |
| `UncoveredLines.CollectUncoveredLines` | src/coverage.js:27-44 | the nested loops build exactly the specified list; a line is in it exactly when some zero-count range spans it, and every entry is a line of the file (from 1 to the number of pieces) |
| `UncoveredLines.PushFunctionLines` | src/coverage.js:30-43 | the loop over one function's ranges appends exactly the spans of its zero-count ranges, in order |
| `UncoveredLines.PushLineSpan` | src/coverage.js:40-42 | the innermost loop appends the line numbers from the start line to the end line, in increasing order |
| `UncoveredLines.RangesLinesMembers` | src/coverage.js:30-43 | a line is listed for a function's ranges exactly when one of them has count zero and spans it |
| `UncoveredLines.UncoveredMembers` | src/coverage.js:27-44 | a line is in the list exactly when a zero-count range of some function spans it; ranges that ran contribute nothing |
| `UncoveredLines.ZeroCountRangeListed` | src/coverage.js:31-42 | every line from the start line to the end line of a zero-count range is in the list |
| `UncoveredLines.UncoveredWithinFile` | src/coverage.js:33-42 | every listed line is at least 1 and at most the number of pieces the text splits into |
| `UncoveredLines.RangesLinesAppend` | src/coverage.js:30-43 | the list for two runs of ranges is the list for the first run followed by the list for the second |
| `UncoveredLines.RanRangeAddsNothing` | src/coverage.js:31 | removing a range whose count is not zero leaves the list unchanged, in content and in order |
| `Report.StartsWithClosingBrace` | src/coverage.js:52 | `line.trimStart().startsWith("}")` holds exactly when the line's first character that is not whitespace is `}` |
| `Report.LineStyle` | src/coverage.js:49-58 | a line is never styled as the header; only a line whose number is listed is red; a listed line whose previous line number is also listed is always red |
| `Report.RenderReport` | src/coverage.js:46-61 | the output is the header with the file name, then one line per piece of `split("\n")`, in order and with unchanged text, each coloured by the red/plain rule; the line texts joined with line feeds give back the source |
| `Report.RenderedTextsRejoin` | src/coverage.js:47-60 | the texts of the lines printed after the header, joined with line feeds, give back the source |
| `Report.LineStyleCases` | src/coverage.js:49-58 | a line not starting with a closing brace is red exactly when its number is listed; a line whose first non-blank character is `}` is red exactly when its own number and the number of the line above are both listed |
| `CoverageReport.GenerateCoverageReport` | src/coverage.js:26-62 | the report has the header and then every source line unchanged and in order; line `i + 1` is red exactly when a zero-count range spans it and it is not a closing-brace line whose previous line number no zero-count range spans |
| `CoverageReport.FirstClosingBraceLinePlain` | src/coverage.js:40-55 | a first line that starts with a closing brace is never red, because no listed line number is 0 |
| `CoverageReport.UnspannedLinePlain` | src/coverage.js:49-58 | a line that no zero-count range spans is never red |
| `ResultFilter.KeepUrl` | src/coverage.js:16-23 | the callback throws exactly for a `file:///` URL that `fileURLToPath` rejects; it keeps a record only when the URL starts with `file:///` and converts to an absolute path other than the tool's own, and drops it otherwise |
| `ResultFilter.FilterCoverageResults` | src/coverage.js:15-24 | the filter throws exactly when some record's URL starts with `file:///` and `fileURLToPath` rejects it |
| `ResultFilter.FilterKeepsEligibleInOrder` | src/coverage.js:15-24 | when the filter returns, the kept records are a subsequence of the input. A record is kept exactly when its URL starts with `file:///` and converts to an absolute path other than the tool's own. An eligible record occurring several times is kept as many times. So a record whose URL is not a `file:///` URL is always dropped |

## Left out

- The driver at src/coverage.js:64-93 is not modelled. It parses the command line and throws when the entry point is missing. It runs the inspector session (enable, start, take and stop precise coverage) and imports the entry point dynamically. It then reads each kept file from disk. These are a foreign profiler reached over an asynchronous protocol, module loading and filesystem I/O.
- `fileURLToPath` and `isAbsolute` are library code. They are parameters of `ResultFilter.FilterCoverageResults`, and so is the tool's own path (src/coverage.js:13).
- Output goes through `console.log` with ANSI colour codes (src/coverage.js:7-11, 46, 56, 60). It is modelled as `OutputLine` records. The blank line and the space that `console.log("\n", ...)` prints before the file name are not represented.
- Strings are sequences of characters, with one character per UTF-16 code unit of the JavaScript string. Surrogate pairs are not modelled.
- Offsets are integers. Fractional or `NaN` offsets, which `substring` would truncate or treat as 0, are not modelled.
- The whitespace set of `trimStart()` is ECMAScript's WhiteSpace and LineTerminator characters. The Unicode space separators are those of current Unicode versions, so later additions to that category are not tracked.
- A `"\r"` stays inside a line's text, because splitting is only on `"\n"`.
- The collecting loops at src/coverage.js:29-43 are one function in the source. Here they are three methods, one per loop: `CollectUncoveredLines`, `PushFunctionLines` and `PushLineSpan`. The order of pushes is the same.
