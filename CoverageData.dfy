/** The records of precise coverage that the runtime's profiler reports:
    one result per script, one entry per function, one entry per block
    range. Only the fields the report reads are kept. */
module CoverageData {

  /** A span of character offsets and how often it ran. */
  datatype Range = Range(startOffset: int, endOffset: int, count: int)

  /** The ranges recorded for one function. */
  datatype FunctionCoverage = FunctionCoverage(ranges: seq<Range>)

  /** The coverage of one script, named by its URL. */
  datatype CoverageResult = CoverageResult(url: string, functions: seq<FunctionCoverage>)
}
