/** The selection of the coverage results that get a report: scripts loaded
    from a local absolute path, other than the coverage tool itself.

    `fileURLToPath` and `isAbsolute` belong to the runtime's libraries and
    are parameters here: `toPath` gives `None` for a URL that
    `fileURLToPath` rejects by throwing, and `ownPath` is the tool's own
    path, itself computed by `fileURLToPath`. */
module ResultFilter {
  import opened Text
  import opened CoverageData
  import opened Wrappers

  const FileUrlPrefix: string := "file:///"

  /** `a` is `b` with some elements left out and the rest in their order. */
  predicate IsSubsequence<T(==)>(a: seq<T>, b: seq<T>)
    decreases |b|
  {
    a == [] ||
    (b != [] && (IsSubsequence(a, b[1..]) || (a[0] == b[0] && IsSubsequence(a[1..], b[1..]))))
  }

  /** The callback of the filter for one URL: `Some(true)` keeps the record,
      `Some(false)` drops it and `None` is the exception `fileURLToPath`
      throws. */
  function KeepUrl(url: string, toPath: string -> Option<string>, isAbsolute: string -> bool, ownPath: string): (keep: Option<bool>)
    ensures keep.None? <==> StartsWith(url, FileUrlPrefix) && toPath(url).None?
    ensures keep == Some(true) ==> StartsWith(url, FileUrlPrefix)
    ensures keep == Some(true) ==>
      toPath(url).Some? && isAbsolute(toPath(url).value) && toPath(url).value != ownPath
    ensures keep == Some(false) ==>
      !StartsWith(url, FileUrlPrefix) || !isAbsolute(toPath(url).value) || toPath(url).value == ownPath
  {
    if StartsWith(url, FileUrlPrefix) then
      match toPath(url)
      case None => None
      case Some(path) => Some(isAbsolute(path) && path != ownPath)
    else Some(false)
  }

  /** A record whose URL is a file URL that converts to an absolute path
      other than the tool's own. */
  predicate Eligible(record: CoverageResult, toPath: string -> Option<string>, isAbsolute: string -> bool, ownPath: string)
  {
    StartsWith(record.url, FileUrlPrefix) &&
    toPath(record.url).Some? &&
    isAbsolute(toPath(record.url).value) &&
    toPath(record.url).value != ownPath
  }

  /** `coverage.result.filter(...)`: the records the callback keeps, in
      their order. The filter throws (`None`) exactly when the callback
      throws for some record, that is when some file URL fails to convert. */
  function FilterCoverageResults(results: seq<CoverageResult>, toPath: string -> Option<string>,
                                 isAbsolute: string -> bool, ownPath: string): (kept: Option<seq<CoverageResult>>)
    ensures kept.None? <==>
      exists k :: 0 <= k < |results| && StartsWith(results[k].url, FileUrlPrefix) && toPath(results[k].url).None?
  {
    if results == [] then Some([])
    else
      match KeepUrl(results[0].url, toPath, isAbsolute, ownPath)
      case None => None
      case Some(keep) =>
        match FilterCoverageResults(results[1..], toPath, isAbsolute, ownPath)
        case None => None
        case Some(rest) => Some(if keep then [results[0]] + rest else rest)
  }

  /** When the filter returns, it keeps exactly the eligible records and
      keeps them in their order: every record whose URL is not a file URL
      is dropped, every kept record converts to an absolute path other
      than the tool's own, and an eligible record that occurs several times
      is kept as many times. */
  lemma {:induction false} FilterKeepsEligibleInOrder(results: seq<CoverageResult>, toPath: string -> Option<string>,
                                                      isAbsolute: string -> bool, ownPath: string)
    requires FilterCoverageResults(results, toPath, isAbsolute, ownPath).Some?
    ensures IsSubsequence(FilterCoverageResults(results, toPath, isAbsolute, ownPath).value, results)
    ensures forall r :: r in FilterCoverageResults(results, toPath, isAbsolute, ownPath).value <==>
      r in results && Eligible(r, toPath, isAbsolute, ownPath)
    ensures forall r :: Eligible(r, toPath, isAbsolute, ownPath) ==>
      multiset(FilterCoverageResults(results, toPath, isAbsolute, ownPath).value)[r] == multiset(results)[r]
  {
    if results != [] {
      var rest := results[1..];
      FilterKeepsEligibleInOrder(rest, toPath, isAbsolute, ownPath);
      assert results == [results[0]] + rest;
      assert multiset(results) == multiset{results[0]} + multiset(rest);
    }
  }
}
