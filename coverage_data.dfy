/** The Istanbul-style coverage report the differ reads, as already-parsed
    values, and the lookups with defaults it performs on them. */
module CoverageData {

  datatype Option<+T> = None | Some(value: T)

  datatype Result<+T, +E> = Success(value: T) | Failure(error: E)

  /** `start.line` and `start.column` of one path's location. */
  datatype Location = Location(line: int, column: int)

  /** `branchMap[id]`: one location per path of the branch. */
  datatype BranchMeta = BranchMeta(locations: seq<Location>)

  /** A JSON object keeps its key order, so a branch map is the sequence of
      its (id, meta) entries in that order. */
  type BranchMap = seq<(string, BranchMeta)>

  /** One file's entry of a report. The `branchMap` key may be absent, which
      is not the same as present and empty; an absent `b` reads as empty. */
  datatype FileCoverage = FileCoverage(branchMap: Option<BranchMap>, b: map<string, seq<int>>)

  /** A report maps file paths to their coverage. */
  type CoverageReport = map<string, FileCoverage>

  /** One path hit in one run and not in the other. */
  datatype Discrepancy = Discrepancy(id: string, path: nat, loc: Location)

  /** The IndexError raised when a recorded path has no entry in `locations`. */
  datatype Fault = LocationIndexOutOfRange(file: string, id: string, path: nat)

  /** What `report.get(file, {})` gives for a file the report lacks. */
  const Absent := FileCoverage(None, map[])

  function FileOf(report: CoverageReport, file: string): FileCoverage
  {
    if file in report then report[file] else Absent
  }

  /** `b.get(id, [])` */
  function HitsOf(fc: FileCoverage, id: string): seq<int>
  {
    if id in fc.b then fc.b[id] else []
  }

  /** `baseline.get('branchMap', enhanced.get('branchMap', {}))` */
  function ChosenBranchMap(baseline: FileCoverage, enhanced: FileCoverage): BranchMap
  {
    if baseline.branchMap.Some? then baseline.branchMap.value
    else if enhanced.branchMap.Some? then enhanced.branchMap.value
    else []
  }

  /** The branch map used for `file` when comparing the two reports. */
  function ChosenFor(baseline: CoverageReport, enhanced: CoverageReport, file: string): BranchMap
  {
    ChosenBranchMap(FileOf(baseline, file), FileOf(enhanced, file))
  }

  /** A path counts as hit only when its index is in range and its count is positive. */
  predicate WasHit(hits: seq<int>, i: nat)
  {
    i < |hits| && hits[i] > 0
  }

  /** The number of paths compared: the longer of the two hit arrays. */
  function NumPaths(hitsBaseline: seq<int>, hitsEnhanced: seq<int>): nat
  {
    if |hitsBaseline| < |hitsEnhanced| then |hitsEnhanced| else |hitsBaseline|
  }

  datatype Verdict = OnlyBaseline | OnlyEnhanced | Tie

  /** The if/elif of the classification; a tie (hit in both or neither) is silent. */
  function Classify(hitsBaseline: seq<int>, hitsEnhanced: seq<int>, i: nat): Verdict
  {
    var inBaseline, inEnhanced := WasHit(hitsBaseline, i), WasHit(hitsEnhanced, i);
    if inBaseline && !inEnhanced then OnlyBaseline
    else if inEnhanced && !inBaseline then OnlyEnhanced
    else Tie
  }

  /** Python dictionaries never repeat a key. */
  predicate DistinctIds(bm: BranchMap)
  {
    forall p, q :: 0 <= p < q < |bm| ==> bm[p].0 != bm[q].0
  }

  /** Every branch map in the report has distinct ids, as any parsed JSON object does. */
  predicate WellFormed(report: CoverageReport)
  {
    forall f :: f in report && report[f].branchMap.Some? ==> DistinctIds(report[f].branchMap.value)
  }
}
