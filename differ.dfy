/** The branch-coverage differ: for every file of either report, the paths
    hit in one run and not in the other. The functions below state what the
    differ computes, level by level (paths of one branch, branches of one
    file, files of the reports); the methods are the differ's loops, each
    proved to compute its function. */
module Differ {
  import opened StringOrder
  import opened CoverageData

  /** The two lists built for one file. */
  datatype Lists = Lists(baseline: seq<Discrepancy>, enhanced: seq<Discrepancy>)

  /** `only_in_baseline` and `only_in_enhanced`. */
  datatype Comparison = Comparison(
    onlyInBaseline: map<string, seq<Discrepancy>>,
    onlyInEnhanced: map<string, seq<Discrepancy>>)

  /** The effect of path `i` of branch `id` on the lists: nothing on a tie,
      otherwise one record appended, or the fault when `locations` has no
      entry `i`. */
  function Record(file: string, id: string, meta: BranchMeta, acc: Lists, v: Verdict, i: nat): Result<Lists, Fault>
  {
    match v
    case Tie => Success(acc)
    case OnlyBaseline =>
      if i < |meta.locations|
      then Success(acc.(baseline := acc.baseline + [Discrepancy(id, i, meta.locations[i])]))
      else Failure(LocationIndexOutOfRange(file, id, i))
    case OnlyEnhanced =>
      if i < |meta.locations|
      then Success(acc.(enhanced := acc.enhanced + [Discrepancy(id, i, meta.locations[i])]))
      else Failure(LocationIndexOutOfRange(file, id, i))
  }

  /** The lists after paths 0 .. n-1 of branch `id`, starting from `acc`. */
  function PathScan(file: string, id: string, meta: BranchMeta, hb: seq<int>, he: seq<int>, acc: Lists, n: nat)
    : Result<Lists, Fault>
  {
    if n == 0 then Success(acc)
    else match PathScan(file, id, meta, hb, he, acc, n - 1)
      case Failure(e) => Failure(e)
      case Success(a) => Record(file, id, meta, a, Classify(hb, he, n - 1), n - 1)
  }

  /** The lists after the first `k` entries of the branch map. */
  function BranchScan(file: string, bm: BranchMap, fb: FileCoverage, fe: FileCoverage, k: nat): Result<Lists, Fault>
    requires k <= |bm|
  {
    if k == 0 then Success(Lists([], []))
    else match BranchScan(file, bm, fb, fe, k - 1)
      case Failure(e) => Failure(e)
      case Success(acc) =>
        var id := bm[k - 1].0;
        var hb, he := HitsOf(fb, id), HitsOf(fe, id);
        PathScan(file, id, bm[k - 1].1, hb, he, acc, NumPaths(hb, he))
  }

  /** The two lists of one file, from its chosen branch map. */
  function FileLists(baseline: CoverageReport, enhanced: CoverageReport, file: string): Result<Lists, Fault>
  {
    var bm := ChosenFor(baseline, enhanced, file);
    BranchScan(file, bm, FileOf(baseline, file), FileOf(enhanced, file), |bm|)
  }

  /** One turn of the file loop: skipped when the chosen branch map is
      empty, otherwise both maps get the file's lists. */
  function FileStep(baseline: CoverageReport, enhanced: CoverageReport, file: string, acc: Comparison)
    : Result<Comparison, Fault>
  {
    if |ChosenFor(baseline, enhanced, file)| == 0 then Success(acc)
    else match FileLists(baseline, enhanced, file)
      case Failure(e) => Failure(e)
      case Success(l) =>
        Success(Comparison(acc.onlyInBaseline[file := l.baseline], acc.onlyInEnhanced[file := l.enhanced]))
  }

  /** The comparison after the first `j` files of `files`. */
  function FileScan(baseline: CoverageReport, enhanced: CoverageReport, files: seq<string>, j: nat)
    : Result<Comparison, Fault>
    requires j <= |files|
  {
    if j == 0 then Success(Comparison(map[], map[]))
    else match FileScan(baseline, enhanced, files, j - 1)
      case Failure(e) => Failure(e)
      case Success(acc) => FileStep(baseline, enhanced, files[j - 1], acc)
  }

  /** The whole comparison: the files of either report, in sorted order. */
  function Differences(baseline: CoverageReport, enhanced: CoverageReport): Result<Comparison, Fault>
  {
    var files := SortedKeys(baseline.Keys + enhanced.Keys);
    FileScan(baseline, enhanced, files, |files|)
  }

  lemma {:induction false} PathScanFailureSticks(
    file: string, id: string, meta: BranchMeta, hb: seq<int>, he: seq<int>, acc: Lists, m: nat, n: nat, e: Fault)
    requires m <= n && PathScan(file, id, meta, hb, he, acc, m) == Failure(e)
    ensures PathScan(file, id, meta, hb, he, acc, n) == Failure(e)
    decreases n
  {
    if m < n {
      PathScanFailureSticks(file, id, meta, hb, he, acc, m, n - 1, e);
    }
  }

  lemma {:induction false} BranchScanFailureSticks(
    file: string, bm: BranchMap, fb: FileCoverage, fe: FileCoverage, m: nat, n: nat, e: Fault)
    requires m <= n <= |bm| && BranchScan(file, bm, fb, fe, m) == Failure(e)
    ensures BranchScan(file, bm, fb, fe, n) == Failure(e)
    decreases n
  {
    if m < n {
      BranchScanFailureSticks(file, bm, fb, fe, m, n - 1, e);
    }
  }

  lemma {:induction false} FileScanFailureSticks(
    baseline: CoverageReport, enhanced: CoverageReport, files: seq<string>, m: nat, n: nat, e: Fault)
    requires m <= n <= |files| && FileScan(baseline, enhanced, files, m) == Failure(e)
    ensures FileScan(baseline, enhanced, files, n) == Failure(e)
    decreases n
  {
    if m < n {
      FileScanFailureSticks(baseline, enhanced, files, m, n - 1, e);
    }
  }

  /** The innermost loop: every path index below the longer hit array. */
  method DiffPaths(file: string, id: string, meta: BranchMeta, hb: seq<int>, he: seq<int>, acc: Lists)
    returns (r: Result<Lists, Fault>)
    ensures r == PathScan(file, id, meta, hb, he, acc, NumPaths(hb, he))
  {
    var inBaseline, inEnhanced := acc.baseline, acc.enhanced;
    var numPaths := if |hb| < |he| then |he| else |hb|;
    for i := 0 to numPaths
      invariant PathScan(file, id, meta, hb, he, acc, i) == Success(Lists(inBaseline, inEnhanced))
    {
      var hitInBaseline := if i < |hb| then hb[i] > 0 else false;
      var hitInEnhanced := if i < |he| then he[i] > 0 else false;
      if hitInBaseline && !hitInEnhanced {
        if i >= |meta.locations| {
          PathScanFailureSticks(file, id, meta, hb, he, acc, i + 1, numPaths, LocationIndexOutOfRange(file, id, i));
          return Failure(LocationIndexOutOfRange(file, id, i));
        }
        inBaseline := inBaseline + [Discrepancy(id, i, meta.locations[i])];
      } else if hitInEnhanced && !hitInBaseline {
        if i >= |meta.locations| {
          PathScanFailureSticks(file, id, meta, hb, he, acc, i + 1, numPaths, LocationIndexOutOfRange(file, id, i));
          return Failure(LocationIndexOutOfRange(file, id, i));
        }
        inEnhanced := inEnhanced + [Discrepancy(id, i, meta.locations[i])];
      }
    }
    return Success(Lists(inBaseline, inEnhanced));
  }

  /** The loop over the chosen branch map's entries, in its own order. */
  method DiffBranches(file: string, bm: BranchMap, fb: FileCoverage, fe: FileCoverage)
    returns (r: Result<Lists, Fault>)
    ensures r == BranchScan(file, bm, fb, fe, |bm|)
  {
    var lists := Lists([], []);
    for k := 0 to |bm|
      invariant BranchScan(file, bm, fb, fe, k) == Success(lists)
    {
      var (id, meta) := bm[k];
      var hb := HitsOf(fb, id);
      var he := HitsOf(fe, id);
      var next := DiffPaths(file, id, meta, hb, he, lists);
      if next.Failure? {
        BranchScanFailureSticks(file, bm, fb, fe, k + 1, |bm|, next.error);
        return next;
      }
      lists := next.value;
    }
    return Success(lists);
  }

  /** The loop over the sorted union of the two reports' files. */
  method Diff(baseline: CoverageReport, enhanced: CoverageReport) returns (r: Result<Comparison, Fault>)
    ensures r == Differences(baseline, enhanced)
  {
    var onlyInBaseline: map<string, seq<Discrepancy>> := map[];
    var onlyInEnhanced: map<string, seq<Discrepancy>> := map[];
    var files := SortedKeys(baseline.Keys + enhanced.Keys);
    for j := 0 to |files|
      invariant FileScan(baseline, enhanced, files, j) == Success(Comparison(onlyInBaseline, onlyInEnhanced))
    {
      var file := files[j];
      var fb := FileOf(baseline, file);
      var fe := FileOf(enhanced, file);
      var bm := ChosenBranchMap(fb, fe);
      if |bm| > 0 {
        var lists := DiffBranches(file, bm, fb, fe);
        if lists.Failure? {
          FileScanFailureSticks(baseline, enhanced, files, j + 1, |files|, lists.error);
          return Failure(lists.error);
        }
        onlyInBaseline := onlyInBaseline[file := lists.value.baseline];
        onlyInEnhanced := onlyInEnhanced[file := lists.value.enhanced];
      }
    }
    return Success(Comparison(onlyInBaseline, onlyInEnhanced));
  }
}
