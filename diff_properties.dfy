/** What the differ's result means: which records each list holds, when the
    comparison faults, which files get keys, the order of the records, and
    how the result behaves under swapping and self-comparison. */
module DiffProperties {
  import opened StringOrder
  import opened CoverageData
  import opened Differ

  /** `d` is a record of a path hit in `mine` and not in `other`, carrying
      the location `locations[path]` of branch metadata `meta`. */
  ghost predicate Recorded(meta: BranchMeta, mine: seq<int>, other: seq<int>, d: Discrepancy)
  {
    && WasHit(mine, d.path) && !WasHit(other, d.path)
    && d.path < |meta.locations| && d.loc == meta.locations[d.path]
  }

  /** `d` stems from one of the first `k` entries of `bm`, with the hit
      arrays of its id in `mine` and `other`. */
  ghost predicate Listed(bm: BranchMap, k: nat, mine: FileCoverage, other: FileCoverage, d: Discrepancy)
    requires k <= |bm|
  {
    exists p :: 0 <= p < k && bm[p].0 == d.id && Recorded(bm[p].1, HitsOf(mine, d.id), HitsOf(other, d.id), d)
  }

  // ---------------------------------------------------------------------
  // Membership
  // ---------------------------------------------------------------------

  lemma {:induction false} PathScanMembers(
    file: string, id: string, meta: BranchMeta, hb: seq<int>, he: seq<int>, acc: Lists, n: nat, l: Lists)
    requires PathScan(file, id, meta, hb, he, acc, n) == Success(l)
    ensures forall d :: d in l.baseline <==> d in acc.baseline || (d.id == id && d.path < n && Recorded(meta, hb, he, d))
    ensures forall d :: d in l.enhanced <==> d in acc.enhanced || (d.id == id && d.path < n && Recorded(meta, he, hb, d))
  {
    if n > 0 {
      var prev := PathScan(file, id, meta, hb, he, acc, n - 1);
      assert prev.Success?;
      PathScanMembers(file, id, meta, hb, he, acc, n - 1, prev.value);
    }
  }

  lemma {:induction false} BranchScanMembers(file: string, bm: BranchMap, fb: FileCoverage, fe: FileCoverage, k: nat, l: Lists)
    requires k <= |bm| && BranchScan(file, bm, fb, fe, k) == Success(l)
    ensures forall d :: d in l.baseline <==> Listed(bm, k, fb, fe, d)
    ensures forall d :: d in l.enhanced <==> Listed(bm, k, fe, fb, d)
  {
    if k > 0 {
      var prev := BranchScan(file, bm, fb, fe, k - 1);
      assert prev.Success?;
      BranchScanMembers(file, bm, fb, fe, k - 1, prev.value);
      var id := bm[k - 1].0;
      var hb, he := HitsOf(fb, id), HitsOf(fe, id);
      PathScanMembers(file, id, bm[k - 1].1, hb, he, prev.value, NumPaths(hb, he), l);
      forall d
        ensures d in l.baseline <==> Listed(bm, k, fb, fe, d)
        ensures d in l.enhanced <==> Listed(bm, k, fe, fb, d)
      {
        if Listed(bm, k, fb, fe, d) && !Listed(bm, k - 1, fb, fe, d) {
          var p :| 0 <= p < k && bm[p].0 == d.id && Recorded(bm[p].1, HitsOf(fb, d.id), HitsOf(fe, d.id), d);
          assert p == k - 1;
        }
        if Listed(bm, k, fe, fb, d) && !Listed(bm, k - 1, fe, fb, d) {
          var p :| 0 <= p < k && bm[p].0 == d.id && Recorded(bm[p].1, HitsOf(fe, d.id), HitsOf(fb, d.id), d);
          assert p == k - 1;
        }
      }
    }
  }

  /** The keys of the first `j` files' comparison, and each key's lists. */
  lemma {:induction false} FileScanEntries(
    baseline: CoverageReport, enhanced: CoverageReport, files: seq<string>, j: nat, c: Comparison)
    requires j <= |files| && FileScan(baseline, enhanced, files, j) == Success(c)
    ensures forall f :: f in c.onlyInBaseline <==> f in files[..j] && |ChosenFor(baseline, enhanced, f)| > 0
    ensures c.onlyInEnhanced.Keys == c.onlyInBaseline.Keys
    ensures forall f :: f in c.onlyInBaseline ==>
      FileLists(baseline, enhanced, f) == Success(Lists(c.onlyInBaseline[f], c.onlyInEnhanced[f]))
  {
    if j > 0 {
      var prev := FileScan(baseline, enhanced, files, j - 1);
      assert prev.Success?;
      FileScanEntries(baseline, enhanced, files, j - 1, prev.value);
      assert files[..j] == files[..j - 1] + [files[j - 1]];
    }
  }

  /** Both maps have a key exactly for the files of either report whose
      chosen branch map is non-empty. */
  lemma DifferencesKeys(baseline: CoverageReport, enhanced: CoverageReport, c: Comparison)
    requires Differences(baseline, enhanced) == Success(c)
    ensures forall f :: f in c.onlyInBaseline <==>
      (f in baseline || f in enhanced) && |ChosenFor(baseline, enhanced, f)| > 0
    ensures c.onlyInEnhanced.Keys == c.onlyInBaseline.Keys
    ensures c.onlyInBaseline.Keys <= baseline.Keys + enhanced.Keys
  {
    var files := SortedKeys(baseline.Keys + enhanced.Keys);
    FileScanEntries(baseline, enhanced, files, |files|, c);
    assert files[..|files|] == files;
  }

  /** A record is in `onlyInBaseline[f]` exactly when its id is an entry of
      the chosen branch map, its path is hit in baseline and not in
      enhanced, and its location is that entry's `locations[path]`; and the
      same with the roles swapped for `onlyInEnhanced[f]`. */
  lemma DifferencesMembers(baseline: CoverageReport, enhanced: CoverageReport, c: Comparison)
    requires Differences(baseline, enhanced) == Success(c)
    ensures forall f, d :: f in c.onlyInBaseline ==>
      (d in c.onlyInBaseline[f] <==>
       Listed(ChosenFor(baseline, enhanced, f), |ChosenFor(baseline, enhanced, f)|, FileOf(baseline, f), FileOf(enhanced, f), d))
    ensures forall f, d :: f in c.onlyInEnhanced ==>
      (d in c.onlyInEnhanced[f] <==>
       Listed(ChosenFor(baseline, enhanced, f), |ChosenFor(baseline, enhanced, f)|, FileOf(enhanced, f), FileOf(baseline, f), d))
  {
    var files := SortedKeys(baseline.Keys + enhanced.Keys);
    FileScanEntries(baseline, enhanced, files, |files|, c);
    forall f | f in c.onlyInBaseline
      ensures forall d :: d in c.onlyInBaseline[f] <==>
        Listed(ChosenFor(baseline, enhanced, f), |ChosenFor(baseline, enhanced, f)|, FileOf(baseline, f), FileOf(enhanced, f), d)
      ensures forall d :: d in c.onlyInEnhanced[f] <==>
        Listed(ChosenFor(baseline, enhanced, f), |ChosenFor(baseline, enhanced, f)|, FileOf(enhanced, f), FileOf(baseline, f), d)
    {
      var bm := ChosenFor(baseline, enhanced, f);
      BranchScanMembers(f, bm, FileOf(baseline, f), FileOf(enhanced, f), |bm|,
                        Lists(c.onlyInBaseline[f], c.onlyInEnhanced[f]));
    }
  }

  /** No (file, id, path) is in both outputs. */
  lemma DifferencesDisjoint(baseline: CoverageReport, enhanced: CoverageReport, c: Comparison)
    requires Differences(baseline, enhanced) == Success(c)
    ensures forall f, x, y ::
      (f in c.onlyInBaseline && f in c.onlyInEnhanced && x in c.onlyInBaseline[f] && y in c.onlyInEnhanced[f]) ==>
        (x.id, x.path) != (y.id, y.path)
  {
    DifferencesMembers(baseline, enhanced, c);
  }

  /** Every record's path is below the length of the hit array of the run
      that hit it, hence below the number of paths compared; its id is an
      entry of the chosen branch map, so ids only in `b` never show up. */
  lemma DifferencesBounds(baseline: CoverageReport, enhanced: CoverageReport, c: Comparison)
    requires Differences(baseline, enhanced) == Success(c)
    ensures forall f, d :: f in c.onlyInBaseline && d in c.onlyInBaseline[f] ==>
      var hb, he := HitsOf(FileOf(baseline, f), d.id), HitsOf(FileOf(enhanced, f), d.id);
      d.path < |hb| && d.path < NumPaths(hb, he) && hb[d.path] > 0
    ensures forall f, d :: f in c.onlyInEnhanced && d in c.onlyInEnhanced[f] ==>
      var hb, he := HitsOf(FileOf(baseline, f), d.id), HitsOf(FileOf(enhanced, f), d.id);
      d.path < |he| && d.path < NumPaths(hb, he) && he[d.path] > 0
    ensures forall f, d :: f in c.onlyInBaseline && d in c.onlyInBaseline[f] ==>
      exists p :: 0 <= p < |ChosenFor(baseline, enhanced, f)| && ChosenFor(baseline, enhanced, f)[p].0 == d.id
    ensures forall f, d :: f in c.onlyInEnhanced && d in c.onlyInEnhanced[f] ==>
      exists p :: 0 <= p < |ChosenFor(baseline, enhanced, f)| && ChosenFor(baseline, enhanced, f)[p].0 == d.id
  {
    DifferencesMembers(baseline, enhanced, c);
    forall f, d | f in c.onlyInBaseline && d in c.onlyInBaseline[f]
      ensures var hb, he := HitsOf(FileOf(baseline, f), d.id), HitsOf(FileOf(enhanced, f), d.id);
        d.path < |hb| && d.path < NumPaths(hb, he) && hb[d.path] > 0
      ensures exists p :: 0 <= p < |ChosenFor(baseline, enhanced, f)| && ChosenFor(baseline, enhanced, f)[p].0 == d.id
    {
      ListedBounds(ChosenFor(baseline, enhanced, f), FileOf(baseline, f), FileOf(enhanced, f), d);
    }
    forall f, d | f in c.onlyInEnhanced && d in c.onlyInEnhanced[f]
      ensures var hb, he := HitsOf(FileOf(baseline, f), d.id), HitsOf(FileOf(enhanced, f), d.id);
        d.path < |he| && d.path < NumPaths(hb, he) && he[d.path] > 0
      ensures exists p :: 0 <= p < |ChosenFor(baseline, enhanced, f)| && ChosenFor(baseline, enhanced, f)[p].0 == d.id
    {
      ListedBounds(ChosenFor(baseline, enhanced, f), FileOf(enhanced, f), FileOf(baseline, f), d);
    }
  }

  lemma ListedBounds(bm: BranchMap, mine: FileCoverage, other: FileCoverage, d: Discrepancy)
    requires Listed(bm, |bm|, mine, other, d)
    ensures d.path < |HitsOf(mine, d.id)| && HitsOf(mine, d.id)[d.path] > 0
    ensures exists p :: 0 <= p < |bm| && bm[p].0 == d.id
  {
  }

  // ---------------------------------------------------------------------
  // When the comparison faults
  // ---------------------------------------------------------------------

  /** Every path the file's branches record (one-sided) has a location. */
  ghost predicate LocationsSuffice(bm: BranchMap, fb: FileCoverage, fe: FileCoverage)
  {
    forall p, i: nat :: 0 <= p < |bm| && Classify(HitsOf(fb, bm[p].0), HitsOf(fe, bm[p].0), i) != Tie ==>
      i < |bm[p].1.locations|
  }

  lemma {:induction false} PathScanSucceeds(
    file: string, id: string, meta: BranchMeta, hb: seq<int>, he: seq<int>, acc: Lists, n: nat)
    ensures PathScan(file, id, meta, hb, he, acc, n).Success? <==>
      forall i: nat :: i < n && Classify(hb, he, i) != Tie ==> i < |meta.locations|
  {
    if n > 0 {
      PathScanSucceeds(file, id, meta, hb, he, acc, n - 1);
    }
  }

  lemma {:induction false} BranchScanSucceeds(file: string, bm: BranchMap, fb: FileCoverage, fe: FileCoverage, k: nat)
    requires k <= |bm|
    ensures BranchScan(file, bm, fb, fe, k).Success? <==>
      forall p, i: nat :: 0 <= p < k && Classify(HitsOf(fb, bm[p].0), HitsOf(fe, bm[p].0), i) != Tie ==>
        i < |bm[p].1.locations|
  {
    if k > 0 {
      BranchScanSucceeds(file, bm, fb, fe, k - 1);
      var prev := BranchScan(file, bm, fb, fe, k - 1);
      if prev.Success? {
        var id := bm[k - 1].0;
        var hb, he := HitsOf(fb, id), HitsOf(fe, id);
        PathScanSucceeds(file, id, bm[k - 1].1, hb, he, prev.value, NumPaths(hb, he));
        forall i: nat | Classify(hb, he, i) != Tie
          ensures i < NumPaths(hb, he)
        {
        }
      }
    }
  }

  lemma {:induction false} FileScanSucceeds(baseline: CoverageReport, enhanced: CoverageReport, files: seq<string>, j: nat)
    requires j <= |files|
    ensures FileScan(baseline, enhanced, files, j).Success? <==>
      forall q :: 0 <= q < j ==>
        LocationsSuffice(ChosenFor(baseline, enhanced, files[q]), FileOf(baseline, files[q]), FileOf(enhanced, files[q]))
  {
    if j > 0 {
      FileScanSucceeds(baseline, enhanced, files, j - 1);
      var f := files[j - 1];
      var bm := ChosenFor(baseline, enhanced, f);
      BranchScanSucceeds(f, bm, FileOf(baseline, f), FileOf(enhanced, f), |bm|);
    }
  }

  /** The comparison faults exactly when some file of either report records
      a path (hit in one run only) whose index has no entry in `locations`. */
  lemma DifferencesSucceed(baseline: CoverageReport, enhanced: CoverageReport)
    ensures Differences(baseline, enhanced).Success? <==>
      forall f :: f in baseline || f in enhanced ==>
        LocationsSuffice(ChosenFor(baseline, enhanced, f), FileOf(baseline, f), FileOf(enhanced, f))
  {
    var files := SortedKeys(baseline.Keys + enhanced.Keys);
    FileScanSucceeds(baseline, enhanced, files, |files|);
    if Differences(baseline, enhanced).Success? {
      forall f | f in baseline || f in enhanced
        ensures LocationsSuffice(ChosenFor(baseline, enhanced, f), FileOf(baseline, f), FileOf(enhanced, f))
      {
        assert f in files;
        var q :| 0 <= q < |files| && files[q] == f;
      }
    }
  }

  // ---------------------------------------------------------------------
  // Self-comparison
  // ---------------------------------------------------------------------

  lemma {:induction false} PathScanSelf(file: string, id: string, meta: BranchMeta, h: seq<int>, acc: Lists, n: nat)
    ensures PathScan(file, id, meta, h, h, acc, n) == Success(acc)
  {
    if n > 0 {
      PathScanSelf(file, id, meta, h, acc, n - 1);
    }
  }

  lemma {:induction false} BranchScanSelf(file: string, bm: BranchMap, fc: FileCoverage, k: nat)
    requires k <= |bm|
    ensures BranchScan(file, bm, fc, fc, k) == Success(Lists([], []))
  {
    if k > 0 {
      BranchScanSelf(file, bm, fc, k - 1);
      var id := bm[k - 1].0;
      PathScanSelf(file, id, bm[k - 1].1, HitsOf(fc, id), Lists([], []), NumPaths(HitsOf(fc, id), HitsOf(fc, id)));
    }
  }

  lemma {:induction false} FileScanSelf(report: CoverageReport, files: seq<string>, j: nat)
    requires j <= |files|
    ensures FileScan(report, report, files, j).Success?
    ensures var c := FileScan(report, report, files, j).value;
      c.onlyInBaseline.Keys == c.onlyInEnhanced.Keys &&
      forall f :: f in c.onlyInBaseline ==> |c.onlyInBaseline[f]| == 0 && |c.onlyInEnhanced[f]| == 0
  {
    if j > 0 {
      FileScanSelf(report, files, j - 1);
      var f := files[j - 1];
      var bm := ChosenFor(report, report, f);
      BranchScanSelf(f, bm, FileOf(report, f), |bm|);
    }
  }

  /** Comparing a report with itself never faults, and every file gets an
      empty list in both outputs. */
  lemma DifferencesSelf(report: CoverageReport)
    ensures Differences(report, report).Success?
    ensures var c := Differences(report, report).value;
      c.onlyInBaseline.Keys == c.onlyInEnhanced.Keys &&
      forall f :: f in c.onlyInBaseline ==> |c.onlyInBaseline[f]| == 0 && |c.onlyInEnhanced[f]| == 0
  {
    var files := SortedKeys(report.Keys + report.Keys);
    FileScanSelf(report, files, |files|);
  }

  // ---------------------------------------------------------------------
  // Swapping the inputs
  // ---------------------------------------------------------------------

  function SwapLists(l: Lists): Lists
  {
    Lists(l.enhanced, l.baseline)
  }

  function SwapListsResult(r: Result<Lists, Fault>): Result<Lists, Fault>
  {
    match r
    case Success(l) => Success(SwapLists(l))
    case Failure(e) => Failure(e)
  }

  function Swapped(r: Result<Comparison, Fault>): Result<Comparison, Fault>
  {
    match r
    case Success(c) => Success(Comparison(c.onlyInEnhanced, c.onlyInBaseline))
    case Failure(e) => Failure(e)
  }

  lemma {:induction false} PathScanSwap(
    file: string, id: string, meta: BranchMeta, hb: seq<int>, he: seq<int>, acc: Lists, n: nat)
    ensures PathScan(file, id, meta, he, hb, SwapLists(acc), n) == SwapListsResult(PathScan(file, id, meta, hb, he, acc, n))
  {
    if n > 0 {
      PathScanSwap(file, id, meta, hb, he, acc, n - 1);
    }
  }

  lemma {:induction false} BranchScanSwap(file: string, bm: BranchMap, fb: FileCoverage, fe: FileCoverage, k: nat)
    requires k <= |bm|
    ensures BranchScan(file, bm, fe, fb, k) == SwapListsResult(BranchScan(file, bm, fb, fe, k))
  {
    if k > 0 {
      BranchScanSwap(file, bm, fb, fe, k - 1);
      var prev := BranchScan(file, bm, fb, fe, k - 1);
      if prev.Success? {
        var id := bm[k - 1].0;
        var hb, he := HitsOf(fb, id), HitsOf(fe, id);
        assert NumPaths(he, hb) == NumPaths(hb, he);
        PathScanSwap(file, id, bm[k - 1].1, hb, he, prev.value, NumPaths(hb, he));
      }
    }
  }

  /** The two reports pick the same branch map for `file` whichever is
      taken as baseline: they agree on it, or at most one has the key. */
  ghost predicate SameChoice(baseline: CoverageReport, enhanced: CoverageReport, file: string)
  {
    var b, e := FileOf(baseline, file).branchMap, FileOf(enhanced, file).branchMap;
    b.None? || e.None? || b == e
  }

  lemma {:induction false} FileScanSwap(baseline: CoverageReport, enhanced: CoverageReport, files: seq<string>, j: nat)
    requires j <= |files|
    requires forall q :: 0 <= q < j ==> SameChoice(baseline, enhanced, files[q])
    ensures FileScan(enhanced, baseline, files, j) == Swapped(FileScan(baseline, enhanced, files, j))
  {
    if j > 0 {
      FileScanSwap(baseline, enhanced, files, j - 1);
      var f := files[j - 1];
      assert SameChoice(baseline, enhanced, f);
      var bm := ChosenFor(baseline, enhanced, f);
      assert ChosenFor(enhanced, baseline, f) == bm;
      BranchScanSwap(f, bm, FileOf(baseline, f), FileOf(enhanced, f), |bm|);
    }
  }

  /** Swapping the two reports swaps the two outputs (and keeps any fault),
      provided every file's branch map is chosen the same way both times. */
  lemma DifferencesSwap(baseline: CoverageReport, enhanced: CoverageReport)
    requires forall f :: f in baseline || f in enhanced ==> SameChoice(baseline, enhanced, f)
    ensures Differences(enhanced, baseline) == Swapped(Differences(baseline, enhanced))
  {
    var files := SortedKeys(baseline.Keys + enhanced.Keys);
    assert enhanced.Keys + baseline.Keys == baseline.Keys + enhanced.Keys;
    forall q | 0 <= q < |files|
      ensures SameChoice(baseline, enhanced, files[q])
    {
      assert files[q] in files;
    }
    FileScanSwap(baseline, enhanced, files, |files|);
  }

  // ---------------------------------------------------------------------
  // Order of the records
  // ---------------------------------------------------------------------

  /** Index of the first entry of `bm` with id `id`; |bm| when there is none. */
  function Position(bm: BranchMap, id: string): nat
  {
    if |bm| == 0 then 0
    else if bm[0].0 == id then 0
    else 1 + Position(bm[1..], id)
  }

  lemma {:induction false} PositionOf(bm: BranchMap, p: nat)
    requires DistinctIds(bm) && p < |bm|
    ensures Position(bm, bm[p].0) == p
  {
    if p > 0 {
      assert bm[0].0 != bm[p].0;
      assert bm[1..][p - 1] == bm[p];
      PositionOf(bm[1..], p - 1);
    }
  }

  /** `x` comes before `y`: an earlier branch map entry, or the same branch
      and a lower path index. */
  ghost predicate Precedes(bm: BranchMap, x: Discrepancy, y: Discrepancy)
  {
    Position(bm, x.id) < Position(bm, y.id) || (x.id == y.id && x.path < y.path)
  }

  ghost predicate InVisitOrder(bm: BranchMap, ds: seq<Discrepancy>)
  {
    forall p, q :: 0 <= p < q < |ds| ==> Precedes(bm, ds[p], ds[q])
  }

  /** Scanning the paths of one branch only appends records of that branch,
      with ascending path indices below `n`. */
  lemma {:induction false} PathScanAppends(
    file: string, id: string, meta: BranchMeta, hb: seq<int>, he: seq<int>, acc: Lists, n: nat, l: Lists)
    requires PathScan(file, id, meta, hb, he, acc, n) == Success(l)
    ensures acc.baseline <= l.baseline && acc.enhanced <= l.enhanced
    ensures forall p :: |acc.baseline| <= p < |l.baseline| ==> l.baseline[p].id == id && l.baseline[p].path < n
    ensures forall p :: |acc.enhanced| <= p < |l.enhanced| ==> l.enhanced[p].id == id && l.enhanced[p].path < n
    ensures forall p, q :: |acc.baseline| <= p < q < |l.baseline| ==> l.baseline[p].path < l.baseline[q].path
    ensures forall p, q :: |acc.enhanced| <= p < q < |l.enhanced| ==> l.enhanced[p].path < l.enhanced[q].path
  {
    if n > 0 {
      var prev := PathScan(file, id, meta, hb, he, acc, n - 1);
      assert prev.Success?;
      PathScanAppends(file, id, meta, hb, he, acc, n - 1, prev.value);
    }
  }

  lemma {:induction false} AppendInVisitOrder(bm: BranchMap, before: seq<Discrepancy>, ds: seq<Discrepancy>, k: nat)
    requires DistinctIds(bm) && k < |bm|
    requires InVisitOrder(bm, before) && forall d :: d in before ==> Position(bm, d.id) < k
    requires before <= ds
    requires forall p :: |before| <= p < |ds| ==> ds[p].id == bm[k].0
    requires forall p, q :: |before| <= p < q < |ds| ==> ds[p].path < ds[q].path
    ensures InVisitOrder(bm, ds)
    ensures forall d :: d in ds ==> Position(bm, d.id) < k + 1
  {
    PositionOf(bm, k);
    forall p, q | 0 <= p < q < |ds|
      ensures Precedes(bm, ds[p], ds[q])
    {
      if q < |before| {
        assert ds[p] == before[p] && ds[q] == before[q];
      } else if p < |before| {
        assert ds[p] in before;
      }
    }
    forall d | d in ds
      ensures Position(bm, d.id) < k + 1
    {
      var p :| 0 <= p < |ds| && ds[p] == d;
      if p < |before| {
        assert before[p] in before;
      }
    }
  }

  lemma {:induction false} BranchScanOrder(file: string, bm: BranchMap, fb: FileCoverage, fe: FileCoverage, k: nat, l: Lists)
    requires DistinctIds(bm) && k <= |bm| && BranchScan(file, bm, fb, fe, k) == Success(l)
    ensures InVisitOrder(bm, l.baseline) && InVisitOrder(bm, l.enhanced)
    ensures forall d :: d in l.baseline ==> Position(bm, d.id) < k
    ensures forall d :: d in l.enhanced ==> Position(bm, d.id) < k
  {
    if k > 0 {
      var prev := BranchScan(file, bm, fb, fe, k - 1);
      assert prev.Success?;
      BranchScanOrder(file, bm, fb, fe, k - 1, prev.value);
      var id := bm[k - 1].0;
      var hb, he := HitsOf(fb, id), HitsOf(fe, id);
      PathScanAppends(file, id, bm[k - 1].1, hb, he, prev.value, NumPaths(hb, he), l);
      AppendInVisitOrder(bm, prev.value.baseline, l.baseline, k - 1);
      AppendInVisitOrder(bm, prev.value.enhanced, l.enhanced, k - 1);
    }
  }

  /** Within a file, records follow the chosen branch map's order and then
      ascending path index (so no record occurs twice). */
  lemma DifferencesOrder(baseline: CoverageReport, enhanced: CoverageReport, c: Comparison)
    requires WellFormed(baseline) && WellFormed(enhanced)
    requires Differences(baseline, enhanced) == Success(c)
    ensures forall f :: f in c.onlyInBaseline ==> InVisitOrder(ChosenFor(baseline, enhanced, f), c.onlyInBaseline[f])
    ensures forall f :: f in c.onlyInEnhanced ==> InVisitOrder(ChosenFor(baseline, enhanced, f), c.onlyInEnhanced[f])
  {
    var files := SortedKeys(baseline.Keys + enhanced.Keys);
    FileScanEntries(baseline, enhanced, files, |files|, c);
    forall f | f in c.onlyInBaseline
      ensures InVisitOrder(ChosenFor(baseline, enhanced, f), c.onlyInBaseline[f])
      ensures InVisitOrder(ChosenFor(baseline, enhanced, f), c.onlyInEnhanced[f])
    {
      ChosenDistinct(baseline, enhanced, f);
      FileListsOrder(baseline, enhanced, f, Lists(c.onlyInBaseline[f], c.onlyInEnhanced[f]));
    }
  }

  lemma ChosenDistinct(baseline: CoverageReport, enhanced: CoverageReport, f: string)
    requires WellFormed(baseline) && WellFormed(enhanced)
    ensures DistinctIds(ChosenFor(baseline, enhanced, f))
  {
  }

  lemma FileListsOrder(baseline: CoverageReport, enhanced: CoverageReport, f: string, l: Lists)
    requires DistinctIds(ChosenFor(baseline, enhanced, f))
    requires FileLists(baseline, enhanced, f) == Success(l)
    ensures InVisitOrder(ChosenFor(baseline, enhanced, f), l.baseline)
    ensures InVisitOrder(ChosenFor(baseline, enhanced, f), l.enhanced)
  {
    var bm := ChosenFor(baseline, enhanced, f);
    BranchScanOrder(f, bm, FileOf(baseline, f), FileOf(enhanced, f), |bm|, l);
  }
}
