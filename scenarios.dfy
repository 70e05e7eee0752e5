/** Two worked comparisons: paths split between the runs, and a branch
    whose hits one report lacks entirely. */
module Scenarios {
  import opened StringOrder
  import opened CoverageData
  import opened Differ

  const Locs := BranchMeta([Location(10, 2), Location(10, 20)])

  /** Path 0 is hit only in the baseline and path 1 only in the enhanced
      run: each list gets one record, with that path's location. */
  lemma SplitPaths()
    ensures var fm := [("0", Locs)];
      var baseline := map["f.js" := FileCoverage(Some(fm), map["0" := [1, 0]])];
      var enhanced := map["f.js" := FileCoverage(Some(fm), map["0" := [0, 1]])];
      Differences(baseline, enhanced) == Success(Comparison(
        map["f.js" := [Discrepancy("0", 0, Location(10, 2))]],
        map["f.js" := [Discrepancy("0", 1, Location(10, 20))]]))
  {
    var fm := [("0", Locs)];
    var baseline := map["f.js" := FileCoverage(Some(fm), map["0" := [1, 0]])];
    var enhanced := map["f.js" := FileCoverage(Some(fm), map["0" := [0, 1]])];
    var files := SortedKeys(baseline.Keys + enhanced.Keys);
    assert baseline.Keys + enhanced.Keys == {"f.js"};
    assert "f.js" in files;
    assert files == ["f.js"];
    var d0, d1 := Discrepancy("0", 0, Location(10, 2)), Discrepancy("0", 1, Location(10, 20));
    var hb, he := HitsOf(baseline["f.js"], "0"), HitsOf(enhanced["f.js"], "0");
    assert hb == [1, 0] && he == [0, 1] && NumPaths(hb, he) == 2;
    assert Classify(hb, he, 0) == OnlyBaseline;
    assert Classify(hb, he, 1) == OnlyEnhanced;
    assert Locs.locations[0] == Location(10, 2) && Locs.locations[1] == Location(10, 20);
    assert PathScan("f.js", "0", Locs, hb, he, Lists([], []), 0) == Success(Lists([], []));
    var empty: seq<Discrepancy> := [];
    assert 0 < |Locs.locations|;
    assert Discrepancy("0", 0, Locs.locations[0]) == d0;
    assert empty + [d0] == [d0];
    assert Record("f.js", "0", Locs, Lists(empty, empty), OnlyBaseline, 0) == Success(Lists([d0], empty));
    assert PathScan("f.js", "0", Locs, hb, he, Lists([], []), 1) == Success(Lists([d0], []));
    assert Discrepancy("0", 1, Locs.locations[1]) == d1;
    assert empty + [d1] == [d1];
    assert Record("f.js", "0", Locs, Lists([d0], empty), OnlyEnhanced, 1) == Success(Lists([d0], [d1]));
    assert PathScan("f.js", "0", Locs, hb, he, Lists([], []), 2) == Success(Lists([d0], [d1]));
    assert ChosenFor(baseline, enhanced, "f.js") == fm;
    assert BranchScan("f.js", fm, baseline["f.js"], enhanced["f.js"], 0) == Success(Lists(empty, empty));
    assert BranchScan("f.js", fm, baseline["f.js"], enhanced["f.js"], 1) == Success(Lists([d0], [d1]));
    assert FileLists(baseline, enhanced, "f.js") == Success(Lists([d0], [d1]));
    assert FileScan(baseline, enhanced, files, 1) == Success(Comparison(map["f.js" := [d0]], map["f.js" := [d1]]));
  }

  /** A branch declared in the baseline's map, hit there as `[3]` and with no
      hit entry at all in the enhanced report, is a baseline-only path 0. */
  lemma MissingHitsAreMisses()
    ensures var fm := [("0", BranchMeta([Location(1, 0)]))];
      var baseline := map["f.js" := FileCoverage(Some(fm), map["0" := [3]])];
      var enhanced := map["f.js" := FileCoverage(Some(fm), map[])];
      Differences(baseline, enhanced) == Success(Comparison(
        map["f.js" := [Discrepancy("0", 0, Location(1, 0))]],
        map["f.js" := []]))
  {
    var fm := [("0", BranchMeta([Location(1, 0)]))];
    var baseline := map["f.js" := FileCoverage(Some(fm), map["0" := [3]])];
    var enhanced := map["f.js" := FileCoverage(Some(fm), map[])];
    var files := SortedKeys(baseline.Keys + enhanced.Keys);
    assert baseline.Keys + enhanced.Keys == {"f.js"};
    assert "f.js" in files;
    assert files == ["f.js"];
    var d0 := Discrepancy("0", 0, Location(1, 0));
    var hb, he := HitsOf(baseline["f.js"], "0"), HitsOf(enhanced["f.js"], "0");
    assert hb == [3] && he == [] && NumPaths(hb, he) == 1;
    assert Classify(hb, he, 0) == OnlyBaseline;
    assert PathScan("f.js", "0", fm[0].1, hb, he, Lists([], []), 0) == Success(Lists([], []));
    var empty: seq<Discrepancy> := [];
    assert 0 < |fm[0].1.locations|;
    assert Discrepancy("0", 0, fm[0].1.locations[0]) == d0;
    assert empty + [d0] == [d0];
    assert Record("f.js", "0", fm[0].1, Lists(empty, empty), OnlyBaseline, 0) == Success(Lists([d0], empty));
    assert PathScan("f.js", "0", fm[0].1, hb, he, Lists([], []), 1) == Success(Lists([d0], []));
    assert ChosenFor(baseline, enhanced, "f.js") == fm;
    assert BranchScan("f.js", fm, baseline["f.js"], enhanced["f.js"], 0) == Success(Lists(empty, empty));
    assert BranchScan("f.js", fm, baseline["f.js"], enhanced["f.js"], 1) == Success(Lists([d0], empty));
    assert FileLists(baseline, enhanced, "f.js") == Success(Lists([d0], []));
    assert FileScan(baseline, enhanced, files, 1) == Success(Comparison(map["f.js" := [d0]], map["f.js" := []]));
  }

  /** Swapping the reports does not always swap the lists: the branch map
      is taken from whichever report comes first, so a file whose first
      report carries an empty branch map is skipped, while the other order
      scans it. */
  lemma SwapNotSymmetric()
    ensures var baseline := map["f.js" := FileCoverage(Some([("0", BranchMeta([Location(1, 0)]))]), map["0" := [1]])];
      var enhanced := map["f.js" := FileCoverage(Some([]), map[])];
      && Differences(baseline, enhanced) == Success(Comparison(
           map["f.js" := [Discrepancy("0", 0, Location(1, 0))]], map["f.js" := []]))
      && Differences(enhanced, baseline) == Success(Comparison(map[], map[]))
  {
    var fm := [("0", BranchMeta([Location(1, 0)]))];
    var baseline := map["f.js" := FileCoverage(Some(fm), map["0" := [1]])];
    var enhanced := map["f.js" := FileCoverage(Some([]), map[])];
    var files := SortedKeys(baseline.Keys + enhanced.Keys);
    assert baseline.Keys + enhanced.Keys == {"f.js"} == enhanced.Keys + baseline.Keys;
    assert "f.js" in files;
    assert files == ["f.js"];
    var d0 := Discrepancy("0", 0, Location(1, 0));
    var hb, he := HitsOf(baseline["f.js"], "0"), HitsOf(enhanced["f.js"], "0");
    assert hb == [1] && he == [] && NumPaths(hb, he) == 1;
    assert Classify(hb, he, 0) == OnlyBaseline;
    var empty: seq<Discrepancy> := [];
    assert 0 < |fm[0].1.locations|;
    assert Discrepancy("0", 0, fm[0].1.locations[0]) == d0;
    assert empty + [d0] == [d0];
    assert PathScan("f.js", "0", fm[0].1, hb, he, Lists([], []), 0) == Success(Lists([], []));
    assert Record("f.js", "0", fm[0].1, Lists(empty, empty), OnlyBaseline, 0) == Success(Lists([d0], empty));
    assert PathScan("f.js", "0", fm[0].1, hb, he, Lists([], []), 1) == Success(Lists([d0], []));
    assert ChosenFor(baseline, enhanced, "f.js") == fm;
    assert BranchScan("f.js", fm, baseline["f.js"], enhanced["f.js"], 0) == Success(Lists(empty, empty));
    assert BranchScan("f.js", fm, baseline["f.js"], enhanced["f.js"], 1) == Success(Lists([d0], empty));
    assert FileLists(baseline, enhanced, "f.js") == Success(Lists([d0], []));
    assert FileScan(baseline, enhanced, files, 1) == Success(Comparison(map["f.js" := [d0]], map["f.js" := []]));
    assert |ChosenFor(enhanced, baseline, "f.js")| == 0;
    assert FileScan(enhanced, baseline, files, 1) == Success(Comparison(map[], map[]));
  }
}
