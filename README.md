# Branch-coverage differ

A Dafny model of `compare_coverage.py`. The script compares two
Istanbul-style coverage reports, a baseline run and an enhanced run. For
every source file of either report it lists the branch paths hit in one run
and not in the other. It then prints both lists as a report.

The model works on the reports as already-parsed values:

- A report is a `map` from file path to `FileCoverage`.
- `FileCoverage.branchMap` is an optional sequence of `(id, BranchMeta)`
  entries, kept in the JSON object's key order. The map may be absent, and
  absent is not the same as present and empty.
- `FileCoverage.b` maps a branch id to its hit counts.

The files:

- `string_order.dfy`: Python's ordering on `str`, and `sorted` on a set of
  strings (`SortedKeys`).
- `coverage_data.dfy`: the data model and the look-ups with defaults that
  the script makes: `report.get(file, {})`, the branch-map fallback,
  `b.get(id, [])`, the hit test and the classification of one path.
- `differ.dfy`:
  - The comparison as functions, one per loop level: paths of a branch
    (`PathScan`), branches of a file (`BranchScan`), files of the reports
    (`FileScan`, `Differences`).
  - The three loops as methods (`DiffPaths`, `DiffBranches`, `Diff`), each
    proved to compute its function.
  - The `IndexError` of `branch_meta['locations'][i]` is the `Failure`
    outcome `LocationIndexOutOfRange`. The comparison stops at the first
    such path, in visit order.
- `diff_properties.dfy`: what the result means. It covers:
  - which records each list holds;
  - which files get keys;
  - bounds and disjointness;
  - exactly when the comparison faults;
  - comparing a report with itself;
  - swapping the reports;
  - the order of the records.
- `report.dfy`: `print_report` as a method that builds the printed lines,
  proved against `ReportLines`. Also `compare_coverage` end to end
  (`CompareCoverage`, `Outcome`), and the layout of the printed report.
- `scenarios.dfy`: three worked comparisons on concrete reports.

Two behaviours of the code shape the model:

- **The location lookup can fault.** The code indexes
  `branch_meta['locations'][i]` without a bound check
  (`compare_coverage.py:57`, `compare_coverage.py:63`). A path recorded on
  one side with no location therefore raises `IndexError`, and nothing is
  printed. The model returns `Failure` in that case. `DifferencesSucceed`
  states exactly when this happens.
- **Swapping the reports does not always swap the outputs.** The branch map
  comes from the first report whenever that report has the key
  (`compare_coverage.py:33`). So the swap property needs both orders to
  choose the same map (`DifferencesSwap`). `SwapNotSymmetric` gives a pair
  of reports where it fails.

## Model

| member | source | states |
|---|---|---|
| StringOrder.SortedKeys | compare_coverage.py:27-29 | The files visited are every file of either report once each, in strictly ascending `str` order. |
| StringOrder.SortedAt | compare_coverage.py:29 | In the sorted file sequence every file is below every later one. |
| Differ.DiffPaths | compare_coverage.py:47-64 | The path loop runs over `max(len(hits_baseline), len(hits_enhanced))` indices. Each one-sided path appends one record to its side. The loop faults at the first such path with no location. |
| Differ.DiffBranches | compare_coverage.py:43-64 | The branch loop visits the chosen branch map's entries in their own order. It looks up hits with `b.get(id, [])`, chains the path loop and stops at the first fault. |
| Differ.Diff | compare_coverage.py:24-64 | The file loop visits the sorted union of files and skips a file whose chosen branch map is empty. Otherwise it gives the file a key in both outputs, holding its two lists. It stops at the first fault. |
| Differ.PathScanFailureSticks | compare_coverage.py:57 | Once a location lookup has faulted, scanning further paths keeps that fault. |
| Differ.FileScanFailureSticks | compare_coverage.py:57 | Once a location lookup has faulted, scanning further files keeps that fault. |
| DiffProperties.PathScanMembers | compare_coverage.py:49-64 | After scanning `n` paths, a record is in a list iff it was there before, or it has the branch's id, a path below `n` hit only on that side, and that path's location. |
| DiffProperties.BranchScanMembers | compare_coverage.py:43-64 | After `k` branch-map entries, a record is in a list iff it stems from one of those entries as a one-sided hit with that entry's location. |
| DiffProperties.FileScanEntries | compare_coverage.py:29-41 | After `j` files, the keys are those files whose chosen branch map is non-empty. Both outputs have the same keys, and each key holds that file's two lists. |
| DiffProperties.DifferencesKeys | compare_coverage.py:27-41 | A file is a key of the outputs iff it is in either report and its chosen branch map is non-empty. Both outputs have the same keys. |
| DiffProperties.DifferencesMembers | compare_coverage.py:43-64 | A record is in `onlyInBaseline[f]` iff its id is an entry of the chosen branch map, its path is hit in baseline and not in enhanced, and its location is `locations[path]`. The same holds for `onlyInEnhanced[f]` with the roles swapped. |
| DiffProperties.DifferencesDisjoint | compare_coverage.py:53-64 | No (id, path) of a file is listed in both outputs. |
| DiffProperties.DifferencesBounds | compare_coverage.py:44-51 | Every record's path is within the hitting side's hit array, below the number of paths compared, and has a positive count. Its id is declared in the chosen branch map, so ids that appear only in `b` are never reported. |
| DiffProperties.PathScanSucceeds | compare_coverage.py:49-64 | The path loop completes iff every one-sided path below `n` has a location. |
| DiffProperties.BranchScanSucceeds | compare_coverage.py:43-64 | The branch loop completes iff every one-sided path of the first `k` entries has a location. |
| DiffProperties.FileScanSucceeds | compare_coverage.py:29-64 | The file loop completes iff every scanned file's branches have locations for their one-sided paths. |
| DiffProperties.DifferencesSucceed | compare_coverage.py:24-64 | The comparison completes without `IndexError` iff, for every file of either report, each one-sided path of the chosen branch map has a location. |
| DiffProperties.PathScanSelf | compare_coverage.py:49-64 | Comparing a hit array with itself adds nothing and never faults. |
| DiffProperties.BranchScanSelf | compare_coverage.py:43-64 | Comparing a file with itself yields two empty lists. |
| DiffProperties.FileScanSelf | compare_coverage.py:29-64 | Comparing a report with itself gives every key two empty lists and never faults. |
| DiffProperties.DifferencesSelf | compare_coverage.py:24-64 | Comparing a report with itself never faults. Both outputs have the same keys, and every list is empty. |
| DiffProperties.PathScanSwap | compare_coverage.py:49-64 | Swapping the two hit arrays swaps the two lists a path scan builds, and keeps any fault. |
| DiffProperties.BranchScanSwap | compare_coverage.py:43-64 | Swapping the two files' hit maps swaps the two lists of a branch scan, and keeps any fault. |
| DiffProperties.FileScanSwap | compare_coverage.py:29-64 | If every scanned file chooses the same branch map in both orders, swapping the reports swaps the outputs. |
| DiffProperties.DifferencesSwap | compare_coverage.py:24-64 | If every file chooses the same branch map in both orders, swapping the reports swaps `onlyInBaseline` and `onlyInEnhanced` and keeps any fault. |
| DiffProperties.PositionOf | compare_coverage.py:43 | In a branch map with distinct ids, the entry found for an id is the one at that index. |
| DiffProperties.PathScanAppends | compare_coverage.py:49-64 | A path scan only appends records of its own branch, with strictly ascending path indices below `n`. |
| DiffProperties.AppendInVisitOrder | compare_coverage.py:43-64 | Appending one branch's ascending records after earlier branches' records keeps the lists in visit order. |
| DiffProperties.BranchScanOrder | compare_coverage.py:43-64 | After `k` entries, each list is ordered by branch-map position and then by path index, and mentions only the first `k` entries. |
| DiffProperties.DifferencesOrder | compare_coverage.py:43-64 | Within a file, records follow the chosen branch map's key order and then ascending path index, so no record repeats. |
| Report.PrintSection | compare_coverage.py:79-84 | For a non-empty list, the lines printed are the file header followed by one line per record, in list order, with its id, path and start line and column. |
| Report.PrintSections | compare_coverage.py:77-84 | The file loop prints the sections of the sorted files in order. `has_content` is true iff some file's list is non-empty. |
| Report.PrintReport | compare_coverage.py:71-87 | `print_report` prints the title, the sections of the sorted files, and the "(None)" marker exactly when no section was printed. |
| Report.CompareCoverage | compare_coverage.py:24-68 | The run prints the baseline report and then the enhanced report, or faults with nothing printed. |
| Report.SectionsHeaders | compare_coverage.py:78-84 | The sections hold only file headers and record lines. A header for `f` appears iff `f` is among the scanned files and has records. |
| Report.ReportNoneMarker | compare_coverage.py:86-87 | "(None)" is printed iff every list is empty, including when there are no files at all. |
| Report.ReportFileHeaders | compare_coverage.py:78-81 | A file gets a header iff its list is non-empty. |
| Report.SectionsBody | compare_coverage.py:81-84 | Each header in the sections is followed by one line per record of its file, in list order. |
| Report.SectionsOrder | compare_coverage.py:78 | Headers in the sections appear in the order of the files. |
| Report.ReportLayout | compare_coverage.py:77-84 | Each file header names a file with records. It is followed by that file's records, one line each in list order. Every later header names a greater file. |
| Report.EmptyReport | compare_coverage.py:77-87 | With every list empty, the report is just its title and "(None)". |
| Report.SelfComparisonPrintsNothing | compare_coverage.py:24-87 | Comparing a report with itself prints two titles, each followed by "(None)". |
| Scenarios.SplitPaths | compare_coverage.py:43-64 | With hits `[1, 0]` against `[0, 1]`, path 0 is listed as baseline-only at (10, 2) and path 1 as enhanced-only at (10, 20). |
| Scenarios.MissingHitsAreMisses | compare_coverage.py:44-51 | A branch with hits `[3]` in baseline and no `b` entry in enhanced is baseline-only for path 0, and the enhanced list is empty. |
| Scenarios.SwapNotSymmetric | compare_coverage.py:33-35 | A baseline map with one hit branch, against an enhanced report whose branch map is present but empty, lists the path. In the other order the file is skipped. |

## Left out

- Loading the two JSON files is not modelled (`compare_coverage.py:11-22`). The reports enter as parsed values. The missing-file and invalid-JSON errors and their exit code 1 are I/O.
- The `__main__` entry with its fixed file names is not modelled (`compare_coverage.py:90-95`). The two reports are the parameters of `CompareCoverage`.
- Printed text is modelled as abstract lines: title, file header, record line, "(None)". The blank lines, the `=` rules, the emoji and the exact f-string formatting are left out.
- A location is reduced to `start.line` and `start.column`, the only fields the script reads.
- Malformed shapes that would raise other Python errors are not modelled: a branch meta without `locations` (`KeyError`), a non-list hit entry, a non-numeric count. Hit counts are unbounded integers.
- `sorted` is modelled by what it returns (`SortedKeys`), not by Python's sorting algorithm.
- The insertion order of the output dictionaries is not modelled. They are `map`s, and `print_report` sorts their keys anyway.
- `print_report` does not change `data`. This holds because `data` is a value parameter, so no lemma states it.
- Determinism holds because every member is a function of its inputs or a method proved equal to one. No separate lemma states it.
- DifferencesSwap: holds only when both orders choose the same branch map per file, because the code prefers the first report's branch map. SwapNotSymmetric gives a counterexample to the unconditional version.
- DifferencesOrder: requires distinct ids in every branch map, as every parsed JSON object has. Without that, position in the branch map is not defined by id alone.
