/** The report printer and the comparison run that feeds it. Printed text is
    modelled as a sequence of abstract lines: the title, a header per file,
    one line per record, and the "(None)" marker. */
module Report {
  import opened StringOrder
  import opened CoverageData
  import opened Differ
  import opened DiffProperties

  datatype ReportLine =
    | Title(text: string)
    | FileHeader(file: string)
    | BranchLine(id: string, path: nat, line: int, column: int)
    | NoneFound

  const BaselineTitle := "Branches covered ONLY by 'coverage-baseline.json':"
  const EnhancedTitle := "Branches covered ONLY by 'coverage-enhanced.json':"

  function EntryLine(d: Discrepancy): ReportLine
  {
    BranchLine(d.id, d.path, d.loc.line, d.loc.column)
  }

  function EntryLines(ds: seq<Discrepancy>): seq<ReportLine>
  {
    seq(|ds|, i requires 0 <= i < |ds| => EntryLine(ds[i]))
  }

  /** A file's section: nothing for an empty list, else a header and its records. */
  function Section(file: string, ds: seq<Discrepancy>): seq<ReportLine>
  {
    if |ds| == 0 then [] else [FileHeader(file)] + EntryLines(ds)
  }

  function ListOf(data: map<string, seq<Discrepancy>>, file: string): seq<Discrepancy>
  {
    if file in data then data[file] else []
  }

  /** The sections of the first `j` files of `files`. */
  function Sections(data: map<string, seq<Discrepancy>>, files: seq<string>, j: nat): seq<ReportLine>
    requires j <= |files|
  {
    if j == 0 then []
    else Sections(data, files, j - 1) + Section(files[j - 1], ListOf(data, files[j - 1]))
  }

  predicate HasContent(data: map<string, seq<Discrepancy>>)
  {
    exists f :: f in data && |data[f]| > 0
  }

  /** What `print_report(title, data)` prints. */
  function ReportLines(title: string, data: map<string, seq<Discrepancy>>): seq<ReportLine>
  {
    var files := SortedKeys(data.Keys);
    [Title(title)] + Sections(data, files, |files|) + (if HasContent(data) then [] else [NoneFound])
  }

  lemma EntryLinesAppend(ds: seq<Discrepancy>, d: Discrepancy)
    ensures EntryLines(ds + [d]) == EntryLines(ds) + [EntryLine(d)]
  {
  }

  /** The lines printed for one file with records: its header, then one
      line per record in list order. */
  method PrintSection(printed: seq<ReportLine>, file: string, branches: seq<Discrepancy>) returns (lines: seq<ReportLine>)
    requires |branches| > 0
    ensures lines == printed + Section(file, branches)
  {
    lines := printed + [FileHeader(file)];
    for m := 0 to |branches|
      invariant lines == printed + [FileHeader(file)] + EntryLines(branches[..m])
    {
      EntryLinesAppend(branches[..m], branches[m]);
      assert branches[..m + 1] == branches[..m] + [branches[m]];
      lines := lines + [EntryLine(branches[m])];
    }
    assert branches[..|branches|] == branches;
  }

  /** The loop of `print_report` over the sorted files: a section for each
      non-empty list, and whether any section was printed. */
  method PrintSections(title: string, data: map<string, seq<Discrepancy>>, files: seq<string>)
    returns (lines: seq<ReportLine>, hasContent: bool)
    requires forall f :: f in files ==> f in data
    ensures lines == [Title(title)] + Sections(data, files, |files|)
    ensures hasContent <==> exists q :: 0 <= q < |files| && |data[files[q]]| > 0
  {
    lines := [Title(title)];
    hasContent := false;
    for j := 0 to |files|
      invariant lines == [Title(title)] + Sections(data, files, j)
      invariant hasContent <==> exists q :: 0 <= q < j && |data[files[q]]| > 0
    {
      var file := files[j];
      var branches := data[file];
      assert ListOf(data, file) == branches;
      assert Sections(data, files, j + 1) == Sections(data, files, j) + Section(file, branches);
      if |branches| > 0 {
        hasContent := true;
        lines := PrintSection(lines, file, branches);
      } else {
        assert Section(file, branches) == [];
      }
    }
  }

  /** `print_report`: the sections of the sorted files, then the marker
      when no section was printed. `data` is a value, so the method cannot
      change it. */
  method PrintReport(title: string, data: map<string, seq<Discrepancy>>) returns (lines: seq<ReportLine>)
    ensures lines == ReportLines(title, data)
  {
    var files := SortedKeys(data.Keys);
    var hasContent;
    lines, hasContent := PrintSections(title, data, files);
    if HasContent(data) {
      var f :| f in data && |data[f]| > 0;
      assert f in files;
    }
    if !hasContent {
      lines := lines + [NoneFound];
    }
  }

  /** What `compare_coverage` prints after loading the two reports: both
      reports, or nothing when a record's location lookup faults. */
  function Outcome(baseline: CoverageReport, enhanced: CoverageReport): Result<seq<ReportLine>, Fault>
  {
    match Differences(baseline, enhanced)
    case Failure(e) => Failure(e)
    case Success(c) =>
      Success(ReportLines(BaselineTitle, c.onlyInBaseline) + ReportLines(EnhancedTitle, c.onlyInEnhanced))
  }

  method CompareCoverage(baseline: CoverageReport, enhanced: CoverageReport) returns (out: Result<seq<ReportLine>, Fault>)
    ensures out == Outcome(baseline, enhanced)
  {
    var r := Diff(baseline, enhanced);
    if r.Failure? {
      return Failure(r.error);
    }
    var first := PrintReport(BaselineTitle, r.value.onlyInBaseline);
    var second := PrintReport(EnhancedTitle, r.value.onlyInEnhanced);
    return Success(first + second);
  }

  // ---------------------------------------------------------------------
  // Properties of the printed report
  // ---------------------------------------------------------------------

  /** Sections hold only file headers and record lines; a header for `f`
      appears exactly when `f` is among the files scanned and has records. */
  lemma {:induction false} SectionsHeaders(data: map<string, seq<Discrepancy>>, files: seq<string>, j: nat)
    requires j <= |files|
    ensures forall line :: line in Sections(data, files, j) ==> line.FileHeader? || line.BranchLine?
    ensures forall f :: FileHeader(f) in Sections(data, files, j) <==> f in files[..j] && |ListOf(data, f)| > 0
  {
    if j > 0 {
      SectionsHeaders(data, files, j - 1);
      assert files[..j] == files[..j - 1] + [files[j - 1]];
      var ds := ListOf(data, files[j - 1]);
      assert forall line :: line in EntryLines(ds) ==> line.BranchLine?;
    }
  }

  /** The "(None)" marker is printed exactly when every list is empty,
      including when there are no files at all. */
  lemma ReportNoneMarker(title: string, data: map<string, seq<Discrepancy>>)
    ensures NoneFound in ReportLines(title, data) <==> forall f :: f in data ==> |data[f]| == 0
  {
    var files := SortedKeys(data.Keys);
    SectionsHeaders(data, files, |files|);
  }

  /** A file gets a section exactly when its list is non-empty. */
  lemma ReportFileHeaders(title: string, data: map<string, seq<Discrepancy>>)
    ensures forall f :: FileHeader(f) in ReportLines(title, data) <==> f in data && |data[f]| > 0
  {
    var files := SortedKeys(data.Keys);
    SectionsHeaders(data, files, |files|);
    assert files[..|files|] == files;
  }

  /** The lines after position `p` of `lines` are one per record of `ds`, in order. */
  ghost predicate FollowedBy(lines: seq<ReportLine>, p: nat, ds: seq<Discrepancy>)
  {
    p + |ds| < |lines| && forall i :: 0 <= i < |ds| ==> lines[p + 1 + i] == EntryLine(ds[i])
  }

  /** Every file header after position `p` of `lines` names a file above `f`. */
  ghost predicate HeadersAfter(lines: seq<ReportLine>, p: nat, f: string)
  {
    forall q :: p < q < |lines| && lines[q].FileHeader? ==> Less(f, lines[q].file)
  }

  lemma FollowedByExtends(lines: seq<ReportLine>, more: seq<ReportLine>, p: nat, ds: seq<Discrepancy>)
    requires FollowedBy(lines, p, ds)
    ensures FollowedBy(lines + more, p, ds)
  {
  }

  /** A section appended after `before` starts with its header, followed by its records. */
  lemma SectionFollowedBy(before: seq<ReportLine>, f: string, ds: seq<Discrepancy>)
    requires |ds| > 0
    ensures (before + Section(f, ds))[|before|] == FileHeader(f)
    ensures FollowedBy(before + Section(f, ds), |before|, ds)
  {
  }

  /** The only header of a section is its first line. */
  lemma HeaderInSection(before: seq<ReportLine>, f: string, ds: seq<Discrepancy>, q: nat)
    requires |before| <= q < |before + Section(f, ds)| && (before + Section(f, ds))[q].FileHeader?
    ensures q == |before| && (before + Section(f, ds))[q] == FileHeader(f)
  {
  }

  /** A header in the sections is followed by one line per record of its
      file, in list order. */
  lemma {:induction false} SectionsBody(data: map<string, seq<Discrepancy>>, files: seq<string>, j: nat, p: nat)
    requires j <= |files| && p < |Sections(data, files, j)| && Sections(data, files, j)[p].FileHeader?
    ensures |ListOf(data, Sections(data, files, j)[p].file)| > 0
    ensures FollowedBy(Sections(data, files, j), p, ListOf(data, Sections(data, files, j)[p].file))
  {
    var before, f := Sections(data, files, j - 1), files[j - 1];
    var block := Section(f, ListOf(data, f));
    assert Sections(data, files, j) == before + block;
    if p < |before| {
      SectionsBody(data, files, j - 1, p);
      FollowedByExtends(before, block, p, ListOf(data, before[p].file));
    } else {
      HeaderInSection(before, f, ListOf(data, f), p);
      SectionFollowedBy(before, f, ListOf(data, f));
    }
  }

  /** Headers in the sections come in the order of `files`. */
  lemma {:induction false} SectionsOrder(data: map<string, seq<Discrepancy>>, files: seq<string>, j: nat, p: nat, q: nat)
    requires j <= |files| && StrictlySorted(files)
    requires p < q < |Sections(data, files, j)|
    requires Sections(data, files, j)[p].FileHeader? && Sections(data, files, j)[q].FileHeader?
    ensures Less(Sections(data, files, j)[p].file, Sections(data, files, j)[q].file)
  {
    var before, f := Sections(data, files, j - 1), files[j - 1];
    var block := Section(f, ListOf(data, f));
    assert Sections(data, files, j) == before + block;
    if q < |before| {
      SectionsOrder(data, files, j - 1, p, q);
    } else {
      HeaderInSection(before, f, ListOf(data, f), q);
      SectionsHeaders(data, files, j - 1);
      assert FileHeader(before[p].file) in before;
      var i :| 0 <= i < j - 1 && files[i] == before[p].file;
      SortedAt(files, i, j - 1);
    }
  }

  lemma SectionsHeadersAfter(data: map<string, seq<Discrepancy>>, files: seq<string>, j: nat, p: nat)
    requires j <= |files| && StrictlySorted(files)
    requires p < |Sections(data, files, j)| && Sections(data, files, j)[p].FileHeader?
    ensures HeadersAfter(Sections(data, files, j), p, Sections(data, files, j)[p].file)
  {
    forall q | p < q < |Sections(data, files, j)| && Sections(data, files, j)[q].FileHeader?
      ensures Less(Sections(data, files, j)[p].file, Sections(data, files, j)[q].file)
    {
      SectionsOrder(data, files, j, p, q);
    }
  }

  /** Framing the sections with a title line and header-free trailing lines
      moves every position by one and keeps what follows each header. */
  lemma Framed(title: string, s: seq<ReportLine>, tail: seq<ReportLine>, p: nat, ds: seq<Discrepancy>, f: string)
    requires forall k :: 0 <= k < |tail| ==> tail[k] == NoneFound
    requires p < |s| && FollowedBy(s, p, ds) && HeadersAfter(s, p, f)
    ensures ([Title(title)] + s + tail)[p + 1] == s[p]
    ensures FollowedBy([Title(title)] + s + tail, p + 1, ds)
    ensures HeadersAfter([Title(title)] + s + tail, p + 1, f)
  {
  }

  /** A header of the framed sections is one of the sections' headers. */
  lemma HeaderInFrame(title: string, s: seq<ReportLine>, tail: seq<ReportLine>, p: nat)
    requires forall k :: 0 <= k < |tail| ==> tail[k] == NoneFound
    requires p < |[Title(title)] + s + tail| && ([Title(title)] + s + tail)[p].FileHeader?
    ensures 0 < p <= |s| && ([Title(title)] + s + tail)[p] == s[p - 1]
  {
  }

  /** The layout facts for the sections of any strictly sorted file
      sequence, framed by a title line and header-free trailing lines. */
  lemma FramedLayout(title: string, data: map<string, seq<Discrepancy>>, files: seq<string>, tail: seq<ReportLine>, p: nat)
    requires StrictlySorted(files)
    requires forall k :: 0 <= k < |tail| ==> tail[k] == NoneFound
    requires var lines := [Title(title)] + Sections(data, files, |files|) + tail;
      p < |lines| && lines[p].FileHeader?
    ensures var lines := [Title(title)] + Sections(data, files, |files|) + tail; var f := lines[p].file;
      && |ListOf(data, f)| > 0
      && FollowedBy(lines, p, ListOf(data, f))
      && HeadersAfter(lines, p, f)
  {
    var s := Sections(data, files, |files|);
    HeaderInFrame(title, s, tail, p);
    var f := s[p - 1].file;
    SectionsBody(data, files, |files|, p - 1);
    SectionsHeadersAfter(data, files, |files|, p - 1);
    Framed(title, s, tail, p - 1, ListOf(data, f), f);
  }

  /** Each file header of the report names a file of `data` with records,
      is followed by one line per record of that file, in list order, and
      precedes the headers of all greater files only. */
  lemma ReportLayout(title: string, data: map<string, seq<Discrepancy>>, p: nat)
    requires p < |ReportLines(title, data)| && ReportLines(title, data)[p].FileHeader?
    ensures var lines := ReportLines(title, data); var f := lines[p].file;
      && f in data && |data[f]| > 0
      && FollowedBy(lines, p, data[f])
      && HeadersAfter(lines, p, f)
  {
    var files := SortedKeys(data.Keys);
    var tail := if HasContent(data) then [] else [NoneFound];
    assert ReportLines(title, data) == [Title(title)] + Sections(data, files, |files|) + tail;
    FramedLayout(title, data, files, tail, p);
  }

  /** Comparing a report with itself prints two reports without any file
      section: only the titles and the two "(None)" markers. */
  lemma SelfComparisonPrintsNothing(report: CoverageReport)
    ensures Outcome(report, report) ==
      Success([Title(BaselineTitle), NoneFound, Title(EnhancedTitle), NoneFound])
  {
    DifferencesSelf(report);
    var c := Differences(report, report).value;
    assert Differences(report, report) == Success(c);
    assert forall f :: f in c.onlyInEnhanced ==> f in c.onlyInBaseline;
    EmptyReport(BaselineTitle, c.onlyInBaseline);
    EmptyReport(EnhancedTitle, c.onlyInEnhanced);
    assert [Title(BaselineTitle), NoneFound] + [Title(EnhancedTitle), NoneFound]
      == [Title(BaselineTitle), NoneFound, Title(EnhancedTitle), NoneFound];
  }

  lemma {:induction false} EmptySections(data: map<string, seq<Discrepancy>>, files: seq<string>, j: nat)
    requires j <= |files|
    requires forall i :: 0 <= i < j ==> |ListOf(data, files[i])| == 0
    ensures |Sections(data, files, j)| == 0
  {
    if j > 0 {
      EmptySections(data, files, j - 1);
    }
  }

  /** With every list empty, the report is its title and the marker. */
  lemma EmptyReport(title: string, data: map<string, seq<Discrepancy>>)
    requires forall f :: f in data ==> |data[f]| == 0
    ensures ReportLines(title, data) == [Title(title), NoneFound]
  {
    var files := SortedKeys(data.Keys);
    EmptySections(data, files, |files|);
  }
}
