/** The application's driver (IBResultProcessor of app.py): uploaded files
    recorded under the type detected from their first page, and
    consolidate_data, which reads the summary, merges the subject-level
    files into it in a fixed order and joins the two reports built from the
    result. A PDF is given as the text of its pages ("" for a page without
    text). */
module Consolidate {
  import opened Wrappers
  import opened Sorting
  import opened Tables
  import opened Reshape
  import Classifier
  import SummaryHandler
  import SubjectHandler
  import Merge
  import Pivot
  import Overall

  // ---------------------------------------------------------------------
  // The outer join of the two reports
  // ---------------------------------------------------------------------

  /** The first column of xs that ys also has. */
  function FirstShared(xs: seq<(string, string)>, ys: seq<(string, string)>): (r: Option<(string, string)>)
    ensures r.Some? ==> r.value in xs && r.value in ys
    ensures r.None? <==> forall c :: c in xs ==> c !in ys
  {
    if xs == [] then None
    else if xs[0] in ys then Some(xs[0])
    else
      assert forall c :: c in xs <==> c == xs[0] || c in xs[1..];
      FirstShared(xs[1..], ys)
  }

  /** Cell c of the row of candidate k, or None where no row has key k. */
  function CellFor(rows: seq<ReportRow>, k: Key, c: (string, string)): (v: Option<string>)
    ensures k !in RowKeys(rows) ==> v.None?
    ensures v.Some? ==> exists i :: 0 <= i < |rows| && rows[i].key == k && c in rows[i].cells && rows[i].cells[c] == v
  {
    var ks := RowKeys(rows);
    if k in ks then
      var i := Find(ks, k);
      if c in rows[i].cells then rows[i].cells[c] else None
    else None
  }

  /** The cells of candidate k in the join: each column from the report it
      belongs to. */
  function JoinedCells(a: Report, b: Report, k: Key): (m: map<(string, string), Option<string>>)
    ensures forall c :: c in m <==> c in a.columns || c in b.columns
  {
    map c | c in a.columns + b.columns :: if c in a.columns then CellFor(a.rows, k, c) else CellFor(b.rows, k, c)
  }

  /** pd.merge(df_sub, df_overall, on=common_keys, how='outer'): the union
      of the two reports' candidates in key order, each with the columns of
      both reports. Reports that share a column are not joined. */
  function OuterJoin(a: Report, b: Report): (r: Result<Report, Failure>)
    ensures r.Err? <==> exists c :: c in a.columns && c in b.columns
    ensures r.Err? ==> r.error.SharedReportColumn?
                       && (r.error.group, r.error.field) in a.columns && (r.error.group, r.error.field) in b.columns
  {
    match FirstShared(a.columns, b.columns)
    case Some(c) => Err(SharedReportColumn(c.0, c.1))
    case None =>
      KeyOrder();
      var keys := SortedSet(KeyBelow, RowKeys(a.rows) + RowKeys(b.rows));
      Ok(Report(a.columns + b.columns, RowsFor(keys, k => JoinedCells(a, b, k))))
  }

  /** In rows with ascending keys, the row of a key is the only one. */
  lemma CellForRow(rows: seq<ReportRow>, i: nat, c: (string, string))
    requires SortedBy(KeyBelow, RowKeys(rows)) && i < |rows|
    ensures CellFor(rows, rows[i].key, c) == if c in rows[i].cells then rows[i].cells[c] else None
  {
    var ks := RowKeys(rows);
    assert ks[i] == rows[i].key;
    var j := Find(ks, rows[i].key);
    KeyOrder();
    if j != i {
      assert false;
    }
  }

  /** The join is well formed, has the columns of the subject report and
      then those of the overall report, and a row for exactly the
      candidates that have a row in either. */
  lemma OuterJoinRows(a: Report, b: Report)
    requires OuterJoin(a, b).Ok?
    ensures OuterJoin(a, b).value.WellFormed()
    ensures OuterJoin(a, b).value.columns == a.columns + b.columns
    ensures forall k :: k in RowKeys(OuterJoin(a, b).value.rows) <==> k in RowKeys(a.rows) || k in RowKeys(b.rows)
  {
  }

  /** A cell of the join is the cell of the same candidate and column in
      the report the column belongs to, and null where that report has no
      row for the candidate. */
  lemma OuterJoinCell(a: Report, b: Report, i: nat, c: (string, string))
    requires a.WellFormed() && b.WellFormed() && OuterJoin(a, b).Ok?
    requires i < |OuterJoin(a, b).value.rows|
    ensures var row := OuterJoin(a, b).value.rows[i];
            && (c in a.columns && row.key !in RowKeys(a.rows) ==> row.cells[c].None?)
            && (forall j :: 0 <= j < |a.rows| && c in a.columns && a.rows[j].key == row.key ==> row.cells[c] == a.rows[j].cells[c])
            && (c in b.columns && row.key !in RowKeys(b.rows) ==> row.cells[c].None?)
            && (forall j :: 0 <= j < |b.rows| && c in b.columns && b.rows[j].key == row.key ==> row.cells[c] == b.rows[j].cells[c])
  {
    var row := OuterJoin(a, b).value.rows[i];
    assert row.cells == JoinedCells(a, b, row.key);
    assert !(c in a.columns && c in b.columns);
    forall j | 0 <= j < |a.rows| && c in a.columns && a.rows[j].key == row.key
      ensures row.cells[c] == a.rows[j].cells[c]
    {
      CellForRow(a.rows, j, c);
    }
    forall j | 0 <= j < |b.rows| && c in b.columns && b.rows[j].key == row.key
      ensures row.cells[c] == b.rows[j].cells[c]
    {
      CellForRow(b.rows, j, c);
    }
  }

  /** Every candidate of the subject report of a frame has a row in the
      overall report of the same frame: the pivot groups a subset of the
      rows that the overall report groups. */
  lemma SubjectKeysInOverall(t: Table)
    requires Pivot.SubjectReport(t).Ok? && Overall.OverallReport(t).Ok?
    ensures forall k :: k in RowKeys(Pivot.SubjectReport(t).value.rows) ==> k in RowKeys(Overall.OverallReport(t).value.rows)
  {
    Pivot.SubjectReportRows(t);
    Overall.OverallReportRows(t);
    forall k | k in RowKeys(Pivot.SubjectReport(t).value.rows)
      ensures k in RowKeys(Overall.OverallReport(t).value.rows)
    {
      var r :| r in Pivot.Kept(t.rows) && Pivot.Contributes(r) && KeyOf(r) == Some(k);
      assert r in t.rows;
    }
  }

  // ---------------------------------------------------------------------
  // consolidate_data
  // ---------------------------------------------------------------------

  /** The keys of file_types, in order: the student-level summary first. */
  const FileTypes: seq<string> :=
    [Classifier.ResultsSummary, Classifier.SubjectResults, Classifier.ExtendedEssay, Classifier.TheoryOfKnowledge]

  /** The file types the merge loop visits: all but the first. */
  const SubjectFileTypes: seq<string> := FileTypes[1..]

  /** A PDF as the text of its pages. */
  type Document = seq<string>

  /** processed_files: each file type to the file recorded for it, if any. */
  type Files = map<string, Option<Document>>

  /** The state of the merge loop: df_main, and df_merged once a merge has
      bound it. */
  datatype Frames = Frames(main: Table, merged: Option<Table>)

  /** The student-level frame: extract_results then reformat_results of the
      summary handler. */
  function SummaryFrame(doc: Document): Result<Table, Failure> {
    SummaryHandler.ReformatResults(Normalize(SummaryHandler.DocumentRecords(doc)))
  }

  /** A subject-level frame: extract_results then reformat_results of the
      subject handler. */
  function SubjectFrame(doc: Document): Result<Table, Failure> {
    match SubjectHandler.ExtractOutcome(doc)
    case Err(e) => Err(e)
    case Ok(out) => SubjectHandler.ReformatResults(out.0)
  }

  /** Turn i of the merge loop: the file recorded for the i-th subject-level
      type, if any, merged into df_main by that type's step. */
  function MergeTurn(files: Files, i: nat, st: Frames): Result<Frames, Failure> {
    if i >= |SubjectFileTypes| then Ok(st)
    else
      var key := SubjectFileTypes[i];
      if key !in files then Err(UnrecordedFileType(key))
      else if files[key].None? then Ok(st)
      else
        match SubjectFrame(files[key].value)
        case Err(e) => Err(e)
        case Ok(sub) =>
          assert key in Merge.AppSteps;
          match Merge.MergeFrames(st.main, sub, Merge.AppSteps[key])
          case Err(e) => Err(e)
          case Ok(m) => Ok(Frames(m, Some(m)))
  }

  /** The frames after the first n turns of the merge loop, from the
      student-level frame. */
  function Merged(files: Files, main: Table, n: nat): Result<Frames, Failure> {
    Steps((i: nat, st: Frames) => MergeTurn(files, i, st), Frames(main, None), n)
  }

  /** The two reports of the merged frame and their outer join. */
  function FinalReport(merged: Table): Result<Report, Failure> {
    var sub := Pivot.SubjectReport(merged);
    var overall := Overall.OverallReport(merged);
    if sub.Err? then Err(sub.error)
    else if overall.Err? then Err(overall.error)
    else OuterJoin(sub.value, overall.value)
  }

  /** The result after the merge loop: None unless a merge bound df_merged,
      else df_merged and its final report. */
  function Reported(st: Frames): Option<(Table, Report)> {
    if st.merged.None? then None
    else
      match FinalReport(st.merged.value)
      case Err(_) => None
      case Ok(report) => Some((st.merged.value, report))
  }

  /** The result from the student-level frame on: the merge loop, then the
      reports; a failure anywhere gives None. */
  function FromSummary(files: Files, main: Table): Option<(Table, Report)> {
    match Merged(files, main, |SubjectFileTypes|)
    case Err(_) => None
    case Ok(st) => Reported(st)
  }

  /** consolidate_data as a function of the recorded files: the merged frame
      and the final report, or None where the source returns (None, None). */
  function Consolidation(files: Files): Option<(Table, Report)> {
    if Classifier.ResultsSummary !in files || files[Classifier.ResultsSummary].None? then None
    else
      match SummaryFrame(files[Classifier.ResultsSummary].value)
      case Err(_) => None
      case Ok(main) => FromSummary(files, main)
  }

  /** Once the student-level frame is read, the result is decided by the
      merge loop and the reports. */
  lemma ConsolidationFromSummary(files: Files, main: Table)
    requires Classifier.ResultsSummary in files && files[Classifier.ResultsSummary].Some?
    requires SummaryFrame(files[Classifier.ResultsSummary].value) == Ok(main)
    ensures Consolidation(files) == FromSummary(files, main)
  {
  }

  /** One more turn of the merge loop. */
  lemma MergedNext(files: Files, main: Table, n: nat)
    ensures Merged(files, main, n + 1) == match Merged(files, main, n)
                                          case Err(e) => Err(e)
                                          case Ok(st) => MergeTurn(files, n, st)
  {
  }

  /** A failed turn ends the merge loop. */
  lemma MergedFailureSticks(files: Files, main: Table, n: nat)
    requires n <= |SubjectFileTypes| && Merged(files, main, n).Err?
    ensures Merged(files, main, |SubjectFileTypes|) == Merged(files, main, n)
  {
    StepsFailureSticks((i: nat, st: Frames) => MergeTurn(files, i, st), Frames(main, None), n, |SubjectFileTypes|);
  }

  /** Every file type has an entry in processed_files. */
  predicate AllRecorded(files: Files) {
    forall k :: k in FileTypes ==> k in files
  }

  /** The ways reading or merging a subject-level file can fail. */
  predicate SubjectFileFailure(e: Failure) {
    e.UnknownSubjectType? || e.ShortDataLine? || e.NoTextPages? || e.MissingColumn?
    || e.SplitWidth? || e.DuplicateColumn?
  }

  /** With an entry for every file type, a turn of the merge loop never
      fails on a missing entry: it fails only in reading or merging the
      recorded file. */
  lemma TurnFailures(files: Files, i: nat, st: Frames)
    requires AllRecorded(files)
    ensures MergeTurn(files, i, st).Err? ==> SubjectFileFailure(MergeTurn(files, i, st).error)
  {
    if i < |SubjectFileTypes| {
      var key := SubjectFileTypes[i];
      assert key in FileTypes;
      if files[key].Some? {
        var doc := files[key].value;
        if SubjectHandler.DocumentScan(doc, |doc|).Err? {
          SubjectHandler.DocumentScanFailures(doc, |doc|);
        }
      }
    }
  }

  /** With an entry for every file type, the merge loop fails only in
      reading or merging a recorded file, never on a missing entry. */
  lemma {:induction false} MergedFailures(files: Files, main: Table, n: nat)
    requires AllRecorded(files)
    ensures Merged(files, main, n).Err? ==> SubjectFileFailure(Merged(files, main, n).error)
  {
    if n > 0 {
      MergedFailures(files, main, n - 1);
      MergedNext(files, main, n - 1);
      if Merged(files, main, n - 1).Ok? {
        TurnFailures(files, n - 1, Merged(files, main, n - 1).value);
      }
    }
  }

  /** IBResultProcessor with the processed_files entry of the session
      state. */
  class Processor {
    var processedFiles: Files

    /** Every file type has an entry, as __init__ sets them up. */
    predicate Valid()
      reads this
    {
      AllRecorded(processedFiles)
    }

    /** __init__: no file recorded for any type. */
    constructor()
      ensures processedFiles == map k | k in FileTypes :: None
      ensures Valid()
    {
      processedFiles := map k | k in FileTypes :: None;
    }

    /** process_uploaded_file: the file is recorded under the type detected
        from its first page, replacing an earlier file of that type; a file
        of no known type is not recorded. */
    method ProcessUploadedFile(doc: Document) returns (fileType: Option<string>)
      modifies this
      ensures fileType == Classifier.Classify(doc)
      ensures fileType.Some? ==> fileType.value in FileTypes && processedFiles == old(processedFiles)[fileType.value := Some(doc)]
      ensures fileType.None? ==> processedFiles == old(processedFiles)
      ensures old(Valid()) ==> Valid()
    {
      fileType := Classifier.DetectFileType(doc);
      if fileType.Some? {
        processedFiles := processedFiles[fileType.value := Some(doc)];
      }
    }

    /** consolidate_data: the summary, then the loop over the subject-level
        file types, each recorded file merged into the frame so far, then
        the two reports and their join. */
    method ConsolidateData() returns (r: Option<(Table, Report)>)
      requires Valid()
      ensures r == Consolidation(processedFiles)
    {
      var files := processedFiles;
      if Classifier.ResultsSummary !in files {
        return None;
      }
      var studentFile := files[Classifier.ResultsSummary];
      if studentFile.None? {
        return None;
      }
      var extracted := SummaryHandler.ExtractResults(studentFile.value);
      var summary := SummaryHandler.ReformatResults(extracted);
      if summary.Err? {
        return None;
      }
      ConsolidationFromSummary(files, summary.value);
      var frames := MergeSubjectFiles(files, summary.value);
      if frames.Err? {
        return None;
      }
      r := BuildReport(frames.value);
    }
  }

  /** The loop of consolidate_data over the subject-level file types, from
      the student-level frame. */
  method MergeSubjectFiles(files: Files, main: Table) returns (r: Result<Frames, Failure>)
    ensures r == Merged(files, main, |SubjectFileTypes|)
  {
    var st := Frames(main, None);
    for i := 0 to |SubjectFileTypes|
      invariant Merged(files, main, i) == Ok(st)
    {
      MergedNext(files, main, i);
      var turn := MergeFile(files, i, st);
      if turn.Err? {
        MergedFailureSticks(files, main, i + 1);
        return turn;
      }
      st := turn.value;
    }
    return Ok(st);
  }

  /** One turn of the loop of consolidate_data: the file recorded for the
      i-th subject-level type, if any, read, reformatted and merged into
      df_main by the step of its type. */
  method MergeFile(files: Files, i: nat, st: Frames) returns (r: Result<Frames, Failure>)
    requires i < |SubjectFileTypes|
    ensures r == MergeTurn(files, i, st)
  {
    var key := SubjectFileTypes[i];
    if key !in files {
      return Err(UnrecordedFileType(key));
    }
    var subjectFile := files[key];
    if subjectFile.None? {
      return Ok(st);
    }
    var outcome := SubjectHandler.ExtractResults(subjectFile.value);
    if outcome.Err? {
      return Err(outcome.error);
    }
    var sub := SubjectHandler.ReformatResults(outcome.value.0);
    if sub.Err? {
      return Err(sub.error);
    }
    assert key in Merge.AppSteps;
    var merged := Merge.MergeInto(st.main, sub.value, Merge.AppSteps[key]);
    if merged.Err? {
      return Err(merged.error);
    }
    return Ok(Frames(merged.value, Some(merged.value)));
  }

  /** The end of consolidate_data: None unless df_merged was bound, else
      df_merged with the join of its two reports. */
  method BuildReport(st: Frames) returns (r: Option<(Table, Report)>)
    ensures r == Reported(st)
  {
    if st.merged.None? {
      return None;
    }
    var subReport := Pivot.ReformatResultsSub(st.merged.value);
    if subReport.Err? {
      return None;
    }
    var overall := Overall.OverallReport(st.merged.value);
    if overall.Err? {
      return None;
    }
    var report := OuterJoin(subReport.value, overall.value);
    if report.Err? {
      return None;
    }
    return Some((st.merged.value, report.value));
  }

  // ---------------------------------------------------------------------
  // Properties of the consolidation
  // ---------------------------------------------------------------------

  /** The loop visits every type it got past: after n good turns, df_merged
      is bound exactly when a file is recorded for one of the first n
      subject-level types, df_main then is df_merged, and with no such file
      df_main is still the student-level frame. */
  lemma {:induction false} MergedFrames(files: Files, main: Table, n: nat)
    requires n <= |SubjectFileTypes| && Merged(files, main, n).Ok?
    ensures forall j :: 0 <= j < n ==> SubjectFileTypes[j] in files
    ensures var st := Merged(files, main, n).value;
            && (st.merged.Some? <==> exists j :: 0 <= j < n && files[SubjectFileTypes[j]].Some?)
            && (st.merged.Some? ==> st.merged.value == st.main)
            && (st.merged.None? ==> st.main == main)
  {
    if n > 0 {
      MergedNext(files, main, n - 1);
      MergedFrames(files, main, n - 1);
    }
  }

  /** A turn for a type without a recorded file leaves the frames as they
      are. */
  lemma AbsentFileSkipped(files: Files, main: Table, n: nat)
    requires n < |SubjectFileTypes| && SubjectFileTypes[n] in files && files[SubjectFileTypes[n]].None?
    ensures Merged(files, main, n + 1) == Merged(files, main, n)
  {
    MergedNext(files, main, n);
  }

  /** A turn for a type with a recorded file whose frame merges binds both
      df_main and df_merged to the merge. */
  lemma MergeTurnMerges(files: Files, i: nat, st: Frames, d: Document, sub: Table, m: Table)
    requires i < |SubjectFileTypes| && SubjectFileTypes[i] in files && files[SubjectFileTypes[i]] == Some(d)
    requires SubjectFrame(d) == Ok(sub)
    requires SubjectFileTypes[i] in Merge.AppSteps
    requires Merge.MergeFrames(st.main, sub, Merge.AppSteps[SubjectFileTypes[i]]) == Ok(m)
    ensures MergeTurn(files, i, st) == Ok(Frames(m, Some(m)))
  {
  }

  /** With all three subject-level files recorded, the standard subject file
      is merged first, then the extended essay, then theory of knowledge,
      each into the output of the one before. */
  lemma MergeOrder(files: Files, main: Table, d1: Document, d2: Document, d3: Document,
                   s1: Table, s2: Table, s3: Table, m1: Table, m2: Table, m3: Table)
    requires Classifier.SubjectResults in files && files[Classifier.SubjectResults] == Some(d1)
    requires Classifier.ExtendedEssay in files && files[Classifier.ExtendedEssay] == Some(d2)
    requires Classifier.TheoryOfKnowledge in files && files[Classifier.TheoryOfKnowledge] == Some(d3)
    requires SubjectFrame(d1) == Ok(s1) && SubjectFrame(d2) == Ok(s2) && SubjectFrame(d3) == Ok(s3)
    requires Merge.MergeFrames(main, s1, Merge.AppSteps[Classifier.SubjectResults]) == Ok(m1)
    requires Merge.MergeFrames(m1, s2, Merge.AppSteps[Classifier.ExtendedEssay]) == Ok(m2)
    requires Merge.MergeFrames(m2, s3, Merge.AppSteps[Classifier.TheoryOfKnowledge]) == Ok(m3)
    ensures Merged(files, main, |SubjectFileTypes|) == Ok(Frames(m3, Some(m3)))
  {
    SubjectFileOrder();
    MergedStart(files, main);
    MergedTurn(files, main, 0, Frames(main, None), d1, s1, m1);
    MergedTurn(files, main, 1, Frames(m1, Some(m1)), d2, s2, m2);
    MergedTurn(files, main, 2, Frames(m2, Some(m2)), d3, s3, m3);
  }

  /** The subject-level file types, in the order the loop visits them. */
  lemma SubjectFileOrder()
    ensures |SubjectFileTypes| == 3
    ensures SubjectFileTypes[0] == Classifier.SubjectResults
    ensures SubjectFileTypes[1] == Classifier.ExtendedEssay
    ensures SubjectFileTypes[2] == Classifier.TheoryOfKnowledge
  {
    assert SubjectFileTypes == [Classifier.SubjectResults, Classifier.ExtendedEssay, Classifier.TheoryOfKnowledge];
  }

  /** Before any turn the loop holds the summary frame and no df_merged. */
  lemma MergedStart(files: Files, main: Table)
    ensures Merged(files, main, 0) == Ok(Frames(main, None))
  {
  }

  /** A recorded file whose frame merges cleanly into the frame so far makes
      the merge its own output and df_merged. */
  lemma MergedTurn(files: Files, main: Table, i: nat, st: Frames, d: Document, sub: Table, m: Table)
    requires i < |SubjectFileTypes| && Merged(files, main, i) == Ok(st)
    requires SubjectFileTypes[i] in files && files[SubjectFileTypes[i]] == Some(d)
    requires SubjectFrame(d) == Ok(sub)
    requires SubjectFileTypes[i] in Merge.AppSteps
    requires Merge.MergeFrames(st.main, sub, Merge.AppSteps[SubjectFileTypes[i]]) == Ok(m)
    ensures Merged(files, main, i + 1) == Ok(Frames(m, Some(m)))
  {
    MergedNext(files, main, i);
    MergeTurnMerges(files, i, st, d, sub, m);
  }

  /** Without a recorded summary nothing is merged and the result is
      (None, None). */
  lemma NoSummaryNoResult(files: Files)
    requires Classifier.ResultsSummary in files && files[Classifier.ResultsSummary].None?
    ensures Consolidation(files).None?
  {
  }

  /** Without any subject-level file df_merged is never bound and the
      result is (None, None). */
  lemma NoSubjectFileNoResult(files: Files)
    requires forall j :: 0 <= j < |SubjectFileTypes| && SubjectFileTypes[j] in files ==> files[SubjectFileTypes[j]].None?
    ensures Consolidation(files).None?
  {
    if Classifier.ResultsSummary in files && files[Classifier.ResultsSummary].Some? {
      var main := SummaryFrame(files[Classifier.ResultsSummary].value);
      if main.Ok? {
        ConsolidationFromSummary(files, main.value);
        NoSubjectFileNoMerge(files, main.value);
      }
    }
  }

  /** Without any subject-level file the merge loop binds no df_merged. */
  lemma NoSubjectFileNoMerge(files: Files, main: Table)
    requires forall j :: 0 <= j < |SubjectFileTypes| && SubjectFileTypes[j] in files ==> files[SubjectFileTypes[j]].None?
    ensures FromSummary(files, main).None?
  {
    var m := Merged(files, main, |SubjectFileTypes|);
    if m.Ok? {
      MergedFrames(files, main, |SubjectFileTypes|);
      assert m.value.merged.None?;
    }
  }

  /** A consolidation that succeeds had a summary and at least one
      subject-level file; its frame is the frame of the merge loop, and its
      report is well formed, has the subject report's columns then the
      overall report's, and has one row per candidate of the overall
      report, in the same order. */
  lemma ConsolidationResult(files: Files)
    requires Consolidation(files).Some?
    ensures Classifier.ResultsSummary in files && files[Classifier.ResultsSummary].Some?
    ensures SummaryFrame(files[Classifier.ResultsSummary].value).Ok?
    ensures exists j :: 0 <= j < |SubjectFileTypes| && SubjectFileTypes[j] in files && files[SubjectFileTypes[j]].Some?
    ensures var (merged, report) := Consolidation(files).value;
            && Merged(files, SummaryFrame(files[Classifier.ResultsSummary].value).value, |SubjectFileTypes|)
               == Ok(Frames(merged, Some(merged)))
            && Pivot.SubjectReport(merged).Ok? && Overall.OverallReport(merged).Ok?
            && report.WellFormed()
            && report.columns == Pivot.SubjectReport(merged).value.columns + Overall.OverallColumns
            && RowKeys(report.rows) == RowKeys(Overall.OverallReport(merged).value.rows)
  {
    var main := SummaryFrame(files[Classifier.ResultsSummary].value).value;
    ConsolidationFromSummary(files, main);
    FromSummaryResult(files, main);
  }

  /** What a result from the student-level frame on is made of. */
  lemma FromSummaryResult(files: Files, main: Table)
    requires FromSummary(files, main).Some?
    ensures exists j :: 0 <= j < |SubjectFileTypes| && SubjectFileTypes[j] in files && files[SubjectFileTypes[j]].Some?
    ensures var (merged, report) := FromSummary(files, main).value;
            && Merged(files, main, |SubjectFileTypes|) == Ok(Frames(merged, Some(merged)))
            && Pivot.SubjectReport(merged).Ok? && Overall.OverallReport(merged).Ok?
            && report.WellFormed()
            && report.columns == Pivot.SubjectReport(merged).value.columns + Overall.OverallColumns
            && RowKeys(report.rows) == RowKeys(Overall.OverallReport(merged).value.rows)
  {
    MergedFrames(files, main, |SubjectFileTypes|);
    var st := Merged(files, main, |SubjectFileTypes|).value;
    ReportedResult(st);
  }

  /** The report of a bound df_merged: the join of its two reports, with the
      rows of the overall report. */
  lemma ReportedResult(st: Frames)
    requires Reported(st).Some?
    ensures var (merged, report) := Reported(st).value;
            && st.merged == Some(merged)
            && Pivot.SubjectReport(merged).Ok? && Overall.OverallReport(merged).Ok?
            && report.WellFormed()
            && report.columns == Pivot.SubjectReport(merged).value.columns + Overall.OverallColumns
            && RowKeys(report.rows) == RowKeys(Overall.OverallReport(merged).value.rows)
  {
    var merged := st.merged.value;
    var sub := Pivot.SubjectReport(merged).value;
    var overall := Overall.OverallReport(merged).value;
    OuterJoinRows(sub, overall);
    SubjectKeysInOverall(merged);
    Overall.OverallReportRows(merged);
    KeyOrder();
    SortedByUnique(KeyBelow, RowKeys(OuterJoin(sub, overall).value.rows), RowKeys(overall.rows));
  }
}
