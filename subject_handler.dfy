/** The subject-level reports (a standard subject, the Extended Essay and
    Theory of Knowledge): each page holds a "Subject Results" line naming
    the report type, a "Predicted ..." header line whose tail is the
    subject name, and below it one data line per candidate
    (ib_result_handler_subject.py). */
module SubjectHandler {
  import opened Wrappers
  import opened Text
  import opened Patterns
  import opened Tables

  const SubjectTypeKeyword := "Subject Results"
  const PredictedHeader := "Predicted"
  const PageFooter := "Page"

  /** The three report types: what follows "Subject Results" on its line. */
  const StandardType := ""
  const ExtendedEssayType := "(EXTENDED ESSAY)"
  const TheoryOfKnowledgeType := "(THEORY OF KNOWLEDGE)"

  /** dict_fields_to_extract: record key and column label, in order. */
  const StandardFields: seq<(string, string)> :=
    [("pg", "Predicted"), ("fg", "Grade"), ("scaled_total", "Scaled total"), ("candidate", "")]
  const EssayFields: seq<(string, string)> :=
    [("pg", "Predicted grade"), ("fg", "Grade"), ("candidate", "")]

  /** dict_fields_to_extract.get(type, {}). */
  function FieldsOf(subjectType: string): seq<(string, string)> {
    if subjectType == StandardType then StandardFields
    else if subjectType == ExtendedEssayType || subjectType == TheoryOfKnowledgeType then EssayFields
    else []
  }

  /** dict_skip_line_to_data.get(type): how far below the header line the
      data starts; None for a type the table does not know. */
  function SkipOf(subjectType: string): (r: Option<nat>)
    ensures r.None? <==> FieldsOf(subjectType) == []
  {
    if subjectType == StandardType then Some(2)
    else if subjectType == ExtendedEssayType || subjectType == TheoryOfKnowledgeType then Some(1)
    else None
  }

  /** The labels of the fields, in order. */
  function Labels(fields: seq<(string, string)>): (r: seq<string>)
    ensures |r| == |fields| && forall j :: 0 <= j < |fields| ==> r[j] == fields[j].1
  {
    seq(|fields|, j requires 0 <= j < |fields| => fields[j].1)
  }

  /** int_subject_pos: the number of words in the labels of every field but
      the last (the candidate column, whose label is empty). */
  function SubjectPos(fields: seq<(string, string)>): nat {
    if fields == [] then 0 else |Words(JoinSpace(Labels(fields[..|fields| - 1])))|
  }

  /** A standard subject report has four words before the subject name
      ("Predicted Grade Scaled total"), as many as it has fields, so the
      split of a data line can fill every field. */
  lemma StandardSubjectPos()
    ensures SubjectPos(StandardFields) == |StandardFields| == 4
  {
    var ws := ["Predicted", "Grade", "Scaled", "total"];
    assert "Scaled total" == "Scaled" + " " + "total";
    assert Labels(StandardFields[..3]) == ["Predicted", "Grade", "Scaled total"];
    assert JoinSpace(["Predicted", "Grade", "Scaled total"]) == JoinSpace(ws);
    WordsFromJoin(JoinSpace(ws), 0, ws);
  }

  /** The Extended Essay and Theory of Knowledge reports have three
      ("Predicted grade Grade"), as many as their fields. */
  lemma EssaySubjectPos()
    ensures SubjectPos(EssayFields) == |EssayFields| == 3
  {
    var ws := ["Predicted", "grade", "Grade"];
    assert "Predicted grade" == "Predicted" + " " + "grade";
    assert Labels(EssayFields[..2]) == ["Predicted grade", "Grade"];
    assert JoinSpace(["Predicted grade", "Grade"]) == JoinSpace(ws);
    WordsFromJoin(JoinSpace(ws), 0, ws);
  }

  // ---------------------------------------------------------------------
  // The header line and the data lines
  // ---------------------------------------------------------------------

  /** str_subject_name: " ".join(l.split(' ')[k:]). */
  function SubjectName(line: string, k: nat): string {
    var parts := SplitAllSpaces(line);
    if k < |parts| then JoinSpace(parts[k..]) else ""
  }

  /** The subject name is what follows the k-th space of the header line,
      and "" when the line has fewer than k spaces. */
  lemma SubjectNameAfterSpaces(line: string, k: nat)
    ensures Spaces(line) < k ==> SubjectName(line, k) == ""
    ensures k == 0 ==> SubjectName(line, k) == line
    ensures 0 < k <= Spaces(line) ==>
      exists head :: line == head + " " + SubjectName(line, k) && Spaces(head) == k - 1
  {
    var parts := SplitAllSpaces(line);
    if k == 0 {
      assert parts[0..] == parts;
    } else if k <= Spaces(line) {
      JoinSpaceSplit(parts, k);
      JoinSpaceSpaces(parts[..k]);
      var head := JoinSpace(parts[..k]);
      assert line == head + " " + SubjectName(line, k);
    }
  }

  /** The record of a data line zipped with the fields: the key of field j
      holds part j. */
  function ZipFields(fields: seq<(string, string)>, parts: seq<string>): Record
    requires |fields| <= |parts|
    decreases |fields|
  {
    if fields == [] then map[]
    else
      var n := |fields| - 1;
      ZipFields(fields[..n], parts)[fields[n].0 := Some(parts[n])]
  }

  /** The parts of a data line: line.split(' ', k - 1); a negative limit
      (k = 0) splits at every space. */
  function DataParts(line: string, k: nat): (parts: seq<string>)
    ensures JoinSpace(parts) == line
  {
    if k == 0 then SplitAllSpaces(line) else SplitSpace(line, k - 1)
  }

  /** The record of one data line: its parts zipped with the fields, and the
      subject name; a line with fewer parts than fields fails. */
  function DataRecord(fields: seq<(string, string)>, k: nat, name: string, line: string): Result<Record, Failure> {
    var parts := DataParts(line, k);
    if |parts| < |fields| then Err(ShortDataLine(line))
    else Ok(ZipFields(fields, parts)["subject" := Some(name)])
  }

  /** A data line of a known report type fails exactly when it has fewer
      spaces than the fields but one. */
  lemma DataRecordFails(subjectType: string, name: string, line: string)
    requires SkipOf(subjectType).Some?
    ensures var fields := FieldsOf(subjectType);
      DataRecord(fields, SubjectPos(fields), name, line).Err? <==> Spaces(line) < |fields| - 1
  {
    StandardSubjectPos();
    EssaySubjectPos();
  }

  /** The record of the four parts of a standard data line. */
  lemma ZipStandard(p: seq<string>)
    requires |p| >= 4
    ensures ZipFields(StandardFields, p) ==
      map["pg" := Some(p[0]), "fg" := Some(p[1]), "scaled_total" := Some(p[2]), "candidate" := Some(p[3])]
  {
    var f1 := [("pg", "Predicted")];
    var f2 := f1 + [("fg", "Grade")];
    var f3 := f2 + [("scaled_total", "Scaled total")];
    assert f1[..0] == [] && f2[..1] == f1 && f3[..2] == f2 && StandardFields[..3] == f3;
    assert ZipFields(f1, p) == map["pg" := Some(p[0])];
    assert ZipFields(f2, p) == ZipFields(f1, p)["fg" := Some(p[1])];
    assert ZipFields(f3, p) == ZipFields(f2, p)["scaled_total" := Some(p[2])];
    assert ZipFields(StandardFields, p) == ZipFields(f3, p)["candidate" := Some(p[3])];
  }

  /** The record of the three parts of an essay data line. */
  lemma ZipEssay(p: seq<string>)
    requires |p| >= 3
    ensures ZipFields(EssayFields, p) == map["pg" := Some(p[0]), "fg" := Some(p[1]), "candidate" := Some(p[2])]
  {
    var f1 := [("pg", "Predicted grade")];
    var f2 := f1 + [("fg", "Grade")];
    assert f1[..0] == [] && f2[..1] == f1 && EssayFields[..2] == f2;
    assert ZipFields(f1, p) == map["pg" := Some(p[0])];
    assert ZipFields(f2, p) == ZipFields(f1, p)["fg" := Some(p[1])];
    assert ZipFields(EssayFields, p) == ZipFields(f2, p)["candidate" := Some(p[2])];
  }

  /** A data line of a standard subject report with at least three spaces
      is cut at its first three spaces into four parts, none of the first
      three holding a space, which fill pg, fg, scaled_total and candidate;
      the subject is the header's subject name. */
  lemma StandardDataRecord(name: string, line: string)
    requires Spaces(line) >= 3
    ensures var p := SplitSpace(line, 3);
      && |p| == 4 && JoinSpace(p) == line && ' ' !in p[0] && ' ' !in p[1] && ' ' !in p[2]
      && DataRecord(StandardFields, 4, name, line)
         == Ok(map["pg" := Some(p[0]), "fg" := Some(p[1]), "scaled_total" := Some(p[2]),
                   "candidate" := Some(p[3]), "subject" := Some(name)])
  {
    ZipStandard(SplitSpace(line, 3));
  }

  /** A data line of an Extended Essay or Theory of Knowledge report with at
      least two spaces is cut at its first two spaces into pg, fg and
      candidate. */
  lemma EssayDataRecord(name: string, line: string)
    requires Spaces(line) >= 2
    ensures var p := SplitSpace(line, 2);
      && |p| == 3 && JoinSpace(p) == line && ' ' !in p[0] && ' ' !in p[1]
      && DataRecord(EssayFields, 3, name, line)
         == Ok(map["pg" := Some(p[0]), "fg" := Some(p[1]), "candidate" := Some(p[2]), "subject" := Some(name)])
  {
    ZipEssay(SplitSpace(line, 2));
  }

  /** raw_lines up to the first line that starts with "Page": the lines from
      `from` on (none when `from` is past the end). */
  function DataLines(lines: seq<string>, from: nat): seq<string> {
    var a := if from < |lines| then from else |lines|;
    lines[a..FirstLineStarting(lines, a, PageFooter)]
  }

  /** The parser of one data line under a header with k words before the
      subject name. */
  function LineParser(fields: seq<(string, string)>, k: nat, name: string): string -> Result<Record, Failure> {
    line => DataRecord(fields, k, name, line)
  }

  /** The records of the data lines in order, or the failure of the first
      line that fails. */
  function DataRecords(fields: seq<(string, string)>, k: nat, name: string, data: seq<string>): Result<seq<Record>, Failure> {
    MapResult(LineParser(fields, k, name), data)
  }

  // ---------------------------------------------------------------------
  // parse_page
  // ---------------------------------------------------------------------

  /** The data loop of parse_page: from line `from` on, one record per line
      up to the first line that starts with "Page" (or is blank, which no
      stripped non-blank line is); the first line that fails ends the page. */
  method ScanData(lines: seq<string>, from: nat, parse: string -> Result<Record, Failure>)
    returns (r: Result<seq<Record>, Failure>)
    requires forall t :: 0 <= t < |lines| ==> lines[t] != [] && IsStripped(lines[t])
    ensures r == MapResult(parse, DataLines(lines, from))
  {
    var a := if from < |lines| then from else |lines|;
    var records: seq<Record> := [];
    var j := a;
    while j < |lines|
      invariant a <= j <= |lines|
      invariant forall t :: a <= t < j ==> !StartsWith(lines[t], PageFooter)
      invariant MapResult(parse, lines[a..j]) == Ok(records)
    {
      var line := lines[j];
      StripStripped(line);
      if StartsWith(line, PageFooter) || Strip(line) == [] {
        break;
      }
      assert lines[a..j + 1][..j - a] == lines[a..j];
      var rec := parse(line);
      if rec.Err? {
        DataLineFails(lines, a, j, parse, records);
        return Err(rec.error);
      }
      records := records + [rec.value];
      j := j + 1;
    }
    assert j == FirstLineStarting(lines, a, PageFooter);
    r := Ok(records);
  }

  /** A data line that fails ends the data loop with its failure. */
  lemma DataLineFails(lines: seq<string>, from: nat, j: nat, parse: string -> Result<Record, Failure>, records: seq<Record>)
    requires from <= j < |lines|
    requires forall t :: from <= t <= j ==> !StartsWith(lines[t], PageFooter)
    requires MapResult(parse, lines[from..j]) == Ok(records) && parse(lines[j]).Err?
    ensures MapResult(parse, DataLines(lines, from)) == Err(parse(lines[j]).error)
  {
    var data := DataLines(lines, from);
    assert data[..j + 1 - from] == lines[from..j + 1];
    assert lines[from..j + 1][..j - from] == lines[from..j];
    MapResultFailedPrefix(parse, data, j + 1 - from);
  }

  /** What parse_page returns: the report type and the records of a page. */
  datatype PageState = PageState(subjectType: string, records: seq<Record>)

  /** pasrse_field_single("Subject Results", line): the stripped text after
      the keyword, or the first key of the field table ("") without one. */
  function SubjectTypeOf(line: string): string {
    FieldValue(SubjectTypeKeyword, line).GetOr(StandardType)
  }

  /** The report type in force after the first n lines of a page: set by
      each "Subject Results" line, "" before the first. */
  function TypeAfter(lines: seq<string>, n: nat): string
    requires n <= |lines|
  {
    if n == 0 then StandardType
    else if StartsWith(lines[n - 1], SubjectTypeKeyword) then SubjectTypeOf(lines[n - 1])
    else TypeAfter(lines, n - 1)
  }

  /** Line i is a "Predicted" header line (a "Subject Results" line is
      handled first and never is one). */
  predicate IsHeaderLine(lines: seq<string>, i: nat)
    requires i < |lines|
  {
    !StartsWith(lines[i], SubjectTypeKeyword) && StartsWith(lines[i], PredictedHeader)
  }

  /** The records of the data below a "Predicted" header line at i, under
      the given report type; an unknown type fails (it has no skip count). */
  function HeaderRecords(lines: seq<string>, i: nat, subjectType: string): Result<seq<Record>, Failure>
    requires i < |lines|
  {
    var fields := FieldsOf(subjectType);
    var k := SubjectPos(fields);
    match SkipOf(subjectType)
    case None => Err(UnknownSubjectType(subjectType))
    case Some(skip) => DataRecords(fields, k, SubjectName(lines[i], k), DataLines(lines, i + skip))
  }

  /** One turn of the loop over the lines of a page, on the records: a
      header line adds the records of its block under the type in force,
      any other line adds none. */
  function RecordStepper(lines: seq<string>): (nat, seq<Record>) -> Result<seq<Record>, Failure> {
    (i: nat, records: seq<Record>) =>
      if i < |lines| && IsHeaderLine(lines, i) then
        match HeaderRecords(lines, i, TypeAfter(lines, i))
        case Err(e) => Err(e)
        case Ok(rs) => Ok(records + rs)
      else Ok(records)
  }

  /** The records of the first n lines of a page, or the failure that
      ended the page. */
  function ScanRecords(lines: seq<string>, n: nat): Result<seq<Record>, Failure> {
    Steps(RecordStepper(lines), [], n)
  }

  /** parse_page on the text of a page: its report type and its records. */
  function PageResult(text: string): Result<PageState, Failure> {
    var lines := Lines(text);
    match ScanRecords(lines, |lines|)
    case Err(e) => Err(e)
    case Ok(records) => Ok(PageState(TypeAfter(lines, |lines|), records))
  }

  /** The body of parse_page's loop on a "Predicted" header line: the
      fields and the skip count of the report type, the subject name from
      the header, then the data loop. */
  method HeaderData(lines: seq<string>, i: nat, subjectType: string) returns (r: Result<seq<Record>, Failure>)
    requires i < |lines|
    requires CleanLines(lines)
    ensures r == HeaderRecords(lines, i, subjectType)
  {
    var fields := FieldsOf(subjectType);
    var k := SubjectPos(fields);
    var name := SubjectName(lines[i], k);
    var skip := SkipOf(subjectType);
    if skip.None? {
      return Err(UnknownSubjectType(subjectType));
    }
    r := ScanData(lines, i + skip.value, LineParser(fields, k, name));
  }

  /** One more line of the page is one more turn of RecordStepper. */
  lemma NextLine(lines: seq<string>, i: nat, records: seq<Record>)
    requires i < |lines| && ScanRecords(lines, i) == Ok(records)
    ensures TypeAfter(lines, i + 1) ==
      if StartsWith(lines[i], SubjectTypeKeyword) then SubjectTypeOf(lines[i]) else TypeAfter(lines, i)
    ensures !IsHeaderLine(lines, i) ==> ScanRecords(lines, i + 1) == Ok(records)
    ensures IsHeaderLine(lines, i) ==>
      var h := HeaderRecords(lines, i, TypeAfter(lines, i));
      ScanRecords(lines, i + 1) == if h.Err? then Err(h.error) else Ok(records + h.value)
  {
  }

  /** A header line whose block fails ends the page with that failure. */
  lemma HeaderFails(lines: seq<string>, i: nat, records: seq<Record>)
    requires i < |lines| && ScanRecords(lines, i) == Ok(records)
    requires IsHeaderLine(lines, i) && HeaderRecords(lines, i, TypeAfter(lines, i)).Err?
    ensures ScanRecords(lines, |lines|) == Err(HeaderRecords(lines, i, TypeAfter(lines, i)).error)
  {
    NextLine(lines, i, records);
    StepsFailureSticks(RecordStepper(lines), [], i + 1, |lines|);
  }

  /** parse_page: the loop over the lines of a page, carrying the report
      type and the records. */
  method ParsePage(text: string) returns (r: Result<PageState, Failure>)
    ensures r == PageResult(text)
  {
    var lines := Lines(text);
    var subjectType := StandardType;
    var records: seq<Record> := [];
    for i := 0 to |lines|
      invariant subjectType == TypeAfter(lines, i)
      invariant ScanRecords(lines, i) == Ok(records)
    {
      NextLine(lines, i, records);
      var l := lines[i];
      if StartsWith(l, SubjectTypeKeyword) {
        subjectType := SubjectTypeOf(l);
        continue;
      }
      if StartsWith(l, PredictedHeader) {
        var data := HeaderData(lines, i, subjectType);
        if data.Err? {
          HeaderFails(lines, i, records);
          return Err(data.error);
        }
        records := records + data.value;
      }
    }
    return Ok(PageState(subjectType, records));
  }

  // ---------------------------------------------------------------------
  // What parse_page promises
  // ---------------------------------------------------------------------

  /** Without a "Subject Results" line among the first n lines the report
      type is "". */
  lemma {:induction false} TypeAfterDefault(lines: seq<string>, n: nat)
    requires n <= |lines|
    requires forall t :: 0 <= t < n ==> !StartsWith(lines[t], SubjectTypeKeyword)
    ensures TypeAfter(lines, n) == StandardType
  {
    if n > 0 {
      TypeAfterDefault(lines, n - 1);
    }
  }

  /** Otherwise it is the text after the keyword on the last such line. */
  lemma {:induction false} TypeAfterLast(lines: seq<string>, n: nat, j: nat)
    requires n <= |lines| && j < n && StartsWith(lines[j], SubjectTypeKeyword)
    requires forall t :: j < t < n ==> !StartsWith(lines[t], SubjectTypeKeyword)
    ensures TypeAfter(lines, n) == SubjectTypeOf(lines[j])
  {
    if j < n - 1 {
      TypeAfterLast(lines, n - 1, j);
    }
  }

  /** Lines without a "Predicted" header never fail and add no record. */
  lemma {:induction false} NoHeaderNoRecords(lines: seq<string>, n: nat)
    requires n <= |lines|
    requires forall t :: 0 <= t < n ==> !StartsWith(lines[t], PredictedHeader)
    ensures ScanRecords(lines, n) == Ok([])
  {
    if n > 0 {
      NoHeaderNoRecords(lines, n - 1);
      NextLine(lines, n - 1, []);
    }
  }

  /** A "Predicted" header line under a type without a skip count ends the
      page with UnknownSubjectType. */
  lemma UnknownTypeFails(lines: seq<string>, i: nat)
    requires i < |lines| && ScanRecords(lines, i).Ok? && IsHeaderLine(lines, i)
    requires FieldsOf(TypeAfter(lines, i)) == []
    ensures ScanRecords(lines, |lines|) == Err(UnknownSubjectType(TypeAfter(lines, i)))
  {
    NextLine(lines, i, ScanRecords(lines, i).value);
    StepsFailureSticks(RecordStepper(lines), [], i + 1, |lines|);
  }

  /** The records of a header block: one per data line, each the zip of the
      fields with the line's parts plus the block's subject name; or the
      first data line too short for the fields. */
  lemma HeaderRecordsPerLine(lines: seq<string>, i: nat, subjectType: string)
    requires i < |lines| && FieldsOf(subjectType) != []
    ensures var fields := FieldsOf(subjectType);
      var k := SubjectPos(fields);
      var data := DataLines(lines, i + SkipOf(subjectType).value);
      var h := HeaderRecords(lines, i, subjectType);
      && (h.Ok? <==> forall j :: 0 <= j < |data| ==> Spaces(data[j]) >= |fields| - 1)
      && (h.Ok? ==> |h.value| == |data|)
      && (h.Ok? ==> forall j :: 0 <= j < |data| ==> Ok(h.value[j]) == DataRecord(fields, k, SubjectName(lines[i], k), data[j]))
      && (h.Err? ==> exists j :: 0 <= j < |data| && h.error == ShortDataLine(data[j]) && Spaces(data[j]) < |fields| - 1)
  {
    var fields := FieldsOf(subjectType);
    var k := SubjectPos(fields);
    var data := DataLines(lines, i + SkipOf(subjectType).value);
    assert HeaderRecords(lines, i, subjectType) == DataRecords(fields, k, SubjectName(lines[i], k), data);
    DataRecordsPerLine(subjectType, SubjectName(lines[i], k), data);
  }

  /** The records of the data lines of a known report type: one per line,
      each the zip of the fields with the line's parts plus the subject
      name; or the first line too short for the fields. */
  lemma DataRecordsPerLine(subjectType: string, name: string, data: seq<string>)
    requires SkipOf(subjectType).Some?
    ensures var fields := FieldsOf(subjectType);
      var k := SubjectPos(fields);
      var h := DataRecords(fields, k, name, data);
      && (h.Ok? <==> forall j :: 0 <= j < |data| ==> Spaces(data[j]) >= |fields| - 1)
      && (h.Ok? ==> |h.value| == |data|)
      && (h.Ok? ==> forall j :: 0 <= j < |data| ==> Ok(h.value[j]) == DataRecord(fields, k, name, data[j]))
      && (h.Err? ==> exists j :: 0 <= j < |data| && h.error == ShortDataLine(data[j]) && Spaces(data[j]) < |fields| - 1)
  {
    var fields := FieldsOf(subjectType);
    var k := SubjectPos(fields);
    var f := LineParser(fields, k, name);
    MapResultPerElement(f, data);
    forall j | 0 <= j < |data| ensures f(data[j]).Err? <==> Spaces(data[j]) < |fields| - 1 {
      DataRecordFails(subjectType, name, data[j]);
    }
    if DataRecords(fields, k, name, data).Err? {
      var j :| 0 <= j < |data| && f(data[j]) == Err(DataRecords(fields, k, name, data).error)
               && forall t :: 0 <= t < j ==> f(data[t]).Ok?;
      assert f(data[j]) == Err(ShortDataLine(data[j]));
    }
  }

  /** Every record a header block adds names that block's subject. */
  lemma HeaderRecordsSubject(lines: seq<string>, i: nat, subjectType: string)
    requires i < |lines| && FieldsOf(subjectType) != [] && HeaderRecords(lines, i, subjectType).Ok?
    ensures forall r :: r in HeaderRecords(lines, i, subjectType).value ==>
              "subject" in r && r["subject"] == Some(SubjectName(lines[i], SubjectPos(FieldsOf(subjectType))))
  {
    HeaderRecordsPerLine(lines, i, subjectType);
  }

  /** A page fails only on an unknown report type or a short data line. */
  lemma {:induction false} ScanRecordsFailures(lines: seq<string>, n: nat)
    requires n <= |lines| && ScanRecords(lines, n).Err?
    ensures ScanRecords(lines, n).error.UnknownSubjectType? || ScanRecords(lines, n).error.ShortDataLine?
  {
    var m := n - 1;
    if ScanRecords(lines, m).Err? {
      ScanRecordsFailures(lines, m);
    } else {
      NextLine(lines, m, ScanRecords(lines, m).value);
      if IsHeaderLine(lines, m) && FieldsOf(TypeAfter(lines, m)) != [] {
        HeaderRecordsPerLine(lines, m, TypeAfter(lines, m));
      }
    }
  }

  // ---------------------------------------------------------------------
  // extract_results
  // ---------------------------------------------------------------------

  /** What the loop over the pages carries: the records so far and the
      report type of the last page with text (None before the first). */
  datatype DocState = DocState(records: seq<Record>, subjectType: Option<string>)

  /** One page: a page without text is skipped, any other is parsed and its
      records appended. */
  function PageTurner(pages: seq<string>): (nat, DocState) -> Result<DocState, Failure> {
    (i: nat, d: DocState) =>
      if i < |pages| && pages[i] != [] then
        match PageResult(pages[i])
        case Err(e) => Err(e)
        case Ok(st) => Ok(DocState(d.records + st.records, Some(st.subjectType)))
      else Ok(d)
  }

  /** The state after the first n pages. */
  function DocumentScan(pages: seq<string>, n: nat): Result<DocState, Failure> {
    Steps(PageTurner(pages), DocState([], None), n)
  }

  /** extract_results on the text of the pages ("" for a page without
      text): the frame of all records and the type of the last page with
      text; a document without text leaves the type unbound. */
  function ExtractOutcome(pages: seq<string>): Result<(Table, string), Failure> {
    match DocumentScan(pages, |pages|)
    case Err(e) => Err(e)
    case Ok(d) => if d.subjectType.None? then Err(NoTextPages) else Ok((Normalize(d.records), d.subjectType.value))
  }

  /** One more page is one more turn of PageTurner. */
  lemma NextPage(pages: seq<string>, i: nat, d: DocState)
    requires i < |pages| && DocumentScan(pages, i) == Ok(d)
    ensures pages[i] == [] ==> DocumentScan(pages, i + 1) == Ok(d)
    ensures pages[i] != [] && PageResult(pages[i]).Err? ==> DocumentScan(pages, i + 1) == Err(PageResult(pages[i]).error)
    ensures pages[i] != [] && PageResult(pages[i]).Ok? ==>
      DocumentScan(pages, i + 1) == Ok(DocState(d.records + PageResult(pages[i]).value.records,
                                                Some(PageResult(pages[i]).value.subjectType)))
  {
  }

  /** extract_results: the loop over the pages. */
  method ExtractResults(pages: seq<string>) returns (r: Result<(Table, string), Failure>)
    ensures r == ExtractOutcome(pages)
  {
    var records: seq<Record> := [];
    var subjectType: Option<string> := None;
    for i := 0 to |pages|
      invariant DocumentScan(pages, i) == Ok(DocState(records, subjectType))
    {
      NextPage(pages, i, DocState(records, subjectType));
      var text := pages[i];
      if text == [] {
        continue;
      }
      var page := ParsePage(text);
      if page.Err? {
        StepsFailureSticks(PageTurner(pages), DocState([], None), i + 1, |pages|);
        return Err(page.error);
      }
      records := records + page.value.records;
      subjectType := Some(page.value.subjectType);
    }
    if subjectType.None? {
      return Err(NoTextPages);
    }
    return Ok((Normalize(records), subjectType.value));
  }

  /** Once a page with text has been read, the type is set. */
  lemma DocumentScanSet(pages: seq<string>, n: nat, j: nat)
    requires n <= |pages| && DocumentScan(pages, n).Ok?
    requires j < n && pages[j] != []
    ensures DocumentScan(pages, n).value.subjectType.Some?
  {
    StepsReach(PageTurner(pages), DocState([], None), n, j, (d: DocState) => d.subjectType.Some?);
  }

  /** The type is that of the last page with text. */
  lemma {:induction false} DocumentScanLast(pages: seq<string>, n: nat, j: nat)
    requires n <= |pages| && DocumentScan(pages, n).Ok?
    requires j < n && pages[j] != []
    requires forall t :: j < t < n ==> pages[t] == []
    ensures PageResult(pages[j]).Ok?
    ensures DocumentScan(pages, n).value.subjectType == Some(PageResult(pages[j]).value.subjectType)
  {
    StepsPrefixOk(PageTurner(pages), DocState([], None), n);
    NextPage(pages, n - 1, DocumentScan(pages, n - 1).value);
    if j < n - 1 {
      DocumentScanLast(pages, n - 1, j);
    }
  }

  /** A document fails only on an unknown report type or a short data
      line on some page. */
  lemma {:induction false} DocumentScanFailures(pages: seq<string>, n: nat)
    requires n <= |pages| && DocumentScan(pages, n).Err?
    ensures DocumentScan(pages, n).error.UnknownSubjectType? || DocumentScan(pages, n).error.ShortDataLine?
  {
    var m := n - 1;
    if DocumentScan(pages, m).Err? {
      DocumentScanFailures(pages, m);
    } else {
      NextPage(pages, m, DocumentScan(pages, m).value);
      if pages[m] != [] && PageResult(pages[m]).Err? {
        ScanRecordsFailures(Lines(pages[m]), |Lines(pages[m])|);
      }
    }
  }

  /** extract_results fails for want of a report type exactly when no page
      has text. */
  lemma NoTextPagesExactly(pages: seq<string>)
    ensures ExtractOutcome(pages) == Err(NoTextPages) <==> forall t :: 0 <= t < |pages| ==> pages[t] == []
  {
    if forall t :: 0 <= t < |pages| ==> pages[t] == [] {
      AllBlankScan(pages, |pages|);
    } else if DocumentScan(pages, |pages|).Err? {
      DocumentScanFailures(pages, |pages|);
    } else {
      var j :| 0 <= j < |pages| && pages[j] != [];
      DocumentScanSet(pages, |pages|, j);
    }
  }

  /** Pages without text leave the state where it started. */
  lemma {:induction false} AllBlankScan(pages: seq<string>, n: nat)
    requires n <= |pages| && forall t :: 0 <= t < n ==> pages[t] == []
    ensures DocumentScan(pages, n) == Ok(DocState([], None))
  {
    if n > 0 {
      AllBlankScan(pages, n - 1);
      NextPage(pages, n - 1, DocState([], None));
    }
  }

  // ---------------------------------------------------------------------
  // reformat_results
  // ---------------------------------------------------------------------

  /** The new values of one row. */
  datatype NewCells = NewCells(session: Option<string>, candidate: Option<string>,
                               subjectName: Option<string>, level: Option<string>,
                               sessionNumber: Option<string>, personalCode: Option<string>)

  /** The new values of one row: candidate split at its first " - ", the
      subject at its level token, and the session (the part before the
      " - ") at its trailing parenthesised code. */
  function Reformatted(r: Record): NewCells {
    var (session, candidate) := SplitDash(Cell(r, "candidate"));
    var (name, level) := ExtractLevel(Cell(r, "subject"));
    var (number, code) := ExtractCode(session);
    NewCells(session, candidate, name, level, number, code)
  }

  /** The columns reformat_results writes, with their values. */
  function NewColumns(c: NewCells): Record {
    map["session" := c.session, "candidate" := c.candidate, "subject_" := c.subjectName, "sub" := c.level,
        "session_number" := c.sessionNumber, "personal_code" := c.personalCode]
  }

  const ReformatColumns: set<string> := {"session", "candidate", "subject_", "sub", "session_number", "personal_code"}

  /** reformat_results on one row: the new columns over the old row. */
  function ReformatRecord(r: Record): Record {
    r + NewColumns(Reformatted(r))
  }

  /** Writing the new columns over a row: every other column is kept, and
      each new column holds its value. */
  lemma NewColumnsOver(r: Record, c: NewCells)
    ensures var out := r + NewColumns(c);
      && out.Keys == r.Keys + ReformatColumns
      && (forall k :: k in r && k !in ReformatColumns ==> out[k] == r[k])
      && out["session"] == c.session && out["candidate"] == c.candidate
      && out["subject_"] == c.subjectName && out["sub"] == c.level
      && out["session_number"] == c.sessionNumber && out["personal_code"] == c.personalCode
  {
    NewColumnsKeys(c);
    NewColumnsValues(c);
  }

  /** The new columns are exactly the six reformat_results writes. */
  lemma NewColumnsKeys(c: NewCells)
    ensures NewColumns(c).Keys == ReformatColumns
  {
  }

  /** Each new column holds its value. */
  lemma NewColumnsValues(c: NewCells)
    ensures var m := NewColumns(c);
      && m["session"] == c.session && m["candidate"] == c.candidate
      && m["subject_"] == c.subjectName && m["sub"] == c.level
      && m["session_number"] == c.sessionNumber && m["personal_code"] == c.personalCode
  {
  }

  /** reformat_results on one row keeps every other column and adds the six
      it writes. */
  lemma ReformatRecordKeys(r: Record)
    ensures ReformatRecord(r).Keys == r.Keys + ReformatColumns
    ensures forall k :: k in r && k !in ReformatColumns ==> ReformatRecord(r)[k] == r[k]
  {
    NewColumnsOver(r, Reformatted(r));
  }

  /** The subject column is not among the six written: it is kept as it was. */
  lemma ReformatRecordKeepsSubject(r: Record)
    ensures Cell(ReformatRecord(r), "subject") == Cell(r, "subject")
  {
    NewColumnsKeys(Reformatted(r));
    assert "subject" !in ReformatColumns;
  }

  /** session and candidate are the two sides of the first " - " of the old
      candidate (session the whole of it without one); session_number and
      personal_code are the two parts of the session, or both null. */
  lemma ReformatRecordCandidate(r: Record)
    ensures var out := ReformatRecord(r);
      && "session" in out && "candidate" in out && "session_number" in out && "personal_code" in out
      && (Cell(r, "candidate").None? ==> out["session"].None? && out["candidate"].None?)
      && (Cell(r, "candidate").Some? && out["candidate"].Some? ==>
            out["session"].Some? && out["session"].value + " - " + out["candidate"].value == Cell(r, "candidate").value)
      && (Cell(r, "candidate").Some? && out["candidate"].None? ==> out["session"] == Cell(r, "candidate"))
      && (out["personal_code"].Some? <==> out["session_number"].Some?)
      && (out["personal_code"].Some? ==>
            (out["session"].Some?
             && SessionAndCode(out["session"].value) == Some((out["session_number"].value, out["personal_code"].value))))
  {
    NewColumnsOver(r, Reformatted(r));
  }

  /** subject_ and sub are the subject cut at its first whole-word level
      token, or both null when it has none. */
  lemma ReformatRecordLevel(r: Record)
    ensures var out := ReformatRecord(r);
      && "subject_" in out && "sub" in out
      && (out["subject_"].Some? <==> out["sub"].Some?)
      && (out["sub"].Some? ==>
            Cell(r, "subject").Some? && Cell(r, "subject").value == out["subject_"].value + out["sub"].value
            && LevelTokenAt(Cell(r, "subject").value, |out["subject_"].value|))
      && (Cell(r, "subject").Some? && out["sub"].None? ==> forall q: nat :: !LevelTokenAt(Cell(r, "subject").value, q))
  {
    NewColumnsOver(r, Reformatted(r));
  }

  /** reformat_results: the new columns, filled row by row. It fails on a
      missing candidate column, on a candidate column where no value
      contains " - " (whose split gives one column where two are assigned),
      and on a missing subject column, in the order the source reads them. */
  function ReformatResults(t: Table): (r: Result<Table, Failure>)
    ensures r.Ok? <==> "candidate" in t.columns && "subject" in t.columns && SomeCellContains(t.rows, "candidate", " - ")
    ensures r.Err? && r.error.MissingColumn? ==>
              (r.error.column == "candidate" || r.error.column == "subject") && r.error.column !in t.columns
    ensures r.Err? && r.error.SplitWidth? ==> r.error.column == "candidate" && !SomeCellContains(t.rows, "candidate", " - ")
    ensures r.Err? ==> r.error.MissingColumn? || r.error.SplitWidth?
    ensures r.Ok? ==> r.value.columns == t.columns + ReformatColumns
    ensures r.Ok? ==> |r.value.rows| == |t.rows|
                      && forall i :: 0 <= i < |t.rows| ==> r.value.rows[i] == ReformatRecord(t.rows[i])
    ensures r.Ok? && t.WellFormed() ==> r.value.WellFormed()
  {
    if "candidate" !in t.columns then Err(MissingColumn("candidate"))
    else if !SomeCellContains(t.rows, "candidate", " - ") then Err(SplitWidth("candidate"))
    else if "subject" !in t.columns then Err(MissingColumn("subject"))
    else
      ReformatRowsKeys(t.rows);
      Ok(Table(t.columns + ReformatColumns, ReformatRows(t.rows)))
  }

  /** reformat_results row by row. */
  function ReformatRows(rows: seq<Record>): (out: seq<Record>)
    ensures |out| == |rows| && forall i :: 0 <= i < |rows| ==> out[i] == ReformatRecord(rows[i])
  {
    seq(|rows|, i requires 0 <= i < |rows| => ReformatRecord(rows[i]))
  }

  /** Every reformatted row has the old columns and the six new ones. */
  lemma ReformatRowsKeys(rows: seq<Record>)
    ensures forall i :: 0 <= i < |rows| ==> ReformatRows(rows)[i].Keys == rows[i].Keys + ReformatColumns
  {
    forall i | 0 <= i < |rows| ensures ReformatRows(rows)[i].Keys == rows[i].Keys + ReformatColumns {
      ReformatRecordKeys(rows[i]);
    }
  }

  /** A report whose pages hold no data line yields an empty frame, which
      has no candidate column: reformatting it fails. */
  lemma EmptyReportFails(pages: seq<string>, t: Table, subjectType: string)
    requires ExtractOutcome(pages) == Ok((t, subjectType)) && t.rows == []
    ensures ReformatResults(t) == Err(MissingColumn("candidate"))
  {
    var d := DocumentScan(pages, |pages|).value;
    assert t == Normalize(d.records);
  }
}
