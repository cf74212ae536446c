/** The student-level "Results summary" report: one page per candidate, a
    block of page-level fields and a list of "<grade> <session> - <subject>"
    lines between the "Grade" header and the "EE/TOK points:" line
    (ib_result_handler_summary.py, parsing and reformatting). */
module SummaryHandler {
  import opened Wrappers
  import opened Text
  import opened Patterns
  import opened Tables

  /** dict_fields_to_extract: record key and the label searched for in the
      page text, in insertion order. */
  const FieldMap: seq<(string, string)> := [
    ("date_printed", "Date printed:"),
    ("candidate", "Candidate"),
    ("name", "Name"),
    ("category", "Category"),
    ("birth_date", "Birth Date"),
    ("pt_ee_tok", "EE/TOK points:"),
    ("pt_total", "Total Points:"),
    ("result", "Result:"),
    ("grade", "Grade"),
    ("subject", "Subject")
  ]

  /** The keys of the field map. */
  const FieldKeys: set<string> := set j | 0 <= j < |FieldMap| :: FieldMap[j].0

  const GradeHeader := "Grade"
  const EeTokHeader := "EE/TOK points:"

  // ---------------------------------------------------------------------
  // parse_page
  // ---------------------------------------------------------------------

  /** The record built by looking up each label of fields in text, in order;
      a key met twice keeps its last value. */
  function TopFields(fields: seq<(string, string)>, text: string): Record
    decreases |fields|
  {
    if fields == [] then map[]
    else
      var n := |fields| - 1;
      TopFields(fields[..n], text)[fields[n].0 := FieldValue(fields[n].1, text)]
  }

  /** A key that no later entry repeats holds the value looked up for its label. */
  lemma {:induction false} TopFieldsAt(fields: seq<(string, string)>, text: string, j: nat)
    requires j < |fields|
    requires forall k :: j < k < |fields| ==> fields[k].0 != fields[j].0
    ensures fields[j].0 in TopFields(fields, text)
    ensures TopFields(fields, text)[fields[j].0] == FieldValue(fields[j].1, text)
  {
    var n := |fields| - 1;
    if j < n {
      TopFieldsAt(fields[..n], text, j);
    }
  }

  /** The record has exactly the keys of the field list. */
  lemma {:induction false} TopFieldsKeys(fields: seq<(string, string)>, text: string)
    ensures TopFields(fields, text).Keys == set j | 0 <= j < |fields| :: fields[j].0
  {
    if fields != [] {
      var n := |fields| - 1;
      TopFieldsKeys(fields[..n], text);
      var before := set j | 0 <= j < n :: fields[..n][j].0;
      assert forall j :: 0 <= j < n ==> fields[..n][j] == fields[j];
      assert (set j | 0 <= j < |fields| :: fields[j].0) == before + {fields[n].0};
    }
  }

  /** The page-level record: every key of the field map, each holding the
      value found after its label, or None. */
  function TopRecord(text: string): (r: Record)
    ensures r.Keys == FieldKeys
  {
    TopFieldsKeys(FieldMap, text);
    TopFields(FieldMap, text)
  }

  /** Each page-level field holds the value found after its own label. */
  lemma TopRecordValues(text: string, j: nat)
    requires j < |FieldMap|
    ensures TopRecord(text)[FieldMap[j].0] == FieldValue(FieldMap[j].1, text)
  {
    assert forall k :: j < k < |FieldMap| ==> FieldMap[k].0 != FieldMap[j].0;
    TopFieldsAt(FieldMap, text, j);
  }

  /** The record of one subject line: a copy of the page-level record with
      grade and subject replaced. */
  function SubjectRecord(top: Record, grade: string, subject: string): Record {
    top["grade" := Some(grade)]["subject" := Some(subject)]
  }

  /** The (grade, subject) pair of a line that holds a grade token
      followed by whitespace and more text. */
  function Entry(line: string): Option<(string, string)> {
    GradeAndSubject(Strip(line))
  }

  /** The entries of the lines of the block that have one; other lines are
      skipped. */
  function BlockEntries(block: seq<string>): (e: seq<(string, string)>)
    ensures |e| <= |block|
  {
    Collect(Entry, block)
  }

  /** Every entry is the grade and subject of one line of the block. */
  lemma BlockEntriesFromLines(block: seq<string>, i: nat)
    requires i < |BlockEntries(block)|
    ensures exists j :: 0 <= j < |block| && GradeAndSubject(Strip(block[j])) == Some(BlockEntries(block)[i])
  {
    CollectFrom(Entry, block, i);
  }

  /** The records of a list of entries: the page-level record with each
      entry filled in, in order. */
  function RecordsOf(top: Record, entries: seq<(string, string)>): seq<Record> {
    if entries == [] then []
    else
      var n := |entries| - 1;
      RecordsOf(top, entries[..n]) + [SubjectRecord(top, entries[n].0, entries[n].1)]
  }

  /** The records the scan below the "Grade" line appends, one per entry. */
  function BlockRecords(top: Record, block: seq<string>): seq<Record> {
    RecordsOf(top, BlockEntries(block))
  }

  /** The records are the page-level record with the entries filled in, in
      the order of the lines. */
  lemma BlockRecordsAreEntries(top: Record, block: seq<string>)
    ensures |BlockRecords(top, block)| == |BlockEntries(block)|
    ensures forall i :: 0 <= i < |BlockEntries(block)| ==>
      BlockRecords(top, block)[i] == SubjectRecord(top, BlockEntries(block)[i].0, BlockEntries(block)[i].1)
  {
    RecordsOfEntries(top, BlockEntries(block));
  }

  /** One subject record per entry, each built from that entry. */
  lemma {:induction false} RecordsOfEntries(top: Record, entries: seq<(string, string)>)
    ensures |RecordsOf(top, entries)| == |entries|
    ensures forall i :: 0 <= i < |entries| ==> RecordsOf(top, entries)[i] == SubjectRecord(top, entries[i].0, entries[i].1)
  {
    if entries != [] {
      var n := |entries| - 1;
      RecordsOfEntries(top, entries[..n]);
    }
  }

  /** A subject record keeps every page-level key and value but grade and
      subject, which hold the line's two parts. */
  lemma SubjectRecordShape(top: Record, g: string, s: string)
    ensures SubjectRecord(top, g, s).Keys == top.Keys + {"grade", "subject"}
    ensures forall k :: k in top && k != "grade" && k != "subject" ==> SubjectRecord(top, g, s)[k] == top[k]
    ensures SubjectRecord(top, g, s)["grade"] == Some(g) && SubjectRecord(top, g, s)["subject"] == Some(s)
  {
  }

  /** The lines of a page that parse_page scans: none unless
      `Grade\s*(.+)` matches somewhere and a line starts with "Grade";
      otherwise the lines after the first such line, up to the first line
      that starts with "EE/TOK points:" or the end of the page. */
  function PageBlock(text: string): (block: seq<string>)
    ensures forall j :: 0 <= j < |block| ==> block[j] in Lines(text)
  {
    var lines := Lines(text);
    if FieldValue(GradeHeader, text).None? then []
    else
      var g := FirstLineStarting(lines, 0, GradeHeader);
      if g == |lines| then [] else BlockAfter(lines, g)
  }

  /** The lines after line g up to the first that starts with
      "EE/TOK points:", or to the end. */
  function BlockAfter(lines: seq<string>, g: nat): (block: seq<string>)
    requires g < |lines|
    ensures forall j :: 0 <= j < |block| ==> block[j] in lines
  {
    var block := lines[g + 1..FirstLineStarting(lines, g + 1, EeTokHeader)];
    assert forall j :: 0 <= j < |block| ==> block[j] == lines[g + 1 + j];
    block
  }

  /** The records of one page of text: one per line of its block that has
      a grade and a subject. */
  function PageRecords(text: string): seq<Record> {
    BlockRecords(TopRecord(text), PageBlock(text))
  }

  /** The field loop of parse_page: each key of the field map set to the
      value looked up for its label. */
  method CollectTopFields(text: string) returns (top: Record)
    ensures top == TopRecord(text)
  {
    top := map[];
    for j := 0 to |FieldMap|
      invariant top == TopFields(FieldMap[..j], text)
    {
      assert FieldMap[..j + 1][..j] == FieldMap[..j];
      top := top[FieldMap[j].0 := FieldValue(FieldMap[j].1, text)];
    }
    assert FieldMap[..|FieldMap|] == FieldMap;
  }

  /** The scan of parse_page below the "Grade" line: from line `from` on,
      one record per line with a grade and a subject, up to the first line
      that starts with "EE/TOK points:" (or is blank, which no stripped
      non-blank line is). */
  method ScanBlock(lines: seq<string>, from: nat, top: Record) returns (records: seq<Record>)
    requires from <= |lines| && CleanLines(lines)
    ensures records == BlockRecords(top, lines[from..FirstLineStarting(lines, from, EeTokHeader)])
  {
    records := [];
    var k := from;
    while k < |lines|
      invariant from <= k <= |lines|
      invariant forall j :: from <= j < k ==> !StartsWith(lines[j], EeTokHeader)
      invariant records == BlockRecords(top, lines[from..k])
    {
      var line := lines[k];
      CleanLineStripped(lines, k);
      var stripped := Strip(line);
      if StartsWith(line, EeTokHeader) || stripped == [] {
        break;
      }
      var m := GradeAndSubject(stripped);
      BlockRecordsNext(top, lines, from, k, m);
      if m.Some? {
        records := records + [SubjectRecord(top, m.value.0, m.value.1)];
      }
      k := k + 1;
    }
    FirstLineStartingAt(lines, from, EeTokHeader, k);
  }

  /** A line of clean lines is its own strip, and not blank. */
  lemma CleanLineStripped(lines: seq<string>, k: nat)
    requires CleanLines(lines) && k < |lines|
    ensures lines[k] != [] && Strip(lines[k]) == lines[k]
  {
    StripStripped(lines[k]);
  }

  /** One more line of the block adds the record of its entry, if any. */
  lemma BlockRecordsNext(top: Record, lines: seq<string>, from: nat, k: nat, m: Option<(string, string)>)
    requires from <= k < |lines| && m == Entry(lines[k])
    ensures m.None? ==> BlockRecords(top, lines[from..k + 1]) == BlockRecords(top, lines[from..k])
    ensures m.Some? ==> BlockRecords(top, lines[from..k + 1])
                        == BlockRecords(top, lines[from..k]) + [SubjectRecord(top, m.value.0, m.value.1)]
  {
    assert lines[from..k + 1] == lines[from..k] + [lines[k]];
    CollectNext(Entry, lines[from..k], lines[k]);
    var e := BlockEntries(lines[from..k]);
    if m.Some? {
      assert (e + [m.value])[..|e|] == e;
    }
  }

  /** The search of parse_page for the first line that starts with "Grade"
      (the length of lines when there is none). */
  method FindGradeLine(lines: seq<string>) returns (i: nat)
    ensures i == FirstLineStarting(lines, 0, GradeHeader)
  {
    i := 0;
    while i < |lines|
      invariant i <= |lines|
      invariant forall j :: 0 <= j < i ==> !StartsWith(lines[j], GradeHeader)
    {
      if StartsWith(lines[i], GradeHeader) {
        break;
      }
      i := i + 1;
    }
  }

  /** parse_page: the field loop, then, when `Grade\s*(.+)` matches, the
      search for the first line that starts with "Grade" and the scan of the
      lines below it. */
  method ParsePage(text: string) returns (records: seq<Record>)
    ensures records == PageRecords(text)
  {
    var lines := Lines(text);
    var top := CollectTopFields(text);
    records := [];
    if FieldValue(GradeHeader, text).Some? {
      var i := FindGradeLine(lines);
      if i < |lines| {
        records := ScanBlock(lines, i + 1, top);
      }
    }
  }

  /** A record scanned from a block keeps every page-level key and value
      but grade and subject, which hold the two parts of one of its lines. */
  lemma BlockRecordShape(top: Record, block: seq<string>, i: nat)
    requires i < |BlockRecords(top, block)|
    ensures BlockRecords(top, block)[i].Keys == top.Keys + {"grade", "subject"}
    ensures forall k :: k in top && k != "grade" && k != "subject" ==> BlockRecords(top, block)[i][k] == top[k]
    ensures exists j, g, s :: 0 <= j < |block| && GradeAndSubject(Strip(block[j])) == Some((g, s))
              && BlockRecords(top, block)[i]["grade"] == Some(g) && BlockRecords(top, block)[i]["subject"] == Some(s)
  {
    BlockRecordsAreEntries(top, block);
    var (g, s) := BlockEntries(block)[i];
    SubjectRecordShape(top, g, s);
    BlockEntriesFromLines(block, i);
  }

  /** Every record of a page carries exactly the keys of the field map. */
  lemma PageRecordKeys(text: string, i: nat)
    requires i < |PageRecords(text)|
    ensures PageRecords(text)[i].Keys == FieldKeys
  {
    BlockRecordShape(TopRecord(text), PageBlock(text), i);
    GradeAndSubjectKeys();
  }

  /** grade and subject are keys of the field map. */
  lemma GradeAndSubjectKeys()
    ensures "grade" in FieldKeys && "subject" in FieldKeys
  {
    assert "grade" == FieldMap[8].0 && "subject" == FieldMap[9].0;
  }

  /** The eight page-level keys are neither grade nor subject. */
  lemma PageLevelKey(j: nat)
    requires j < 8
    ensures FieldMap[j].0 != "grade" && FieldMap[j].0 != "subject"
  {
  }

  /** Every record of a page holds, in each of the eight page-level fields,
      the value found after that field's label anywhere on the page. */
  lemma PageRecordTopValues(text: string, i: nat)
    requires i < |PageRecords(text)|
    ensures forall j :: 0 <= j < 8 ==> Cell(PageRecords(text)[i], FieldMap[j].0) == FieldValue(FieldMap[j].1, text)
  {
    var top := TopRecord(text);
    BlockRecordsAreEntries(top, PageBlock(text));
    var (g, s) := BlockEntries(PageBlock(text))[i];
    SubjectRecordShape(top, g, s);
    forall j | 0 <= j < 8 ensures Cell(PageRecords(text)[i], FieldMap[j].0) == FieldValue(FieldMap[j].1, text) {
      TopRecordValues(text, j);
      PageLevelKey(j);
    }
  }

  /** The grade and subject of every record of a page are the two parts of
      one of the page's lines. */
  lemma PageRecordFromLine(text: string, i: nat)
    requires i < |PageRecords(text)|
    ensures exists l, g, s :: l in Lines(text) && GradeAndSubject(Strip(l)) == Some((g, s))
              && Cell(PageRecords(text)[i], "grade") == Some(g) && Cell(PageRecords(text)[i], "subject") == Some(s)
  {
    var block := PageBlock(text);
    var top := TopRecord(text);
    BlockRecordShape(top, block, i);
    var k, gr, sj :| 0 <= k < |block| && GradeAndSubject(Strip(block[k])) == Some((gr, sj))
              && BlockRecords(top, block)[i]["grade"] == Some(gr) && BlockRecords(top, block)[i]["subject"] == Some(sj);
  }

  /** With no line starting "Grade" a page yields no record. */
  lemma NoGradeLineNoRecords(text: string)
    requires forall l :: l in Lines(text) ==> !StartsWith(l, GradeHeader)
    ensures PageRecords(text) == []
  {
    var lines := Lines(text);
    assert forall j :: 0 <= j < |lines| ==> !StartsWith(lines[j], GradeHeader);
  }

  /** When every line of the block has a grade token and a subject, there is
      one record per line, in order, with grade the first token and subject
      the text after the whitespace that follows it. */
  lemma BlockEntriesEveryLine(block: seq<string>)
    requires forall j :: 0 <= j < |block| ==> GradeAndSubject(Strip(block[j])).Some?
    ensures |BlockEntries(block)| == |block|
    ensures forall j :: 0 <= j < |block| ==> Some(BlockEntries(block)[j]) == GradeAndSubject(Strip(block[j]))
  {
    CollectAll(Entry, block);
  }

  /** A line made of one token yields no entry. */
  lemma {:induction false} SingleTokenLineSkipped(block: seq<string>, line: string)
    requires forall t :: 0 <= t < |line| ==> !IsSpace(line[t])
    ensures BlockEntries(block + [line]) == BlockEntries(block)
  {
    StripStripped(line);
    assert (block + [line])[..|block|] == block;
  }

  // ---------------------------------------------------------------------
  // extract_results
  // ---------------------------------------------------------------------

  /** The records of all pages in order; a page without text adds none. */
  function DocumentRecords(pages: seq<string>): seq<Record>
    decreases |pages|
  {
    if pages == [] then []
    else
      var n := |pages| - 1;
      DocumentRecords(pages[..n]) + (if pages[n] == [] then [] else PageRecords(pages[n]))
  }

  /** extract_results with the PDF given as the text of its pages ("" for a
      page without text). */
  method ExtractResults(pages: seq<string>) returns (t: Table)
    ensures t == Normalize(DocumentRecords(pages))
    ensures t.WellFormed()
  {
    var records: seq<Record> := [];
    for i := 0 to |pages|
      invariant records == DocumentRecords(pages[..i])
    {
      assert pages[..i + 1][..i] == pages[..i];
      var text := pages[i];
      if text == [] {
        continue;
      }
      var rec := ParsePage(text);
      records := records + rec;
    }
    assert pages[..|pages|] == pages;
    t := Normalize(records);
  }

  // ---------------------------------------------------------------------
  // reformat_results
  // ---------------------------------------------------------------------

  /** The values reformat_results writes into one row. */
  datatype NewCells = NewCells(
    subject: Option<string>, session: Option<string>, candidate: Option<string>,
    subjectName: Option<string>, level: Option<string>,
    sessionNumber: Option<string>, personalCode: Option<string>,
    fg: Option<string>, eeSub: Option<string>, eeFg: Option<string>, tkSub: Option<string>, tkFg: Option<string>)

  /** ee_fg / tk_fg: the grade where the subject contains the word, in any
      case; null where it does not or the subject is null. */
  function WordGrade(subject: Option<string>, word: string, grade: Option<string>): Option<string> {
    if subject.Some? && ContainsIgnoreCase(subject.value, word) then grade else None
  }

  /** The subject column after the split: the text after the first " - ",
      null without one. */
  function SubjectAfterDash(subject: Option<string>): (r: Option<string>)
    ensures r.Some? <==> subject.Some? && Contains(subject.value, " - ")
    ensures r.Some? ==>
      var n := |subject.value| - |r.value| - 3;
      && 0 <= n && subject.value[n..] == " - " + r.value
      && forall j :: 0 <= j < n ==> !OccursAt(subject.value, " - ", j)
  {
    var (before, after) := SplitDash(subject);
    assert after.Some? ==> subject.value[|before.value|..] == " - " + after.value by {
      if after.Some? {
        var s := subject.value;
        assert s == before.value + " - " + after.value;
      }
    }
    after
  }

  /** subject_ and sub: the stripped name and the stripped level part, both
      null without a whole-word SL/HL/EE/TK. */
  function LevelColumns(subject: Option<string>): (r: (Option<string>, Option<string>))
    ensures r.0.Some? <==> r.1.Some?
    ensures r.1.Some? ==> subject.Some? && |r.1.value| >= 2 && r.1.value[..2] in LevelTokens
    ensures r.1.Some? ==> IsStripped(r.0.value) && IsStripped(r.1.value)
    ensures subject.Some? && r.1.None? ==> forall q: nat :: !LevelTokenAt(subject.value, q)
  {
    var (name, level) := ExtractLevel(subject);
    assert level.Some? ==> |Strip(level.value)| >= 2 && Strip(level.value)[..2] in LevelTokens by {
      if level.Some? {
        assert subject.value[|name.value|..|name.value| + 2] == level.value[..2];
        LevelPrefixKept(level.value);
      }
    }
    (StripCell(name), StripCell(level))
  }

  /** ee_sub and ee_fg (or tk_sub and tk_fg): the text before `\s<a>+<b>\b`
      and the grade where the subject contains the word. */
  function WordColumns(subject: Option<string>, a: char, b: char, grade: Option<string>): (r: (Option<string>, Option<string>))
    requires 'a' <= a <= 'z' && 'a' <= b <= 'z'
    ensures r.0.Some? ==> subject.Some? && DoubledPrefix(subject.value, a, b) == r.0
    ensures r.0.Some? ==> r.1 == grade
    ensures r.1 == WordGrade(subject, [a, b], grade)
  {
    var sub := ExtractDoubled(subject, a, b);
    assert sub.Some? ==> ContainsIgnoreCase(subject.value, [a, b]) by {
      if sub.Some? { DoubledImpliesContains(subject.value, a, b); }
    }
    (sub, WordGrade(subject, [a, b], grade))
  }

  /** The new values of one row, from its subject, candidate and grade. */
  function Reformatted(r: Record): NewCells {
    var subject := SubjectAfterDash(Cell(r, "subject"));
    var (session, candidate) := SplitDash(Cell(r, "candidate"));
    var (name, level) := LevelColumns(subject);
    var (number, code) := ExtractCode(candidate);
    var grade := Cell(r, "grade");
    var (eeSub, eeFg) := WordColumns(subject, 'e', 'e', grade);
    var (tkSub, tkFg) := WordColumns(subject, 't', 'k', grade);
    NewCells(subject, session, candidate, name, level, number, code, grade, eeSub, eeFg, tkSub, tkFg)
  }

  /** The columns reformat_results writes, with their values. */
  function NewColumns(c: NewCells): Record {
    map["session" := c.session, "subject" := c.subject, "candidate" := c.candidate,
        "subject_" := c.subjectName, "sub" := c.level,
        "session_number" := c.sessionNumber, "personal_code" := c.personalCode,
        "uni_pg" := Some(""), "PG" := Some(""), "FG" := c.fg, "scaled_total" := Some(""),
        "ee_sub" := c.eeSub, "ee_fg" := c.eeFg, "ee_pg" := Some(""),
        "tk_sub" := c.tkSub, "tk_fg" := c.tkFg, "tk_pg" := Some("")]
  }

  const ReformatColumns: set<string> := {"session", "subject", "candidate", "subject_", "sub",
                                         "session_number", "personal_code", "uni_pg", "PG", "FG", "scaled_total",
                                         "ee_sub", "ee_fg", "ee_pg", "tk_sub", "tk_fg", "tk_pg"}

  /** reformat_results on one row: the new columns over the old row. */
  function ReformatRecord(r: Record): Record {
    r + NewColumns(Reformatted(r))
  }

  /** Writing the new columns over a row: every other column is kept, and
      each new column holds its value. */
  lemma NewColumnsOver(r: Record, c: NewCells)
    ensures var out := r + NewColumns(c);
      && out.Keys == r.Keys + ReformatColumns
      && (forall k :: k in r && k !in ReformatColumns ==> out[k] == r[k])
      && out["subject"] == c.subject && out["session"] == c.session && out["candidate"] == c.candidate
      && out["subject_"] == c.subjectName && out["sub"] == c.level
      && out["session_number"] == c.sessionNumber && out["personal_code"] == c.personalCode
      && out["FG"] == c.fg
      && out["ee_sub"] == c.eeSub && out["ee_fg"] == c.eeFg && out["tk_sub"] == c.tkSub && out["tk_fg"] == c.tkFg
      && out["uni_pg"] == out["PG"] == out["scaled_total"] == out["ee_pg"] == out["tk_pg"] == Some("")
  {
    NewColumnsValues(c);
  }

  /** The new columns hold their values. */
  lemma NewColumnsValues(c: NewCells)
    ensures var m := NewColumns(c);
      && m.Keys == ReformatColumns
      && m["subject"] == c.subject && m["session"] == c.session && m["candidate"] == c.candidate
      && m["subject_"] == c.subjectName && m["sub"] == c.level
      && m["session_number"] == c.sessionNumber && m["personal_code"] == c.personalCode
      && m["FG"] == c.fg
      && m["ee_sub"] == c.eeSub && m["ee_fg"] == c.eeFg && m["tk_sub"] == c.tkSub && m["tk_fg"] == c.tkFg
      && m["uni_pg"] == m["PG"] == m["scaled_total"] == m["ee_pg"] == m["tk_pg"] == Some("")
  {
    NewColumnsKeys(c);
    NewColumnsNames(c);
    NewColumnsGrades(c);
  }

  /** The new columns are exactly the seventeen reformat_results writes. */
  lemma NewColumnsKeys(c: NewCells)
    ensures NewColumns(c).Keys == ReformatColumns
  {
  }

  /** The split, level and session columns hold the parsed cells. */
  lemma NewColumnsNames(c: NewCells)
    ensures var m := NewColumns(c);
      && m["subject"] == c.subject && m["session"] == c.session && m["candidate"] == c.candidate
      && m["subject_"] == c.subjectName && m["sub"] == c.level
      && m["session_number"] == c.sessionNumber && m["personal_code"] == c.personalCode
  {
  }

  /** The grade columns: FG and the EE/TOK cells, and "" in the five points columns. */
  lemma NewColumnsGrades(c: NewCells)
    ensures var m := NewColumns(c);
      && m["FG"] == c.fg
      && m["ee_sub"] == c.eeSub && m["ee_fg"] == c.eeFg && m["tk_sub"] == c.tkSub && m["tk_fg"] == c.tkFg
      && m["uni_pg"] == m["PG"] == m["scaled_total"] == m["ee_pg"] == m["tk_pg"] == Some("")
  {
  }

  /** reformat_results on one row keeps every other column and adds the
      seventeen it writes. */
  lemma ReformatRecordKeys(r: Record)
    ensures ReformatRecord(r).Keys == r.Keys + ReformatColumns
    ensures forall k :: k in r && k !in ReformatColumns ==> ReformatRecord(r)[k] == r[k]
  {
    NewColumnsOver(r, Reformatted(r));
  }

  /** subject becomes the text after the first " - " of the old subject
      (SubjectAfterDash), null where there is none. */
  lemma ReformatRecordSubject(r: Record)
    ensures var out := ReformatRecord(r);
      && "subject" in out
      && out["subject"] == SubjectAfterDash(Cell(r, "subject"))
      && (out["subject"].Some? <==> Cell(r, "subject").Some? && Contains(Cell(r, "subject").value, " - "))
  {
    NewColumnsOver(r, Reformatted(r));
  }

  /** session and candidate are the two sides of the first " - " of the old
      candidate (session the whole of it without one); session_number and
      personal_code are the two parts of the new candidate, or both null. */
  lemma ReformatRecordCandidate(r: Record)
    ensures var out := ReformatRecord(r);
      && "session" in out && "candidate" in out && "session_number" in out && "personal_code" in out
      && (Cell(r, "candidate").None? ==> out["session"].None? && out["candidate"].None?)
      && (Cell(r, "candidate").Some? && out["candidate"].Some? ==>
            out["session"].Some? && out["session"].value + " - " + out["candidate"].value == Cell(r, "candidate").value)
      && (Cell(r, "candidate").Some? && out["candidate"].None? ==> out["session"] == Cell(r, "candidate"))
      && (out["personal_code"].Some? <==> out["session_number"].Some?)
      && (out["personal_code"].Some? ==>
            (out["candidate"].Some?
             && SessionAndCode(out["candidate"].value) == Some((out["session_number"].value, out["personal_code"].value))))
  {
    NewColumnsOver(r, Reformatted(r));
  }

  /** subject_ and sub are both set, sub starting with a level token, or
      both null, and then the new subject has no whole-word level token. */
  lemma ReformatRecordLevel(r: Record)
    ensures var out := ReformatRecord(r);
      && "subject" in out && "subject_" in out && "sub" in out
      && (out["subject_"].Some? <==> out["sub"].Some?)
      && (out["sub"].Some? ==> out["subject"].Some? && |out["sub"].value| >= 2 && out["sub"].value[..2] in LevelTokens)
      && (out["subject"].Some? && out["sub"].None? ==> forall q: nat :: !LevelTokenAt(out["subject"].value, q))
  {
    NewColumnsOver(r, Reformatted(r));
  }

  /** FG is the grade; ee_fg and tk_fg are the grade where the new subject
      contains the word, which it does wherever ee_sub or tk_sub matched;
      five columns are "". */
  lemma ReformatRecordGrades(r: Record)
    ensures var out := ReformatRecord(r);
      && out.Keys >= ReformatColumns
      && out["FG"] == Cell(r, "grade")
      && out["uni_pg"] == out["PG"] == out["scaled_total"] == out["ee_pg"] == out["tk_pg"] == Some("")
      && out["ee_fg"] == WordGrade(out["subject"], "ee", Cell(r, "grade"))
      && out["tk_fg"] == WordGrade(out["subject"], "tk", Cell(r, "grade"))
      && (out["ee_sub"].Some? ==> out["ee_fg"] == Cell(r, "grade"))
      && (out["tk_sub"].Some? ==> out["tk_fg"] == Cell(r, "grade"))
  {
    NewColumnsOver(r, Reformatted(r));
  }

  /** Stripping text that starts with a level token keeps the token in front. */
  lemma LevelPrefixKept(s: string)
    requires |s| >= 2 && s[..2] in LevelTokens
    ensures |Strip(s)| >= 2 && Strip(s)[..2] == s[..2]
  {
    assert s[0] in "SHET" && s[1] in "LEK";
    assert !IsSpace(s[0]) && !IsSpace(s[1]);
    assert SpaceEnd(s, 0) == 0;
    assert TrimEnd(s, 0, |s|) >= 2;
  }

  /** reformat_results: the new columns, filled row by row. It fails on a
      missing subject, candidate or grade column, in the order the source
      reads them, and on a subject or candidate column where no value
      contains " - ", whose split gives one column where two are assigned. */
  function ReformatResults(t: Table): (r: Result<Table, Failure>)
    ensures r.Ok? <==> "subject" in t.columns && "candidate" in t.columns && "grade" in t.columns
                       && SomeCellContains(t.rows, "subject", " - ") && SomeCellContains(t.rows, "candidate", " - ")
    ensures r.Err? && r.error.MissingColumn? ==> (r.error.column == "subject" || r.error.column == "candidate" || r.error.column == "grade")
                                                 && r.error.column !in t.columns
    ensures r.Err? && r.error.SplitWidth? ==> (r.error.column == "subject" || r.error.column == "candidate")
                                              && !SomeCellContains(t.rows, r.error.column, " - ")
    ensures r.Err? ==> r.error.MissingColumn? || r.error.SplitWidth?
    ensures r.Ok? ==> r.value.columns == t.columns + ReformatColumns
    ensures r.Ok? ==> |r.value.rows| == |t.rows|
                      && forall i :: 0 <= i < |t.rows| ==> r.value.rows[i] == ReformatRecord(t.rows[i])
    ensures r.Ok? && t.WellFormed() ==> r.value.WellFormed()
  {
    if "subject" !in t.columns then Err(MissingColumn("subject"))
    else if !SomeCellContains(t.rows, "subject", " - ") then Err(SplitWidth("subject"))
    else if "candidate" !in t.columns then Err(MissingColumn("candidate"))
    else if !SomeCellContains(t.rows, "candidate", " - ") then Err(SplitWidth("candidate"))
    else if "grade" !in t.columns then Err(MissingColumn("grade"))
    else
      ReformatRowsKeys(t.rows);
      Ok(Table(t.columns + ReformatColumns, ReformatRows(t.rows)))
  }

  /** Every row reformatted, in order. */
  function ReformatRows(rows: seq<Record>): (out: seq<Record>)
    ensures |out| == |rows| && forall i :: 0 <= i < |rows| ==> out[i] == ReformatRecord(rows[i])
  {
    seq(|rows|, i requires 0 <= i < |rows| => ReformatRecord(rows[i]))
  }

  /** Every reformatted row has its old columns and the new ones. */
  lemma ReformatRowsKeys(rows: seq<Record>)
    ensures forall i :: 0 <= i < |rows| ==> ReformatRows(rows)[i].Keys == rows[i].Keys + ReformatColumns
  {
    forall i | 0 <= i < |rows| ensures ReformatRows(rows)[i].Keys == rows[i].Keys + ReformatColumns {
      ReformatRecordKeys(rows[i]);
    }
  }

  /** A summary report with no subject line at all yields an empty frame,
      which has no subject column: reformatting it fails. */
  lemma EmptyReportFails(pages: seq<string>)
    requires DocumentRecords(pages) == []
    ensures ReformatResults(Normalize(DocumentRecords(pages))) == Err(MissingColumn("subject"))
  {
    var t := Normalize([]);
    assert "subject" !in t.columns;
  }
}
