/** reformat_results_sub of ib_result_handler_summary.py: the subject report.
    Rows naming the extended essay or theory of knowledge are dropped, the
    rest are pivoted to one row per candidate and one column per subject
    and value field, each cell the first non-null value of its group. */
module Pivot {
  import opened Wrappers
  import opened Sorting
  import opened Text
  import opened Patterns
  import opened Tables
  import opened Reshape

  /** The columns reformat_results_sub reads: the filter's column, then
      pivot_table's values, index and columns. */
  const SubjectInputs: seq<string> := ["subject"] + PivotFields + CommonKeys + ["subject_"]

  /** A row whose subject names the extended essay or theory of knowledge:
      the whole word "ee" or "tk" in any case. A row with a null subject is
      not one. */
  predicate IsEeTkRow(r: Record) {
    Cell(r, "subject").Some? && HasExcludedWord(Cell(r, "subject").value)
  }

  predicate KeptRow(r: Record) {
    !IsEeTkRow(r)
  }

  /** The rows the filter keeps, in order. */
  function Kept(rows: seq<Record>): (kept: seq<Record>)
    ensures forall r :: r in kept <==> r in rows && !IsEeTkRow(r)
  {
    Filter(KeptRow, rows)
  }

  /** The filter keeps order: the kept rows of a concatenation are the kept
      rows of each part, and one row is kept exactly when it is not an
      EE/TOK row. */
  lemma KeptConcat(xs: seq<Record>, ys: seq<Record>, r: Record)
    ensures Kept(xs + ys) == Kept(xs) + Kept(ys)
    ensures Kept([r]) == if IsEeTkRow(r) then [] else [r]
  {
    FilterConcat(KeptRow, xs, ys);
    assert [r][..0] == [];
  }

  /** At least one value field of the row is not null. */
  predicate HasPivotValue(r: Record) {
    exists f :: f in PivotFields && Cell(r, f).Some?
  }

  /** The row ends up in the pivot: group-by keeps it (its key and subject_
      are not null) and dropna keeps its group (a value field is not null). */
  predicate Contributes(r: Record) {
    KeyOf(r).Some? && Cell(r, "subject_").Some? && HasPivotValue(r)
  }

  /** The (subject, field) columns that survive pivot_table's dropna: some
      grouped row of the subject holds a value in the field. */
  function PresentColumns(rows: seq<Record>): (cs: set<(string, string)>)
    ensures forall s, f :: (s, f) in cs ==> f in PivotFields
  {
    set r, f | r in rows && f in PivotFields && KeyOf(r).Some? && Cell(r, "subject_").Some? && Cell(r, f).Some?
      :: (Cell(r, "subject_").value, f)
  }

  /** The subjects of the contributing rows, in row order. */
  function SubjectsIn(rows: seq<Record>): (ss: seq<string>)
    ensures forall s :: s in ss <==> exists r :: r in rows && Contributes(r) && Cell(r, "subject_") == Some(s)
  {
    if rows == [] then []
    else
      var n := |rows| - 1;
      var init := SubjectsIn(rows[..n]);
      assert rows == rows[..n] + [rows[n]];
      if Contributes(rows[n]) then init + [Cell(rows[n], "subject_").value] else init
  }

  /** The subjects of the pivot, sorted as sort_index sorts the first column
      level, each once. */
  function Subjects(rows: seq<Record>): (ss: seq<string>)
    ensures SortedBy(Below, ss)
    ensures forall s :: s in ss <==> exists r :: r in rows && Contributes(r) && Cell(r, "subject_") == Some(s)
  {
    BelowOrder();
    SortedSet(Below, SubjectsIn(rows))
  }

  /** The present columns of subject s among the given fields, in the
      fields' order. */
  function SubjectColumns(s: string, fields: seq<string>, present: set<(string, string)>): (cs: seq<(string, string)>)
  {
    if fields == [] then []
    else
      var n := |fields| - 1;
      SubjectColumns(s, fields[..n], present) + (if (s, fields[n]) in present then [(s, fields[n])] else [])
  }

  /** new_columns: for each subject in turn, its present columns in the
      order of PivotFields. */
  function ColumnOrder(subjects: seq<string>, present: set<(string, string)>): (cs: seq<(string, string)>)
  {
    if subjects == [] then []
    else
      var n := |subjects| - 1;
      ColumnOrder(subjects[..n], present) + SubjectColumns(subjects[n], PivotFields, present)
  }

  /** The loop of reformat_results_sub that builds new_columns. */
  method OrderColumns(subjects: seq<string>, present: set<(string, string)>) returns (cs: seq<(string, string)>)
    ensures cs == ColumnOrder(subjects, present)
  {
    cs := [];
    for i := 0 to |subjects|
      invariant cs == ColumnOrder(subjects[..i], present)
    {
      for j := 0 to |PivotFields|
        invariant cs == ColumnOrder(subjects[..i], present) + SubjectColumns(subjects[i], PivotFields[..j], present)
      {
        if (subjects[i], PivotFields[j]) in present {
          cs := cs + [(subjects[i], PivotFields[j])];
        }
        assert PivotFields[..j + 1][..j] == PivotFields[..j];
      }
      assert PivotFields[..|PivotFields|] == PivotFields;
      assert subjects[..i + 1][..i] == subjects[..i];
    }
    assert subjects[..|subjects|] == subjects;
  }

  /** The position of a value field among PivotFields. */
  function FieldRank(f: string): (n: nat)
    ensures f in PivotFields ==> n < |PivotFields| && PivotFields[n] == f
  {
    if f == "sub" then 0
    else if f == "uni_pg" then 1
    else if f == "PG" then 2
    else if f == "FG" then 3
    else 4
  }

  /** The order of the subject report's columns: by subject, then by the
      field's place in PivotFields. */
  predicate ColumnBefore(a: (string, string), b: (string, string)) {
    Below(a.0, b.0) || (a.0 == b.0 && FieldRank(a.1) < FieldRank(b.1))
  }

  // ---------------------------------------------------------------------
  // The report
  // ---------------------------------------------------------------------

  /** The cells of candidate k: for each column (s, f), the first non-null
      f among the kept rows of k and subject s. */
  function PivotCells(kept: seq<Record>, k: Key, cols: seq<(string, string)>): (m: map<(string, string), Option<string>>)
  {
    map c | c in cols :: GroupFirst(kept, k, Some(c.0), c.1)
  }

  /** reformat_results_sub as a function of the consolidated frame. */
  function SubjectReport(t: Table): (r: Result<Report, Failure>)
    ensures r.Err? <==> exists j :: 0 <= j < |SubjectInputs| && SubjectInputs[j] !in t.columns
    ensures r.Err? ==> r.error.MissingColumn? && r.error.column in SubjectInputs && r.error.column !in t.columns
  {
    match FirstMissing(SubjectInputs, t.columns)
    case Some(c) => Err(MissingColumn(c))
    case None =>
      var kept := Kept(t.rows);
      var keys := SortedKeys(Filter(Contributes, kept));
      var cols := ColumnOrder(Subjects(kept), PresentColumns(kept));
      Ok(Report(cols, RowsFor(keys, k => PivotCells(kept, k, cols))))
  }

  /** reformat_results_sub: the filter and pivot, then the loop that orders
      the columns. */
  method ReformatResultsSub(t: Table) returns (r: Result<Report, Failure>)
    ensures r == SubjectReport(t)
  {
    var missing := FirstMissing(SubjectInputs, t.columns);
    if missing.Some? {
      return Err(MissingColumn(missing.value));
    }
    var kept := Kept(t.rows);
    var keys := SortedKeys(Filter(Contributes, kept));
    var cols := OrderColumns(Subjects(kept), PresentColumns(kept));
    r := Ok(Report(cols, RowsFor(keys, k => PivotCells(kept, k, cols))));
  }

  // ---------------------------------------------------------------------
  // The columns: which appear, and in which order
  // ---------------------------------------------------------------------

  lemma {:induction false} SubjectColumnsMembers(s: string, fields: seq<string>, present: set<(string, string)>)
    ensures forall c :: c in SubjectColumns(s, fields, present) <==> c in present && c.0 == s && c.1 in fields
    decreases |fields|
  {
    if fields != [] {
      var n := |fields| - 1;
      SubjectColumnsMembers(s, fields[..n], present);
      assert fields == fields[..n] + [fields[n]];
    }
  }

  /** A column is in new_columns exactly when pivot_table kept it and its
      subject is one of the subjects. */
  lemma {:induction false} ColumnOrderMembers(subjects: seq<string>, present: set<(string, string)>)
    ensures forall c :: c in ColumnOrder(subjects, present) <==> c in present && c.0 in subjects && c.1 in PivotFields
    decreases |subjects|
  {
    if subjects != [] {
      var n := |subjects| - 1;
      ColumnOrderMembers(subjects[..n], present);
      SubjectColumnsMembers(subjects[n], PivotFields, present);
      assert subjects == subjects[..n] + [subjects[n]];
    }
  }

  lemma FieldRankAt()
    ensures forall j :: 0 <= j < |PivotFields| ==> FieldRank(PivotFields[j]) == j
  {
  }

  /** The columns of one subject follow the order of PivotFields. */
  lemma {:induction false} SubjectColumnsSorted(s: string, j: nat, present: set<(string, string)>)
    requires j <= |PivotFields|
    ensures forall c :: c in SubjectColumns(s, PivotFields[..j], present) ==> c.0 == s && FieldRank(c.1) < j
    ensures forall p, q :: 0 <= p < q < |SubjectColumns(s, PivotFields[..j], present)| ==>
      FieldRank(SubjectColumns(s, PivotFields[..j], present)[p].1) < FieldRank(SubjectColumns(s, PivotFields[..j], present)[q].1)
    decreases j
  {
    FieldRankAt();
    SubjectColumnsMembers(s, PivotFields[..j], present);
    if j > 0 {
      SubjectColumnsSorted(s, j - 1, present);
      assert PivotFields[..j][..j - 1] == PivotFields[..j - 1];
      forall c | c in SubjectColumns(s, PivotFields[..j - 1], present) ensures FieldRank(c.1) < j - 1 {
      }
    }
  }

  /** ColumnOrder lists the columns by subject, then by field. */
  lemma {:induction false} ColumnOrderSorted(subjects: seq<string>, present: set<(string, string)>)
    requires SortedBy(Below, subjects)
    ensures SortedBy(ColumnBefore, ColumnOrder(subjects, present))
    decreases |subjects|
  {
    if subjects != [] {
      var n := |subjects| - 1;
      var init := ColumnOrder(subjects[..n], present);
      var last := SubjectColumns(subjects[n], PivotFields, present);
      ColumnOrderSorted(subjects[..n], present);
      ColumnOrderMembers(subjects[..n], present);
      SubjectColumnsSorted(subjects[n], |PivotFields|, present);
      assert PivotFields[..|PivotFields|] == PivotFields;
      forall c | c in init ensures Below(c.0, subjects[n]) {
        var k :| 0 <= k < n && subjects[..n][k] == c.0;
      }
      SortedConcat(ColumnBefore, init, last);
    }
  }

  // ---------------------------------------------------------------------
  // The report: its columns, rows and cells
  // ---------------------------------------------------------------------

  /** Every column pivot_table keeps names a subject of the pivot. */
  lemma PresentSubjects(kept: seq<Record>)
    ensures forall c :: c in PresentColumns(kept) ==> c.0 in Subjects(kept)
  {
    forall c | c in PresentColumns(kept) ensures c.0 in Subjects(kept) {
      var r, f :| r in kept && f in PivotFields && KeyOf(r).Some? && Cell(r, "subject_").Some? && Cell(r, f).Some?
        && c == (Cell(r, "subject_").value, f);
      assert Contributes(r);
    }
  }

  /** The subject report has a column (s, f) exactly when some kept row
      of subject s with a full key holds a value in field f; each column
      appears once, ordered by subject and then by field. */
  lemma SubjectReportColumns(t: Table)
    requires SubjectReport(t).Ok?
    ensures forall s, f :: (s, f) in SubjectReport(t).value.columns <==>
      f in PivotFields && exists r :: r in Kept(t.rows) && KeyOf(r).Some? && Cell(r, "subject_") == Some(s) && Cell(r, f).Some?
    ensures SortedBy(ColumnBefore, SubjectReport(t).value.columns)
    ensures forall p, q :: 0 <= p < q < |SubjectReport(t).value.columns| ==> SubjectReport(t).value.columns[p] != SubjectReport(t).value.columns[q]
  {
    var kept := Kept(t.rows);
    var present := PresentColumns(kept);
    PresentSubjects(kept);
    ColumnOrderMembers(Subjects(kept), present);
    ColumnOrderSorted(Subjects(kept), present);
    forall s, f | f in PivotFields && exists r :: r in kept && KeyOf(r).Some? && Cell(r, "subject_") == Some(s) && Cell(r, f).Some?
      ensures (s, f) in present
    {
      var r :| r in kept && KeyOf(r).Some? && Cell(r, "subject_") == Some(s) && Cell(r, f).Some?;
      assert (Cell(r, "subject_").value, f) in present;
    }
    BelowOrder();
  }

  /** The subject report is well formed, and it has a row for candidate k
      exactly when some kept row with key k takes part in the pivot. */
  lemma SubjectReportRows(t: Table)
    requires SubjectReport(t).Ok?
    ensures SubjectReport(t).value.WellFormed()
    ensures forall k :: k in RowKeys(SubjectReport(t).value.rows) <==> exists r :: r in Kept(t.rows) && Contributes(r) && KeyOf(r) == Some(k)
  {
    SortedKeysOfFilter(Contributes, Kept(t.rows));
  }

  /** A cell of the subject report is aggfunc 'first': null exactly when
      every kept row of its candidate and subject is null in its field,
      and otherwise the value of the first such row that is not. */
  lemma SubjectReportCell(t: Table, i: nat, c: (string, string))
    requires SubjectReport(t).Ok?
    requires i < |SubjectReport(t).value.rows| && c in SubjectReport(t).value.columns
    ensures c in SubjectReport(t).value.rows[i].cells
    ensures SubjectReport(t).value.rows[i].cells[c].None? <==>
      forall j :: 0 <= j < |Kept(t.rows)| && InGroup(Kept(t.rows)[j], SubjectReport(t).value.rows[i].key, Some(c.0)) ==> Cell(Kept(t.rows)[j], c.1).None?
    ensures SubjectReport(t).value.rows[i].cells[c].Some? ==>
      exists j: nat :: (FirstOfGroupAt(Kept(t.rows), SubjectReport(t).value.rows[i].key, Some(c.0), c.1, j)
                        && Cell(Kept(t.rows)[j], c.1) == SubjectReport(t).value.rows[i].cells[c])
  {
    var kept := Kept(t.rows);
    var k := SubjectReport(t).value.rows[i].key;
    if GroupFirst(kept, k, Some(c.0), c.1).Some? {
      GroupFirstIsFirst(kept, k, Some(c.0), c.1);
    }
  }

  /** A column pivot_table keeps holds a value for some candidate of the
      pivot. */
  lemma PresentHasValue(kept: seq<Record>, c: (string, string))
    requires c in PresentColumns(kept)
    ensures exists k :: k in SortedKeys(Filter(Contributes, kept)) && GroupFirst(kept, k, Some(c.0), c.1).Some?
  {
    var r, f :| r in kept && f in PivotFields && KeyOf(r).Some? && Cell(r, "subject_").Some? && Cell(r, f).Some?
      && c == (Cell(r, "subject_").value, f);
    assert Contributes(r);
    SortedKeysOfFilter(Contributes, kept);
    var j :| 0 <= j < |kept| && kept[j] == r;
    assert InGroup(kept[j], KeyOf(r).value, Some(c.0));
  }

  /** dropna: no column of the subject report is null for every candidate. */
  lemma SubjectColumnNotAllNull(t: Table, c: (string, string))
    requires SubjectReport(t).Ok? && c in SubjectReport(t).value.columns
    ensures exists i :: (0 <= i < |SubjectReport(t).value.rows| && c in SubjectReport(t).value.rows[i].cells
                         && SubjectReport(t).value.rows[i].cells[c].Some?)
  {
    var kept := Kept(t.rows);
    var rep := SubjectReport(t).value;
    var keys := SortedKeys(Filter(Contributes, kept));
    ColumnOrderMembers(Subjects(kept), PresentColumns(kept));
    PresentHasValue(kept, c);
    var k :| k in keys && GroupFirst(kept, k, Some(c.0), c.1).Some?;
    var i := Find(keys, k);
    assert rep.rows[i].cells == PivotCells(kept, k, rep.columns);
    assert c in rep.rows[i].cells && rep.rows[i].cells[c] == GroupFirst(kept, k, Some(c.0), c.1);
  }

  /** A candidate of the pivot holds a value in some column pivot_table
      keeps. */
  lemma KeyHasValue(kept: seq<Record>, k: Key)
    requires k in SortedKeys(Filter(Contributes, kept))
    ensures exists c :: c in PresentColumns(kept) && GroupFirst(kept, k, Some(c.0), c.1).Some?
  {
    SortedKeysOfFilter(Contributes, kept);
    var r :| r in kept && Contributes(r) && KeyOf(r) == Some(k);
    var f :| f in PivotFields && Cell(r, f).Some?;
    var c := (Cell(r, "subject_").value, f);
    assert c in PresentColumns(kept);
    var j :| 0 <= j < |kept| && kept[j] == r;
    assert InGroup(kept[j], k, Some(c.0));
  }

  /** dropna: no row of the subject report is null in every column. */
  lemma SubjectRowNotAllNull(t: Table, i: nat)
    requires SubjectReport(t).Ok? && i < |SubjectReport(t).value.rows|
    ensures exists c :: c in SubjectReport(t).value.rows[i].cells && SubjectReport(t).value.rows[i].cells[c].Some?
  {
    var kept := Kept(t.rows);
    var rep := SubjectReport(t).value;
    var keys := SortedKeys(Filter(Contributes, kept));
    var k := keys[i];
    KeyHasValue(kept, k);
    var c :| c in PresentColumns(kept) && GroupFirst(kept, k, Some(c.0), c.1).Some?;
    PresentSubjects(kept);
    ColumnOrderMembers(Subjects(kept), PresentColumns(kept));
    assert c in rep.columns;
    assert rep.rows[i].cells == PivotCells(kept, k, rep.columns);
    assert c in rep.rows[i].cells && rep.rows[i].cells[c] == GroupFirst(kept, k, Some(c.0), c.1);
  }

  /** Rows naming the extended essay or theory of knowledge never reach the
      subject report: adding one anywhere leaves the report as it was. */
  lemma {:induction false} EeTkRowIgnored(t: Table, i: nat, row: Record)
    requires i <= |t.rows| && IsEeTkRow(row)
    ensures SubjectReport(Table(t.columns, t.rows[..i] + [row] + t.rows[i..])) == SubjectReport(t)
  {
    var before, after := t.rows[..i], t.rows[i..];
    FilterConcat(KeptRow, before + [row], after);
    FilterConcat(KeptRow, before, [row]);
    FilterConcat(KeptRow, before, after);
    assert Filter(KeptRow, [row]) == [] by {
      assert [row][..0] == [];
    }
    assert before + after == t.rows;
    assert Kept(t.rows[..i] + [row] + t.rows[i..]) == Kept(t.rows);
  }
}
