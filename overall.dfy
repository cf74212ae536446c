/** reformat_results_overall of ib_result_handler_summary.py: the overall
    report, one row per candidate with the extended essay, theory of
    knowledge, point totals and the diploma result. */
module Overall {
  import opened Wrappers
  import opened Sorting
  import opened Text
  import opened Tables
  import opened Reshape

  /** The columns reformat_results_overall selects, in order. */
  const OverallInputs: seq<string> := CommonKeys + ["ee_sub", "ee_pg", "ee_fg", "tk_sub", "tk_pg", "tk_fg", "pt_ee_tok", "pt_total", "result"]

  /** The second-level label of the computed result code. */
  const CodeLabel: string := "1 = bilingual, 2 = pass, 0 = fail"

  /** The columns of the overall report, in order. */
  const OverallColumns: seq<(string, string)> := [
    ("pt_ee_tok", "PG"), ("pt_ee_tok", "FG"),
    ("ee", "sub"), ("ee", "PG"), ("ee", "FG"),
    ("tk", "sub"), ("tk", "PG"), ("tk", "FG"),
    ("pt_total", "PG"), ("pt_total", "FG"),
    ("result", CodeLabel), ("result", "FG")
  ]

  /** The selected column a report column copies, if any: the PG columns
      are filled with NaN and the code column is computed. */
  function SourceOf(c: (string, string)): (src: Option<string>)
    ensures src.Some? ==> src.value in OverallInputs && src.value != "ee_pg" && src.value != "tk_pg"
  {
    if c == ("pt_ee_tok", "FG") then Some("pt_ee_tok")
    else if c == ("ee", "sub") then Some("ee_sub")
    else if c == ("ee", "FG") then Some("ee_fg")
    else if c == ("tk", "sub") then Some("tk_sub")
    else if c == ("tk", "FG") then Some("tk_fg")
    else if c == ("pt_total", "FG") then Some("pt_total")
    else if c == ("result", "FG") then Some("result")
    else None
  }

  /** np.select over the result text: the first condition that holds picks
      the code, none gives NaN; a null result matches nothing. */
  function ResultCode(result: Option<string>): (code: Option<string>)
    ensures code.Some? ==> result.Some? && code.value in {"0", "1", "2"}
  {
    if result.None? then None
    else if ContainsIgnoreCase(result.value, "bilingual") then Some("1")
    else if ContainsIgnoreCase(result.value, "Diploma awarded") then Some("2")
    else if ContainsIgnoreCase(result.value, "Diploma not awarded") then Some("0")
    else None
  }

  /** One report cell of candidate k. */
  function OverallCell(rows: seq<Record>, k: Key, c: (string, string)): Option<string> {
    if c == ("result", CodeLabel) then ResultCode(GroupFirst(rows, k, None, "result"))
    else if SourceOf(c).Some? then GroupFirst(rows, k, None, SourceOf(c).value)
    else None
  }

  /** The cells of candidate k. */
  function OverallCells(rows: seq<Record>, k: Key): (m: map<(string, string), Option<string>>)
    ensures forall c :: c in OverallColumns ==> c in m && m[c] == OverallCell(rows, k, c)
  {
    map c | c in OverallColumns :: OverallCell(rows, k, c)
  }

  /** reformat_results_overall as a function of the consolidated frame. */
  function OverallReport(t: Table): (r: Result<Report, Failure>)
    ensures r.Err? <==> exists j :: 0 <= j < |OverallInputs| && OverallInputs[j] !in t.columns
    ensures r.Err? ==> r.error.MissingColumn? && r.error.column in OverallInputs && r.error.column !in t.columns
  {
    match FirstMissing(OverallInputs, t.columns)
    case Some(c) => Err(MissingColumn(c))
    case None => Ok(Report(OverallColumns, RowsFor(SortedKeys(t.rows), k => OverallCells(t.rows, k))))
  }

  // ---------------------------------------------------------------------
  // Properties
  // ---------------------------------------------------------------------

  /** The overall report is well formed, with one row for every candidate
      whose key is complete, in key order. */
  lemma OverallReportRows(t: Table)
    requires OverallReport(t).Ok?
    ensures OverallReport(t).value.WellFormed()
    ensures forall k :: k in RowKeys(OverallReport(t).value.rows) <==> exists r :: r in t.rows && KeyOf(r) == Some(k)
  {
  }

  /** The priority of np.select: "bilingual" wins over the two diploma
      phrases, and "Diploma awarded" over "Diploma not awarded", all tested
      without regard to case. */
  lemma ResultCodePriority(result: string)
    ensures ResultCode(Some(result)) == Some("1") <==> ContainsIgnoreCase(result, "bilingual")
    ensures ResultCode(Some(result)) == Some("2") <==>
      !ContainsIgnoreCase(result, "bilingual") && ContainsIgnoreCase(result, "Diploma awarded")
    ensures ResultCode(Some(result)) == Some("0") <==>
      !ContainsIgnoreCase(result, "bilingual") && !ContainsIgnoreCase(result, "Diploma awarded")
      && ContainsIgnoreCase(result, "Diploma not awarded")
    ensures ResultCode(Some(result)).None? <==>
      !ContainsIgnoreCase(result, "bilingual") && !ContainsIgnoreCase(result, "Diploma awarded")
      && !ContainsIgnoreCase(result, "Diploma not awarded")
  {
  }

  /** A report cell copied from a selected column is groupby first: null
      exactly when every row of the candidate is null there, and otherwise
      the value of the first row that is not. */
  lemma OverallCopiedCell(t: Table, i: nat, c: (string, string))
    requires OverallReport(t).Ok? && i < |OverallReport(t).value.rows|
    requires c in OverallColumns && SourceOf(c).Some?
    ensures c in OverallReport(t).value.rows[i].cells
    ensures OverallReport(t).value.rows[i].cells[c].None? <==>
      forall j :: 0 <= j < |t.rows| && KeyOf(t.rows[j]) == Some(OverallReport(t).value.rows[i].key) ==> Cell(t.rows[j], SourceOf(c).value).None?
    ensures OverallReport(t).value.rows[i].cells[c].Some? ==>
      exists j: nat :: (FirstOfGroupAt(t.rows, OverallReport(t).value.rows[i].key, None, SourceOf(c).value, j)
                        && Cell(t.rows[j], SourceOf(c).value) == OverallReport(t).value.rows[i].cells[c])
  {
    var rep := OverallReport(t).value;
    var k := rep.rows[i].key;
    var src := SourceOf(c).value;
    assert rep.rows[i].cells == OverallCells(t.rows, k);
    CopiedCellIs(t.rows, k, c);
    assert c in rep.rows[i].cells && rep.rows[i].cells[c] == GroupFirst(t.rows, k, None, src);
    if GroupFirst(t.rows, k, None, src).Some? {
      GroupFirstIsFirst(t.rows, k, None, src);
    }
  }

  /** The PG sub-columns of the overall report are always null, and the
      code column is the code of the candidate's first non-null result. */
  lemma OverallFixedCells(t: Table, i: nat)
    requires OverallReport(t).Ok? && i < |OverallReport(t).value.rows|
    ensures forall c :: c in OverallColumns && c.1 == "PG" ==>
      c in OverallReport(t).value.rows[i].cells && OverallReport(t).value.rows[i].cells[c].None?
    ensures ("result", CodeLabel) in OverallReport(t).value.rows[i].cells
    ensures OverallReport(t).value.rows[i].cells[("result", CodeLabel)] == ResultCode(GroupFirst(t.rows, OverallReport(t).value.rows[i].key, None, "result"))
  {
    var rep := OverallReport(t).value;
    var k := rep.rows[i].key;
    var cells := rep.rows[i].cells;
    assert cells == OverallCells(t.rows, k);
    forall c | c in OverallColumns && c.1 == "PG" ensures c in cells && cells[c].None? {
      PgCellNull(t.rows, k, c);
    }
    assert cells[("result", CodeLabel)] == OverallCell(t.rows, k, ("result", CodeLabel));
  }

  lemma CopiedCellIs(rows: seq<Record>, k: Key, c: (string, string))
    requires SourceOf(c).Some?
    ensures OverallCell(rows, k, c) == GroupFirst(rows, k, None, SourceOf(c).value)
  {
    assert c.1 != CodeLabel;
  }

  lemma PgCellNull(rows: seq<Record>, k: Key, c: (string, string))
    requires c.1 == "PG"
    ensures OverallCell(rows, k, c).None?
  {
  }

  /** Cell by cell: changing only ee_pg and tk_pg changes no cell. */
  lemma OverallCellAgree(xs: seq<Record>, ys: seq<Record>, k: Key, c: (string, string))
    requires RowsAgreeOutside(xs, ys, {"ee_pg", "tk_pg"})
    ensures OverallCell(xs, k, c) == OverallCell(ys, k, c)
  {
    if c == ("result", CodeLabel) {
      GroupFirstAgree(xs, ys, {"ee_pg", "tk_pg"}, k, None, "result");
    } else if SourceOf(c).Some? {
      GroupFirstAgree(xs, ys, {"ee_pg", "tk_pg"}, k, None, SourceOf(c).value);
    }
  }

  /** The PG grades merged into ee_pg and tk_pg never reach the overall
      report: frames that differ only there give the same report. */
  lemma OverallIgnoresPg(t: Table, u: Table)
    requires t.columns == u.columns && RowsAgreeOutside(t.rows, u.rows, {"ee_pg", "tk_pg"})
    ensures OverallReport(t) == OverallReport(u)
  {
    if OverallReport(t).Ok? {
      SortedKeysAgree(t.rows, u.rows, {"ee_pg", "tk_pg"});
      var keys := SortedKeys(t.rows);
      var ra := RowsFor(keys, k => OverallCells(t.rows, k));
      var rb := RowsFor(keys, k => OverallCells(u.rows, k));
      forall j | 0 <= j < |ra| ensures ra[j] == rb[j] {
        var k := keys[j];
        forall c | c in OverallColumns ensures OverallCells(t.rows, k)[c] == OverallCells(u.rows, k)[c] {
          OverallCellAgree(t.rows, u.rows, k, c);
        }
        assert OverallCells(t.rows, k) == OverallCells(u.rows, k);
        assert ra[j].key == keys[j] == rb[j].key;
      }
      assert RowKeys(ra) == RowKeys(rb);
      assert ra == rb;
    }
  }

  /** An occurrence of p starts with p's first character. */
  lemma OccursHead(s: string, p: string, j: nat)
    requires p != [] && OccursAt(s, p, j)
    ensures s[j] == p[0] && p[0] in s
  {
    assert s[j..j + |p|][0] == s[j];
  }

  /** No occurrence of p can start where its first character is missing. */
  lemma NotContainsFirst(s: string, p: string)
    requires p != [] && p[0] !in s
    ensures !Contains(s, p)
  {
    forall j: nat ensures !OccursAt(s, p, j) {
      if OccursAt(s, p, j) {
        OccursHead(s, p, j);
        assert false;
      }
    }
  }

  /** "Diploma awarded" does not occur in "Diploma not awarded". */
  lemma NotAwardedIsNotAwarded()
    ensures !ContainsIgnoreCase("Diploma not awarded", "Diploma awarded")
  {
    var fail := LowerStr("Diploma not awarded");
    var awarded := "diploma awarded";
    assert fail == "diploma not awarded";
    assert LowerStr("Diploma awarded") == awarded;
    assert 'd' !in fail[1..5];
    forall j: nat ensures !OccursAt(fail, awarded, j) {
      if j == 0 {
        assert fail[..15][8] != awarded[8];
      } else if j + 15 <= |fail| {
        assert fail[1..5][j - 1] == fail[j];
        assert fail[j..j + 15][0] == fail[j];
      }
    }
  }

  /** "Diploma not awarded" gets the fail code: it is not taken for
      "Diploma awarded", which np.select tests first. */
  lemma NotAwardedCode()
    ensures ResultCode(Some("Diploma not awarded")) == Some("0")
  {
    var fail := LowerStr("Diploma not awarded");
    NotAwardedNotBilingual();
    NotAwardedIsNotAwarded();
    assert OccursAt(fail, fail, 0);
  }

  lemma NotAwardedNotBilingual()
    ensures !ContainsIgnoreCase("Diploma not awarded", "bilingual")
  {
    var fail := LowerStr("Diploma not awarded");
    assert fail == "diploma not awarded";
    assert LowerStr("bilingual") == "bilingual";
    NotContainsFirst(fail, "bilingual");
  }

  /** "Diploma awarded" gets the pass code. */
  lemma AwardedCode()
    ensures ResultCode(Some("Diploma awarded")) == Some("2")
  {
    var pass := LowerStr("Diploma awarded");
    assert pass == "diploma awarded";
    assert LowerStr("bilingual") == "bilingual";
    NotContainsFirst(pass, "bilingual");
    assert OccursAt(pass, pass, 0);
  }

  /** A bilingual diploma gets the bilingual code, whatever else the text
      says. */
  lemma BilingualCode()
    ensures ResultCode(Some("Bilingual Diploma awarded")) == Some("1")
  {
    var both := LowerStr("Bilingual Diploma awarded");
    assert both[..9] == "bilingual";
    assert LowerStr("bilingual") == "bilingual";
    assert OccursAt(both, "bilingual", 0);
  }
}
