/** The merge engine: a subject-level frame joined into the student-level
    frame on candidate and subject, its columns filling the student-level
    ones (merge_ib_results in ib_result_consolidator.py, and the same loop
    inlined in consolidate_data of app.py). */
module Merge {
  import opened Wrappers
  import opened Tables

  /** One entry of merge_steps. Every configured rename map has exactly one
      entry, so a map is at most one (from, to) pair; None is no map. */
  datatype MergeStep = MergeStep(substring: string, indexCols: seq<string>, mergeCols: seq<string>,
                                 rename: Option<(string, string)>)

  const IndexCols: seq<string> := ["session_number", "personal_code", "subject"]

  /** merge_steps of ib_result_consolidator.py, in the order main runs them. */
  const ConsolidatorSteps: seq<MergeStep> := [
    MergeStep("", IndexCols, ["pg", "scaled_total"], None),
    MergeStep("(EXTENDED ESSAY)", IndexCols, ["pg"], Some(("pg", "ee_pg"))),
    MergeStep("(THEORY OF KNOWLEDGE)", IndexCols, ["pg"], Some(("pg", "tk_pg")))
  ]

  /** merge_steps of app.py, by the file type whose frame it merges. */
  const AppSteps: map<string, MergeStep> := map[
    "Subject Results" := MergeStep("", IndexCols, ["pg", "scaled_total"], Some(("pg", "PG"))),
    "(EXTENDED ESSAY)" := MergeStep("(EXTENDED ESSAY)", IndexCols, ["pg"], Some(("pg", "ee_pg"))),
    "(THEORY OF KNOWLEDGE)" := MergeStep("(THEORY OF KNOWLEDGE)", IndexCols, ["pg"], Some(("pg", "tk_pg")))
  ]

  /** The column a merge column ends up in: its new name under the rename
      map, or itself. */
  function Target(rename: Option<(string, string)>, col: string): string {
    if rename.Some? && rename.value.0 == col then rename.value.1 else col
  }

  /** The targets of a step's merge columns, in order. */
  function Targets(step: MergeStep): (ts: seq<string>)
    ensures |ts| == |step.mergeCols|
    ensures forall j :: 0 <= j < |ts| ==> ts[j] == Target(step.rename, step.mergeCols[j])
  {
    seq(|step.mergeCols|, j requires 0 <= j < |step.mergeCols| => Target(step.rename, step.mergeCols[j]))
  }

  /** The set of a list of column names. */
  function ColumnSet(cols: seq<string>): (s: set<string>)
    ensures forall c :: c in s <==> c in cols
  {
    set j | 0 <= j < |cols| :: cols[j]
  }

  // ---------------------------------------------------------------------
  // Reading the subject-level file
  // ---------------------------------------------------------------------

  /** Path(str_path_subject).with_name(stem + substring + suffix): the
      substring goes between the stem "exam_results_subject_" and ".csv". */
  function SubjectPath(substring: string): (path: string)
    ensures |path| == |substring| + 25
    ensures path[..21] == "exam_results_subject_" && path[|path| - 4..] == ".csv"
    ensures path[21..|path| - 4] == substring
  {
    "exam_results_subject_" + substring + ".csv"
  }

  /** The standard subject file is the base path itself, and different
      substrings name different files. */
  lemma SubjectPathNames(a: string, b: string)
    ensures SubjectPath("") == "exam_results_subject_.csv"
    ensures SubjectPath(a) == SubjectPath(b) ==> a == b
  {
    if SubjectPath(a) == SubjectPath(b) {
      assert a == SubjectPath(a)[21..|SubjectPath(a)| - 4];
    }
  }

  // ---------------------------------------------------------------------
  // Selecting and renaming the secondary's columns
  // ---------------------------------------------------------------------

  /** df[cols]: the frame cut down to cols, or the first column it lacks. */
  function Select(t: Table, cols: seq<string>): (r: Result<Table, Failure>)
    ensures r.Err? <==> exists j :: 0 <= j < |cols| && cols[j] !in t.columns
    ensures r.Err? ==> r.error.MissingColumn? && r.error.column in cols && r.error.column !in t.columns
    ensures r.Ok? ==> r.value.columns == ColumnSet(cols) && r.value.WellFormed()
    ensures r.Ok? ==> |r.value.rows| == |t.rows|
                      && forall i :: 0 <= i < |t.rows| ==> r.value.rows[i] == Widen(t.rows[i], ColumnSet(cols))
  {
    match FirstMissing(cols, t.columns)
    case Some(c) => Err(MissingColumn(c))
    case None =>
      var keep := ColumnSet(cols);
      Ok(Table(keep, seq(|t.rows|, i requires 0 <= i < |t.rows| => Widen(t.rows[i], keep))))
  }

  /** DataFrame.rename(columns=...) on one row. */
  function RenameRecord(r: Record, rename: Option<(string, string)>): (out: Record)
    ensures rename.None? || rename.value.0 !in r ==> out == r
    ensures rename.Some? && rename.value.0 in r ==>
      out.Keys == r.Keys - {rename.value.0} + {rename.value.1} && out[rename.value.1] == r[rename.value.0]
      && forall c :: c in r && c != rename.value.0 && c != rename.value.1 ==> out[c] == r[c]
  {
    match rename
    case None => r
    case Some((from, to)) => if from in r then (r - {from})[to := r[from]] else r
  }

  /** The column names after the rename. */
  function RenameColumns(cols: set<string>, rename: Option<(string, string)>): set<string> {
    match rename
    case None => cols
    case Some((from, to)) => if from in cols then cols - {from} + {to} else cols
  }

  /** DataFrame.rename(columns=...). */
  function Rename(t: Table, rename: Option<(string, string)>): (out: Table)
    ensures t.WellFormed() ==> out.WellFormed()
    ensures |out.rows| == |t.rows| && forall i :: 0 <= i < |t.rows| ==> out.rows[i] == RenameRecord(t.rows[i], rename)
  {
    Table(RenameColumns(t.columns, rename), seq(|t.rows|, i requires 0 <= i < |t.rows| => RenameRecord(t.rows[i], rename)))
  }

  // ---------------------------------------------------------------------
  // pd.merge(main, sub, on=index_cols, how='left', suffixes=('', '_new'))
  // ---------------------------------------------------------------------

  /** The name a column of the right frame takes in the join: "_new"
      appended where the left frame has a column of that name. */
  function OutName(c: string, left: set<string>): string {
    if c in left then c + "_new" else c
  }

  /** The joined names of the right frame's non-key columns. */
  function OutNames(extra: seq<string>, left: set<string>): (s: set<string>)
    ensures forall j :: 0 <= j < |extra| ==> OutName(extra[j], left) in s
    ensures forall c :: c in s ==> exists j :: 0 <= j < |extra| && c == OutName(extra[j], left)
  {
    set j | 0 <= j < |extra| :: OutName(extra[j], left)
  }

  /** No joined name occurs twice: no two right columns share one, which
      pandas refuses, and none is already a left column, which a table of
      this model cannot hold twice (pandas would keep both). */
  predicate NoClash(extra: seq<string>, left: set<string>) {
    && (forall j :: 0 <= j < |extra| ==> OutName(extra[j], left) !in left)
    && (forall i, j :: 0 <= i < j < |extra| ==> OutName(extra[i], left) != OutName(extra[j], left))
  }

  /** The first joined name that occurs twice in the joined frame: one
      already among the left columns, or one shared with an earlier right
      column. */
  function FirstClash(extra: seq<string>, left: set<string>): (r: Option<string>)
    ensures r.None? <==> NoClash(extra, left)
  {
    if extra == [] then None
    else
      var n := |extra| - 1;
      var last := OutName(extra[n], left);
      match FirstClash(extra[..n], left)
      case Some(c) => Some(c)
      case None =>
        if last in left then Some(last)
        else if exists i :: 0 <= i < n && OutName(extra[i], left) == last then Some(last)
        else
          assert forall i :: 0 <= i < n ==> extra[..n][i] == extra[i];
          None
  }

  /** A left and a right row agree on every key; a null key agrees with a
      null key, as in pandas. */
  predicate KeysMatch(l: Record, r: Record, on: seq<string>) {
    forall j :: 0 <= j < |on| ==> Cell(l, on[j]) == Cell(r, on[j])
  }

  /** The positions of the right rows that match a left row: each matching
      position once, in increasing order, and no other. */
  function MatchIndices(l: Record, rights: seq<Record>, on: seq<string>): (ix: seq<nat>)
    ensures |ix| <= |rights|
    ensures forall p :: 0 <= p < |ix| ==> ix[p] < |rights| && KeysMatch(l, rights[ix[p]], on)
    ensures forall p, q :: 0 <= p < q < |ix| ==> ix[p] < ix[q]
    ensures forall j :: 0 <= j < |rights| && KeysMatch(l, rights[j], on) ==> j in ix
  {
    if rights == [] then []
    else
      var n := |rights| - 1;
      var init := MatchIndices(l, rights[..n], on);
      assert forall j :: 0 <= j < n ==> rights[..n][j] == rights[j];
      if KeysMatch(l, rights[n], on) then init + [n] else init
  }

  /** The right rows that match a left row, in their order. */
  function Matches(l: Record, rights: seq<Record>, on: seq<string>): (ms: seq<Record>)
    ensures |ms| <= |rights|
    ensures forall m :: m in ms ==> m in rights && KeysMatch(l, m, on)
    ensures forall j :: 0 <= j < |rights| && KeysMatch(l, rights[j], on) ==> rights[j] in ms
  {
    if rights == [] then []
    else
      var n := |rights| - 1;
      var init := Matches(l, rights[..n], on);
      assert forall j :: 0 <= j < n ==> rights[..n][j] == rights[j];
      if KeysMatch(l, rights[n], on) then init + [rights[n]] else init
  }

  /** One more right row: its position and the row itself are added when
      it matches. */
  lemma MatchesNext(l: Record, rights: seq<Record>, on: seq<string>)
    requires rights != []
    ensures var n := |rights| - 1;
      && MatchIndices(l, rights, on) == MatchIndices(l, rights[..n], on) + (if KeysMatch(l, rights[n], on) then [n] else [])
      && Matches(l, rights, on) == Matches(l, rights[..n], on) + (if KeysMatch(l, rights[n], on) then [rights[n]] else [])
  {
  }

  /** The matches are the right rows at the matching positions, in
      increasing order of position, so a right row appears once per
      position it holds. */
  lemma {:induction false} MatchesInOrder(l: Record, rights: seq<Record>, on: seq<string>)
    ensures var ix := MatchIndices(l, rights, on);
      var ms := Matches(l, rights, on);
      |ms| == |ix| && forall p :: 0 <= p < |ms| ==> ms[p] == rights[ix[p]]
  {
    if rights != [] {
      var n := |rights| - 1;
      MatchesInOrder(l, rights[..n], on);
      MatchesNext(l, rights, on);
      PositionsAppend(rights, n, MatchIndices(l, rights[..n], on), Matches(l, rights[..n], on),
                      if KeysMatch(l, rights[n], on) then [n] else [],
                      if KeysMatch(l, rights[n], on) then [rights[n]] else []);
    }
  }

  /** Rows read at positions before n of a prefix are read the same in the
      whole sequence, and so stay so when one position and its row are
      appended. */
  lemma PositionsAppend<T>(rows: seq<T>, n: nat, ix: seq<nat>, ms: seq<T>, jx: seq<nat>, js: seq<T>)
    requires n < |rows| && |ms| == |ix| && |js| == |jx|
    requires forall p :: 0 <= p < |ix| ==> ix[p] < n && ms[p] == rows[..n][ix[p]]
    requires forall p :: 0 <= p < |jx| ==> jx[p] < |rows| && js[p] == rows[jx[p]]
    ensures forall p :: 0 <= p < |ms + js| ==> (ms + js)[p] == rows[(ix + jx)[p]]
  {
    forall p | 0 <= p < |ms + js| ensures (ms + js)[p] == rows[(ix + jx)[p]] {
      if p < |ms| {
        assert (ms + js)[p] == ms[p] && (ix + jx)[p] == ix[p];
      } else {
        assert (ms + js)[p] == js[p - |ms|] && (ix + jx)[p] == jx[p - |ms|];
      }
    }
  }



  /** The cell of the matching right row, null where there is none. */
  function MatchCell(m: Option<Record>, c: string): Option<string> {
    if m.Some? then Cell(m.value, c) else None
  }

  /** One joined row: the left row plus the right row's non-key columns
      under their joined names, null where there is no right row. */
  function JoinRow(l: Record, m: Option<Record>, extra: seq<string>, left: set<string>): (out: Record)
    ensures out.Keys == l.Keys + OutNames(extra, left)
  {
    if extra == [] then l
    else
      var n := |extra| - 1;
      var init := JoinRow(l, m, extra[..n], left);
      assert OutNames(extra, left) == OutNames(extra[..n], left) + {OutName(extra[n], left)};
      init[OutName(extra[n], left) := MatchCell(m, extra[n])]
  }

  /** Every prefix of names without a clash is without one. */
  lemma NoClashPrefix(extra: seq<string>, left: set<string>, n: nat)
    requires NoClash(extra, left) && n <= |extra|
    ensures NoClash(extra[..n], left)
  {
    assert forall j :: 0 <= j < n ==> extra[..n][j] == extra[j];
  }

  /** Where no joined name occurs twice, the joined row keeps the left
      row's cells. */
  lemma {:induction false} JoinRowKeepsLeft(l: Record, m: Option<Record>, extra: seq<string>, left: set<string>, c: string)
    requires NoClash(extra, left) && l.Keys <= left && c in l
    ensures JoinRow(l, m, extra, left)[c] == l[c]
  {
    if extra != [] {
      var n := |extra| - 1;
      NoClashPrefix(extra, left, n);
      JoinRowKeepsLeft(l, m, extra[..n], left, c);
      assert OutName(extra[n], left) !in left;
    }
  }

  /** Where no joined name occurs twice, the joined row holds each right
      cell under its joined name. */
  lemma {:induction false} JoinRowHoldsRight(l: Record, m: Option<Record>, extra: seq<string>, left: set<string>, j: nat)
    requires NoClash(extra, left) && j < |extra|
    ensures JoinRow(l, m, extra, left)[OutName(extra[j], left)] == MatchCell(m, extra[j])
  {
    var n := |extra| - 1;
    if j < n {
      NoClashPrefix(extra, left, n);
      assert extra[..n][j] == extra[j];
      JoinRowHoldsRight(l, m, extra[..n], left, j);
      assert OutName(extra[j], left) != OutName(extra[n], left);
    }
  }

  /** The rows one left row yields: one per matching right row, or one with
      nulls when none matches. */
  function JoinBlock(l: Record, rights: seq<Record>, on: seq<string>, extra: seq<string>, left: set<string>): (b: seq<Record>)
    ensures var ms := Matches(l, rights, on);
      && |b| == (if ms == [] then 1 else |ms|)
      && (ms == [] ==> b == [JoinRow(l, None, extra, left)])
      && (forall j :: 0 <= j < |ms| ==> b[j] == JoinRow(l, Some(ms[j]), extra, left))
  {
    var ms := Matches(l, rights, on);
    if ms == [] then [JoinRow(l, None, extra, left)]
    else seq(|ms|, j requires 0 <= j < |ms| => JoinRow(l, Some(ms[j]), extra, left))
  }

  /** The rows of the left join: the blocks of the left rows, in order. */
  function JoinRows(lefts: seq<Record>, rights: seq<Record>, on: seq<string>, extra: seq<string>, left: set<string>): seq<Record> {
    FlatMap(l => JoinBlock(l, rights, on, extra, left), lefts)
  }

  /** The left join of pandas on the key columns `on`, extra being the
      right frame's other columns: a missing key column or a joined name
      that occurs twice fails. */
  function LeftJoin(main: Table, right: Table, on: seq<string>, extra: seq<string>): (r: Result<Table, Failure>)
    ensures r.Err? ==> r.error.MissingColumn? || r.error.DuplicateColumn?
    ensures r.Err? && r.error.MissingColumn? ==> r.error.column in on
    ensures r.Ok? <==> (forall j :: 0 <= j < |on| ==> on[j] in main.columns && on[j] in right.columns) && NoClash(extra, main.columns)
    ensures r.Ok? ==> r.value.columns == main.columns + OutNames(extra, main.columns)
    ensures r.Ok? ==> r.value.rows == JoinRows(main.rows, right.rows, on, extra, main.columns)
  {
    match FirstMissing(on, main.columns)
    case Some(c) => Err(MissingColumn(c))
    case None =>
      match FirstMissing(on, right.columns)
      case Some(c) => Err(MissingColumn(c))
      case None =>
        match FirstClash(extra, main.columns)
        case Some(c) => Err(DuplicateColumn(c))
        case None => Ok(Table(main.columns + OutNames(extra, main.columns), JoinRows(main.rows, right.rows, on, extra, main.columns)))
  }

  // ---------------------------------------------------------------------
  // The fill: target = target_new.combine_first(target), then drop target_new
  // ---------------------------------------------------------------------

  /** The name the join gives a target that the primary already has. */
  function NewName(target: string): string {
    target + "_new"
  }

  /** Series.combine_first on one cell: the first value unless it is null. */
  function CombineFirst(a: Option<string>, b: Option<string>): (r: Option<string>)
    ensures r.Some? <==> a.Some? || b.Some?
    ensures a.Some? ==> r == a
    ensures a.None? ==> r == b
  {
    if a.Some? then a else b
  }

  /** One row after `df[target] = df[target_new].combine_first(df[target])`
      and `drop(columns=[target_new])`. */
  function CombineRecord(r: Record, target: string): (out: Record)
    ensures out.Keys == r.Keys + {target} - {NewName(target)}
    ensures out[target] == CombineFirst(Cell(r, NewName(target)), Cell(r, target))
    ensures forall c :: c in r && c != target && c != NewName(target) ==> out[c] == r[c]
  {
    r[target := CombineFirst(Cell(r, NewName(target)), Cell(r, target))] - {NewName(target)}
  }

  /** The same on the whole frame. */
  function CombineColumn(t: Table, target: string): (out: Table)
    ensures out.columns == t.columns + {target} - {NewName(target)}
    ensures |out.rows| == |t.rows| && forall i :: 0 <= i < |t.rows| ==> out.rows[i] == CombineRecord(t.rows[i], target)
    ensures t.WellFormed() ==> out.WellFormed()
  {
    Table(t.columns + {target} - {NewName(target)}, seq(|t.rows|, i requires 0 <= i < |t.rows| => CombineRecord(t.rows[i], target)))
  }

  /** The fill of one row over the targets, in order, each only where the
      primary had the target and the row still has target_new. */
  function CombineRow(r: Record, left: set<string>, ts: seq<string>): Record {
    if ts == [] then r
    else
      var n := |ts| - 1;
      var p := CombineRow(r, left, ts[..n]);
      if ts[n] in left && NewName(ts[n]) in p then CombineRecord(p, ts[n]) else p
  }

  /** The record with the given keys and null everywhere. */
  function Blank(cols: set<string>): (r: Record)
    ensures r.Keys == cols
  {
    map c | c in cols :: None
  }

  /** The fill loop of merge_ib_results over the frame the join produced:
      `target in df_main.columns and target_new in df_merged.columns`,
      the latter read from the frame as the loop has left it. */
  function CombineTargets(t: Table, left: set<string>, ts: seq<string>): (out: Table)
    ensures out.columns == CombineRow(Blank(t.columns), left, ts).Keys
    ensures |out.rows| == |t.rows|
    ensures t.WellFormed() ==> out.WellFormed()
    ensures t.WellFormed() ==> forall i :: 0 <= i < |t.rows| ==> out.rows[i] == CombineRow(t.rows[i], left, ts)
  {
    if ts == [] then t
    else
      var n := |ts| - 1;
      var p := CombineTargets(t, left, ts[..n]);
      assert t.WellFormed() ==> forall i :: 0 <= i < |t.rows| ==> p.rows[i].Keys == p.columns;
      if ts[n] in left && NewName(ts[n]) in p.columns then CombineColumn(p, ts[n]) else p
  }

  /** One more target is one more fill of a column, where it applies. */
  lemma CombineTargetsNext(t: Table, left: set<string>, ts: seq<string>, j: nat)
    requires j < |ts|
    ensures var p := CombineTargets(t, left, ts[..j]);
      CombineTargets(t, left, ts[..j + 1])
        == if ts[j] in left && NewName(ts[j]) in p.columns then CombineColumn(p, ts[j]) else p
  {
    assert ts[..j + 1][..j] == ts[..j];
  }

  // ---------------------------------------------------------------------
  // What the merge computes, stated independently of the loop
  // ---------------------------------------------------------------------

  /** A primary row filled from its match: each target holds the secondary
      value where that is non-null and the primary value otherwise (null
      when the primary lacks the target); every other column is kept. */
  function FillRow(l: Record, m: Option<Record>, ts: seq<string>): Record {
    map c | c in l.Keys + ColumnSet(ts) :: if c in ts then CombineFirst(MatchCell(m, c), Cell(l, c)) else l[c]
  }

  /** Filling over one more target sets that target only. */
  lemma FillRowStep(l: Record, m: Option<Record>, ts: seq<string>)
    requires ts != []
    ensures var t := ts[|ts| - 1];
      FillRow(l, m, ts) == FillRow(l, m, ts[..|ts| - 1])[t := CombineFirst(MatchCell(m, t), Cell(l, t))]
  {
    var n := |ts| - 1;
    assert ts == ts[..n] + [ts[n]];
    assert ColumnSet(ts) == ColumnSet(ts[..n]) + {ts[n]};
  }

  /** Changing a cell the combine of one target does not read or drop
      commutes with that combine. */
  lemma CombineRecordUpdate(p: Record, t: string, k: string, v: Option<string>)
    requires k != t && k != NewName(t)
    ensures CombineRecord(p[k := v], t) == CombineRecord(p, t)[k := v]
  {
  }

  /** Putting a cell the fill does not touch before or after the fill
      gives the same row. */
  lemma {:induction false} CombineRowUpdate(x: Record, left: set<string>, ts: seq<string>, k: string, v: Option<string>)
    requires forall j :: 0 <= j < |ts| ==> k != ts[j] && (ts[j] in left ==> k != NewName(ts[j]))
    ensures CombineRow(x[k := v], left, ts) == CombineRow(x, left, ts)[k := v]
  {
    if ts != [] {
      var n := |ts| - 1;
      assert forall j :: 0 <= j < n ==> ts[..n][j] == ts[j];
      CombineRowUpdate(x, left, ts[..n], k, v);
      var p := CombineRow(x, left, ts[..n]);
      if ts[n] in left && NewName(ts[n]) in p {
        CombineRecordUpdate(p, ts[n], k, v);
      }
    }
  }

  /** What NoClash says about the last name against the ones before it. */
  lemma LastNameFree(ts: seq<string>, left: set<string>)
    requires NoClash(ts, left) && ts != []
    ensures var n := |ts| - 1; var o := OutName(ts[n], left);
      && o !in left && o !in ts[..n] && ts[n] !in ts[..n]
      && forall j :: 0 <= j < n ==> o != ts[..n][j] && (ts[..n][j] in left ==> o != NewName(ts[..n][j]))
  {
    var n := |ts| - 1;
    assert OutName(ts[n], left) !in left;
    assert forall j :: 0 <= j < n ==> ts[..n][j] == ts[j] && OutName(ts[j], left) != OutName(ts[n], left);
  }

  /** The combine of a target whose target_new the row does not yet have,
      run on the row with target_new added. */
  lemma CombineRecordFresh(f: Record, t: string, w: Option<string>)
    requires NewName(t) !in f
    ensures CombineRecord(f[NewName(t) := w], t) == f[t := CombineFirst(w, Cell(f, t))]
  {
  }

  /** The loop's fill of a joined row is FillRow of its primary row. */
  lemma {:induction false} CombineRowFill(l: Record, m: Option<Record>, ts: seq<string>, left: set<string>)
    requires l.Keys == left && NoClash(ts, left)
    ensures CombineRow(JoinRow(l, m, ts, left), left, ts) == FillRow(l, m, ts)
  {
    if ts == [] {
      assert FillRow(l, m, ts) == l;
    } else {
      var n := |ts| - 1;
      var t := ts[n];
      var o := OutName(t, left);
      var w := MatchCell(m, t);
      var j' := JoinRow(l, m, ts[..n], left);
      assert JoinRow(l, m, ts, left) == j'[o := w];
      NoClashPrefix(ts, left, n);
      LastNameFree(ts, left);
      CombineRowFill(l, m, ts[..n], left);
      CombineRowUpdate(j', left, ts[..n], o, w);
      var f := FillRow(l, m, ts[..n]);
      FillRowStep(l, m, ts);
      assert Cell(f, t) == Cell(l, t);
      if t in left {
        CombineRecordFresh(f, t, w);
      }
    }
  }

  /** The fill keeps only the keys the row had. */
  lemma {:induction false} CombineRowKeys(x: Record, y: Record, left: set<string>, ts: seq<string>)
    requires x.Keys == y.Keys
    ensures CombineRow(x, left, ts).Keys == CombineRow(y, left, ts).Keys
  {
    if ts != [] {
      CombineRowKeys(x, y, left, ts[..|ts| - 1]);
    }
  }

  /** The filled rows one primary row yields. */
  function FillBlock(l: Record, rights: seq<Record>, on: seq<string>, ts: seq<string>): (b: seq<Record>)
    ensures var ms := Matches(l, rights, on);
      && |b| == (if ms == [] then 1 else |ms|)
      && (ms == [] ==> b == [FillRow(l, None, ts)])
      && (forall j :: 0 <= j < |ms| ==> b[j] == FillRow(l, Some(ms[j]), ts))
  {
    var ms := Matches(l, rights, on);
    if ms == [] then [FillRow(l, None, ts)]
    else seq(|ms|, j requires 0 <= j < |ms| => FillRow(l, Some(ms[j]), ts))
  }

  /** The filled rows of all primary rows, in order. */
  function FillRows(lefts: seq<Record>, rights: seq<Record>, on: seq<string>, ts: seq<string>): seq<Record> {
    FlatMap(l => FillBlock(l, rights, on, ts), lefts)
  }

  /** The predicate JoinRowsFill states, for one list of joined rows. */
  predicate FillsTo(js: seq<Record>, fs: seq<Record>, ts: seq<string>, left: set<string>) {
    && |js| == |fs|
    && (forall i :: 0 <= i < |js| ==> js[i].Keys == left + OutNames(ts, left))
    && (forall i :: 0 <= i < |js| ==> CombineRow(js[i], left, ts) == fs[i])
  }

  /** The joined block of one primary row, filled, is its filled block. */
  lemma JoinBlockFill(l: Record, rights: seq<Record>, on: seq<string>, ts: seq<string>, left: set<string>)
    requires NoClash(ts, left) && l.Keys == left
    ensures FillsTo(JoinBlock(l, rights, on, ts, left), FillBlock(l, rights, on, ts), ts, left)
  {
    var ms := Matches(l, rights, on);
    CombineRowFill(l, None, ts, left);
    forall j | 0 <= j < |ms| ensures CombineRow(JoinRow(l, Some(ms[j]), ts, left), left, ts) == FillRow(l, Some(ms[j]), ts) {
      CombineRowFill(l, Some(ms[j]), ts, left);
    }
  }

  /** FillsTo carries over to concatenations. */
  lemma FillsToConcat(js: seq<Record>, fs: seq<Record>, jb: seq<Record>, fb: seq<Record>, ts: seq<string>, left: set<string>)
    requires FillsTo(js, fs, ts, left) && FillsTo(jb, fb, ts, left)
    ensures FillsTo(js + jb, fs + fb, ts, left)
  {
    assert forall i :: |js| <= i < |js| + |jb| ==> (js + jb)[i] == jb[i - |js|] && (fs + fb)[i] == fb[i - |js|];
  }

  /** The rows of the join, each filled, are the filled rows; each joined
      row has the primary's columns and the joined names. */
  lemma {:induction false} JoinRowsFill(lefts: seq<Record>, rights: seq<Record>, on: seq<string>, ts: seq<string>, left: set<string>)
    requires NoClash(ts, left)
    requires forall i :: 0 <= i < |lefts| ==> lefts[i].Keys == left
    ensures FillsTo(JoinRows(lefts, rights, on, ts, left), FillRows(lefts, rights, on, ts), ts, left)
  {
    if lefts != [] {
      var n := |lefts| - 1;
      assert forall i :: 0 <= i < n ==> lefts[..n][i] == lefts[i];
      JoinRowsFill(lefts[..n], rights, on, ts, left);
      assert JoinRows(lefts, rights, on, ts, left) == JoinRows(lefts[..n], rights, on, ts, left) + JoinBlock(lefts[n], rights, on, ts, left);
      assert FillRows(lefts, rights, on, ts) == FillRows(lefts[..n], rights, on, ts) + FillBlock(lefts[n], rights, on, ts);
      JoinBlockFill(lefts[n], rights, on, ts, left);
      FillsToConcat(JoinRows(lefts[..n], rights, on, ts, left), FillRows(lefts[..n], rights, on, ts),
                    JoinBlock(lefts[n], rights, on, ts, left), FillBlock(lefts[n], rights, on, ts), ts, left);
    }
  }

  // ---------------------------------------------------------------------
  // One merge step
  // ---------------------------------------------------------------------

  /** df_merge[index_cols + merge_cols], renamed by the step's map. */
  function Picked(sub: Table, step: MergeStep): (r: Result<Table, Failure>)
    ensures r.Err? <==> exists j :: 0 <= j < |step.indexCols + step.mergeCols| && (step.indexCols + step.mergeCols)[j] !in sub.columns
    ensures r.Err? ==> r.error.MissingColumn?
    ensures r.Ok? ==> r.value.WellFormed() && |r.value.rows| == |sub.rows|
  {
    match Select(sub, step.indexCols + step.mergeCols)
    case Err(e) => Err(e)
    case Ok(picked) => Ok(Rename(picked, step.rename))
  }

  /** merge_ib_results on frames: pick and rename the secondary's columns,
      left-join it into the primary and fill the targets. */
  function MergeFrames(main: Table, sub: Table, step: MergeStep): (r: Result<Table, Failure>)
    ensures r.Err? ==> r.error.MissingColumn? || r.error.DuplicateColumn?
    ensures r.Err? && r.error.DuplicateColumn? ==> Picked(sub, step).Ok? && !NoClash(Targets(step), main.columns)
    ensures Picked(sub, step).Err? ==> r == Picked(sub, step)
  {
    match Picked(sub, step)
    case Err(e) => Err(e)
    case Ok(right) =>
      match LeftJoin(main, right, step.indexCols, Targets(step))
      case Err(e) => Err(e)
      case Ok(joined) => Ok(CombineTargets(joined, main.columns, Targets(step)))
  }

  /** The merge of a well-formed primary is well-formed, has the primary's
      columns and the targets, and its rows are the primary's rows filled
      from their matches: a primary row with no match once, with the
      secondary cells null; a row with several matches once per match. */
  lemma MergeFramesFill(main: Table, sub: Table, step: MergeStep)
    requires main.WellFormed() && MergeFrames(main, sub, step).Ok?
    ensures var out := MergeFrames(main, sub, step).value;
      && out.WellFormed()
      && out.columns == main.columns + ColumnSet(Targets(step))
      && out.rows == FillRows(main.rows, Picked(sub, step).value.rows, step.indexCols, Targets(step))
  {
    var ts := Targets(step);
    var left := main.columns;
    var right := Picked(sub, step).value;
    var joined := LeftJoin(main, right, step.indexCols, ts).value;
    var fs := FillRows(main.rows, right.rows, step.indexCols, ts);
    JoinRowsFill(main.rows, right.rows, step.indexCols, ts, left);
    assert joined.WellFormed();
    var out := CombineTargets(joined, left, ts);
    assert out.rows == fs;
    CombineRowKeys(Blank(joined.columns), JoinRow(Blank(left), None, ts, left), left, ts);
    CombineRowFill(Blank(left), None, ts, left);
  }

  /** A step whose picked columns are all distinct after the rename and
      whose rename leaves the key columns alone; every configured step is
      one (ConfiguredStepsWellShaped). */
  predicate WellShaped(step: MergeStep) {
    var ts := Targets(step);
    && (forall i, j :: 0 <= i < j < |ts| ==> ts[i] != ts[j])
    && (forall j :: 0 <= j < |ts| ==> step.mergeCols[j] !in step.indexCols && ts[j] !in step.indexCols)
    && (step.rename.Some? ==> step.rename.value.0 !in step.indexCols)
  }

  /** Every step of the consolidator's table is well shaped. */
  lemma ConfiguredStepsWellShaped()
    ensures forall j :: 0 <= j < |ConsolidatorSteps| ==> WellShaped(ConsolidatorSteps[j])
  {
    assert Targets(ConsolidatorSteps[0]) == ["pg", "scaled_total"];
    assert Targets(ConsolidatorSteps[1]) == ["ee_pg"];
    assert Targets(ConsolidatorSteps[2]) == ["tk_pg"];
  }

  /** Every step of the application's table is well shaped. */
  lemma AppStepsWellShaped()
    ensures forall k :: k in AppSteps ==> WellShaped(AppSteps[k])
  {
    assert Targets(AppSteps["Subject Results"]) == ["PG", "scaled_total"];
    assert Targets(AppSteps["(EXTENDED ESSAY)"]) == ["ee_pg"];
    assert Targets(AppSteps["(THEORY OF KNOWLEDGE)"]) == ["tk_pg"];
  }

  /** The columns a well-shaped step picks: the keys and the targets. */
  lemma PickedColumns(step: MergeStep)
    requires WellShaped(step)
    ensures RenameColumns(ColumnSet(step.indexCols + step.mergeCols), step.rename)
            == ColumnSet(step.indexCols) + ColumnSet(Targets(step))
  {
    var cols := step.indexCols + step.mergeCols;
    var ts := Targets(step);
    assert ColumnSet(cols) == ColumnSet(step.indexCols) + ColumnSet(step.mergeCols);
    match step.rename
    case None =>
      assert ts == step.mergeCols;
    case Some((from, to)) =>
      if from in ColumnSet(cols) {
        assert from in step.mergeCols;
        var jf :| 0 <= jf < |step.mergeCols| && step.mergeCols[jf] == from;
        assert ts == step.mergeCols[jf := to];
        assert ColumnSet(ts) == ColumnSet(step.mergeCols) - {from} + {to} by {
          assert forall j :: 0 <= j < |ts| && j != jf ==> step.mergeCols[j] != from;
        }
      } else {
        assert ts == step.mergeCols;
      }
  }

  /** For a well-shaped step each target of the picked frame holds its
      merge column's cell. */
  lemma PickedTarget(sub: Table, step: MergeStep, i: nat, j: nat)
    requires WellShaped(step) && Picked(sub, step).Ok? && i < |sub.rows| && j < |step.mergeCols|
    ensures Picked(sub, step).value.rows[i][Targets(step)[j]] == Cell(sub.rows[i], step.mergeCols[j])
  {
    var cols := step.indexCols + step.mergeCols;
    var picked := Select(sub, cols).value;
    assert Picked(sub, step).value == Rename(picked, step.rename);
    var r := picked.rows[i];
    assert step.mergeCols[j] in cols;
    assert forall c :: c in r ==> c in step.indexCols || c in step.mergeCols;
    RenamedTarget(r, step, j);
  }

  /** Renaming a row of a step's columns moves each merge column to its
      target. */
  lemma RenamedTarget(r: Record, step: MergeStep, j: nat)
    requires WellShaped(step) && j < |step.mergeCols| && step.mergeCols[j] in r
    requires forall c :: c in r ==> c in step.indexCols || c in step.mergeCols
    ensures Targets(step)[j] in RenameRecord(r, step.rename)
    ensures RenameRecord(r, step.rename)[Targets(step)[j]] == r[step.mergeCols[j]]
  {
    var ts := Targets(step);
    match step.rename
    case None =>
    case Some((from, to)) =>
      if from != step.mergeCols[j] && from in r {
        var jf :| 0 <= jf < |step.mergeCols| && step.mergeCols[jf] == from;
        assert ts[jf] == to && ts[j] == step.mergeCols[j];
        assert ts[j] != to;
      }
  }

  /** For a well-shaped step the key columns of the picked frame are the
      secondary's. */
  lemma PickedKey(sub: Table, step: MergeStep, i: nat, k: string)
    requires WellShaped(step) && Picked(sub, step).Ok? && i < |sub.rows| && k in step.indexCols
    ensures Picked(sub, step).value.rows[i][k] == Cell(sub.rows[i], k)
  {
    var cols := step.indexCols + step.mergeCols;
    var picked := Select(sub, cols).value;
    var r := picked.rows[i];
    assert Picked(sub, step).value == Rename(picked, step.rename);
    assert k in cols;
    match step.rename
    case None =>
    case Some((from, to)) =>
      if from in r {
        assert from in step.mergeCols;
        var jf :| 0 <= jf < |step.mergeCols| && step.mergeCols[jf] == from;
        assert Targets(step)[jf] == to;
      }
  }

  /** The fill of merge_ib_results, cell by cell, when every primary row
      has exactly one match: the secondary value of a target wins when it
      is non-null, the primary value survives otherwise, and every other
      primary cell is unchanged. */
  lemma MergeOneMatch(main: Table, sub: Table, step: MergeStep, i: nat)
    requires main.WellFormed() && MergeFrames(main, sub, step).Ok? && i < |main.rows|
    requires forall k :: 0 <= k < |main.rows| ==> |Matches(main.rows[k], Picked(sub, step).value.rows, step.indexCols)| == 1
    ensures var out := MergeFrames(main, sub, step).value;
      var m := Matches(main.rows[i], Picked(sub, step).value.rows, step.indexCols)[0];
      && |out.rows| == |main.rows|
      && m in Picked(sub, step).value.rows && KeysMatch(main.rows[i], m, step.indexCols)
      && (forall t :: t in Targets(step) ==>
            Cell(out.rows[i], t) == (if Cell(m, t).Some? then Cell(m, t) else Cell(main.rows[i], t)))
      && (forall c :: c in main.columns && c !in Targets(step) ==> Cell(out.rows[i], c) == Cell(main.rows[i], c))
  {
    MergeFramesFill(main, sub, step);
    var right := Picked(sub, step).value;
    FlatMapSingles(l => FillBlock(l, right.rows, step.indexCols, Targets(step)), main.rows);
  }

  /** A primary row that no secondary row matches keeps its cells, and
      the targets it lacked are null. */
  lemma MergeNoMatch(main: Table, sub: Table, step: MergeStep)
    requires main.WellFormed() && MergeFrames(main, sub, step).Ok?
    requires forall k :: 0 <= k < |main.rows| ==> Matches(main.rows[k], Picked(sub, step).value.rows, step.indexCols) == []
    ensures var out := MergeFrames(main, sub, step).value;
      && |out.rows| == |main.rows|
      && forall i, c :: 0 <= i < |main.rows| ==> Cell(out.rows[i], c) == Cell(main.rows[i], c)
  {
    MergeFramesFill(main, sub, step);
    var right := Picked(sub, step).value;
    FlatMapSingles(l => FillBlock(l, right.rows, step.indexCols, Targets(step)), main.rows);
  }

  /** The number of rows a primary row yields in the left join: one per
      matching secondary row, and one when nothing matches. */
  function BlockSize(l: Record, rights: seq<Record>, on: seq<string>): (n: nat)
    ensures n >= 1 && n >= |Matches(l, rights, on)|
    ensures n == 1 || n == |Matches(l, rights, on)|
  {
    var ms := Matches(l, rights, on);
    if ms == [] then 1 else |ms|
  }

  /** The number of rows the left join yields for the given primary rows. */
  function JoinedCount(lefts: seq<Record>, rights: seq<Record>, on: seq<string>): (n: nat)
    ensures n >= |lefts|
  {
    if lefts == [] then 0
    else JoinedCount(lefts[..|lefts| - 1], rights, on) + BlockSize(lefts[|lefts| - 1], rights, on)
  }

  /** The filled rows number JoinedCount. */
  lemma {:induction false} FillRowsCount(lefts: seq<Record>, rights: seq<Record>, on: seq<string>, ts: seq<string>)
    ensures |FillRows(lefts, rights, on, ts)| == JoinedCount(lefts, rights, on)
  {
    if lefts != [] {
      FillRowsCount(lefts[..|lefts| - 1], rights, on, ts);
    }
  }

  /** A block inside a concatenation sits right after the part before it. */
  lemma BlockInside<T>(rows: seq<T>, before: seq<T>, block: seq<T>, after: seq<T>)
    requires rows == before + block + after
    ensures |before| + |block| <= |rows|
    ensures rows[|before|..|before| + |block|] == block
  {
  }

  /** The filled rows hold, for primary row k, its fill block right after
      the blocks of the rows before it. */
  lemma FillRowsBlock(lefts: seq<Record>, rights: seq<Record>, on: seq<string>, ts: seq<string>, k: nat)
    requires k < |lefts|
    ensures var rows := FillRows(lefts, rights, on, ts);
      var start := JoinedCount(lefts[..k], rights, on);
      var size := BlockSize(lefts[k], rights, on);
      && |rows| == JoinedCount(lefts, rights, on)
      && start + size <= |rows|
      && rows[start..start + size] == FillBlock(lefts[k], rights, on, ts)
  {
    var f := l => FillBlock(l, rights, on, ts);
    FlatMapAt(f, lefts, k);
    FillRowsCount(lefts, rights, on, ts);
    FillRowsCount(lefts[..k], rights, on, ts);
    BlockInside(FillRows(lefts, rights, on, ts), FlatMap(f, lefts[..k]), f(lefts[k]), FlatMap(f, lefts[k + 1..]));
  }

  /** The merge yields, for primary row k, a run of BlockSize consecutive
      rows right after the runs of the rows before it, and that run is the
      row's fill block: one filled row per matching secondary row in the
      secondary's order, or one filled from nothing when none matches. No
      primary row is lost, and a primary row with several matches appears
      once per match. */
  lemma MergeRowCount(main: Table, sub: Table, step: MergeStep, k: nat, out: Table)
    requires main.WellFormed() && MergeFrames(main, sub, step) == Ok(out) && k < |main.rows|
    ensures var rights := Picked(sub, step).value.rows;
      var start := JoinedCount(main.rows[..k], rights, step.indexCols);
      var size := BlockSize(main.rows[k], rights, step.indexCols);
      && |out.rows| == JoinedCount(main.rows, rights, step.indexCols) >= |main.rows|
      && start + size <= |out.rows|
      && out.rows[start..start + size] == FillBlock(main.rows[k], rights, step.indexCols, Targets(step))
  {
    MergeFramesFill(main, sub, step);
    FillRowsBlock(main.rows, Picked(sub, step).value.rows, step.indexCols, Targets(step), k);
  }




  // ---------------------------------------------------------------------
  // merge_ib_results and the steps of ib_result_consolidator.main
  // ---------------------------------------------------------------------

  /** merge_ib_results: read the step's subject file, then merge it; the
      files are the tables pd.read_csv would give, by path. */
  function MergeFromFiles(main: Table, files: map<string, Table>, step: MergeStep): (r: Result<Table, Failure>)
    ensures SubjectPath(step.substring) !in files <==> r == Err(FileNotFound(SubjectPath(step.substring)))
    ensures SubjectPath(step.substring) in files ==> r == MergeFrames(main, files[SubjectPath(step.substring)], step)
  {
    var path := SubjectPath(step.substring);
    if path !in files then Err(FileNotFound(path)) else MergeFrames(main, files[path], step)
  }

  /** merge_ib_results: the secondary frame read from its file, then merged. */
  method MergeIbResults(main: Table, files: map<string, Table>, step: MergeStep) returns (r: Result<Table, Failure>)
    ensures r == MergeFromFiles(main, files, step)
  {
    var path := SubjectPath(step.substring);
    if path !in files {
      return Err(FileNotFound(path));
    }
    r := MergeInto(main, files[path], step);
  }

  /** The merge of one step, with its fill loop combining one target at a
      time into the joined frame (the body of merge_ib_results after the
      read, and the same lines inside the loop of consolidate_data). */
  method MergeInto(main: Table, sub: Table, step: MergeStep) returns (r: Result<Table, Failure>)
    ensures r == MergeFrames(main, sub, step)
  {
    var picked := Picked(sub, step);
    if picked.Err? {
      return Err(picked.error);
    }
    var joined := LeftJoin(main, picked.value, step.indexCols, Targets(step));
    if joined.Err? {
      return Err(joined.error);
    }
    var merged := joined.value;
    ghost var ts := Targets(step);
    for j := 0 to |step.mergeCols|
      invariant merged == CombineTargets(joined.value, main.columns, ts[..j])
    {
      var target := Target(step.rename, step.mergeCols[j]);
      CombineTargetsNext(joined.value, main.columns, ts, j);
      if target in main.columns && NewName(target) in merged.columns {
        merged := CombineColumn(merged, target);
      }
    }
    assert ts[..|step.mergeCols|] == ts;
    return Ok(merged);
  }

  /** The consolidator's loop over its steps, each merging into the
      previous result; the first failure ends it. */
  function RunSteps(main: Table, files: map<string, Table>, steps: seq<MergeStep>): Result<Table, Failure> {
    if steps == [] then Ok(main)
    else
      var n := |steps| - 1;
      match RunSteps(main, files, steps[..n])
      case Err(e) => Err(e)
      case Ok(t) => MergeFromFiles(t, files, steps[n])
  }

  /** A failed step ends the run with its error. */
  lemma {:induction false} RunStepsFailureSticks(main: Table, files: map<string, Table>, steps: seq<MergeStep>, n: nat)
    requires n <= |steps| && RunSteps(main, files, steps[..n]).Err?
    ensures RunSteps(main, files, steps) == RunSteps(main, files, steps[..n])
    decreases |steps| - n
  {
    if n < |steps| {
      var m := |steps| - 1;
      assert steps[..m][..n] == steps[..n];
      RunStepsFailureSticks(main, files, steps[..m], n);
    } else {
      assert steps[..n] == steps;
    }
  }

  /** ib_result_consolidator.main between reading the student-level file
      and reshaping: the configured steps in order, each on the previous
      step's output. */
  method RunMergeSteps(main: Table, files: map<string, Table>) returns (r: Result<Table, Failure>)
    ensures r == RunSteps(main, files, ConsolidatorSteps)
  {
    var steps := ConsolidatorSteps;
    var current := main;
    for j := 0 to |steps|
      invariant RunSteps(main, files, steps[..j]) == Ok(current)
    {
      var next := MergeIbResults(current, files, steps[j]);
      RunStepsNext(main, files, steps, j, current, next);
      if next.Err? {
        RunStepsFailureSticks(main, files, steps, j + 1);
        return next;
      }
      current := next.value;
    }
    assert steps[..|steps|] == steps;
    return Ok(current);
  }

  /** One more step runs on the output of the steps before it. */
  lemma RunStepsNext(main: Table, files: map<string, Table>, steps: seq<MergeStep>, j: nat, current: Table, next: Result<Table, Failure>)
    requires j < |steps| && RunSteps(main, files, steps[..j]) == Ok(current)
    requires next == MergeFromFiles(current, files, steps[j])
    ensures RunSteps(main, files, steps[..j + 1]) == next
  {
    assert steps[..j + 1][..j] == steps[..j];
  }

  /** Every target of a list of steps. */
  function StepTargets(steps: seq<MergeStep>): set<string> {
    if steps == [] then {}
    else StepTargets(steps[..|steps| - 1]) + ColumnSet(Targets(steps[|steps| - 1]))
  }

  /** A successful run of steps over a well-formed frame is well-formed and
      adds exactly the steps' targets to its columns. */
  lemma {:induction false} RunStepsColumns(main: Table, files: map<string, Table>, steps: seq<MergeStep>)
    requires main.WellFormed() && RunSteps(main, files, steps).Ok?
    ensures RunSteps(main, files, steps).value.WellFormed()
    ensures RunSteps(main, files, steps).value.columns == main.columns + StepTargets(steps)
  {
    if steps != [] {
      var n := |steps| - 1;
      RunStepsColumns(main, files, steps[..n]);
      var t := RunSteps(main, files, steps[..n]).value;
      MergeFramesFill(t, files[SubjectPath(steps[n].substring)], steps[n]);
    }
  }

  /** The consolidator's run ends with the student-level columns plus pg,
      scaled_total, ee_pg and tk_pg: the first step has no rename map, so
      the subject file's pg lands beside the student-level PG rather than
      filling it. */
  lemma ConsolidatorColumns(main: Table, files: map<string, Table>)
    requires main.WellFormed() && RunSteps(main, files, ConsolidatorSteps).Ok?
    ensures RunSteps(main, files, ConsolidatorSteps).value.WellFormed()
    ensures RunSteps(main, files, ConsolidatorSteps).value.columns == main.columns + {"pg", "scaled_total", "ee_pg", "tk_pg"}
  {
    RunStepsColumns(main, files, ConsolidatorSteps);
    ConsolidatorTargets();
  }

  /** The targets of the consolidator's steps. */
  lemma ConsolidatorTargets()
    ensures StepTargets(ConsolidatorSteps) == {"pg", "scaled_total", "ee_pg", "tk_pg"}
  {
    var steps := ConsolidatorSteps;
    assert steps[..3][..2] == steps[..2];
    assert steps[..2][..1] == steps[..1];
    assert steps[..1][..0] == [];
    assert Targets(steps[0]) == ["pg", "scaled_total"];
    assert Targets(steps[1]) == ["ee_pg"];
    assert Targets(steps[2]) == ["tk_pg"];
    assert StepTargets(steps[..1]) == {"pg", "scaled_total"};
    assert StepTargets(steps[..2]) == {"pg", "scaled_total", "ee_pg"};
    assert steps[..3] == steps;
  }

  /** Without the standard subject file the consolidator stops at its
      first step with the error pd.read_csv raises. */
  lemma ConsolidatorNeedsSubjectFile(main: Table, files: map<string, Table>)
    requires "exam_results_subject_.csv" !in files
    ensures RunSteps(main, files, ConsolidatorSteps) == Err(FileNotFound("exam_results_subject_.csv"))
  {
    SubjectPathNames("", "");
    assert ConsolidatorSteps[..1][..0] == [];
    RunStepsFailureSticks(main, files, ConsolidatorSteps, 1);
  }
}
