/** The two reports built from the consolidated frame (reformat_results_sub
    and reformat_results_overall of ib_result_handler_summary.py) and their
    outer join on the candidate key (consolidate_data of app.py). Both
    reports have a two-level column index, a column here being a pair. */
module Reshape {
  import opened Wrappers
  import opened Sorting
  import opened Text
  import opened Patterns
  import opened Tables

  /** common_keys: the columns that identify a candidate. */
  const CommonKeys: seq<string> := ["session_number", "personal_code", "name", "birth_date"]

  /** The value fields of the subject report, in the order its columns take. */
  const PivotFields: seq<string> := ["sub", "uni_pg", "PG", "FG", "scaled_total"]

  /** A candidate key: the values of the common keys, in order. */
  type Key = seq<string>

  /** The group-by key of a row; None where a key cell is null, since
      group-by drops such rows. */
  function KeyOf(r: Record): (k: Option<Key>)
    ensures k.Some? <==> forall j :: 0 <= j < |CommonKeys| ==> Cell(r, CommonKeys[j]).Some?
    ensures k.Some? ==> |k.value| == |CommonKeys| && forall j :: 0 <= j < |CommonKeys| ==> Cell(r, CommonKeys[j]) == Some(k.value[j])
  {
    if forall j :: 0 <= j < |CommonKeys| ==> Cell(r, CommonKeys[j]).Some? then
      Some(seq(|CommonKeys|, j requires 0 <= j < |CommonKeys| => Cell(r, CommonKeys[j]).value))
    else None
  }

  /** The order group-by sorts keys in: tuples of str compared in Python. */
  predicate KeyBelow(a: Key, b: Key) {
    Lex(Below, a, b)
  }

  lemma KeyOrder()
    ensures StrictOrder(KeyBelow)
  {
    BelowOrder();
    forall a ensures !KeyBelow(a, a) { LexIrreflexive(Below, a); }
    forall a, b, c | KeyBelow(a, b) && KeyBelow(b, c) ensures KeyBelow(a, c) { LexTransitive(Below, a, b, c); }
    forall a, b | a != b ensures KeyBelow(a, b) || KeyBelow(b, a) { LexTotal(Below, a, b); }
  }

  /** A report: its columns in order and its rows, each a key and a cell
      per column. */
  datatype Report = Report(columns: seq<(string, string)>, rows: seq<ReportRow>) {
    /** Every row has a cell for exactly the report's columns, and the keys
        ascend, so each key has one row. */
    ghost predicate WellFormed() {
      && (forall i :: 0 <= i < |rows| ==> rows[i].cells.Keys == set c | c in columns)
      && SortedBy(KeyBelow, RowKeys(rows))
    }
  }

  datatype ReportRow = ReportRow(key: Key, cells: map<(string, string), Option<string>>)

  /** The candidates of the rows, in order. */
  function RowKeys(rows: seq<ReportRow>): (ks: seq<Key>)
    ensures |ks| == |rows| && forall i :: 0 <= i < |rows| ==> ks[i] == rows[i].key
  {
    seq(|rows|, i requires 0 <= i < |rows| => rows[i].key)
  }

  /** A row per candidate, in the order of keys, each with the cells cells
      gives it. */
  function RowsFor(keys: seq<Key>, cells: Key -> map<(string, string), Option<string>>): (rows: seq<ReportRow>)
    ensures RowKeys(rows) == keys
    ensures forall i :: 0 <= i < |rows| ==> rows[i].cells == cells(keys[i])
  {
    seq(|keys|, i requires 0 <= i < |keys| => ReportRow(keys[i], cells(keys[i])))
  }

  // ---------------------------------------------------------------------
  // Grouping: the first non-null value of a column within a group
  // ---------------------------------------------------------------------

  /** Row r belongs to the group of key k and, where given, of subject s. */
  predicate InGroup(r: Record, k: Key, s: Option<string>) {
    KeyOf(r) == Some(k) && (s.None? || Cell(r, "subject_") == s)
  }

  /** groupby(...).first() on column c: the first non-null value of c
      among the group's rows, null if there is none. */
  function GroupFirst(rows: seq<Record>, k: Key, s: Option<string>, c: string): (v: Option<string>)
    ensures v.Some? ==> exists i :: 0 <= i < |rows| && InGroup(rows[i], k, s) && Cell(rows[i], c) == v
    ensures v.None? <==> forall i :: 0 <= i < |rows| && InGroup(rows[i], k, s) ==> Cell(rows[i], c).None?
    decreases |rows|
  {
    if rows == [] then None
    else if InGroup(rows[0], k, s) && Cell(rows[0], c).Some? then Cell(rows[0], c)
    else
      var v := GroupFirst(rows[1..], k, s, c);
      assert forall i :: 1 <= i < |rows| ==> rows[i] == rows[1..][i - 1];
      v
  }

  /** Row i is the first row of the group whose cell c is not null. */
  predicate FirstOfGroupAt(rows: seq<Record>, k: Key, s: Option<string>, c: string, i: nat) {
    && i < |rows| && InGroup(rows[i], k, s) && Cell(rows[i], c).Some?
    && forall j :: 0 <= j < i && InGroup(rows[j], k, s) ==> Cell(rows[j], c).None?
  }

  /** GroupFirst is the value of the first group row whose cell is not
      null. */
  lemma {:induction false} GroupFirstIsFirst(rows: seq<Record>, k: Key, s: Option<string>, c: string)
    requires GroupFirst(rows, k, s, c).Some?
    ensures exists i: nat :: FirstOfGroupAt(rows, k, s, c, i) && Cell(rows[i], c) == GroupFirst(rows, k, s, c)
    decreases |rows|
  {
    if !(InGroup(rows[0], k, s) && Cell(rows[0], c).Some?) {
      var rest := rows[1..];
      GroupFirstIsFirst(rest, k, s, c);
      assert GroupFirst(rows, k, s, c) == GroupFirst(rest, k, s, c);
      var i: nat :| FirstOfGroupAt(rest, k, s, c, i) && Cell(rest[i], c) == GroupFirst(rest, k, s, c);
      forall j | 0 <= j < i + 1 && InGroup(rows[j], k, s) ensures Cell(rows[j], c).None? {
        if j > 0 { assert rows[j] == rest[j - 1]; }
      }
      assert rows[i + 1] == rest[i];
    } else {
      assert FirstOfGroupAt(rows, k, s, c, 0);
    }
  }

  /** The keys of the rows that have one, sorted and without repeats. */
  function SortedKeys(rows: seq<Record>): (ks: seq<Key>)
    ensures SortedBy(KeyBelow, ks)
    ensures forall k :: k in ks <==> exists r :: r in rows && KeyOf(r) == Some(k)
  {
    KeyOrder();
    SortedSet(KeyBelow, KeysIn(rows))
  }

  /** The keys of the rows that have one, in row order. */
  function KeysIn(rows: seq<Record>): (ks: seq<Key>)
    ensures forall k :: k in ks <==> exists r :: r in rows && KeyOf(r) == Some(k)
  {
    if rows == [] then []
    else
      var n := |rows| - 1;
      var init := KeysIn(rows[..n]);
      assert rows == rows[..n] + [rows[n]];
      match KeyOf(rows[n])
      case None => init
      case Some(k) => init + [k]
  }

  /** The sorted keys of the rows that pass p are the keys of exactly those
      rows. */
  lemma SortedKeysOfFilter(p: Record -> bool, rows: seq<Record>)
    ensures forall k :: k in SortedKeys(Filter(p, rows)) <==> exists r :: r in rows && p(r) && KeyOf(r) == Some(k)
  {
  }

  /** Two records agree on every column outside drop. */
  ghost predicate AgreeOutside(a: Record, b: Record, drop: set<string>) {
    forall c :: c !in drop ==> Cell(a, c) == Cell(b, c)
  }

  /** Row by row agreement outside drop. */
  ghost predicate RowsAgreeOutside(xs: seq<Record>, ys: seq<Record>, drop: set<string>) {
    |xs| == |ys| && forall i :: 0 <= i < |xs| ==> AgreeOutside(xs[i], ys[i], drop)
  }

  /** Rows that agree on the keys agree on their keys. */
  lemma KeyOfAgree(a: Record, b: Record, drop: set<string>)
    requires AgreeOutside(a, b, drop)
    requires forall j :: 0 <= j < |CommonKeys| ==> CommonKeys[j] !in drop
    ensures KeyOf(a) == KeyOf(b)
  {
    forall j | 0 <= j < |CommonKeys| ensures Cell(a, CommonKeys[j]) == Cell(b, CommonKeys[j]) {
    }
    if KeyOf(a).Some? {
      var ka, kb := KeyOf(a).value, KeyOf(b).value;
      assert |ka| == |kb| && forall j :: 0 <= j < |CommonKeys| ==> ka[j] == kb[j];
      assert ka == kb;
    }
  }

  lemma RowsAgreeTail(xs: seq<Record>, ys: seq<Record>, drop: set<string>)
    requires xs != [] && RowsAgreeOutside(xs, ys, drop)
    ensures AgreeOutside(xs[0], ys[0], drop) && RowsAgreeOutside(xs[1..], ys[1..], drop)
  {
    forall i | 0 <= i < |xs| - 1 ensures AgreeOutside(xs[1..][i], ys[1..][i], drop) {
      assert xs[1..][i] == xs[i + 1] && ys[1..][i] == ys[i + 1];
    }
  }

  /** Changing only columns outside the keys, subject_ and c does not
      change the first value of c in any group. */
  lemma {:induction false} GroupFirstAgree(xs: seq<Record>, ys: seq<Record>, drop: set<string>, k: Key, s: Option<string>, c: string)
    requires RowsAgreeOutside(xs, ys, drop)
    requires forall j :: 0 <= j < |CommonKeys| ==> CommonKeys[j] !in drop
    requires "subject_" !in drop && c !in drop
    ensures GroupFirst(xs, k, s, c) == GroupFirst(ys, k, s, c)
    decreases |xs|
  {
    if xs != [] {
      RowsAgreeTail(xs, ys, drop);
      KeyOfAgree(xs[0], ys[0], drop);
      assert Cell(xs[0], "subject_") == Cell(ys[0], "subject_") && Cell(xs[0], c) == Cell(ys[0], c);
      GroupFirstAgree(xs[1..], ys[1..], drop, k, s, c);
    }
  }

  /** Changing only columns outside the keys does not change the keys. */
  lemma {:induction false} SortedKeysAgree(xs: seq<Record>, ys: seq<Record>, drop: set<string>)
    requires RowsAgreeOutside(xs, ys, drop)
    requires forall j :: 0 <= j < |CommonKeys| ==> CommonKeys[j] !in drop
    ensures SortedKeys(xs) == SortedKeys(ys)
  {
    forall k ensures k in SortedKeys(xs) <==> k in SortedKeys(ys) {
      if k in SortedKeys(xs) {
        var r :| r in xs && KeyOf(r) == Some(k);
        var i := Find(xs, r);
        KeyOfAgree(xs[i], ys[i], drop);
        assert ys[i] in ys;
      }
      if k in SortedKeys(ys) {
        var r :| r in ys && KeyOf(r) == Some(k);
        var i := Find(ys, r);
        KeyOfAgree(xs[i], ys[i], drop);
        assert xs[i] in xs;
      }
    }
    KeyOrder();
    SortedByUnique(KeyBelow, SortedKeys(xs), SortedKeys(ys));
  }
}
