/** The data frames of the pipeline, reduced to what the handlers rely on:
    a set of column names and a list of rows, each row a record from column
    name to a value that may be null. */
module Tables {
  import opened Wrappers
  import opened Text

  /** One row: column name to cell value; None is pandas' NaN/None. */
  type Record = map<string, Option<string>>

  datatype Table = Table(columns: set<string>, rows: seq<Record>) {
    /** Every row has exactly the table's columns. */
    predicate WellFormed() {
      forall i :: 0 <= i < |rows| ==> rows[i].Keys == columns
    }
  }

  /** The Python exceptions that end a run of the pipeline. */
  datatype Failure =
    | MissingColumn(column: string)          // KeyError on df[...] or merge(on=...)
    | FileNotFound(path: string)             // pd.read_csv on a path that is not there
    | ShortDataLine(line: string)            // IndexError on parts[i]
    | UnknownSubjectType(subjectType: string) // TypeError on i + None
    | NoTextPages                            // UnboundLocalError on str_subject_type
    | SplitWidth(column: string)             // ValueError: a split with expand=True gave one column for two
    | DuplicateColumn(column: string)        // MergeError: the join suffixes give two columns one name
    | SharedReportColumn(group: string, field: string) // the two reports of the final join share a column
    | UnrecordedFileType(fileType: string)   // KeyError on processed_files[...]

  /** A cell, or None where the record has no such column. */
  function Cell(r: Record, c: string): Option<string> {
    if c in r then r[c] else None
  }

  /** Some row holds in column c a value that contains sep: only then does
      `str.split(sep, n=1, expand=True)` produce two columns. */
  predicate SomeCellContains(rows: seq<Record>, c: string, sep: string)
    decreases |rows|
  {
    rows != [] && ((Cell(rows[0], c).Some? && Contains(Cell(rows[0], c).value, sep)) || SomeCellContains(rows[1..], c, sep))
  }

  /** SomeCellContains holds exactly when one of the rows has such a value. */
  lemma {:induction false} SomeCellContainsRow(rows: seq<Record>, c: string, sep: string)
    ensures SomeCellContains(rows, c, sep) <==>
            exists i :: 0 <= i < |rows| && Cell(rows[i], c).Some? && Contains(Cell(rows[i], c).value, sep)
  {
    if rows != [] {
      SomeCellContainsRow(rows[1..], c, sep);
      if !(Cell(rows[0], c).Some? && Contains(Cell(rows[0], c).value, sep)) && !SomeCellContains(rows[1..], c, sep) {
        forall i | 0 <= i < |rows| ensures !(Cell(rows[i], c).Some? && Contains(Cell(rows[i], c).value, sep)) {
          if i > 0 { assert rows[i] == rows[1..][i - 1]; }
        }
      }
      if SomeCellContains(rows[1..], c, sep) {
        var i :| 0 <= i < |rows[1..]| && Cell(rows[1..][i], c).Some? && Contains(Cell(rows[1..][i], c).value, sep);
        assert rows[i + 1] == rows[1..][i];
      }
    }
  }

  /** The first column of cols that the table lacks. */
  function FirstMissing(cols: seq<string>, have: set<string>): (r: Option<string>)
    ensures r.None? <==> (forall i :: 0 <= i < |cols| ==> cols[i] in have)
    ensures r.Some? ==> r.value in cols && r.value !in have
  {
    if cols == [] then None
    else if cols[0] !in have then Some(cols[0])
    else FirstMissing(cols[1..], have)
  }

  /** All keys that occur in some record. */
  function KeysOf(records: seq<Record>): (r: set<string>)
    ensures forall c :: c in r <==> exists i :: 0 <= i < |records| && c in records[i]
  {
    if records == [] then {}
    else
      var rest := KeysOf(records[1..]);
      assert forall c :: c in rest <==> exists i :: 1 <= i < |records| && c in records[i] by {
        forall c | c in rest ensures exists i :: 1 <= i < |records| && c in records[i] {
          var i :| 0 <= i < |records[1..]| && c in records[1..][i];
          assert c in records[i + 1];
        }
        forall c | (exists i :: 1 <= i < |records| && c in records[i]) ensures c in rest {
          var i :| 1 <= i < |records| && c in records[i];
          assert c in records[1..][i - 1];
        }
      }
      records[0].Keys + rest
  }

  /** The record over exactly the given columns: its own cells, None where it
      lacks one, and nothing outside them. */
  function Widen(r: Record, cols: set<string>): (w: Record)
    ensures w.Keys == cols
    ensures forall c :: c in cols ==> w[c] == Cell(r, c)
  {
    map c | c in cols :: Cell(r, c)
  }

  /** pd.json_normalize(records) for flat dicts: the columns are every key
      that occurs, and a record without a key has None there. */
  function Normalize(records: seq<Record>): (t: Table)
    ensures t.WellFormed()
    ensures |t.rows| == |records|
    ensures forall c :: c in t.columns <==> exists i :: 0 <= i < |records| && c in records[i]
    ensures forall i, c :: 0 <= i < |records| && c in records[i] ==> t.rows[i][c] == records[i][c]
    ensures forall i, c :: 0 <= i < |records| && c in t.columns && c !in records[i] ==> t.rows[i][c] == None
  {
    var cols := KeysOf(records);
    Table(cols, seq(|records|, i requires 0 <= i < |records| => Widen(records[i], cols)))
  }
}
