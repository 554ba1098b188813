/**
 * The slice of pandas `DataFrame` behaviour the HSS manifest builder uses:
 * positional row slicing (`iloc`), assigning a list to a column, and
 * replacing the column labels. A frame read by `read_csv` is rectangular
 * and its column labels are distinct (duplicates are renamed on reading).
 */
module Tables {
  import opened Results

  /** A column label: a header name, or a position when read with `header=None`. */
  datatype Column = Named(name: string) | Position(index: nat)

  datatype Table = Table(columns: seq<Column>, rows: seq<seq<string>>)

  /** `ValueError` raised when a list's length does not match the axis it is assigned to. */
  datatype TableError = LengthMismatch

  ghost predicate WellFormed(t: Table) {
    && (forall i, j :: 0 <= i < j < |t.columns| ==> t.columns[i] != t.columns[j])
    && (forall k :: 0 <= k < |t.rows| ==> |t.rows[k]| == |t.columns|)
  }

  /** The column labels `read_csv(..., header=None)` gives: 0, 1, 2, ... */
  ghost predicate Headerless(t: Table) {
    forall i :: 0 <= i < |t.columns| ==> t.columns[i] == Position(i)
  }

  /** Where column `c` is. */
  function IndexOf(columns: seq<Column>, c: Column): (i: nat)
    requires c in columns
    ensures i < |columns| && columns[i] == c
    ensures forall j :: 0 <= j < i ==> columns[j] != c
  {
    if columns[0] == c then 0 else 1 + IndexOf(columns[1..], c)
  }

  /** `t[c]` as a list: the cell of column `c` in every row, top to bottom. */
  function ColumnValues(t: Table, c: Column): (vs: seq<string>)
    requires WellFormed(t) && c in t.columns
    ensures |vs| == |t.rows|
  {
    var i := IndexOf(t.columns, c);
    seq(|t.rows|, k requires 0 <= k < |t.rows| => t.rows[k][i])
  }

  /** `t.iloc[:n, :]`: the first `n` rows, or all of them when there are fewer. */
  function Head(t: Table, n: nat): (r: Table)
    requires WellFormed(t)
    ensures WellFormed(r) && r.columns == t.columns
    ensures |r.rows| == if n <= |t.rows| then n else |t.rows|
    ensures r.rows == t.rows[..|r.rows|]
  {
    Table(t.columns, if n <= |t.rows| then t.rows[..n] else t.rows)
  }

  /** Each column of `t.iloc[:n, :]` is the start of that column of `t`. */
  lemma HeadColumn(t: Table, n: nat, d: Column)
    requires WellFormed(t) && d in t.columns
    ensures ColumnValues(Head(t, n), d) == ColumnValues(t, d)[..|Head(t, n).rows|]
  {
  }

  /** `t.iloc[n:, :]`: the rows from position `n` on (none when there are fewer). */
  function Tail(t: Table, n: nat): (r: Table)
    requires WellFormed(t)
    ensures WellFormed(r) && r.columns == t.columns
    ensures |r.rows| == if n <= |t.rows| then |t.rows| - n else 0
    ensures r.rows == t.rows[|t.rows| - |r.rows|..]
  {
    Table(t.columns, if n <= |t.rows| then t.rows[n..] else [])
  }

  /** Each column of `t.iloc[n:, :]` is the end of that column of `t`. */
  lemma TailColumn(t: Table, n: nat, d: Column)
    requires WellFormed(t) && d in t.columns
    ensures ColumnValues(Tail(t, n), d) == ColumnValues(t, d)[|t.rows| - |Tail(t, n).rows|..]
  {
  }

  /** A missing value (NaN); `to_csv` writes it as an empty field. */
  const MISSING: string := ""

  /**
   * `t[c] = values`: replaces column `c` when the frame has it, appends it
   * as the last column otherwise; a list of the wrong length is a
   * `ValueError`. A frame with no rows takes its rows from a non-empty list
   * instead, every other column holding `MISSING`.
   */
  function AssignColumn(t: Table, c: Column, values: seq<string>): (r: Result<Table, TableError>)
    requires WellFormed(t)
    ensures r.Ok? <==> |values| == |t.rows| || |t.rows| == 0
    ensures r.Ok? ==> WellFormed(r.value) && |r.value.rows| == |values|
    ensures r.Ok? ==> r.value.columns == if c in t.columns then t.columns else t.columns + [c]
    ensures r.Ok? ==> ColumnValues(r.value, c) == values
  {
    if |values| != |t.rows| && |t.rows| != 0 then Err(LengthMismatch)
    else
      var base := if |t.rows| == 0 then Reindexed(t, |values|) else t;
      if c in base.columns then Ok(SetColumn(base, c, values)) else Ok(AppendColumn(base, c, values))
  }

  /** Column `c`, which `t` has, overwritten with `values`, one per row. */
  function SetColumn(t: Table, c: Column, values: seq<string>): (r: Table)
    requires WellFormed(t) && c in t.columns && |values| == |t.rows|
    ensures WellFormed(r) && r.columns == t.columns && |r.rows| == |values|
    ensures forall k :: 0 <= k < |values| ==> r.rows[k] == t.rows[k][IndexOf(t.columns, c) := values[k]]
    ensures ColumnValues(r, c) == values
  {
    var i := IndexOf(t.columns, c);
    Table(t.columns, seq(|values|, k requires 0 <= k < |values| => t.rows[k][i := values[k]]))
  }

  /** `t` with column `c`, which it lacks, added last and holding `values`, one per row. */
  function AppendColumn(t: Table, c: Column, values: seq<string>): (r: Table)
    requires WellFormed(t) && c !in t.columns && |values| == |t.rows|
    ensures WellFormed(r) && r.columns == t.columns + [c] && |r.rows| == |values|
    ensures forall k :: 0 <= k < |values| ==> r.rows[k] == t.rows[k] + [values[k]]
    ensures ColumnValues(r, c) == values
  {
    var cols := t.columns + [c];
    var r := Table(cols, seq(|values|, k requires 0 <= k < |values| => t.rows[k] + [values[k]]));
    assert IndexOf(cols, c) == |t.columns|;
    r
  }

  /** `t` given `n` rows of `MISSING`, as the index of an empty frame is rebuilt on assignment. */
  function Reindexed(t: Table, n: nat): (r: Table)
    requires WellFormed(t)
    ensures WellFormed(r) && r.columns == t.columns && |r.rows| == n
    ensures forall k, i :: 0 <= k < n && 0 <= i < |t.columns| ==> r.rows[k][i] == MISSING
  {
    Table(t.columns, seq(n, _ => seq(|t.columns|, _ => MISSING)))
  }

  /** Assigning column `c` leaves every other column as it was. */
  lemma AssignColumnKeeps(t: Table, c: Column, values: seq<string>, d: Column)
    requires WellFormed(t) && |values| == |t.rows| && d in t.columns && d != c
    ensures ColumnValues(AssignColumn(t, c, values).value, d) == ColumnValues(t, d)
  {
    var u := AssignColumn(t, c, values).value;
    var j := IndexOf(t.columns, d);
    if c in t.columns {
      assert IndexOf(t.columns, c) != j;
    } else {
      assert IndexOf(t.columns + [c], d) == j;
    }
  }

  /**
   * Assigning a list to a frame with no rows gives it one row per value:
   * every other column is `MISSING` throughout.
   */
  lemma AssignColumnOnEmpty(t: Table, c: Column, values: seq<string>, d: Column)
    requires WellFormed(t) && |t.rows| == 0 && d in t.columns && d != c
    ensures ColumnValues(AssignColumn(t, c, values).value, d) == seq(|values|, _ => MISSING)
  {
    var j := IndexOf(t.columns, d);
    if c in t.columns {
      assert IndexOf(t.columns, c) != j;
    } else {
      assert IndexOf(t.columns + [c], d) == j;
    }
  }

  /** `t.columns = names`: relabels the columns; a label list of the wrong length is a `ValueError`. */
  function Relabel(t: Table, names: seq<string>): (r: Result<Table, TableError>)
    requires WellFormed(t)
    requires forall i, j :: 0 <= i < j < |names| ==> names[i] != names[j]
    ensures r.Ok? <==> |names| == |t.columns|
    ensures r.Ok? ==> WellFormed(r.value) && r.value.rows == t.rows && |r.value.columns| == |names|
    ensures r.Ok? ==> forall i :: 0 <= i < |names| ==> r.value.columns[i] == Named(names[i])
  {
    if |names| != |t.columns| then Err(LengthMismatch)
    else
      var u := Table(seq(|names|, i requires 0 <= i < |names| => Named(names[i])), t.rows);
      assert forall i :: 0 <= i < |names| ==> u.columns[i] == Named(names[i]);
      assert WellFormed(u);
      Ok(u)
  }

  /** After relabelling, the column named `names[i]` holds what column `i` held. */
  lemma RelabelColumn(t: Table, names: seq<string>, i: nat)
    requires WellFormed(t) && (forall i, j :: 0 <= i < j < |names| ==> names[i] != names[j])
    requires |names| == |t.columns| && i < |names|
    ensures Named(names[i]) in Relabel(t, names).value.columns
    ensures ColumnValues(Relabel(t, names).value, Named(names[i])) == ColumnValues(t, t.columns[i])
  {
    var u := Relabel(t, names).value;
    assert u.columns[i] == Named(names[i]);
    assert IndexOf(u.columns, Named(names[i])) == i;
    assert IndexOf(t.columns, t.columns[i]) == i;
  }
}
