/**
 * The record table as a whole: its column names in order, its columns and
 * its row count, and `extract_target`, which splits the target column off.
 */
module Tables {
  import opened Wrappers
  import opened Series
  import opened Impute

  /** A table: column names in order, the column under each name, and the row count. */
  datatype Table = Table(names: seq<string>, columns: Columns, rows: nat)

  predicate Distinct(names: seq<string>) {
    forall i, j :: 0 <= i < j < |names| ==> names[i] != names[j]
  }

  /** The names are distinct and name exactly the columns, and every column has one cell per row. */
  predicate WellFormed(t: Table) {
    && Distinct(t.names)
    && (forall c :: c in t.columns ==> c in t.names)
    && (forall i :: 0 <= i < |t.names| ==> t.names[i] in t.columns)
    && (forall c :: c in t.columns ==> |t.columns[c]| == t.rows)
  }

  /** Replacing the columns by ones with the same names and lengths keeps a table well formed. */
  lemma WellFormedReplace(t: Table, cols: Columns)
    requires WellFormed(t)
    requires cols.Keys == t.columns.Keys
    requires forall c :: c in cols ==> |cols[c]| == |t.columns[c]|
    ensures WellFormed(Table(t.names, cols, t.rows))
  {
    assert forall c :: c in cols <==> c in t.columns;
  }

  /** `names` without `x`, the others in their order. */
  function Remove(names: seq<string>, x: string): (r: seq<string>)
    ensures forall y :: y in r <==> y in names && y != x
    ensures Distinct(names) ==> Distinct(r)
    ensures x !in names ==> r == names
    ensures |r| <= |names|
  {
    if names == [] then []
    else
      assert forall i :: 0 <= i < |names| - 1 ==> names[1..][i] == names[i + 1];
      assert Distinct(names) ==> Distinct(names[1..]) && names[0] !in names[1..];
      if names[0] == x then Remove(names[1..], x)
      else [names[0]] + Remove(names[1..], x)
  }

  /** In a list of distinct names, removing the one at position `k` leaves the names before and after it. */
  lemma {:induction false} RemoveAt(names: seq<string>, k: nat)
    requires k < |names| && Distinct(names)
    ensures Remove(names, names[k]) == names[..k] + names[k + 1..]
  {
    if k == 0 {
      assert names[1..] == names[..0] + names[1..];
      assert names[0] !in names[1..];
    } else {
      RemoveAt(names[1..], k - 1);
      assert names[1..][k - 1] == names[k];
      assert names[1..][..k - 1] + names[1..][k..] == names[1..k] + names[k + 1..];
      assert [names[0]] + names[1..k] == names[..k];
    }
  }

  /**
   * `extract_target`: the table without the target column, and a copy of the
   * target column. Raises when the table has no such column.
   */
  function ExtractTarget(t: Table, target: string): (r: Result<(Table, Column), Error>)
    requires WellFormed(t)
    ensures r.Failure? <==> target !in t.columns
    ensures r.Failure? ==> r.error == MissingColumn(target)
    ensures r.Success? ==>
              var (features, y) := r.value;
              && WellFormed(features)
              && features.rows == t.rows
              && features.columns == t.columns - {target}
              && y == t.columns[target]
              && |y| == t.rows
  {
    if target !in t.columns then Failure(MissingColumn(target))
    else
      var names := Remove(t.names, target);
      assert forall i :: 0 <= i < |names| ==> names[i] in names;
      Success((Table(names, t.columns - {target}, t.rows), t.columns[target]))
  }

  /** The features keep the input's column order, with the target's name taken out where it stood. */
  lemma ExtractTargetOrder(t: Table, target: string, k: nat)
    requires WellFormed(t) && k < |t.names| && t.names[k] == target
    ensures ExtractTarget(t, target).Success?
    ensures ExtractTarget(t, target).value.0.names == t.names[..k] + t.names[k + 1..]
  {
    RemoveAt(t.names, k);
  }

  /** Putting the target column back gives the input's columns and column names. */
  lemma ExtractTargetReattach(t: Table, target: string)
    requires WellFormed(t) && target in t.columns
    ensures var (features, y) := ExtractTarget(t, target).value;
              && features.columns[target := y] == t.columns
              && (forall c :: c in features.names || c == target <==> c in t.names)
  {
    var (features, y) := ExtractTarget(t, target).value;
    assert features.columns[target := y].Keys == t.columns.Keys;
  }
}
