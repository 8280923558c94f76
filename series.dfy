/**
 * Cells and columns of a record table, and the two column operations that
 * `fill_fields` relies on: `fillna` and the most frequent observed value
 * (`value_counts().index[0]`).
 */
module Series {
  import opened Wrappers

  /** A cell value: a label or a number (pandas object or float columns). */
  datatype Value = Text(s: string) | Number(x: real)

  /** A cell is missing (`NaN`) or holds a value. */
  type Cell = Option<Value>

  /** A column holds one cell per row, in row order. */
  type Column = seq<Cell>

  /** Why a table operation raised instead of returning a table. */
  datatype Error =
    | MissingColumn(name: string)    // `df[name]` on an absent column (KeyError)
    | NoObservedValue(name: string)  // `index[0]` on an empty `value_counts()` (IndexError)

  predicate NoMissing(col: Column) {
    forall i :: 0 <= i < |col| ==> col[i].Some?
  }

  predicate HasObserved(col: Column) {
    exists i :: 0 <= i < |col| && col[i].Some?
  }

  /** `Series.fillna(v)`: every missing cell becomes `v`, every present cell is kept. */
  function FillNa(col: Column, v: Value): (r: Column)
    ensures |r| == |col|
    ensures NoMissing(r)
    ensures forall i :: 0 <= i < |col| && col[i].Some? ==> r[i] == col[i]
    ensures forall i :: 0 <= i < |col| && col[i].None? ==> r[i] == Some(v)
  {
    if col == [] then []
    else [if col[0].Some? then col[0] else Some(v)] + FillNa(col[1..], v)
  }

  /** `after` is `before` with its present cells kept and every missing cell replaced by `v`. */
  predicate FilledWith(before: Column, after: Column, v: Value) {
    |after| == |before| &&
    forall i :: 0 <= i < |before| ==> after[i] == (if before[i].Some? then before[i] else Some(v))
  }

  /** Filling a column that has no missing cell changes nothing. */
  lemma FillNaNoMissing(col: Column)
    requires NoMissing(col)
    ensures forall v :: FillNa(col, v) == col
  {
  }

  /** Filling keeps every observed value observed. */
  lemma FillNaKeepsObserved(col: Column, v: Value)
    requires HasObserved(col)
    ensures HasObserved(FillNa(col, v))
  {
  }

  /** Number of rows whose cell holds `v` (missing cells are never counted). */
  function Count(col: Column, v: Value): (n: nat)
    ensures n <= |col|
    ensures n > 0 <==> exists i :: 0 <= i < |col| && col[i] == Some(v)
  {
    if col == [] then 0
    else
      var rest := Count(col[1..], v);
      assert forall i :: 0 <= i < |col| - 1 ==> col[1..][i] == col[i + 1];
      (if col[0] == Some(v) then 1 else 0) + rest
  }

  /**
   * `value_counts().index[0]`: a value of maximal count among the observed
   * cells, or `None` when no cell is observed. Ties go to the value at the
   * earlier row (the first row wins against the best of the rest); pandas
   * leaves the tie unspecified, so only maximality is promised below.
   */
  function MostFrequent(col: Column): (r: Option<Value>)
    ensures r.None? <==> !HasObserved(col)
    ensures r.Some? ==> Count(col, r.value) > 0
    ensures r.Some? ==> forall u :: Count(col, u) <= Count(col, r.value)
  {
    if col == [] then None
    else
      var rest := MostFrequent(col[1..]);
      assert HasObserved(col) <==> col[0].Some? || HasObserved(col[1..]) by {
        if HasObserved(col[1..]) {
          var i :| 0 <= i < |col[1..]| && col[1..][i].Some?;
          assert col[i + 1].Some?;
        }
        if HasObserved(col) && col[0].None? {
          var i :| 0 <= i < |col| && col[i].Some?;
          assert col[1..][i - 1].Some?;
        }
      }
      match col[0]
      case None => rest
      case Some(v) =>
        if rest.None? || Count(col, v) >= Count(col, rest.value) then Some(v) else rest
  }
}
