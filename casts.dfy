/**
 * `cast_types`, `preprocess_target` and `preprocess_data` as column updates.
 * The column lists come from a configuration module and are parameters here;
 * so are the dtype conversions, as one function per target type applied to
 * each cell of a selected column.
 */
module Casts {
  import opened Wrappers
  import opened Series
  import opened Impute

  /** The configured column lists: the identifier, the categorical and real features, the target. */
  datatype Schema = Schema(id: string, categorical: seq<string>, realValued: seq<string>, target: string)

  /** The cell conversions `astype(np.int8)`, `astype('category')`, `astype(np.float32)` and `astype(np.int32)`. */
  datatype Conversions = Conversions(
    toInt8: Cell -> Cell,
    toCategory: Cell -> Cell,
    toFloat32: Cell -> Cell,
    toInt32: Cell -> Cell)

  /** The first of `names` that `cols` lacks, if any. */
  function FirstAbsent(names: seq<string>, cols: Columns): (r: Option<string>)
    ensures r.None? <==> forall i :: 0 <= i < |names| ==> names[i] in cols
    ensures r.Some? ==> exists i :: 0 <= i < |names| && names[i] == r.value && r.value !in cols &&
                          forall j :: 0 <= j < i ==> names[j] in cols
  {
    if names == [] then None
    else if names[0] !in cols then Some(names[0])
    else
      var r := FirstAbsent(names[1..], cols);
      assert forall i :: 0 <= i < |names| - 1 ==> names[1..][i] == names[i + 1];
      if r.Some? then
        assert exists i :: 0 < i < |names| && names[i] == r.value && r.value !in cols &&
                 forall j :: 0 <= j < i ==> names[j] in cols by {
          var i :| 0 <= i < |names| - 1 && names[1..][i] == r.value && r.value !in cols &&
                   forall j :: 0 <= j < i ==> names[1..][j] in cols;
          assert names[i + 1] == r.value;
        }
        r
      else r
  }

  /**
   * `df[names] = df[names].astype(...)`: selecting the columns raises on
   * the first absent name before anything is assigned; otherwise each named
   * column is converted cell by cell, and every other column stays as it was.
   */
  function CastColumns(cols: Columns, names: seq<string>, f: Cell -> Cell): (r: Result<Columns, Error>)
    ensures r.Failure? <==> exists i :: 0 <= i < |names| && names[i] !in cols
    ensures r.Failure? ==> r.error.MissingColumn? && r.error.name in names && r.error.name !in cols
    ensures r.Success? ==> r.value.Keys == cols.Keys
    ensures r.Success? ==> forall c :: c in cols && c !in names ==> r.value[c] == cols[c]
    ensures r.Success? ==> forall c :: c in cols && c in names ==>
              |r.value[c]| == |cols[c]| && forall i :: 0 <= i < |cols[c]| ==> r.value[c][i] == f(cols[c][i])
  {
    match FirstAbsent(names, cols)
    case Some(c) => Failure(MissingColumn(c))
    case None =>
      Success(map c | c in cols :: if c in names then seq(|cols[c]|, i requires 0 <= i < |cols[c]| => f(cols[c][i])) else cols[c])
  }

  /** `cast_types`: the identifier column, then the categorical columns, then the real columns. */
  function CastTypes(cols: Columns, schema: Schema, conv: Conversions): Run {
    match CastColumns(cols, [schema.id], conv.toInt8)
    case Failure(e) => Run(cols, Fail(e))
    case Success(c1) =>
      match CastColumns(c1, schema.categorical, conv.toCategory)
      case Failure(e) => Run(c1, Fail(e))
      case Success(c2) =>
        match CastColumns(c2, schema.realValued, conv.toFloat32)
        case Failure(e) => Run(c2, Fail(e))
        case Success(c3) => Run(c3, Pass)
  }

  /** `preprocess_target`: the target column only. */
  function PreprocessTarget(cols: Columns, schema: Schema, conv: Conversions): Run {
    match CastColumns(cols, [schema.target], conv.toInt32)
    case Failure(e) => Run(cols, Fail(e))
    case Success(c) => Run(c, Pass)
  }

  /** `preprocess_data`: `fill_fields`, then `cast_types` on its result. */
  function PreprocessData(cols: Columns, schema: Schema, conv: Conversions): Run {
    var filled := FillFields(cols);
    if filled.status.Fail? then filled else CastTypes(filled.cols, schema, conv)
  }

  /** The columns `cast_types` names. */
  predicate Listed(schema: Schema, c: string) {
    c == schema.id || c in schema.categorical || c in schema.realValued
  }

  /** Every column `cast_types` names is present. */
  predicate CastsApply(cols: Columns, schema: Schema) {
    && schema.id in cols
    && (forall i :: 0 <= i < |schema.categorical| ==> schema.categorical[i] in cols)
    && (forall i :: 0 <= i < |schema.realValued| ==> schema.realValued[i] in cols)
  }

  /** Whether the named columns are present depends only on the column names. */
  lemma CastsApplyKeys(cols: Columns, cols': Columns, schema: Schema)
    requires cols.Keys == cols'.Keys
    ensures CastsApply(cols, schema) <==> CastsApply(cols', schema)
  {
    assert forall c :: c in cols <==> c in cols';
  }

  /**
   * `cast_types` keeps the column names and every column's length, leaves
   * every column it does not name as it was, and raises exactly when a
   * named column is absent, reporting one of those.
   */
  lemma CastTypesFrame(cols: Columns, schema: Schema, conv: Conversions)
    ensures var out := CastTypes(cols, schema, conv);
              && out.cols.Keys == cols.Keys
              && (forall c :: c in cols ==> |out.cols[c]| == |cols[c]|)
              && (forall c :: c in cols && !Listed(schema, c) ==> out.cols[c] == cols[c])
    ensures CastTypes(cols, schema, conv).status.Pass? <==> CastsApply(cols, schema)
    ensures var out := CastTypes(cols, schema, conv);
              out.status.Fail? ==>
                out.status.error.MissingColumn? &&
                Listed(schema, out.status.error.name) && out.status.error.name !in cols
  {
    var r1 := CastColumns(cols, [schema.id], conv.toInt8);
    if r1.Success? {
      var r2 := CastColumns(r1.value, schema.categorical, conv.toCategory);
      CastsApplyKeys(cols, r1.value, schema);
      if r2.Success? {
        CastsApplyKeys(cols, r2.value, schema);
      }
    }
  }

  /** A successful `cast_types` converts the identifier with `astype(np.int8)`, cell by cell. */
  lemma CastTypesId(cols: Columns, schema: Schema, conv: Conversions)
    requires CastsApply(cols, schema)
    requires schema.id !in schema.categorical && schema.id !in schema.realValued
    ensures var out := CastTypes(cols, schema, conv).cols;
              |out[schema.id]| == |cols[schema.id]| &&
              forall i :: 0 <= i < |cols[schema.id]| ==> out[schema.id][i] == conv.toInt8(cols[schema.id][i])
  {
    CastTypesFrame(cols, schema, conv);
  }

  /**
   * `preprocess_target` keeps the column names and lengths, changes no
   * column but the target, which it converts cell by cell, and raises
   * exactly when the target column is absent.
   */
  lemma PreprocessTargetFrame(cols: Columns, schema: Schema, conv: Conversions)
    ensures var out := PreprocessTarget(cols, schema, conv);
              && out.cols.Keys == cols.Keys
              && (forall c :: c in cols && c != schema.target ==> out.cols[c] == cols[c])
    ensures var out := PreprocessTarget(cols, schema, conv);
              (out.status.Pass? <==> schema.target in cols) &&
              (out.status.Fail? ==> out.status.error == MissingColumn(schema.target) && out.cols == cols)
    ensures var out := PreprocessTarget(cols, schema, conv);
              schema.target in cols ==>
                |out.cols[schema.target]| == |cols[schema.target]| &&
                forall i :: 0 <= i < |cols[schema.target]| ==>
                  out.cols[schema.target][i] == conv.toInt32(cols[schema.target][i])
  {
  }

  /**
   * `preprocess_data` completes exactly when `fill_fields` does on the input
   * and every column `cast_types` names is present; a column neither of them
   * names comes out unchanged.
   */
  lemma PreprocessDataFrame(cols: Columns, schema: Schema, conv: Conversions)
    ensures PreprocessData(cols, schema, conv).status.Pass? <==> Fillable(cols) && CastsApply(cols, schema)
    ensures var out := PreprocessData(cols, schema, conv);
              && out.cols.Keys == cols.Keys
              && (forall c :: c in cols && c !in NamedColumns() && !Listed(schema, c) ==> out.cols[c] == cols[c])
  {
    FillFieldsSucceeds(cols);
    FillFieldsKeepsUnnamed(cols);
    var filled := FillFields(cols);
    if filled.status.Pass? {
      CastTypesFrame(filled.cols, schema, conv);
      CastsApplyKeys(cols, filled.cols, schema);
    }
  }
}
