/**
 * The DataFrame that `fill_fields`, `cast_types`, `preprocess_data` and
 * `preprocess_target` update in place and return. Each statement of those
 * functions overwrites one column (or one list of columns) of the frame; a
 * statement that raises leaves in place what the statements before it wrote.
 */
module Frames {
  import opened Wrappers
  import opened Series
  import Impute
  import opened Tables
  import Casts

  class Frame {
    var names: seq<string>
    var columns: Impute.Columns
    var rows: nat

    function View(): Table
      reads this
    {
      Table(names, columns, rows)
    }

    predicate Valid()
      reads this
    {
      WellFormed(View())
    }

    constructor (t: Table)
      requires WellFormed(t)
      ensures Valid() && View() == t
    {
      names := t.names;
      columns := t.columns;
      rows := t.rows;
    }

    /**
     * One statement `df[c] = df[c].fillna(...)` of `fill_fields`: on success
     * the column is replaced by its filled copy; on a raise the frame is
     * left as it was.
     */
    method FillColumn(step: Impute.Step) returns (status: Outcome<Error>)
      requires Valid()
      modifies this
      ensures Valid() && names == old(names) && rows == old(rows)
      ensures status.Pass? <==> Impute.StepOk(old(columns), step)
      ensures status.Fail? ==> status.error == Impute.StepError(old(columns), step) && columns == old(columns)
      ensures status.Pass? ==>
                columns == old(columns)[step.column := FillNa(old(columns)[step.column], Impute.FillValue(old(columns), step).value)]
    {
      if step.column !in columns {
        return Fail(MissingColumn(step.column));
      }
      var fill: Option<Value>;
      match step.fill {
        case Constant(v) => fill := Some(v);
        case MostFrequentObserved => fill := MostFrequent(columns[step.column]);
      }
      if fill.None? {
        return Fail(NoObservedValue(step.column));
      }
      ghost var before := View();
      columns := columns[step.column := FillNa(columns[step.column], fill.value)];
      WellFormedReplace(before, columns);
      status := Pass;
    }

    /**
     * `fill_fields`: the seventeen statements in order. On return the
     * columns are those of `Impute.FillFields` on the columns before the
     * call, and the status says whether a statement raised.
     */
    method FillFields() returns (status: Outcome<Error>)
      requires Valid()
      modifies this
      ensures Valid() && names == old(names) && rows == old(rows)
      ensures Impute.FillFields(old(columns)) == Impute.Run(columns, status)
    {
      ghost var input := columns;
      var i := 0;
      while i < |Impute.FillSteps|
        invariant 0 <= i <= |Impute.FillSteps|
        invariant Impute.RunSteps(input, Impute.FillSteps, i) == Impute.Run(columns, Pass)
        invariant names == old(names) && rows == old(rows)
        invariant Valid()
      {
        ghost var cur := columns;
        status := FillColumn(Impute.FillSteps[i]);
        if status.Fail? {
          Impute.RunStepsHalt(input, Impute.FillSteps, i, cur);
          return;
        }
        Impute.RunStepsAdvance(input, Impute.FillSteps, i, cur, Impute.FillValue(cur, Impute.FillSteps[i]).value);
        i := i + 1;
      }
      status := Pass;
    }

    /** `cast_types`: the identifier column, then the categorical list, then the real list. */
    method CastTypes(schema: Casts.Schema, conv: Casts.Conversions) returns (status: Outcome<Error>)
      requires Valid()
      modifies this
      ensures Valid() && names == old(names) && rows == old(rows)
      ensures Casts.CastTypes(old(columns), schema, conv) == Impute.Run(columns, status)
    {
      ghost var input := View();
      var r := Casts.CastColumns(columns, [schema.id], conv.toInt8);
      if r.Failure? {
        return Fail(r.error);
      }
      WellFormedReplace(input, r.value);
      columns := r.value;
      ghost var afterId := View();
      r := Casts.CastColumns(columns, schema.categorical, conv.toCategory);
      if r.Failure? {
        return Fail(r.error);
      }
      WellFormedReplace(afterId, r.value);
      columns := r.value;
      ghost var afterCategorical := View();
      r := Casts.CastColumns(columns, schema.realValued, conv.toFloat32);
      if r.Failure? {
        return Fail(r.error);
      }
      WellFormedReplace(afterCategorical, r.value);
      columns := r.value;
      status := Pass;
    }

    /** `preprocess_data`: `fill_fields`, then `cast_types`, on the same frame. */
    method PreprocessData(schema: Casts.Schema, conv: Casts.Conversions) returns (status: Outcome<Error>)
      requires Valid()
      modifies this
      ensures Valid() && names == old(names) && rows == old(rows)
      ensures Casts.PreprocessData(old(columns), schema, conv) == Impute.Run(columns, status)
    {
      status := FillFields();
      if status.Fail? {
        return;
      }
      status := CastTypes(schema, conv);
    }

    /** `preprocess_target`: the target column only. */
    method PreprocessTarget(schema: Casts.Schema, conv: Casts.Conversions) returns (status: Outcome<Error>)
      requires Valid()
      modifies this
      ensures Valid() && names == old(names) && rows == old(rows)
      ensures Casts.PreprocessTarget(old(columns), schema, conv) == Impute.Run(columns, status)
    {
      ghost var input := View();
      Casts.PreprocessTargetFrame(columns, schema, conv);
      var r := Casts.CastColumns(columns, [schema.target], conv.toInt32);
      if r.Failure? {
        return Fail(r.error);
      }
      WellFormedReplace(input, r.value);
      columns := r.value;
      status := Pass;
    }
  }
}
