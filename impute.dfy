/**
 * The field imputer `fill_fields`: seventeen column statements run in
 * order, each replacing the missing cells of one named column. Sixteen use a
 * fixed sentinel; `LotFrontage` uses the most frequent observed value of the
 * batch. A statement on an absent column raises, and so does the mode of a
 * `LotFrontage` without observed values; the statements before it have then
 * already updated the table.
 */
module Impute {
  import opened Wrappers
  import opened Series

  /** How one statement fills its column. */
  datatype Fill = Constant(sentinel: Value) | MostFrequentObserved

  /** One `df[column] = df[column].fillna(...)` statement. */
  datatype Step = Step(column: string, fill: Fill)

  /** The table as `fill_fields` sees it: column name to column. */
  type Columns = map<string, Column>

  /** The state after running some statements, and whether they all completed. */
  datatype Run = Run(cols: Columns, status: Outcome<Error>)

  /** The statements of `fill_fields`, in source order. */
  const FillSteps: seq<Step> := [
    Step("FireplaceQu", Constant(Text("No Fireplace"))),
    Step("BsmtQual", Constant(Text("No Basement"))),
    Step("BsmtCond", Constant(Text("No Basement"))),
    Step("BsmtExposure", Constant(Text("No Basement"))),
    Step("BsmtFinType1", Constant(Text("No Basement"))),
    Step("BsmtFinType2", Constant(Text("No Basement"))),
    Step("MasVnrArea", Constant(Number(0.0))),
    Step("MasVnrType", Constant(Text("None"))),
    Step("Alley", Constant(Text("No alley access"))),
    Step("LotFrontage", MostFrequentObserved),
    Step("GarageType", Constant(Text("No Garage"))),
    Step("GarageFinish", Constant(Text("No Garage"))),
    Step("GarageQual", Constant(Text("No Garage"))),
    Step("GarageCond", Constant(Text("No Garage"))),
    Step("PoolQC", Constant(Text("No Pool"))),
    Step("Fence", Constant(Text("No Fence"))),
    Step("MiscFeature", Constant(Text("None")))
  ]

  const ModeColumn: string := "LotFrontage"

  /** The columns `fill_fields` names. */
  function NamedColumns(): set<string> {
    set k | 0 <= k < |FillSteps| :: FillSteps[k].column
  }

  predicate DistinctColumns(steps: seq<Step>) {
    forall i, j :: 0 <= i < j < |steps| ==> steps[i].column != steps[j].column
  }

  /** The value a statement fills with, computed from the table it runs on. */
  function FillValue(cols: Columns, s: Step): Option<Value>
    requires s.column in cols
  {
    match s.fill
    case Constant(v) => Some(v)
    case MostFrequentObserved => MostFrequent(cols[s.column])
  }

  /** A statement completes on `cols`. */
  predicate StepOk(cols: Columns, s: Step) {
    s.column in cols && FillValue(cols, s).Some?
  }

  function StepError(cols: Columns, s: Step): Error {
    if s.column !in cols then MissingColumn(s.column) else NoObservedValue(s.column)
  }

  /** One statement: look the column up, compute the fill value, replace the column. */
  function ApplyStep(cols: Columns, s: Step): (r: Result<Columns, Error>)
    ensures r.Success? <==> StepOk(cols, s)
    ensures r.Failure? ==> r.error == StepError(cols, s)
    ensures r.Success? ==> r.value.Keys == cols.Keys
    ensures r.Success? ==> r.value[s.column] == FillNa(cols[s.column], FillValue(cols, s).value)
    ensures r.Success? ==> forall c :: c in cols && c != s.column ==> r.value[c] == cols[c]
  {
    if s.column !in cols then Failure(MissingColumn(s.column))
    else
      match FillValue(cols, s)
      case None => Failure(NoObservedValue(s.column))
      case Some(v) => Success(cols[s.column := FillNa(cols[s.column], v)])
  }

  /** Runs the first `n` statements of `steps` in order, stopping at the first one that raises. */
  function RunSteps(cols: Columns, steps: seq<Step>, n: nat): Run
    requires n <= |steps|
  {
    if n == 0 then Run(cols, Pass)
    else
      var before := RunSteps(cols, steps, n - 1);
      if before.status.Fail? then before
      else
        match ApplyStep(before.cols, steps[n - 1])
        case Failure(e) => Run(before.cols, Fail(e))
        case Success(next) => Run(next, Pass)
  }

  /** `fill_fields` on `cols`: all of its statements. */
  function FillFields(cols: Columns): Run {
    RunSteps(cols, FillSteps, |FillSteps|)
  }

  /** The fill of the last of the first `n` statements that names `c`. */
  function Lookup(steps: seq<Step>, n: nat, c: string): (r: Option<Fill>)
    requires n <= |steps|
    ensures r.Some? ==> exists k :: 0 <= k < n && steps[k] == Step(c, r.value)
    ensures r.None? ==> forall k :: 0 <= k < n ==> steps[k].column != c
  {
    if n == 0 then None
    else if steps[n - 1].column == c then Some(steps[n - 1].fill)
    else Lookup(steps, n - 1, c)
  }

  /** Closed form of column `c` after the first `n` statements completed on `cols`. */
  function Filled(cols: Columns, steps: seq<Step>, n: nat, c: string): Column
    requires n <= |steps| && c in cols
  {
    match Lookup(steps, n, c)
    case None => cols[c]
    case Some(f) =>
      match FillValue(cols, Step(c, f))
      case None => cols[c]
      case Some(v) => FillNa(cols[c], v)
  }

  /** Running statements keeps the column names and every column's length. */
  lemma {:induction false} RunStepsShape(cols: Columns, steps: seq<Step>, n: nat)
    requires n <= |steps|
    ensures RunSteps(cols, steps, n).cols.Keys == cols.Keys
    ensures forall c :: c in cols ==> |RunSteps(cols, steps, n).cols[c]| == |cols[c]|
  {
    if n > 0 {
      RunStepsShape(cols, steps, n - 1);
    }
  }

  /** A column that none of the first `n` statements names is untouched, whether or not they all complete. */
  lemma {:induction false} RunStepsUnnamed(cols: Columns, steps: seq<Step>, n: nat, c: string)
    requires n <= |steps| && c in cols
    requires forall k :: 0 <= k < n ==> steps[k].column != c
    ensures c in RunSteps(cols, steps, n).cols && RunSteps(cols, steps, n).cols[c] == cols[c]
  {
    if n > 0 {
      RunStepsUnnamed(cols, steps, n - 1, c);
    }
  }

  /** Once a statement raises, the later ones do not run. */
  lemma {:induction false} RunStepsStopped(cols: Columns, steps: seq<Step>, m: nat, n: nat)
    requires m <= n <= |steps|
    requires RunSteps(cols, steps, m).status.Fail?
    ensures RunSteps(cols, steps, n) == RunSteps(cols, steps, m)
    decreases n - m
  {
    if m < n {
      RunStepsStopped(cols, steps, m + 1, n);
    }
  }

  /** After a completed prefix that left `cur`, a statement that completes fills its column of `cur`. */
  lemma RunStepsAdvance(cols: Columns, steps: seq<Step>, n: nat, cur: Columns, v: Value)
    requires n < |steps| && RunSteps(cols, steps, n) == Run(cur, Pass)
    requires steps[n].column in cur && FillValue(cur, steps[n]) == Some(v)
    ensures RunSteps(cols, steps, n + 1) == Run(cur[steps[n].column := FillNa(cur[steps[n].column], v)], Pass)
  {
  }

  /** After a completed prefix that left `cur`, a statement that fails on `cur` ends the whole run with `cur`. */
  lemma RunStepsHalt(cols: Columns, steps: seq<Step>, n: nat, cur: Columns)
    requires n < |steps| && RunSteps(cols, steps, n) == Run(cur, Pass)
    requires !StepOk(cur, steps[n])
    ensures RunSteps(cols, steps, |steps|) == Run(cur, Fail(StepError(cur, steps[n])))
  {
    RunStepsStopped(cols, steps, n + 1, |steps|);
  }

  /**
   * The statements before statement `n - 1` leave its column as it was, so
   * it completes, or fails, as it would on the input.
   */
  lemma NextStepSeesInput(cols: Columns, steps: seq<Step>, n: nat)
    requires 0 < n <= |steps| && DistinctColumns(steps)
    requires RunSteps(cols, steps, n - 1).status.Pass?
    ensures var before := RunSteps(cols, steps, n - 1); var s := steps[n - 1];
              before.cols.Keys == cols.Keys &&
              (s.column in cols ==> before.cols[s.column] == cols[s.column]) &&
              (StepOk(before.cols, s) <==> StepOk(cols, s)) &&
              StepError(before.cols, s) == StepError(cols, s) &&
              (StepOk(cols, s) ==> FillValue(before.cols, s) == FillValue(cols, s))
    decreases n, 0
  {
    RunStepsClosedForm(cols, steps, n - 1);
    assert Lookup(steps, n - 1, steps[n - 1].column).None?;
  }

  /**
   * With distinct column names, a run that completes leaves each named
   * column as the input column filled with its statement's value computed
   * from the INPUT, and every other column untouched.
   */
  lemma {:induction false} RunStepsClosedForm(cols: Columns, steps: seq<Step>, n: nat)
    requires n <= |steps| && DistinctColumns(steps)
    requires RunSteps(cols, steps, n).status.Pass?
    ensures RunSteps(cols, steps, n).cols.Keys == cols.Keys
    ensures forall c :: c in cols ==> RunSteps(cols, steps, n).cols[c] == Filled(cols, steps, n, c)
    decreases n, 1
  {
    RunStepsShape(cols, steps, n);
    if n > 0 {
      RunStepsClosedForm(cols, steps, n - 1);
      NextStepSeesInput(cols, steps, n);
    }
  }

  /** One more statement after a completed prefix, in terms of the input table. */
  lemma RunStepsNext(cols: Columns, steps: seq<Step>, n: nat)
    requires 0 < n <= |steps| && DistinctColumns(steps)
    requires RunSteps(cols, steps, n - 1).status.Pass?
    ensures var before := RunSteps(cols, steps, n - 1); var s := steps[n - 1];
              RunSteps(cols, steps, n) ==
                if StepOk(cols, s) then Run(before.cols[s.column := FillNa(cols[s.column], FillValue(cols, s).value)], Pass)
                else Run(before.cols, Fail(StepError(cols, s)))
  {
    NextStepSeesInput(cols, steps, n);
  }

  /**
   * With distinct column names, the first `n` statements complete exactly
   * when each of them completes on the INPUT table.
   */
  lemma {:induction false} RunStepsPass(cols: Columns, steps: seq<Step>, n: nat)
    requires n <= |steps| && DistinctColumns(steps)
    ensures RunSteps(cols, steps, n).status.Pass? <==>
              forall k :: 0 <= k < n ==> StepOk(cols, steps[k])
  {
    if n > 0 {
      RunStepsPass(cols, steps, n - 1);
      if RunSteps(cols, steps, n - 1).status.Pass? {
        RunStepsNext(cols, steps, n);
      }
    }
  }

  /** The first statements complete exactly up to `k`, which fails on the input table. */
  predicate FailsAt(cols: Columns, steps: seq<Step>, n: nat, k: nat)
    requires n <= |steps|
  {
    && k < n
    && (forall j :: 0 <= j < k ==> StepOk(cols, steps[j]))
    && !StepOk(cols, steps[k])
    && RunSteps(cols, steps, n) == Run(RunSteps(cols, steps, k).cols, Fail(StepError(cols, steps[k])))
  }

  /** A statement after a raised one runs no more. */
  lemma FailsAtLater(cols: Columns, steps: seq<Step>, n: nat, k: nat)
    requires 0 < n <= |steps| && FailsAt(cols, steps, n - 1, k)
    ensures FailsAt(cols, steps, n, k)
  {
  }

  /** A statement that fails on the input after a completed prefix is where the run stops. */
  lemma FailsAtHere(cols: Columns, steps: seq<Step>, n: nat)
    requires 0 < n <= |steps| && DistinctColumns(steps)
    requires RunSteps(cols, steps, n - 1).status.Pass? && RunSteps(cols, steps, n).status.Fail?
    ensures FailsAt(cols, steps, n, n - 1)
  {
    RunStepsPass(cols, steps, n - 1);
    RunStepsNext(cols, steps, n);
  }

  /**
   * A run that raises stops at the first statement that fails on the input
   * table, reports that statement's error, and leaves the table as the
   * statements before it made it.
   */
  lemma {:induction false} RunStepsFail(cols: Columns, steps: seq<Step>, n: nat)
    requires n <= |steps| && DistinctColumns(steps)
    requires RunSteps(cols, steps, n).status.Fail?
    ensures exists k: nat :: FailsAt(cols, steps, n, k)
  {
    if RunSteps(cols, steps, n - 1).status.Fail? {
      RunStepsFail(cols, steps, n - 1);
      var k: nat :| FailsAt(cols, steps, n - 1, k);
      FailsAtLater(cols, steps, n, k);
    } else {
      FailsAtHere(cols, steps, n);
    }
  }

  /** With distinct column names, statement `k` is the one `Lookup` finds for its column. */
  lemma LookupAt(steps: seq<Step>, n: nat, k: nat)
    requires k < n <= |steps| && DistinctColumns(steps)
    ensures Lookup(steps, n, steps[k].column) == Some(steps[k].fill)
  {
    var r := Lookup(steps, n, steps[k].column);
    assert r.Some?;
    var k' :| 0 <= k' < n && steps[k'] == Step(steps[k].column, r.value);
  }

  /**
   * When every statement completes on the input: the run completes, keeps
   * the column names, makes each named column its input column filled with
   * its statement's value, and leaves every other column untouched.
   */
  lemma RunStepsColumns(cols: Columns, steps: seq<Step>, n: nat)
    requires n <= |steps| && DistinctColumns(steps)
    requires forall k :: 0 <= k < n ==> StepOk(cols, steps[k])
    ensures RunSteps(cols, steps, n).status.Pass?
    ensures RunSteps(cols, steps, n).cols.Keys == cols.Keys
    ensures forall k :: 0 <= k < n ==>
              StepOk(cols, steps[k]) && steps[k].column in RunSteps(cols, steps, n).cols &&
              RunSteps(cols, steps, n).cols[steps[k].column] ==
                FillNa(cols[steps[k].column], FillValue(cols, steps[k]).value)
    ensures forall c :: c in cols && (forall k :: 0 <= k < n ==> steps[k].column != c) ==>
              RunSteps(cols, steps, n).cols[c] == cols[c]
  {
    RunStepsPass(cols, steps, n);
    RunStepsClosedForm(cols, steps, n);
    forall k | 0 <= k < n
      ensures RunSteps(cols, steps, n).cols[steps[k].column] ==
                FillNa(cols[steps[k].column], FillValue(cols, steps[k]).value)
    {
      LookupAt(steps, n, k);
    }
  }


  /** The position of a named column's statement in `fill_fields`, or -1. */
  function Position(c: string): int {
    if c == "FireplaceQu" then 0 else if c == "BsmtQual" then 1 else if c == "BsmtCond" then 2
    else if c == "BsmtExposure" then 3 else if c == "BsmtFinType1" then 4 else if c == "BsmtFinType2" then 5
    else if c == "MasVnrArea" then 6 else if c == "MasVnrType" then 7 else if c == "Alley" then 8
    else if c == "LotFrontage" then 9 else if c == "GarageType" then 10 else if c == "GarageFinish" then 11
    else if c == "GarageQual" then 12 else if c == "GarageCond" then 13 else if c == "PoolQC" then 14
    else if c == "Fence" then 15 else if c == "MiscFeature" then 16 else -1
  }

  // `Position` inverts the column names of `FillSteps`, checked in three blocks.
  lemma PositionFirst()
    ensures forall k :: 0 <= k < 6 ==> Position(FillSteps[k].column) == k
  {
  }

  lemma PositionMiddle()
    ensures forall k :: 6 <= k < 12 ==> Position(FillSteps[k].column) == k
  {
  }

  lemma PositionLast()
    ensures forall k :: 12 <= k < 17 ==> Position(FillSteps[k].column) == k
  {
  }

  /** The seventeen statements name seventeen distinct columns. */
  lemma FillStepsDistinct()
    ensures |FillSteps| == 17 && DistinctColumns(FillSteps)
  {
    PositionFirst();
    PositionMiddle();
    PositionLast();
  }

  /** Statement 9 (`LotFrontage`) is the only one that fills with the mode. */
  lemma FillStepsMode()
    ensures FillSteps[9] == Step(ModeColumn, MostFrequentObserved)
    ensures forall k :: 0 <= k < |FillSteps| ==>
              (FillSteps[k].column == ModeColumn <==> FillSteps[k].fill.MostFrequentObserved?)
  {
  }

  /** The input conditions under which `fill_fields` returns a table. */
  predicate Fillable(cols: Columns) {
    && (forall c :: c in NamedColumns() ==> c in cols)
    && ModeColumn in cols
    && HasObserved(cols[ModeColumn])
  }

  lemma FillableSteps(cols: Columns)
    ensures Fillable(cols) <==> forall k :: 0 <= k < |FillSteps| ==> StepOk(cols, FillSteps[k])
  {
    FillStepsMode();
    if Fillable(cols) {
      forall k | 0 <= k < |FillSteps| ensures StepOk(cols, FillSteps[k]) {
        assert FillSteps[k].column in NamedColumns();
      }
    }
    if forall k :: 0 <= k < |FillSteps| ==> StepOk(cols, FillSteps[k]) {
      assert StepOk(cols, FillSteps[9]);
      forall c | c in NamedColumns() ensures c in cols {
        var k :| 0 <= k < |FillSteps| && FillSteps[k].column == c;
        assert StepOk(cols, FillSteps[k]);
      }
    }
  }

  /** `fill_fields` returns a table exactly when every named column is present and `LotFrontage` has an observed value. */
  lemma FillFieldsSucceeds(cols: Columns)
    ensures FillFields(cols).status.Pass? <==> Fillable(cols)
  {
    FillStepsDistinct();
    FillableSteps(cols);
    RunStepsPass(cols, FillSteps, |FillSteps|);
  }

  /**
   * Otherwise `fill_fields` raises at the first statement, in source order,
   * that fails on the input: a `KeyError` for an absent column
   * (`MissingColumn`) or an `IndexError` for an empty `LotFrontage` count
   * (`NoObservedValue`, only once the nine statements before it found
   * their columns). The table keeps the updates of the statements before it.
   */
  lemma FillFieldsFails(cols: Columns)
    requires FillFields(cols).status.Fail?
    ensures exists k: nat :: FailsAt(cols, FillSteps, |FillSteps|, k)
    ensures var e := FillFields(cols).status.error;
              (e.MissingColumn? ==> e.name in NamedColumns() && e.name !in cols) &&
              (e.NoObservedValue? ==>
                 e.name == ModeColumn && ModeColumn in cols && !HasObserved(cols[ModeColumn]) &&
                 forall j :: 0 <= j < 9 ==> FillSteps[j].column in cols)
  {
    FillStepsDistinct();
    FillStepsMode();
    RunStepsFail(cols, FillSteps, |FillSteps|);
    var k: nat :| FailsAt(cols, FillSteps, |FillSteps|, k);
    assert FillSteps[k].column in NamedColumns();
    if FillSteps[k].column in cols {
      assert k == 9;
    }
  }

  /**
   * After a successful `fill_fields`: the same column names; a named column
   * is its input column filled with its statement's value computed from the
   * input; any other column is unchanged.
   */
  lemma FillFieldsColumns(cols: Columns)
    requires Fillable(cols)
    ensures FillFields(cols).status.Pass?
    ensures FillFields(cols).cols.Keys == cols.Keys
    ensures forall k :: 0 <= k < |FillSteps| ==>
              FillFields(cols).cols[FillSteps[k].column] ==
                FillNa(cols[FillSteps[k].column], FillValue(cols, FillSteps[k]).value)
    ensures forall c :: c in cols && c !in NamedColumns() ==> FillFields(cols).cols[c] == cols[c]
  {
    FillStepsDistinct();
    FillableSteps(cols);
    RunStepsColumns(cols, FillSteps, |FillSteps|);
  }

  /**
   * After a successful `fill_fields`, every statement with a sentinel keeps
   * the present cells of its column in place and turns each missing one
   * into that sentinel; the column keeps its length.
   */
  lemma FillFieldsSentinels(cols: Columns)
    requires Fillable(cols)
    ensures forall k :: 0 <= k < |FillSteps| && FillSteps[k].fill.Constant? ==>
              var c := FillSteps[k].column;
              c in cols && c in FillFields(cols).cols && |FillFields(cols).cols[c]| == |cols[c]| &&
              forall i :: 0 <= i < |cols[c]| ==>
                FillFields(cols).cols[c][i] == (if cols[c][i].Some? then cols[c][i] else Some(FillSteps[k].fill.sentinel))
  {
    FillFieldsColumns(cols);
  }

  /** `fill_fields` keeps the column names and leaves an unnamed column untouched, even when it raises. */
  lemma FillFieldsKeepsUnnamed(cols: Columns)
    ensures FillFields(cols).cols.Keys == cols.Keys
    ensures forall c :: c in cols && c !in NamedColumns() ==> FillFields(cols).cols[c] == cols[c]
  {
    RunStepsShape(cols, FillSteps, |FillSteps|);
    forall c | c in cols && c !in NamedColumns() ensures FillFields(cols).cols[c] == cols[c] {
      RunStepsUnnamed(cols, FillSteps, |FillSteps|, c);
    }
  }

  /** After a successful `fill_fields`: `FireplaceQu` gets "No Fireplace" and the five basement columns "No Basement". */
  lemma FillFieldsFireplaceBasement(cols: Columns)
    requires Fillable(cols)
    ensures "FireplaceQu" in cols && "FireplaceQu" in FillFields(cols).cols &&
            FilledWith(cols["FireplaceQu"], FillFields(cols).cols["FireplaceQu"], Text("No Fireplace"))
    ensures "BsmtQual" in cols && "BsmtQual" in FillFields(cols).cols &&
            FilledWith(cols["BsmtQual"], FillFields(cols).cols["BsmtQual"], Text("No Basement"))
    ensures "BsmtCond" in cols && "BsmtCond" in FillFields(cols).cols &&
            FilledWith(cols["BsmtCond"], FillFields(cols).cols["BsmtCond"], Text("No Basement"))
    ensures "BsmtExposure" in cols && "BsmtExposure" in FillFields(cols).cols &&
            FilledWith(cols["BsmtExposure"], FillFields(cols).cols["BsmtExposure"], Text("No Basement"))
    ensures "BsmtFinType1" in cols && "BsmtFinType1" in FillFields(cols).cols &&
            FilledWith(cols["BsmtFinType1"], FillFields(cols).cols["BsmtFinType1"], Text("No Basement"))
    ensures "BsmtFinType2" in cols && "BsmtFinType2" in FillFields(cols).cols &&
            FilledWith(cols["BsmtFinType2"], FillFields(cols).cols["BsmtFinType2"], Text("No Basement"))
  {
    FillFieldsSentinels(cols);
    assert FillSteps[0].column in NamedColumns();
    assert FillSteps[1].column in NamedColumns();
    assert FillSteps[2].column in NamedColumns();
    assert FillSteps[3].column in NamedColumns();
    assert FillSteps[4].column in NamedColumns();
    assert FillSteps[5].column in NamedColumns();
  }

  /** After a successful `fill_fields`: `MasVnrArea` gets 0, `MasVnrType` "None" and `Alley` "No alley access". */
  lemma FillFieldsMasonryAlley(cols: Columns)
    requires Fillable(cols)
    ensures "MasVnrArea" in cols && "MasVnrArea" in FillFields(cols).cols &&
            FilledWith(cols["MasVnrArea"], FillFields(cols).cols["MasVnrArea"], Number(0.0))
    ensures "MasVnrType" in cols && "MasVnrType" in FillFields(cols).cols &&
            FilledWith(cols["MasVnrType"], FillFields(cols).cols["MasVnrType"], Text("None"))
    ensures "Alley" in cols && "Alley" in FillFields(cols).cols &&
            FilledWith(cols["Alley"], FillFields(cols).cols["Alley"], Text("No alley access"))
  {
    FillFieldsSentinels(cols);
    assert FillSteps[6].column in NamedColumns();
    assert FillSteps[7].column in NamedColumns();
    assert FillSteps[8].column in NamedColumns();
  }

  /** After a successful `fill_fields`: The four garage columns get "No Garage". */
  lemma FillFieldsGarage(cols: Columns)
    requires Fillable(cols)
    ensures "GarageType" in cols && "GarageType" in FillFields(cols).cols &&
            FilledWith(cols["GarageType"], FillFields(cols).cols["GarageType"], Text("No Garage"))
    ensures "GarageFinish" in cols && "GarageFinish" in FillFields(cols).cols &&
            FilledWith(cols["GarageFinish"], FillFields(cols).cols["GarageFinish"], Text("No Garage"))
    ensures "GarageQual" in cols && "GarageQual" in FillFields(cols).cols &&
            FilledWith(cols["GarageQual"], FillFields(cols).cols["GarageQual"], Text("No Garage"))
    ensures "GarageCond" in cols && "GarageCond" in FillFields(cols).cols &&
            FilledWith(cols["GarageCond"], FillFields(cols).cols["GarageCond"], Text("No Garage"))
  {
    FillFieldsSentinels(cols);
    assert FillSteps[10].column in NamedColumns();
    assert FillSteps[11].column in NamedColumns();
    assert FillSteps[12].column in NamedColumns();
    assert FillSteps[13].column in NamedColumns();
  }

  /** After a successful `fill_fields`: `PoolQC` gets "No Pool", `Fence` "No Fence" and `MiscFeature` "None". */
  lemma FillFieldsPoolFenceMisc(cols: Columns)
    requires Fillable(cols)
    ensures "PoolQC" in cols && "PoolQC" in FillFields(cols).cols &&
            FilledWith(cols["PoolQC"], FillFields(cols).cols["PoolQC"], Text("No Pool"))
    ensures "Fence" in cols && "Fence" in FillFields(cols).cols &&
            FilledWith(cols["Fence"], FillFields(cols).cols["Fence"], Text("No Fence"))
    ensures "MiscFeature" in cols && "MiscFeature" in FillFields(cols).cols &&
            FilledWith(cols["MiscFeature"], FillFields(cols).cols["MiscFeature"], Text("None"))
  {
    FillFieldsSentinels(cols);
    assert FillSteps[14].column in NamedColumns();
    assert FillSteps[15].column in NamedColumns();
    assert FillSteps[16].column in NamedColumns();
  }

  /** After a successful `fill_fields` no named column has a missing cell. */
  lemma FillFieldsNoMissing(cols: Columns)
    requires Fillable(cols)
    ensures forall c :: c in NamedColumns() ==> c in FillFields(cols).cols && NoMissing(FillFields(cols).cols[c])
  {
    FillFieldsColumns(cols);
    forall c | c in NamedColumns() ensures c in FillFields(cols).cols && NoMissing(FillFields(cols).cols[c]) {
      var k :| 0 <= k < |FillSteps| && FillSteps[k].column == c;
    }
  }

  /**
   * Every missing `LotFrontage` cell gets one and the same value; that value
   * occurs among the input's observed `LotFrontage` cells, at least as often
   * as any other value. Present cells are kept.
   */
  lemma FillFieldsMode(cols: Columns)
    requires Fillable(cols)
    ensures var out := FillFields(cols).cols;
              ModeColumn in out && |out[ModeColumn]| == |cols[ModeColumn]| &&
              exists m :: Count(cols[ModeColumn], m) > 0 &&
                (forall u :: Count(cols[ModeColumn], u) <= Count(cols[ModeColumn], m)) &&
                forall i :: 0 <= i < |cols[ModeColumn]| ==>
                  out[ModeColumn][i] == (if cols[ModeColumn][i].Some? then cols[ModeColumn][i] else Some(m))
  {
    FillStepsMode();
    FillFieldsColumns(cols);
    var m := MostFrequent(cols[ModeColumn]).value;
    assert Count(cols[ModeColumn], m) > 0;
  }

  /** A successful `fill_fields` leaves a table it succeeds on again. */
  lemma FillFieldsStaysFillable(cols: Columns)
    requires Fillable(cols)
    ensures Fillable(FillFields(cols).cols)
  {
    FillStepsMode();
    FillFieldsColumns(cols);
    FillNaKeepsObserved(cols[ModeColumn], MostFrequent(cols[ModeColumn]).value);
  }

  /** A column that `fill_fields` does not name, or that has no missing cell, comes out unchanged. */
  lemma FillFieldsKeepsColumn(cols: Columns, c: string)
    requires Fillable(cols) && c in cols
    requires c in NamedColumns() ==> NoMissing(cols[c])
    ensures c in FillFields(cols).cols && FillFields(cols).cols[c] == cols[c]
  {
    FillFieldsColumns(cols);
    if c in NamedColumns() {
      var k :| 0 <= k < |FillSteps| && FillSteps[k].column == c;
      FillNaNoMissing(cols[c]);
    }
  }

  /** A table whose named columns have no missing cell is a fixed point of `fill_fields`. */
  lemma FillFieldsFixpoint(cols: Columns)
    requires Fillable(cols)
    requires forall c :: c in NamedColumns() ==> NoMissing(cols[c])
    ensures FillFields(cols) == Run(cols, Pass)
  {
    FillFieldsSucceeds(cols);
    RunStepsShape(cols, FillSteps, |FillSteps|);
    forall c | c in cols ensures FillFields(cols).cols[c] == cols[c] {
      FillFieldsKeepsColumn(cols, c);
    }
  }

  /** Running `fill_fields` again on its result raises nothing and changes nothing. */
  lemma FillFieldsIdempotent(cols: Columns)
    requires FillFields(cols).status.Pass?
    ensures FillFields(FillFields(cols).cols) == Run(FillFields(cols).cols, Pass)
  {
    FillFieldsSucceeds(cols);
    FillFieldsStaysFillable(cols);
    FillFieldsNoMissing(cols);
    FillFieldsFixpoint(FillFields(cols).cols);
  }
}
