# Housing-price preprocessing: a verified model of `src/data/preprocess.py`

This project models the table-cleaning step of a housing-price regression
pipeline. The step fills in missing cells, casts column types, and separates
the target column from the features. It comes from `src/data/preprocess.py`,
and the model covers five functions:

- `fill_fields` changes the table in place, one statement at a time.
  - Seventeen statements each replace the missing cells of one named column.
  - Sixteen of them fill with a fixed sentinel ("No Fireplace", "No Basement", 0, "None", ...).
  - `LotFrontage` is filled with the most frequent value observed in the batch.
  - A statement on an absent column raises `KeyError`.
  - The mode of a `LotFrontage` with no observed value raises `IndexError`.
  - When a statement raises, the statements before it have already updated the table.
- `cast_types` converts the identifier column, then the categorical columns, then the real-valued columns.
- `preprocess_data` is `fill_fields` followed by `cast_types`.
- `preprocess_target` converts only the target column.
- `extract_target` splits the table into the feature table and a copy of the target column.

Modules and files:

- `wrappers.dfy` (`Wrappers`): `Option`, `Result`, and `Outcome` (whether a run completed or raised).
- `series.dfy` (`Series`): cells, columns, `fillna` (`FillNa`), value counts (`Count`) and the mode (`MostFrequent`).
- `impute.dfy` (`Impute`): `fill_fields`.
  - Its statements form the constant list `FillSteps`, in source order.
  - `RunSteps` runs a prefix of the list and stops at the first statement that raises.
  - `FillFields` runs all of them.
  - The lemmas describe the result in terms of the input table.
- `tables.dfy` (`Tables`): the whole table (ordered column names, columns, row count) and `extract_target`.
- `casts.dfy` (`Casts`): `cast_types`, `preprocess_target` and `preprocess_data` as functions on columns.
- `frame.dfy` (`Frames`): the DataFrame as a class `Frame`.
  - Its methods update the fields in place, statement by statement.
  - Each method is proved to end in the state, and with the status, that the functions above give.

The column lists for the identifier, categorical, real-valued and target
columns come from a configuration module that is not part of this model. They
are the parameter `Casts.Schema`. The dtype conversions are the parameter
`Casts.Conversions`: one total function per target type, applied cell by
cell.

## Model

| member | source | states |
|---|---|---|
| Series.FillNa | src/data/preprocess.py:7 | `fillna(v)` keeps the column's length and its present cells, and turns every missing cell into `v`, so no cell stays missing |
| Series.FillNaNoMissing | src/data/preprocess.py:7-24 | `fillna` on a column that has no missing cell returns it unchanged, whatever the fill value |
| Series.FillNaKeepsObserved | src/data/preprocess.py:17 | a column that had an observed value still has one after `fillna` |
| Series.Count | src/data/preprocess.py:16 | the count of a value is at most the column length, and is positive exactly when the value occurs among the observed cells |
| Series.MostFrequent | src/data/preprocess.py:16 | there is no mode exactly when the column has no observed value (the `IndexError` case); otherwise the mode occurs in the column, and no value occurs more often |
| Impute.ApplyStep | src/data/preprocess.py:7 | one statement completes exactly when its column is present and its fill value exists; otherwise it reports `MissingColumn` for an absent column, or `NoObservedValue`; on success its column becomes `fillna` of itself with that value, and every other column and the column names stay as they were |
| Impute.RunSteps | src/data/preprocess.py:7-24 | the statements of `FillSteps` in source order, stopping at the first that raises; its contract is given by `RunStepsShape`, `RunStepsUnnamed`, `RunStepsStopped`, `RunStepsClosedForm`, `RunStepsPass` and `RunStepsFail` |
| Impute.RunStepsShape | src/data/preprocess.py:6-25 | any prefix of the statements keeps the column names and every column's length (the row count) |
| Impute.RunStepsUnnamed | src/data/preprocess.py:6-25 | a column that none of the statements run so far names is untouched, even when a statement raised |
| Impute.RunStepsStopped | src/data/preprocess.py:6-25 | once a statement raises, the later statements change nothing |
| Impute.RunStepsAdvance | src/data/preprocess.py:7 | after a completed prefix, a completing statement replaces its column by that column filled with its value |
| Impute.RunStepsHalt | src/data/preprocess.py:7 | after a completed prefix, a failing statement ends the run with the table as the prefix left it and that statement's error |
| Impute.NextStepSeesInput | src/data/preprocess.py:6-25 | with distinct column names, the statements before a statement leave its column as in the input, so it completes, fails and fills exactly as it would on the input |
| Impute.RunStepsClosedForm | src/data/preprocess.py:6-25 | a completed run makes each named column its input column filled with the value computed from the input, and leaves the other columns as they were |
| Impute.RunStepsNext | src/data/preprocess.py:6-25 | one more statement after a completed prefix, stated on the input table: it fills its input column, or it raises with the error it would raise on the input |
| Impute.RunStepsPass | src/data/preprocess.py:6-25 | with distinct column names, a run completes exactly when each of its statements completes on the input table |
| Impute.RunStepsFail | src/data/preprocess.py:6-25 | a run that raises stops at the first statement that fails on the input, reports that statement's error, and keeps the updates of the statements before it |
| Impute.RunStepsColumns | src/data/preprocess.py:6-25 | when every statement completes on the input, the run completes and fills each named column from the input; every other column is unchanged |
| Impute.FillStepsDistinct | src/data/preprocess.py:7-24 | the seventeen statements name seventeen distinct columns |
| Impute.FillStepsMode | src/data/preprocess.py:16-17 | statement 9 (`LotFrontage`) is the only statement that fills with the mode |
| Impute.FillFieldsFireplaceBasement | src/data/preprocess.py:7-12 | after a successful `fill_fields`, `FireplaceQu` keeps its length and present cells and each missing cell becomes "No Fireplace"; likewise "No Basement" for `BsmtQual`, `BsmtCond`, `BsmtExposure`, `BsmtFinType1` and `BsmtFinType2` |
| Impute.FillFieldsMasonryAlley | src/data/preprocess.py:13-15 | after a successful `fill_fields`, missing cells of `MasVnrArea` become 0, of `MasVnrType` "None", of `Alley` "No alley access"; lengths and present cells are kept |
| Impute.FillFieldsGarage | src/data/preprocess.py:18-21 | after a successful `fill_fields`, missing cells of `GarageType`, `GarageFinish`, `GarageQual` and `GarageCond` become "No Garage"; lengths and present cells are kept |
| Impute.FillFieldsPoolFenceMisc | src/data/preprocess.py:22-24 | after a successful `fill_fields`, missing cells of `PoolQC` become "No Pool", of `Fence` "No Fence", of `MiscFeature` "None"; lengths and present cells are kept |
| Impute.FillFields | src/data/preprocess.py:6-25 | `fill_fields`: all seventeen statements of the constant `FillSteps` (one per line 7-15 and 17-24, the mode of line 16 inside statement 9); its contract is given by `FillFieldsSucceeds`, `FillFieldsFails`, `FillFieldsColumns`, `FillFieldsSentinels`, `FillFieldsMode` and `FillFieldsIdempotent` |
| Impute.FillableSteps | src/data/preprocess.py:7-24 | every statement completes on a table exactly when every named column is present and `LotFrontage` has an observed value |
| Impute.FillFieldsSucceeds | src/data/preprocess.py:6-25 | `fill_fields` returns a table exactly when every named column is present and `LotFrontage` has an observed value |
| Impute.FillFieldsFails | src/data/preprocess.py:7-24 | when `fill_fields` raises, it raises at the first statement that fails on the input, and the table keeps the earlier updates; the error is a `KeyError` for an absent named column, or an `IndexError` for `LotFrontage` with no observed value, once the nine columns before it were found |
| Impute.FillFieldsColumns | src/data/preprocess.py:6-25 | after a successful `fill_fields`: the same column names; each named column is its input column filled with its statement's value, computed from the input; every other column is unchanged |
| Impute.FillFieldsSentinels | src/data/preprocess.py:7-24 | for each sentinel statement, the column keeps its length and its present cells in place, and every missing cell becomes the sentinel |
| Impute.FillFieldsKeepsUnnamed | src/data/preprocess.py:6-25 | `fill_fields` keeps the column names and leaves a column it does not name untouched, even when it raises |
| Impute.FillFieldsNoMissing | src/data/preprocess.py:7-24 | after a successful `fill_fields`, no named column has a missing cell |
| Impute.FillFieldsMode | src/data/preprocess.py:16-17 | every missing `LotFrontage` cell gets one value, computed before any filling; it occurs among the input's observed cells at least as often as any other value; present cells are kept |
| Impute.FillFieldsStaysFillable | src/data/preprocess.py:6-25 | a successful `fill_fields` leaves a table on which it succeeds again |
| Impute.FillFieldsKeepsColumn | src/data/preprocess.py:6-25 | a column that `fill_fields` does not name, or that has no missing cell, comes out unchanged |
| Impute.FillFieldsFixpoint | src/data/preprocess.py:6-25 | a table whose named columns have no missing cell is returned unchanged |
| Impute.FillFieldsIdempotent | src/data/preprocess.py:6-25 | running `fill_fields` again on its result raises nothing and changes nothing |
| Tables.Remove | src/data/preprocess.py:47 | removing a name keeps exactly the other names and keeps them distinct; a name that is absent changes nothing |
| Tables.RemoveAt | src/data/preprocess.py:47 | removing the name at position `k` from distinct names leaves the names before it followed by the names after it |
| Tables.ExtractTarget | src/data/preprocess.py:46-48 | raises exactly when the target column is absent; otherwise the features are a well-formed table with the same row count and every column except the target, and the target is the original target column |
| Tables.ExtractTargetOrder | src/data/preprocess.py:47 | when the target is the name at position `k`, the split succeeds and the feature table's column names are the names before `k` followed by the names after it |
| Tables.ExtractTargetReattach | src/data/preprocess.py:46-48 | putting the target column back into the features gives the input's columns and its set of column names |
| Casts.FirstAbsent | src/data/preprocess.py:30 | finds no name exactly when every listed name is present; otherwise it finds an absent name that comes after only present names |
| Casts.CastColumns | src/data/preprocess.py:29-31 | `df[names] = df[names].astype(...)` raises exactly when a listed name is absent, before anything is assigned; otherwise it converts each listed column cell by cell, keeps its length, and leaves the other columns and the column names as they were |
| Casts.CastTypes | src/data/preprocess.py:28-32 | `cast_types`: the identifier, categorical and real-valued conversions in order, stopping at the first that raises; its contract is given by `CastTypesFrame` and `CastTypesId` |
| Casts.CastTypesFrame | src/data/preprocess.py:28-32 | `cast_types` keeps the column names and lengths and leaves every unlisted column unchanged; it completes exactly when every listed column is present; when it raises, it reports an absent listed column |
| Casts.CastTypesId | src/data/preprocess.py:29 | a successful `cast_types` converts the identifier column cell by cell, when the identifier is in neither feature list |
| Casts.PreprocessTarget | src/data/preprocess.py:41-43 | `preprocess_target`: the target conversion; its contract is given by `PreprocessTargetFrame` |
| Casts.PreprocessTargetFrame | src/data/preprocess.py:41-43 | `preprocess_target` changes no column except the target, which it converts cell by cell; it raises exactly when the target is absent, and then changes nothing |
| Casts.PreprocessData | src/data/preprocess.py:35-38 | `preprocess_data`: `FillFields`, then `CastTypes` on its result unless it raised; its contract is given by `PreprocessDataFrame` |
| Casts.PreprocessDataFrame | src/data/preprocess.py:35-38 | `preprocess_data` completes exactly when `fill_fields` would and every column `cast_types` lists is present; it keeps the column names; a column neither step names comes out unchanged |
| Frames.Frame.FillColumn | src/data/preprocess.py:7 | one statement in place: it completes exactly when its column is present and its fill value exists, and then replaces that column by its `fillna` copy; when it raises, it reports that statement's error and leaves the frame as it was |
| Frames.Frame.FillFields | src/data/preprocess.py:6-25 | the in-place loop over the seventeen statements ends with the frame's columns and status equal to `Impute.FillFields` on the columns before the call; the column names and the row count are unchanged |
| Frames.Frame.CastTypes | src/data/preprocess.py:28-32 | the three in-place conversions end in the state and status of `Casts.CastTypes` on the columns before the call, and the frame stays well formed |
| Frames.Frame.PreprocessData | src/data/preprocess.py:35-38 | filling and then casting the same frame ends in the state and status of `Casts.PreprocessData` |
| Frames.Frame.PreprocessTarget | src/data/preprocess.py:41-43 | converting the target in place ends in the state and status of `Casts.PreprocessTarget` |

## Left out

- `fill_fields` names seventeen columns: nine before the `LotFrontage` pair of statements and seven after them.
- Series.MostFrequent: on ties the model picks the tied value whose first observed cell comes earliest. Pandas does not document which tied value `value_counts().index[0]` returns, so nothing is proved about ties beyond "a value of maximal count".
- Casts.CastColumns: pandas' `KeyError` lists every absent name. The model reports one absent name, the first in list order.
- The dtype conversions (`int8`, `category`, `float32`, `int32`) are parameters, so their meaning is not modelled:
  - `int8` wrap-around;
  - `float32` rounding;
  - a category dtype's label set;
  - missing values that a conversion refuses.
  Each conversion is a total function on cells.
- Cell values are labels or exact reals. Pandas dtypes are not modelled, nor is the difference between filling with `0` and filling with `0.0`. Missing cells stand for `NaN`/`None`.
- A column name may appear only once in a table, although pandas allows repeated names. Row labels, the index, and column insertion at the end of a frame are not modelled. Every operation here changes only existing columns.
- Each imperative method returns a completion status rather than the frame itself. The frame is the object `this`, whose state the method changes.
- Exceptions other than a missing column and an empty `LotFrontage` count are not modelled. This includes a `fillna` that pandas rejects for its value type.
- `src/models/train_model.py`, `src/models/evaluate.py` and `src/models/predict_model.py` are not part of this model: library model fitting, metrics, pickle, CSV and JSON input/output.
- The command-line entry points, logging and environment loading are not part of this model.
