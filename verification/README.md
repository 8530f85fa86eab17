# Skytether in-memory compute kernels, modelled in Dafny

This project models the computational core of the skytether experiments.
Those are C++ programs over Apache Arrow tables that compute per-row
running statistics for gene-expression matrices and align result tables on
a canonical gene order. The model has four parts.

- **Compute** (`compute.dfy`) covers the null-propagating elementwise
  wrappers `VecAdd`, `VecSub`, `VecDiv` (column and scalar divisor),
  `VecMul` (column and scalar factor), `VecPow` and `VecAbs`.
  - A chunked double column is a sequence of reals, and a null
    `shared_ptr` is `None`.
  - `arrow-compute-inmem/src/adapter_arrow.cpp` and
    `src/cpp/util_arrow.cpp:46-147` hold the same code, so one model
    covers both.
- **Aggregate** (`aggregate.dfy`) covers the running aggregate `Aggr`.
  - Its fields are a count, per-row running means and per-row running
    second moments (named `variances` in the source).
  - The class `Aggregate.Aggr` updates them in place. It is proved equal to
    the functional specification `Initialized`, `Step`, `FoldRange` and
    `AccumulateSpec`.
  - The update is the one the code performs: both deltas are taken in
    absolute value.
  - The recurrence in the doc comment above `Accumulate` is
    `AggregateProperties.WelfordUpdate`. The properties relate the code's
    update to it.
  - `src/cpp/operators.cpp` and `arrow-compute-inmem/src/table_op.cpp` hold
    the same algorithm, so one model covers both.
- **Experiment** (`experiment.dfy`) covers `AggrTable`. It computes a
  clamped stop index, accumulates the column window into a fresh aggregate
  and takes its {mean, variance} table.
- **Realign** (`realign.dfy`) covers `CopyMatchedRows` and its helpers
  `CreateEmptyRecordBatch` and `SelectTableByRow`.
  - First, a key map is built from the source table's key column.
  - Then the canonical ids are walked, and runs of matched row indices and
    runs of missing ids are buffered.
  - Each run is flushed as a `Take` selection or as a zero-filled batch.
- **Projection** (`projection.dfy`) covers `ProjectFromTable`.
  - It makes a positional column match between the schema and the
    requested attributes.
  - Then it selects those columns.
  - When a filter function is given, it filters rows by the Boolean mask
    that the filter computes on the projected table.

`wrappers.dfy` holds the `Option` and `Result` types.

## Model

| member | source | states |
|---|---|---|
| Compute.VecAdd | arrow-compute-inmem/src/adapter_arrow.cpp:27-37 | a null operand or a length mismatch (backend failure) gives null; otherwise a new column of the operands' length whose every element is the sum of the corresponding elements |
| Compute.VecSub | arrow-compute-inmem/src/adapter_arrow.cpp:40-50 | null exactly when an operand is null or the lengths differ; otherwise the elementwise difference, same length |
| Compute.VecDiv | arrow-compute-inmem/src/adapter_arrow.cpp:53-63 | null-checks both column operands; null on a length mismatch or a zero divisor element; otherwise the elementwise quotient |
| Compute.VecDivScalar | arrow-compute-inmem/src/adapter_arrow.cpp:66-76 | only the column is null-checked; the scalar is broadcast, every element is divided by it; null for a zero divisor |
| Compute.VecMul | arrow-compute-inmem/src/adapter_arrow.cpp:79-89 | null on a null operand or a length mismatch; otherwise the elementwise product |
| Compute.VecMulScalar | arrow-compute-inmem/src/adapter_arrow.cpp:92-102 | only the column is null-checked; every element is multiplied by the broadcast scalar |
| Compute.VecPow | arrow-compute-inmem/src/adapter_arrow.cpp:105-115 | a null column gives null; each element is raised to the scalar exponent (a reciprocal power for a negative one); null when a zero meets a negative exponent |
| Compute.VecAbs | arrow-compute-inmem/src/adapter_arrow.cpp:118-128 | a null input gives null; otherwise same length and every element is the non-negative absolute value of the input element |
| Compute.NullPropagates | arrow-compute-inmem/src/adapter_arrow.cpp:27-128 | every wrapper returns null when any of its column operands is null |
| Compute.SubThenAddRestores | arrow-compute-inmem/src/adapter_arrow.cpp:27-50 | VecAdd undoes VecSub on equal-length columns |
| Compute.MulThenDivScalarRestores | arrow-compute-inmem/src/adapter_arrow.cpp:66-102 | dividing by a nonzero scalar undoes multiplying by it |
| Compute.AbsIdempotent | arrow-compute-inmem/src/adapter_arrow.cpp:118-128 | VecAbs applied twice equals VecAbs applied once, null included |
| Compute.PowTwoIsSelfProduct | arrow-compute-inmem/src/adapter_arrow.cpp:79-115 | VecPow with exponent 2 equals VecMul of the column with itself |
| Compute.MulCommutes | arrow-compute-inmem/src/adapter_arrow.cpp:79-89 | VecMul is commutative, null and mismatch cases included |
| Aggregate.Aggr.constructor | src/cpp/operators.hpp:35 | a new aggregate has count 0 and null means and variances |
| Aggregate.Aggr.Initialize | src/cpp/operators.cpp:40-54 | count becomes 1, means the given column, variances a zero column of the same length |
| Aggregate.Aggr.Accumulate | src/cpp/operators.cpp:71-104 | returns OK; the new state is AccumulateSpec of the old one: an empty aggregate is initialised from column `colStart` and the loop starts one later; a stop index of 0 means the column count; columns [start, stop) are folded in order |
| Aggregate.Aggr.FoldColumn | src/cpp/operators.cpp:87-100 | one loop iteration: count + 1, then the means and variances are updated through the wrapper chain (Step) |
| Aggregate.Aggr.TakeResult | src/cpp/operators.cpp:30-38 | the result is ResultTable of the current state, the two-column table named mean and variance; no field changes |
| AggregateProperties.FoldCount | src/cpp/operators.cpp:85-89 | each folded column raises the count by exactly 1 |
| AggregateProperties.AccumulateCount | src/cpp/operators.cpp:76-89 | after Accumulate, count = (old count, or 1 when it initialised) + max(0, stop - effective start) and is at least 1, so every loop division is by a count of at least 2 |
| AggregateProperties.FreshSingleColumn | src/cpp/operators.cpp:76-80 | an empty aggregate given a one-column window holds that column as means, zeros as variances, count 1 |
| AggregateProperties.FoldPreservesShape | src/cpp/operators.cpp:85-101 | over columns of the aggregate's length both running columns stay present and keep that length |
| AggregateProperties.AccumulatePreservesShape | arrow-compute-inmem/src/table_op.cpp:80-112 | on a table with columns of one length, Accumulate leaves both columns present with that length |
| AggregateProperties.FoldNullIsSticky | arrow-compute-inmem/src/table_op.cpp:98-108 | a null means column stays null and nulls the variances after one more column; a null variances column stays null |
| AggregateProperties.FoldMeansLength | src/cpp/operators.cpp:90-94 | a present means column keeps its length through any fold |
| AggregateProperties.FoldMismatchNullsBoth | src/cpp/operators.cpp:87-100 | a column of the wrong length makes both columns null for the rest of the call, while Accumulate still returns OK |
| AggregateProperties.StepMeansMonotone | src/cpp/operators.cpp:90-94 | one step never lowers any row's mean |
| AggregateProperties.StepMeanNoLowerAt | src/cpp/operators.cpp:90-94 | row j of the means after a step is at least row j before it |
| AggregateProperties.StepVariancesMonotone | src/cpp/operators.cpp:96-100 | one step never lowers any row's second moment |
| AggregateProperties.StepVarianceNoLowerAt | src/cpp/operators.cpp:96-100 | row j of the variances after a step is at least row j before it |
| AggregateProperties.FoldMonotone | src/cpp/operators.cpp:85-101 | over a fold, every row's mean and second moment are non-decreasing |
| AggregateProperties.AccumulateMonotone | arrow-compute-inmem/src/table_op.cpp:93-109 | over an Accumulate call on an initialised aggregate, no row's mean or second moment decreases |
| AggregateProperties.StepMeanAt | src/cpp/operators.cpp:89-94 | row j of the new means is m + abs(x - m) / count |
| AggregateProperties.StepVarianceAt | src/cpp/operators.cpp:96-100 | row j of the new variances is v + abs(x - m') * abs(x - m), with m' the new mean |
| AggregateProperties.StepIsRowwise | src/cpp/operators.cpp:89-100 | the columnar step applies AbsUpdate to every row independently |
| AggregateProperties.AbsUpdateIsWelfordAtOrAbove | src/cpp/operators.cpp:57-70 | for a sample at or above the running mean, the code's update equals the doc-comment Welford update |
| AggregateProperties.AbsMeanExceedsWelfordBelow | src/cpp/operators.cpp:57-70 | for a sample below the running mean, the code raises the mean while Welford lowers it |
| AggregateProperties.StepMatchesWelfordAtOrAbove | src/cpp/operators.cpp:57-100 | row j of a step equals Welford's update whenever that row's sample is at or above its mean |
| AggregateProperties.TwoThenFourExample | src/cpp/operators.cpp:71-104 | columns 2 then 4 into a fresh aggregate give count 2, mean 3, second moment 2, as Welford does |
| AggregateProperties.FourThenTwoExample | src/cpp/operators.cpp:57-104 | columns 4 then 2 give mean 5 and second moment 6, where Welford gives 3 and 2 |
| AggregateProperties.FoldSplit | src/cpp/operators.cpp:85-101 | folding [lo, mid) then [mid, hi) equals folding [lo, hi) |
| AggregateProperties.AccumulateInTwoCalls | src/cpp/operators.cpp:71-104 | accumulating columns [a, b) and then [b, c) equals accumulating [a, c) in one call |
| Experiment.StopIndex | arrow-compute-inmem/src/experiment.cpp:93-101 | 0 without a positive limit; with one, start + limit when that is below the column count and otherwise the column count, so it never exceeds the count and lies past a valid start |
| Experiment.AggrTable | arrow-compute-inmem/src/experiment.cpp:86-114 | the output is the {mean, variance} table of a fresh aggregate after accumulating the clamped window; nothing else is kept |
| Experiment.WindowCount | arrow-compute-inmem/src/experiment.cpp:93-107 | the window holds the limit's number of columns when it fits, otherwise every column from the start to the end |
| Experiment.WindowOfOneColumn | arrow-compute-inmem/src/experiment.cpp:92-111 | a limit of 1 returns the start column as means and zeros as variances |
| Experiment.AdjacentWindows | arrow-compute-inmem/src/experiment.cpp:86-114 | feeding the next window into the first window's aggregate equals aggregating the joined window |
| Realign.SelectTableByRow | src/cpp/util_arrow.cpp:150-166 | Take succeeds exactly when every index is in range, and then yields the rows at the indices in index-list order |
| Realign.TakeConcat | src/cpp/util_arrow.cpp:150-166 | two selections concatenated equal the selection by the concatenated index lists |
| Realign.CreateEmptyRecordBatch | src/cpp/util_arrow.cpp:173-205 | one row per given id, in order, keyed by that id, with 0 in every other column |
| Realign.BuildKeyMap | src/cpp/util_arrow.cpp:210-229 | the map built by the first loop equals KeyMapOf of the key column |
| Realign.KeyMapInRange | src/cpp/util_arrow.cpp:222-228 | every stored index is below the number of non-null keys, hence a valid row index |
| Realign.KeyMapDomain | src/cpp/util_arrow.cpp:222-228 | a string is mapped exactly when it occurs as a non-null key |
| Realign.KeyMapFirstWins | src/cpp/util_arrow.cpp:226 | a key maps to the number of non-null keys before its first occurrence: the insert never overwrites, and null keys do not advance the counter |
| Realign.FlushMissing | src/cpp/util_arrow.cpp:258-264 | draining a run of missing ids appends one zero-filled batch for it (nothing when the run is empty) |
| Realign.FlushMatches | src/cpp/util_arrow.cpp:273-284 | draining a run of matched indices appends the Take selection of those rows (nothing when the run is empty); Take cannot fail here |
| Realign.AlignRows | src/cpp/util_arrow.cpp:232-318 | the run-batching walk returns OK and yields exactly one aligned row per id, in id order: the mapped source row, or the id (or "" when null) with zeros; at most one buffer is non-empty at any time |
| Realign.CopyMatchedRows | src/cpp/util_arrow.cpp:207-319 | the result keeps the source width and is Realigned of the source under the key map the code builds |
| Realign.MissingIdGetsDefaultRow | src/cpp/util_arrow.cpp:253-287 | for any source table, an id that is null or not a source key yields a row keyed by the id ("" when null) with all other columns 0 |
| Realign.SelfRealignIsIdentity | src/cpp/util_arrow.cpp:207-319 | realigning a table whose keys are distinct and non-null against its own key column returns its rows unchanged, in order |
| Realign.KeyMapsAgreeWithoutNulls | src/cpp/util_arrow.cpp:222-228 | without null keys the counter equals the row position, so the map as written is the corrected one |
| Realign.AsWrittenCorrectWithoutNullKeys | src/cpp/util_arrow.cpp:207-319 | without null source keys the code as written aligns exactly as the corrected map does |
| Realign.NullKeyShiftsMatch | src/cpp/util_arrow.cpp:222-228 | a null key before a matched key shifts the match to the wrong row (see Findings) |
| Realign.ExampleRealign | src/cpp/util_arrow.cpp:237-318 | ids a, b, c against source rows c:30, a:10 give a:10, b:0, c:30 |
| Realign.BuildRowIndex | src/cpp/util_arrow.cpp:222-228 | the corrected first loop builds RowIndexOf: each key maps to the position of its first row |
| Realign.RowIndexPointsAtKey | src/cpp/util_arrow.cpp:222-228 | under the corrected map every stored index is a row position that holds that very key |
| Realign.RowIndexDomain | src/cpp/util_arrow.cpp:222-228 | the corrected map has the same domain: exactly the non-null keys |
| Realign.RowIndexFirstWins | src/cpp/util_arrow.cpp:226 | the corrected map sends a key to its first position |
| Realign.CopyMatchedRowsCorrected | src/cpp/util_arrow.cpp:207-319 | the alignment under the corrected map returns OK with one row per id in id order |
| Realign.MatchedIdGetsFirstRow | src/cpp/util_arrow.cpp:256-266 | under the corrected map, an id whose first occurrence in the key column is row f gets source row f |
| Realign.RealignedKeysMatchIds | src/cpp/util_arrow.cpp:237-318 | under the corrected map every aligned row carries its own id as key ("" for a null id) |
| Projection.SelectedIndices | arrow-compute-projsel/recipe.cpp:30-40 | the column-name loop collects exactly MatchIndices of the names and attributes |
| Projection.MatchIndicesSpec | arrow-compute-projsel/recipe.cpp:33-40 | the indices are strictly increasing and below the column count, there are at most as many as columns, and i is present exactly when the i-th name equals the i-th attribute |
| Projection.MatchIndicesPrefix | arrow-compute-projsel/recipe.cpp:35 | only the attributes at positions the schema reaches matter |
| Projection.MatchAllIsIdentity | arrow-compute-projsel/recipe.cpp:33-40 | attributes equal to the names select every index 0..n-1 |
| Projection.SelectColumns | arrow-compute-projsel/recipe.cpp:43-51 | SelectColumns succeeds exactly when every index is a column, and yields those columns in index order with the row count kept |
| Projection.FilterRows | arrow-compute-projsel/recipe.cpp:55-56 | Filter succeeds exactly when the mask length is the row count; it keeps the names, the row count becomes the number of non-null true entries, and each column holds its values at the kept rows (FilterValues) |
| Projection.FilterValuesAt | arrow-compute-projsel/recipe.cpp:56 | a row the mask keeps lands at the position given by the number of kept rows before it, so the kept values keep their row order |
| Projection.ProjectFromTable | arrow-compute-projsel/recipe.cpp:26-59 | the selection never fails; with no filter the result is the selected columns; with a filter, the filter sees the projected table, its error is passed on, and its mask filters the projected table |
| Projection.ProjectionSelectsMatchingColumns | arrow-compute-projsel/recipe.cpp:33-45 | the projection holds, in schema order, exactly the columns whose name equals the attribute at their own position |
| Projection.ExactAttributesSelectAll | arrow-compute-projsel/recipe.cpp:33-45 | attributes equal to the column names return the table unchanged |
| Projection.AllTrueKeepsValues | arrow-compute-projsel/recipe.cpp:56 | a mask of all non-null trues keeps every value of a column |
| Projection.AllTrueFilterIsIdentity | arrow-compute-projsel/recipe.cpp:55-56 | filtering with a mask of all non-null trues returns the table unchanged |
| Projection.NoTrueKeepsNothing | arrow-compute-projsel/recipe.cpp:56 | null and false entries drop their rows: a mask with no non-null true keeps nothing |
| Projection.SelectThenFilterCommutes | arrow-compute-projsel/recipe.cpp:48-58 | for a fixed mask, selecting columns then filtering equals filtering then selecting; projecting first changes only what the filter function sees |
| Projection.ExampleSelection | arrow-compute-projsel/recipe.cpp:33-40 | schema [id, x, y] against attributes [id, y, y] selects columns 0 and 2 |

## Left out

- Floating point. Values are reals. IEEE rounding, NaN, infinity and the effect of evaluation order on rounding are not modelled.
- Compute.VecDiv: Arrow's floating-point division by zero yields infinity or NaN, but here a zero divisor element counts as a backend failure (null). Reals have no infinity.
- Compute.VecDivScalar: a zero scalar divisor is treated as a backend failure (null) for the same reason. The divisor in `Accumulate` is the count, which is at least 2.
- Compute.VecPow: the exponent is an integer. Fractional exponents and the infinity from 0 raised to a negative power are not modelled; the latter is a failure (null).
- Compute: element-level nulls inside a column (Arrow validity bitmaps) are not modelled. A column is null or fully present.
- Compute: chunk layout is not modelled; each column is one flat sequence. The note at src/cpp/operators.cpp:48 about different chunking therefore has no counterpart.
- Aggregate.Aggr.Accumulate: the `uint64_t` count is a natural number, so wrap-around after 2^64 columns is not modelled.
- Aggregate.Aggr.Accumulate: the `Status` that `Initialize` returns (a builder allocation failure) is ignored by `Accumulate` in the source. The model's `Initialize` always succeeds.
- Aggregate.Aggr.Accumulate: `Table::column` does not check its index. The model requires the window's columns to exist (`WindowOk`) rather than modelling out-of-bounds reads.
- Aggregate: the table given to `Accumulate` is a sequence of numeric columns. A string key column at position 0 (skipped by the default start index 1) is not represented separately.
- Aggregate.Aggr.TakeResult: what `Table::Make` does with a null column is not modelled. The result carries the optional columns as they are.
- The `Aggr` destructor (arrow-compute-inmem/src/table_op.cpp:29-32) only releases the two columns and has no modelled effect.
- Realign.CreateEmptyRecordBatch: a builder failure, which returns a null batch that `CopyMatchedRows` pushes without a check, is not modelled. Batch construction is total.
- Realign.AlignRows: the failure paths of `SelectTableByRow` and `TableBatchReader::ReadAll` are not reached. The model proves every `Take` index is in range; reading an in-memory table back as batches is modelled as concatenation.
- Realign: the id and key columns are flattened across chunks. The unused `std::time` call, and the check `Table::FromRecordBatches` makes that batches match the schema, are not modelled.
- Experiment.StopIndex: the `int64_t` sum `col_startndx + col_limit` (arrow-compute-inmem/src/experiment.cpp:97) is modelled as an unbounded integer. The limit comes from `std::stoll` on the command line (:174), so in C++ the sum can overflow, which is undefined behaviour; the model does not capture that.
- Projection.ProjectFromTable: the filter function is a pure total function from a table to a mask or an error. Side effects of a user filter are not modelled.
- Projection.FilterRows: only Arrow's default null selection behaviour (drop) is modelled. A non-Boolean mask type is not modelled.
- Not part of this model:
  - `MeanAggr::Combine`, `MeanAggr::ComputeTStatWith` and `Skytether::GetAggrCount`, whose definitions are not shown.
  - The t-test and experiment drivers, and Kinetic networking.
  - IPC file reading, printing and the dataset scanner (`ProjectFromDataset`).
  - Timing.
  - The `Datum` overload declarations in src/cpp/util_arrow.hpp:47-51.

## Findings

| source | as written | input that shows it | evidently intended | confidence | as-written member | corrected member |
|---|---|---|---|---|---|---|
| src/cpp/util_arrow.cpp:222-228 | a null source key is skipped without advancing `src_rowndx`, so each later key stores the count of non-null keys before it; `Take` then uses that count as an absolute row position | source rows (null, 1) and ("a", 2), ordered ids ["a"]: the aligned row is (null, 1) instead of ("a", 2) | each key maps to the absolute position of its first row | high (not executed) | Realign.NullKeyShiftsMatch | Realign.CopyMatchedRowsCorrected |

Four members connect the two halves:

- `Realign.CopyMatchedRows` models the code as written, with the map `KeyMapOf`.
- `Realign.CopyMatchedRowsCorrected` uses `RowIndexOf`. `Realign.RealignedKeysMatchIds` proves that under it every aligned row carries its own id.
- `Realign.AsWrittenCorrectWithoutNullKeys` shows that the two agree whenever the key column has no nulls.
