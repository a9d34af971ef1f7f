# Stock-data preparation: a Dafny model

This project models the data-preparation step of a small stock-prediction
pipeline (`scripts/process_data.py`). The script reads per-symbol CSV files of
minute bars, derives features per symbol and splits each symbol's history
chronologically into train and test parts. Three pure pieces are modelled:

- **Symbol names** (`SymbolName`): `infer_stock_name_from_filename` takes the
  file stem (`Path(fn).stem`) and keeps the text before the first `"__"`.
- **Features** (`Rolling`, `Features`): `prepare_features` first sorts the table
  by `(stock_name, timestamp)`. It then coerces `volume` (missing or
  non-numeric becomes 0) and runs `compute` on each symbol's rows:
  - a trailing 10-row rolling mean of `close`;
  - a trailing 10-row rolling sum of `volume`;
  - the close 5 rows ahead;
  - the 0/1 label `target_5min`.
- **Split** (`Split`): `split_train_test` puts the last `round(frac * n)` rows
  of each symbol, in timestamp order, in test and the rest in train. It also
  records a manifest entry per symbol with the row counts and timestamp bounds
  of both halves.

Supporting modules:

- `Cells` holds the pandas missing value (`NaN`).
- `Ordering` holds:
  - Python's string order;
  - the `(symbol, timestamp)` sort key;
  - a stable sort specified as an ordered permutation;
  - the filter `OfStock`, used to state that each symbol is processed in
    isolation;
  - the "runs" of one symbol, which are what `groupby` yields on a sorted table.

Modelling choices:

- Timestamps are integers, volumes are integers and closes are exact reals, so
  the rolling mean is exact.
- The test fraction is an exact real, and `round` is Python's round-half-to-even
  applied to the exact product.
- Python's slice-bound rules (a negative bound counts from the end, and bounds
  are clamped) are modelled. As a result the partition `train + test == group`
  holds for every fraction, not only for fractions in `[0, 1]`.
- `pd.concat([])` raises `ValueError` on an empty table. This is modelled as
  `Failure(NoObjectsToConcatenate)`.

**Behaviour of the code worth spelling out:**

- **The last five rows of a symbol keep a label.** `shift(-5)` leaves NaN in
  `close_t_plus_5` on the last 5 rows of each symbol. `NaN > close` is False,
  so those rows get label 0 from `.astype('Int64')`, never NA. The `dropna` at
  line 42 therefore removes nothing, and `prepare_features` keeps every row.
  `Features.ComputeLabel`, `Features.PrepareFeaturesRows` and
  `Features.RisingClosesLabels` state this.
- **Twelve rising rows of one symbol.** With fraction 0.2, all 12 rows are
  processed: 7 rows get label 1 and 5 get label 0. The split puts
  `round(0.2 * 12) = 2` rows in test and 10 in train. This follows from
  `Features.RisingClosesLabels` and `Split.RoundingExamples`.
- **Test rows are no earlier than train rows, not strictly later.** Two rows
  of one symbol may share a timestamp. When they fall on either side of the
  split point, the last train row and the first test row have equal
  timestamps. `Split.SplitTrainTestChronological` states the `<=` order.

## Model

| member | source | states |
|---|---|---|
| SymbolName.InferStockName | scripts/process_data.py:11-12 | the symbol is a prefix of the file's stem that ends at the stem's end or at a "__"; `SymbolIsPrefixBeforeFirstSep`, `SymbolUnique` and `SymbolHasNoSep` give its full contract |
| SymbolName.SplitOnSep | scripts/process_data.py:12 | `split("__")` yields at least one piece, and the first is a prefix of the string; `JoinSplit` and `SplitPiecesHaveNoSep` give the round trip and the absence of separators |
| SymbolName.Stem | scripts/process_data.py:12 | the stem is a prefix of the name; when shorter, it stops at the last '.', which is neither the first nor the last character; `StemDropsSuffix` gives the `base.ext` case |
| SymbolName.FindSep | scripts/process_data.py:12 | the first "__" at or after a position: none starts before the result, and one starts at it unless the end was reached |
| SymbolName.FileName | scripts/process_data.py:12 | the file name is a suffix of the path, contains no '/', and is preceded by '/' when shorter than the path |
| SymbolName.LastDot | scripts/process_data.py:12 | the position of the last '.' of a name, or -1; no dot follows it |
| SymbolName.SymbolIsPrefixBeforeFirstSep | scripts/process_data.py:11-12 | the symbol is a prefix of the stem, no "__" starts inside it, and it is the whole stem or is followed by "__" |
| SymbolName.SymbolUnique | scripts/process_data.py:11-12 | any prefix with those three properties is the symbol, so they characterise `split("__")[0]` completely |
| SymbolName.SymbolHasNoSep | scripts/process_data.py:12 | the symbol never contains "__" |
| SymbolName.SymbolOfPlainStem | scripts/process_data.py:12 | a stem without "__" is its own symbol |
| SymbolName.JoinSplit | scripts/process_data.py:12 | joining the pieces of `split("__")` with "__" gives back the stem |
| SymbolName.SplitPiecesHaveNoSep | scripts/process_data.py:12 | no piece of `split("__")` contains "__" |
| SymbolName.StemDropsSuffix | scripts/process_data.py:12 | the stem of `base.ext` is `base` when `ext` has no dot and neither part is empty |
| SymbolName.FileNameAfterSlash | scripts/process_data.py:12 | the file name of `dir/name` is `name` |
| SymbolName.InferStockNameOfFile | scripts/process_data.py:11-12 | the symbol of the file `dir/stem.ext` is the symbol of `stem` |
| SymbolName.InferStockNameExample | scripts/process_data.py:11-12 | `data/raw/v0/AAPL__2024_01.csv` yields the symbol `AAPL` |
| Ordering.SortBy | scripts/process_data.py:29 | the sort keeps the row count; `SortByPermutes` and `SortBySorted` give its full contract |
| Ordering.StrLtIrreflexive | scripts/process_data.py:29 | no symbol sorts before itself |
| Ordering.StrLtTransitive | scripts/process_data.py:29 | Python's string order is transitive |
| Ordering.StrLtTotal | scripts/process_data.py:29 | any two different symbols are ordered one way or the other |
| Ordering.KeyLeTransitive | scripts/process_data.py:29 | the `(stock_name, timestamp)` order is transitive |
| Ordering.KeyLeTotal | scripts/process_data.py:29 | any two keys are comparable |
| Ordering.KeyLeStock | scripts/process_data.py:29 | keys in order have symbols in order |
| Ordering.InsertPermutes | scripts/process_data.py:29 | inserting a row adds exactly that row and keeps all others |
| Ordering.InsertSorted | scripts/process_data.py:29 | inserting a row into a sorted table keeps it sorted |
| Ordering.SortByPermutes | scripts/process_data.py:29 | `sort_values` returns the same rows, each exactly as often |
| Ordering.SortBySorted | scripts/process_data.py:29 | `sort_values` returns rows ordered by `(stock_name, timestamp)` |
| Ordering.OfStockAppend | scripts/process_data.py:41 | one symbol's rows of a concatenation are the concatenation of its rows in each part |
| Ordering.OfStockAll | scripts/process_data.py:41 | a table holding only symbol `s` is its own `s` rows |
| Ordering.OfStockNone | scripts/process_data.py:41 | a table without symbol `s` has no `s` rows |
| Ordering.OfStockMembers | scripts/process_data.py:41 | every row selected for symbol `s` has symbol `s` |
| Ordering.OfStockInsert | scripts/process_data.py:29 | inserting a row into a sorted table and then taking symbol `s` equals inserting it into the rows of `s` when it has symbol `s`, and changes nothing otherwise |
| Ordering.OfStockSortBy | scripts/process_data.py:29 | sorting the whole table and then taking symbol `s` equals sorting the rows of `s` alone |
| Ordering.RunLength | scripts/process_data.py:41 | a run is a non-empty maximal prefix of one symbol |
| Ordering.RunIsWholeGroup | scripts/process_data.py:41 | on a sorted table the first run is all the rows of its symbol, and the rest is sorted and holds every other symbol's rows |
| Rolling.RollingSum | scripts/process_data.py:36 | one entry per row, never NaN because every window holds at least `min_periods = 1` row; `RollingSumWindow` and `RollingSumOnline` say what the entries are |
| Rolling.RollingMean | scripts/process_data.py:35 | one entry per row, never NaN because every window holds at least one row; `RollingMeanWindow`, `RollingMeanBounds` and `RollingMeanOnline` say what the entries are |
| Rolling.WindowShape | scripts/process_data.py:35-36 | the window ending at row i starts at `max(0, i-9)` and holds `min(i+1, 10)` rows |
| Rolling.RollingSumWindow | scripts/process_data.py:36 | `volume_sum_10[i]` is the sum of the volumes at `max(0,i-9) .. i`; the first row is its own volume |
| Rolling.RollingMeanWindow | scripts/process_data.py:35 | `rolling_avg_10[i]` is the sum of the closes at `max(0,i-9) .. i` divided by `min(i+1, 10)`; the first row is its own close |
| Rolling.RollingSumStep | scripts/process_data.py:36 | each rolling sum is the previous one plus the new volume, minus the volume that left the window |
| Rolling.RollingSumNonNegative | scripts/process_data.py:36 | with non-negative volumes every rolling sum is defined and at least the row's own volume |
| Rolling.RollingMeanBounds | scripts/process_data.py:35 | every rolling mean is defined and lies between the smallest and the largest close |
| Rolling.RollingSumOnline | scripts/process_data.py:36 | a single pass that adds the entering volume and subtracts the leaving one computes exactly `rolling(10, min_periods=1).sum()` |
| Rolling.RollingMeanOnline | scripts/process_data.py:35 | a single pass with a running window sum computes exactly `rolling(10, min_periods=1).mean()` |
| Features.PrepareFeatures | scripts/process_data.py:27-43 | `prepare_features` returns as many rows as it receives, each with a label; `PrepareFeaturesRows` and `PrepareFeaturesIsolation` give its full contract |
| Features.CoerceAll | scripts/process_data.py:30-31 | coercion keeps the row count; `CoerceAllVolumes` gives the per-row contract |
| Features.Compute | scripts/process_data.py:33-39 | `compute` keeps the group's rows in order and labels every one of them; `ComputeLabel`, `ComputeVolumeSum` and `ComputeRollingAvg` give the derived columns |
| Features.ShiftUp | scripts/process_data.py:37 | `shift(-5)` keeps the length, is NaN exactly on the last 5 rows, and elsewhere holds the value 5 rows further down |
| Features.GreaterAsInt64 | scripts/process_data.py:38 | the label is always 0 or 1, and 1 exactly when the look-ahead close is present and strictly greater |
| Features.ApplyGroups | scripts/process_data.py:41 | the per-group apply keeps the row count; `ApplyGroupsRows` and `ApplyGroupsIsolation` give its full contract |
| Features.DropNaTarget | scripts/process_data.py:42 | `dropna` keeps at most the rows it gets, and every kept row has a label; `DropNaKeepsLabelledRows` shows it keeps a fully labelled table whole |
| Features.CoerceAllVolumes | scripts/process_data.py:30-31 | coercion keeps each row's symbol, timestamp and close; a missing volume becomes 0 and a present one is kept, so the volumes are defined and non-negative when the inputs are |
| Features.ComputeRows | scripts/process_data.py:33-39 | `compute` keeps the group's length and its rows in order |
| Features.ComputeVolumeSum | scripts/process_data.py:36 | `volume_sum_10[i]` is the window sum of the group's own volumes; the first row equals its own volume |
| Features.ComputeRollingAvg | scripts/process_data.py:35 | `rolling_avg_10[i]` is the window mean of the group's own closes; the first row equals its own close |
| Features.ComputeVolumeSumNonNegative | scripts/process_data.py:31-36 | with non-negative volumes each `volume_sum_10` is defined and at least the row's volume |
| Features.ComputeLabel | scripts/process_data.py:37-38 | the label is 1 iff a row 5 ahead exists in the group and its close is strictly higher, else 0; `close_t_plus_5` is NaN exactly on the last 5 rows |
| Features.DropNaKeepsLabelledRows | scripts/process_data.py:42 | `dropna` keeps a table whose labels are all present unchanged |
| Features.ApplyGroupsRows | scripts/process_data.py:41-42 | applying `compute` per group keeps every row, in order, each with a label |
| Features.ApplyGroupsIsolation | scripts/process_data.py:41 | on a sorted table the output rows of symbol `s` are `compute` of the rows of `s` alone |
| Features.CoerceInsert | scripts/process_data.py:29-31 | coercing volumes commutes with inserting into a sorted table |
| Features.CoerceSortBy | scripts/process_data.py:29-31 | coercing volumes after sorting gives what sorting after coercing gives |
| Features.CoerceOfStock | scripts/process_data.py:30-31 | coercing volumes commutes with selecting one symbol |
| Features.PrepareIsApplyGroups | scripts/process_data.py:27-43 | `prepare_features` is `compute` over the groups of the coerced, sorted table: the `dropna` removes nothing |
| Features.PrepareFeaturesRows | scripts/process_data.py:27-43 | `prepare_features` keeps the row count and every coerced row, sorted by `(stock_name, timestamp)`, each with a label |
| Features.PrepareFeaturesIsolation | scripts/process_data.py:29-41 | the output rows of symbol `s` depend only on the input rows of `s`, sorted by timestamp |
| Features.AppendOtherSymbols | scripts/process_data.py:29-41 | adding rows of other symbols leaves symbol `s`'s output rows unchanged |
| Features.PrepareSingleSymbol | scripts/process_data.py:27-43 | for a one-symbol table `prepare_features` is `compute` of the sorted rows |
| Features.RisingClosesLabels | scripts/process_data.py:37-42 | with strictly rising closes all rows are kept; the first `n-5` get label 1 and the last 5 get label 0 |
| Split.TestCount | scripts/process_data.py:52 | `test_n` is within one half of `test_frac * n`, and ties go to the even integer; `ScaleIsProduct` ties the repeated sum to the product |
| Split.RoundHalfEven | scripts/process_data.py:52 | `round` lands within one half of its argument and breaks ties towards the even integer |
| Split.RoundHalfEvenUnique | scripts/process_data.py:52 | the integer closer than a half, or exactly a half away and even, is the rounded value |
| Split.ScaleIsProduct | scripts/process_data.py:52 | the repeated sum used for `test_frac*n` is the product |
| Split.TestCountInRange | scripts/process_data.py:52 | for a fraction in `[0, 1]`, `test_n` lies in `0 .. n` |
| Split.SliceBound | scripts/process_data.py:53-54 | Python's slice bound: kept if in range, counted from the end if negative, clamped otherwise |
| Split.MinTimestamp | scripts/process_data.py:60 | NaN exactly for an empty half, otherwise no later than any timestamp of the half |
| Split.MaxTimestamp | scripts/process_data.py:61 | NaN exactly for an empty half, otherwise no earlier than any timestamp of the half |
| Split.BoundsAttained | scripts/process_data.py:60-63 | the manifest's minimum and maximum are timestamps of actual rows |
| Split.SortedBounds | scripts/process_data.py:60-63 | in timestamp order the bounds are the first and last timestamps |
| Split.SplitGroup | scripts/process_data.py:50-59 | train followed by test is exactly the group, and the manifest counts are the lengths of the halves |
| Split.SplitGroupCounts | scripts/process_data.py:52-59 | `train_rows + test_rows == n`; for a fraction in `[0, 1]` test has `round(frac*n)` rows; fraction 0 puts all rows in train and fraction 1 puts all in test |
| Split.SplitGroupChronological | scripts/process_data.py:50-63 | in a timestamp-sorted group every test row is no earlier than every train row, and `train_end <= test_start` |
| Split.SplitterPartitions | scripts/process_data.py:53-54 | the per-group split cuts every group into a prefix and the remaining suffix |
| Split.SplitRuns | scripts/process_data.py:49-66 | the manifest has a key exactly for each symbol of the table; the lemmas below give the halves |
| Split.SplitTrainTest | scripts/process_data.py:45-67 | fails exactly on an empty table, where `pd.concat([])` raises; otherwise train and test together hold every row once |
| Split.SplitRunsPermutes | scripts/process_data.py:49-66 | every row of the table ends up in exactly one of train and test |
| Split.SplitRunsIsolation | scripts/process_data.py:49-66 | on a sorted table the train and test rows of symbol `s` are the split of the rows of `s` alone |
| Split.SplitRunsManifest | scripts/process_data.py:48-64 | the manifest has an entry exactly for the symbols present, and the entry of `s` is that of the rows of `s` alone |
| Split.SplitRunsEmptyHalf | scripts/process_data.py:49-66 | a per-group split that never yields test rows (or train rows) yields none for the whole table |
| Split.SplitTrainTestPerSymbol | scripts/process_data.py:49-66 | on a non-empty table each symbol's train and test rows are the split of that symbol's rows in timestamp order, and train followed by test is exactly those rows |
| Split.SplitTrainTestManifest | scripts/process_data.py:48-64 | the manifest has an entry exactly for the symbols present; the entry of `s` is the split information of the rows of `s`, its counts add up to their number, and for a fraction in `[0, 1]` it has `round(frac*n)` test rows |
| Split.SplitTrainTestChronological | scripts/process_data.py:49-54 | each symbol's test rows are no earlier than its train rows |
| Split.SplitTrainTestExtremes | scripts/process_data.py:52-66 | fraction 0 gives an empty test table and fraction 1 an empty train table |
| Split.RoundingExamples | scripts/process_data.py:52 | `round(2.5) = 2`, `round(3.5) = 4`; fraction 0.2 gives 2 test rows of 12 and 1 of 7 |
| Split.OverlargeFractionCountsFromEnd | scripts/process_data.py:52-54 | fraction 1.5 on 4 rows gives `test_n = 6`, and the negative slice bound makes the last 2 rows test |

## Left out

- `load_all_csvs` (lines 14-25) and `main` (lines 69-85) are not modelled. They cover:
  - globbing and reading the CSV files;
  - normalising column names;
  - the "No CSVs found." exit;
  - parsing the `TEST_SIZE` environment variable;
  - parquet and JSON writes;
  - progress printing.

  These are file I/O and process plumbing. The test fraction is a parameter instead.
- `pd.to_datetime` parsing (line 28) is not modelled. Timestamps are integers that are already parsed.
- The manifest's `str(Timestamp)` formatting (lines 60-63) is not modelled. The manifest keeps the numeric minimum and maximum, and NaN stands for `NaT`.
- Missing or non-numeric `close` values are not modelled; closes are always present. In pandas, `to_numeric(errors='coerce')` at line 30 would turn such a close into NaN. `rolling(10, min_periods=1).mean()` then averages only the present closes of the window and is NaN only when none is present. A NaN close at row i or at row i+5 makes the comparison at line 38 False, so the label is 0 and the `dropna` at line 42 still removes nothing.
- Floating point is not modelled. Closes, the mean and the test fraction are exact reals, so `round` is applied to the exact product `frac * n`.
- Column dtypes are not modelled. Volumes are integers, so non-integral volumes are out of scope, and the float dtype pandas gives the rolling sum is not represented.
- The sorting algorithm pandas uses is not modelled. The model sorts with a stable insertion sort, specified as a permutation ordered by `(stock_name, timestamp)`. The relative order of two rows with the same symbol and timestamp is therefore the model's, not necessarily pandas'.
- Only the path handling that `Path` needs for a file name is modelled: the last '/'-separated component and the last-dot rule for the stem. `Path` normalisation of a trailing '/' and of '.' components is not modelled, and neither are Windows separators.
- The behaviour of `groupby(...).apply` on an empty table is not modelled. The model returns an empty table, while pandas' result there depends on its version.
- The global row order of the concatenated train and test tables is modelled as symbol order. pandas' `groupby` sorts the group keys, so this matches. The index labels pandas keeps are not modelled.
- `scripts/train.py`, `feature_repo/features.py` and `feature_repo/materialize.py` are not part of this model. They call learning, tracking and feature-store libraries and hold no data logic.
