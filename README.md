# Energy ETL pipeline — a Dafny model of its computational core

The system synthesises an hourly series of grid consumption, solar generation
and temperature, cleans it and derives a net grid load, a self-sufficiency flag
and an estimated cost per hour, and shows summary metrics for a range of days
on a dashboard. This project models the arithmetic of those three stages with
exact `real` numbers and proves what each stage promises.

- `wrappers.dfy` — `Option` (a missing cell, NaN) and `Result` (a value or the error that stopped a step).
- `readings.dfy` — the rows: `Timestamp(day, hour)`, `RawReading` and `CleanedReading`, plus counts and sums over a temperature column.
- `generator.dfy` — the generator (`etl/scripts/generator.py`). The triangular solar envelope is built by a loop, one entry per timestamp. Consumption and temperature come from the diurnal factor and a noise value. The single missing temperature is injected in place into an array. With zero rows generation fails (`EmptyWindow`), because `randint(0, -1)` has nothing to draw.
- `transformer.dfy` — the cleaning step (`etl/scripts/transformer.py`), written as in-place column steps over arrays: mean imputation, clamping of consumption, then the derived columns. The whole step is proved equal to the specification function `CleanTable`, and the lemmas state the properties of `CleanTable`. An absent raw table gives `Failure(MissingInput)`.
- `aggregator.dfy` — the dashboard's computations (`visualization/app.py`). They are the inclusive day-range filter, the totals, the zero-guarded coverage, the solar mix, the CO2 offset, the hour-of-day means and the clipped grid import. These are all functions, so the loaded table is never changed, and two calls with the same table and range give the same result.

Inputs that the source takes from the environment are parameters:
- The window of timestamps (the source gets it from `datetime.now()` and `pd.date_range`).
- `sin(2*pi*h/24)`, given as a table of 24 values indexed by the hour.
- The Gaussian noise and the cloud factors, one value per row.
- The `randint` draw of the faulty row, given as an index.
- Whether the raw file exists, given as `Option<seq<RawReading>>`.

Where the code does less than its own comments promise, the model follows the code:
- The comment at `etl/scripts/transformer.py:22` and the `doc_md` of the transform operator at `etl/dags/energy_pipeline.py:47` ("Limpia nulos") promise that null temperatures are filled. But lines 23-24 fill them with the column mean. A column with no present temperature has a NaN mean, and `fillna(NaN)` leaves every gap in place. So `CleanedReading.temperature` stays an `Option`, and `Transformer.AllMissingStaysMissing` proves that the gaps stay. In particular, a generated batch of a single row keeps its missing temperature after cleaning (`Transformer.GeneratedBatchIsRepaired`).
- `visualization/app.py:135-138` guards `total_solar / total_consumption` against a zero total. Line 144 makes the same division without the guard (see Findings).

## Model

| member | source | states |
|---|---|---|
| `Generator.SolarEnvelope` | etl/scripts/generator.py:34-41 | 0 outside hours 6..18 and at hours 6 and 18; 40·cloud at hour 12; between 0 and 40·cloud for any cloud factor ≥ 0 |
| `Generator.SolarWithinPeak` | etl/scripts/generator.py:36-39 | with a cloud factor in [0.2, 1.0] every hour's solar value lies in [0, 40] |
| `Generator.SolarGeneration` | etl/scripts/generator.py:32-41 | the loop yields exactly one value per timestamp, in timestamp order, each equal to the envelope of its hour; night hours give 0; cloud factors in [0.2, 1.0] keep every value in [0, 40] |
| `Generator.Consumption` | etl/scripts/generator.py:24-28 | consumption minus its noise is 50 + 30·(hour_factor + 1); for hour_factor in [−1, 1] the value lies in [50 + noise, 110 + noise] |
| `Generator.ConsumptionWithoutNoiseInBand` | etl/scripts/generator.py:25-28 | the noise-free consumption is within [50, 110] kWh |
| `Generator.Temperature` | etl/scripts/generator.py:44 | for hour_factor in [−1, 1] the temperature lies in [10 + noise, 30 + noise] |
| `Generator.InjectMissingTemperature` | etl/scripts/generator.py:56 | with n ≥ 1 rows and a draw k in [0, n−1], row k's temperature becomes missing and every other row and field is unchanged; with 0 rows it fails with `EmptyWindow` |
| `Generator.GenerateEnergyData` | etl/scripts/generator.py:20-56 | fails exactly when the window has no rows; otherwise one row per timestamp in order, each built from its inputs, with exactly one missing temperature, at the drawn row |
| `Readings.SingleGapCount` | etl/scripts/generator.py:56 | a column whose only gap is at row k has exactly one missing cell and n − 1 present cells |
| `Readings.MissingCount` | etl/scripts/transformer.py:23 | `isnull().sum()`: never more than the number of rows; it is 0 exactly when every temperature is present (`Readings.NoMissingIffAllPresent`) |
| `Readings.PresentCount` | etl/scripts/transformer.py:24 | the count of present temperatures that `mean()` divides by: present plus missing cells make up the whole column |
| `Readings.NoMissingIffAllPresent` | etl/scripts/transformer.py:23 | `isnull().sum()` is 0 exactly when every temperature is present |
| `Readings.NonePresentIffAllMissing` | etl/scripts/transformer.py:24 | no temperature is present exactly when every cell is missing |
| `Transformer.Mean` | etl/scripts/transformer.py:24 | the column mean exists exactly when some temperature is present |
| `Transformer.ImputedTemperatures` | etl/scripts/transformer.py:23-24 | same length; present cells unchanged; every missing cell takes the column mean |
| `Transformer.ImputeTemperatures` | etl/scripts/transformer.py:23-24 | the in-place fill leaves the temperature array equal to the imputed column of its old contents |
| `Transformer.ClampConsumption` | etl/scripts/transformer.py:27 | the result is max(x, 0): never negative, never below x, and either x or 0 |
| `Transformer.ClampConsumptionColumn` | etl/scripts/transformer.py:27 | every array cell is replaced by the clamp of its old value |
| `Transformer.EstimatedCost` | etl/scripts/transformer.py:41 | cost ≥ 0; cost is 0 exactly when net ≤ 0; cost is 0.15·net when net > 0 |
| `Transformer.DeriveFeatures` | etl/scripts/transformer.py:34-41 | fresh columns with net = consumption − solar, the flag = (net ≤ 0) and the cost of the net, for every row |
| `Transformer.CleanRow` | etl/scripts/transformer.py:27-41 | a processed row keeps its timestamp and solar value and takes the imputed temperature; its consumption is the raw value or, for a raw value ≤ 0, exactly 0; its net load, flag and cost are consistent with it |
| `Transformer.CleanTable` | etl/scripts/transformer.py:21-41 | the processed table has one row per raw row; `Transformer.CleanTableRows` states the rest |
| `Transformer.TransformEnergyData` | etl/scripts/transformer.py:16-41 | an absent raw table fails with `MissingInput` and yields no table; otherwise the in-place steps produce exactly `CleanTable` of the input |
| `Transformer.CleanTableRows` | etl/scripts/transformer.py:21-41 | row count, row order, timestamps and the solar column are kept; consumption is clamped; net is computed from the clamped value; every row's derived columns are consistent |
| `Transformer.SelfSufficientIffFree` | etl/scripts/transformer.py:37-41 | a consistent row is self-sufficient exactly when its cost is 0 |
| `Transformer.ImputationFillsEveryGap` | etl/scripts/transformer.py:23-24 | if at least one temperature is present, no cleaned temperature is missing |
| `Transformer.ImputedValueIsMean` | etl/scripts/transformer.py:24 | present temperatures are unchanged; a filled gap holds the sum of present values divided by their count |
| `Transformer.NoGapNoChange` | etl/scripts/transformer.py:23 | with no gap the temperature column is returned unchanged |
| `Transformer.AllMissingStaysMissing` | etl/scripts/transformer.py:24 | with no temperature present the mean is NaN and every gap remains |
| `Transformer.DeviationIsSumMinusCount` | etl/scripts/transformer.py:24 | the deviations of the present temperatures from m sum to (sum − count·m) |
| `Transformer.MeanBalancesDeviations` | etl/scripts/transformer.py:24 | the imputed value is the unique m from which the present temperatures deviate by 0 in total |
| `Transformer.ImputationExample` | etl/scripts/transformer.py:23-24 | [10, 20, missing, 30, 40] becomes [10, 20, 25, 30, 40] |
| `Transformer.GeneratedBatchIsRepaired` | etl/scripts/transformer.py:23-24 | a batch with exactly one gap and at least two rows has no gap after cleaning; a one-row batch keeps its gap |
| `Aggregator.Selected` | visualization/app.py:120-121 | the selection is never longer than the table; `Aggregator.SelectedMembership` and `Aggregator.SelectedAppend` state which rows it keeps and in what order |
| `Aggregator.TotalConsumption` | visualization/app.py:131 | the column sum; `Aggregator.TotalsAppend` proves it additive and `Aggregator.TotalConsumptionNonNegative` non-negative over processed rows |
| `Aggregator.TotalSolar` | visualization/app.py:132 | the column sum; `Aggregator.TotalsAppend` proves it additive over concatenation |
| `Aggregator.SelectedMembership` | visualization/app.py:120-121 | a row is selected exactly when it is in the table and its day lies in [start, end] |
| `Aggregator.SelectedAppend` | visualization/app.py:120-121 | selection distributes over concatenation, so the selected rows keep the table's order |
| `Aggregator.SelectedWholeTable` | visualization/app.py:120-121 | a range covering every row selects the table unchanged |
| `Aggregator.SelectedNothing` | visualization/app.py:120-121 | a range covering no row selects nothing |
| `Aggregator.TotalsAppend` | visualization/app.py:131-132 | consumption, solar and grid-import totals of two adjacent stretches add up |
| `Aggregator.TotalConsumptionNonNegative` | visualization/app.py:131 | over processed rows the consumption total is never negative |
| `Aggregator.SolarCoverage` | visualization/app.py:135-138 | coverage·total_consumption = total_solar·100 when total_consumption > 0, otherwise exactly 0; it lies in [0, 100] when 0 ≤ solar ≤ consumption |
| `Aggregator.SolarMixAsWritten` | visualization/app.py:144 | the unguarded ratio is defined only for a non-zero total and then times the total gives the solar total |
| `Aggregator.SolarMixRatio` | visualization/app.py:144 | the guarded mix: 100 times it is the coverage; it equals the unguarded ratio when the total is positive and is 0 otherwise |
| `Aggregator.IdleSelectionHasNoMix` | visualization/app.py:144 | a processed hour whose consumption was clamped to 0 gives a zero consumption total: the coverage and the guarded mix are 0, but the unguarded division has no value |
| `Aggregator.AtHour` | visualization/app.py:195-196 | one `groupby('hour')` group, never longer than its input; `Aggregator.AtHourMembership` states which rows it holds |
| `Aggregator.Averages` | visualization/app.py:196 | the group's `mean()`; `Aggregator.AveragesAreMeans` proves that mean times group size is the group total, and `Aggregator.SingleRowAverages` that one row averages to itself |
| `Aggregator.AtHourMembership` | visualization/app.py:196 | an hour's group holds exactly the rows with that hour of day |
| `Aggregator.AtHourNonEmpty` | visualization/app.py:196 | every hour that occurs has a non-empty group |
| `Aggregator.AtHourAppend` | visualization/app.py:196 | grouping distributes over concatenation |
| `Aggregator.HourlyProfile` | visualization/app.py:195-196 | the keys are exactly the hours present; an empty selection gives an empty profile; each entry is the average of its hour's group |
| `Aggregator.HourlyProfileHoldsMeans` | visualization/app.py:196 | each entry holds the group's consumption and solar totals divided by the group's size |
| `Aggregator.AveragesAreMeans` | visualization/app.py:196 | the average of a group, times its size, is the group's total, for consumption and solar |
| `Aggregator.HourlyProfileKeys` | visualization/app.py:196 | an hour has an entry exactly when some row has that hour |
| `Aggregator.GridImport` | visualization/app.py:228 | Σ max(consumption − solar, 0) is never negative and never below total consumption − total solar |
| `Aggregator.GridImportIsBilledEnergy` | visualization/app.py:228 | over processed rows, grid import × 0.15 equals the sum of the estimated-cost column |
| `Aggregator.Aggregate` | visualization/app.py:119-140 | the totals, the coverage, the grid import and the profile are those of the selected rows; an empty selection gives all-zero metrics and an empty profile; grid import ≥ 0 and ≥ consumption − solar; mix·100 = coverage; CO2 = 0.4·total_solar; the profile's keys are the hours of the selection |
| `Aggregator.TwoHourTotals` | visualization/app.py:131-144 | rows (55, 0) at 0h and (80, 35) at 12h give totals 135 and 35, coverage 3500/135, mix 35/135, 14 kg CO2 and a grid import of 100 |
| `Aggregator.TwoHourProfile` | visualization/app.py:195-196 | the same rows give the profile {0: (55, 0), 12: (80, 35)} |

## Left out

- The wall-clock window (`etl/scripts/generator.py:17-20`): the timestamps are a parameter. Their count, their hourly spacing and their strict increase are not modelled.
- `np.sin`, `np.random.normal`, `random.uniform`, `random.randint` (`etl/scripts/generator.py:24,27,38,44,56`): these are parameters. The source draws a cloud factor only for daylight hours; the model takes one per row and ignores it at night. The order of the random draws is not modelled.
- File and directory I/O, hard-coded paths, `print`, the returned path and `pd.to_datetime` (`etl/scripts/generator.py:13-14,59-64`; `etl/scripts/transformer.py:9-13,30,43-49`; `visualization/app.py:80-90`). Only "the raw file is absent" is kept, as `MissingInput`. Other read errors are not modelled.
- The scheduler (`etl/dags/energy_pipeline.py`): the DAG, its retry policy and its task order are not part of this model.
- The Streamlit page, the CSS, the widgets, the caching, the date picker and its bounds, the Plotly figures and the number formatting of the metric labels (`visualization/app.py:9-116,123-129,143,145-146,148-194,197-227,229-248`) are not modelled. The aggregation takes any range of days.
- `df_filtered['hour'] = ...` (`visualization/app.py:195`) adds a column in place to the filtered copy. The model reads the hour from each row's timestamp, so that mutation is not modelled.
- IEEE floating point: rounding, infinities and NaN propagation other than a missing temperature. All numbers are exact reals.
- The chained `df['temperature_c'].fillna(..., inplace=True)` is modelled as updating the table. That is pandas' behaviour without copy-on-write.
- `Transformer.Mean`: its contract only says when the mean exists. Its value is stated by `Transformer.ImputedValueIsMean` and `Transformer.MeanBalancesDeviations`.

## Findings

| source | as written | input that shows it | evidently intended | confidence | as-written member | corrected member |
|---|---|---|---|---|---|---|
| visualization/app.py:144 | `total_solar/total_consumption` is divided with no zero guard, while lines 135-138 guard the same division | a selection whose cleaned consumption sums to 0, e.g. hours whose raw readings were all clamped to 0 (`Aggregator.IdleSelectionHasNoMix`) | the same guard as lines 135-138: a zero total gives a mix of 0 | low — not executed; a NumPy float division would show NaN or inf rather than raise | `Aggregator.SolarMixAsWritten` (with `Aggregator.IdleSelectionHasNoMix`) | `Aggregator.SolarMixRatio`, used by `Aggregator.Aggregate` |
