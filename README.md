# Functional flows, modelled in Dafny

This project models the core of the *functionalflows* package. The package
judges a daily hydrograph (a series of dates and flows) against the
ecological flow components of Yarnell et al. (2020).

Each component owns a few **characteristics**: timing, magnitude,
duration, rate of change and frequency. It evaluates them one after
another into the columns of a shared 0/1 matrix. Some characteristics
read the columns written before them. The component then **scores** every
row against a pattern that may hold wildcards. An **analysis** runs every
component over the same input.

Two generations of the code are modelled:

- the packaged code, in `functionalflows/` and `src/characteristic.py`,
  with its water year that starts on a configurable day;
- the older `metric.py` / `utilities.py` pair, whose water year always
  starts on 1 October and whose timing window is inclusive at both ends.

Modules follow the source files:

| module | source |
|---|---|
| `Results` | errors the source raises, as a `Result` datatype |
| `Matrices` | snapshots (`seq<seq<int>>`) of the numpy `int32` matrices, column reads and writes, row slices |
| `WaterYear` | `functionalflows/utilities.py` |
| `LegacyWaterYear` | `utilities.py` |
| `Characteristics` | comparator lookup and factory of `src/characteristic.py` |
| `PackagedCharacteristics` | factory of `functionalflows/model/characteristic.py` |
| `MovingAverages` | the trailing mean that `rolling(w, min_periods=1).mean()` computes |
| `TimingColumns`, `MagnitudeColumns`, `DurationColumns`, `RateOfChangeColumns`, `FrequencyColumns` | the five inner `evaluate` functions |
| `Evaluation` | how `Component.evaluate` calls an evaluator (no ordinal, so defaults apply) |
| `ColumnFills` | the column-filling loop shared by `Component.evaluate` and `Metric.evaluate` |
| `Components` | `functionalflows/model/component.py` |
| `Data` | `functionalflows/model/data.py` |
| `Analyses` | `functionalflows/model/analysis.py` |
| `Metrics` | `metric.py` |

Each loop in the source is a `method` with loop invariants. Each method is
proved equal to a specification function, and the lemmas state what that
function means. The loops modelled this way are the duration scan, the
rate-of-change loop, the frequency tally and spread, `score`,
`Component.evaluate`, `Output.to_df`, `Analysis.run`, and the legacy
`Metric.evaluate` and duration scan.

The packaged evaluators of `functionalflows/model/characteristic.py` have
the same bodies as those of `src/characteristic.py`; only defaults that no
caller relies on differ. In `src`, the timing, magnitude and
rate-of-change evaluators take `outputs=None, order=None`. In the packaged
file `outputs` is required and `order` defaults to 1, 2 and 3
(`functionalflows/model/characteristic.py` lines 38, 47 and 86). Every
caller passes both, so one model serves both files.
`PackagedCharacteristics.PackagedAgreesWithSource` proves the two
factories agree on every name except `frequency`.

The numpy matrices are `array2<int>`, filled in place. `Metric` is a
`class` whose `output` array is filled in place by `Evaluate`.

Where the code and its documentation disagree, the model follows the code:

- `day_of_water_year` is modelled as written. Its wrap-around is not
  injective (`WaterYear.DayOfWaterYearNotInjective`).
- `duration` in `metric.py` marks only the last row of a qualifying run,
  not the whole run (`Metrics.LegacyMarksLastOfPackagedRun`).

## Model

| member | source | states |
|---|---|---|
| Characteristics.MatchSymbol | src/characteristic.py:41-53 | ">", ">=", "=", "<=", "<" name their comparator; any other string is refused with the unknown-symbol error, and no comparator has that symbol |
| Characteristics.MatchSymbolRoundTrip | src/characteristic.py:41-53 | looking up the symbol of any comparator gives that comparator back |
| Characteristics.Compare | src/characteristic.py:41-53 | operator.lt and le hold when a < b, ge, eq and le when a == b, gt and ge when a > b, and no other comparator in each case |
| Characteristics.CompareInt | src/characteristic.py:152 | comparing the run length `n` with `nperiods` as integers agrees with the real-valued comparison |
| Characteristics.Factory | src/characteristic.py:72-86 | an unknown name is refused whatever the parameters; a known name with fewer than its 2/3/3/3/4 parameters is an index error; a built characteristic has the requested kind and the comparator its last parameter names; a last parameter that names no comparator makes the build fail |
| Characteristics.FactoryRoundTrip | src/characteristic.py:72-86 | every characteristic is rebuilt from its kind name and its parameters, and parameters beyond those read are ignored |
| Characteristics.FactoryRefusesUnknownSymbol | src/characteristic.py:118 | an unknown comparator symbol is refused when magnitude, duration, rate_of_change or frequency is built, with that symbol, before any row is evaluated |
| PackagedCharacteristics.PackagedFactory | functionalflows/model/characteristic.py:24-35 | names other than the four packaged kinds, "frequency" included, are refused; no frequency is ever built |
| PackagedCharacteristics.PackagedAgreesWithSource | functionalflows/model/characteristic.py:24-35 | on every name except "frequency" the packaged factory gives the same error or characteristic as the factory of src/characteristic.py |
| PackagedCharacteristics.PackagedRoundTrip | functionalflows/model/characteristic.py:24-35 | every non-frequency characteristic is rebuilt from its name and parameters; a frequency is refused |
| WaterYear.AdjustedStart | functionalflows/utilities.py:31 | the start moves one day later exactly when it is before day 60 of a leap year |
| WaterYear.DayOfWaterYear | functionalflows/utilities.py:27-32 | raises the invalid-start error exactly when start > 365; the adjusted start is day 1; for 1 <= start <= 365 a valid date lies in 1 .. length of its year |
| WaterYear.DefaultStartFirstOfJanuary | functionalflows/utilities.py:30-32 | with the default start 274, 1 January of a common year is day 92 |
| WaterYear.DayOfWaterYearShift | functionalflows/utilities.py:32 | two dates of one year on the same side of the adjusted start differ in day of water year by their difference in day of year |
| WaterYear.DayOfWaterYearNotInjective | functionalflows/utilities.py:30-32 | when the adjusted start is after 1 January, 1 January and the year's last day get the same day, end - s + 1, and no date reaches the last day of the water year |
| WaterYear.DayOfWaterYearIdentity | functionalflows/utilities.py:31-32 | with the adjusted start on 1 January the day of water year is the day of year |
| WaterYear.LitersPerDayToCubicMetersPerSecond | functionalflows/utilities.py:34-43 | the result times 86 400 000 is the flow in litres per day, so a positive flow shrinks |
| LegacyWaterYear.Dowy | utilities.py:5-7 | 1 October (day 275 in leap years, 274 otherwise) is day 1, and every valid date lies in 1 .. length of its year |
| LegacyWaterYear.DowyBijection | utilities.py:5-7 | the legacy map is a bijection from the days of a calendar year onto the days of its water year: DayOfYearOf inverts it on both sides |
| LegacyWaterYear.LegacyAndPackagedDisagree | utilities.py:7 | 1 January is day 93 under the legacy map but day 92 under the packaged map with its default start |
| MovingAverages.Window | src/characteristic.py:122-123 | the window of day i is the last min(w, i + 1) flows up to and including day i |
| MovingAverages.Smoothed | src/characteristic.py:122-123 | a window below 1 is refused; otherwise day i holds the trailing mean of its window, and the raw-flow branch for w = 1 agrees with it |
| MovingAverages.OneDayMean | src/characteristic.py:122-123 | the mean over a one-day window is that day's flow |
| MovingAverages.MeanBounds | src/characteristic.py:123 | a mean lies between any lower and upper bound of the values it averages |
| MovingAverages.TrailingMeanBounds | src/characteristic.py:123 | a trailing mean lies between any bounds of the flows in its window |
| MovingAverages.SmoothedScale | src/characteristic.py:122-123 | scaling every flow by c scales the smoothed series by c |
| TimingColumns.TimingColumn | src/characteristic.py:99-104 | one 0/1 cell per day, 1 exactly when start <= day of water year < end |
| TimingColumns.TimingDefaultWindow | src/characteristic.py:88-104 | the default window (0, 367) marks every day numbered 1 .. 366 |
| TimingColumns.TimingSplit | src/characteristic.py:101-103 | the windows [start, mid) and [mid, end) add up to [start, end), day by day |
| MagnitudeColumns.MagnitudeColumn | src/characteristic.py:118-127 | a window below 1 is refused; otherwise day i is 1 exactly when its trailing mean compares true with the threshold |
| MagnitudeColumns.MagnitudeRawFlows | src/characteristic.py:122-127 | with a one-day window each raw flow is compared with the threshold |
| MagnitudeColumns.MagnitudeExample | src/characteristic.py:124-127 | flows -1, 0, 1 against "> 0" give 0, 0, 1 |
| DurationColumns.Streak | src/characteristic.py:147-149 | the counter n before row i: the n rows before i all match and the row before them does not |
| DurationColumns.NextBreak | src/characteristic.py:147-150 | the first non-matching row at or after j, or the end of the series |
| DurationColumns.DurationMarks | src/characteristic.py:143-155 | one 0/1 cell per row, each given by the run containing it (MarkAt) |
| DurationColumns.DurationClosedRun | src/characteristic.py:150-154 | a run s .. e - 1 closed by the non-matching row e is marked whole exactly when op(e - s, nperiods), and row e stays 0 |
| DurationColumns.DurationOpenRun | src/characteristic.py:147-155 | a run still open at the last row is never marked |
| DurationColumns.StreakRun | src/characteristic.py:148-149 | at the end of a run that started at s, the counter is the run's length |
| DurationColumns.DurationExample | src/characteristic.py:143-155 | matches T, T, T, F, T with "> 2" give 1, 1, 1, 0, 0 |
| DurationColumns.ScanOutputMarks | src/characteristic.py:147-154 | after rows 0 .. i - 1 the loop's output is final before the open streak and 0 from it on |
| DurationColumns.ScanStepInRun | src/characteristic.py:148-149 | a matching row extends the streak and writes nothing |
| DurationColumns.ScanStepAtBreak | src/characteristic.py:150-154 | a non-matching row fixes the marks of the run it closes and resets the counter |
| DurationColumns.ScanOutputIsMarks | src/characteristic.py:147-154 | after the last row the loop's output is the closed form DurationMarks |
| DurationColumns.ScanStreaks | src/characteristic.py:144-155 | the scan loop, with its counter and slice write, returns DurationMarks |
| DurationColumns.EvaluateDuration | src/characteristic.py:143-155 | with the default pattern of order - 1 ones, the column is DurationMarks over whether each row's first order - 1 cells equal the pattern |
| Matrices.MatchBits | src/characteristic.py:148 | row i matches exactly when its cells before `stop` (clipped to the row) equal the pattern |
| Matrices.PatternLengthMismatch | functionalflows/model/characteristic.py:60-62 | a pattern whose length differs from the row slice matches no row, so duration writes all zeros |
| Matrices.RowSlice | src/characteristic.py:148 | numpy clips the stop of `outputs[i,:stop]` to the row length; the slice is a prefix of the row |
| Matrices.Contents | functionalflows/model/component.py:70 | the snapshot has the array's shape and its cells |
| Matrices.Zeros | functionalflows/model/component.py:70 | a rows x cols matrix of zeros |
| Matrices.NewZeros | functionalflows/model/component.py:70 | allocates a fresh rows x cols array of zeros |
| Matrices.Column | functionalflows/model/component.py:72 | column j holds cell j of every row |
| Matrices.SetColumn | functionalflows/model/component.py:72 | column j takes the new cells and every other cell is unchanged |
| Matrices.SetColumnKeeps | functionalflows/model/component.py:72 | writing column j leaves every other column as it was |
| Matrices.SetColumnWrites | functionalflows/model/component.py:72 | after writing column j it reads back as the column written |
| Matrices.WriteColumn | functionalflows/model/component.py:72 | `outputs[:, j] = col` in place: the new contents are SetColumn of the old |
| RateOfChangeColumns.Change | src/characteristic.py:178-183 | after a non-zero flow the change is (cur - prev) / prev while that is below 100 and 100 from there on; after a zero flow it is 0 for a zero flow and 1 otherwise |
| RateOfChangeColumns.ChangeSign | src/characteristic.py:181-183 | after a positive flow the change is positive exactly when the flow rises, zero exactly when equal, unclamped when it falls, and at least -1 for non-negative flows |
| RateOfChangeColumns.RateOfChangeBits | src/characteristic.py:176-184 | day 0 is 0 and every later day is op(change, threshold_factor) |
| RateOfChangeColumns.RateOfChangeColumn | src/characteristic.py:172-185 | a window below 1 is refused; otherwise one 0/1 cell per day, equal to RateOfChangeBits of the moving average |
| RateOfChangeColumns.MarkChanges | src/characteristic.py:176-185 | the loop writing out[i] returns RateOfChangeBits |
| RateOfChangeColumns.EvaluateRateOfChange | src/characteristic.py:172-185 | the evaluator returns RateOfChangeColumn |
| RateOfChangeColumns.RateOfChangeExample | src/characteristic.py:177-184 | flows 0, 0, 5 against "> 0" give 0, 0, 1 |
| RateOfChangeColumns.ChangeScaleInvariant | src/characteristic.py:178-183 | the change does not depend on the flow unit |
| RateOfChangeColumns.RateOfChangeBitsScale | src/characteristic.py:176-184 | rescaling the flows by a positive factor leaves the bits unchanged |
| RateOfChangeColumns.RateOfChangeUnitFree | src/characteristic.py:172-185 | rescaling the flows by a positive factor leaves the column unchanged, the moving average included |
| RateOfChangeColumns.RateOfChangeAfterUnitConversion | src/characteristic.py:172-185 | converting litres per day to cubic metres per second leaves the column unchanged |
| FrequencyColumns.ZeroBeforeStart | src/characteristic.py:207-211 | a water year not yet started among the first n days has no matches counted there |
| FrequencyColumns.TallyAfter | src/characteristic.py:206-211 | before the last day, after i days one count has been appended per water year started, count k is the number of matching days of year k, and the open count is that of the current year; every count lies in [0, i) |
| FrequencyColumns.YearCounts | src/characteristic.py:204-211 | one count per water year started before the last day plus one; count k is the number of matching days of year k among every day but the last; each count lies in [0, number of days) |
| FrequencyColumns.TallyConserves | src/characteristic.py:206-211 | the appended yearly counts plus the open count add up to the matches seen, and one count is appended per year boundary |
| FrequencyColumns.BoundariesBeforeLastDay | src/characteristic.py:207 | before the last day, the boundaries are exactly the days numbered 1 |
| FrequencyColumns.YearCountsTotals | src/characteristic.py:206-211 | the yearly counts total the matches of every day except the last, and there is one count per day numbered 1 plus one for the last day |
| FrequencyColumns.SumIntsSplit | src/characteristic.py:213-214 | the sum of a sequence is the sum of any prefix plus the sum of the rest |
| FrequencyColumns.SumIntsNonnegative | src/characteristic.py:213-214 | counts that are never negative have a non-negative sum |
| FrequencyColumns.RollingSum | src/characteristic.py:213-214 | with non-negative counts, the rolling sum at year j (min_periods=1) lies between year j's count and the sum of all years up to j |
| FrequencyColumns.SuffixSumBounds | src/characteristic.py:213-214 | a suffix of non-negative numbers sums to at least its last element and at most the whole |
| FrequencyColumns.YearFlags | src/characteristic.py:213-214 | one 0/1 flag per yearly count; flag j is 1 exactly when the rolling sum over n_years at year j reaches n_times |
| FrequencyColumns.RollingSumWholeHistory | src/characteristic.py:213-214 | a window at least as wide as the years so far sums every year up to j, as min_periods=1 does |
| FrequencyColumns.YearFlagsWiden | src/characteristic.py:213-214 | a wider window never takes a year's flag away |
| FrequencyColumns.YearFlagsOneYear | src/characteristic.py:213-214 | over a one-year window a year's flag is 1 exactly when its count reaches n_times |
| FrequencyColumns.YearStartsMonotone | src/characteristic.py:218-219 | the year index t never decreases |
| FrequencyColumns.DayFlags | src/characteristic.py:216-220 | fails with an index error exactly when the year index passes the last flag; otherwise day i gets the flag of the number of days up to i numbered 1 |
| FrequencyColumns.FrequencyColumn | src/characteristic.py:202-221 | a window below one year is refused; otherwise the yearly counts of matching rows are flagged by their rolling sum and each day takes its year's flag; on success, one 0/1 cell per day |
| FrequencyColumns.FrequencyWidens | src/characteristic.py:202-221 | widening the window of years never changes whether frequency succeeds and never takes a day's flag away |
| FrequencyColumns.FrequencyFailsIff | src/characteristic.py:204-220 | with a valid window, frequency fails exactly when the last day of the series is numbered 1 |
| FrequencyColumns.DayFlagsConstantWithinYear | src/characteristic.py:216-220 | days with no water-year start between them get the same flag |
| FrequencyColumns.FrequencyConstantWithinYear | src/characteristic.py:202-221 | the frequency column is constant over each water year |
| FrequencyColumns.NoStartsBetween | src/characteristic.py:218-219 | with no day numbered 1 between them, two days have the same year index |
| FrequencyColumns.TallyYears | src/characteristic.py:204-211 | the tally loop returns YearCounts |
| FrequencyColumns.SpreadFlags | src/characteristic.py:216-220 | the spreading loop returns DayFlags, index error included |
| FrequencyColumns.EvaluateFrequency | src/characteristic.py:202-221 | the evaluator returns FrequencyColumn |
| Evaluation.ColumnSpec | functionalflows/model/component.py:72 | the column an evaluator writes when called without an ordinal is, on success, one 0/1 cell per day |
| Evaluation.FrequencyIgnoresComparator | src/characteristic.py:201-221 | the frequency comparator is validated but never affects the column |
| Evaluation.EvaluateColumn | functionalflows/model/component.py:72 | calling a characteristic's evaluator on the input and the matrix gives ColumnSpec |
| ColumnFills.FillColumns | functionalflows/model/component.py:71-73 | filling keeps the matrix's shape |
| ColumnFills.FillFailurePersists | functionalflows/model/component.py:71-72 | once an evaluator has raised, the error is final |
| ColumnFills.FillNext | functionalflows/model/component.py:71-73 | the next step writes the next evaluator's column or stops with its error |
| ColumnFills.FillStep | functionalflows/model/component.py:71-73 | a successful fill came from a successful shorter fill and one written column |
| ColumnFills.FillFailsIff | metric.py:42-43 | when each evaluator raises independently of the matrix, the fill fails exactly when one of them raises, with its error |
| ColumnFills.FillColumnsUntouched | functionalflows/model/component.py:70-73 | the columns not yet reached are still as allocated |
| ColumnFills.FillColumnWritten | functionalflows/model/component.py:71-72 | column k holds what evaluator k computed from the matrix the earlier evaluators left |
| ColumnFills.FillColumnsBinary | functionalflows/model/component.py:70-73 | filling a 0/1 matrix keeps it 0/1 |
| Components.WildcardsUpTo | functionalflows/model/component.py:39-41 | the wildcard positions are strictly increasing and hold exactly the wildcards |
| Components.ValuesUpTo | functionalflows/model/component.py:37-38 | the matching pattern and the wildcard positions together account for every pattern element |
| Components.DeleteUpTo | functionalflows/model/component.py:53 | deleting cells shortens the row, and deleting none keeps it |
| Components.DeleteWildcardsIff | functionalflows/model/component.py:51-54 | deleting the wildcard cells yields the matching pattern exactly when every non-wildcard cell equals its pattern value |
| Components.ValuesWithoutWildcards | functionalflows/model/component.py:37-38 | without wildcards the matching pattern is the scoring pattern |
| Components.ScoringCriteria.MatchingPattern | functionalflows/model/component.py:37-38 | the pattern without its wildcards: the pattern with its wildcard positions deleted, one value per non-wildcard element |
| Components.ScoringCriteria.WildcardPositions | functionalflows/model/component.py:39-41 | the positions of the wildcards, in increasing order, every wildcard included |
| Components.ScoringCriteria.Match | functionalflows/model/component.py:51-56 | a row as long as the pattern matches exactly when every non-wildcard cell equals its pattern value |
| Components.ScoringCriteria.Name | functionalflows/model/component.py:58-59 | the score column is "success" exactly for a success pattern and "failure" otherwise |
| Components.ScoringCriteria.ScoreSpec | functionalflows/model/component.py:43-49 | an index error exactly when there are rows and column c, the pattern length, does not exist; a matrix without rows comes back unchanged; otherwise column c holds whether each row's first c cells match, and every other cell is unchanged |
| Components.ScoringCriteria.Score | functionalflows/model/component.py:43-49 | scores in place and returns the same matrix, or raises and leaves it unchanged, as ScoreSpec says |
| Components.MatchWithoutWildcards | functionalflows/model/component.py:55-56 | without wildcards, matching is plain equality with the pattern |
| Components.ScoreIdempotent | functionalflows/model/component.py:43-49 | scoring a scored matrix changes nothing |
| Components.Component.Keys | functionalflows/model/component.py:74 | one key per characteristic, in insertion order |
| Components.Component.Evaluators | functionalflows/model/component.py:71-72 | one evaluator per characteristic, each writing a 0/1 column of the matrix's height |
| Components.Component.Prefill | functionalflows/model/component.py:69-73 | the matrix being filled has len(flows) rows and one column per characteristic plus the score column |
| Components.Component.FillCharacteristics | functionalflows/model/component.py:69-73 | allocates a fresh zero matrix and fills it as Prefill says, or stops with the first error |
| Components.Component.FillColumn | functionalflows/model/component.py:71-73 | one step of the loop: column i is written, or the error is the final result |
| Components.Component.EvaluationSpec | functionalflows/model/component.py:67-75 | fails exactly when a characteristic raises or, with rows, the scoring pattern is longer than the characteristics; a characteristic's error is passed on; on success the matrix has len(flows) rows and one column per characteristic plus the score column |
| Components.Component.Evaluate | functionalflows/model/component.py:67-75 | the output holds the component's name, the keys followed by the score name, and a fresh matrix equal to EvaluationSpec; it raises exactly when EvaluationSpec fails, with the same error |
| Components.PrefillStep | functionalflows/model/component.py:71-73 | column i is what characteristic i computes from the matrix left by the earlier ones |
| Components.PrefillFailureFinal | functionalflows/model/component.py:71-72 | an error raised while filling is the component's error |
| Components.EvaluatorIsColumnSpec | functionalflows/model/component.py:72 | evaluator i is the call to characteristic i's evaluator |
| Components.PrefillColumns | functionalflows/model/component.py:70-73 | after j characteristics, columns j and later are still 0, and each column k < j is what characteristic k computed from the matrix as the earlier ones left it |
| Components.PrefillBinary | functionalflows/model/component.py:70-73 | every cell of the filled matrix is 0 or 1 |
| Components.EvaluationScoresLastColumn | functionalflows/model/component.py:67-75 | with one pattern element per characteristic, the result keeps the characteristic columns, its last column says whether each row matches, every cell is 0 or 1, and there are k + 1 names |
| Data.MakeInput | functionalflows/model/data.py:16-18 | dsowy[i] is the day of water year of dates[i]; an invalid start raises only when there is a date |
| Data.MakeInputDefaultStart | functionalflows/model/data.py:13 | without a start the water year starts on day 274 |
| Data.Output.ToColumns | functionalflows/model/data.py:39-44 | the table of columns named `component_name`_`name`, in order, each the matrix column; more names than columns is an index error |
| Data.ColumnNames | functionalflows/model/data.py:42 | one name per characteristic name, prefixed by the component name |
| Data.ColumnNameInjective | functionalflows/model/data.py:42 | different characteristic names give different column names |
| Data.ColumnNamesDistinct | functionalflows/model/data.py:42 | distinct characteristic names give distinct column names |
| Data.PutKeepsKeysListed | functionalflows/model/data.py:42 | inserting a column keeps the key list and the dictionary in step |
| Data.TableOfKeysListed | functionalflows/model/data.py:40-42 | the key list and the dictionary hold the same names |
| Data.TableOfKeys | functionalflows/model/data.py:40-42 | with distinct names, the keys are the column names in order |
| Data.TableOfColumns | functionalflows/model/data.py:40-42 | each column name carries its matrix column |
| Data.OutputTable | functionalflows/model/data.py:39-44 | with distinct names, one column per name, in order, each the matrix column unchanged with one cell per row |
| Analyses.CollectedExtend | functionalflows/model/analysis.py:16-17 | appending the next component's output keeps every output matched to its component, each in its own matrix |
| Analyses.Analysis.EvaluateNext | functionalflows/model/analysis.py:17 | evaluates the next component against the same input into a fresh matrix |
| Analyses.Analysis.Run | functionalflows/model/analysis.py:14-23 | one output per component, in order, each fresh and equal to that component's evaluation of the same input; it raises exactly when a component does, with the first error; the file is written exactly when all succeed and the path is not empty |
| Metrics.DaysOfWaterYear | metric.py:36 | dsowy[i] is the legacy day of water year of dates[i], within 1 .. length of its year |
| Metrics.LegacyTimingColumn | metric.py:45-51 | day i is 1 exactly when start <= dsowy[i] <= end, both ends included |
| Metrics.LegacyTimingIsPackagedShifted | metric.py:50 | the legacy window [start, end] is the packaged window [start, end + 1) |
| Metrics.LegacyDefaultTimingMarksEveryDay | metric.py:45-51 | the default window (0, 367) marks every day |
| Metrics.LegacyMagnitudeColumn | metric.py:54-60 | day i is 1 exactly when op(flow, threshold) on the raw flow |
| Metrics.LegacyMagnitudeIsOneDayWindow | metric.py:54-60 | the legacy magnitude is the packaged magnitude with a one-day window |
| Metrics.RowSumOfBinary | metric.py:71 | a 0/1 row sums to at most its length, and to its length exactly when every cell is 1 |
| Metrics.RowSumZeroTail | metric.py:71 | zero cells after n do not change the row sum |
| Metrics.RowCountsIffEarlierHold | metric.py:70-71 | while the columns from `order` on are 0, a 0/1 row sums to `order` exactly when its first `order` cells are 1 |
| Metrics.CountingRows | metric.py:71 | row i counts exactly when its sum equals `order` |
| Metrics.ScanMarks | metric.py:69-79 | the output after rows 0 .. i - 1: cell j is 1 exactly when a closed run qualified for it |
| Metrics.LegacyDurationMarks | metric.py:65-80 | the legacy duration column: cell j is 1 exactly when a counting run ends just before a non-counting row with n_periods <= its length, or j is the last row and row 0 wraps |
| Metrics.LegacyMarksLastOfPackagedRun | metric.py:69-79 | for n_periods >= 1, row j is marked exactly when the packaged ">=" duration marks it and row j + 1 does not count: only the last row of a run |
| Metrics.LegacyNonPositivePeriods | metric.py:75-78 | for n_periods <= 0 every row before a non-counting row is marked, and the last row is marked through out[-1] when row 0 does not count |
| Metrics.ArrayRow | metric.py:71 | reads row i of the output array |
| Metrics.ScanStep | metric.py:69-79 | a counting row writes nothing; a non-counting row marks the row before it exactly when the run qualifies |
| Metrics.ScanRow | metric.py:71-79 | one pass of the loop body: the counter becomes the new streak and the output array holds ScanMarks after one more row |
| Metrics.LegacyDurationScan | metric.py:65-80 | the loop over the shared output returns LegacyDurationMarks of the counting rows |
| Metrics.Broadcast | metric.py:43 | `output[:, i] = col` raises a shape error exactly when col has neither one cell per row nor one cell; otherwise every row gets its own cell, or the single cell |
| Metrics.BroadcastBinary | metric.py:43 | broadcasting a 0/1 column gives a 0/1 column |
| Metrics.LegacyColumn | metric.py:45-80 | the column of each legacy kind: timing marks dsowy in [start, end], magnitude marks op(flow, threshold), duration is LegacyDurationMarks of the rows summing to the order; each 0/1 and as long as its input |
| Metrics.LegacyEvaluators | metric.py:43 | one evaluator per characteristic, called with order = its position |
| Metrics.LegacyOutput | metric.py:35-43 | the filled output has one row per date and one column per characteristic, with no score column |
| Metrics.EvaluatorFailure | metric.py:43 | characteristic k raises exactly when it is a magnitude and the flows neither match the dates nor are a single value |
| Metrics.Raises | metric.py:54-60 | which characteristics raise on misfitting flows |
| Metrics.EvaluatorsRaise | metric.py:43 | every evaluator raises, whatever the matrix, exactly as Raises says, with the shape error |
| Metrics.LegacyOutputFailure | metric.py:35-43 | building a Metric fails exactly when the flows misfit the dates and some characteristic is a magnitude, with the shape error |
| Metrics.LegacyOutputColumn | metric.py:40-43 | column k of the output is characteristic k evaluated on the matrix as the earlier characteristics left it |
| Metrics.LegacyOutputTiming | metric.py:43-51 | a timing column's row r is 1 exactly when start <= dowy(dates[r]) <= end |
| Metrics.LegacyOutputMagnitude | metric.py:43-60 | a magnitude column exists only when the flows fit the dates or are a single value, and row r is 1 exactly when op(flow, threshold) |
| Metrics.EarlierColumnKept | metric.py:42-43 | a column written earlier is never changed by later characteristics |
| Metrics.EarlierColumnsKept | metric.py:42-43 | after k characteristics the first k columns already hold their final values |
| Metrics.LegacyBeforeColumn | metric.py:40-43 | characteristic k sees the final first k columns and zeros from column k on |
| Metrics.EarlierHold | metric.py:71 | row r holds when its first k cells are all 1 |
| Metrics.LegacyRowCounts | metric.py:71 | in the matrix duration k reads, row r sums to k exactly when its first k cells of the final output are 1 |
| Metrics.LegacyOutputDuration | metric.py:63-80 | a duration column at position k is LegacyDurationMarks over the rows whose first k columns of the final output are all 1 |
| Metrics.Metric.Evaluators | metric.py:43 | one 0/1 evaluator per characteristic |
| Metrics.Metric.constructor | metric.py:35-37 | keeps the dates, flows and characteristics, computes dsowy with the legacy map, and allocates a fresh zero output of rows x characteristics |
| Metrics.Metric.EvaluateCharacteristic | metric.py:43 | calls characteristic `order` on the current output, with the broadcast assignment |
| Metrics.Metric.FillColumn | metric.py:42-43 | one pass of the loop: column i is written, or the error is the final result |
| Metrics.Metric.Evaluate | metric.py:40-43 | fills the output in place, column i by characteristic i in order, as LegacyOutput says, or stops with the first error |
| Metrics.NewMetric | metric.py:35-38 | builds a Metric and evaluates it: the output is LegacyOutput of the inputs, or the error it raises |

## Left out

- CSV and pandas input and output are not modelled: `Input.from_csv`, `Input.from_df`, `Input.to_df`, the DataFrame built by `Output.to_df`, the CSV join and write in `Analysis.run`, and the join failing on overlapping column names. `Analysis.Run` reports only whether the file would be written.
- Components.Component: the characteristics are a sequence of (key, characteristic) pairs, so the model admits a repeated key, which the Python dict of `component.py` line 64 cannot hold. Nothing in the model requires distinct keys. `Data.OutputTable`, which needs distinct column names, states that as its own precondition.
- `functionalflows/config.py`, `functionalflows/__main__.py` and `functionalflows/__init__.py` are not modelled. They hold TOML loading, the command-line interface and constants.
- Floating point is not modelled: flows and averages are `real`, so there is no rounding, NaN or infinity.
- The `int32` cells of the numpy matrices are unbounded integers. Every value written is 0 or 1, so no overflow can occur.
- Dates are reduced to their day of year and whether the year is a leap year.
- Characteristic parameters are a small datatype (`Param`) instead of Python's untyped values. Python's own conversions between `int`, `float` and `bool` are not modelled.
- `np.vectorize` on a zero-length series is not modelled. numpy cannot infer the output type there and raises; the model returns an empty column.
- `frequency` in `metric.py` is not modelled. It reads `data.metrics` and `data.dswy`, which `Metric` does not have, so it raises on its first access.
- `magnitude` in `metric.py` takes any Python callable as its operator. The model allows only the five comparators.
- `Metric` fields are set once in the constructor (`const`). `output` is the only array, and it is filled in place.
- The import of `EvaluationFx` at functionalflows/model/component.py:18 is not modelled. That module does not define it. Evaluators are modelled directly, as `Characteristic` values.
- Data.MakeInput: requires as many flows as dates. The source does not check this, and with mismatched lengths the evaluators misalign rows in numpy-specific ways.
- Components.Component.Evaluators: treats a matrix of the wrong height as an index error. The component never calls an evaluator with such a matrix.
- FrequencyColumns.SpreadFlags: requires at least one yearly flag when there is a day. The tally always appends a count on the last day, so the source never breaks this.
