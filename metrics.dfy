/**
  The legacy metric engine (metric.py). A Metric computes the day of the
  water year of every date when it is built (with the fixed 1 October start
  of utilities.py), then fills one column per characteristic, left to
  right, into an output matrix that has no score column. Characteristic i
  is called with order i and may read the columns written before it.
 */
module Metrics {
  import opened Results
  import opened Matrices
  import opened WaterYear
  import opened LegacyWaterYear
  import opened Characteristics
  import opened DurationColumns
  import opened ColumnFills
  import TimingColumns
  import MagnitudeColumns

  /** The characteristic functions metric.py builds, with the parameters they close over. */
  datatype LegacyCharacteristic =
    | LegacyTiming(start: int, end: int)
    | LegacyMagnitude(threshold: real, op: Comparator)
    | LegacyDuration(nPeriods: int)

  /** The defaults of timing(), magnitude() and duration(). */
  const DefaultTiming := LegacyTiming(0, 367)
  const DefaultMagnitude := LegacyMagnitude(0.0, Gt)
  const DefaultDuration := LegacyDuration(2)

  /** The day of the water year of every date, as dates.apply(dowy). */
  function DaysOfWaterYear(dates: seq<Date>): (dsowy: seq<int>)
    ensures |dsowy| == |dates|
    ensures forall i :: 0 <= i < |dates| ==> dsowy[i] == Dowy(dates[i])
    ensures forall i :: 0 <= i < |dates| && ValidDate(dates[i]) ==>
      1 <= dsowy[i] <= YearLength(dates[i].isLeapYear)
  {
    seq(|dates|, i requires 0 <= i < |dates| => Dowy(dates[i]))
  }

  // ---------------------------------------------------------------------
  // The three characteristics

  /** Timing: 1 on the days of the water year from `start` to `end`, both ends included. */
  function LegacyTimingColumn(start: int, end: int, dsowy: seq<int>): (col: seq<int>)
    ensures |col| == |dsowy| && IsBinaryColumn(col)
    ensures forall i :: 0 <= i < |dsowy| ==> (col[i] == 1 <==> start <= dsowy[i] <= end)
  {
    seq(|dsowy|, i requires 0 <= i < |dsowy| => Bit(start <= dsowy[i] <= end))
  }

  /**
    The legacy timing window is the packaged one shifted by a day at its
    end: on whole days, `start <= d <= end` is `start <= d < end + 1`.
   */
  lemma LegacyTimingIsPackagedShifted(start: int, end: int, dsowy: seq<int>)
    ensures LegacyTimingColumn(start, end, dsowy) == TimingColumns.TimingColumn(start, end + 1, dsowy)
  {
  }

  /** The default window (0, 367) marks every day of valid dates. */
  lemma LegacyDefaultTimingMarksEveryDay(dates: seq<Date>)
    requires forall i :: 0 <= i < |dates| ==> ValidDate(dates[i])
    ensures LegacyTimingColumn(DefaultTiming.start, DefaultTiming.end, DaysOfWaterYear(dates)) ==
      seq(|dates|, _ => 1)
  {
  }

  /** Magnitude: 1 where the raw flow itself compares to the threshold; no moving average. */
  function LegacyMagnitudeColumn(threshold: real, op: Comparator, flows: seq<real>): (col: seq<int>)
    ensures |col| == |flows| && IsBinaryColumn(col)
    ensures forall i :: 0 <= i < |flows| ==> (col[i] == 1 <==> Compare(op, flows[i], threshold))
  {
    seq(|flows|, i requires 0 <= i < |flows| => Bit(Compare(op, flows[i], threshold)))
  }

  /** The legacy magnitude is the packaged magnitude over a window of one day. */
  lemma LegacyMagnitudeIsOneDayWindow(threshold: real, op: Comparator, flows: seq<real>)
    ensures MagnitudeColumns.MagnitudeColumn(1, threshold, op, flows) ==
      Success(LegacyMagnitudeColumn(threshold, op, flows))
  {
  }

  /** The sum of a row, as `row.sum()`. */
  function RowSum(row: seq<int>): int {
    if row == [] then 0 else RowSum(row[..|row| - 1]) + row[|row| - 1]
  }

  /** A 0/1 row sums to its length exactly when every cell is 1, and never to more. */
  lemma {:induction false} RowSumOfBinary(row: seq<int>)
    requires IsBinaryColumn(row)
    ensures RowSum(row) <= |row|
    ensures RowSum(row) == |row| <==> forall c :: 0 <= c < |row| ==> row[c] == 1
  {
    if row != [] {
      var init := row[..|row| - 1];
      RowSumOfBinary(init);
      if RowSum(row) == |row| {
        forall c | 0 <= c < |row| ensures row[c] == 1 {
          if c < |row| - 1 {
            assert init[c] == row[c];
          }
        }
      }
    }
  }

  /** Zero cells at the end of a row add nothing to its sum. */
  lemma {:induction false} RowSumZeroTail(row: seq<int>, n: nat)
    requires n <= |row|
    requires forall c :: n <= c < |row| ==> row[c] == 0
    ensures RowSum(row) == RowSum(row[..n])
    decreases |row|
  {
    if n < |row| {
      var init := row[..|row| - 1];
      RowSumZeroTail(init, n);
      assert init[..n] == row[..n];
    } else {
      assert row[..n] == row;
    }
  }

  /**
    While characteristic `order` is evaluated the columns from `order` on
    are still 0, so a 0/1 row sums to `order` exactly when every earlier
    characteristic holds on it.
   */
  lemma RowCountsIffEarlierHold(row: seq<int>, order: nat)
    requires order <= |row| && IsBinaryColumn(row)
    requires forall c :: order <= c < |row| ==> row[c] == 0
    ensures RowSum(row) == order <==> forall c :: 0 <= c < order ==> row[c] == 1
  {
    var prefix := row[..order];
    RowSumZeroTail(row, order);
    assert IsBinaryColumn(prefix) by {
      forall c | 0 <= c < |prefix| ensures prefix[c] == 0 || prefix[c] == 1 {
        assert prefix[c] == row[c];
      }
    }
    RowSumOfBinary(prefix);
    assert forall c :: 0 <= c < order ==> prefix[c] == row[c];
  }

  /** The rows the duration counts: those whose whole row sums to `order`. */
  function CountingRows(m: Matrix, order: int): (counts: seq<bool>)
    ensures |counts| == |m|
    ensures forall i :: 0 <= i < |m| ==> (counts[i] <==> RowSum(m[i]) == order)
  {
    seq(|m|, i requires 0 <= i < |m| => RowSum(m[i]) == order)
  }

  /**
    Whether the duration scan has set row j after reading rows 0 .. i - 1.
    Row j + 1 sets it when it does not count and closes a run of at least
    `nPeriods` counting rows (a run of any length, when `nPeriods` is at
    most 0). When `nPeriods` is at most 0 and row 0 does not count, the
    write to out[i - 1] at row 0 is out[-1], which sets the last row.
   */
  predicate SetBy(counts: seq<bool>, nPeriods: int, i: nat, j: nat)
    requires i <= |counts| && j < |counts|
  {
    || (j + 1 < i && !counts[j + 1] && nPeriods <= Streak(counts, j + 1))
    || (j == |counts| - 1 && 0 < i && !counts[0] && nPeriods <= 0)
  }

  /** The duration column as far as the scan has written it after rows 0 .. i - 1. */
  function ScanMarks(counts: seq<bool>, nPeriods: int, i: nat): (out: seq<int>)
    requires i <= |counts|
    ensures |out| == |counts| && IsBinaryColumn(out)
    ensures forall j :: 0 <= j < |counts| ==> (out[j] == 1 <==> SetBy(counts, nPeriods, i, j))
  {
    seq(|counts|, j requires 0 <= j < |counts| => Bit(SetBy(counts, nPeriods, i, j)))
  }

  /** The legacy duration column: the rows the whole scan sets. */
  function LegacyDurationMarks(counts: seq<bool>, nPeriods: int): (out: seq<int>)
    ensures |out| == |counts| && IsBinaryColumn(out)
    ensures forall j :: 0 <= j < |counts| ==> (out[j] == 1 <==> SetBy(counts, nPeriods, |counts|, j))
  {
    ScanMarks(counts, nPeriods, |counts|)
  }

  /**
    With a positive `nPeriods`, the legacy duration marks only the last row
    of each run the packaged duration (with `>=`) marks whole.
   */
  lemma LegacyMarksLastOfPackagedRun(counts: seq<bool>, nPeriods: int, j: nat)
    requires nPeriods >= 1 && j < |counts|
    ensures LegacyDurationMarks(counts, nPeriods)[j] == 1 <==>
      DurationMarks(counts, nPeriods, Ge)[j] == 1 && (j + 1 < |counts| ==> !counts[j + 1])
  {
    if j + 1 < |counts| && counts[j] && !counts[j + 1] {
      assert NextBreak(counts, j + 1) == j + 1;
      assert NextBreak(counts, j) == j + 1;
    } else if j + 1 == |counts| && counts[j] {
      assert NextBreak(counts, j + 1) == |counts|;
      assert NextBreak(counts, j) == |counts|;
    }
  }

  /**
    With `nPeriods` at most 0 every row before a non-counting row is set,
    and the last row is set as well when row 0 does not count, even where
    it ends an open run.
   */
  lemma LegacyNonPositivePeriods(counts: seq<bool>, nPeriods: int, j: nat)
    requires nPeriods <= 0 && j < |counts|
    ensures LegacyDurationMarks(counts, nPeriods)[j] == 1 <==>
      (j + 1 < |counts| && !counts[j + 1]) || (j == |counts| - 1 && !counts[0])
  {
  }

  /** Row `i` of an array, read from the array. */
  function ArrayRow(a: array2<int>, i: nat): (row: seq<int>)
    requires i < a.Length0
    reads a
    ensures row == Contents(a)[i]
  {
    seq(a.Length1, j requires 0 <= j < a.Length1 reads a => a[i, j])
  }

  /** One step of the scan: row i either extends the streak or closes it. */
  lemma ScanStep(counts: seq<bool>, nPeriods: int, i: nat, j: nat)
    requires i < |counts| && j < |counts|
    ensures counts[i] ==> (SetBy(counts, nPeriods, i + 1, j) <==> SetBy(counts, nPeriods, i, j))
    ensures !counts[i] ==>
      (SetBy(counts, nPeriods, i + 1, j) <==>
        || SetBy(counts, nPeriods, i, j)
        || (nPeriods <= Streak(counts, i) && j == (if i == 0 then |counts| - 1 else i - 1)))
  {
  }

  /**
    Reads row i of the scan: a counting row extends the streak `n`; any
    other row sets the row before it (the last row, for row 0) when the
    streak reached `nPeriods`, and resets the streak.
   */
  method ScanRow(out: array<int>, ghost counts: seq<bool>, nPeriods: int, i: nat, n: nat, rowCounts: bool)
    returns (next: nat)
    requires out.Length == |counts| && i < |counts| && rowCounts == counts[i]
    requires n == Streak(counts, i) && out[..] == ScanMarks(counts, nPeriods, i)
    modifies out
    ensures next == Streak(counts, i + 1) && out[..] == ScanMarks(counts, nPeriods, i + 1)
  {
    if rowCounts {
      next := n + 1;
    } else {
      if nPeriods <= n {
        out[if i == 0 then out.Length - 1 else i - 1] := 1;
      }
      next := 0;
    }
    forall j | 0 <= j < out.Length ensures out[j] == ScanMarks(counts, nPeriods, i + 1)[j] {
      ScanStep(counts, nPeriods, i, j);
    }
  }

  /**
    The duration evaluator of metric.py: counts the consecutive rows of
    `output` whose sum is `order` and, at each row that does not count,
    sets the row before it when the streak reached `nPeriods`.
   */
  method LegacyDurationScan(output: array2<int>, order: int, nPeriods: int) returns (col: seq<int>)
    ensures col == LegacyDurationMarks(CountingRows(Contents(output), order), nPeriods)
  {
    ghost var counts := CountingRows(Contents(output), order);
    var out := new int[output.Length0](_ => 0);
    var n := 0;
    for i := 0 to out.Length
      invariant n == Streak(counts, i)
      invariant out[..] == ScanMarks(counts, nPeriods, i)
    {
      n := ScanRow(out, counts, nPeriods, i, n, RowSum(ArrayRow(output, i)) == order);
    }
    col := out[..];
  }

  // ---------------------------------------------------------------------
  // Filling the output

  /**
    The column numpy stores by `output[:, i] = col` into a matrix of `rows`
    rows: a column of one value is broadcast down every row, and a column
    of any other length but `rows` raises.
   */
  function Broadcast(col: seq<int>, rows: nat): (r: Result<seq<int>>)
    ensures r.Failure? <==> |col| != rows && |col| != 1
    ensures r.Failure? ==> r.error == ShapeMismatch(|col|, rows)
    ensures r.Success? ==> |r.value| == rows
    ensures r.Success? ==> forall i :: 0 <= i < rows ==> r.value[i] == if |col| == rows then col[i] else col[0]
  {
    if |col| == rows then Success(col)
    else if |col| == 1 then Success(seq(rows, _ => col[0]))
    else Failure(ShapeMismatch(|col|, rows))
  }

  lemma BroadcastBinary(col: seq<int>, rows: nat)
    requires IsBinaryColumn(col) && Broadcast(col, rows).Success?
    ensures IsBinaryColumn(Broadcast(col, rows).value)
  {
  }

  /** What characteristic `c`, called with `order`, computes from the matrix `m`. */
  function LegacyColumn(c: LegacyCharacteristic, dsowy: seq<int>, flows: seq<real>, m: Matrix, order: nat)
    : (col: seq<int>)
    ensures IsBinaryColumn(col)
    ensures c.LegacyTiming? ==> |col| == |dsowy|
    ensures c.LegacyTiming? ==>
      forall i :: 0 <= i < |dsowy| ==> (col[i] == 1 <==> c.start <= dsowy[i] <= c.end)
    ensures c.LegacyMagnitude? ==> |col| == |flows|
    ensures c.LegacyMagnitude? ==>
      forall i :: 0 <= i < |flows| ==> (col[i] == 1 <==> Compare(c.op, flows[i], c.threshold))
    ensures c.LegacyDuration? ==> |col| == |m|
    ensures c.LegacyDuration? ==>
      forall j :: 0 <= j < |m| ==> (col[j] == 1 <==> SetBy(CountingRows(m, order), c.nPeriods, |m|, j))
  {
    match c
    case LegacyTiming(start, end) => LegacyTimingColumn(start, end, dsowy)
    case LegacyMagnitude(threshold, op) => LegacyMagnitudeColumn(threshold, op, flows)
    case LegacyDuration(nPeriods) => LegacyDurationMarks(CountingRows(m, order), nPeriods)
  }

  /** Each characteristic as Metric.evaluate calls it, its column stored into the matrix. */
  function LegacyEvaluators(dsowy: seq<int>, flows: seq<real>, characteristics: seq<LegacyCharacteristic>)
    : (fs: seq<ColumnEvaluator>)
    ensures |fs| == |characteristics| && WellBehaved(fs)
  {
    var fs := seq(|characteristics|, i requires 0 <= i < |characteristics| =>
      (m: Matrix) => Broadcast(LegacyColumn(characteristics[i], dsowy, flows, m, i), |m|));
    assert WellBehaved(fs) by {
      forall i, m | 0 <= i < |fs| && fs[i](m).Success?
        ensures |fs[i](m).value| == |m| && IsBinaryColumn(fs[i](m).value)
      {
        BroadcastBinary(LegacyColumn(characteristics[i], dsowy, flows, m, i), |m|);
      }
    }
    fs
  }

  /** The output Metric(dates, flows, characteristics) ends with, or the exception it raises. */
  function LegacyOutput(dates: seq<Date>, flows: seq<real>, characteristics: seq<LegacyCharacteristic>)
    : (r: Result<Matrix>)
    ensures r.Success? ==> HasShape(r.value, |dates|, |characteristics|)
  {
    FillColumns(LegacyEvaluators(DaysOfWaterYear(dates), flows, characteristics),
                Zeros(|dates|, |characteristics|), |characteristics|)
  }

  /**
    Only a magnitude can raise: it returns one value per flow, which numpy
    cannot store in a column of one row per date unless there is exactly
    one flow.
   */
  lemma EvaluatorFailure(dsowy: seq<int>, flows: seq<real>, characteristics: seq<LegacyCharacteristic>,
                         k: nat, m: Matrix)
    requires k < |characteristics| && |m| == |dsowy|
    ensures var r := LegacyEvaluators(dsowy, flows, characteristics)[k](m);
      && (r.Failure? <==> characteristics[k].LegacyMagnitude? && |flows| != |m| && |flows| != 1)
      && (r.Failure? ==> r.error == ShapeMismatch(|flows|, |m|))
  {
  }

  /** The flows cannot be stored against the dates. */
  predicate FlowsMisfit(dates: seq<Date>, flows: seq<real>) {
    |flows| != |dates| && |flows| != 1
  }

  /** Which characteristics raise on the output of a Metric built from these dates and flows. */
  function Raises(dates: seq<Date>, flows: seq<real>, characteristics: seq<LegacyCharacteristic>): (raises: seq<bool>)
    ensures |raises| == |characteristics|
    ensures forall k :: 0 <= k < |characteristics| ==>
      (raises[k] <==> characteristics[k].LegacyMagnitude? && FlowsMisfit(dates, flows))
  {
    seq(|characteristics|, k requires 0 <= k < |characteristics| =>
      characteristics[k].LegacyMagnitude? && FlowsMisfit(dates, flows))
  }

  lemma EvaluatorsRaise(dates: seq<Date>, flows: seq<real>, characteristics: seq<LegacyCharacteristic>)
    ensures var fs := LegacyEvaluators(DaysOfWaterYear(dates), flows, characteristics);
      forall k, m :: 0 <= k < |fs| && |m| == |dates| ==>
        && (fs[k](m).Failure? <==> Raises(dates, flows, characteristics)[k])
        && (fs[k](m).Failure? ==> fs[k](m).error == ShapeMismatch(|flows|, |dates|))
  {
    var dsowy := DaysOfWaterYear(dates);
    var fs := LegacyEvaluators(dsowy, flows, characteristics);
    forall k, m | 0 <= k < |fs| && |m| == |dates|
      ensures fs[k](m).Failure? <==> Raises(dates, flows, characteristics)[k]
      ensures fs[k](m).Failure? ==> fs[k](m).error == ShapeMismatch(|flows|, |dates|)
    {
      EvaluatorFailure(dsowy, flows, characteristics, k, m);
    }
  }

  /**
    Building a Metric raises exactly when it has a magnitude characteristic
    and the flows cannot be stored against the dates, and the exception is
    the shape mismatch.
   */
  lemma LegacyOutputFailure(dates: seq<Date>, flows: seq<real>, characteristics: seq<LegacyCharacteristic>)
    ensures LegacyOutput(dates, flows, characteristics).Failure? <==>
      FlowsMisfit(dates, flows) && exists k :: 0 <= k < |characteristics| && characteristics[k].LegacyMagnitude?
    ensures LegacyOutput(dates, flows, characteristics).Failure? ==>
      LegacyOutput(dates, flows, characteristics).error == ShapeMismatch(|flows|, |dates|)
  {
    var raises := Raises(dates, flows, characteristics);
    EvaluatorsRaise(dates, flows, characteristics);
    FillFailsIff(LegacyEvaluators(DaysOfWaterYear(dates), flows, characteristics),
                 Zeros(|dates|, |characteristics|), |characteristics|, raises, ShapeMismatch(|flows|, |dates|));
    if exists k :: 0 <= k < |characteristics| && raises[k] {
      var k :| 0 <= k < |characteristics| && raises[k];
      assert characteristics[k].LegacyMagnitude?;
    }
    if FlowsMisfit(dates, flows) && exists k :: 0 <= k < |characteristics| && characteristics[k].LegacyMagnitude? {
      var k :| 0 <= k < |characteristics| && characteristics[k].LegacyMagnitude?;
      assert raises[k];
    }
  }

  /**
    Column k of a built Metric's output is what characteristic k computed
    from the output as the first k characteristics left it.
   */
  lemma LegacyOutputColumn(dates: seq<Date>, flows: seq<real>, characteristics: seq<LegacyCharacteristic>, k: nat)
    requires k < |characteristics| && LegacyOutput(dates, flows, characteristics).Success?
    ensures var fs := LegacyEvaluators(DaysOfWaterYear(dates), flows, characteristics);
      var m0 := Zeros(|dates|, |characteristics|);
      && FillColumns(fs, m0, k).Success?
      && var before := FillColumns(fs, m0, k).value;
      && Broadcast(LegacyColumn(characteristics[k], DaysOfWaterYear(dates), flows, before, k), |dates|).Success?
      && Column(LegacyOutput(dates, flows, characteristics).value, k) ==
         Broadcast(LegacyColumn(characteristics[k], DaysOfWaterYear(dates), flows, before, k), |dates|).value
  {
    var fs := LegacyEvaluators(DaysOfWaterYear(dates), flows, characteristics);
    FillColumnWritten(fs, Zeros(|dates|, |characteristics|), |characteristics|, k);
  }

  /** A timing column of a built Metric marks the dates whose day of the water year is in its window. */
  lemma LegacyOutputTiming(dates: seq<Date>, flows: seq<real>, characteristics: seq<LegacyCharacteristic>,
                           k: nat, r: nat)
    requires k < |characteristics| && characteristics[k].LegacyTiming? && r < |dates|
    requires LegacyOutput(dates, flows, characteristics).Success?
    ensures var out := LegacyOutput(dates, flows, characteristics).value;
      out[r][k] == 1 <==> characteristics[k].start <= Dowy(dates[r]) <= characteristics[k].end
  {
    LegacyOutputColumn(dates, flows, characteristics, k);
  }

  /**
    A magnitude column of a built Metric compares the flow of each date to
    the threshold; a single flow is compared once and stored on every date.
   */
  lemma LegacyOutputMagnitude(dates: seq<Date>, flows: seq<real>, characteristics: seq<LegacyCharacteristic>,
                              k: nat, r: nat)
    requires k < |characteristics| && characteristics[k].LegacyMagnitude? && r < |dates|
    requires LegacyOutput(dates, flows, characteristics).Success?
    ensures |flows| == |dates| || |flows| == 1
    ensures var out := LegacyOutput(dates, flows, characteristics).value;
      var flow := if |flows| == |dates| then flows[r] else flows[0];
      out[r][k] == 1 <==> Compare(characteristics[k].op, flow, characteristics[k].threshold)
  {
    LegacyOutputColumn(dates, flows, characteristics, k);
  }

  /** A column, once written, is not written again. */
  lemma EarlierColumnKept(fs: seq<ColumnEvaluator>, m0: Matrix, k: nat, c: nat)
    requires WellBehaved(fs) && c < k <= |fs|
    requires forall r :: 0 <= r < |m0| ==> |fs| <= |m0[r]|
    requires FillColumns(fs, m0, |fs|).Success?
    ensures FillColumns(fs, m0, k).Success?
    ensures Column(FillColumns(fs, m0, k).value, c) == Column(FillColumns(fs, m0, |fs|).value, c)
  {
    FillColumnWritten(fs, m0, |fs|, k - 1);
    FillColumnWritten(fs, m0, k, c);
    FillColumnWritten(fs, m0, |fs|, c);
  }

  lemma EarlierColumnsKept(fs: seq<ColumnEvaluator>, m0: Matrix, k: nat)
    requires WellBehaved(fs) && k <= |fs|
    requires forall r :: 0 <= r < |m0| ==> |fs| <= |m0[r]|
    requires FillColumns(fs, m0, |fs|).Success?
    ensures FillColumns(fs, m0, k).Success?
    ensures var before := FillColumns(fs, m0, k).value;
      var out := FillColumns(fs, m0, |fs|).value;
      forall r, c :: 0 <= r < |m0| && 0 <= c < k ==> before[r][c] == out[r][c]
  {
    if k > 0 {
      FillColumnWritten(fs, m0, |fs|, k - 1);
    }
    var before := FillColumns(fs, m0, k).value;
    var out := FillColumns(fs, m0, |fs|).value;
    forall r, c | 0 <= r < |m0| && 0 <= c < k ensures before[r][c] == out[r][c] {
      EarlierColumnKept(fs, m0, k, c);
      assert Column(before, c)[r] == Column(out, c)[r];
    }
  }

  /**
    While characteristic k runs, the output agrees with the final output on
    the columns before k, and is 0 from column k on.
   */
  lemma LegacyBeforeColumn(dates: seq<Date>, flows: seq<real>, characteristics: seq<LegacyCharacteristic>, k: nat)
    requires k < |characteristics| && LegacyOutput(dates, flows, characteristics).Success?
    ensures var fs := LegacyEvaluators(DaysOfWaterYear(dates), flows, characteristics);
      var m0 := Zeros(|dates|, |characteristics|);
      && FillColumns(fs, m0, k).Success?
      && var before := FillColumns(fs, m0, k).value;
      && var out := LegacyOutput(dates, flows, characteristics).value;
      && HasShape(before, |dates|, |characteristics|) && IsBinary(before)
      && (forall r, c :: 0 <= r < |dates| && 0 <= c < k ==> before[r][c] == out[r][c])
      && (forall r, c :: 0 <= r < |dates| && k <= c < |characteristics| ==> before[r][c] == 0)
  {
    var fs := LegacyEvaluators(DaysOfWaterYear(dates), flows, characteristics);
    var m0 := Zeros(|dates|, |characteristics|);
    var n := |characteristics|;
    FillColumnWritten(fs, m0, n, k);
    FillColumnsUntouched(fs, m0, k);
    FillColumnsBinary(fs, m0, k);
    EarlierColumnsKept(fs, m0, k);
  }

  /** For every row, whether its first k cells are all 1. */
  function EarlierHold(m: Matrix, k: nat): (holds: seq<bool>)
    requires forall r :: 0 <= r < |m| ==> k <= |m[r]|
    ensures |holds| == |m|
    ensures forall r :: 0 <= r < |m| ==> (holds[r] <==> forall c :: 0 <= c < k ==> m[r][c] == 1)
  {
    seq(|m|, r requires 0 <= r < |m| => forall c :: 0 <= c < k ==> m[r][c] == 1)
  }

  /** Row r counts for characteristic k exactly when the first k columns of the final output are 1 there. */
  lemma LegacyRowCounts(dates: seq<Date>, flows: seq<real>, characteristics: seq<LegacyCharacteristic>, k: nat, r: nat)
    requires k < |characteristics| && r < |dates| && LegacyOutput(dates, flows, characteristics).Success?
    ensures var fs := LegacyEvaluators(DaysOfWaterYear(dates), flows, characteristics);
      && FillColumns(fs, Zeros(|dates|, |characteristics|), k).Success?
      && var before := FillColumns(fs, Zeros(|dates|, |characteristics|), k).value;
      && var out := LegacyOutput(dates, flows, characteristics).value;
      (RowSum(before[r]) == k <==> forall c :: 0 <= c < k ==> out[r][c] == 1)
  {
    LegacyBeforeColumn(dates, flows, characteristics, k);
    var fs := LegacyEvaluators(DaysOfWaterYear(dates), flows, characteristics);
    var row := FillColumns(fs, Zeros(|dates|, |characteristics|), k).value[r];
    assert IsBinaryColumn(row);
    RowCountsIffEarlierHold(row, k);
  }

  /**
    A duration column of a built Metric is the legacy duration over the
    dates on which every earlier characteristic holds: the sum of the whole
    row equals the order only on those rows.
   */
  lemma LegacyOutputDuration(dates: seq<Date>, flows: seq<real>, characteristics: seq<LegacyCharacteristic>, k: nat)
    requires k < |characteristics| && characteristics[k].LegacyDuration?
    requires LegacyOutput(dates, flows, characteristics).Success?
    ensures var out := LegacyOutput(dates, flows, characteristics).value;
      Column(out, k) == LegacyDurationMarks(EarlierHold(out, k), characteristics[k].nPeriods)
  {
    var fs := LegacyEvaluators(DaysOfWaterYear(dates), flows, characteristics);
    var out := LegacyOutput(dates, flows, characteristics).value;
    LegacyOutputColumn(dates, flows, characteristics, k);
    var before := FillColumns(fs, Zeros(|dates|, |characteristics|), k).value;
    forall r | 0 <= r < |dates| ensures CountingRows(before, k)[r] == EarlierHold(out, k)[r] {
      LegacyRowCounts(dates, flows, characteristics, k, r);
    }
    assert CountingRows(before, k) == EarlierHold(out, k);
    var col := LegacyColumn(characteristics[k], DaysOfWaterYear(dates), flows, before, k);
    assert col == LegacyDurationMarks(CountingRows(before, k), characteristics[k].nPeriods);
    assert Broadcast(col, |dates|).value == col;
  }

  /** The object built from a series of dates and flows, with its characteristics. */
  class Metric {
    const dates: seq<Date>
    const flows: seq<real>
    const characteristics: seq<LegacyCharacteristic>
    /** The day of the water year of each date, set once when the object is built. */
    const dsowy: seq<int>
    /** One row per date, one column per characteristic; filled in place. */
    const output: array2<int>

    predicate Valid() {
      output.Length0 == |dsowy| && output.Length1 == |characteristics|
    }

    function Evaluators(): (fs: seq<ColumnEvaluator>)
      ensures |fs| == |characteristics| && WellBehaved(fs)
    {
      LegacyEvaluators(dsowy, flows, characteristics)
    }

    /** The output after characteristics 0 .. j - 1 have run on `m0`, or the first exception. */
    function Fill(m0: Matrix, j: nat): Result<Matrix>
      requires j <= |characteristics|
      requires forall r :: 0 <= r < |m0| ==> |characteristics| <= |m0[r]|
    {
      FillColumns(Evaluators(), m0, j)
    }

    /** The generated initialiser and the first two steps of __post_init__. */
    constructor (dates: seq<Date>, flows: seq<real>, characteristics: seq<LegacyCharacteristic>)
      ensures this.dates == dates && this.flows == flows && this.characteristics == characteristics
      ensures dsowy == DaysOfWaterYear(dates) && Valid()
      ensures fresh(output) && Contents(output) == Zeros(|dates|, |characteristics|)
    {
      this.dates := dates;
      this.flows := flows;
      this.characteristics := characteristics;
      dsowy := DaysOfWaterYear(dates);
      var zeros := NewZeros(|dates|, |characteristics|);
      output := zeros;
    }

    /** Calls characteristic `order` with this object and `order`. */
    method EvaluateCharacteristic(order: nat) returns (r: Result<seq<int>>)
      requires Valid() && order < |characteristics|
      ensures r == Evaluators()[order](Contents(output))
    {
      var col: seq<int>;
      match characteristics[order] {
        case LegacyTiming(start, end) =>
          col := LegacyTimingColumn(start, end, dsowy);
        case LegacyMagnitude(threshold, op) =>
          col := LegacyMagnitudeColumn(threshold, op, flows);
        case LegacyDuration(nPeriods) =>
          col := LegacyDurationScan(output, order, nPeriods);
      }
      r := Broadcast(col, output.Length0);
    }

    /** Evaluates characteristic i and stores its column, as one pass of evaluate's loop. */
    method FillColumn(ghost m0: Matrix, i: nat) returns (failed: Option<Error>)
      requires Valid() && i < |characteristics| && HasShape(m0, output.Length0, output.Length1)
      requires Fill(m0, i) == Success(Contents(output))
      modifies output
      ensures failed.Some? ==> Fill(m0, |characteristics|) == Failure(failed.value)
      ensures failed.None? ==> Fill(m0, i + 1) == Success(Contents(output))
    {
      var col := EvaluateCharacteristic(i);
      FillNext(Evaluators(), m0, i);
      if col.Failure? {
        FillFailurePersists(Evaluators(), m0, i + 1, |characteristics|);
        return Some(col.error);
      }
      WriteColumn(output, i, col.value);
      return None;
    }

    /**
      Metric.evaluate: characteristic i, called with order i, writes column
      i, left to right, each reading the columns as the earlier ones left
      them; an exception stops the loop.
     */
    method Evaluate() returns (failed: Option<Error>)
      requires Valid()
      modifies output
      ensures failed.None? ==>
        Fill(old(Contents(output)), |characteristics|) == Success(Contents(output))
      ensures failed.Some? ==>
        Fill(old(Contents(output)), |characteristics|) == Failure(failed.value)
    {
      ghost var m0 := Contents(output);
      failed := None;
      for i := 0 to |characteristics|
        invariant failed.None? && Fill(m0, i) == Success(Contents(output))
      {
        failed := FillColumn(m0, i);
        if failed.Some? {
          return;
        }
      }
    }
  }

  /**
    Metric(dates, flows, characteristics): builds the object and evaluates
    it; an exception during the evaluation leaves no object.
   */
  method NewMetric(dates: seq<Date>, flows: seq<real>, characteristics: seq<LegacyCharacteristic>)
    returns (r: Result<Metric>)
    ensures r.Failure? ==> LegacyOutput(dates, flows, characteristics) == Failure(r.error)
    ensures r.Success? ==>
      && fresh(r.value) && fresh(r.value.output)
      && r.value.dates == dates && r.value.flows == flows && r.value.characteristics == characteristics
      && r.value.dsowy == DaysOfWaterYear(dates)
      && LegacyOutput(dates, flows, characteristics) == Success(Contents(r.value.output))
  {
    var metric := new Metric(dates, flows, characteristics);
    var failed := metric.Evaluate();
    if failed.Some? {
      return Failure(failed.value);
    }
    return Success(metric);
  }
}
