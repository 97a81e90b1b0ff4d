/** Calling the evaluator of a characteristic as Component.evaluate does. */
module Evaluation {
  import opened Results
  import opened Matrices
  import opened Data
  import opened Characteristics
  import opened TimingColumns
  import opened MagnitudeColumns
  import opened DurationColumns
  import opened RateOfChangeColumns
  import opened FrequencyColumns

  /** The ordinals evaluators default to when Component.evaluate calls them without one. */
  const DurationOrder: nat := 3
  const FrequencyOrder: nat := 2

  /**
    The column a characteristic writes when called as Component.evaluate
    calls it: with the input and the partly filled matrix, and no ordinal.
    On success it is a 0/1 column with one cell per day.
   */
  function ColumnSpec(c: Characteristic, data: Input, m: Matrix): (r: Result<seq<int>>)
    requires data.Valid() && |m| == |data.flows|
    ensures r.Success? ==> |r.value| == |data.flows| && IsBinaryColumn(r.value)
  {
    match c
    case Timing(start, end) => Success(TimingColumn(start, end, data.dsowy))
    case Magnitude(ma, threshold, op) => MagnitudeColumn(ma, threshold, op, data.flows)
    case Duration(n, pattern, op) =>
      Success(DurationMarks(MatchBits(m, DurationOrder - 1, DurationPattern(pattern, DurationOrder)), n, op))
    case RateOfChange(ma, factor, op) => RateOfChangeColumn(ma, factor, op, data.flows)
    case Frequency(times, years, pattern, _) =>
      FrequencyColumn(times, years, pattern, data.dsowy, m, FrequencyOrder)
  }

  /** Frequency validates its comparator symbol but never uses it. */
  lemma FrequencyIgnoresComparator(times: int, years: int, pattern: seq<int>, op1: Comparator, op2: Comparator,
                                   data: Input, m: Matrix)
    requires data.Valid() && |m| == |data.flows|
    ensures ColumnSpec(Frequency(times, years, pattern, op1), data, m) ==
      ColumnSpec(Frequency(times, years, pattern, op2), data, m)
  {
  }

  /** Calls the evaluator of `c` on the input and the matrix being filled. */
  method EvaluateColumn(c: Characteristic, data: Input, outputs: array2<int>) returns (r: Result<seq<int>>)
    requires data.Valid() && outputs.Length0 == |data.flows|
    ensures r == ColumnSpec(c, data, Contents(outputs))
  {
    match c
    case Timing(start, end) =>
      r := Success(TimingColumn(start, end, data.dsowy));
    case Magnitude(ma, threshold, op) =>
      r := MagnitudeColumn(ma, threshold, op, data.flows);
    case Duration(n, pattern, op) =>
      var col := EvaluateDuration(n, pattern, op, outputs, DurationOrder);
      r := Success(col);
    case RateOfChange(ma, factor, op) =>
      r := EvaluateRateOfChange(ma, factor, op, data.flows);
    case Frequency(times, years, pattern, _) =>
      r := EvaluateFrequency(times, years, pattern, data.dsowy, outputs, FrequencyOrder);
  }
}
