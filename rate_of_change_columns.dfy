/** The rate-of-change evaluator: the relative day-to-day change against a factor. */
module RateOfChangeColumns {
  import opened Results
  import opened Matrices
  import opened WaterYear
  import opened Characteristics
  import opened MovingAverages

  /**
    The relative change from `prev` to `cur`. From a zero flow it is 0 when
    the flow stays zero and 1 otherwise; else it is (cur - prev) / prev,
    capped at 100 from above only.
   */
  function Change(prev: real, cur: real): (r: real)
    ensures r <= 100.0
    ensures prev == 0.0 ==> (r == 0.0 <==> cur == 0.0) && (r == 0.0 || r == 1.0)
    ensures prev != 0.0 && (cur - prev) / prev < 100.0 ==> r == (cur - prev) / prev
    ensures prev != 0.0 && (cur - prev) / prev >= 100.0 ==> r == 100.0
  {
    if prev == 0.0 then
      (if cur == 0.0 then 0.0 else 1.0)
    else
      var ratio := (cur - prev) / prev;
      if ratio < 100.0 then ratio else 100.0
  }

  /**
    From a positive flow the change is positive exactly when the flow rises
    and zero exactly when it stays; falls are not capped, and a fall to a
    non-negative flow is at least -1.
   */
  lemma ChangeSign(prev: real, cur: real)
    requires prev > 0.0
    ensures Change(prev, cur) > 0.0 <==> cur > prev
    ensures Change(prev, cur) == 0.0 <==> cur == prev
    ensures cur < prev ==> Change(prev, cur) == (cur - prev) / prev
    ensures cur >= 0.0 ==> Change(prev, cur) >= -1.0
  {
    DivSign(cur - prev, prev);
    if cur >= 0.0 {
      DivAtLeastMinusOne(cur - prev, prev);
    }
  }

  lemma DivSign(x: real, y: real)
    requires y > 0.0
    ensures x / y > 0.0 <==> x > 0.0
    ensures x / y == 0.0 <==> x == 0.0
  {
  }

  lemma DivAtLeastMinusOne(x: real, y: real)
    requires y > 0.0 && x >= -y
    ensures x / y >= -1.0
  {
  }

  /** Day 0 has no predecessor and is 0; day i compares the change from day i - 1. */
  function DayBit(flows: seq<real>, factor: real, op: Comparator, i: nat): int
    requires i < |flows|
  {
    if i == 0 then 0 else Bit(Compare(op, Change(flows[i - 1], flows[i]), factor))
  }

  function RateOfChangeBits(flows: seq<real>, factor: real, op: Comparator): (col: seq<int>)
    ensures |col| == |flows| && IsBinaryColumn(col)
    ensures |flows| > 0 ==> col[0] == 0
    ensures forall i :: 0 <= i < |flows| ==> col[i] == DayBit(flows, factor, op, i)
  {
    seq(|flows|, i requires 0 <= i < |flows| => DayBit(flows, factor, op, i))
  }

  function RateOfChangeColumn(maPeriods: int, factor: real, op: Comparator, flows: seq<real>): (r: Result<seq<int>>)
    ensures r.Failure? <==> maPeriods < 1
    ensures r.Success? ==> |r.value| == |flows| && IsBinaryColumn(r.value)
    ensures r.Success? ==> r.value == RateOfChangeBits(Smoothed(flows, maPeriods).value, factor, op)
  {
    var f :- Smoothed(flows, maPeriods);
    Success(RateOfChangeBits(f, factor, op))
  }

  /** The loop over days 1 .. n - 1 writing one cell per day. */
  method MarkChanges(f: seq<real>, factor: real, op: Comparator) returns (col: seq<int>)
    ensures col == RateOfChangeBits(f, factor, op)
  {
    var out := new int[|f|](_ => 0);
    ghost var bits := RateOfChangeBits(f, factor, op);
    if |f| > 0 {
      for i := 1 to |f|
        invariant out[..i] == bits[..i]
        invariant forall k :: i <= k < |f| ==> out[k] == 0
      {
        var change := Change(f[i - 1], f[i]);
        out[i] := if Compare(op, change, factor) then 1 else 0;
        assert out[i] == bits[i];
        assert out[..i + 1] == out[..i] + [out[i]];
      }
    }
    assert out[..] == out[..|f|];
    col := out[..];
  }

  /** Smooths the flows, then marks the day-to-day changes. */
  method EvaluateRateOfChange(maPeriods: int, factor: real, op: Comparator, flows: seq<real>)
    returns (r: Result<seq<int>>)
    ensures r == RateOfChangeColumn(maPeriods, factor, op, flows)
  {
    var f :- Smoothed(flows, maPeriods);
    var col := MarkChanges(f, factor, op);
    return Success(col);
  }

  /** The worked example: flows 0, 0, 5 against "> 0" give 0, 0, 1. */
  lemma RateOfChangeExample()
    ensures RateOfChangeColumn(1, 0.0, Gt, [0.0, 0.0, 5.0]) == Success([0, 0, 1])
  {
    var col := RateOfChangeColumn(1, 0.0, Gt, [0.0, 0.0, 5.0]).value;
    assert Change(0.0, 0.0) == 0.0 && Change(0.0, 5.0) == 1.0;
    assert col[0] == 0 && col[1] == 0 && col[2] == 1;
    assert col == [0, 0, 1];
  }

  lemma MulDivCancel(c: real, x: real, y: real)
    requires c != 0.0 && y != 0.0
    ensures (c * x) / (c * y) == x / y
  {
  }

  lemma MulNonZero(c: real, x: real)
    requires c > 0.0
    ensures c * x == 0.0 <==> x == 0.0
  {
  }

  /** The change is the same whatever the unit the two flows are given in. */
  lemma ChangeScaleInvariant(prev: real, cur: real, c: real, scaledPrev: real, scaledCur: real)
    requires c > 0.0 && scaledPrev == c * prev && scaledCur == c * cur
    ensures Change(scaledPrev, scaledCur) == Change(prev, cur)
  {
    if prev != 0.0 {
      MulNonZero(c, prev);
      assert scaledCur - scaledPrev == c * (cur - prev);
      MulDivCancel(c, cur - prev, prev);
      assert (scaledCur - scaledPrev) / scaledPrev == (cur - prev) / prev;
    } else {
      MulNonZero(c, cur);
    }
  }

  lemma DayScale(f: seq<real>, factor: real, op: Comparator, c: real, i: nat)
    requires c > 0.0 && 1 <= i < |f|
    ensures DayBit(Scale(f, c), factor, op, i) == DayBit(f, factor, op, i)
  {
    var g := Scale(f, c);
    ChangeScaleInvariant(f[i - 1], f[i], c, g[i - 1], g[i]);
  }

  lemma RateOfChangeBitsScale(f: seq<real>, factor: real, op: Comparator, c: real)
    requires c > 0.0
    ensures RateOfChangeBits(Scale(f, c), factor, op) == RateOfChangeBits(f, factor, op)
  {
    var a := RateOfChangeBits(Scale(f, c), factor, op);
    var b := RateOfChangeBits(f, factor, op);
    forall i | 1 <= i < |f| ensures a[i] == b[i] {
      DayScale(f, factor, op, c, i);
    }
  }

  /**
    The rate-of-change column does not depend on the unit of the flows: any
    positive rescaling gives the same column, with or without a moving
    average.
   */
  lemma RateOfChangeUnitFree(maPeriods: int, factor: real, op: Comparator, flows: seq<real>, c: real)
    requires c > 0.0
    ensures RateOfChangeColumn(maPeriods, factor, op, Scale(flows, c)) ==
      RateOfChangeColumn(maPeriods, factor, op, flows)
  {
    if maPeriods >= 1 {
      SmoothedScale(flows, maPeriods, c);
      RateOfChangeBitsScale(Smoothed(flows, maPeriods).value, factor, op, c);
    }
  }

  /**
    In particular, flows converted from litres per day to cubic metres per
    second give the same rate-of-change column as the unconverted flows.
   */
  lemma RateOfChangeAfterUnitConversion(maPeriods: int, factor: real, op: Comparator, flows: seq<real>)
    ensures RateOfChangeColumn(maPeriods, factor, op,
      seq(|flows|, i requires 0 <= i < |flows| => LitersPerDayToCubicMetersPerSecond(flows[i]))) ==
      RateOfChangeColumn(maPeriods, factor, op, flows)
  {
    var converted := seq(|flows|, i requires 0 <= i < |flows| => LitersPerDayToCubicMetersPerSecond(flows[i]));
    assert converted == Scale(flows, 1.0 / 86400000.0);
    RateOfChangeUnitFree(maPeriods, factor, op, flows, 1.0 / 86400000.0);
  }
}
