/** The frequency evaluator: yearly counts of matching rows, summed over a rolling window of years. */
module FrequencyColumns {
  import opened Results
  import opened Matrices

  /** Per-year tallies: the counts appended so far and the count still open. */
  datatype Tally = Tally(years: seq<int>, open: nat)

  /** Day i closes a year: it starts a new water year or it is the last day. */
  predicate IsYearBoundary(dsowy: seq<int>, i: nat)
    requires i < |dsowy|
  {
    dsowy[i] == 1 || i == |dsowy| - 1
  }

  /** Number of days among the first i whose day of water year is 1. */
  function YearStarts(dsowy: seq<int>, i: nat): nat
    requires i <= |dsowy|
  {
    if i == 0 then 0 else YearStarts(dsowy, i - 1) + Bit(dsowy[i - 1] == 1)
  }

  /**
    Number of matching days among the first n in water year k, where day i
    belongs to the year numbered by how many days up to and including it
    start a water year.
   */
  function MatchesInYear(dsowy: seq<int>, ms: seq<bool>, k: int, n: nat): nat
    requires |ms| == |dsowy| && n <= |dsowy|
  {
    if n == 0 then 0
    else MatchesInYear(dsowy, ms, k, n - 1) + Bit(ms[n - 1] && YearStarts(dsowy, n) == k)
  }

  /** A year that has not started among the first n days has no matches there. */
  lemma {:induction false} ZeroBeforeStart(dsowy: seq<int>, ms: seq<bool>, k: int, n: nat)
    requires |ms| == |dsowy| && n <= |dsowy| && YearStarts(dsowy, n) < k
    ensures MatchesInYear(dsowy, ms, k, n) == 0
  {
    if n > 0 {
      ZeroBeforeStart(dsowy, ms, k, n - 1);
    }
  }

  /**
    The tallies after days 0 .. i - 1: on a boundary day the open count is
    appended and reset first, and only then is that day's match counted.
    Before the last day, one count has been appended per year started, the
    count k holds the matches of year k, and the open count those of the
    current year.
   */
  function TallyAfter(dsowy: seq<int>, ms: seq<bool>, i: nat): (t: Tally)
    requires |ms| == |dsowy| && i <= |dsowy|
    ensures t.open <= i
    ensures forall k :: 0 <= k < |t.years| ==> 0 <= t.years[k] < i
    ensures i < |dsowy| ==> |t.years| == YearStarts(dsowy, i)
    ensures i < |dsowy| ==> forall k :: 0 <= k < |t.years| ==> t.years[k] == MatchesInYear(dsowy, ms, k, i)
    ensures i < |dsowy| ==> t.open == MatchesInYear(dsowy, ms, YearStarts(dsowy, i), i)
  {
    if i == 0 then Tally([], 0)
    else
      var t := TallyAfter(dsowy, ms, i - 1);
      var t' := if IsYearBoundary(dsowy, i - 1) then Tally(t.years + [t.open], 0) else t;
      assert i < |dsowy| && dsowy[i - 1] == 1 ==> MatchesInYear(dsowy, ms, YearStarts(dsowy, i), i - 1) == 0 by {
        if i < |dsowy| && dsowy[i - 1] == 1 {
          ZeroBeforeStart(dsowy, ms, YearStarts(dsowy, i), i - 1);
        }
      }
      if ms[i - 1] then t'.(open := t'.open + 1) else t'
  }

  /**
    The count of matching rows of each water year, in order: one count per
    year started before the last day, and count k holds the matches of year
    k among every day but the last.
   */
  function YearCounts(dsowy: seq<int>, ms: seq<bool>): (counts: seq<int>)
    requires |ms| == |dsowy|
    ensures |dsowy| == 0 ==> counts == []
    ensures |dsowy| > 0 ==> |counts| == YearStarts(dsowy, |dsowy| - 1) + 1
    ensures |dsowy| > 0 ==> forall k :: 0 <= k < |counts| ==> counts[k] == MatchesInYear(dsowy, ms, k, |dsowy| - 1)
    ensures forall k :: 0 <= k < |counts| ==> 0 <= counts[k] < |dsowy|
  {
    TallyAfter(dsowy, ms, |dsowy|).years
  }

  function SumInts(s: seq<int>): int {
    if s == [] then 0 else SumInts(s[..|s| - 1]) + s[|s| - 1]
  }

  /** Number of matching rows among the first i. */
  function CountTrue(ms: seq<bool>, i: nat): nat
    requires i <= |ms|
  {
    if i == 0 then 0 else CountTrue(ms, i - 1) + Bit(ms[i - 1])
  }

  /** Number of year boundaries among the first i days. */
  function CountBoundaries(dsowy: seq<int>, i: nat): nat
    requires i <= |dsowy|
  {
    if i == 0 then 0 else CountBoundaries(dsowy, i - 1) + Bit(IsYearBoundary(dsowy, i - 1))
  }

  /**
    Nothing is lost or invented while tallying: the appended counts plus the
    open count add up to the matches seen, and one count is appended per
    year boundary.
   */
  lemma {:induction false} TallyConserves(dsowy: seq<int>, ms: seq<bool>, i: nat)
    requires |ms| == |dsowy| && i <= |dsowy|
    ensures SumInts(TallyAfter(dsowy, ms, i).years) + TallyAfter(dsowy, ms, i).open == CountTrue(ms, i)
    ensures |TallyAfter(dsowy, ms, i).years| == CountBoundaries(dsowy, i)
  {
    if i > 0 {
      TallyConserves(dsowy, ms, i - 1);
      var t := TallyAfter(dsowy, ms, i - 1);
      assert (t.years + [t.open])[..|t.years|] == t.years;
    }
  }

  /** Before the last day, the year boundaries are exactly the days that start a water year. */
  lemma {:induction false} BoundariesBeforeLastDay(dsowy: seq<int>, i: nat)
    requires i < |dsowy|
    ensures CountBoundaries(dsowy, i) == YearStarts(dsowy, i)
  {
    if i > 0 {
      BoundariesBeforeLastDay(dsowy, i - 1);
    }
  }

  /**
    The per-year counts of a non-empty series: the match on the last day is
    never counted, because the last count is appended before it, and there
    is one count per water-year start plus one for the last day unless that
    day itself starts a water year.
   */
  lemma YearCountsTotals(dsowy: seq<int>, ms: seq<bool>)
    requires |ms| == |dsowy| > 0
    ensures SumInts(YearCounts(dsowy, ms)) == CountTrue(ms, |ms| - 1)
    ensures |YearCounts(dsowy, ms)| ==
      YearStarts(dsowy, |dsowy|) + (if dsowy[|dsowy| - 1] == 1 then 0 else 1)
  {
    var last := |dsowy| - 1;
    TallyConserves(dsowy, ms, last);
    TallyConserves(dsowy, ms, |dsowy|);
    BoundariesBeforeLastDay(dsowy, last);
  }

  /** Splitting a sequence anywhere splits its sum. */
  lemma {:induction false} SumIntsSplit(s: seq<int>, k: nat)
    requires k <= |s|
    ensures SumInts(s) == SumInts(s[..k]) + SumInts(s[k..])
    decreases |s|
  {
    if k < |s| {
      var init := s[..|s| - 1];
      SumIntsSplit(init, k);
      assert init[..k] == s[..k];
      assert s[k..][..|s[k..]| - 1] == init[k..];
    } else {
      assert s[..k] == s;
      assert s[k..] == [];
    }
  }

  lemma {:induction false} SumIntsNonnegative(s: seq<int>)
    requires forall k :: 0 <= k < |s| ==> s[k] >= 0
    ensures SumInts(s) >= 0
    decreases |s|
  {
    if s != [] {
      SumIntsNonnegative(s[..|s| - 1]);
    }
  }

  /**
    The pandas rolling sum over the last min(w, j + 1) yearly counts. With
    counts that are never negative it lies between year j's own count and
    the sum of every year up to j.
   */
  function RollingSum(counts: seq<int>, w: int, j: nat): (r: int)
    requires w >= 1 && j < |counts|
    ensures (forall k :: 0 <= k < |counts| ==> counts[k] >= 0) ==>
      counts[j] <= r <= SumInts(counts[..j + 1])
  {
    var lo := if j + 1 < w then 0 else j + 1 - w;
    var window := counts[lo..j + 1];
    if forall k :: 0 <= k < |counts| ==> counts[k] >= 0 then
      SuffixSumBounds(counts[..j + 1], lo);
      assert counts[..j + 1][lo..] == window;
      SumInts(window)
    else
      SumInts(window)
  }

  /**
    A suffix of a sequence of non-negative numbers sums to at least its last
    element and at most the whole sequence.
   */
  lemma SuffixSumBounds(s: seq<int>, lo: nat)
    requires lo < |s| && forall k :: 0 <= k < |s| ==> s[k] >= 0
    ensures s[|s| - 1] <= SumInts(s[lo..]) <= SumInts(s)
  {
    SumIntsSplit(s, lo);
    SumIntsNonnegative(s[..lo]);
    var suffix := s[lo..];
    assert suffix[..|suffix| - 1] == s[lo..|s| - 1];
    SumIntsNonnegative(s[lo..|s| - 1]);
  }

  /** A year passes when the rolling sum of counts reaches `nTimes`. */
  function YearFlags(counts: seq<int>, nYears: int, nTimes: int): (flags: seq<int>)
    requires nYears >= 1
    ensures |flags| == |counts| && IsBinaryColumn(flags)
    ensures forall j :: 0 <= j < |counts| ==> (flags[j] == 1 <==> RollingSum(counts, nYears, j) >= nTimes)
  {
    seq(|counts|, j requires 0 <= j < |counts| => if RollingSum(counts, nYears, j) < nTimes then 0 else 1)
  }

  lemma SumIntsSingleton(x: int)
    ensures SumInts([x]) == x
  {
    assert [x][..0] == [];
  }

  /** With a one-year window, a year passes on its own count. */
  lemma YearFlagsOneYear(counts: seq<int>, nTimes: int)
    ensures forall j :: 0 <= j < |counts| ==> (YearFlags(counts, 1, nTimes)[j] == 1 <==> counts[j] >= nTimes)
  {
    forall j | 0 <= j < |counts| ensures RollingSum(counts, 1, j) == counts[j] {
      assert counts[j..j + 1] == [counts[j]];
      SumIntsSingleton(counts[j]);
    }
  }

  /**
    The rolling sum over a window of years at least as wide as the years seen
    so far is the sum of every year up to j.
   */
  lemma RollingSumWholeHistory(counts: seq<int>, w: int, j: nat)
    requires w >= 1 && j < |counts| && j < w
    ensures RollingSum(counts, w, j) == SumInts(counts[..j + 1])
  {
    assert counts[0..j + 1] == counts[..j + 1];
  }

  /**
    Counts are never negative, so widening the window never takes a year's
    flag away: a year that passes over `n1` years passes over `n2 >= n1`.
   */
  lemma YearFlagsWiden(counts: seq<int>, n1: int, n2: int, nTimes: int)
    requires 1 <= n1 <= n2
    requires forall k :: 0 <= k < |counts| ==> counts[k] >= 0
    ensures forall j :: 0 <= j < |counts| && YearFlags(counts, n1, nTimes)[j] == 1 ==>
      YearFlags(counts, n2, nTimes)[j] == 1
  {
    forall j | 0 <= j < |counts| ensures RollingSum(counts, n1, j) <= RollingSum(counts, n2, j) {
      var s := counts[..j + 1];
      var lo1 := if j + 1 < n1 then 0 else j + 1 - n1;
      var lo2 := if j + 1 < n2 then 0 else j + 1 - n2;
      SumIntsSplit(s[lo2..], lo1 - lo2);
      assert s[lo2..][lo1 - lo2..] == counts[lo1..j + 1];
      assert s[lo2..] == counts[lo2..j + 1];
      SumIntsNonnegative(s[lo2..][..lo1 - lo2]);
    }
  }

  lemma {:induction false} YearStartsMonotone(dsowy: seq<int>, i: nat, j: nat)
    requires i <= j <= |dsowy|
    ensures YearStarts(dsowy, i) <= YearStarts(dsowy, j)
    decreases j - i
  {
    if i < j {
      YearStartsMonotone(dsowy, i, j - 1);
    }
  }

  /**
    Each day takes the flag of the year numbered by how many days up to and
    including it start a water year. A day whose year number has no flag is
    an index error.
   */
  function DayFlags(dsowy: seq<int>, flags: seq<int>): (r: Result<seq<int>>)
    ensures r.Failure? <==> |dsowy| > 0 && YearStarts(dsowy, |dsowy|) >= |flags|
    ensures r.Success? ==> |r.value| == |dsowy|
    ensures r.Success? ==> forall i :: 1 <= i <= |dsowy| ==>
      YearStarts(dsowy, i) < |flags| && r.value[i - 1] == flags[YearStarts(dsowy, i)]
  {
    var days := |dsowy|;
    if days > 0 && YearStarts(dsowy, days) >= |flags| then
      Failure(IndexOutOfRange(|flags|, |flags|))
    else
      assert forall i :: 1 <= i <= days ==> YearStarts(dsowy, i) < |flags| by {
        forall i | 1 <= i <= days ensures YearStarts(dsowy, i) <= YearStarts(dsowy, days) {
          YearStartsMonotone(dsowy, i, days);
        }
      }
      Success(seq(days, i requires 0 <= i < days => flags[YearStarts(dsowy, i + 1)]))
  }

  /**
    The frequency column: yearly counts of matching rows, their rolling sum
    over `nYears`, and each day given the flag of its year. A window below
    one year is refused by the rolling sum.
   */
  function FrequencyColumn(nTimes: int, nYears: int, pattern: seq<int>, dsowy: seq<int>,
                           m: Matrix, order: nat): (r: Result<seq<int>>)
    requires order >= 1 && |m| == |dsowy|
    ensures r.Success? ==> |r.value| == |dsowy| && IsBinaryColumn(r.value)
    ensures nYears < 1 ==> r == Failure(InvalidWindow(nYears))
    ensures nYears >= 1 ==>
      r == DayFlags(dsowy, YearFlags(YearCounts(dsowy, MatchBits(m, order - 1, pattern)), nYears, nTimes))
  {
    if nYears < 1 then Failure(InvalidWindow(nYears))
    else
      var flags := YearFlags(YearCounts(dsowy, MatchBits(m, order - 1, pattern)), nYears, nTimes);
      DayFlags(dsowy, flags)
  }

  /**
    With a valid window, frequency fails exactly when the last day of the
    series starts a water year: that day's year number equals the number of
    yearly counts.
   */
  lemma FrequencyFailsIff(nTimes: int, nYears: int, pattern: seq<int>, dsowy: seq<int>, m: Matrix, order: nat)
    requires order >= 1 && |m| == |dsowy| && nYears >= 1
    ensures FrequencyColumn(nTimes, nYears, pattern, dsowy, m, order).Failure? <==>
      |dsowy| > 0 && dsowy[|dsowy| - 1] == 1
  {
    if |dsowy| > 0 {
      YearCountsTotals(dsowy, MatchBits(m, order - 1, pattern));
    }
  }

  /**
    Widening the window of years never changes whether frequency succeeds,
    and never takes a day's flag away.
   */
  lemma FrequencyWidens(nTimes: int, n1: int, n2: int, pattern: seq<int>, dsowy: seq<int>,
                        m: Matrix, order: nat)
    requires order >= 1 && |m| == |dsowy| && 1 <= n1 <= n2
    ensures FrequencyColumn(nTimes, n1, pattern, dsowy, m, order).Success? <==>
      FrequencyColumn(nTimes, n2, pattern, dsowy, m, order).Success?
    ensures FrequencyColumn(nTimes, n1, pattern, dsowy, m, order).Success? ==>
      forall i :: 0 <= i < |dsowy| && FrequencyColumn(nTimes, n1, pattern, dsowy, m, order).value[i] == 1 ==>
        FrequencyColumn(nTimes, n2, pattern, dsowy, m, order).value[i] == 1
  {
    var counts := YearCounts(dsowy, MatchBits(m, order - 1, pattern));
    var f1 := YearFlags(counts, n1, nTimes);
    var f2 := YearFlags(counts, n2, nTimes);
    YearFlagsWiden(counts, n1, n2, nTimes);
    if DayFlags(dsowy, f1).Success? {
      forall i | 0 <= i < |dsowy| && DayFlags(dsowy, f1).value[i] == 1
        ensures DayFlags(dsowy, f2).value[i] == 1
      {
        assert DayFlags(dsowy, f1).value[(i + 1) - 1] == f1[YearStarts(dsowy, i + 1)];
      }
    }
  }

  /**
    Days i < j with no water-year start in (i, j] get the same flag: the
    flag is constant over each water year.
   */
  lemma DayFlagsConstantWithinYear(dsowy: seq<int>, flags: seq<int>, i: nat, j: nat)
    requires i <= j < |dsowy|
    requires forall k :: i < k <= j ==> dsowy[k] != 1
    requires DayFlags(dsowy, flags).Success?
    ensures DayFlags(dsowy, flags).value[i] == DayFlags(dsowy, flags).value[j]
  {
    var col := DayFlags(dsowy, flags).value;
    NoStartsBetween(dsowy, i + 1, j + 1);
    assert col[(i + 1) - 1] == flags[YearStarts(dsowy, i + 1)];
    assert col[(j + 1) - 1] == flags[YearStarts(dsowy, j + 1)];
  }

  lemma FrequencyConstantWithinYear(nTimes: int, nYears: int, pattern: seq<int>, dsowy: seq<int>,
                                    m: Matrix, order: nat, i: nat, j: nat)
    requires order >= 1 && |m| == |dsowy|
    requires i <= j < |dsowy|
    requires forall k :: i < k <= j ==> dsowy[k] != 1
    requires FrequencyColumn(nTimes, nYears, pattern, dsowy, m, order).Success?
    ensures FrequencyColumn(nTimes, nYears, pattern, dsowy, m, order).value[i] ==
      FrequencyColumn(nTimes, nYears, pattern, dsowy, m, order).value[j]
  {
    var flags := YearFlags(YearCounts(dsowy, MatchBits(m, order - 1, pattern)), nYears, nTimes);
    assert FrequencyColumn(nTimes, nYears, pattern, dsowy, m, order) == DayFlags(dsowy, flags);
    DayFlagsConstantWithinYear(dsowy, flags, i, j);
  }

  lemma {:induction false} NoStartsBetween(dsowy: seq<int>, i: nat, j: nat)
    requires i <= j <= |dsowy|
    requires forall k :: i <= k < j ==> dsowy[k] != 1
    ensures YearStarts(dsowy, i) == YearStarts(dsowy, j)
    decreases j - i
  {
    if i < j {
      NoStartsBetween(dsowy, i, j - 1);
    }
  }

  /** The first pass: tally the matching rows of each water year. */
  method TallyYears(dsowy: seq<int>, ms: seq<bool>) returns (years: seq<int>)
    requires |ms| == |dsowy|
    ensures years == YearCounts(dsowy, ms)
  {
    var days := |dsowy|;
    var n: nat := 0;
    years := [];
    for i := 0 to days
      invariant TallyAfter(dsowy, ms, i) == Tally(years, n)
    {
      if dsowy[i] == 1 || i == days - 1 {
        years := years + [n];
        n := 0;
      }
      if ms[i] {
        n := n + 1;
      }
    }
  }

  /** The last pass: give each day the flag of its year, counting year starts as it goes. */
  method SpreadFlags(dsowy: seq<int>, flags: seq<int>) returns (r: Result<seq<int>>)
    requires |dsowy| > 0 ==> |flags| > 0
    ensures r == DayFlags(dsowy, flags)
  {
    var days := |dsowy|;
    var out := new int[days](_ => 0);
    var t := 0;
    for i := 0 to days
      invariant t == YearStarts(dsowy, i) && (days > 0 ==> t < |flags|)
      invariant forall k :: 1 <= k <= i ==> YearStarts(dsowy, k) < |flags| && out[k - 1] == flags[YearStarts(dsowy, k)]
    {
      if dsowy[i] == 1 {
        t := t + 1;
      }
      assert t == YearStarts(dsowy, i + 1);
      if t >= |flags| {
        YearStartsMonotone(dsowy, i + 1, days);
        return Failure(IndexOutOfRange(t, |flags|));
      }
      out[i] := flags[t];
      assert out[i] == flags[YearStarts(dsowy, i + 1)];
    }
    ghost var spread := DayFlags(dsowy, flags);
    assert days > 0 ==> YearStarts(dsowy, days) < |flags|;
    forall k | 1 <= k <= days ensures out[k - 1] == flags[YearStarts(dsowy, k)] == spread.value[k - 1] {
    }
    assert out[..] == spread.value;
    return Success(out[..]);
  }

  /**
    The three passes: tally the matches per year, flag each year by its
    rolling sum, and give each day the flag of its year. The rows are
    compared with the pattern before the passes; the evaluator writes
    nothing into the matrix it reads.
   */
  method EvaluateFrequency(nTimes: int, nYears: int, pattern: seq<int>, dsowy: seq<int>,
                           outputs: array2<int>, order: nat) returns (r: Result<seq<int>>)
    requires order >= 1 && outputs.Length0 == |dsowy|
    ensures r == FrequencyColumn(nTimes, nYears, pattern, dsowy, Contents(outputs), order)
  {
    var matches := MatchBits(Contents(outputs), order - 1, pattern);
    var years := TallyYears(dsowy, matches);
    if nYears < 1 {
      return Failure(InvalidWindow(nYears));
    }
    var flags := YearFlags(years, nYears, nTimes);
    if |dsowy| > 0 {
      YearCountsTotals(dsowy, matches);
    }
    r := SpreadFlags(dsowy, flags);
  }
}
