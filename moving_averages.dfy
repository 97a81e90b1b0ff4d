/** Trailing moving averages, as pandas rolling(w, min_periods=1).mean(). */
module MovingAverages {
  import opened Results

  function Sum(s: seq<real>): real {
    if s == [] then 0.0 else Sum(s[..|s| - 1]) + s[|s| - 1]
  }

  /** The last min(w, i + 1) flows up to day i. */
  function Window(flows: seq<real>, w: int, i: nat): (win: seq<real>)
    requires w >= 1 && i < |flows|
    ensures |win| == if w < i + 1 then w else i + 1
    ensures win == flows[i + 1 - |win|..i + 1]
  {
    flows[(if i + 1 < w then 0 else i + 1 - w)..i + 1]
  }

  /** The arithmetic mean of a non-empty series. */
  function Mean(s: seq<real>): real
    requires |s| > 0
  {
    Sum(s) / (|s| as real)
  }

  function TrailingMean(flows: seq<real>, w: int, i: nat): real
    requires w >= 1 && i < |flows|
  {
    Mean(Window(flows, w, i))
  }

  /**
    The series an evaluator compares: the raw flows when the window is 1,
    otherwise the trailing mean over the window, with fewer days at the
    start of the series. A window below 1 is refused by the rolling mean.
    The raw branch agrees with the mean over a window of one day.
   */
  function Smoothed(flows: seq<real>, w: int): (r: Result<seq<real>>)
    ensures r.Failure? <==> w < 1
    ensures r.Success? ==> |r.value| == |flows|
    ensures r.Success? ==> forall i :: 0 <= i < |flows| ==> r.value[i] == TrailingMean(flows, w, i)
  {
    if w == 1 then
      OneDayMean(flows);
      Success(flows)
    else if w < 1 then Failure(InvalidWindow(w))
    else Success(seq(|flows|, i requires 0 <= i < |flows| => TrailingMean(flows, w, i)))
  }

  lemma SumSingleton(x: real)
    ensures Sum([x]) == x
  {
    assert [x][..0] == [];
  }

  /** The mean over a window of one day is that day's flow. */
  lemma OneDayMean(flows: seq<real>)
    ensures forall i :: 0 <= i < |flows| ==> TrailingMean(flows, 1, i) == flows[i]
  {
    forall i | 0 <= i < |flows| ensures TrailingMean(flows, 1, i) == flows[i] {
      assert Window(flows, 1, i) == [flows[i]];
      SumSingleton(flows[i]);
    }
  }

  lemma DivBounds(s: real, n: real, lo: real, hi: real)
    requires n > 0.0 && n * lo <= s <= n * hi
    ensures lo <= s / n <= hi
  {
  }

  lemma {:induction false} SumBounds(s: seq<real>, lo: real, hi: real)
    requires forall k :: 0 <= k < |s| ==> lo <= s[k] <= hi
    ensures |s| as real * lo <= Sum(s) <= |s| as real * hi
  {
    if s != [] {
      SumBounds(s[..|s| - 1], lo, hi);
    }
  }

  /** A mean lies between the least and the greatest value it averages. */
  lemma MeanBounds(s: seq<real>, lo: real, hi: real)
    requires |s| > 0
    requires forall k :: 0 <= k < |s| ==> lo <= s[k] <= hi
    ensures lo <= Mean(s) <= hi
  {
    SumBounds(s, lo, hi);
    DivBounds(Sum(s), |s| as real, lo, hi);
  }

  /** A trailing mean lies between the least and the greatest flow of its window. */
  lemma TrailingMeanBounds(flows: seq<real>, w: int, i: nat, lo: real, hi: real)
    requires w >= 1 && i < |flows|
    requires forall k :: 0 <= k <= i && i - k < w ==> lo <= flows[k] <= hi
    ensures lo <= TrailingMean(flows, w, i) <= hi
  {
    var win := Window(flows, w, i);
    forall k | 0 <= k < |win| ensures lo <= win[k] <= hi {
      assert win[k] == flows[i + 1 - |win| + k];
    }
    MeanBounds(win, lo, hi);
  }

  function Scale(s: seq<real>, c: real): (r: seq<real>)
    ensures |r| == |s|
    ensures forall i :: 0 <= i < |s| ==> r[i] == c * s[i]
  {
    seq(|s|, i requires 0 <= i < |s| => c * s[i])
  }

  lemma MulDivAssoc(c: real, x: real, n: real)
    requires n != 0.0
    ensures (c * x) / n == c * (x / n)
  {
  }

  lemma {:induction false} SumScale(s: seq<real>, c: real)
    ensures Sum(Scale(s, c)) == c * Sum(s)
  {
    if s != [] {
      var init := s[..|s| - 1];
      var sc := Scale(s, c);
      SumScale(init, c);
      forall k | 0 <= k < |init| ensures sc[..|s| - 1][k] == Scale(init, c)[k] {
        assert sc[k] == c * s[k] && init[k] == s[k];
      }
      assert sc[..|s| - 1] == Scale(init, c);
    }
  }

  /** `f` applied to every element. */
  function Map(s: seq<real>, f: real -> real): (r: seq<real>)
    ensures |r| == |s|
    ensures forall i :: 0 <= i < |s| ==> r[i] == f(s[i])
  {
    seq(|s|, i requires 0 <= i < |s| => f(s[i]))
  }

  lemma ScaleIsMap(s: seq<real>, c: real)
    ensures Scale(s, c) == Map(s, x => c * x)
  {
  }

  lemma WindowMap(flows: seq<real>, w: int, i: nat, f: real -> real)
    requires w >= 1 && i < |flows|
    ensures Window(Map(flows, f), w, i) == Map(Window(flows, w, i), f)
  {
    var win := Window(flows, w, i);
    var lhs := Window(Map(flows, f), w, i);
    var lo := i + 1 - |win|;
    forall k | 0 <= k < |lhs| ensures lhs[k] == f(win[k]) {
      assert lhs[k] == Map(flows, f)[lo + k];
      assert win[k] == flows[lo + k];
    }
  }

  lemma WindowScale(flows: seq<real>, w: int, i: nat, c: real)
    requires w >= 1 && i < |flows|
    ensures Window(Scale(flows, c), w, i) == Scale(Window(flows, w, i), c)
  {
    var times := x => c * x;
    ScaleIsMap(flows, c);
    ScaleIsMap(Window(flows, w, i), c);
    WindowMap(flows, w, i, times);
  }

  lemma MeanScale(s: seq<real>, c: real)
    requires |s| > 0
    ensures Mean(Scale(s, c)) == c * Mean(s)
  {
    SumScale(s, c);
    MulDivAssoc(c, Sum(s), |s| as real);
  }

  lemma TrailingMeanScale(flows: seq<real>, w: int, i: nat, c: real)
    requires w >= 1 && i < |flows|
    ensures TrailingMean(Scale(flows, c), w, i) == c * TrailingMean(flows, w, i)
  {
    WindowScale(flows, w, i, c);
    MeanScale(Window(flows, w, i), c);
  }

  lemma SmoothedScaleAt(flows: seq<real>, w: int, c: real, i: nat)
    requires w >= 1 && i < |flows|
    ensures Smoothed(Scale(flows, c), w).value[i] == c * Smoothed(flows, w).value[i]
  {
    var scaled := Scale(flows, c);
    var x := TrailingMean(scaled, w, i);
    var y := TrailingMean(flows, w, i);
    assert Smoothed(scaled, w).value[i] == x;
    assert Smoothed(flows, w).value[i] == y;
    TrailingMeanScale(flows, w, i, c);
  }

  /** Scaling the flows scales the smoothed series by the same factor. */
  lemma SmoothedScale(flows: seq<real>, w: int, c: real)
    requires w >= 1
    ensures Smoothed(Scale(flows, c), w).value == Scale(Smoothed(flows, w).value, c)
  {
    var a := Smoothed(Scale(flows, c), w).value;
    var b := Scale(Smoothed(flows, w).value, c);
    forall i | 0 <= i < |flows| ensures a[i] == b[i] {
      SmoothedScaleAt(flows, w, c, i);
    }
  }
}
