/** The timing evaluator: a window on the day of the water year. */
module TimingColumns {
  import opened Matrices

  /** 1 on the days whose day of water year lies in the half-open window [start, end). */
  function TimingColumn(start: int, end: int, dsowy: seq<int>): (col: seq<int>)
    ensures |col| == |dsowy| && IsBinaryColumn(col)
    ensures forall i :: 0 <= i < |dsowy| ==> (col[i] == 1 <==> start <= dsowy[i] < end)
  {
    seq(|dsowy|, i requires 0 <= i < |dsowy| => Bit(start <= dsowy[i] < end))
  }

  /** The default window (0, 367) marks every day of a valid water year. */
  lemma TimingDefaultWindow(dsowy: seq<int>)
    requires forall i :: 0 <= i < |dsowy| ==> 1 <= dsowy[i] <= 366
    ensures TimingColumn(0, 367, dsowy) == seq(|dsowy|, _ => 1)
  {
  }

  /**
    Half-open windows split exactly: for start <= mid <= end, each day is
    marked by exactly one of [start, mid) and [mid, end) if and only if it
    is marked by [start, end).
   */
  lemma TimingSplit(start: int, mid: int, end: int, dsowy: seq<int>)
    requires start <= mid <= end
    ensures forall i :: 0 <= i < |dsowy| ==>
      TimingColumn(start, end, dsowy)[i] == TimingColumn(start, mid, dsowy)[i] + TimingColumn(mid, end, dsowy)[i]
  {
  }
}
