/** The magnitude evaluator: the (averaged) flow against a threshold. */
module MagnitudeColumns {
  import opened Results
  import opened Matrices
  import opened Characteristics
  import opened MovingAverages


  /**
    1 on the days whose flow, averaged over the trailing window, compares
    to the threshold by `op`; with a window of 1 that is the raw flow.
   */
  function MagnitudeColumn(maPeriods: int, threshold: real, op: Comparator, flows: seq<real>): (r: Result<seq<int>>)
    ensures r.Failure? <==> maPeriods < 1
    ensures r.Success? ==> |r.value| == |flows| && IsBinaryColumn(r.value)
    ensures r.Success? ==> forall i :: 0 <= i < |flows| ==>
      (r.value[i] == 1 <==> Compare(op, TrailingMean(flows, maPeriods, i), threshold))
  {
    var f :- Smoothed(flows, maPeriods);
    Success(seq(|f|, i requires 0 <= i < |f| => Bit(Compare(op, f[i], threshold))))
  }

  /** Magnitude on raw flows: 1 exactly where the flow itself compares to the threshold. */
  lemma MagnitudeRawFlows(threshold: real, op: Comparator, flows: seq<real>)
    ensures MagnitudeColumn(1, threshold, op, flows) ==
      Success(seq(|flows|, i requires 0 <= i < |flows| => Bit(Compare(op, flows[i], threshold))))
  {
  }

  /** The example series [-1, 0, 1] against "> 0" gives [0, 0, 1]. */
  lemma MagnitudeExample()
    ensures MagnitudeColumn(1, 0.0, Gt, [-1.0, 0.0, 1.0]) == Success([0, 0, 1])
  {
    MagnitudeRawFlows(0.0, Gt, [-1.0, 0.0, 1.0]);
    var col := MagnitudeColumn(1, 0.0, Gt, [-1.0, 0.0, 1.0]).value;
    assert col[0] == 0 && col[1] == 0 && col[2] == 1;
    assert col == [0, 0, 1];
  }
}
