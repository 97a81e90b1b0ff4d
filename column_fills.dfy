/**
  Filling a matrix column by column, each column computed by its own
  evaluator from the matrix the earlier evaluators left: the loop shared by
  Component.evaluate (functionalflows/model/component.py) and
  Metric.evaluate (metric.py).
 */
module ColumnFills {
  import opened Results
  import opened Matrices

  /** A characteristic's evaluator: the column it computes from the matrix so far, or its error. */
  type ColumnEvaluator = Matrix -> Result<seq<int>>

  /** Every column an evaluator returns has one 0/1 cell per row of the matrix it read. */
  ghost predicate WellBehaved(fs: seq<ColumnEvaluator>) {
    forall i, m :: 0 <= i < |fs| && fs[i](m).Success? ==>
      |fs[i](m).value| == |m| && IsBinaryColumn(fs[i](m).value)
  }

  /**
    The matrix after evaluators 0 .. j - 1 have run in order, evaluator k
    reading the matrix as the earlier ones left it and its column replacing
    column k; the first error stops the filling.
   */
  function FillColumns(fs: seq<ColumnEvaluator>, m0: Matrix, j: nat): (r: Result<Matrix>)
    requires WellBehaved(fs) && j <= |fs|
    requires forall i :: 0 <= i < |m0| ==> |fs| <= |m0[i]|
    ensures r.Success? ==> |r.value| == |m0| && forall i :: 0 <= i < |m0| ==> |r.value[i]| == |m0[i]|
  {
    if j == 0 then Success(m0)
    else
      var m :- FillColumns(fs, m0, j - 1);
      var col :- fs[j - 1](m);
      Success(SetColumn(m, j - 1, col))
  }

  /** Once an evaluator raises, the filling stops with that error. */
  lemma {:induction false} FillFailurePersists(fs: seq<ColumnEvaluator>, m0: Matrix, i: nat, j: nat)
    requires WellBehaved(fs) && i <= j <= |fs|
    requires forall r :: 0 <= r < |m0| ==> |fs| <= |m0[r]|
    requires FillColumns(fs, m0, i).Failure?
    ensures FillColumns(fs, m0, j) == FillColumns(fs, m0, i)
    decreases j - i
  {
    if i < j {
      FillFailurePersists(fs, m0, i, j - 1);
    }
  }

  /** The next evaluator either raises, which stops the filling, or replaces its own column. */
  lemma FillNext(fs: seq<ColumnEvaluator>, m0: Matrix, j: nat)
    requires WellBehaved(fs) && j < |fs|
    requires forall r :: 0 <= r < |m0| ==> |fs| <= |m0[r]|
    requires FillColumns(fs, m0, j).Success?
    ensures var m := FillColumns(fs, m0, j).value;
      var c := fs[j](m);
      FillColumns(fs, m0, j + 1) == if c.Failure? then Failure(c.error) else Success(SetColumn(m, j, c.value))
  {
  }

  /**
    When evaluator k raises on matrices of the right height exactly when
    `raises[k]` holds, always with `e`, the filling raises `e` exactly when
    one of the evaluators that ran is such a k.
   */
  lemma {:induction false} FillFailsIff(fs: seq<ColumnEvaluator>, m0: Matrix, j: nat, raises: seq<bool>, e: Error)
    requires WellBehaved(fs) && j <= |fs| && |raises| == |fs|
    requires forall r :: 0 <= r < |m0| ==> |fs| <= |m0[r]|
    requires forall k, m :: 0 <= k < |fs| && |m| == |m0| ==>
      (fs[k](m).Failure? <==> raises[k]) && (fs[k](m).Failure? ==> fs[k](m).error == e)
    ensures FillColumns(fs, m0, j).Failure? <==> exists k :: 0 <= k < j && raises[k]
    ensures FillColumns(fs, m0, j).Failure? ==> FillColumns(fs, m0, j).error == e
  {
    if j > 0 {
      FillFailsIff(fs, m0, j - 1, raises, e);
      if FillColumns(fs, m0, j - 1).Success? {
        var m := FillColumns(fs, m0, j - 1).value;
        assert |m| == |m0|;
        assert fs[j - 1](m).Failure? <==> raises[j - 1];
      }
      FillFailsStep(fs, m0, j, raises, e);
    }
  }

  lemma FillFailsStep(fs: seq<ColumnEvaluator>, m0: Matrix, j: nat, raises: seq<bool>, e: Error)
    requires WellBehaved(fs) && 0 < j <= |fs| && |raises| == |fs|
    requires forall r :: 0 <= r < |m0| ==> |fs| <= |m0[r]|
    requires FillColumns(fs, m0, j - 1).Failure? <==> exists k :: 0 <= k < j - 1 && raises[k]
    requires FillColumns(fs, m0, j - 1).Failure? ==> FillColumns(fs, m0, j - 1).error == e
    requires FillColumns(fs, m0, j - 1).Success? ==>
      var c := fs[j - 1](FillColumns(fs, m0, j - 1).value);
      (c.Failure? <==> raises[j - 1]) && (c.Failure? ==> c.error == e)
    ensures FillColumns(fs, m0, j).Failure? <==> exists k :: 0 <= k < j && raises[k]
    ensures FillColumns(fs, m0, j).Failure? ==> FillColumns(fs, m0, j).error == e
  {
    if FillColumns(fs, m0, j - 1).Success? {
      FillNext(fs, m0, j - 1);
    } else {
      var k :| 0 <= k < j - 1 && raises[k];
      assert 0 <= k < j && raises[k];
    }
    if raises[j - 1] {
      assert 0 <= j - 1 < j && raises[j - 1];
    }
  }

  /** One more evaluator replaces its own column and leaves every other column as it was. */
  lemma FillStep(fs: seq<ColumnEvaluator>, m0: Matrix, j: nat)
    requires WellBehaved(fs) && 0 < j <= |fs|
    requires forall r :: 0 <= r < |m0| ==> |fs| <= |m0[r]|
    requires FillColumns(fs, m0, j).Success?
    ensures FillColumns(fs, m0, j - 1).Success?
    ensures var prev := FillColumns(fs, m0, j - 1).value;
      && fs[j - 1](prev).Success?
      && FillColumns(fs, m0, j).value == SetColumn(prev, j - 1, fs[j - 1](prev).value)
  {
  }

  /** After j evaluators have run, columns j and beyond are as they started. */
  lemma {:induction false} FillColumnsUntouched(fs: seq<ColumnEvaluator>, m0: Matrix, j: nat)
    requires WellBehaved(fs) && j <= |fs|
    requires forall r :: 0 <= r < |m0| ==> |fs| <= |m0[r]|
    requires FillColumns(fs, m0, j).Success?
    ensures var m := FillColumns(fs, m0, j).value;
      forall r, k :: 0 <= r < |m| && j <= k < |m[r]| ==> m[r][k] == m0[r][k]
  {
    if j > 0 {
      FillStep(fs, m0, j);
      FillColumnsUntouched(fs, m0, j - 1);
    }
  }

  /**
    After j evaluators have run, column k < j holds what evaluator k
    computed from the matrix left by the first k evaluators.
   */
  lemma {:induction false} FillColumnWritten(fs: seq<ColumnEvaluator>, m0: Matrix, j: nat, k: nat)
    requires WellBehaved(fs) && k < j <= |fs|
    requires forall r :: 0 <= r < |m0| ==> |fs| <= |m0[r]|
    requires FillColumns(fs, m0, j).Success?
    ensures FillColumns(fs, m0, k).Success?
    ensures fs[k](FillColumns(fs, m0, k).value).Success?
    ensures Column(FillColumns(fs, m0, j).value, k) == fs[k](FillColumns(fs, m0, k).value).value
    decreases j
  {
    FillStep(fs, m0, j);
    var prev := FillColumns(fs, m0, j - 1).value;
    var col := fs[j - 1](prev).value;
    if k < j - 1 {
      FillColumnWritten(fs, m0, j - 1, k);
      SetColumnKeeps(prev, j - 1, col, k);
    } else {
      SetColumnWrites(prev, j - 1, col);
    }
  }

  /** Evaluators that write 0/1 columns keep a 0/1 matrix 0/1. */
  lemma {:induction false} FillColumnsBinary(fs: seq<ColumnEvaluator>, m0: Matrix, j: nat)
    requires WellBehaved(fs) && j <= |fs|
    requires forall r :: 0 <= r < |m0| ==> |fs| <= |m0[r]|
    requires IsBinary(m0) && FillColumns(fs, m0, j).Success?
    ensures IsBinary(FillColumns(fs, m0, j).value)
  {
    if j > 0 {
      FillColumnsBinary(fs, m0, j - 1);
    }
  }
}
