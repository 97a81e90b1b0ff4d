/**
  Scoring criteria and components (functionalflows/model/component.py): a
  component evaluates its characteristics into the columns of one matrix,
  left to right, and its scoring criteria reduce each row of those columns
  to one success or failure bit in the last column.
 */
module Components {
  import opened Results
  import opened Matrices
  import opened Data
  import opened Characteristics
  import opened Evaluation
  import opened ColumnFills

  // ---------------------------------------------------------------------
  // Scoring patterns

  /** One element of a scoring pattern: a required cell value, or the wildcard '*'. */
  datatype PatternElement = Value(v: int) | Wildcard

  /** The indices of the wildcards among the first n elements of `p`, in increasing order. */
  function WildcardsUpTo(p: seq<PatternElement>, n: nat): (r: seq<int>)
    requires n <= |p|
    ensures forall k :: 0 <= k < |r| ==> 0 <= r[k] < n && p[r[k]].Wildcard?
    ensures forall k, l :: 0 <= k < l < |r| ==> r[k] < r[l]
    ensures forall i :: 0 <= i < n && p[i].Wildcard? ==> i in r
  {
    if n == 0 then []
    else WildcardsUpTo(p, n - 1) + (if p[n - 1].Wildcard? then [n - 1] else [])
  }

  /** The values of the first n elements of `p` that are not wildcards, in order. */
  function ValuesUpTo(p: seq<PatternElement>, n: nat): (r: seq<int>)
    requires n <= |p|
    ensures |r| + |WildcardsUpTo(p, n)| == n
  {
    if n == 0 then []
    else ValuesUpTo(p, n - 1) + (if p[n - 1].Wildcard? then [] else [p[n - 1].v])
  }

  /** The first n cells of `row` without those at `positions`, in order. */
  function DeleteUpTo(row: seq<int>, positions: seq<int>, n: nat): (r: seq<int>)
    requires n <= |row|
    ensures |r| <= n
    ensures positions == [] ==> r == row[..n]
  {
    if n == 0 then []
    else
      var cell := if n - 1 in positions then [] else [row[n - 1]];
      assert positions == [] ==> row[..n] == row[..n - 1] + cell;
      DeleteUpTo(row, positions, n - 1) + cell
  }

  /** `row` without the cells at `positions`, in order, as numpy.delete. */
  function Delete(row: seq<int>, positions: seq<int>): seq<int> {
    DeleteUpTo(row, positions, |row|)
  }

  lemma AppendEqual(a: seq<int>, b: seq<int>, c: seq<int>, d: seq<int>)
    requires |a| == |c|
    ensures a + b == c + d <==> a == c && b == d
  {
    if a + b == c + d {
      assert (a + b)[..|a|] == a && (c + d)[..|c|] == c;
      assert (a + b)[|a|..] == b && (c + d)[|c|..] == d;
    }
  }

  /**
    On the first n cells, the row with the wildcard cells deleted equals
    the values of the pattern exactly when every non-wildcard cell holds
    its pattern value.
   */
  lemma {:induction false} DeleteWildcardsIff(p: seq<PatternElement>, row: seq<int>, n: nat)
    requires |row| == |p| && n <= |p|
    ensures |DeleteUpTo(row, WildcardsUpTo(p, |p|), n)| == |ValuesUpTo(p, n)|
    ensures DeleteUpTo(row, WildcardsUpTo(p, |p|), n) == ValuesUpTo(p, n) <==>
      forall i :: 0 <= i < n && p[i].Value? ==> row[i] == p[i].v
  {
    if n > 0 {
      DeleteWildcardsIff(p, row, n - 1);
      var w := WildcardsUpTo(p, |p|);
      var cell: seq<int> := if n - 1 in w then [] else [row[n - 1]];
      var value: seq<int> := if p[n - 1].Wildcard? then [] else [p[n - 1].v];
      assert n - 1 in w <==> p[n - 1].Wildcard?;
      AppendEqual(DeleteUpTo(row, w, n - 1), cell, ValuesUpTo(p, n - 1), value);
    }
  }

  /** Without wildcards, the values are the pattern's elements one for one. */
  lemma {:induction false} ValuesWithoutWildcards(p: seq<PatternElement>, n: nat)
    requires n <= |p|
    requires forall i :: 0 <= i < n ==> p[i].Value?
    ensures ValuesUpTo(p, n) == seq(n, i requires 0 <= i < n => p[i].v)
  {
    if n > 0 {
      ValuesWithoutWildcards(p, n - 1);
    }
  }

  /**
    How a component's rows are judged: the pattern over the characteristic
    columns, and whether a matching row means success or failure.
   */
  datatype ScoringCriteria = ScoringCriteria(scoringPattern: seq<PatternElement>, isSuccessPattern: bool) {

    /** The pattern with each wildcard read as 0. */
    function Filled(): seq<int> {
      seq(|scoringPattern|, i requires 0 <= i < |scoringPattern| =>
        if scoringPattern[i].Value? then scoringPattern[i].v else 0)
    }

    /**
      The scoring pattern without its wildcards: one value per non-wildcard
      element, in order, which is what is left of the pattern once the
      wildcard positions are deleted.
     */
    function MatchingPattern(): (r: seq<int>)
      ensures |r| + |WildcardPositions()| == |scoringPattern|
      ensures r == Delete(Filled(), WildcardPositions())
    {
      DeleteWildcardsIff(scoringPattern, Filled(), |scoringPattern|);
      ValuesUpTo(scoringPattern, |scoringPattern|)
    }

    /** The positions of the wildcards in the scoring pattern, in increasing order. */
    function WildcardPositions(): (r: seq<int>)
      ensures forall k :: 0 <= k < |r| ==> 0 <= r[k] < |scoringPattern| && scoringPattern[r[k]].Wildcard?
      ensures forall k, l :: 0 <= k < l < |r| ==> r[k] < r[l]
      ensures forall i :: 0 <= i < |scoringPattern| && scoringPattern[i].Wildcard? ==> i in r
    {
      WildcardsUpTo(scoringPattern, |scoringPattern|)
    }

    /**
      Whether a row of characteristic cells matches: with wildcards, the
      row with the wildcard cells deleted must equal the matching pattern;
      without, the row itself must. A row as long as the pattern matches
      exactly when each cell the pattern does not leave open holds the
      pattern's value.
     */
    function Match(row: seq<int>): (r: bool)
      ensures |row| == |scoringPattern| ==>
        (r <==> forall i :: 0 <= i < |row| && scoringPattern[i].Value? ==> row[i] == scoringPattern[i].v)
    {
      var w := WildcardPositions();
      var matched := if |w| > 0 then Delete(row, w) == MatchingPattern() else row == MatchingPattern();
      assert |row| == |scoringPattern| ==>
        (matched <==> forall i :: 0 <= i < |row| && scoringPattern[i].Value? ==> row[i] == scoringPattern[i].v)
      by {
        if |row| == |scoringPattern| {
          DeleteWildcardsIff(scoringPattern, row, |row|);
        }
      }
      matched
    }

    /** The name of the score column. */
    function Name(): (n: string)
      ensures n == "success" <==> isSuccessPattern
      ensures n == "failure" <==> !isSuccessPattern
    {
      if isSuccessPattern then "success" else "failure"
    }

    /**
      The matrix after scoring a matrix with `cols` columns: column c, with
      c the length of the scoring pattern, holds for every row whether its
      first c cells match, and every other cell is unchanged. When column c
      does not exist, the first row already fails with an index error.
     */
    function ScoreSpec(m: Matrix, cols: nat): (r: Result<Matrix>)
      requires HasShape(m, |m|, cols)
      ensures r.Failure? <==> |m| > 0 && |scoringPattern| >= cols
      ensures |m| == 0 ==> r == Success(m)
      ensures r.Success? && |m| > 0 ==>
        var c := |scoringPattern|;
        && HasShape(r.value, |m|, cols)
        && (forall i :: 0 <= i < |m| ==> (r.value[i][c] == 1 <==> Match(m[i][..c])))
        && (forall i :: 0 <= i < |m| ==> r.value[i][c] == 0 || r.value[i][c] == 1)
        && (forall i, k :: 0 <= i < |m| && 0 <= k < cols && k != c ==> r.value[i][k] == m[i][k])
    {
      var c := |scoringPattern|;
      if |m| == 0 then Success(m)
      else if c >= cols then Failure(IndexOutOfRange(c, cols))
      else Success(SetColumn(m, c, seq(|m|, i requires 0 <= i < |m| => Bit(Match(m[i][..c])))))
    }

    /**
      Scores every row in place and returns the same matrix; on an index
      error nothing has been written.
     */
    method Score(outputs: array2<int>) returns (r: Result<array2<int>>)
      modifies outputs
      ensures var spec := ScoreSpec(old(Contents(outputs)), outputs.Length1);
        && (r.Failure? <==> spec.Failure?)
        && (r.Failure? ==> r.error == spec.error && Contents(outputs) == old(Contents(outputs)))
        && (r.Success? ==> r.value == outputs && Contents(outputs) == spec.value)
    {
      var c := |scoringPattern|;
      var rows := outputs.Length0;
      if rows == 0 {
        return Success(outputs);
      }
      if c >= outputs.Length1 {
        return Failure(IndexOutOfRange(c, outputs.Length1));
      }
      ghost var before := Contents(outputs);
      ghost var scores := seq(rows, i requires 0 <= i < rows => Bit(Match(before[i][..c])));
      for i := 0 to rows
        invariant forall k :: 0 <= k < rows ==> outputs[k, c] == if k < i then scores[k] else before[k][c]
        invariant forall k, l :: 0 <= k < rows && 0 <= l < outputs.Length1 && l != c ==> outputs[k, l] == before[k][l]
      {
        var row := ArrayRowSlice(outputs, i, c);
        assert row == before[i][..c];
        outputs[i, c] := if Match(row) then 1 else 0;
      }
      ghost var after := Contents(outputs);
      ghost var expected := SetColumn(before, c, scores);
      forall i | 0 <= i < rows ensures after[i] == expected[i] {
        forall k | 0 <= k < outputs.Length1 ensures after[i][k] == expected[i][k] {
        }
      }
      return Success(outputs);
    }
  }

  /** Without wildcards, a row matches exactly when it equals the pattern's values. */
  lemma MatchWithoutWildcards(sc: ScoringCriteria, row: seq<int>)
    requires forall i :: 0 <= i < |sc.scoringPattern| ==> sc.scoringPattern[i].Value?
    ensures sc.Match(row) <==>
      row == seq(|sc.scoringPattern|, i requires 0 <= i < |sc.scoringPattern| => sc.scoringPattern[i].v)
  {
    var p := sc.scoringPattern;
    ValuesWithoutWildcards(p, |p|);
  }

  /** Scoring twice gives what scoring once gives: the score column is never read. */
  lemma ScoreIdempotent(sc: ScoringCriteria, m: Matrix, cols: nat)
    requires HasShape(m, |m|, cols)
    requires sc.ScoreSpec(m, cols).Success?
    ensures sc.ScoreSpec(sc.ScoreSpec(m, cols).value, cols) == sc.ScoreSpec(m, cols)
  {
    if |m| > 0 {
      var c := |sc.scoringPattern|;
      var once := sc.ScoreSpec(m, cols).value;
      var twice := sc.ScoreSpec(once, cols).value;
      forall i | 0 <= i < |m| ensures twice[i] == once[i] {
        assert once[i][..c] == m[i][..c];
        forall k | 0 <= k < cols ensures twice[i][k] == once[i][k] {
        }
      }
      assert twice == once;
    }
  }

  // ---------------------------------------------------------------------
  // Components

  /**
    A named component: its characteristics under their keys, in insertion
    order, and its scoring criteria.
   */
  datatype Component = Component(name: string, characteristics: seq<(string, Characteristic)>,
                                 scoringCriteria: ScoringCriteria) {

    function Keys(): (keys: seq<string>)
      ensures |keys| == |characteristics|
      ensures forall i :: 0 <= i < |keys| ==> keys[i] == characteristics[i].0
    {
      seq(|characteristics|, i requires 0 <= i < |characteristics| => characteristics[i].0)
    }

    /** The keys in order, then the name of the score column. */
    function OutputNames(): seq<string> {
      Keys() + [scoringCriteria.Name()]
    }

    /**
      The evaluator of each characteristic, in order, as Component.evaluate
      calls it on the matrix being filled.
     */
    function Evaluators(data: Input): (fs: seq<ColumnEvaluator>)
      requires data.Valid()
      ensures |fs| == |characteristics| && WellBehaved(fs)
    {
      seq(|characteristics|, i requires 0 <= i < |characteristics| =>
        (m: Matrix) =>
          if |m| == |data.flows| then ColumnSpec(characteristics[i].1, data, m)
          else Failure(IndexOutOfRange(|m|, |data.flows|)))
    }

    /**
      The matrix after the first j characteristics have written their
      columns, starting from a zero matrix with one column per
      characteristic and one for the score.
     */
    function Prefill(data: Input, j: nat): (r: Result<Matrix>)
      requires data.Valid() && j <= |characteristics|
      ensures r.Success? ==> HasShape(r.value, |data.flows|, |characteristics| + 1)
    {
      FillColumns(Evaluators(data), Zeros(|data.flows|, |characteristics| + 1), j)
    }

    /** The scored matrix that `evaluate` returns, or the first error raised. */
    function EvaluationSpec(data: Input): (r: Result<Matrix>)
      requires data.Valid()
      ensures r.Failure? <==>
        || Prefill(data, |characteristics|).Failure?
        || (|data.flows| > 0 && |scoringCriteria.scoringPattern| > |characteristics|)
      ensures Prefill(data, |characteristics|).Failure? ==> r == Prefill(data, |characteristics|)
      ensures r.Success? ==> HasShape(r.value, |data.flows|, |characteristics| + 1)
    {
      var m :- Prefill(data, |characteristics|);
      scoringCriteria.ScoreSpec(m, |characteristics| + 1)
    }

    /**
      Allocates the zero matrix and lets each characteristic fill its
      column in order; the first characteristic that raises stops the
      filling with its error.
     */
    method FillCharacteristics(data: Input) returns (r: Result<array2<int>>)
      requires data.Valid()
      ensures r.Failure? ==> Prefill(data, |characteristics|) == Failure(r.error)
      ensures r.Success? ==>
        && fresh(r.value)
        && r.value.Length0 == |data.flows| && r.value.Length1 == |characteristics| + 1
        && Prefill(data, |characteristics|) == Success(Contents(r.value))
    {
      var outputs := NewZeros(|data.flows|, |characteristics| + 1);
      for i := 0 to |characteristics|
        invariant Prefill(data, i) == Success(Contents(outputs))
      {
        var failed := FillColumn(data, outputs, i);
        if failed.Some? {
          return Failure(failed.value);
        }
      }
      return Success(outputs);
    }

    /**
      Characteristic i reads the matrix and, unless it raises, writes its
      column into it; an error ends the evaluation.
     */
    method FillColumn(data: Input, outputs: array2<int>, i: nat) returns (failed: Option<Error>)
      requires data.Valid() && i < |characteristics|
      requires outputs.Length0 == |data.flows| && outputs.Length1 == |characteristics| + 1
      requires Prefill(data, i) == Success(Contents(outputs))
      modifies outputs
      ensures failed.Some? ==> Prefill(data, |characteristics|) == Failure(failed.value)
      ensures failed.None? ==> Prefill(data, i + 1) == Success(Contents(outputs))
    {
      var col := EvaluateColumn(characteristics[i].1, data, outputs);
      PrefillStep(this, data, i);
      if col.Failure? {
        PrefillFailureFinal(this, data, i + 1);
        return Some(col.error);
      }
      WriteColumn(outputs, i, col.value);
      return None;
    }

    /**
      Fills the characteristic columns, scores the rows and names the
      columns.
     */
    method Evaluate(data: Input) returns (r: Result<Output>)
      requires data.Valid()
      ensures r.Failure? <==> EvaluationSpec(data).Failure?
      ensures r.Failure? ==> r.error == EvaluationSpec(data).error
      ensures r.Success? ==>
        && fresh(r.value.data)
        && r.value.componentName == name
        && r.value.characteristicNames == OutputNames()
        && Contents(r.value.data) == EvaluationSpec(data).value
    {
      var outputs :- FillCharacteristics(data);
      var scored :- scoringCriteria.Score(outputs);
      return Success(Output(name, OutputNames(), scored));
    }
  }

  /**
    The next characteristic reads the matrix the earlier ones left and
    either raises or writes its own column.
   */
  lemma PrefillStep(comp: Component, data: Input, i: nat)
    requires data.Valid() && i < |comp.characteristics|
    requires comp.Prefill(data, i).Success?
    ensures var m := comp.Prefill(data, i).value;
      var c := ColumnSpec(comp.characteristics[i].1, data, m);
      comp.Prefill(data, i + 1) == if c.Failure? then Failure(c.error) else Success(SetColumn(m, i, c.value))
  {
    EvaluatorIsColumnSpec(comp, data, i, comp.Prefill(data, i).value);
  }

  /** Once a characteristic raises, evaluation ends with that error. */
  lemma PrefillFailureFinal(comp: Component, data: Input, i: nat)
    requires data.Valid() && i <= |comp.characteristics|
    requires comp.Prefill(data, i).Failure?
    ensures comp.Prefill(data, |comp.characteristics|) == comp.Prefill(data, i)
  {
    FillFailurePersists(comp.Evaluators(data), Zeros(|data.flows|, |comp.characteristics| + 1), i,
                        |comp.characteristics|);
  }

  /** An evaluator is called on a matrix of the input's length. */
  lemma EvaluatorIsColumnSpec(comp: Component, data: Input, i: nat, m: Matrix)
    requires data.Valid() && i < |comp.characteristics| && |m| == |data.flows|
    ensures comp.Evaluators(data)[i](m) == ColumnSpec(comp.characteristics[i].1, data, m)
  {
  }

  /**
    While a component evaluates, the columns of the characteristics already
    run hold the columns they wrote, and the columns not yet written,
    including the score column, are still zero.
   */
  lemma PrefillColumns(comp: Component, data: Input, j: nat)
    requires data.Valid() && j <= |comp.characteristics|
    requires comp.Prefill(data, j).Success?
    ensures var m := comp.Prefill(data, j).value;
      && (forall i, k :: 0 <= i < |m| && j <= k < |m[i]| ==> m[i][k] == 0)
      && (forall k :: 0 <= k < j ==>
            comp.Prefill(data, k).Success? &&
            ColumnSpec(comp.characteristics[k].1, data, comp.Prefill(data, k).value).Success? &&
            Column(m, k) == ColumnSpec(comp.characteristics[k].1, data, comp.Prefill(data, k).value).value)
  {
    var fs := comp.Evaluators(data);
    var zeros := Zeros(|data.flows|, |comp.characteristics| + 1);
    FillColumnsUntouched(fs, zeros, j);
    forall k | 0 <= k < j
      ensures comp.Prefill(data, k).Success?
      ensures ColumnSpec(comp.characteristics[k].1, data, comp.Prefill(data, k).value).Success?
      ensures Column(comp.Prefill(data, j).value, k) ==
        ColumnSpec(comp.characteristics[k].1, data, comp.Prefill(data, k).value).value
    {
      FillColumnWritten(fs, zeros, j, k);
      EvaluatorIsColumnSpec(comp, data, k, comp.Prefill(data, k).value);
    }
  }

  /** Every cell of an evaluated component is 0 or 1. */
  lemma PrefillBinary(comp: Component, data: Input, j: nat)
    requires data.Valid() && j <= |comp.characteristics|
    requires comp.Prefill(data, j).Success?
    ensures IsBinary(comp.Prefill(data, j).value)
  {
    FillColumnsBinary(comp.Evaluators(data), Zeros(|data.flows|, |comp.characteristics| + 1), j);
  }

  /**
    When the scoring pattern covers exactly the characteristic columns, the
    evaluated matrix keeps every characteristic column as written and its
    last column holds, row by row, whether the characteristic cells match.
    The names are the keys followed by the score name, one per column.
   */
  lemma EvaluationScoresLastColumn(comp: Component, data: Input)
    requires data.Valid() && |data.flows| > 0
    requires |comp.scoringCriteria.scoringPattern| == |comp.characteristics|
    requires comp.EvaluationSpec(data).Success?
    ensures var k := |comp.characteristics|;
      var m := comp.Prefill(data, k).value;
      var e := comp.EvaluationSpec(data).value;
      && |comp.OutputNames()| == k + 1
      && HasShape(e, |data.flows|, k + 1) && IsBinary(e)
      && (forall i :: 0 <= i < |e| ==> (e[i][k] == 1 <==> comp.scoringCriteria.Match(m[i][..k])))
      && (forall i, c :: 0 <= i < |e| && 0 <= c < k ==> e[i][c] == m[i][c])
  {
    PrefillBinary(comp, data, |comp.characteristics|);
  }
}
