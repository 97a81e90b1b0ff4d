/** Running every component of an analysis (functionalflows/model/analysis.py). */
module Analyses {
  import opened Results
  import opened Matrices
  import opened Data
  import opened Components

  /** The output carries the component's name and its column names. */
  predicate Labels(o: Output, c: Component) {
    o.componentName == c.name && o.characteristicNames == c.OutputNames()
  }

  /**
    Each output holds, in a matrix of its own, what the component at the
    same position computes from the input, under that component's labels.
   */
  ghost predicate Collected(outputs: seq<Output>, components: seq<Component>, data: Input)
    reads set i | 0 <= i < |outputs| :: outputs[i].data
  {
    && data.Valid() && |outputs| <= |components|
    && (forall i :: 0 <= i < |outputs| ==>
          Labels(outputs[i], components[i]) && Success(Contents(outputs[i].data)) == components[i].EvaluationSpec(data))
    && (forall i, j :: 0 <= i < j < |outputs| ==> outputs[i].data != outputs[j].data)
  }

  lemma CollectedExtend(outputs: seq<Output>, components: seq<Component>, data: Input, o: Output)
    requires Collected(outputs, components, data) && |outputs| < |components|
    requires Labels(o, components[|outputs|])
    requires Success(Contents(o.data)) == components[|outputs|].EvaluationSpec(data)
    requires forall i :: 0 <= i < |outputs| ==> outputs[i].data != o.data
    ensures Collected(outputs + [o], components, data)
  {
    var longer := outputs + [o];
    forall i | 0 <= i < |longer|
      ensures Labels(longer[i], components[i])
      ensures Success(Contents(longer[i].data)) == components[i].EvaluationSpec(data)
    {
      if i < |outputs| {
        assert longer[i] == outputs[i];
      } else {
        assert longer[i] == o;
      }
    }
    forall i, j | 0 <= i < j < |longer| ensures longer[i].data != longer[j].data {
      if j < |outputs| {
        assert longer[i] == outputs[i] && longer[j] == outputs[j];
      } else {
        assert longer[i] == outputs[i] && longer[j] == o;
      }
    }
  }

  /** One input series and the components evaluated against it. */
  datatype Analysis = Analysis(data: Input, components: seq<Component>) {

    /**
      Evaluates every component against the same input, in order, each into
      a matrix of its own, and returns the outputs; the first component that
      raises stops the run with its error. The table file is written only
      when a path is given and every component has been evaluated; its
      contents are not modelled.
     */
    method Run(outputPath: string) returns (r: Result<seq<Output>>, writesFile: bool)
      requires data.Valid()
      ensures r.Failure? <==> exists i :: 0 <= i < |components| && components[i].EvaluationSpec(data).Failure?
      ensures r.Failure? ==>
        exists i :: (0 <= i < |components| &&
                     (forall j :: 0 <= j < i ==> components[j].EvaluationSpec(data).Success?) &&
                     components[i].EvaluationSpec(data) == Failure(r.error))
      ensures r.Success? ==>
        && |r.value| == |components|
        && (forall i :: 0 <= i < |components| ==>
              && fresh(r.value[i].data)
              && Labels(r.value[i], components[i])
              && Contents(r.value[i].data) == components[i].EvaluationSpec(data).value)
        && (forall i, j :: 0 <= i < j < |r.value| ==> r.value[i].data != r.value[j].data)
      ensures writesFile <==> r.Success? && outputPath != ""
    {
      var outputs: seq<Output> := [];
      writesFile := false;
      for n := 0 to |components|
        invariant |outputs| == n
        invariant forall i :: 0 <= i < n ==> fresh(outputs[i].data)
        invariant Collected(outputs, components, data)
      {
        var next := EvaluateNext(outputs);
        if next.Failure? {
          return Failure(next.error), false;
        }
        outputs := outputs + [next.value];
      }
      writesFile := outputPath != "";
      return Success(outputs), writesFile;
    }

    /** Evaluates the component after those already collected. */
    method EvaluateNext(outputs: seq<Output>) returns (r: Result<Output>)
      requires Collected(outputs, components, data) && |outputs| < |components|
      ensures r.Failure? ==> components[|outputs|].EvaluationSpec(data) == Failure(r.error)
      ensures r.Success? ==> fresh(r.value.data) && Collected(outputs + [r.value], components, data)
    {
      r := components[|outputs|].Evaluate(data);
      if r.Success? {
        CollectedExtend(outputs, components, data, r.value);
      }
    }
  }
}
