/**
  The packaged characteristic factory (functionalflows/model/characteristic.py).
  Its comparator lookup and its four evaluators are those of
  src/characteristic.py; its factory knows no frequency characteristic.
 */
module PackagedCharacteristics {
  import opened Results
  import opened Characteristics

  const PackagedKinds: seq<string> := ["timing", "magnitude", "duration", "rate_of_change"]

  /**
    Builds the characteristic `name` from its positional parameters; any
    name other than the four packaged kinds, "frequency" included, is
    refused.
   */
  function PackagedFactory(name: string, params: seq<Param>): (r: Result<Characteristic>)
    ensures name !in PackagedKinds ==> r == Failure(UnknownCharacteristic(name))
    ensures r.Success? ==> !r.value.Frequency? && KindName(r.value) == name
  {
    if name == "timing" then
      if |params| < 2 then Failure(MissingParameter(name))
      else
        var start :- IntArg(params[0], "start");
        var end :- IntArg(params[1], "end");
        Success(Timing(start, end))
    else if name == "magnitude" then
      if |params| < 3 then Failure(MissingParameter(name))
      else
        var ma :- IntArg(params[0], "ma_nperiods");
        var threshold :- RealArg(params[1], "threshold");
        var op :- SymbolArg(params[2]);
        Success(Magnitude(ma, threshold, op))
    else if name == "duration" then
      if |params| < 3 then Failure(MissingParameter(name))
      else
        var n :- IntArg(params[0], "nperiods");
        var pattern :- OptionalPatternArg(params[1]);
        var op :- SymbolArg(params[2]);
        Success(Duration(n, pattern, op))
    else if name == "rate_of_change" then
      if |params| < 3 then Failure(MissingParameter(name))
      else
        var ma :- IntArg(params[0], "ma_nperiods");
        var factor :- RealArg(params[1], "threshold_factor");
        var op :- SymbolArg(params[2]);
        Success(RateOfChange(ma, factor, op))
    else
      Failure(UnknownCharacteristic(name))
  }

  /**
    On every name but "frequency" the packaged factory gives what the
    factory of src/characteristic.py gives, error or characteristic.
   */
  lemma PackagedAgreesWithSource(name: string, params: seq<Param>)
    requires name != "frequency"
    ensures PackagedFactory(name, params) == Factory(name, params)
  {
  }

  /**
    Every characteristic other than a frequency is rebuilt by the packaged
    factory from its kind name and its parameters; a frequency is refused
    whatever its parameters.
   */
  lemma PackagedRoundTrip(c: Characteristic, extra: seq<Param>)
    ensures !c.Frequency? ==> PackagedFactory(KindName(c), Params(c) + extra) == Success(c)
    ensures c.Frequency? ==>
      PackagedFactory(KindName(c), Params(c) + extra) == Failure(UnknownCharacteristic("frequency"))
  {
    if !c.Frequency? {
      FactoryRoundTrip(c, extra);
      PackagedAgreesWithSource(KindName(c), Params(c) + extra);
    }
  }
}
