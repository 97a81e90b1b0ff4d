/**
  Characteristics (src/characteristic.py): comparator lookup and the
  factory that builds a characteristic from its name and positional
  parameters. The evaluators are in the modules named after them.
 */
module Characteristics {
  import opened Results

  // ---------------------------------------------------------------------
  // Comparators

  datatype Comparator = Gt | Ge | Eq | Le | Lt

  /** The configuration symbol of each comparator. */
  function Symbol(op: Comparator): string {
    match op
    case Gt => ">"
    case Ge => ">="
    case Eq => "="
    case Le => "<="
    case Lt => "<"
  }

  /**
    The comparator named by a configuration symbol; any other string is
    refused.
   */
  function MatchSymbol(symbol: string): (r: Result<Comparator>)
    ensures r.Success? ==> Symbol(r.value) == symbol
    ensures r.Failure? ==> r.error == UnknownSymbol(symbol) && forall op :: Symbol(op) != symbol
  {
    if symbol == ">" then Success(Gt)
    else if symbol == ">=" then Success(Ge)
    else if symbol == "=" then Success(Eq)
    else if symbol == "<=" then Success(Le)
    else if symbol == "<" then Success(Lt)
    else Failure(UnknownSymbol(symbol))
  }

  /** Every comparator is found again from its own symbol. */
  lemma MatchSymbolRoundTrip(op: Comparator)
    ensures MatchSymbol(Symbol(op)) == Success(op)
  {
  }

  /**
    `op(a, b)` for Python's operator.gt, ge, eq, le and lt: which comparators
    hold for each of the three ways two numbers can be ordered.
   */
  function Compare(op: Comparator, a: real, b: real): (r: bool)
    ensures a < b ==> (r <==> op == Lt || op == Le)
    ensures a == b ==> (r <==> op == Ge || op == Eq || op == Le)
    ensures a > b ==> (r <==> op == Gt || op == Ge)
  {
    match op
    case Gt => a > b
    case Ge => a >= b
    case Eq => a == b
    case Le => a <= b
    case Lt => a < b
  }

  /** The same comparison on integers, as Python compares two ints. */
  function CompareInt(op: Comparator, a: int, b: int): (r: bool)
    ensures r == Compare(op, a as real, b as real)
  {
    match op
    case Gt => a > b
    case Ge => a >= b
    case Eq => a == b
    case Le => a <= b
    case Lt => a < b
  }

  // ---------------------------------------------------------------------
  // Characteristics and the factory

  /** A characteristic with the parameters its closure captures. */
  datatype Characteristic =
    | Timing(start: int, end: int)
    | Magnitude(maPeriods: int, threshold: real, op: Comparator)
    | Duration(nPeriods: int, rowPattern: Option<seq<int>>, op: Comparator)
    | RateOfChange(maPeriods: int, thresholdFactor: real, op: Comparator)
    | Frequency(nTimes: int, nYears: int, yearPattern: seq<int>, op: Comparator)

  /** A positional parameter as it comes from the configuration. */
  datatype Param =
    | IntParam(i: int)
    | RealParam(r: real)
    | StringParam(s: string)
    | PatternParam(p: seq<int>)
    | NoneParam

  const Kinds: seq<string> := ["timing", "magnitude", "duration", "rate_of_change", "frequency"]

  function KindName(c: Characteristic): string {
    match c
    case Timing(_, _) => "timing"
    case Magnitude(_, _, _) => "magnitude"
    case Duration(_, _, _) => "duration"
    case RateOfChange(_, _, _) => "rate_of_change"
    case Frequency(_, _, _, _) => "frequency"
  }

  /** How many positional parameters the factory reads for each kind. */
  function Arity(name: string): nat {
    if name == "timing" then 2 else if name == "frequency" then 4 else 3
  }

  function IntArg(p: Param, name: string): Result<int> {
    if p.IntParam? then Success(p.i) else Failure(BadParameter(name))
  }

  /** A float parameter; an integer is accepted where a float is expected. */
  function RealArg(p: Param, name: string): Result<real> {
    match p
    case IntParam(i) => Success(i as real)
    case RealParam(r) => Success(r)
    case _ => Failure(BadParameter(name))
  }

  function SymbolArg(p: Param): Result<Comparator> {
    if p.StringParam? then MatchSymbol(p.s) else Failure(BadParameter("symbol"))
  }

  function PatternArg(p: Param): Result<seq<int>> {
    if p.PatternParam? then Success(p.p) else Failure(BadParameter("row_pattern"))
  }

  function OptionalPatternArg(p: Param): Result<Option<seq<int>>> {
    match p
    case NoneParam => Success(None)
    case PatternParam(q) => Success(Some(q))
    case _ => Failure(BadParameter("row_pattern"))
  }

  /**
    Builds the characteristic `name` from its positional parameters. An
    unknown name is refused whatever the parameters; a known name with too
    few parameters is an index error; the comparator symbol is checked when
    the characteristic is built, before any row is evaluated.
   */
  function Factory(name: string, params: seq<Param>): (r: Result<Characteristic>)
    ensures name !in Kinds ==> r == Failure(UnknownCharacteristic(name))
    ensures name in Kinds && |params| < Arity(name) ==> r == Failure(MissingParameter(name))
    ensures r.Success? ==> KindName(r.value) == name && |params| >= Arity(name)
    ensures r.Success? && !r.value.Timing? ==> params[Arity(name) - 1] == StringParam(Symbol(r.value.op))
    ensures (name in Kinds && name != "timing" && |params| >= Arity(name) &&
             params[Arity(name) - 1].StringParam? && MatchSymbol(params[Arity(name) - 1].s).Failure?) ==>
      r.Failure?
  {
    if name == "timing" then
      if |params| < 2 then Failure(MissingParameter(name))
      else
        var start :- IntArg(params[0], "start");
        var end :- IntArg(params[1], "end");
        Success(Timing(start, end))
    else if name == "magnitude" then
      if |params| < 3 then Failure(MissingParameter(name))
      else
        var ma :- IntArg(params[0], "ma_nperiods");
        var threshold :- RealArg(params[1], "threshold");
        var op :- SymbolArg(params[2]);
        Success(Magnitude(ma, threshold, op))
    else if name == "duration" then
      if |params| < 3 then Failure(MissingParameter(name))
      else
        var n :- IntArg(params[0], "nperiods");
        var pattern :- OptionalPatternArg(params[1]);
        var op :- SymbolArg(params[2]);
        Success(Duration(n, pattern, op))
    else if name == "rate_of_change" then
      if |params| < 3 then Failure(MissingParameter(name))
      else
        var ma :- IntArg(params[0], "ma_nperiods");
        var factor :- RealArg(params[1], "threshold_factor");
        var op :- SymbolArg(params[2]);
        Success(RateOfChange(ma, factor, op))
    else if name == "frequency" then
      if |params| < 4 then Failure(MissingParameter(name))
      else
        var times :- IntArg(params[0], "n_times");
        var years :- IntArg(params[1], "n_years");
        var pattern :- PatternArg(params[2]);
        var op :- SymbolArg(params[3]);
        Success(Frequency(times, years, pattern, op))
    else
      Failure(UnknownCharacteristic(name))
  }

  /** The positional parameters that describe a characteristic. */
  function Params(c: Characteristic): seq<Param> {
    match c
    case Timing(s, e) => [IntParam(s), IntParam(e)]
    case Magnitude(ma, t, op) => [IntParam(ma), RealParam(t), StringParam(Symbol(op))]
    case Duration(n, p, op) =>
      [IntParam(n), if p.Some? then PatternParam(p.value) else NoneParam, StringParam(Symbol(op))]
    case RateOfChange(ma, f, op) => [IntParam(ma), RealParam(f), StringParam(Symbol(op))]
    case Frequency(t, y, p, op) => [IntParam(t), IntParam(y), PatternParam(p), StringParam(Symbol(op))]
  }

  /**
    The factory rebuilds every characteristic from its kind name and its
    parameters, and ignores parameters beyond those it reads.
   */
  lemma FactoryRoundTrip(c: Characteristic, extra: seq<Param>)
    ensures |Params(c)| == Arity(KindName(c))
    ensures Factory(KindName(c), Params(c) + extra) == Success(c)
  {
    if !c.Timing? {
      MatchSymbolRoundTrip(c.op);
    }
    var ps := Params(c) + extra;
    assert ps[..|Params(c)|] == Params(c);
  }

  /**
    An unknown comparator symbol is refused when the characteristic is
    built: with every other parameter well formed, the factory reports that
    symbol.
   */
  lemma FactoryRefusesUnknownSymbol(c: Characteristic, symbol: string, extra: seq<Param>)
    requires !c.Timing? && MatchSymbol(symbol).Failure?
    ensures Factory(KindName(c), Params(c)[..Arity(KindName(c)) - 1] + [StringParam(symbol)] + extra) ==
      Failure(UnknownSymbol(symbol))
  {
    var ps := Params(c)[..Arity(KindName(c)) - 1] + [StringParam(symbol)] + extra;
    assert ps[..Arity(KindName(c))] == Params(c)[..Arity(KindName(c)) - 1] + [StringParam(symbol)];
  }
}
