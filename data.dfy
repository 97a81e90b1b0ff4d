/**
  The input series and a component's output (functionalflows/model/data.py).
 */
module Data {
  import opened Results
  import opened WaterYear
  import opened Matrices

  /**
    The daily series: dates and flows read from one table, the configured
    first day of the water year, and the day of water year of every date,
    computed once at construction.
   */
  datatype Input = Input(dates: seq<Date>, flows: seq<real>, startOfWaterYear: int, dsowy: seq<int>) {
    predicate Valid() {
      |dates| == |flows| == |dsowy|
    }
  }

  /**
    Builds an input and its day-of-water-year column. The start is checked
    once per date, so an invalid start is reported only when there is at
    least one date; every entry of the column is the day of water year of
    the date in the same row.
   */
  function MakeInput(dates: seq<Date>, flows: seq<real>, start: int := DefaultStart): (r: Result<Input>)
    requires |dates| == |flows|
    ensures r.Failure? <==> |dates| > 0 && start > 365
    ensures r.Failure? ==> r.error == InvalidStart(start)
    ensures r.Success? ==>
      && r.value.Valid()
      && r.value.dates == dates && r.value.flows == flows && r.value.startOfWaterYear == start
      && forall i :: 0 <= i < |dates| ==> DayOfWaterYear(dates[i], start) == Success(r.value.dsowy[i])
  {
    if |dates| > 0 && start > 365 then
      Failure(InvalidStart(start))
    else
      Success(Input(dates, flows, start,
        seq(|dates|, i requires 0 <= i < |dates| => DayOfWaterYear(dates[i], start).value)))
  }

  /** The default water-year start is used when none is given. */
  lemma MakeInputDefaultStart(dates: seq<Date>, flows: seq<real>)
    requires |dates| == |flows|
    ensures MakeInput(dates, flows).Success?
    ensures MakeInput(dates, flows).value.startOfWaterYear == 274
  {
  }

  /** A component's result: its name, the output column names and the filled matrix. */
  datatype Output = Output(componentName: string, characteristicNames: seq<string>, data: array2<int>) {

    /**
      Collects the columns under their names `component_name`, in order, in
      a dictionary: a name seen again keeps its place and takes the new
      column. A name with no matching column is an index error.
     */
    method ToColumns() returns (r: Result<Table>)
      ensures r.Failure? <==> |characteristicNames| > data.Length1
      ensures r.Success? ==>
        r.value == TableOf(ColumnNames(componentName, characteristicNames), Contents(data), |characteristicNames|)
    {
      if |characteristicNames| > data.Length1 {
        return Failure(IndexOutOfRange(data.Length1, data.Length1));
      }
      var table := Table([], map[]);
      ghost var keys := ColumnNames(componentName, characteristicNames);
      for i := 0 to |characteristicNames|
        invariant table == TableOf(keys, Contents(data), i)
      {
        var column := seq(data.Length0, k requires 0 <= k < data.Length0 reads data => data[k, i]);
        assert column == Column(Contents(data), i);
        table := table.Put(ColumnName(componentName, characteristicNames[i]), column);
      }
      return Success(table);
    }
  }

  /** An insertion-ordered dictionary from column names to columns. */
  datatype Table = Table(keys: seq<string>, columns: map<string, seq<int>>) {
    function Put(k: string, v: seq<int>): Table {
      Table(if k in columns then keys else keys + [k], columns[k := v])
    }
  }

  function ColumnName(componentName: string, name: string): string {
    componentName + "_" + name
  }

  /** The name of every output column, in order. */
  function ColumnNames(componentName: string, names: seq<string>): (keys: seq<string>)
    ensures |keys| == |names|
    ensures forall i :: 0 <= i < |names| ==> keys[i] == ColumnName(componentName, names[i])
  {
    seq(|names|, i requires 0 <= i < |names| => ColumnName(componentName, names[i]))
  }

  /** The dictionary after the first `n` columns have been stored under their keys. */
  function TableOf(keys: seq<string>, m: Matrix, n: nat): Table
    requires n <= |keys|
    requires forall i :: 0 <= i < |m| ==> n <= |m[i]|
  {
    if n == 0 then Table([], map[])
    else TableOf(keys, m, n - 1).Put(keys[n - 1], Column(m, n - 1))
  }

  predicate Distinct(names: seq<string>) {
    forall i, j :: 0 <= i < j < |names| ==> names[i] != names[j]
  }

  lemma ColumnNameInjective(componentName: string, a: string, b: string)
    requires ColumnName(componentName, a) == ColumnName(componentName, b)
    ensures a == b
  {
    var p := componentName + "_";
    assert ColumnName(componentName, a)[|p|..] == a;
    assert ColumnName(componentName, b)[|p|..] == b;
  }

  /** Distinct characteristic names give distinct column names. */
  lemma ColumnNamesDistinct(componentName: string, names: seq<string>)
    requires Distinct(names)
    ensures Distinct(ColumnNames(componentName, names))
  {
    var keys := ColumnNames(componentName, names);
    forall i, j | 0 <= i < j < |keys| ensures keys[i] != keys[j] {
      if keys[i] == keys[j] {
        ColumnNameInjective(componentName, names[i], names[j]);
      }
    }
  }

  /** The table lists exactly the keys it holds a column for. */
  ghost predicate KeysListed(t: Table) {
    forall key :: key in t.columns <==> key in t.keys
  }

  lemma PutKeepsKeysListed(t: Table, k: string, v: seq<int>)
    requires KeysListed(t)
    ensures KeysListed(t.Put(k, v))
  {
  }

  lemma {:induction false} TableOfKeysListed(keys: seq<string>, m: Matrix, n: nat)
    requires n <= |keys|
    requires forall i :: 0 <= i < |m| ==> n <= |m[i]|
    ensures KeysListed(TableOf(keys, m, n))
  {
    if n > 0 {
      TableOfKeysListed(keys, m, n - 1);
      PutKeepsKeysListed(TableOf(keys, m, n - 1), keys[n - 1], Column(m, n - 1));
    }
  }

  /** With distinct keys, every key is new when it is stored, so the keys keep their order. */
  lemma {:induction false} TableOfKeys(keys: seq<string>, m: Matrix, n: nat)
    requires n <= |keys| && Distinct(keys)
    requires forall i :: 0 <= i < |m| ==> n <= |m[i]|
    ensures TableOf(keys, m, n).keys == keys[..n]
  {
    if n > 0 {
      TableOfKeys(keys, m, n - 1);
      TableOfKeysListed(keys, m, n - 1);
      var prev := TableOf(keys, m, n - 1);
      assert keys[n - 1] !in prev.keys;
      assert keys[..n] == keys[..n - 1] + [keys[n - 1]];
    }
  }

  /** With distinct keys, each key holds the matrix column at its position. */
  lemma {:induction false} TableOfColumns(keys: seq<string>, m: Matrix, n: nat)
    requires n <= |keys| && Distinct(keys)
    requires forall i :: 0 <= i < |m| ==> n <= |m[i]|
    ensures forall i :: 0 <= i < n ==>
      keys[i] in TableOf(keys, m, n).columns && TableOf(keys, m, n).columns[keys[i]] == Column(m, i)
  {
    if n > 0 {
      TableOfColumns(keys, m, n - 1);
      var prev := TableOf(keys, m, n - 1).columns;
      var t := TableOf(keys, m, n).columns;
      assert t == prev[keys[n - 1] := Column(m, n - 1)];
      forall i | 0 <= i < n ensures keys[i] in t && t[keys[i]] == Column(m, i) {
        if i < n - 1 {
          assert keys[i] != keys[n - 1];
        }
      }
    }
  }

  /**
    A component's table: with distinct characteristic names, one column
    per name, named `component_name`, in the order of the names, each the
    matching matrix column unchanged.
   */
  lemma OutputTable(componentName: string, names: seq<string>, m: Matrix)
    requires Distinct(names)
    requires forall i :: 0 <= i < |m| ==> |names| <= |m[i]|
    ensures var t := TableOf(ColumnNames(componentName, names), m, |names|);
      && |t.keys| == |names|
      && (forall i :: 0 <= i < |names| ==> t.keys[i] == ColumnName(componentName, names[i]))
      && KeysListed(t)
      && (forall i :: 0 <= i < |names| ==> t.columns[t.keys[i]] == Column(m, i) && |t.columns[t.keys[i]]| == |m|)
  {
    var keys := ColumnNames(componentName, names);
    ColumnNamesDistinct(componentName, names);
    TableOfKeysListed(keys, m, |names|);
    TableOfKeys(keys, m, |names|);
    TableOfColumns(keys, m, |names|);
    assert keys[..|names|] == keys;
  }
}
