/**
  Values of the 0/1 output matrices that the engine fills in place, and the
  row and column operations the evaluators use on them.
 */
module Matrices {

  /** A matrix as a sequence of rows. */
  type Matrix = seq<seq<int>>

  predicate HasShape(m: Matrix, rows: nat, cols: nat) {
    |m| == rows && forall i :: 0 <= i < |m| ==> |m[i]| == cols
  }

  /** Every cell is 0 or 1. */
  predicate IsBinary(m: Matrix) {
    forall i, j :: 0 <= i < |m| && 0 <= j < |m[i]| ==> m[i][j] == 0 || m[i][j] == 1
  }

  predicate IsBinaryColumn(col: seq<int>) {
    forall i :: 0 <= i < |col| ==> col[i] == 0 || col[i] == 1
  }

  function Bit(b: bool): int {
    if b then 1 else 0
  }

  /** The current value of a two-dimensional array. */
  function Contents(a: array2<int>): (m: Matrix)
    reads a
    ensures HasShape(m, a.Length0, a.Length1)
    ensures forall i, j :: 0 <= i < a.Length0 && 0 <= j < a.Length1 ==> m[i][j] == a[i, j]
  {
    seq(a.Length0, i requires 0 <= i < a.Length0 reads a =>
      seq(a.Length1, j requires 0 <= j < a.Length1 reads a => a[i, j]))
  }

  /** A freshly allocated matrix, as numpy.zeros gives it. */
  function Zeros(rows: nat, cols: nat): (m: Matrix)
    ensures HasShape(m, rows, cols) && IsBinary(m)
    ensures forall i, j :: 0 <= i < rows && 0 <= j < cols ==> m[i][j] == 0
  {
    seq(rows, _ => seq(cols, _ => 0))
  }

  /** Allocates a zero matrix, as numpy.zeros. */
  method NewZeros(rows: nat, cols: nat) returns (a: array2<int>)
    ensures fresh(a) && a.Length0 == rows && a.Length1 == cols
    ensures Contents(a) == Zeros(rows, cols)
  {
    a := new int[rows, cols]((_, _) => 0);
    ghost var zeros := Zeros(rows, cols);
    forall i | 0 <= i < rows ensures Contents(a)[i] == zeros[i] {
      forall j | 0 <= j < cols ensures Contents(a)[i][j] == zeros[i][j] {
      }
    }
    assert Contents(a) == zeros;
  }

  /** Column `j` of `m`, as `m[:, j]`. */
  function Column(m: Matrix, j: nat): (col: seq<int>)
    requires forall i :: 0 <= i < |m| ==> j < |m[i]|
    ensures |col| == |m|
    ensures forall i :: 0 <= i < |m| ==> col[i] == m[i][j]
  {
    seq(|m|, i requires 0 <= i < |m| => m[i][j])
  }

  /** `m` with column `j` replaced by `col`, as `m[:, j] = col`. */
  function SetColumn(m: Matrix, j: nat, col: seq<int>): (r: Matrix)
    requires forall i :: 0 <= i < |m| ==> j < |m[i]|
    requires |col| == |m|
    ensures |r| == |m|
    ensures forall i :: 0 <= i < |m| ==> |r[i]| == |m[i]| && r[i][j] == col[i]
    ensures forall i, k :: 0 <= i < |m| && 0 <= k < |m[i]| && k != j ==> r[i][k] == m[i][k]
  {
    seq(|m|, i requires 0 <= i < |m| => m[i][j := col[i]])
  }

  lemma SetColumnKeeps(m: Matrix, j: nat, col: seq<int>, k: nat)
    requires forall i :: 0 <= i < |m| ==> j < |m[i]| && k < |m[i]|
    requires |col| == |m| && k != j
    ensures Column(SetColumn(m, j, col), k) == Column(m, k)
  {
    var r := SetColumn(m, j, col);
    assert forall i :: 0 <= i < |m| ==> Column(r, k)[i] == r[i][k] == m[i][k];
  }

  lemma SetColumnWrites(m: Matrix, j: nat, col: seq<int>)
    requires forall i :: 0 <= i < |m| ==> j < |m[i]|
    requires |col| == |m|
    ensures Column(SetColumn(m, j, col), j) == col
  {
  }

  /** The row slice `row[:stop]`: numpy clips a stop beyond the row's end. */
  function RowSlice(row: seq<int>, stop: nat): (r: seq<int>)
    ensures |r| == if stop < |row| then stop else |row|
    ensures r <= row
  {
    row[..if stop < |row| then stop else |row|]
  }

  /** Row `i` of an array cut at `stop`, read directly from the array. */
  function ArrayRowSlice(a: array2<int>, i: nat, stop: nat): (r: seq<int>)
    requires i < a.Length0
    reads a
    ensures r == RowSlice(Contents(a)[i], stop)
  {
    var len := if stop < a.Length1 then stop else a.Length1;
    seq(len, j requires 0 <= j < len reads a => a[i, j])
  }

  /**
    For every row, whether its first `stop` cells equal `pattern` element by
    element (two sequences of different lengths are never equal).
   */
  function MatchBits(m: Matrix, stop: nat, pattern: seq<int>): (ms: seq<bool>)
    ensures |ms| == |m|
    ensures forall i :: 0 <= i < |m| ==> (ms[i] <==> RowSlice(m[i], stop) == pattern)
  {
    seq(|m|, i requires 0 <= i < |m| => RowSlice(m[i], stop) == pattern)
  }

  /**
    A pattern whose length is not that of the row slice matches no row, so
    a duration looking for it marks nothing.
   */
  lemma PatternLengthMismatch(m: Matrix, cols: nat, stop: nat, pattern: seq<int>)
    requires HasShape(m, |m|, cols)
    requires |pattern| != if stop < cols then stop else cols
    ensures forall i :: 0 <= i < |m| ==> !MatchBits(m, stop, pattern)[i]
  {
  }

  /** Writes `col` into column `j` of the array, as `a[:, j] = col`. */
  method WriteColumn(a: array2<int>, j: nat, col: seq<int>)
    requires j < a.Length1 && |col| == a.Length0
    modifies a
    ensures Contents(a) == SetColumn(old(Contents(a)), j, col)
  {
    ghost var before := Contents(a);
    forall r | 0 <= r < a.Length0 {
      a[r, j] := col[r];
    }
    ghost var after := Contents(a);
    ghost var expected := SetColumn(before, j, col);
    forall r | 0 <= r < a.Length0 ensures after[r] == expected[r] {
      forall k | 0 <= k < a.Length1 ensures after[r][k] == expected[r][k] {
        if k != j {
          assert expected[r][k] == before[r][k];
        }
      }
    }
  }
}
