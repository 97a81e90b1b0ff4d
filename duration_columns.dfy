/** The duration evaluator: runs of rows that match a pattern of earlier columns. */
module DurationColumns {
  import opened Results
  import opened Matrices
  import opened Characteristics

  /** The pattern a duration looks for: `order - 1` ones unless one is given. */
  function DurationPattern(rowPattern: Option<seq<int>>, order: nat): seq<int>
    requires order >= 1
  {
    if rowPattern.Some? then rowPattern.value else seq(order - 1, _ => 1)
  }

  /** The number of consecutive matching rows just before row i. */
  function Streak(ms: seq<bool>, i: nat): (n: nat)
    requires i <= |ms|
    ensures n <= i
    ensures forall k :: i - n <= k < i ==> ms[k]
    ensures n < i ==> !ms[i - n - 1]
  {
    if i == 0 || !ms[i - 1] then 0 else Streak(ms, i - 1) + 1
  }

  /** The first non-matching row at or after j, or |ms| when there is none. */
  function NextBreak(ms: seq<bool>, j: nat): (e: nat)
    requires j <= |ms|
    ensures j <= e <= |ms|
    ensures forall k :: j <= k < e ==> ms[k]
    ensures e < |ms| ==> !ms[e]
    decreases |ms| - j
  {
    if j == |ms| then |ms| else if !ms[j] then j else NextBreak(ms, j + 1)
  }

  /**
    The duration column, stated run by run: row j is marked exactly when it
    matches, the run of matching rows it belongs to is closed by a later
    non-matching row, and the length of that run compares to `nPeriods` by
    `op`. Non-matching rows and a run still open at the last row are never
    marked.
   */
  function DurationMarks(ms: seq<bool>, nPeriods: int, op: Comparator): (out: seq<int>)
    ensures |out| == |ms| && IsBinaryColumn(out)
    ensures forall j :: 0 <= j < |ms| ==> out[j] == MarkAt(ms, nPeriods, op, j)
  {
    seq(|ms|, j requires 0 <= j < |ms| => MarkAt(ms, nPeriods, op, j))
  }

  function MarkAt(ms: seq<bool>, nPeriods: int, op: Comparator, j: nat): int
    requires j < |ms|
  {
    var e := NextBreak(ms, j);
    Bit(ms[j] && e < |ms| && CompareInt(op, Streak(ms, e), nPeriods))
  }

  /** Every row of the streak that row i closes has row i as its next break. */
  lemma {:induction false} StreakClosedAt(ms: seq<bool>, i: nat, k: nat)
    requires i < |ms| && !ms[i]
    requires i - Streak(ms, i) <= k < i
    ensures ms[k] && NextBreak(ms, k) == i
    decreases i - k
  {
    if k + 1 < i {
      StreakClosedAt(ms, i, k + 1);
    }
  }

  /** The rows of the streak still open at the end have no next break. */
  lemma {:induction false} StreakOpenAtEnd(ms: seq<bool>, k: nat)
    requires |ms| - Streak(ms, |ms|) <= k < |ms|
    ensures NextBreak(ms, k) == |ms|
    decreases |ms| - k
  {
    if k + 1 < |ms| {
      StreakOpenAtEnd(ms, k + 1);
    }
  }

  /**
    A run of matching rows [s, e) closed by the non-matching row e is marked
    as a whole, or not at all, by comparing its length e - s to `nPeriods`;
    the closing row is never marked.
   */
  lemma DurationClosedRun(ms: seq<bool>, nPeriods: int, op: Comparator, s: nat, e: nat)
    requires s <= e < |ms| && !ms[e]
    requires s == 0 || !ms[s - 1]
    requires forall k :: s <= k < e ==> ms[k]
    ensures DurationMarks(ms, nPeriods, op)[e] == 0
    ensures forall k :: s <= k < e ==>
      DurationMarks(ms, nPeriods, op)[k] == Bit(CompareInt(op, e - s, nPeriods))
  {
    StreakRun(ms, s, e);
    forall k | s <= k < e ensures NextBreak(ms, k) == e {
      StreakClosedAt(ms, e, k);
    }
  }

  /** The streak before the end of a run is the run's length. */
  lemma {:induction false} StreakRun(ms: seq<bool>, s: nat, e: nat)
    requires s <= e <= |ms|
    requires s == 0 || !ms[s - 1]
    requires forall k :: s <= k < e ==> ms[k]
    ensures Streak(ms, e) == e - s
    decreases e - s
  {
    if e > s {
      StreakRun(ms, s, e - 1);
    }
  }

  /** A run that reaches the last row is never marked. */
  lemma DurationOpenRun(ms: seq<bool>, nPeriods: int, op: Comparator, s: nat)
    requires s <= |ms|
    requires forall k :: s <= k < |ms| ==> ms[k]
    ensures forall k :: s <= k < |ms| ==> DurationMarks(ms, nPeriods, op)[k] == 0
  {
    forall k | s <= k < |ms| ensures NextBreak(ms, k) == |ms| {
      NextBreakToEnd(ms, k);
    }
  }

  lemma {:induction false} NextBreakToEnd(ms: seq<bool>, k: nat)
    requires k <= |ms|
    requires forall j :: k <= j < |ms| ==> ms[j]
    ensures NextBreak(ms, k) == |ms|
    decreases |ms| - k
  {
    if k < |ms| {
      NextBreakToEnd(ms, k + 1);
    }
  }

  /**
    The worked example: an earlier column 1, 1, 1, 0, 1 matched against the
    pattern [1] with "> 2" marks the closed three-day run and not the open
    one-day run: 1, 1, 1, 0, 0.
   */
  lemma DurationExample()
    ensures DurationMarks([true, true, true, false, true], 2, Gt) == [1, 1, 1, 0, 0]
  {
    var ms := [true, true, true, false, true];
    DurationClosedRun(ms, 2, Gt, 0, 3);
    DurationOpenRun(ms, 2, Gt, 4);
  }

  function Repeat(v: int, n: nat): (r: seq<int>)
    ensures |r| == n && forall k :: 0 <= k < n ==> r[k] == v
  {
    if n == 0 then [] else Repeat(v, n - 1) + [v]
  }

  /** `s` with the cells lo .. hi - 1 set to 1, as `out[lo:hi] = 1`. */
  function Fill(s: seq<int>, lo: nat, hi: nat): (r: seq<int>)
    requires lo <= hi <= |s|
    ensures |r| == |s|
    ensures forall k :: 0 <= k < |s| ==> r[k] == if lo <= k < hi then 1 else s[k]
  {
    s[..lo] + Repeat(1, hi - lo) + s[hi..]
  }

  /**
    The column as the streak scan leaves it after rows 0 .. i - 1: a
    non-matching row whose preceding streak compares to `nPeriods` sets the
    cells of that streak to 1.
   */
  function ScanOutput(ms: seq<bool>, nPeriods: int, op: Comparator, i: nat): (out: seq<int>)
    requires i <= |ms|
    ensures |out| == |ms|
  {
    if i == 0 then Repeat(0, |ms|)
    else
      var prev := ScanOutput(ms, nPeriods, op, i - 1);
      var n := Streak(ms, i - 1);
      if !ms[i - 1] && CompareInt(op, n, nPeriods) then Fill(prev, i - 1 - n, i - 1) else prev
  }

  /**
    After rows 0 .. i - 1, the scan agrees with the run-by-run marks on
    every row before the streak still open, and has left the open streak
    and everything after it at 0.
   */
  lemma {:induction false} ScanOutputMarks(ms: seq<bool>, nPeriods: int, op: Comparator, i: nat)
    requires i <= |ms|
    ensures forall j :: 0 <= j < i - Streak(ms, i) ==>
      ScanOutput(ms, nPeriods, op, i)[j] == DurationMarks(ms, nPeriods, op)[j]
    ensures forall j :: i - Streak(ms, i) <= j < |ms| ==> ScanOutput(ms, nPeriods, op, i)[j] == 0
  {
    if i > 0 {
      ScanOutputMarks(ms, nPeriods, op, i - 1);
      if !ms[i - 1] {
        ScanStepAtBreak(ms, nPeriods, op, i - 1);
      } else {
        ScanStepInRun(ms, nPeriods, op, i - 1);
      }
    }
  }

  /** A matching row extends the open streak and changes nothing. */
  lemma ScanStepInRun(ms: seq<bool>, nPeriods: int, op: Comparator, i: nat)
    requires i < |ms| && ms[i]
    requires forall j :: 0 <= j < i - Streak(ms, i) ==>
      ScanOutput(ms, nPeriods, op, i)[j] == DurationMarks(ms, nPeriods, op)[j]
    requires forall j :: i - Streak(ms, i) <= j < |ms| ==> ScanOutput(ms, nPeriods, op, i)[j] == 0
    ensures var next := ScanOutput(ms, nPeriods, op, i + 1);
      && (forall j :: 0 <= j < i + 1 - Streak(ms, i + 1) ==> next[j] == DurationMarks(ms, nPeriods, op)[j])
      && (forall j :: i + 1 - Streak(ms, i + 1) <= j < |ms| ==> next[j] == 0)
  {
    assert Streak(ms, i + 1) == Streak(ms, i) + 1;
    assert ScanOutput(ms, nPeriods, op, i + 1) == ScanOutput(ms, nPeriods, op, i);
  }

  /** A non-matching row settles the streak it closes, and itself. */
  lemma ScanStepAtBreak(ms: seq<bool>, nPeriods: int, op: Comparator, i: nat)
    requires i < |ms| && !ms[i]
    requires forall j :: 0 <= j < i - Streak(ms, i) ==>
      ScanOutput(ms, nPeriods, op, i)[j] == DurationMarks(ms, nPeriods, op)[j]
    requires forall j :: i - Streak(ms, i) <= j < |ms| ==> ScanOutput(ms, nPeriods, op, i)[j] == 0
    ensures var next := ScanOutput(ms, nPeriods, op, i + 1);
      && (forall j :: 0 <= j <= i ==> next[j] == DurationMarks(ms, nPeriods, op)[j])
      && (forall j :: i < j < |ms| ==> next[j] == 0)
  {
    var n := Streak(ms, i);
    var prev := ScanOutput(ms, nPeriods, op, i);
    var next := ScanOutput(ms, nPeriods, op, i + 1);
    var marks := DurationMarks(ms, nPeriods, op);
    var closes := CompareInt(op, n, nPeriods);
    assert next == if closes then Fill(prev, i - n, i) else prev;
    DurationClosedRun(ms, nPeriods, op, i - n, i);
    forall j | 0 <= j < |ms| ensures next[j] == if j <= i then marks[j] else 0 {
      if j < i - n {
        assert next[j] == prev[j];
      } else if j < i {
        assert marks[j] == Bit(closes);
      } else {
        assert next[j] == prev[j] == 0;
      }
    }
  }

  /** The whole scan computes the run-by-run marks. */
  lemma ScanOutputIsMarks(ms: seq<bool>, nPeriods: int, op: Comparator)
    ensures ScanOutput(ms, nPeriods, op, |ms|) == DurationMarks(ms, nPeriods, op)
  {
    ScanOutputMarks(ms, nPeriods, op, |ms|);
    DurationOpenRun(ms, nPeriods, op, |ms| - Streak(ms, |ms|));
  }

  /**
    The streak scan: count consecutive matching rows and, at each
    non-matching row, mark the rows of the streak it closes when its length
    compares to `nPeriods`, then restart the count.
   */
  method ScanStreaks(ms: seq<bool>, nPeriods: int, op: Comparator) returns (col: seq<int>)
    ensures col == DurationMarks(ms, nPeriods, op)
  {
    var rows := |ms|;
    var out := new int[rows](_ => 0);
    var n := 0;
    for i := 0 to rows
      invariant n == Streak(ms, i)
      invariant out[..] == ScanOutput(ms, nPeriods, op, i)
    {
      if ms[i] {
        n := n + 1;
      } else {
        if CompareInt(op, n, nPeriods) {
          forall k | i - n <= k < i {
            out[k] := 1;
          }
        }
        n := 0;
      }
    }
    ScanOutputIsMarks(ms, nPeriods, op);
    col := out[..];
  }

  /**
    The duration evaluator: which rows carry the pattern in their first
    `order - 1` cells, then the streak scan over them. The match of a row
    does not depend on the scan, so it is computed for all rows first.
   */
  method EvaluateDuration(nPeriods: int, rowPattern: Option<seq<int>>, op: Comparator,
                          outputs: array2<int>, order: nat) returns (col: seq<int>)
    requires order >= 1
    ensures col == DurationMarks(
      MatchBits(Contents(outputs), order - 1, DurationPattern(rowPattern, order)), nPeriods, op)
  {
    var matches := MatchBits(Contents(outputs), order - 1, DurationPattern(rowPattern, order));
    col := ScanStreaks(matches, nPeriods, op);
  }
}
