/** The arithmetic of the scroll engine's row map (`rowItemCount`): one cell count
    per visual row, the prefix sums over it, and the row that holds a cell index. */
module ScrollRows {

  /** `counts.reduce((sum, count) => sum + count, 0)` */
  function Sum(s: seq<int>): int
  {
    if |s| == 0 then 0 else Sum(s[..|s| - 1]) + s[|s| - 1]
  }

  /** The number of cells in the rows before row `r`. */
  function Prefix(rows: seq<int>, r: int): int
    requires 0 <= r <= |rows|
  {
    Sum(rows[..r])
  }

  /** Where `Array.prototype.slice(0, n)` stops on a list of length `len`: a
      negative `n` counts from the end. */
  function SliceEnd(len: nat, n: int): (e: nat)
    ensures e <= len
    ensures 0 <= n <= len ==> e == n
    ensures n >= len ==> e == len
  {
    if n < 0 then (if len + n < 0 then 0 else len + n) else if n > len then len else n
  }

  /** `itemCountInFirstNRows(n)`: the number of cells in the first `n` rows. */
  function ItemCountInFirstNRows(rows: seq<int>, n: int): int
  {
    Prefix(rows, SliceEnd(|rows|, n))
  }

  /** Every row of a row map holds at least one cell. */
  predicate RowsValid(rows: seq<int>)
  {
    forall r :: 0 <= r < |rows| ==> rows[r] >= 1
  }

  lemma PrefixStep(rows: seq<int>, r: int)
    requires 0 <= r < |rows|
    ensures Prefix(rows, r + 1) == Prefix(rows, r) + rows[r]
  {
    assert rows[..r + 1][..r] == rows[..r];
  }

  lemma PrefixAll(rows: seq<int>)
    ensures Prefix(rows, |rows|) == Sum(rows)
  {
    assert rows[..|rows|] == rows;
  }

  /** Prefix sums of a valid row map grow by at least one per row. */
  lemma {:induction false} PrefixMono(rows: seq<int>, a: int, b: int)
    requires RowsValid(rows)
    requires 0 <= a <= b <= |rows|
    ensures Prefix(rows, a) + (b - a) <= Prefix(rows, b)
    decreases b - a
  {
    if a < b {
      PrefixMono(rows, a, b - 1);
      PrefixStep(rows, b - 1);
    }
  }

  /** The last cell of row `r` is still a cell of the grid. */
  lemma RowEndInside(rows: seq<int>, r: int)
    requires RowsValid(rows)
    requires 0 <= r < |rows|
    ensures 0 <= Prefix(rows, r) && Prefix(rows, r) + rows[r] <= Sum(rows)
  {
    PrefixMono(rows, 0, r);
    PrefixStep(rows, r);
    PrefixMono(rows, r + 1, |rows|);
    PrefixAll(rows);
  }

  /** Asking for at least as many rows as there are gives the whole cell count. */
  lemma ItemCountPastEnd(rows: seq<int>, n: int)
    requires n >= |rows|
    ensures ItemCountInFirstNRows(rows, n) == Sum(rows)
  {
    PrefixAll(rows);
  }

  /** The loop of `getRowOf`, from row `i` on with `skipped` cells before it. */
  function RowFrom(rows: seq<int>, index: int, i: int, skipped: int): (r: int)
    requires 0 <= i < |rows|
    ensures i <= r < |rows|
    decreases |rows| - i
  {
    if i == |rows| - 1 then i
    else if index < skipped + rows[i] then i
    else RowFrom(rows, index, i + 1, skipped + rows[i])
  }

  /** `getRowOf(index)`: -1 for an empty row map. */
  function RowOf(rows: seq<int>, index: int): (r: int)
    ensures |rows| == 0 ==> r == -1
    ensures |rows| > 0 ==> 0 <= r < |rows|
  {
    if |rows| == 0 then -1 else RowFrom(rows, index, 0, 0)
  }

  lemma {:induction false} RowFromSpec(rows: seq<int>, index: int, i: int)
    requires 0 <= i < |rows|
    ensures var r := RowFrom(rows, index, i, Prefix(rows, i));
      (r < |rows| - 1 ==> index < Prefix(rows, r + 1))
      && (r > i ==> Prefix(rows, r) <= index)
    decreases |rows| - i
  {
    PrefixStep(rows, i);
    if i < |rows| - 1 && index >= Prefix(rows, i) + rows[i] {
      RowFromSpec(rows, index, i + 1);
    }
  }

  /** `getRowOf` returns the first row whose end lies past `index`, or the last
      row when there is none. */
  lemma RowOfBounds(rows: seq<int>, index: int)
    requires |rows| > 0
    ensures var r := RowOf(rows, index);
      (r < |rows| - 1 ==> index < Prefix(rows, r + 1)) && (r > 0 ==> Prefix(rows, r) <= index)
  {
    RowFromSpec(rows, index, 0);
  }

  /** For an index inside the grid, `getRowOf` gives the row that contains it. */
  lemma RowOfContains(rows: seq<int>, index: int)
    requires |rows| > 0 && RowsValid(rows)
    requires 0 <= index < Sum(rows)
    ensures var r := RowOf(rows, index);
      Prefix(rows, r) <= index < Prefix(rows, r) + rows[r]
  {
    var r := RowOf(rows, index);
    RowOfBounds(rows, index);
    PrefixStep(rows, r);
    PrefixAll(rows);
  }

  /** ... and it is the only such row. */
  lemma RowOfUnique(rows: seq<int>, index: int, q: int)
    requires |rows| > 0 && RowsValid(rows)
    requires 0 <= q < |rows|
    requires Prefix(rows, q) <= index < Prefix(rows, q) + rows[q]
    ensures RowOf(rows, index) == q
  {
    var r := RowOf(rows, index);
    RowOfBounds(rows, index);
    PrefixStep(rows, q);
    PrefixStep(rows, r);
    if q < r {
      PrefixMono(rows, q + 1, r);
    } else if r < q {
      PrefixMono(rows, r + 1, q);
    }
  }

  /** Indices past the last cell map to the last row. */
  lemma RowOfPastEnd(rows: seq<int>, index: int)
    requires |rows| > 0 && RowsValid(rows)
    requires index >= Sum(rows)
    ensures RowOf(rows, index) == |rows| - 1
  {
    var r := RowOf(rows, index);
    RowOfBounds(rows, index);
    if r < |rows| - 1 {
      PrefixMono(rows, r + 1, |rows|);
      PrefixAll(rows);
    }
  }

  /** The row map `recalculateScroll` builds from the cells' vertical positions:
      a new row starts wherever a cell's `y` differs from the previous cell's. */
  function RunLengths(ys: seq<int>): (rows: seq<int>)
    requires |ys| >= 1
    ensures |rows| >= 1
  {
    if |ys| == 1 then [1]
    else
      var r := RunLengths(ys[..|ys| - 1]);
      if ys[|ys| - 1] == ys[|ys| - 2] then r[..|r| - 1] + [r[|r| - 1] + 1]
      else r + [1]
  }

  /** The variables of the loop that builds the row map: the counts of the
      finished rows, the count of the current row and its `y`. */
  datatype RowScan = RowScan(rows: seq<int>, count: int, y: int)

  /** One turn of that loop for a cell at `y`. */
  function ScanStep(s: RowScan, y: int): RowScan
  {
    if y == s.y then s.(count := s.count + 1) else RowScan(s.rows + [s.count], 1, y)
  }

  /** The loop's variables after the first `i` cells. */
  function Scan(ys: seq<int>, i: nat): RowScan
    requires 1 <= |ys| && i <= |ys|
  {
    if i == 0 then RowScan([], 0, ys[0]) else ScanStep(Scan(ys, i - 1), ys[i - 1])
  }

  /** After at least one cell the loop's rows, with the current one closed,
      are the row map of the cells so far. */
  lemma {:induction false} ScanIsRunLengths(ys: seq<int>, i: nat)
    requires 1 <= i <= |ys|
    ensures Scan(ys, i).rows + [Scan(ys, i).count] == RunLengths(ys[..i])
    ensures Scan(ys, i).y == ys[i - 1]
  {
    if i == 1 {
      assert Scan(ys, 0) == RowScan([], 0, ys[0]);
    } else {
      ScanIsRunLengths(ys, i - 1);
      ScanStepLengths(ys, i, Scan(ys, i - 1));
    }
  }

  /** The loop over all the cells builds the row map. */
  lemma ScanAll(ys: seq<int>, s: RowScan)
    requires 1 <= |ys| && s == Scan(ys, |ys|)
    ensures s.rows + [s.count] == RunLengths(ys)
  {
    ScanIsRunLengths(ys, |ys|);
    assert ys[..|ys|] == ys;
  }

  lemma ScanStepLengths(ys: seq<int>, i: nat, s: RowScan)
    requires 2 <= i <= |ys|
    requires s.rows + [s.count] == RunLengths(ys[..i - 1]) && s.y == ys[i - 2]
    ensures ScanStep(s, ys[i - 1]).rows + [ScanStep(s, ys[i - 1]).count] == RunLengths(ys[..i])
  {
    var r := s.rows + [s.count];
    assert ys[..i][..i - 1] == ys[..i - 1];
    assert r[..|r| - 1] == s.rows;
  }

  /** Row `r` of `rows` is a run of cells with equal `y`. */
  predicate RowIsRun(ys: seq<int>, rows: seq<int>, r: int)
    requires 0 <= r < |rows|
  {
    var p := Prefix(rows, r);
    0 <= p && p + rows[r] <= |ys| && forall i :: p <= i < p + rows[r] ==> ys[i] == ys[p]
  }

  /** Row `r` starts where `y` changes. */
  predicate RowStartsNewY(ys: seq<int>, rows: seq<int>, r: int)
    requires 0 <= r < |rows|
  {
    var p := Prefix(rows, r);
    0 < p <= |ys| ==> (p < |ys| && ys[p] != ys[p - 1])
  }

  /** `rows` partitions the cells into maximal runs of consecutive equal `y`. */
  predicate IsRunPartition(ys: seq<int>, rows: seq<int>)
  {
    RowsValid(rows) && Sum(rows) == |ys|
    && (forall r :: 0 <= r < |rows| ==> RowIsRun(ys, rows, r))
    && (forall r :: 0 < r < |rows| ==> RowStartsNewY(ys, rows, r))
  }

  lemma PrefixOfExtended(rows: seq<int>, x: int, r: int)
    requires 0 <= r <= |rows|
    ensures Prefix(rows + [x], r) == Prefix(rows, r)
  {
    assert (rows + [x])[..r] == rows[..r];
  }

  lemma PrefixOfBumped(rows: seq<int>, r: int)
    requires |rows| >= 1
    requires 0 <= r < |rows|
    ensures Prefix(rows[..|rows| - 1] + [rows[|rows| - 1] + 1], r) == Prefix(rows, r)
  {
    var m := |rows| - 1;
    assert (rows[..m] + [rows[m] + 1])[..r] == rows[..r];
  }

  lemma SumBumped(rows: seq<int>)
    requires |rows| >= 1
    ensures Sum(rows[..|rows| - 1] + [rows[|rows| - 1] + 1]) == Sum(rows) + 1
  {
    var m := |rows| - 1;
    var b := rows[..m] + [rows[m] + 1];
    assert b[..m] == rows[..m];
  }

  /** Extending a partition of `ys'` by one cell with the same `y` as the last. */
  lemma ExtendRunSame(ys': seq<int>, y: int, r: seq<int>)
    requires |ys'| >= 1 && y == ys'[|ys'| - 1]
    requires IsRunPartition(ys', r) && |r| >= 1
    ensures IsRunPartition(ys' + [y], r[..|r| - 1] + [r[|r| - 1] + 1])
  {
    var ys := ys' + [y];
    var m := |r| - 1;
    var rows := r[..m] + [r[m] + 1];
    SumBumped(r);
    forall q | 0 <= q < |rows|
      ensures Prefix(rows, q) == Prefix(r, q)
    {
      PrefixOfBumped(r, q);
    }
    forall q | 0 <= q < |rows|
      ensures RowIsRun(ys, rows, q)
    {
      assert RowIsRun(ys', r, q);
      if q == m {
        PrefixStep(r, m);
        PrefixAll(r);
      }
    }
    forall q | 0 < q < |rows|
      ensures RowStartsNewY(ys, rows, q)
    {
      assert RowStartsNewY(ys', r, q);
      RowEndInside(r, q);
    }
  }

  /** Extending a partition of `ys'` by one cell whose `y` differs from the last. */
  lemma ExtendRunNew(ys': seq<int>, y: int, r: seq<int>)
    requires |ys'| >= 1 && y != ys'[|ys'| - 1]
    requires IsRunPartition(ys', r)
    ensures IsRunPartition(ys' + [y], r + [1])
  {
    var ys := ys' + [y];
    var rows := r + [1];
    assert rows[..|r|] == r;
    PrefixAll(r);
    PrefixStep(rows, |r|);
    PrefixAll(rows);
    forall q | 0 <= q < |rows|
      ensures Prefix(rows, q) == Prefix(r, q)
    {
      PrefixOfExtended(r, 1, q);
    }
    forall q | 0 <= q < |rows|
      ensures RowIsRun(ys, rows, q)
    {
      if q < |r| {
        assert RowIsRun(ys', r, q);
      }
    }
    forall q | 0 < q < |rows|
      ensures RowStartsNewY(ys, rows, q)
    {
      if q < |r| {
        assert RowStartsNewY(ys', r, q);
        RowEndInside(r, q);
      }
    }
  }

  /** The row map built by `recalculateScroll` has rows of at least one cell that
      sum to the number of cells, and each row is a maximal run of equal `y`. */
  lemma {:induction false} RunLengthsPartition(ys: seq<int>)
    requires |ys| >= 1
    ensures IsRunPartition(ys, RunLengths(ys))
    decreases |ys|
  {
    if |ys| == 1 {
      SingleRun(ys);
    } else {
      var n := |ys|;
      var ys' := ys[..n - 1];
      RunLengthsPartition(ys');
      ExtendRun(ys', ys[n - 1], RunLengths(ys'), ys, RunLengths(ys));
    }
  }

  /** The step of `RunLengths`: one more cell either lengthens the last row or
      starts a new one. */
  lemma ExtendRun(ys': seq<int>, y: int, r: seq<int>, ys: seq<int>, rows: seq<int>)
    requires |ys'| >= 1 && ys == ys' + [y]
    requires IsRunPartition(ys', r) && |r| >= 1
    requires rows == if y == ys'[|ys'| - 1] then r[..|r| - 1] + [r[|r| - 1] + 1] else r + [1]
    ensures IsRunPartition(ys, rows)
  {
    if y == ys'[|ys'| - 1] {
      ExtendRunSame(ys', y, r);
    } else {
      ExtendRunNew(ys', y, r);
    }
  }

  /** A single cell is a single row. */
  lemma SingleRun(ys: seq<int>)
    requires |ys| == 1
    ensures IsRunPartition(ys, [1])
  {
    var rows := [1];
    assert Prefix(rows, 0) == 0;
    assert Sum(rows) == Sum([]) + 1;
  }
}
