/** Where a highlight-moving key takes the highlight in the scrolled grid
    (`getNeighborCandidate`), given the cells' boxes and the row map. */
module ScrollNav {
  import opened Dom
  import opened ScrollRows

  // SCROLL_MOVE_HIGHLIGHT
  const UP := 10
  const DOWN := 11
  const LEFT := 12
  const RIGHT := 13
  const HOME := 14
  const END := 15
  const PAGE_UP := 16
  const PAGE_DOWN := 17

  /** A row map that fits the cells: at least one row, none empty, and together
      exactly the cells. */
  predicate Grid(cells: seq<Cell>, rows: seq<int>)
  {
    |rows| >= 1 && RowsValid(rows) && Sum(rows) == |cells|
  }

  /** Cell `i` lies in row `r`. */
  predicate InRowRange(rows: seq<int>, r: int, i: int)
    requires 0 <= r < |rows|
  {
    Prefix(rows, r) <= i < Prefix(rows, r) + rows[r]
  }

  /** The loop of `helper`: from cell `i` to `last`, skip cells wholly left of
      `left`; at the first other one, keep it if its right edge passes the middle
      of [left, right] or it overlaps more than it sticks out, else take the next. */
  function ScanRow(cells: seq<Cell>, i: int, last: int, left: int, right: int): (r: int)
    requires 0 <= i <= last < |cells|
    ensures i <= r <= last
    decreases last - i
  {
    if i >= last then last
    else
      var rc := cells[i].rect;
      if rc.right <= left then ScanRow(cells, i + 1, last, left, right)
      // `rect.right > mid` with `mid = (left + right) / 2`, kept exact
      else if 2 * rc.right > left + right || rc.right - left > left - rc.left then i
      else i + 1
  }

  /** `helper(row)`: the cell of `row` below or above a box spanning
      [left, right], or -1 when `row` is outside the grid. */
  function RowNeighbor(cells: seq<Cell>, rows: seq<int>, row: int, left: int, right: int): (r: int)
    requires Grid(cells, rows)
    requires -1 <= row <= |rows|
    ensures r == -1 <==> row < 0 || row == |rows|
    ensures r != -1 ==> 0 <= row < |rows| && InRowRange(rows, row, r) && 0 <= r < |cells|
  {
    if row < 0 || row == |rows| then -1
    else
      RowEndInside(rows, row);
      var skipped := Prefix(rows, row);
      ScanRow(cells, skipped, skipped + rows[row] - 1, left, right)
  }

  /** One step up or down from cell `x`. */
  function Vertical(cells: seq<Cell>, rows: seq<int>, x: int, d: int): (r: int)
    requires Grid(cells, rows) && 0 <= x < |cells|
    requires d == UP || d == DOWN
    ensures r == -1 || 0 <= r < |cells|
  {
    var row := RowOf(rows, x);
    var rc := cells[x].rect;
    RowNeighbor(cells, rows, if d == UP then row - 1 else row + 1, rc.left, rc.right)
  }

  /** At most `k` vertical steps from `x`, stopping at the first that fails. */
  function Walk(cells: seq<Cell>, rows: seq<int>, x: int, d: int, k: nat): (r: int)
    requires Grid(cells, rows) && 0 <= x < |cells|
    requires d == UP || d == DOWN
    ensures 0 <= r < |cells|
    decreases k
  {
    if k == 0 then x
    else
      var y := Vertical(cells, rows, x, d);
      if y < 0 then x else Walk(cells, rows, y, d, k - 1)
  }

  /** The `getNeighborCandidate(index, direction)` result: a cell index, or a
      value outside [0, |cells|) when there is nowhere to go. A page move walks
      `maxRow - 1` rows, since the do-while's last lookup is discarded. */
  function Neighbor(cells: seq<Cell>, rows: seq<int>, maxRow: int, x: int, d: int): (r: int)
    requires Grid(cells, rows) && 0 <= x < |cells|
    requires UP <= d <= PAGE_DOWN
    requires maxRow >= 1
    ensures -1 <= r < |cells|
  {
    var row := RowOf(rows, x);
    ItemCountPastEnd(rows, |rows| + 1);
    RowEndInside(rows, row);
    if d == UP || d == DOWN then Vertical(cells, rows, x, d)
    else if d == LEFT then x - 1
    else if d == RIGHT then (if x + 1 < ItemCountInFirstNRows(rows, |rows| + 1) then x + 1 else -1)
    else if d == HOME then ItemCountInFirstNRows(rows, row)
    else if d == END then ItemCountInFirstNRows(rows, row) + rows[row] - 1
    else
      var w := Walk(cells, rows, x, if d == PAGE_UP then UP else DOWN, maxRow - 1);
      if w == x then -1 else w
  }

  /** A vertical step lands in the row just above or below, and fails exactly
      when there is no such row. */
  lemma VerticalRow(cells: seq<Cell>, rows: seq<int>, x: int, d: int)
    requires Grid(cells, rows) && 0 <= x < |cells|
    requires d == UP || d == DOWN
    ensures var t := if d == UP then RowOf(rows, x) - 1 else RowOf(rows, x) + 1;
      var r := Vertical(cells, rows, x, d);
      (r == -1 <==> t < 0 || t >= |rows|) && (r >= 0 ==> RowOf(rows, r) == t)
  {
    var r := Vertical(cells, rows, x, d);
    var t := if d == UP then RowOf(rows, x) - 1 else RowOf(rows, x) + 1;
    if r >= 0 {
      RowOfUnique(rows, r, t);
    }
  }

  /** Walking up `k` rows ends `k` rows higher, or in the top row; walking down
      ends `k` rows lower, or in the bottom row. */
  lemma {:induction false} WalkRow(cells: seq<Cell>, rows: seq<int>, x: int, d: int, k: nat)
    requires Grid(cells, rows) && 0 <= x < |cells|
    requires d == UP || d == DOWN
    ensures var row := RowOf(rows, x);
      var w := Walk(cells, rows, x, d, k);
      RowOf(rows, w) == (if d == UP then (if row - k < 0 then 0 else row - k)
                         else (if row + k > |rows| - 1 then |rows| - 1 else row + k))
    decreases k
  {
    if k > 0 {
      VerticalRow(cells, rows, x, d);
      var y := Vertical(cells, rows, x, d);
      if y >= 0 {
        WalkRow(cells, rows, y, d, k - 1);
      }
    }
  }

  /** With at least two rows per page, a page move fails exactly when the
      highlight is already in the top (page up) or bottom (page down) row, and
      otherwise moves `maxRow - 1` rows, or as far as the grid allows. */
  lemma PageMove(cells: seq<Cell>, rows: seq<int>, maxRow: int, x: int, d: int)
    requires Grid(cells, rows) && 0 <= x < |cells|
    requires d == PAGE_UP || d == PAGE_DOWN
    requires maxRow >= 2
    ensures var row := RowOf(rows, x);
      var r := Neighbor(cells, rows, maxRow, x, d);
      (r == -1 <==> (if d == PAGE_UP then row == 0 else row == |rows| - 1))
      && (r != -1 ==>
            (0 <= r < |cells| && RowOf(rows, r) ==
              (if d == PAGE_UP then (if row - (maxRow - 1) < 0 then 0 else row - (maxRow - 1))
               else (if row + (maxRow - 1) > |rows| - 1 then |rows| - 1 else row + (maxRow - 1)))))
  {
    var v := if d == PAGE_UP then UP else DOWN;
    WalkRow(cells, rows, x, v, maxRow - 1);
  }

  /** Home and end give the first and last cell of the highlight's row. */
  lemma HomeEnd(cells: seq<Cell>, rows: seq<int>, maxRow: int, x: int)
    requires Grid(cells, rows) && 0 <= x < |cells|
    requires maxRow >= 1
    ensures var row := RowOf(rows, x);
      var h := Neighbor(cells, rows, maxRow, x, HOME);
      var e := Neighbor(cells, rows, maxRow, x, END);
      0 <= h <= x <= e < |cells| && RowOf(rows, h) == row && RowOf(rows, e) == row
      && (h > 0 ==> RowOf(rows, h - 1) == row - 1)
      && (e < |cells| - 1 ==> RowOf(rows, e + 1) == row + 1)
  {
    var row := RowOf(rows, x);
    RowOfContains(rows, x);
    RowEndInside(rows, row);
    var h := Prefix(rows, row);
    var e := h + rows[row] - 1;
    RowOfUnique(rows, h, row);
    RowOfUnique(rows, e, row);
    if h > 0 {
      RowEndInside(rows, row - 1);
      PrefixStep(rows, row - 1);
      RowOfUnique(rows, h - 1, row - 1);
    }
    if e < |cells| - 1 {
      PrefixStep(rows, row);
      if row + 1 == |rows| {
        PrefixAll(rows);
      }
      RowEndInside(rows, row + 1);
      RowOfUnique(rows, e + 1, row + 1);
    }
  }

  /** Left and right step through the cells in order: left from the first cell
      and right from the last give no cell, and right undoes left. */
  lemma LeftRight(cells: seq<Cell>, rows: seq<int>, maxRow: int, x: int)
    requires Grid(cells, rows) && 0 <= x < |cells|
    requires maxRow >= 1
    ensures Neighbor(cells, rows, maxRow, x, LEFT) == x - 1
    ensures Neighbor(cells, rows, maxRow, x, RIGHT) == (if x + 1 < |cells| then x + 1 else -1)
    ensures x >= 1 ==> Neighbor(cells, rows, maxRow, x - 1, RIGHT) == x
  {
    ItemCountPastEnd(rows, |rows| + 1);
  }
}
