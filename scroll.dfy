/** The scroll engine (page/scroll.ts): the row map of a scrolled candidate grid,
    the highlighted row and its 1-based labels, keyboard navigation, keeping the
    highlight in view, and prefetching more candidates with a one-request lock. */
module Scroll {
  import opened Wrappers
  import opened Dom
  import opened ScrollRows
  import opened ScrollNav
  import Text

  // SCROLL_STATE
  const SCROLL_NONE := 0
  const SCROLL_READY := 1
  const SCROLLING := 2

  type Positive = x: int | x >= 1 witness 1

  /** The `y` of every cell, in order. */
  function Tops(cells: seq<Cell>): (ys: seq<int>)
    ensures |ys| == |cells|
    ensures forall i :: 0 <= i < |cells| ==> ys[i] == cells[i].rect.top
  {
    seq(|cells|, i requires 0 <= i < |cells| => cells[i].rect.top)
  }

  /** Cells with the same boxes have the same row map. */
  lemma TopsOfSameRects(a: seq<Cell>, b: seq<Cell>)
    requires |a| == |b|
    requires forall i :: 0 <= i < |a| ==> a[i].rect == b[i].rect
    ensures Tops(a) == Tops(b)
  {
  }

  /** The label the renderer gives the `k`-th cell (from 0) of the highlighted row. */
  function RankLabel(k: int): string
  {
    Text.DecimalString(k + 1)
  }

  /** The first loop's effect on a cell of the old highlighted row. */
  function ClearedCell(c: Cell, inOldRow: bool): Cell
  {
    if inOldRow then c.(inRow := false, labelText := Some("0")) else c
  }

  /** The second loop's effect on the cell of rank `rank` in the new row. */
  function MarkedCell(c: Cell, inNewRow: bool, rank: int): Cell
  {
    if inNewRow then c.(inRow := true, labelText := Some(RankLabel(rank))) else c
  }

  function WithHighlight(c: Cell, change: bool, value: bool): Cell
  {
    if change then c.(highlighted := value) else c
  }

  /** Cell `i` after `renderHighlightAndLabels(newH, clearOld)` with the row map
      `rows` and the previous highlight `oldH`: with `clearOld` the old row loses
      `highlighted-row` and its labels become "0" and the old cell loses
      `highlighted`; then the new row gets `highlighted-row` and labels 1, 2, ...
      and the new cell gets `highlighted`. */
  function RenderedCell(c: Cell, i: int, rows: seq<int>, oldH: int, newH: int, clearOld: bool): Cell
    requires |rows| >= 1
  {
    var nrow := RowOf(rows, newH);
    Painted(c, clearOld && InRowRange(rows, RowOf(rows, oldH), i), clearOld && i == oldH,
      InRowRange(rows, nrow, i), i - Prefix(rows, nrow), i == newH)
  }

  /** The net effect of the four changes of `RenderedCell`: only the row mark,
      the label and the highlight can change, and a later change wins. */
  function Painted(c: Cell, clearRow: bool, clearCell: bool, markRow: bool, rank: int, markCell: bool): Cell
  {
    c.(inRow := if markRow then true else if clearRow then false else c.inRow,
       labelText := if markRow then Some(RankLabel(rank)) else if clearRow then Some("0") else c.labelText,
       highlighted := if markCell then true else if clearCell then false else c.highlighted)
  }

  /** `Painted` is the four changes applied one after the other. */
  lemma PaintedSteps(c: Cell, clearRow: bool, clearCell: bool, markRow: bool, rank: int, markCell: bool)
    ensures Painted(c, clearRow, clearCell, markRow, rank, markCell)
      == WithHighlight(MarkedCell(WithHighlight(ClearedCell(c, clearRow), clearCell, false), markRow, rank), markCell, true)
  {
  }

  /** A cell as the two loops of `renderHighlightAndLabels` and the two
      highlight changes leave it is the rendered cell. */
  lemma RenderedByLoops(c0: Cell, c2: Cell, c3: Cell, c4: Cell, i: int, rows: seq<int>, oldH: int, newH: int, clearOld: bool)
    requires |rows| >= 1
    requires c2 == WithHighlight(ClearedCell(c0, clearOld && InRowRange(rows, RowOf(rows, oldH), i)), clearOld && i == oldH, false)
    requires c3 == MarkedCell(c2, InRowRange(rows, RowOf(rows, newH), i), i - Prefix(rows, RowOf(rows, newH)))
    requires c4 == WithHighlight(c3, i == newH, true)
    ensures c4 == RenderedCell(c0, i, rows, oldH, newH, clearOld)
  {
    PaintedSteps(c0, clearOld && InRowRange(rows, RowOf(rows, oldH), i), clearOld && i == oldH,
      InRowRange(rows, RowOf(rows, newH), i), i - Prefix(rows, RowOf(rows, newH)), i == newH);
  }

  /** The cells as the two loops of `renderHighlightAndLabels` and the two
      highlight changes leave them are the rendered cells. */
  lemma LoopsRender(c0: seq<Cell>, c2: seq<Cell>, c3: seq<Cell>, c4: seq<Cell>, rows: seq<int>, oldH: int, newH: int, clearOld: bool)
    requires |rows| >= 1 && |c2| == |c0| && |c3| == |c0| && |c4| == |c0|
    requires forall k :: 0 <= k < |c0| ==>
      c2[k] == WithHighlight(ClearedCell(c0[k], clearOld && InRowRange(rows, RowOf(rows, oldH), k)), clearOld && k == oldH, false)
    requires forall k :: 0 <= k < |c0| ==>
      c3[k] == MarkedCell(c2[k], InRowRange(rows, RowOf(rows, newH), k), k - Prefix(rows, RowOf(rows, newH)))
    requires forall k :: 0 <= k < |c0| ==> c4[k] == WithHighlight(c3[k], k == newH, true)
    ensures HighlightRendered(c0, c4, rows, oldH, newH, clearOld)
  {
    forall k | 0 <= k < |c0|
      ensures c4[k] == RenderedCell(c0[k], k, rows, oldH, newH, clearOld)
    {
      RenderedByLoops(c0[k], c2[k], c3[k], c4[k], k, rows, oldH, newH, clearOld);
    }
  }

  ghost predicate HighlightRendered(before: seq<Cell>, after: seq<Cell>, rows: seq<int>,
                                    oldH: int, newH: int, clearOld: bool)
    requires |rows| >= 1
  {
    |after| == |before|
    && forall i :: 0 <= i < |before| ==> after[i] == RenderedCell(before[i], i, rows, oldH, newH, clearOld)
  }

  /** The scroll offset after the two corrections: first scroll down so the
      bottom of `rc` is visible, then up so its top is. */
  function AdjustedScrollTop(scrollTop: int, rc: Rect, clientHeight: int): int
  {
    var bottomOffset := (rc.bottom - scrollTop) - clientHeight;
    var s1 := if bottomOffset > 0 then scrollTop + bottomOffset else scrollTop;
    var topOffset := rc.top - s1;
    if topOffset < 0 then s1 + topOffset else s1
  }

  /** After the corrections the top of the highlighted cell is never above the
      visible area, its bottom is not below it whenever the cell fits, and a cell
      that was wholly visible causes no scrolling at all. */
  lemma AdjustedScrollTopShows(scrollTop: int, rc: Rect, clientHeight: int)
    requires rc.top <= rc.bottom
    ensures var s := AdjustedScrollTop(scrollTop, rc, clientHeight);
      s <= rc.top
      && (rc.bottom - rc.top <= clientHeight ==> rc.bottom <= s + clientHeight)
      && (scrollTop <= rc.top && rc.bottom <= scrollTop + clientHeight ==> s == scrollTop)
  {
  }

  /** Rendering keeps every box, text and comment; it only moves classes and labels. */
  lemma RenderedKeepsContent(c: Cell, i: int, rows: seq<int>, oldH: int, newH: int, clearOld: bool)
    requires |rows| >= 1
    ensures var r := RenderedCell(c, i, rows, oldH, newH, clearOld);
      r.rect == c.rect && r.text == c.text && r.comment == c.comment && r.mark == c.mark
      && r.first == c.first && r.last == c.last && r.highlightedOriginal == c.highlightedOriginal
  {
  }

  /** The highlighted-row marks sit on exactly the row of `oldH`. */
  ghost predicate RowMarked(cells: seq<Cell>, rows: seq<int>, h: int)
    requires |rows| >= 1
  {
    forall i :: 0 <= i < |cells| ==> (cells[i].inRow <==> InRowRange(rows, RowOf(rows, h), i))
  }

  /** Exactly the cell `h` is highlighted. */
  ghost predicate OnlyHighlighted(cells: seq<Cell>, h: int)
  {
    forall i :: 0 <= i < |cells| ==> (cells[i].highlighted <==> i == h)
  }

  /** Moving the highlight from `oldH` to `newH` with `clearOld` moves the row
      marks and the single highlighted cell along with it, and the highlighted row
      is labelled 1, 2, ... in order. */
  lemma RenderMovesHighlight(before: seq<Cell>, after: seq<Cell>, rows: seq<int>, oldH: int, newH: int)
    requires Grid(before, rows)
    requires HighlightRendered(before, after, rows, oldH, newH, true)
    requires RowMarked(before, rows, oldH) && OnlyHighlighted(before, oldH)
    ensures RowMarked(after, rows, newH) && OnlyHighlighted(after, newH)
    ensures var nrow := RowOf(rows, newH);
      forall i :: 0 <= i < |after| && InRowRange(rows, nrow, i) ==>
        after[i].labelText == Some(RankLabel(i - Prefix(rows, nrow)))
  {
    forall i | 0 <= i < |after|
      ensures after[i].inRow <==> InRowRange(rows, RowOf(rows, newH), i)
      ensures after[i].highlighted <==> i == newH
    {
      assert after[i] == RenderedCell(before[i], i, rows, oldH, newH, true);
    }
  }

  /** A first render (without `clearOld`) of a grid with no marks leaves just the
      row of `newH` marked and no cell highlighted except `newH`. */
  lemma FirstRenderMarks(before: seq<Cell>, after: seq<Cell>, rows: seq<int>, oldH: int, newH: int)
    requires Grid(before, rows)
    requires HighlightRendered(before, after, rows, oldH, newH, false)
    requires forall i :: 0 <= i < |before| ==> !before[i].inRow
    requires OnlyHighlighted(before, newH)
    ensures RowMarked(after, rows, newH) && OnlyHighlighted(after, newH)
  {
    forall i | 0 <= i < |after|
      ensures after[i].inRow <==> InRowRange(rows, RowOf(rows, newH), i)
      ensures after[i].highlighted <==> i == newH
    {
      assert after[i] == RenderedCell(before[i], i, rows, oldH, newH, false);
    }
  }

  /** The index a digit key 1-6 selects, or nothing when the highlighted row is
      shorter than the digit. */
  function SelectCall(rows: seq<int>, h: int, action: int): seq<HostCall>
  {
    var hr := RowOf(rows, h);
    if |rows| == 0 then [Select(ItemCountInFirstNRows(rows, hr) + action - 1)]
    else if action > rows[hr] then []
    else [Select(ItemCountInFirstNRows(rows, hr) + action - 1)]
  }

  /** On a rendered grid the digit key `k` selects the cell labelled `k`. */
  lemma SelectMatchesLabel(cells: seq<Cell>, rows: seq<int>, h: int, action: int)
    requires Grid(cells, rows) && 0 <= h < |cells|
    requires 1 <= action
    requires forall i :: 0 <= i < |cells| && InRowRange(rows, RowOf(rows, h), i) ==>
      cells[i].labelText == Some(RankLabel(i - Prefix(rows, RowOf(rows, h))))
    ensures SelectCall(rows, h, action) != [] ==>
      var k := SelectCall(rows, h, action)[0].index;
      0 <= k < |cells| && RowOf(rows, k) == RowOf(rows, h)
      && cells[k].labelText == Some(Text.DecimalString(action))
    ensures SelectCall(rows, h, action) == [] <==> action > rows[RowOf(rows, h)]
  {
    var hr := RowOf(rows, h);
    if action <= rows[hr] {
      var k := Prefix(rows, hr) + action - 1;
      RowEndInside(rows, hr);
      RowOfUnique(rows, k, hr);
    }
  }

  /** Whether moving the highlight to row `newRow` asks for more candidates:
      the list is not known to be complete, no request is outstanding, and the
      highlight is within `maxRow` rows of the end. */
  function PrefetchDue(scrollEnd: bool, fetching: bool, rows: seq<int>, newRow: int, maxRow: int): bool
  {
    !scrollEnd && !fetching && |rows| - newRow <= maxRow
  }

  /** The scroll listener's trigger cell, the last cell of the next-to-last row,
      exists whenever the grid has two rows or more. */
  lemma BottomRightCell(cells: seq<Cell>, rows: seq<int>)
    requires Grid(cells, rows) && |rows| >= 2
    ensures var b := ItemCountInFirstNRows(rows, |rows| - 1) - 1;
      0 <= b < |cells| && RowOf(rows, b) == |rows| - 2
      && InRowRange(rows, |rows| - 2, b) && !InRowRange(rows, |rows| - 2, b + 1)
  {
    var r := |rows| - 2;
    RowEndInside(rows, r);
    PrefixStep(rows, r);
    RowOfUnique(rows, Prefix(rows, r + 1) - 1, r);
  }

  /** The scroll engine's module state. */
  class ScrollGrid {
    const hov: Hoverables
    const host: Host
    const maxRow: Positive      // MAX_ROW
    const maxColumn: int        // MAX_COLUMN
    var scrollState: int
    var scrollEnd: bool
    var fetching: bool          // the prefetch lock
    var rowItemCount: seq<int>
    var highlighted: int

    constructor (hov: Hoverables, host: Host, maxRow: Positive, maxColumn: int)
      ensures this.hov == hov && this.host == host
      ensures this.maxRow == maxRow && this.maxColumn == maxColumn
      ensures scrollState == SCROLL_NONE && !scrollEnd && !fetching
      ensures rowItemCount == [] && highlighted == 0
    {
      this.hov := hov;
      this.host := host;
      this.maxRow := maxRow;
      this.maxColumn := maxColumn;
      scrollState := SCROLL_NONE;
      scrollEnd := false;
      fetching := false;
      rowItemCount := [];
      highlighted := 0;
    }

    /** The row map matches the rendered cells and the highlight is one of them. */
    ghost predicate Synced()
      reads this, hov
    {
      |hov.cells| >= 1 && Grid(hov.cells, rowItemCount)
      && rowItemCount == RunLengths(Tops(hov.cells))
      && 0 <= highlighted < |hov.cells|
    }

    method GetScrollState() returns (s: int)
      ensures s == scrollState
    {
      s := scrollState;
    }

    method SetScrollState(state: int)
      modifies this`scrollState
      ensures scrollState == state
    {
      scrollState := state;
    }

    method SetScrollEnd(end: bool)
      modifies this`scrollEnd
      ensures scrollEnd == end
    {
      scrollEnd := end;
    }

    /** Releases the prefetch lock once the requested candidates arrived. */
    method FetchComplete()
      modifies this`fetching
      ensures !fetching
    {
      fetching := false;
    }

    /** Asks for the visible rows plus one hidden row of candidates. */
    method Expand()
      modifies host
      ensures host.calls == old(host.calls) + [Scroll(0, (maxRow + 1) * maxColumn)]
    {
      host.calls := host.calls + [Scroll(0, (maxRow + 1) * maxColumn)];
    }

    /** Asks the host to leave scroll mode. */
    method Collapse()
      modifies host
      ensures host.calls == old(host.calls) + [Scroll(-1, 0)]
    {
      host.calls := host.calls + [Scroll(-1, 0)];
    }

    /** `getRowOf(index)` */
    method GetRowOf(index: int) returns (row: int)
      ensures row == RowOf(rowItemCount, index)
    {
      var skipped := 0;
      var i := 0;
      while i < |rowItemCount| - 1
        invariant 0 <= i && (|rowItemCount| > 0 ==> i <= |rowItemCount| - 1)
        invariant i <= |rowItemCount|
        invariant skipped == Prefix(rowItemCount, i)
        invariant |rowItemCount| > 0 ==> RowOf(rowItemCount, index) == RowFrom(rowItemCount, index, i, skipped)
      {
        PrefixStep(rowItemCount, i);
        var end := skipped + rowItemCount[i];
        if index < end {
          return i;
        }
        skipped := end;
        i := i + 1;
      }
      return |rowItemCount| - 1;
    }

    /** The first loop of `renderHighlightAndLabels`: the row of the current
        highlight loses `highlighted-row` and its labels become "0". */
    method ClearHighlightedRow()
      requires Grid(hov.cells, rowItemCount)
      requires 0 <= highlighted < |hov.cells|
      modifies hov`cells
      ensures |hov.cells| == |old(hov.cells)|
      ensures forall k :: 0 <= k < |hov.cells| ==>
        hov.cells[k] == ClearedCell(old(hov.cells)[k], InRowRange(rowItemCount, RowOf(rowItemCount, highlighted), k))
    {
      var hr := GetRowOf(highlighted);
      var skipped := ItemCountInFirstNRows(rowItemCount, hr);
      RowEndInside(rowItemCount, hr);
      var i := skipped;
      while i < skipped + rowItemCount[hr]
        invariant skipped <= i <= skipped + rowItemCount[hr]
        invariant |hov.cells| == |old(hov.cells)|
        invariant forall k :: 0 <= k < |hov.cells| ==>
          hov.cells[k] == ClearedCell(old(hov.cells)[k], skipped <= k < i)
      {
        hov.cells := hov.cells[i := hov.cells[i].(inRow := false, labelText := Some("0"))];
        i := i + 1;
      }
    }

    /** The second loop of `renderHighlightAndLabels`: the row of the highlight
        gets `highlighted-row` and the labels 1, 2, ... */
    method MarkHighlightedRow()
      requires Grid(hov.cells, rowItemCount)
      requires 0 <= highlighted < |hov.cells|
      modifies hov`cells
      ensures |hov.cells| == |old(hov.cells)|
      ensures var hr := RowOf(rowItemCount, highlighted);
        forall k :: 0 <= k < |hov.cells| ==>
          hov.cells[k] == MarkedCell(old(hov.cells)[k], InRowRange(rowItemCount, hr, k), k - Prefix(rowItemCount, hr))
    {
      var hr := GetRowOf(highlighted);
      var skipped := ItemCountInFirstNRows(rowItemCount, hr);
      RowEndInside(rowItemCount, hr);
      var i := skipped;
      while i < skipped + rowItemCount[hr]
        invariant skipped <= i <= skipped + rowItemCount[hr]
        invariant |hov.cells| == |old(hov.cells)|
        invariant forall k :: 0 <= k < |hov.cells| ==>
          hov.cells[k] == MarkedCell(old(hov.cells)[k], skipped <= k < i, k - skipped)
      {
        hov.cells := hov.cells[i := hov.cells[i].(inRow := true, labelText := Some(Text.DecimalString(i - skipped + 1)))];
        i := i + 1;
      }
    }

    /** The two scroll corrections that bring the highlighted cell into view. */
    method ScrollHighlightIntoView(clientHeight: int)
      requires 0 <= highlighted < |hov.cells|
      modifies hov`scrollTop
      ensures hov.scrollTop == AdjustedScrollTop(old(hov.scrollTop), hov.cells[highlighted].rect, clientHeight)
    {
      var rc := hov.cells[highlighted].rect;
      var bottomOffset := (rc.bottom - hov.scrollTop) - clientHeight;
      if bottomOffset > 0 {
        hov.scrollTop := hov.scrollTop + bottomOffset;
      }
      var topOffset := rc.top - hov.scrollTop;
      if topOffset < 0 {
        hov.scrollTop := hov.scrollTop + topOffset;
      }
    }

    /** The first part of `renderHighlightAndLabels` with `clearOld`: the row
        of the old highlight is cleared, then the old cell loses `highlighted`. */
    method ClearOldHighlight()
      requires Grid(hov.cells, rowItemCount)
      requires 0 <= highlighted < |hov.cells|
      modifies hov`cells
      ensures |hov.cells| == |old(hov.cells)|
      ensures forall k :: 0 <= k < |hov.cells| ==>
        hov.cells[k] == WithHighlight(ClearedCell(old(hov.cells)[k], InRowRange(rowItemCount, RowOf(rowItemCount, highlighted), k)),
                                      k == highlighted, false)
    {
      ClearHighlightedRow();
      hov.cells := hov.cells[highlighted := hov.cells[highlighted].(highlighted := false)];
    }

    /** `renderHighlightAndLabels(newHighlighted, clearOld)` */
    method RenderHighlightAndLabels(newHighlighted: int, clearOld: bool, clientHeight: int)
      requires Grid(hov.cells, rowItemCount)
      requires 0 <= newHighlighted < |hov.cells|
      requires clearOld ==> 0 <= highlighted < |hov.cells|
      modifies this`highlighted, hov`cells, hov`scrollTop
      ensures highlighted == newHighlighted
      ensures HighlightRendered(old(hov.cells), hov.cells, rowItemCount, old(highlighted), newHighlighted, clearOld)
      ensures hov.scrollTop == AdjustedScrollTop(old(hov.scrollTop), hov.cells[newHighlighted].rect, clientHeight)
    {
      ghost var c0 := hov.cells;
      if clearOld {
        ClearOldHighlight();
      }
      ghost var c2 := hov.cells;
      assert forall k :: 0 <= k < |c0| ==>
        c2[k] == WithHighlight(ClearedCell(c0[k], clearOld && InRowRange(rowItemCount, RowOf(rowItemCount, old(highlighted)), k)),
                               clearOld && k == old(highlighted), false);
      highlighted := newHighlighted;
      MarkHighlightedRow();
      ghost var c3 := hov.cells;
      hov.cells := hov.cells[highlighted := hov.cells[highlighted].(highlighted := true)];
      LoopsRender(c0, c2, c3, hov.cells, rowItemCount, old(highlighted), newHighlighted, clearOld);
      ScrollHighlightIntoView(clientHeight);
    }

    /** The loop of `recalculateScroll`: clears every row mark and counts the
        cells of each run of equal `y`. */
    method RebuildRowMap()
      requires |hov.cells| >= 1
      modifies this`rowItemCount, hov`cells
      ensures |hov.cells| == |old(hov.cells)|
      ensures forall k :: 0 <= k < |hov.cells| ==> hov.cells[k] == old(hov.cells)[k].(inRow := false)
      ensures rowItemCount == RunLengths(Tops(old(hov.cells)))
    {
      ghost var c0 := hov.cells;
      ghost var ys := Tops(c0);
      var currentY := hov.cells[0].rect.top;
      var rows: seq<int> := [];
      var itemCount := 0;
      var i := 0;
      while i < |hov.cells|
        invariant 0 <= i <= |c0| && |hov.cells| == |c0|
        invariant forall k :: 0 <= k < i ==> hov.cells[k] == c0[k].(inRow := false)
        invariant forall k :: i <= k < |c0| ==> hov.cells[k] == c0[k]
        invariant RowScan(rows, itemCount, currentY) == Scan(ys, i)
      {
        hov.cells := hov.cells[i := hov.cells[i].(inRow := false)];
        var y := hov.cells[i].rect.top;
        if y == currentY {
          itemCount := itemCount + 1;
        } else {
          rows := rows + [itemCount];
          itemCount := 1;
          currentY := y;
        }
        i := i + 1;
      }
      ScanAll(ys, RowScan(rows, itemCount, currentY));
      rowItemCount := rows + [itemCount];
    }

    /** `recalculateScroll(scrollStart)`: rebuilds the row map from the cells'
        vertical positions, clears every row mark and renders the highlight,
        at the first cell when a scroll session starts. */
    method RecalculateScroll(scrollStart: bool, clientHeight: int)
      requires |hov.cells| >= 1
      requires !scrollStart ==> 0 <= highlighted < |hov.cells|
      modifies this`rowItemCount, this`highlighted, hov`cells, hov`scrollTop
      ensures rowItemCount == RunLengths(Tops(old(hov.cells)))
      ensures IsRunPartition(Tops(hov.cells), rowItemCount)
      ensures var cleared := seq(|old(hov.cells)|, k requires 0 <= k < |old(hov.cells)| => old(hov.cells)[k].(inRow := false));
        HighlightRendered(cleared, hov.cells, rowItemCount, old(highlighted),
                          if scrollStart then 0 else old(highlighted), !scrollStart)
      ensures highlighted == if scrollStart then 0 else old(highlighted)
      ensures hov.scrollTop == AdjustedScrollTop(old(hov.scrollTop), hov.cells[highlighted].rect, clientHeight)
      ensures Synced()
    {
      ghost var c0 := hov.cells;
      RebuildRowMap();
      ghost var cleared := hov.cells;
      assert cleared == seq(|c0|, k requires 0 <= k < |c0| => c0[k].(inRow := false));
      TopsOfSameRects(c0, cleared);
      RunLengthsPartition(Tops(c0));
      RenderHighlightAndLabels(if scrollStart then 0 else highlighted, !scrollStart, clientHeight);
      forall k | 0 <= k < |cleared|
        ensures hov.cells[k].rect == cleared[k].rect
      {
        RenderedKeepsContent(cleared[k], k, rowItemCount, old(highlighted), highlighted, !scrollStart);
      }
      TopsOfSameRects(cleared, hov.cells);
    }

    /** `helper(row)` inside `getNeighborCandidate`. */
    method RowNeighborOf(row: int, left: int, right: int) returns (r: int)
      requires Grid(hov.cells, rowItemCount)
      requires -1 <= row <= |rowItemCount|
      ensures r == RowNeighbor(hov.cells, rowItemCount, row, left, right)
    {
      if row < 0 || row == |rowItemCount| {
        return -1;
      }
      var skipped := ItemCountInFirstNRows(rowItemCount, row);
      RowEndInside(rowItemCount, row);
      var last := skipped + rowItemCount[row] - 1;
      var i := skipped;
      while i < last
        invariant skipped <= i <= last
        invariant ScanRow(hov.cells, i, last, left, right) == ScanRow(hov.cells, skipped, last, left, right)
      {
        var rc := hov.cells[i].rect;
        if rc.right <= left {
          i := i + 1;
          continue;
        }
        return if 2 * rc.right > left + right || rc.right - left > left - rc.left then i else i + 1;
      }
      return last;
    }

    /** `getNeighborCandidate(index, direction)` */
    method GetNeighborCandidate(index: int, direction: int) returns (r: int)
      requires Grid(hov.cells, rowItemCount) && 0 <= index < |hov.cells|
      requires UP <= direction <= PAGE_DOWN
      ensures r == Neighbor(hov.cells, rowItemCount, maxRow, index, direction)
      decreases if direction >= PAGE_UP then 1 else 0
    {
      var row := GetRowOf(index);
      var rc := hov.cells[index].rect;
      if direction == UP {
        r := RowNeighborOf(row - 1, rc.left, rc.right);
      } else if direction == DOWN {
        r := RowNeighborOf(row + 1, rc.left, rc.right);
      } else if direction == LEFT {
        r := index - 1;
      } else if direction == RIGHT {
        r := if index + 1 < ItemCountInFirstNRows(rowItemCount, |rowItemCount| + 1) then index + 1 else -1;
      } else if direction == HOME || direction == END {
        var skipped := ItemCountInFirstNRows(rowItemCount, row);
        r := if direction == HOME then skipped else skipped + rowItemCount[row] - 1;
      } else {
        var d := if direction == PAGE_UP then UP else DOWN;
        var step: int := maxRow;
        var intermediate := index;
        var newIndex := index;
        var go := true;
        while go
          invariant 0 <= intermediate < |hov.cells|
          invariant go ==> 1 <= step && Walk(hov.cells, rowItemCount, index, d, maxRow - 1)
                                        == Walk(hov.cells, rowItemCount, intermediate, d, step - 1)
          invariant !go ==> newIndex == Walk(hov.cells, rowItemCount, index, d, maxRow - 1)
          decreases if go then step else 0
        {
          newIndex := intermediate;
          var next := GetNeighborCandidate(intermediate, d);
          if next >= 0 {
            intermediate := next;
            step := step - 1;
            go := step != 0;
          } else {
            go := false;
          }
        }
        r := if newIndex == index then -1 else newIndex;
      }
    }

    /** The prefetch check after a move: near the end of the list, with no
        request outstanding and the list not known to be complete, take the lock
        and ask for the next rows. */
    method PrefetchNearEnd()
      requires Grid(hov.cells, rowItemCount) && 0 <= highlighted < |hov.cells|
      modifies this`fetching, host
      ensures var due := PrefetchDue(scrollEnd, old(fetching), rowItemCount, RowOf(rowItemCount, highlighted), maxRow);
        fetching == (old(fetching) || due)
        && host.calls == old(host.calls)
                         + (if due then [Scroll(ItemCountInFirstNRows(rowItemCount, |rowItemCount|), maxRow * maxColumn)] else [])
    {
      if !scrollEnd && !fetching {
        var newRow := GetRowOf(highlighted);
        if |rowItemCount| - newRow <= maxRow {
          fetching := true;
          host.calls := host.calls + [Scroll(ItemCountInFirstNRows(rowItemCount, |rowItemCount|), maxRow * maxColumn)];
        }
      }
    }

    /** Keys 10-17 of `scrollKeyAction`. */
    method MoveHighlight(action: int, clientHeight: int)
      requires Synced() && 10 <= action <= 17
      modifies this`highlighted, this`fetching, hov`cells, hov`scrollTop, host
      ensures Synced()
      ensures var n := Neighbor(old(hov.cells), rowItemCount, maxRow, old(highlighted), action);
        (n >= 0 ==>
          highlighted == n
          && HighlightRendered(old(hov.cells), hov.cells, rowItemCount, old(highlighted), n, true)
          && hov.scrollTop == AdjustedScrollTop(old(hov.scrollTop), hov.cells[n].rect, clientHeight)
          && var due := PrefetchDue(scrollEnd, old(fetching), rowItemCount, RowOf(rowItemCount, n), maxRow);
          fetching == (old(fetching) || due)
          && host.calls == old(host.calls)
                           + (if due then [Scroll(ItemCountInFirstNRows(rowItemCount, |rowItemCount|), maxRow * maxColumn)] else []))
        && (n < 0 ==>
          unchanged(hov) && highlighted == old(highlighted) && fetching == old(fetching)
          && host.calls == old(host.calls)
                           + (if (action == UP || action == PAGE_UP) && RowOf(rowItemCount, old(highlighted)) == 0
                              then [Scroll(-1, 0)] else []))
    {
      var newHighlighted := GetNeighborCandidate(highlighted, action);
      if newHighlighted >= 0 {
        ghost var before := hov.cells;
        RenderHighlightAndLabels(newHighlighted, true, clientHeight);
        forall k | 0 <= k < |before|
          ensures hov.cells[k].rect == before[k].rect
        {
          RenderedKeepsContent(before[k], k, rowItemCount, old(highlighted), newHighlighted, true);
        }
        TopsOfSameRects(before, hov.cells);
        PrefetchNearEnd();
      } else if action == UP || action == PAGE_UP {
        var hr := GetRowOf(highlighted);
        if hr == 0 {
          Collapse();
        }
      }
    }

    /** Keys 1-6 of `scrollKeyAction`: the digit selects that cell of the
        highlighted row, or nothing when the row is shorter. */
    method SelectKey(action: int)
      requires Synced() && 1 <= action <= 6
      modifies host
      ensures host.calls == old(host.calls) + SelectCall(rowItemCount, highlighted, action)
    {
      var hr := GetRowOf(highlighted);
      var n := rowItemCount[hr];
      if action > n {
        return;
      }
      host.calls := host.calls + [Select(ItemCountInFirstNRows(rowItemCount, hr) + action - 1)];
    }

    /** `scrollKeyAction(action)`: digits 1-6 select in the highlighted row;
        10-17 move the highlight, prefetch near the end, and collapse when
        moving up from the top row fails. Other actions do nothing. */
    method ScrollKeyAction(action: int, clientHeight: int)
      requires Synced()
      modifies this`highlighted, this`fetching, hov`cells, hov`scrollTop, host
      ensures Synced()
      ensures 1 <= action <= 6 ==>
        unchanged(hov) && highlighted == old(highlighted) && fetching == old(fetching)
        && host.calls == old(host.calls) + SelectCall(rowItemCount, old(highlighted), action)
      ensures 10 <= action <= 17 ==>
        var n := Neighbor(old(hov.cells), rowItemCount, maxRow, old(highlighted), action);
        (n >= 0 ==>
          highlighted == n
          && HighlightRendered(old(hov.cells), hov.cells, rowItemCount, old(highlighted), n, true)
          && hov.scrollTop == AdjustedScrollTop(old(hov.scrollTop), hov.cells[n].rect, clientHeight)
          && var due := PrefetchDue(scrollEnd, old(fetching), rowItemCount, RowOf(rowItemCount, n), maxRow);
          fetching == (old(fetching) || due)
          && host.calls == old(host.calls)
                           + (if due then [Scroll(ItemCountInFirstNRows(rowItemCount, |rowItemCount|), maxRow * maxColumn)] else []))
        && (n < 0 ==>
          unchanged(hov) && highlighted == old(highlighted) && fetching == old(fetching)
          && host.calls == old(host.calls)
                           + (if (action == UP || action == PAGE_UP) && RowOf(rowItemCount, old(highlighted)) == 0
                              then [Scroll(-1, 0)] else []))
      ensures !(1 <= action <= 6) && !(10 <= action <= 17) ==>
        unchanged(hov, host) && highlighted == old(highlighted) && fetching == old(fetching)
    {
      if 1 <= action <= 6 {
        SelectKey(action);
      } else if 10 <= action <= 17 {
        MoveHighlight(action, clientHeight);
      }
    }

    /** The `scroll` listener: when the last cell of the next-to-last row comes
        into view, ask for more candidates, unless the list is complete or a
        request is outstanding. An index outside the cells is a script error
        that ends the handler. */
    method OnScroll(clientHeight: int)
      modifies this`fetching, host
      ensures var b := ItemCountInFirstNRows(rowItemCount, |rowItemCount| - 1) - 1;
        var due := !old(scrollEnd) && !old(fetching) && 0 <= b < |hov.cells|
                   && hov.cells[b].rect.top - hov.scrollTop < clientHeight;
        fetching == (old(fetching) || due)
        && host.calls == old(host.calls) + (if due then [Scroll(|hov.cells|, maxRow * maxColumn)] else [])
    {
      if scrollEnd || fetching {
        return;
      }
      var bottomRightIndex := ItemCountInFirstNRows(rowItemCount, |rowItemCount| - 1) - 1;
      if bottomRightIndex < 0 || bottomRightIndex >= |hov.cells| {
        return;
      }
      if hov.cells[bottomRightIndex].rect.top - hov.scrollTop < clientHeight {
        fetching := true;
        host.calls := host.calls + [Scroll(|hov.cells|, maxRow * maxColumn)];
      }
    }
  }
}
