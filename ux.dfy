/** Mouse handling of the candidate window (page/ux.ts): a left press starts a
    possible drag, moves accumulate the drag offset, and a release that was not a
    drag clicks the candidate or button under the pointer. A right click asks for
    or shows a candidate's context menu. */
module Ux {
  import opened Dom
  import opened Scroll

  const DRAG_THRESHOLD := 10

  /** `HOVER_BEHAVIOR` */
  datatype HoverBehavior = HoverNone | HoverMove | HoverAdd

  /** `PAGING_BUTTONS_STYLE` */
  datatype PagingStyle = PagingNone | PagingArrow | PagingTriangle

  /** The classes of an element between the event target and the child of
      `hoverables` that holds it. */
  datatype Element = Element(prev: bool, next: bool, expand: bool)

  /** The target of a mouse event: outside the candidate area (or the area itself),
      or inside it. `path` lists the elements from the target up to, but not
      including, `child`, the child of `hoverables` that contains the target. */
  datatype Target = OutsideHoverables | InHoverables(path: seq<Element>, child: Child)

  /** What a click resolves to. */
  datatype Click = NoClick | PageClick(next: bool) | ExpandClick | SelectClick(index: nat)

  /** The context menu: hidden, or shown at a position with the entries of the
      candidate `index`. */
  datatype Menu = MenuHidden | MenuShown(x: int, y: int, index: int, items: seq<CandidateAction>)

  /** `getCandidateIndex(child)` when `hoverables` holds `n` candidates. */
  function CandidateIndex(child: Child, n: nat): (i: int)
    ensures -1 <= i < n
    ensures i >= 0 <==> child.CandidateChild? && child.index < n
    ensures i >= 0 ==> child == CandidateChild(i)
  {
    if child.CandidateChild? && child.index < n then child.index else -1
  }

  /** The click of a release on `path` / `child`: the first element on the way up
      that is a previous, next or expand button decides; otherwise the child is
      a candidate to select, or nothing. */
  function Resolve(path: seq<Element>, child: Child, n: nat): (c: Click)
    ensures c.SelectClick? ==> c.index < n && child == CandidateChild(c.index)
    ensures (forall k :: 0 <= k < |path| ==> !path[k].prev && !path[k].next && !path[k].expand) ==>
      c == (if CandidateIndex(child, n) >= 0 then SelectClick(CandidateIndex(child, n)) else NoClick)
  {
    if |path| == 0 then
      var i := CandidateIndex(child, n);
      if i >= 0 then SelectClick(i) else NoClick
    else if path[0].prev then PageClick(false)
    else if path[0].next then PageClick(true)
    else if path[0].expand then ExpandClick
    else Resolve(path[1..], child, n)
  }

  /** No button class on the first `k` elements of `path`. */
  predicate Plain(path: seq<Element>, k: int)
    requires 0 <= k <= |path|
  {
    forall j :: 0 <= j < k ==> !path[j].prev && !path[j].next && !path[j].expand
  }

  /** The button that decides a click is the lowest decorated element on the path:
      a click pages back exactly when some element has `fcitx-prev` and every
      element below it has no button class, and likewise for next and expand. */
  lemma {:induction false} ResolveLowestButton(path: seq<Element>, child: Child, n: nat)
    ensures Resolve(path, child, n) == PageClick(false) <==>
      exists k :: 0 <= k < |path| && Plain(path, k) && path[k].prev
    ensures Resolve(path, child, n) == PageClick(true) <==>
      exists k :: 0 <= k < |path| && Plain(path, k) && !path[k].prev && path[k].next
    ensures Resolve(path, child, n) == ExpandClick <==>
      exists k :: 0 <= k < |path| && Plain(path, k) && !path[k].prev && !path[k].next && path[k].expand
    decreases |path|
  {
    if |path| > 0 {
      var rest := path[1..];
      ResolveLowestButton(rest, child, n);
      forall k | 1 <= k <= |path|
        ensures Plain(path, k) <==> Plain(path, 1) && Plain(rest, k - 1)
      {
        assert forall j :: 1 <= j < k ==> path[j] == rest[j - 1];
      }
      forall k | 0 <= k < |rest|
        ensures rest[k] == path[k + 1]
      {
      }
      assert Plain(path, 0);
    }
  }

  /** One element of the walk: a button class decides the click, and any
      other element passes it on to its parent. */
  lemma ResolveStep(path: seq<Element>, k: nat, child: Child, n: nat)
    requires k < |path|
    ensures Resolve(path[k..], child, n) ==
      if path[k].prev then PageClick(false)
      else if path[k].next then PageClick(true)
      else if path[k].expand then ExpandClick
      else Resolve(path[k + 1..], child, n)
  {
    assert path[k..][1..] == path[k + 1..];
  }

  /** The host calls a click makes: `expand()` asks for the first rows of the
      scrolled grid. */
  function ClickCalls(c: Click, maxRow: int, maxColumn: int): seq<HostCall>
  {
    match c
    case NoClick => []
    case PageClick(next) => [Page(next)]
    case ExpandClick => [Scroll(0, (maxRow + 1) * maxColumn)]
    case SelectClick(i) => [Select(i)]
  }

  function Max(a: int, b: int): int
  {
    if a < b then b else a
  }

  /** The module state of page/ux.ts. `isJs` is whether the distribution is
      fcitx5-js, where the pointer is not pinned to the drag's start point. */
  class MouseState {
    const grid: ScrollGrid
    const isJs: bool
    var pressed: bool
    var dragging: bool
    var startX: int
    var startY: int
    var dX: int
    var dY: int
    var dragOffset: int
    var mouseMoveState: nat
    var actions: seq<seq<CandidateAction>>
    var actionX: int
    var actionY: int
    var actionIndex: int
    var menu: Menu
    var hoverBehavior: HoverBehavior
    var pagingButtonsStyle: PagingStyle

    /** The drag offset is the largest squared distance seen in the current drag,
        so it is at least the current one; and `fcitx-mousemoved` is on exactly
        when two or more moves were seen since the last reset. */
    ghost predicate Valid()
      reads this, grid.hov
    {
      dragOffset >= dX * dX + dY * dY
      && (grid.hov.mouseMoved <==> mouseMoveState >= 2)
    }

    constructor (grid: ScrollGrid, isJs: bool)
      requires !grid.hov.mouseMoved
      ensures Valid()
      ensures this.grid == grid && this.isJs == isJs
      ensures !pressed && !dragging && startX == 0 && startY == 0
      ensures dX == 0 && dY == 0 && dragOffset == 0 && mouseMoveState == 0
      ensures actions == [] && actionX == 0 && actionY == 0 && actionIndex == 0
      ensures menu == MenuHidden && hoverBehavior == HoverNone && pagingButtonsStyle == PagingArrow
    {
      this.grid := grid;
      this.isJs := isJs;
      pressed := false;
      dragging := false;
      startX := 0;
      startY := 0;
      dX := 0;
      dY := 0;
      dragOffset := 0;
      mouseMoveState := 0;
      actions := [];
      actionX := 0;
      actionY := 0;
      actionIndex := 0;
      menu := MenuHidden;
      hoverBehavior := HoverNone;
      pagingButtonsStyle := PagingArrow;
    }

    /** `resetMouseMoveState()` */
    method ResetMouseMoveState()
      modifies this`mouseMoveState, grid.hov`mouseMoved
      ensures mouseMoveState == 0 && !grid.hov.mouseMoved
      ensures dragOffset >= dX * dX + dY * dY ==> Valid()
    {
      mouseMoveState := 0;
      grid.hov.mouseMoved := false;
    }

    /** `hideContextmenu()` */
    method HideContextmenu()
      modifies this`menu
      ensures menu == MenuHidden
    {
      menu := MenuHidden;
    }

    /** The `mousedown` listener. */
    method MouseDown(button: int, clientX: int, clientY: int)
      requires Valid()
      modifies this`pressed, this`startX, this`startY, this`dX, this`dY, this`dragOffset
      ensures Valid()
      ensures button != 0 ==>
        pressed == old(pressed) && startX == old(startX) && startY == old(startY)
        && dX == old(dX) && dY == old(dY) && dragOffset == old(dragOffset)
      ensures button == 0 ==>
        pressed && startX == clientX && startY == clientY && dX == 0 && dY == 0 && dragOffset == 0
    {
      if button != 0 {
        return;
      }
      pressed := true;
      startX := clientX;
      startY := clientY;
      dX := 0;
      dY := 0;
      dragOffset := 0;
    }

    /** The `mousemove` listener; the window resize it requests is not modelled. */
    method MouseMove(button: int, clientX: int, clientY: int)
      requires Valid()
      modifies this`mouseMoveState, grid.hov`mouseMoved, this`menu, this`dragging
      modifies this`startX, this`startY, this`dX, this`dY, this`dragOffset
      ensures Valid()
      ensures mouseMoveState == old(mouseMoveState) + 1
      ensures dragOffset >= old(dragOffset)
      ensures button != 0 || !pressed ==>
        menu == old(menu) && dragging == old(dragging) && startX == old(startX) && startY == old(startY)
        && dX == old(dX) && dY == old(dY) && dragOffset == old(dragOffset)
      ensures button == 0 && pressed ==>
        var dx := clientX - old(startX);
        var dy := clientY - old(startY);
        menu == MenuHidden && dragging
        && startX == (if isJs then clientX else old(startX))
        && startY == (if isJs then clientY else old(startY))
        && dX == old(dX) + dx && dY == old(dY) + dy
        && dragOffset == Max(old(dragOffset), dX * dX + dY * dY)
    {
      mouseMoveState := mouseMoveState + 1;
      if mouseMoveState >= 2 {
        grid.hov.mouseMoved := true;
      }
      if button != 0 || !pressed {
        return;
      }
      HideContextmenu();
      dragging := true;
      var dx := clientX - startX;
      var dy := clientY - startY;
      if isJs {
        startX := clientX;
        startY := clientY;
      }
      dX := dX + dx;
      dY := dY + dy;
      dragOffset := Max(dragOffset, dX * dX + dY * dY);
    }

    /** `getCandidateIndex(child)`: the position of `child` among the candidates. */
    method GetCandidateIndex(child: Child) returns (i: int)
      ensures i == CandidateIndex(child, |grid.hov.cells|)
    {
      var n := |grid.hov.cells|;
      i := 0;
      while i < n
        invariant 0 <= i <= n
        invariant forall k :: 0 <= k < i ==> child != CandidateChild(k)
      {
        if CandidateChild(i) == child {
          return;
        }
        i := i + 1;
      }
      i := -1;
    }

    /** The `mouseup` listener: walks up from the target to the child of
        `hoverables`, stopping at the first paging or expand button. */
    method MouseUp(button: int, target: Target)
      modifies this`pressed, this`dragging, grid.host
      ensures button != 0 ==>
        pressed == old(pressed) && dragging == old(dragging) && grid.host.calls == old(grid.host.calls)
      ensures button == 0 ==>
        !pressed && !dragging
        && grid.host.calls == old(grid.host.calls)
           + (if (old(dragging) && dragOffset > DRAG_THRESHOLD) || target.OutsideHoverables? then []
              else ClickCalls(Resolve(target.path, target.child, |grid.hov.cells|), grid.maxRow, grid.maxColumn))
    {
      if button != 0 {
        return;
      }
      pressed := false;
      if dragging {
        dragging := false;
        if dragOffset > DRAG_THRESHOLD {
          return;
        }
      }
      if target.OutsideHoverables? {
        return;
      }
      ClickPath(target.path, target.child);
    }

    /** The walk of the `mouseup` listener from the target up to the child of
        `hoverables`, and the host call the click makes. */
    method ClickPath(path: seq<Element>, child: Child)
      modifies grid.host
      ensures grid.host.calls == old(grid.host.calls) + ClickCalls(Resolve(path, child, |grid.hov.cells|), grid.maxRow, grid.maxColumn)
    {
      var n := |grid.hov.cells|;
      var k := 0;
      while k < |path|
        invariant 0 <= k <= |path|
        invariant Resolve(path[k..], child, n) == Resolve(path, child, n)
        invariant grid.host.calls == old(grid.host.calls)
      {
        ResolveStep(path, k, child, n);
        if path[k].prev {
          grid.host.calls := grid.host.calls + [Page(false)];
          return;
        } else if path[k].next {
          grid.host.calls := grid.host.calls + [Page(true)];
          return;
        } else if path[k].expand {
          grid.Expand();
          return;
        }
        k := k + 1;
      }
      assert path[k..] == [];
      var i := GetCandidateIndex(child);
      if i >= 0 {
        grid.host.calls := grid.host.calls + [Select(i)];
      }
    }

    /** `setActions(newActions)` */
    method SetActions(newActions: seq<seq<CandidateAction>>)
      modifies this`actions
      ensures actions == newActions
    {
      actions := newActions;
    }

    /** `answerActions(items)`: the host's reply to `_askActions` opens the menu
        where the request was made. */
    method AnswerActions(items: seq<CandidateAction>)
      modifies this`menu
      ensures menu == MenuShown(actionX, actionY, actionIndex, items)
    {
      menu := MenuShown(actionX, actionY, actionIndex, items);
    }

    /** A click on entry `k` of the shown menu runs that action and closes the menu. */
    method ChooseMenuItem(k: int)
      modifies this`menu, grid.host
      ensures old(menu).MenuShown? && 0 <= k < |old(menu).items| ==>
        menu == MenuHidden
        && grid.host.calls == old(grid.host.calls) + [Action(old(menu).index, old(menu).items[k].id)]
      ensures !(old(menu).MenuShown? && 0 <= k < |old(menu).items|) ==>
        menu == old(menu) && grid.host.calls == old(grid.host.calls)
    {
      if menu.MenuShown? && 0 <= k < |menu.items| {
        grid.host.calls := grid.host.calls + [Action(menu.index, menu.items[k].id)];
        HideContextmenu();
      }
    }

    /** The `contextmenu` listener. While scrolling, the host is asked for the
        candidate's actions and the position is kept for the answer; otherwise the
        menu shows the actions the page holds, or hides when there are none. An
        index past the known action lists stops the handler with a script error
        and changes nothing. */
    method ContextMenu(target: Target, clientX: int, clientY: int, themeLeft: int, themeTop: int)
      modifies this`actionX, this`actionY, this`actionIndex, this`menu, grid.host
      ensures var x := clientX - (if isJs then themeLeft else 0);
        var y := clientY - (if isJs then themeTop else 0);
        var i := if target.OutsideHoverables? then -1 else CandidateIndex(target.child, |grid.hov.cells|);
        if target.OutsideHoverables? then
          unchanged(this) && grid.host.calls == old(grid.host.calls)
        else if i >= 0 && grid.scrollState == SCROLLING then
          actionX == x && actionY == y && actionIndex == i && menu == old(menu)
          && grid.host.calls == old(grid.host.calls) + [AskActions(i)]
        else
          actionX == old(actionX) && actionY == old(actionY) && actionIndex == old(actionIndex)
          && grid.host.calls == old(grid.host.calls)
          && menu == (if i < 0 then MenuHidden
                      else if i >= |actions| then old(menu)
                      else if |actions[i]| > 0 then MenuShown(x, y, i, actions[i])
                      else MenuHidden)
    {
      if target.OutsideHoverables? {
        return;
      }
      var x := clientX - (if isJs then themeLeft else 0);
      var y := clientY - (if isJs then themeTop else 0);
      var i := GetCandidateIndex(target.child);
      var state := grid.GetScrollState();
      if i >= 0 && state == SCROLLING {
        actionX := x;
        actionY := y;
        actionIndex := i;
        grid.host.calls := grid.host.calls + [AskActions(i)];
        return;
      }
      if i >= 0 && i >= |actions| {
        return;
      }
      if i >= 0 && |actions[i]| > 0 {
        menu := MenuShown(x, y, i, actions[i]);
      } else {
        HideContextmenu();
      }
    }

    method SetHoverBehavior(behavior: HoverBehavior)
      modifies this`hoverBehavior
      ensures hoverBehavior == behavior
    {
      hoverBehavior := behavior;
    }

    method GetHoverBehavior() returns (b: HoverBehavior)
      ensures b == hoverBehavior
    {
      b := hoverBehavior;
    }

    method SetPagingButtonsStyle(style: PagingStyle)
      modifies this`pagingButtonsStyle
      ensures pagingButtonsStyle == style
    {
      pagingButtonsStyle := style;
    }

    method GetPagingButtonsStyle() returns (s: PagingStyle)
      ensures s == pagingButtonsStyle
    {
      s := pagingButtonsStyle;
    }
  }
}
