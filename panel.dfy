/** The candidate panel (page/panel.ts): how a batch of candidates from the host
    becomes cells and a tail in `hoverables`, how the pointer moves the highlight,
    and the preedit and auxiliary text areas. */
module Panel {
  import opened Wrappers
  import opened Text
  import opened Dom
  import opened ScrollRows
  import opened Scroll
  import opened FormatLabel
  import opened Ux

  /** The HTML a character of candidate text becomes. */
  function EscapedChar(c: char): string
  {
    if c == ' ' then "&nbsp;" else if c == '\n' then "<br>" else if c == '\t' then "&emsp;" else [c]
  }

  /** Text escaped one character at a time. */
  function EscapePerChar(s: string): string
  {
    if |s| == 0 then "" else EscapedChar(s[0]) + EscapePerChar(s[1..])
  }

  /** `escapeWS(s)`: spaces, newlines and tabs become `&nbsp;`, `<br>` and `&emsp;`. */
  function EscapeWS(s: string): (r: string)
    ensures ' ' !in r && '\n' !in r && '\t' !in r
    ensures forall d :: d in s && d != ' ' && d != '\n' && d != '\t' ==> d in r
  {
    ReplaceAllChar(ReplaceAllChar(ReplaceAllChar(s, ' ', "&nbsp;"), '\n', "<br>"), '\t', "&emsp;")
  }

  /** The three replacements in turn amount to escaping each character on its own:
      no replacement text is rewritten by a later one. */
  lemma {:induction false} EscapeWSPerChar(s: string)
    ensures EscapeWS(s) == EscapePerChar(s)
    decreases |s|
  {
    if |s| > 0 {
      assert s == [s[0]] + s[1..];
      EscapeWSAppend([s[0]], s[1..]);
      EscapeWSChar(s[0]);
      EscapeWSPerChar(s[1..]);
    }
  }

  /** The replacements work piece by piece. */
  lemma EscapeWSAppend(a: string, b: string)
    ensures EscapeWS(a + b) == EscapeWS(a) + EscapeWS(b)
  {
    var a1, b1 := ReplaceAllChar(a, ' ', "&nbsp;"), ReplaceAllChar(b, ' ', "&nbsp;");
    var a2, b2 := ReplaceAllChar(a1, '\n', "<br>"), ReplaceAllChar(b1, '\n', "<br>");
    ReplaceAllAppend(a, b, ' ', "&nbsp;");
    ReplaceAllAppend(a1, b1, '\n', "<br>");
    ReplaceAllAppend(a2, b2, '\t', "&emsp;");
  }

  /** No replacement text is rewritten by a later replacement. */
  lemma EscapeWSChar(c: char)
    ensures EscapeWS([c]) == EscapedChar(c)
  {
    var e1 := ReplaceAllChar([c], ' ', "&nbsp;");
    var e2 := ReplaceAllChar(e1, '\n', "<br>");
    var e3 := ReplaceAllChar(e2, '\t', "&emsp;");
    assert EscapeWS([c]) == e3;
    ReplaceAllOne(c, ' ', "&nbsp;");
    if c == ' ' {
      EscapeSpace(e1, e2, e3);
    } else if c == '\n' {
      EscapeNewline(e1, e2, e3);
    } else {
      EscapeOther(c, e1, e2, e3);
    }
  }

  lemma EscapeSpace(e1: string, e2: string, e3: string)
    requires e1 == "&nbsp;" && e2 == ReplaceAllChar(e1, '\n', "<br>") && e3 == ReplaceAllChar(e2, '\t', "&emsp;")
    ensures e3 == "&nbsp;"
  {
    ReplaceAllAbsent(e1, '\n', "<br>");
    ReplaceAllAbsent(e2, '\t', "&emsp;");
  }

  lemma EscapeNewline(e1: string, e2: string, e3: string)
    requires e1 == "\n" && e2 == ReplaceAllChar(e1, '\n', "<br>") && e3 == ReplaceAllChar(e2, '\t', "&emsp;")
    ensures e3 == "<br>"
  {
    ReplaceAllOne('\n', '\n', "<br>");
    ReplaceAllAbsent(e2, '\t', "&emsp;");
  }

  lemma EscapeOther(c: char, e1: string, e2: string, e3: string)
    requires c != ' ' && c != '\n'
    requires e1 == [c] && e2 == ReplaceAllChar(e1, '\n', "<br>") && e3 == ReplaceAllChar(e2, '\t', "&emsp;")
    ensures e3 == if c == '\t' then "&emsp;" else [c]
  {
    ReplaceAllOne(c, '\n', "<br>");
    ReplaceAllOne(c, '\t', "&emsp;");
  }

  /** The cell `setCandidates` builds for candidate `i` of a batch. `scrolling`
      is whether the batch is for the scrolled grid (which also puts
      `fcitx-horizontal-scroll` on `hoverables`); `label0` is what the label
      formatter prints for 0. */
  function NewCell(c: Candidate, i: int, n: int, h: int, markText: string, scrolling: bool,
                   vertical: bool, label0: string, rect: Rect, isSingleEmoji: string -> bool): Cell
  {
    Cell(
      rect := rect,
      first := i == 0 && !scrolling,
      last := i == n - 1 && !scrolling,
      highlighted := i == h,
      highlightedOriginal := i == h,
      inRow := false,
      mark := if vertical || scrolling || i == h then (if markText == "" then MarkNoText else MarkText(markText)) else NoMark,
      labelText := if c.labelText != "" || scrolling then Some(EscapeWS(if c.labelText != "" then c.labelText else label0)) else None,
      text := EscapeWS(c.text),
      horizontalTb := isSingleEmoji(c.text),
      comment := if c.comment != "" then Some(EscapeWS(c.comment)) else None)
  }

  /** The cells of a batch, one per candidate and in order. */
  function Batch(cands: seq<Candidate>, rects: seq<Rect>, h: int, markText: string, scrolling: bool,
                 vertical: bool, label0: string, isSingleEmoji: string -> bool): (b: seq<Cell>)
    requires |rects| == |cands|
    ensures |b| == |cands|
  {
    seq(|cands|, i requires 0 <= i < |cands| =>
      NewCell(cands[i], i, |cands|, h, markText, scrolling, vertical, label0, rects[i], isSingleEmoji))
  }

  /** What each cell of a batch shows: its box and text, the first/last and
      highlight classes, the label (the formatter's when none is given and the
      grid scrolls), the comment and whether it has a mark. */
  lemma BatchCells(cands: seq<Candidate>, rects: seq<Rect>, h: int, markText: string, scrolling: bool,
                   vertical: bool, label0: string, isSingleEmoji: string -> bool)
    requires |rects| == |cands|
    ensures var b := Batch(cands, rects, h, markText, scrolling, vertical, label0, isSingleEmoji);
      forall i :: 0 <= i < |b| ==>
        b[i].rect == rects[i] && b[i].text == EscapeWS(cands[i].text)
        && (b[i].first <==> i == 0 && !scrolling) && (b[i].last <==> i == |b| - 1 && !scrolling)
        && (b[i].highlighted <==> i == h) && !b[i].inRow
        && (b[i].labelText.Some? <==> cands[i].labelText != "" || scrolling)
        && (b[i].labelText.Some? ==>
              b[i].labelText.value == EscapeWS(if cands[i].labelText != "" then cands[i].labelText else label0))
        && (b[i].comment.Some? <==> cands[i].comment != "")
        && (b[i].comment.Some? ==> b[i].comment.value == EscapeWS(cands[i].comment))
        && (b[i].mark.NoMark? <==> !vertical && !scrolling && i != h)
  {
  }

  /** Every cell of a batch shows its text, label and comment with no raw space,
      newline or tab; at most one cell is highlighted, none when `h` is not an index
      of the batch. */
  lemma BatchShown(cands: seq<Candidate>, rects: seq<Rect>, h: int, markText: string, scrolling: bool,
                   vertical: bool, label0: string, isSingleEmoji: string -> bool)
    requires |rects| == |cands|
    ensures var b := Batch(cands, rects, h, markText, scrolling, vertical, label0, isSingleEmoji);
      (forall i :: 0 <= i < |b| ==>
        ' ' !in b[i].text && '\n' !in b[i].text && '\t' !in b[i].text
        && (b[i].labelText.Some? ==> ' ' !in b[i].labelText.value && '\n' !in b[i].labelText.value && '\t' !in b[i].labelText.value)
        && (b[i].comment.Some? ==> ' ' !in b[i].comment.value && '\n' !in b[i].comment.value && '\t' !in b[i].comment.value))
      && (forall i, j :: 0 <= i < |b| && 0 <= j < |b| && b[i].highlighted && b[j].highlighted ==> i == j)
      && ((h < 0 || h >= |b|) ==> forall i :: 0 <= i < |b| ==> !b[i].highlighted)
  {
    BatchCells(cands, rects, h, markText, scrolling, vertical, label0, isSingleEmoji);
  }

  function LabelsOf(cands: seq<Candidate>): (ls: seq<string>)
    ensures |ls| == |cands| && forall i :: 0 <= i < |cands| ==> ls[i] == cands[i].labelText
  {
    seq(|cands|, i requires 0 <= i < |cands| => cands[i].labelText)
  }

  function ActionsOf(cands: seq<Candidate>): (acts: seq<seq<CandidateAction>>)
    ensures |acts| == |cands| && forall i :: 0 <= i < |cands| ==> acts[i] == cands[i].actions
  {
    seq(|cands|, i requires 0 <= i < |cands| => cands[i].actions)
  }

  /** The tail after a batch: the expand button when ready to scroll (unless the
      paging style hides buttons), previous/next buttons on a pageable list, and
      otherwise whatever tail was kept. */
  function NewTail(kept: Tail, scrollState: int, style: PagingStyle, pageable: bool, hasPrev: bool, hasNext: bool): Tail
  {
    if scrollState == SCROLL_READY && style != PagingNone then ExpandTail(false)
    else if scrollState == SCROLL_NONE && pageable then PagingTail(style == PagingArrow, hasPrev, hasNext, false, false)
    else kept
  }

  /** The elements with `fcitx-hoverable`: the candidates and the tail's buttons. */
  datatype Hoverable = CandidateH(index: nat) | ExpandH | PrevH | NextH

  /** The part of `hoverables` that the highlight moves over. */
  datatype View = View(cells: seq<Cell>, tail: Tail)

  predicate Present(v: View, h: Hoverable)
  {
    match h
    case CandidateH(i) => i < |v.cells|
    case ExpandH => v.tail.ExpandTail?
    case PrevH => v.tail.PagingTail?
    case NextH => v.tail.PagingTail?
  }

  /** `h` has `fcitx-highlighted`. */
  predicate IsHighlighted(v: View, h: Hoverable)
    requires Present(v, h)
  {
    match h
    case CandidateH(i) => v.cells[i].highlighted
    case ExpandH => v.tail.expandHighlighted
    case PrevH => v.tail.prevHighlighted
    case NextH => v.tail.nextHighlighted
  }

  /** At most one hoverable is highlighted. */
  ghost predicate SingleHighlight(v: View)
  {
    forall g, h :: Present(v, g) && Present(v, h) && IsHighlighted(v, g) && IsHighlighted(v, h) ==> g == h
  }

  /** The first of the candidates from `i` on that is highlighted, or -1. */
  function FirstHighlightedCell(cells: seq<Cell>, i: nat): (r: int)
    requires i <= |cells|
    ensures r == -1 || (i <= r < |cells| && cells[r].highlighted)
    ensures forall k :: i <= k < (if r == -1 then |cells| else r) ==> !cells[k].highlighted
    decreases |cells| - i
  {
    if i == |cells| then -1 else if cells[i].highlighted then i else FirstHighlightedCell(cells, i + 1)
  }

  /** `hoverables.querySelector('.fcitx-highlighted')`, in document order. */
  function FirstHighlighted(v: View): (r: Option<Hoverable>)
    ensures r.Some? ==> Present(v, r.value) && IsHighlighted(v, r.value)
    ensures r.None? ==> forall h :: Present(v, h) ==> !IsHighlighted(v, h)
  {
    var i := FirstHighlightedCell(v.cells, 0);
    if i >= 0 then Some(CandidateH(i))
    else match v.tail
      case NoTail => None
      case ExpandTail(e) => if e then Some(ExpandH) else None
      case PagingTail(_, _, _, p, q) => if p then Some(PrevH) else if q then Some(NextH) else None
  }

  /** The first of the candidates from `i` on that holds a mark, or -1. */
  function FirstMarkCell(cells: seq<Cell>, i: nat): (r: int)
    requires i <= |cells|
    ensures r == -1 || (i <= r < |cells| && !cells[r].mark.NoMark?)
    ensures forall k :: i <= k < (if r == -1 then |cells| else r) ==> cells[k].mark.NoMark?
    decreases |cells| - i
  {
    if i == |cells| then -1 else if !cells[i].mark.NoMark? then i else FirstMarkCell(cells, i + 1)
  }

  function SetHighlighted(v: View, h: Hoverable, value: bool): (r: View)
    requires Present(v, h)
    ensures |r.cells| == |v.cells| && r.tail.NoTail? == v.tail.NoTail? && r.tail.ExpandTail? == v.tail.ExpandTail?
    ensures forall g :: Present(v, g) ==> Present(r, g) && IsHighlighted(r, g) == (if g == h then value else IsHighlighted(v, g))
    ensures forall k :: 0 <= k < |v.cells| ==> r.cells[k] == v.cells[k].(highlighted := r.cells[k].highlighted)
  {
    match h
    case CandidateH(i) => v.(cells := v.cells[i := v.cells[i].(highlighted := value)])
    case ExpandH => v.(tail := v.tail.(expandHighlighted := value))
    case PrevH => v.(tail := v.tail.(prevHighlighted := value))
    case NextH => v.(tail := v.tail.(nextHighlighted := value))
  }

  /** The first highlighted element, if any, loses `fcitx-highlighted`. */
  function Unhighlighted(v: View): (r: View)
    ensures |r.cells| == |v.cells| && r.tail.NoTail? == v.tail.NoTail? && r.tail.ExpandTail? == v.tail.ExpandTail?
    ensures forall k :: 0 <= k < |v.cells| ==> r.cells[k] == v.cells[k].(highlighted := r.cells[k].highlighted)
    ensures SingleHighlight(v) ==> forall h :: Present(v, h) ==> Present(r, h) && !IsHighlighted(r, h)
  {
    var f := FirstHighlighted(v);
    if f.Some? then SetHighlighted(v, f.value, false) else v
  }

  /** The first mark moves into candidate `to` when that candidate has none. */
  function MarkMoved(v: View, to: Hoverable): (r: View)
    requires Present(v, to)
    ensures |r.cells| == |v.cells| && r.tail == v.tail
    ensures forall k :: 0 <= k < |v.cells| ==> r.cells[k] == v.cells[k].(mark := r.cells[k].mark)
  {
    var m := FirstMarkCell(v.cells, 0);
    if m >= 0 && to.CandidateH? && v.cells[to.index].mark.NoMark? then
      var j := to.index;
      v.(cells := v.cells[j := v.cells[j].(mark := v.cells[m].mark)][m := v.cells[m].(mark := NoMark)])
    else v
  }

  /** `moveHighlight(first highlighted, to)`: the first highlighted element loses
      `fcitx-highlighted`, `to` gains it, and when `to` is a candidate without a
      mark the first mark in `hoverables` moves into it. */
  function MovedHighlight(v: View, to: Hoverable): View
    requires Present(v, to)
  {
    var v1 := Unhighlighted(v);
    MarkMoved(SetHighlighted(v1, to, true), to)
  }

  /** With at most one highlight before, exactly the hovered element is highlighted
      after the move, and nothing but highlight and marks changes. */
  lemma HighlightFollowsPointer(v: View, to: Hoverable)
    requires Present(v, to) && SingleHighlight(v)
    ensures var r := MovedHighlight(v, to);
      |r.cells| == |v.cells|
      && (forall h :: Present(v, h) ==> Present(r, h) && (IsHighlighted(r, h) <==> h == to))
      && (forall k :: 0 <= k < |v.cells| ==>
            r.cells[k] == v.cells[k].(highlighted := r.cells[k].highlighted, mark := r.cells[k].mark))
  {
    var v1 := Unhighlighted(v);
    var v2 := SetHighlighted(v1, to, true);
    var r := MarkMoved(v2, to);
    forall h | Present(v, h)
      ensures Present(r, h) && (IsHighlighted(r, h) <==> h == to)
    {
      assert Present(v1, h) && !IsHighlighted(v1, h);
      assert Present(v2, h) && (IsHighlighted(v2, h) <==> h == to);
      match h
      case CandidateH(i) => assert r.cells[i].highlighted == v2.cells[i].highlighted;
      case _ =>
    }
  }

  /** Marks are moved, never copied: when exactly one cell holds a mark (the
      horizontal layout), after hovering a candidate exactly that candidate holds
      it, and hovering a button leaves the marks alone. */
  lemma MarkFollowsPointer(v: View, to: Hoverable, m0: nat)
    requires Present(v, to) && m0 < |v.cells| && !v.cells[m0].mark.NoMark?
    requires forall k :: 0 <= k < |v.cells| && k != m0 ==> v.cells[k].mark.NoMark?
    ensures var r := MovedHighlight(v, to);
      |r.cells| == |v.cells|
      && (to.CandidateH? ==>
            r.cells[to.index].mark == v.cells[m0].mark
            && forall k :: 0 <= k < |r.cells| && k != to.index ==> r.cells[k].mark.NoMark?)
      && (!to.CandidateH? ==> forall k :: 0 <= k < |r.cells| ==> r.cells[k].mark == v.cells[k].mark)
  {
    var v2 := SetHighlighted(Unhighlighted(v), to, true);
    assert forall k :: 0 <= k < |v.cells| ==> v2.cells[k].mark == v.cells[k].mark;
    MarkMovedSingle(v2, to, m0, MarkMoved(v2, to));
  }

  lemma MarkMovedSingle(v: View, to: Hoverable, m0: nat, r: View)
    requires Present(v, to) && m0 < |v.cells| && !v.cells[m0].mark.NoMark?
    requires forall k :: 0 <= k < |v.cells| && k != m0 ==> v.cells[k].mark.NoMark?
    requires r == MarkMoved(v, to)
    ensures |r.cells| == |v.cells|
    ensures to.CandidateH? ==>
      r.cells[to.index].mark == v.cells[m0].mark && forall k :: 0 <= k < |r.cells| && k != to.index ==> r.cells[k].mark.NoMark?
    ensures !to.CandidateH? ==> forall k :: 0 <= k < |r.cells| ==> r.cells[k].mark == v.cells[k].mark
  {
    assert FirstMarkCell(v.cells, 0) == m0;
  }

  /** What `recalculateScroll` leaves after a scroll batch whose cells were
      `c0`: the row map of their positions, every row mark cleared and the
      highlight rendered, at the first cell when the session starts. */
  ghost predicate BatchRendered(c0: seq<Cell>, after: seq<Cell>, rows: seq<int>, oldH: int, newH: int, scrollStart: bool)
  {
    |c0| >= 1 && |rows| >= 1
    && rows == RunLengths(Tops(c0))
    && newH == (if scrollStart then 0 else oldH)
    && HighlightRendered(seq(|c0|, k requires 0 <= k < |c0| => c0[k].(inRow := false)), after, rows, oldH, newH,
                         !scrollStart)
  }

  /** How a batch's rendering leaves `hoverables`. Before the batch it held
      `cells0`, `tail0` and offset `top0`, which a continued scroll session keeps
      and any other batch clears; `b` is the batch's cells. Then: the new tail,
      and either the cells as they are or, for a non-empty scroll batch, the
      synced grid with its row map and highlight rendered. */
  ghost predicate BatchOutcome(continuing: bool, cells0: seq<Cell>, tail0: Tail, top0: int, b: seq<Cell>,
                               oldH: int, scrollState: int, scrollStart: bool, style: PagingStyle, pageable: bool,
                               hasPrev: bool, hasNext: bool,
                               cells: seq<Cell>, tail: Tail, top: int, rows: seq<int>, h: int, synced: bool)
  {
    var c0 := (if continuing then cells0 else []) + b;
    tail == NewTail(if continuing then tail0 else NoTail, scrollState, style, pageable, hasPrev, hasNext)
    && (scrollState != SCROLLING || |c0| == 0 ==> cells == c0 && top == (if continuing then top0 else 0))
    && (scrollState == SCROLLING && |c0| >= 1 ==> synced && BatchRendered(c0, cells, rows, oldH, h, scrollStart))
  }

  /** A text area of the panel: the preedit and the two auxiliary lines. */
  class Area {
    var html: string
    var hidden: bool       // fcitx-hidden

    constructor ()
      ensures html == "" && !hidden
    {
      html := "";
      hidden := false;
    }

    /** `updateElement(element, innerHTML)`: empty HTML only hides the area. */
    method Update(innerHTML: string)
      modifies this
      ensures innerHTML == "" ==> hidden && html == old(html)
      ensures innerHTML != "" ==> !hidden && html == innerHTML
    {
      if innerHTML == "" {
        hidden := true;
      } else {
        html := innerHTML;
        hidden := false;
      }
    }
  }

  /** The panel: the scroll engine and `hoverables` it drives, the mouse state, the
      label formatter, the text areas and the `theme` element's `fcitx-hidden`. */
  class CandidatePanel {
    const grid: ScrollGrid
    const mouse: MouseState
    const labels: LabelFormat
    const preedit: Area
    const auxUp: Area
    const auxDown: Area
    var themeHidden: bool
    var colorTransition: bool   // the last `setColorTransition` argument

    ghost predicate Valid()
      reads this, labels
    {
      mouse.grid == grid && labels.Valid()
      && preedit != auxUp && preedit != auxDown && auxUp != auxDown
    }

    constructor (grid: ScrollGrid, mouse: MouseState, labels: LabelFormat)
      requires mouse.grid == grid && labels.Valid()
      ensures Valid() && this.grid == grid && this.mouse == mouse && this.labels == labels
      ensures fresh(preedit) && fresh(auxUp) && fresh(auxDown)
      ensures !themeHidden && colorTransition
    {
      this.grid := grid;
      this.mouse := mouse;
      this.labels := labels;
      preedit := new Area();
      auxUp := new Area();
      auxDown := new Area();
      themeHidden := false;
      colorTransition := true;
    }

    /** The start of `setCandidates`: clear `hoverables` unless the batch continues a
        scroll session (which instead releases the prefetch lock), and set the
        scroll state and the classes that depend on it. */
    method BeginBatch(cands: seq<Candidate>, scrollState: int, scrollStart: bool, scrollEnd: bool)
      requires Valid()
      modifies this`themeHidden, this`colorTransition, mouse`mouseMoveState, mouse`menu
      modifies grid`scrollState, grid`fetching, grid`scrollEnd, labels
      modifies grid.hov`cells, grid.hov`tail, grid.hov`scrollTop, grid.hov`mouseMoved
      modifies grid.hov`horizontalScroll, grid.hov`maxBlockSize
      ensures Valid()
      ensures themeHidden == (old(themeHidden) && |cands| == 0)
      ensures mouse.mouseMoveState == 0 && !grid.hov.mouseMoved && mouse.menu == MenuHidden
      ensures grid.scrollState == scrollState
      ensures var continuing := scrollState == SCROLLING && !scrollStart;
        (continuing ==> grid.hov.cells == old(grid.hov.cells) && grid.hov.tail == old(grid.hov.tail)
                        && grid.hov.scrollTop == old(grid.hov.scrollTop) && !grid.fetching)
        && (!continuing ==> grid.hov.cells == [] && grid.hov.tail == NoTail && grid.hov.scrollTop == 0
                            && grid.fetching == old(grid.fetching))
      ensures grid.hov.horizontalScroll == (scrollState == SCROLLING)
      ensures grid.scrollEnd == if scrollState == SCROLLING then scrollEnd else old(grid.scrollEnd)
      ensures grid.hov.maxBlockSize == if scrollState == SCROLL_READY then old(grid.hov.maxBlockSize) else ""
      ensures colorTransition == (scrollState != SCROLLING)
      ensures labels.lastLabels == if scrollState == SCROLL_READY then LabelsOf(cands) else old(labels.lastLabels)
    {
      ResetSession(cands, scrollState, scrollStart);
      SetScrollMode(cands, scrollState, scrollEnd);
    }

    /** The first half of `BeginBatch`: the theme, the mouse, the scroll state
        and the contents of `hoverables`. */
    method ResetSession(cands: seq<Candidate>, scrollState: int, scrollStart: bool)
      requires mouse.grid == grid
      modifies this`themeHidden, mouse`mouseMoveState, mouse`menu, grid`scrollState, grid`fetching
      modifies grid.hov`cells, grid.hov`tail, grid.hov`scrollTop, grid.hov`mouseMoved
      ensures themeHidden == (old(themeHidden) && |cands| == 0)
      ensures mouse.mouseMoveState == 0 && !grid.hov.mouseMoved && mouse.menu == MenuHidden
      ensures grid.scrollState == scrollState
      ensures var continuing := scrollState == SCROLLING && !scrollStart;
        (continuing ==> grid.hov.cells == old(grid.hov.cells) && grid.hov.tail == old(grid.hov.tail)
                        && grid.hov.scrollTop == old(grid.hov.scrollTop) && !grid.fetching)
        && (!continuing ==> grid.hov.cells == [] && grid.hov.tail == NoTail && grid.hov.scrollTop == 0
                            && grid.fetching == old(grid.fetching))
    {
      if |cands| > 0 {
        themeHidden := false;
      }
      mouse.ResetMouseMoveState();
      mouse.HideContextmenu();
      grid.SetScrollState(scrollState);
      if scrollState != SCROLLING || scrollStart {
        grid.hov.cells := [];
        grid.hov.tail := NoTail;
        grid.hov.scrollTop := 0;
      } else {
        grid.FetchComplete();
      }
    }

    /** The second half of `BeginBatch`: the classes and the labels that depend
        on the scroll state. */
    method SetScrollMode(cands: seq<Candidate>, scrollState: int, scrollEnd: bool)
      requires labels.Valid()
      modifies this`colorTransition, grid`scrollEnd, labels, grid.hov`horizontalScroll, grid.hov`maxBlockSize
      ensures labels.Valid()
      ensures grid.hov.horizontalScroll == (scrollState == SCROLLING)
      ensures grid.scrollEnd == if scrollState == SCROLLING then scrollEnd else old(grid.scrollEnd)
      ensures grid.hov.maxBlockSize == if scrollState == SCROLL_READY then old(grid.hov.maxBlockSize) else ""
      ensures colorTransition == (scrollState != SCROLLING)
      ensures labels.lastLabels == if scrollState == SCROLL_READY then LabelsOf(cands) else old(labels.lastLabels)
    {
      if scrollState == SCROLLING {
        grid.hov.horizontalScroll := true;
        grid.hov.maxBlockSize := "";
        grid.SetScrollEnd(scrollEnd);
        colorTransition := false;
      } else {
        grid.hov.horizontalScroll := false;
        if scrollState == SCROLL_READY {
          labels.SetLastLabels(LabelsOf(cands));
        } else {
          grid.hov.maxBlockSize := "";
        }
        colorTransition := true;
      }
    }

    /** The loop of `setCandidates`: one cell per candidate, appended in order
        (each followed by its divider, see `Layout`). */
    method AppendCells(cands: seq<Candidate>, rects: seq<Rect>, h: int, markText: string, scrolling: bool,
                       vertical: bool, label0: string, isSingleEmoji: string -> bool)
      requires |rects| == |cands|
      modifies grid.hov`cells
      ensures grid.hov.cells == old(grid.hov.cells) + Batch(cands, rects, h, markText, scrolling, vertical, label0, isSingleEmoji)
    {
      ghost var b := Batch(cands, rects, h, markText, scrolling, vertical, label0, isSingleEmoji);
      var i := 0;
      while i < |cands|
        invariant 0 <= i <= |cands|
        invariant grid.hov.cells == old(grid.hov.cells) + b[..i]
      {
        var cell := NewCell(cands[i], i, |cands|, h, markText, scrolling, vertical, label0, rects[i], isSingleEmoji);
        assert b[..i + 1] == b[..i] + [cell];
        grid.hov.cells := grid.hov.cells + [cell];
        i := i + 1;
      }
      assert b[..|cands|] == b;
    }

    /** `setCandidates(cands, highlighted, markText, pageable, hasPrev, hasNext,
        scrollState, scrollStart, scrollEnd)`. The boxes of the new cells are the
        input `rects`, `clientHeight` is the visible height of `hoverables` and
        `isSingleEmoji` is whether a text is one emoji. A scroll batch with no cell
        at all stops with a script error before the row map is rebuilt. */
    method SetCandidates(cands: seq<Candidate>, highlighted: int, markText: string, pageable: bool,
                         hasPrev: bool, hasNext: bool, scrollState: int, scrollStart: bool, scrollEnd: bool,
                         rects: seq<Rect>, clientHeight: int, isSingleEmoji: string -> bool)
      requires Valid()
      requires |rects| == |cands|
      requires scrollState == SCROLLING && !scrollStart ==> 0 <= grid.highlighted < |grid.hov.cells|
      modifies this`themeHidden, this`colorTransition, mouse`mouseMoveState, mouse`menu, mouse`actions
      modifies grid`scrollState, grid`fetching, grid`scrollEnd, grid`rowItemCount, grid`highlighted, labels
      modifies grid.hov`cells, grid.hov`tail, grid.hov`scrollTop, grid.hov`mouseMoved
      modifies grid.hov`horizontalScroll, grid.hov`maxBlockSize
      ensures Valid()
      ensures themeHidden == (old(themeHidden) && |cands| == 0)
      ensures mouse.mouseMoveState == 0 && !grid.hov.mouseMoved && mouse.menu == MenuHidden
      ensures mouse.actions == ActionsOf(cands)
      ensures grid.scrollState == scrollState
      ensures grid.hov.horizontalScroll == (scrollState == SCROLLING)
      ensures colorTransition == (scrollState != SCROLLING)
      ensures labels.lastLabels == if scrollState == SCROLL_READY then LabelsOf(cands) else old(labels.lastLabels)
      ensures var continuing := scrollState == SCROLLING && !scrollStart;
        var b := Batch(cands, rects, highlighted, markText, scrollState == SCROLLING, grid.hov.vertical,
                       Apply(Guessed(labels.lastLabels), 0), isSingleEmoji);
        (continuing ==> !grid.fetching)
        && (!continuing ==> grid.fetching == old(grid.fetching))
        && (scrollState == SCROLLING ==> grid.scrollEnd == scrollEnd)
        && BatchOutcome(continuing, old(grid.hov.cells), old(grid.hov.tail), old(grid.hov.scrollTop), b,
                        old(grid.highlighted), scrollState, scrollStart, mouse.pagingButtonsStyle, pageable, hasPrev,
                        hasNext, grid.hov.cells, grid.hov.tail, grid.hov.scrollTop, grid.rowItemCount,
                        grid.highlighted, grid.Synced())
    {
      ghost var continuing := scrollState == SCROLLING && !scrollStart;
      ghost var cells0, tail0, top0, h0 := grid.hov.cells, grid.hov.tail, grid.hov.scrollTop, grid.highlighted;
      BeginBatch(cands, scrollState, scrollStart, scrollEnd);
      RenderBatch(cands, highlighted, markText, pageable, hasPrev, hasNext, scrollState, scrollStart, rects,
                  clientHeight, isSingleEmoji, continuing, cells0, tail0, top0, h0);
    }

    /** The rest of `setCandidates` once `hoverables` is cleared or kept: the
        batch's cells appended, the actions recorded, then the tail or the
        scroll rendering. */
    method RenderBatch(cands: seq<Candidate>, highlighted: int, markText: string, pageable: bool,
                       hasPrev: bool, hasNext: bool, scrollState: int, scrollStart: bool,
                       rects: seq<Rect>, clientHeight: int, isSingleEmoji: string -> bool,
                       ghost continuing: bool, ghost cells0: seq<Cell>, ghost tail0: Tail, ghost top0: int,
                       ghost h0: int)
      requires Valid()
      requires |rects| == |cands|
      requires scrollState == SCROLLING && !scrollStart ==> 0 <= grid.highlighted < |grid.hov.cells|
      requires grid.hov.cells == (if continuing then cells0 else [])
      requires grid.hov.tail == (if continuing then tail0 else NoTail)
      requires grid.hov.scrollTop == (if continuing then top0 else 0)
      requires grid.highlighted == h0
      modifies labels`formatter, mouse`actions, grid`rowItemCount, grid`highlighted
      modifies grid.hov`cells, grid.hov`tail, grid.hov`scrollTop
      ensures Valid()
      ensures mouse.actions == ActionsOf(cands)
      ensures var b := Batch(cands, rects, highlighted, markText, scrollState == SCROLLING, grid.hov.vertical,
                             Apply(Guessed(labels.lastLabels), 0), isSingleEmoji);
        BatchOutcome(continuing, cells0, tail0, top0, b, h0, scrollState, scrollStart, mouse.pagingButtonsStyle,
                     pageable, hasPrev, hasNext, grid.hov.cells, grid.hov.tail, grid.hov.scrollTop,
                     grid.rowItemCount, grid.highlighted, grid.Synced())
    {
      var vertical := grid.hov.vertical;
      var f := labels.GetLabelFormatter();
      var label0 := Apply(f, 0);
      ghost var b := Batch(cands, rects, highlighted, markText, scrollState == SCROLLING, vertical, label0, isSingleEmoji);
      AppendCells(cands, rects, highlighted, markText, scrollState == SCROLLING, vertical, label0, isSingleEmoji);
      mouse.SetActions(ActionsOf(cands));
      FinishBatch(scrollState, scrollStart, pageable, hasPrev, hasNext, clientHeight);
    }

    /** The end of `setCandidates`: the tail, or for a scroll batch the row map and
        highlight of the grid. */
    method FinishBatch(scrollState: int, scrollStart: bool, pageable: bool, hasPrev: bool, hasNext: bool,
                       clientHeight: int)
      requires scrollState == SCROLLING && !scrollStart ==> 0 <= grid.highlighted < |grid.hov.cells|
      modifies grid`rowItemCount, grid`highlighted, grid.hov`cells, grid.hov`tail, grid.hov`scrollTop
      ensures grid.hov.tail == NewTail(old(grid.hov.tail), scrollState, mouse.pagingButtonsStyle, pageable, hasPrev, hasNext)
      ensures scrollState != SCROLLING || |old(grid.hov.cells)| == 0 ==>
        grid.hov.cells == old(grid.hov.cells) && grid.hov.scrollTop == old(grid.hov.scrollTop)
      ensures scrollState == SCROLLING && |old(grid.hov.cells)| >= 1 ==>
        grid.Synced()
        && BatchRendered(old(grid.hov.cells), grid.hov.cells, grid.rowItemCount, old(grid.highlighted), grid.highlighted,
                         scrollStart)
    {
      var style := mouse.GetPagingButtonsStyle();
      if scrollState == SCROLL_READY && style != PagingNone {
        grid.hov.tail := ExpandTail(false);
      } else if scrollState == SCROLL_NONE && pageable {
        grid.hov.tail := PagingTail(style == PagingArrow, hasPrev, hasNext, false, false);
      } else if scrollState == SCROLLING {
        if |grid.hov.cells| >= 1 {
          grid.RecalculateScroll(scrollStart, clientHeight);
        }
      }
    }

    /** The `mousemove` listener of a hoverable element: under the 'Move' hover
        behaviour, once the pointer has really moved, the highlight follows it. */
    method OnHover(to: Hoverable)
      requires Present(View(grid.hov.cells, grid.hov.tail), to)
      modifies grid.hov`cells, grid.hov`tail
      ensures var before := View(old(grid.hov.cells), old(grid.hov.tail));
        View(grid.hov.cells, grid.hov.tail) ==
          if mouse.hoverBehavior == HoverMove && grid.hov.mouseMoved then MovedHighlight(before, to) else before
    {
      var behavior := mouse.GetHoverBehavior();
      if behavior == HoverMove && grid.hov.mouseMoved {
        MoveHighlight(to);
      }
    }

    /** `moveHighlight(hoverables.querySelector('.fcitx-highlighted'), to)` */
    method MoveHighlight(to: Hoverable)
      requires Present(View(grid.hov.cells, grid.hov.tail), to)
      modifies grid.hov`cells, grid.hov`tail
      ensures View(grid.hov.cells, grid.hov.tail) == MovedHighlight(View(old(grid.hov.cells), old(grid.hov.tail)), to)
    {
      ghost var v := View(grid.hov.cells, grid.hov.tail);
      var from := FindHighlighted();
      if from.Some? {
        SetHighlightedClass(from.value, false);
      }
      SetHighlightedClass(to, true);
      var m := FindMark();
      if m >= 0 && to.CandidateH? && grid.hov.cells[to.index].mark.NoMark? {
        var j := to.index;
        var cells := grid.hov.cells;
        grid.hov.cells := cells[j := cells[j].(mark := cells[m].mark)][m := cells[m].(mark := NoMark)];
      }
    }

    /** The search behind `querySelector('.fcitx-highlighted')`. */
    method FindHighlighted() returns (r: Option<Hoverable>)
      ensures r == FirstHighlighted(View(grid.hov.cells, grid.hov.tail))
    {
      var cells := grid.hov.cells;
      var i := 0;
      while i < |cells|
        invariant 0 <= i <= |cells|
        invariant FirstHighlightedCell(cells, i) == FirstHighlightedCell(cells, 0)
        invariant forall k :: 0 <= k < i ==> !cells[k].highlighted
      {
        if cells[i].highlighted {
          return Some(CandidateH(i));
        }
        i := i + 1;
      }
      match grid.hov.tail
      case NoTail => r := None;
      case ExpandTail(e) => r := if e then Some(ExpandH) else None;
      case PagingTail(_, _, _, p, q) => r := if p then Some(PrevH) else if q then Some(NextH) else None;
    }

    /** The search behind `hoverables.querySelector('.fcitx-mark')`. */
    method FindMark() returns (m: int)
      ensures m == FirstMarkCell(grid.hov.cells, 0)
    {
      var cells := grid.hov.cells;
      m := 0;
      while m < |cells|
        invariant 0 <= m <= |cells|
        invariant FirstMarkCell(cells, m) == FirstMarkCell(cells, 0)
      {
        if !cells[m].mark.NoMark? {
          return;
        }
        m := m + 1;
      }
      m := -1;
    }

    method SetHighlightedClass(h: Hoverable, value: bool)
      requires Present(View(grid.hov.cells, grid.hov.tail), h)
      modifies grid.hov`cells, grid.hov`tail
      ensures View(grid.hov.cells, grid.hov.tail) == SetHighlighted(View(old(grid.hov.cells), old(grid.hov.tail)), h, value)
    {
      match h
      case CandidateH(i) => grid.hov.cells := grid.hov.cells[i := grid.hov.cells[i].(highlighted := value)];
      case ExpandH => grid.hov.tail := grid.hov.tail.(expandHighlighted := value);
      case PrevH => grid.hov.tail := grid.hov.tail.(prevHighlighted := value);
      case NextH => grid.hov.tail := grid.hov.tail.(nextHighlighted := value);
    }

    /** `updateInputPanel(preeditHTML, auxUpHTML, auxDownHTML)` */
    method UpdateInputPanel(preeditHTML: string, auxUpHTML: string, auxDownHTML: string)
      requires Valid()
      modifies this`themeHidden, mouse`menu, preedit, auxUp, auxDown
      ensures Valid()
      ensures themeHidden == (old(themeHidden) && preeditHTML == "" && auxUpHTML == "" && auxDownHTML == "")
      ensures mouse.menu == MenuHidden
      ensures preeditHTML == "" ==> preedit.hidden && preedit.html == old(preedit.html)
      ensures preeditHTML != "" ==> !preedit.hidden && preedit.html == preeditHTML
      ensures auxUpHTML == "" ==> auxUp.hidden && auxUp.html == old(auxUp.html)
      ensures auxUpHTML != "" ==> !auxUp.hidden && auxUp.html == auxUpHTML
      ensures auxDownHTML == "" ==> auxDown.hidden && auxDown.html == old(auxDown.html)
      ensures auxDownHTML != "" ==> !auxDown.hidden && auxDown.html == auxDownHTML
    {
      if preeditHTML != "" || auxUpHTML != "" || auxDownHTML != "" {
        themeHidden := false;
      }
      mouse.HideContextmenu();
      preedit.Update(preeditHTML);
      auxUp.Update(auxUpHTML);
      auxDown.Update(auxDownHTML);
    }

    /** `hidePanel()`: hides the text areas, empties `hoverables` and hides the panel,
        so nothing is left highlighted. */
    method HidePanel()
      requires Valid()
      modifies this`themeHidden, this`colorTransition, mouse`mouseMoveState, mouse`menu, mouse`actions
      modifies grid`scrollState, grid`fetching, grid`scrollEnd, grid`rowItemCount, grid`highlighted, labels
      modifies grid.hov`cells, grid.hov`tail, grid.hov`scrollTop, grid.hov`mouseMoved
      modifies grid.hov`horizontalScroll, grid.hov`maxBlockSize
      modifies preedit, auxUp, auxDown
      ensures Valid()
      ensures themeHidden && preedit.hidden && auxUp.hidden && auxDown.hidden
      ensures preedit.html == old(preedit.html) && auxUp.html == old(auxUp.html) && auxDown.html == old(auxDown.html)
      ensures grid.hov.cells == [] && grid.hov.tail == NoTail && grid.hov.scrollTop == 0
      ensures forall h :: !Present(View(grid.hov.cells, grid.hov.tail), h)
      ensures grid.scrollState == SCROLL_NONE && mouse.menu == MenuHidden && mouse.actions == []
    {
      UpdateInputPanel("", "", "");
      SetCandidates([], -1, "", false, false, false, SCROLL_NONE, false, false, [], 0, s => false);
      themeHidden := true;
    }
  }
}
