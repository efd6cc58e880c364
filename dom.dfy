/** The parts of the page that several page modules share: the candidate area
    (`hoverables`) with its candidate cells, and the log of calls the page makes into
    the native host (`window.fcitx._select`, `_scroll`, `_page`, `_askActions`). */
module Dom {
  import opened Wrappers

  /** A rendered box in the coordinates of the scrollable content, so that an
      element's distance to the top of the visible area is `top - scrollTop`. */
  datatype Rect = Rect(left: int, right: int, top: int, bottom: int)

  /** The highlight mark element of a cell: absent, empty (`fcitx-no-text`), or
      holding the mark text. */
  datatype Mark = NoMark | MarkNoText | MarkText(html: string)

  /** One candidate element (`fcitx-candidate`) as the page modules see it. The
      scroll engine's `highlighted` and `highlighted-row` classes are `highlighted`
      and `inRow`; its `.label` element is `labelText`. */
  datatype Cell = Cell(
    rect: Rect,
    first: bool,              // fcitx-candidate-first
    last: bool,               // fcitx-candidate-last
    highlighted: bool,        // fcitx-highlighted
    highlightedOriginal: bool, // fcitx-highlighted-original
    inRow: bool,              // highlighted-row
    mark: Mark,
    labelText: Option<string>, // innerHTML of the label element, if there is one
    text: string,
    horizontalTb: bool,       // writing mode forced for a lone emoji
    comment: Option<string>)

  /** What follows the candidates and their dividers. */
  datatype Tail =
    | NoTail
    | ExpandTail(expandHighlighted: bool)
    | PagingTail(arrow: bool, prevEnabled: bool, nextEnabled: bool,
                 prevHighlighted: bool, nextHighlighted: bool)

  /** The children of `hoverables` in document order. */
  datatype Child = CandidateChild(index: nat) | DividerChild(paging: bool) | ExpandChild | PagingChild

  /** Every candidate is followed by one plain divider; a tail adds a paging divider
      and its button container. */
  function Layout(n: nat, tail: Tail): (r: seq<Child>)
    ensures |r| == 2 * n + (if tail.NoTail? then 0 else 2)
    ensures forall k :: 0 <= k < n ==> r[2 * k] == CandidateChild(k) && r[2 * k + 1] == DividerChild(false)
  {
    if n == 0 then
      match tail
      case NoTail => []
      case ExpandTail(_) => [DividerChild(true), ExpandChild]
      case PagingTail(_, _, _, _, _) => [DividerChild(true), PagingChild]
    else
      var r := Layout(n - 1, tail);
      r[..2 * (n - 1)] + [CandidateChild(n - 1), DividerChild(false)] + r[2 * (n - 1)..]
  }

  /** The `hoverables` element: its candidate cells and tail, its scroll offset,
      and the classes and style other modules toggle on it. */
  class Hoverables {
    var cells: seq<Cell>
    var tail: Tail
    var scrollTop: int
    var mouseMoved: bool          // fcitx-mousemoved
    var horizontalScroll: bool    // fcitx-horizontal-scroll
    var vertical: bool            // fcitx-vertical
    var maxBlockSize: string      // style.maxBlockSize

    constructor (vertical: bool)
      ensures cells == [] && tail == NoTail && scrollTop == 0 && !mouseMoved
      ensures !horizontalScroll && this.vertical == vertical && maxBlockSize == ""
    {
      cells := [];
      tail := NoTail;
      scrollTop := 0;
      mouseMoved := false;
      horizontalScroll := false;
      this.vertical := vertical;
      maxBlockSize := "";
    }
  }

  /** A context-menu entry of a candidate, as the host sends it. */
  datatype CandidateAction = CandidateAction(id: int, text: string)

  /** A candidate as the host sends it to `setCandidates`. */
  datatype Candidate = Candidate(text: string, labelText: string, comment: string, actions: seq<CandidateAction>)

  /** A call from the page into the native host. */
  datatype HostCall =
    | Select(index: int)
    | Scroll(start: int, length: int)
    | Page(next: bool)
    | AskActions(index: int)
    | Action(index: int, id: int)

  /** The log of calls made into the host, in order. */
  class Host {
    var calls: seq<HostCall>

    constructor ()
      ensures calls == []
    {
      calls := [];
    }
  }
}
