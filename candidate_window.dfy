/** The native candidate window of src/webview_candidate_window.cpp: what it
    sends to the page. Candidates and actions are HTML-escaped field by field
    before they are sent, and formatted text (slices of text with format
    flags) becomes HTML with `<u>`, `<mark>`, `<b>`, `<s>`, `<i>` tags and, for
    the preedit, the `fcitx-pre-cursor`, `fcitx-cursor` and
    `fcitx-post-cursor` divs. `escape_html` is a parameter. Strings are taken
    as sequences of the units `std::string` counts, so `size` and `substr`
    are `|s|` and slicing. */
module CandidateWindow {
  import opened JsBridge

  datatype CandidateAction = CandidateAction(id: int, text: string)

  datatype Candidate = Candidate(text: string, labelText: string, comment: string, actions: seq<CandidateAction>)

  /** `to_json` of an action: `{"id": id, "text": text}`. */
  function ActionJson(a: CandidateAction): JsonValue
  {
    JObject([("id", JInt(a.id)), ("text", JString(a.text))])
  }

  function ActionsJson(actions: seq<CandidateAction>): JsonValue
  {
    JArray(seq(|actions|, i requires 0 <= i < |actions| => ActionJson(actions[i])))
  }

  /** `to_json` of a candidate: `{"text", "label", "comment", "actions"}`. */
  function CandidateJson(c: Candidate): JsonValue
  {
    JObject([("text", JString(c.text)), ("label", JString(c.labelText)), ("comment", JString(c.comment)),
             ("actions", ActionsJson(c.actions))])
  }

  function CandidatesJson(cs: seq<Candidate>): JsonValue
  {
    JArray(seq(|cs|, i requires 0 <= i < |cs| => CandidateJson(cs[i])))
  }

  // Escaping

  /** `escape_action`: the same id, the text escaped. */
  function EscapeAction(esc: string -> string, a: CandidateAction): CandidateAction
  {
    CandidateAction(a.id, esc(a.text))
  }

  /** `r` is `actions` with every text escaped: as many actions, in the same
      order, with the same ids. */
  predicate EscapedActions(esc: string -> string, actions: seq<CandidateAction>, r: seq<CandidateAction>)
  {
    |r| == |actions| && forall i :: 0 <= i < |actions| ==> r[i].id == actions[i].id && r[i].text == esc(actions[i].text)
  }

  predicate EscapedCandidate(esc: string -> string, c: Candidate, r: Candidate)
  {
    r.text == esc(c.text) && r.labelText == esc(c.labelText) && r.comment == esc(c.comment)
    && EscapedActions(esc, c.actions, r.actions)
  }

  predicate EscapedCandidates(esc: string -> string, cs: seq<Candidate>, r: seq<Candidate>)
  {
    |r| == |cs| && forall i :: 0 <= i < |cs| ==> EscapedCandidate(esc, cs[i], r[i])
  }

  /** The escaped form is determined by the input: there is only one. */
  lemma EscapedCandidatesUnique(esc: string -> string, cs: seq<Candidate>, r1: seq<Candidate>, r2: seq<Candidate>)
    requires EscapedCandidates(esc, cs, r1) && EscapedCandidates(esc, cs, r2)
    ensures r1 == r2
  {
    forall i | 0 <= i < |cs|
      ensures r1[i] == r2[i]
    {
      var a1, a2 := r1[i].actions, r2[i].actions;
      forall j | 0 <= j < |a1|
        ensures a1[j] == a2[j]
      {
      }
    }
  }

  /** `std::transform(actions, escape_action)` into a new vector. */
  method EscapeActions(esc: string -> string, actions: seq<CandidateAction>) returns (r: seq<CandidateAction>)
    ensures EscapedActions(esc, actions, r)
  {
    r := [];
    for i := 0 to |actions|
      invariant EscapedActions(esc, actions[..i], r)
    {
      r := r + [EscapeAction(esc, actions[i])];
    }
  }

  /** `escape_candidate`: text, label and comment escaped, and the actions as
      `EscapeActions` makes them. */
  method EscapeCandidate(esc: string -> string, c: Candidate) returns (r: Candidate)
    ensures EscapedCandidate(esc, c, r)
  {
    var actions := EscapeActions(esc, c.actions);
    r := Candidate(esc(c.text), esc(c.labelText), esc(c.comment), actions);
  }

  /** The `std::transform(candidates, escape_candidate)` of `set_candidates`. */
  method EscapeCandidates(esc: string -> string, cs: seq<Candidate>) returns (r: seq<Candidate>)
    ensures EscapedCandidates(esc, cs, r)
  {
    r := [];
    for i := 0 to |cs|
      invariant EscapedCandidates(esc, cs[..i], r)
    {
      var c := EscapeCandidate(esc, cs[i]);
      r := r + [c];
    }
  }

  // Format tags

  /** The bits of `format_t`. */
  const UNDERLINE: bv32 := 0x8
  const HIGHLIGHT: bv32 := 0x10
  const BOLD: bv32 := 0x40
  const STRIKE: bv32 := 0x80
  const ITALIC: bv32 := 0x100

  /** `build_html_open_tags` */
  function OpenTags(flags: bv32): string
  {
    (if flags & UNDERLINE != 0 then "<u>" else "")
    + (if flags & HIGHLIGHT != 0 then "<mark>" else "")
    + (if flags & BOLD != 0 then "<b>" else "")
    + (if flags & STRIKE != 0 then "<s>" else "")
    + (if flags & ITALIC != 0 then "<i>" else "")
  }

  /** `build_html_close_tags` */
  function CloseTags(flags: bv32): string
  {
    (if flags & UNDERLINE != 0 then "</u>" else "")
    + (if flags & HIGHLIGHT != 0 then "</mark>" else "")
    + (if flags & BOLD != 0 then "</b>" else "")
    + (if flags & STRIKE != 0 then "</s>" else "")
    + (if flags & ITALIC != 0 then "</i>" else "")
  }

  /** Each format bit with the element it stands for, in the order the tags
      are written. */
  const FORMAT_TAGS: seq<(bv32, string)> := [(UNDERLINE, "u"), (HIGHLIGHT, "mark"), (BOLD, "b"), (STRIKE, "s"), (ITALIC, "i")]

  /** The elements of the bits set in `flags`, keeping the order of `tags`. */
  function TagNames(tags: seq<(bv32, string)>, flags: bv32): seq<string>
  {
    if |tags| == 0 then []
    else (if flags & tags[0].0 != 0 then [tags[0].1] else []) + TagNames(tags[1..], flags)
  }

  /** `<name>` for every name, in order; `</name>` when `close`. */
  function Tags(names: seq<string>, close: bool): string
  {
    if |names| == 0 then "" else (if close then "</" else "<") + names[0] + ">" + Tags(names[1..], close)
  }

  lemma TagsAppend(a: seq<string>, b: seq<string>, close: bool)
    ensures Tags(a + b, close) == Tags(a, close) + Tags(b, close)
  {
    if |a| > 0 {
      TagsAppend(a[1..], b, close);
      assert (a + b)[1..] == a[1..] + b;
    } else {
      assert a + b == b;
    }
  }

  /** One condition of the tag builders is one entry of `FORMAT_TAGS`. */
  lemma TagStep(flags: bv32, tags: seq<(bv32, string)>, close: bool)
    requires |tags| >= 1
    ensures Tags(TagNames(tags, flags), close) ==
      (if flags & tags[0].0 != 0 then (if close then "</" else "<") + tags[0].1 + ">" else "")
      + Tags(TagNames(tags[1..], flags), close)
  {
    var head := if flags & tags[0].0 != 0 then [tags[0].1] else [];
    TagsAppend(head, TagNames(tags[1..], flags), close);
  }

  /** Five pieces joined from the right are the same pieces joined from the left. */
  lemma Assoc5(a: string, b: string, c: string, d: string, e: string)
    ensures a + (b + (c + (d + (e + "")))) == a + b + c + d + e
  {
  }

  /** The reference walk over `FORMAT_TAGS`, one entry at a time. */
  lemma TagsUnfold(flags: bv32, close: bool)
    ensures Tags(TagNames(FORMAT_TAGS, flags), close) ==
      (if flags & UNDERLINE != 0 then (if close then "</" else "<") + "u" + ">" else "")
      + ((if flags & HIGHLIGHT != 0 then (if close then "</" else "<") + "mark" + ">" else "")
      + ((if flags & BOLD != 0 then (if close then "</" else "<") + "b" + ">" else "")
      + ((if flags & STRIKE != 0 then (if close then "</" else "<") + "s" + ">" else "")
      + ((if flags & ITALIC != 0 then (if close then "</" else "<") + "i" + ">" else "") + ""))))
  {
    var t := FORMAT_TAGS;
    assert t[1..][1..] == t[2..] && t[2..][1..] == t[3..] && t[3..][1..] == t[4..] && t[4..][1..] == [];
    TagStep(flags, t, close);
    TagStep(flags, t[1..], close);
    TagStep(flags, t[2..], close);
    TagStep(flags, t[3..], close);
    TagStep(flags, t[4..], close);
  }

  /** The open tags are the set bits' elements in the fixed order u, mark, b,
      s, i. */
  lemma OpenTagsSpec(flags: bv32)
    ensures OpenTags(flags) == Tags(TagNames(FORMAT_TAGS, flags), false)
  {
    TagsUnfold(flags, false);
    assert "<" + "u" + ">" == "<u>" && "<" + "mark" + ">" == "<mark>" && "<" + "b" + ">" == "<b>"
      && "<" + "s" + ">" == "<s>" && "<" + "i" + ">" == "<i>";
    Assoc5(if flags & UNDERLINE != 0 then "<u>" else "", if flags & HIGHLIGHT != 0 then "<mark>" else "",
           if flags & BOLD != 0 then "<b>" else "", if flags & STRIKE != 0 then "<s>" else "",
           if flags & ITALIC != 0 then "<i>" else "");
  }

  /** The close tags name the same elements in the same order as the open
      tags, not reversed. */
  lemma CloseTagsSpec(flags: bv32)
    ensures CloseTags(flags) == Tags(TagNames(FORMAT_TAGS, flags), true)
  {
    TagsUnfold(flags, true);
    assert "</" + "u" + ">" == "</u>" && "</" + "mark" + ">" == "</mark>" && "</" + "b" + ">" == "</b>"
      && "</" + "s" + ">" == "</s>" && "</" + "i" + ">" == "</i>";
    Assoc5(if flags & UNDERLINE != 0 then "</u>" else "", if flags & HIGHLIGHT != 0 then "</mark>" else "",
           if flags & BOLD != 0 then "</b>" else "", if flags & STRIKE != 0 then "</s>" else "",
           if flags & ITALIC != 0 then "</i>" else "");
  }

  /** Underline with bold opens `<u><b>` and closes `</u></b>`: the elements
      are not nested. */
  lemma CloseTagsNotNested()
    ensures OpenTags(UNDERLINE | BOLD) == "<u><b>" && CloseTags(UNDERLINE | BOLD) == "</u></b>"
  {
  }

  // Formatted text

  /** One element of `formatted<std::string>`: text and format flags. */
  datatype Slice = Slice(text: string, format: bv32)

  const PRE_CURSOR: string := "<div class=\"fcitx-pre-cursor\">"
  const CURSOR_NO_TEXT: string := "</div><div class=\"fcitx-cursor fcitx-no-text\">"
  const CURSOR: string := "</div><div class=\"fcitx-cursor\">"
  const POST_CURSOR: string := "</div><div class=\"fcitx-post-cursor\">"

  /** Where slice `j` starts: the length of the texts before it. */
  function Start(f: seq<Slice>, j: nat): nat
    requires j <= |f|
  {
    if j == 0 then 0 else Start(f, j - 1) + |f[j - 1].text|
  }

  /** Where slice `j` ends. */
  function End(f: seq<Slice>, j: nat): nat
    requires j < |f|
  {
    Start(f, j) + |f[j].text|
  }

  lemma {:induction false} StartMonotone(f: seq<Slice>, i: nat, j: nat)
    requires i <= j <= |f|
    ensures Start(f, i) <= Start(f, j)
    decreases j - i
  {
    if i < j {
      StartMonotone(f, i, j - 1);
    }
  }

  /** A slice without the cursor: its tags around its escaped text. */
  function PlainPiece(esc: string -> string, s: Slice): string
  {
    OpenTags(s.format) + esc(s.text) + CloseTags(s.format)
  }

  /** A slice while the cursor is still ahead: a `</div>` after the text,
      inside the slice's tags. */
  function BeforePiece(esc: string -> string, s: Slice): string
  {
    OpenTags(s.format) + esc(s.text) + "</div>" + CloseTags(s.format)
  }

  /** The cursor div: marked `fcitx-no-text` when there is no cursor text,
      otherwise holding the escaped cursor text. */
  function CursorHtml(esc: string -> string, cursorText: string): string
  {
    if |cursorText| == 0 then CURSOR_NO_TEXT else CURSOR + esc(cursorText)
  }

  /** The slice holding the cursor `c` units into its text: the text is split
      there, the prefix before the cursor div and the rest in the post-cursor
      div. */
  function CursorPiece(esc: string -> string, s: Slice, c: nat, cursorText: string): string
    requires c <= |s.text|
  {
    OpenTags(s.format) + esc(s.text[..c]) + CursorHtml(esc, cursorText) + POST_CURSOR + esc(s.text[c..])
    + CloseTags(s.format)
  }

  /** Slices `lo` to `hi - 1` without the cursor. */
  function PlainRange(esc: string -> string, f: seq<Slice>, lo: nat, hi: nat): string
    requires lo <= hi <= |f|
    decreases hi
  {
    if lo == hi then "" else PlainRange(esc, f, lo, hi - 1) + PlainPiece(esc, f[hi - 1])
  }

  /** Slices `0` to `hi - 1`, all before the cursor. */
  function BeforeRange(esc: string -> string, f: seq<Slice>, hi: nat): string
    requires hi <= |f|
  {
    if hi == 0 then "" else BeforeRange(esc, f, hi - 1) + BeforePiece(esc, f[hi - 1])
  }

  /** Searches from slice `k` for the first slice whose span, ends included,
      holds the cursor; `|f|` when none does. */
  function FindCursor(f: seq<Slice>, cursor: int, k: nat): (r: nat)
    requires k <= |f|
    ensures k <= r <= |f|
    ensures r < |f| ==> cursor <= End(f, r)
    ensures forall j :: k <= j < r ==> cursor > End(f, j)
    decreases |f| - k
  {
    if k == |f| then k
    else if cursor <= End(f, k) then k
    else FindCursor(f, cursor, k + 1)
  }

  /** The slice the cursor is drawn in: the first whose span, ends included,
      holds it, or `|f|` when the cursor lies beyond the text. */
  function CursorSlice(f: seq<Slice>, cursor: nat): (k: nat)
    ensures k <= |f|
    ensures k < |f| ==> Start(f, k) <= cursor <= End(f, k)
    ensures forall j :: 0 <= j < k ==> cursor > End(f, j)
  {
    var k := FindCursor(f, cursor, 0);
    if k > 0 then assert cursor > End(f, k - 1); k else k
  }

  /** What `formatted_to_html(f, cursorText, cursor)` returns. Without a
      cursor, each slice's tags around its escaped text. With one, the
      pre-cursor div first; every slice before the cursor slice with `</div>`
      after its text; the cursor slice, split at the cursor; the later slices
      plain. A cursor beyond the text leaves every slice before it. */
  function FormattedHtml(esc: string -> string, f: seq<Slice>, cursorText: string, cursor: int): string
  {
    if cursor < 0 then PlainRange(esc, f, 0, |f|)
    else
      var k := CursorSlice(f, cursor);
      if k == |f| then PRE_CURSOR + BeforeRange(esc, f, |f|)
      else
        PRE_CURSOR + BeforeRange(esc, f, k) + CursorPiece(esc, f[k], cursor - Start(f, k), cursorText)
        + PlainRange(esc, f, k + 1, |f|)
  }

  /** The cursor is drawn exactly when there is a slice and the cursor does
      not lie beyond the text. */
  lemma CursorDrawn(f: seq<Slice>, cursor: nat)
    ensures CursorSlice(f, cursor) < |f| <==> |f| > 0 && cursor <= Start(f, |f|)
  {
    var k := CursorSlice(f, cursor);
    if k < |f| {
      StartMonotone(f, k + 1, |f|);
    } else if |f| > 0 {
      assert cursor > End(f, |f| - 1);
    }
  }

  /** A cursor exactly at the end of slice `j` is drawn in slice `j` or
      earlier, never at the start of the slice after it. */
  lemma CursorAtSliceEnd(f: seq<Slice>, cursor: nat, j: nat)
    requires j < |f| && cursor == End(f, j)
    ensures CursorSlice(f, cursor) <= j
  {
  }

  /** What slice `j` adds to the output: its `</div>` piece before the slice
      the cursor is drawn in, the split piece in that slice, and the plain
      piece after it or when there is no cursor. */
  function SlicePiece(esc: string -> string, f: seq<Slice>, cursorText: string, cursor: int, j: nat): string
    requires j < |f|
  {
    if cursor < 0 then PlainPiece(esc, f[j])
    else
      var k := CursorSlice(f, cursor);
      if j < k then BeforePiece(esc, f[j])
      else if j == k then CursorPiece(esc, f[j], cursor - Start(f, j), cursorText)
      else PlainPiece(esc, f[j])
  }

  /** The output after the first `i` slices, in the closed form of
      `FormattedHtml`. */
  function ClosedPartial(esc: string -> string, f: seq<Slice>, cursorText: string, cursor: int, i: nat): string
    requires i <= |f|
  {
    if cursor < 0 then PlainRange(esc, f, 0, i)
    else
      var k := CursorSlice(f, cursor);
      if i <= k then PRE_CURSOR + BeforeRange(esc, f, i)
      else
        PRE_CURSOR + BeforeRange(esc, f, k) + CursorPiece(esc, f[k], cursor - Start(f, k), cursorText)
        + PlainRange(esc, f, k + 1, i)
  }

  /** Before any slice: the pre-cursor div when there is a cursor, nothing otherwise. */
  lemma PartialStart(esc: string -> string, f: seq<Slice>, cursorText: string, cursor: int)
    ensures ClosedPartial(esc, f, cursorText, cursor, 0) == if cursor >= 0 then PRE_CURSOR else ""
  {
    if cursor >= 0 {
      EmptyRight(PRE_CURSOR);
    }
  }

  /** A slice before the cursor slice adds its `</div>` piece. */
  lemma PartialBefore(esc: string -> string, f: seq<Slice>, cursorText: string, cursor: nat, i: nat)
    requires i < CursorSlice(f, cursor)
    ensures ClosedPartial(esc, f, cursorText, cursor, i + 1) == ClosedPartial(esc, f, cursorText, cursor, i) + BeforePiece(esc, f[i])
  {
    Assoc(PRE_CURSOR, BeforeRange(esc, f, i), BeforePiece(esc, f[i]));
  }

  /** The cursor slice adds the split text around the cursor div. */
  lemma PartialAt(esc: string -> string, f: seq<Slice>, cursorText: string, cursor: nat, i: nat)
    requires i == CursorSlice(f, cursor) < |f|
    ensures ClosedPartial(esc, f, cursorText, cursor, i + 1) ==
      ClosedPartial(esc, f, cursorText, cursor, i) + CursorPiece(esc, f[i], cursor - Start(f, i), cursorText)
  {
    EmptyRight(PRE_CURSOR + BeforeRange(esc, f, i) + CursorPiece(esc, f[i], cursor - Start(f, i), cursorText));
  }

  /** Any other slice adds its plain piece. */
  lemma PartialPlain(esc: string -> string, f: seq<Slice>, cursorText: string, cursor: int, i: nat)
    requires i < |f|
    requires cursor < 0 || CursorSlice(f, cursor) < i
    ensures ClosedPartial(esc, f, cursorText, cursor, i + 1) == ClosedPartial(esc, f, cursorText, cursor, i) + PlainPiece(esc, f[i])
  {
    if cursor >= 0 {
      var k := CursorSlice(f, cursor);
      Assoc(PRE_CURSOR + BeforeRange(esc, f, k) + CursorPiece(esc, f[k], cursor - Start(f, k), cursorText),
            PlainRange(esc, f, k + 1, i), PlainPiece(esc, f[i]));
    }
  }

  /** Each slice's piece extends the closed form by one slice. */
  lemma ClosedStep(esc: string -> string, f: seq<Slice>, cursorText: string, cursor: int, j: nat)
    requires j < |f|
    ensures ClosedPartial(esc, f, cursorText, cursor, j + 1)
            == ClosedPartial(esc, f, cursorText, cursor, j) + SlicePiece(esc, f, cursorText, cursor, j)
  {
    if cursor < 0 {
      PartialPlain(esc, f, cursorText, cursor, j);
    } else {
      var k := CursorSlice(f, cursor);
      if j < k {
        PartialBefore(esc, f, cursorText, cursor, j);
      } else if j == k {
        PartialAt(esc, f, cursorText, cursor, j);
      } else {
        PartialPlain(esc, f, cursorText, cursor, j);
      }
    }
  }

  /** After the last slice the closed form is `FormattedHtml`. */
  lemma ClosedIsFormatted(esc: string -> string, f: seq<Slice>, cursorText: string, cursor: int)
    ensures ClosedPartial(esc, f, cursorText, cursor, |f|) == FormattedHtml(esc, f, cursorText, cursor)
  {
  }

  lemma Assoc(a: string, b: string, c: string)
    ensures a + (b + c) == a + b + c
  {
  }

  lemma EmptyRight(a: string)
    ensures a + "" == a
  {
  }

  lemma EmptyLeft(a: string)
    ensures "" + a == a
  {
  }

  /** The slice the cursor is drawn in is the first whose span holds it. */
  lemma CursorSliceFirst(f: seq<Slice>, cursor: nat, i: nat)
    requires i < |f| && Start(f, i) <= cursor <= End(f, i) && i <= CursorSlice(f, cursor)
    ensures CursorSlice(f, cursor) == i
  {
  }

  /** What the loop of `formatted_to_html` carries from one slice to the
      next: the stream's text, `cursor_pos` and `cursor`. */
  datatype Stream = Stream(html: string, pos: int, cursor: int)

  /** One turn of the loop on slice `s`. The slice whose span, ends
      included, holds a cursor still to be drawn is split around the cursor
      div and clears the cursor to -1; any other slice is written whole,
      moves `cursor_pos` past its text and closes the pre-cursor div while a
      cursor is still ahead. */
  function Emit(esc: string -> string, s: Slice, cursorText: string, st: Stream): Stream
  {
    var hit := st.pos <= st.cursor <= st.pos + |s.text|;
    var c := st.cursor - st.pos;
    Stream(st.html + OpenTags(s.format)
           + esc(if hit then s.text[..c] else s.text)
           + (if hit then CursorHtml(esc, cursorText) + POST_CURSOR else if st.cursor >= 0 then "</div>" else "")
           + (if hit then esc(s.text[c..]) else "")
           + CloseTags(s.format),
           if hit then st.pos else st.pos + |s.text|,
           if hit then -1 else st.cursor)
  }

  /** Where the loop stands before slice `i`: no cursor stays no cursor; a
      cursor still ahead is the one given, lies at or beyond slice `i`, and
      `cursor_pos` is the start of slice `i`; a drawn cursor was drawn in an
      earlier slice. */
  predicate Placed(f: seq<Slice>, cursor: int, i: nat, st: Stream)
    requires i <= |f|
  {
    st.pos >= 0
    && (cursor < 0 ==> st.cursor == cursor)
    && (cursor >= 0 && st.cursor >= 0 ==> st.cursor == cursor && i <= CursorSlice(f, cursor) && st.pos == Start(f, i))
    && (cursor >= 0 && st.cursor < 0 ==> st.cursor == -1 && CursorSlice(f, cursor) < i)
  }

  /** `x` followed by the cursor slice's parts is `x` followed by its piece. */
  lemma CursorParts(x: string, a: string, b: string, c: string, d: string, e: string, g: string)
    ensures x + a + b + (c + d) + e + g == x + (a + b + c + d + e + g)
  {
  }

  /** `x` followed by the parts of a slice before the cursor is `x` followed
      by its piece. */
  lemma BeforeParts(x: string, a: string, b: string, d: string, g: string)
    ensures x + a + b + d + "" + g == x + (a + b + d + g)
  {
  }

  /** `x` followed by a plain slice's parts is `x` followed by its piece. */
  lemma PlainParts(x: string, a: string, b: string, g: string)
    ensures x + a + b + "" + "" + g == x + (a + b + g)
  {
  }

  /** One turn from a state placed before slice `j` appends that slice's
      piece and leaves a state placed before slice `j + 1`. */
  lemma EmitStep(esc: string -> string, f: seq<Slice>, cursorText: string, cursor: int, j: nat, st: Stream)
    requires j < |f| && Placed(f, cursor, j, st)
    ensures Emit(esc, f[j], cursorText, st).html == st.html + SlicePiece(esc, f, cursorText, cursor, j)
    ensures Placed(f, cursor, j + 1, Emit(esc, f[j], cursorText, st))
  {
    var s := f[j];
    if st.pos <= st.cursor <= st.pos + |s.text| {
      CursorSliceFirst(f, cursor, j);
      var c := st.cursor - st.pos;
      CursorParts(st.html, OpenTags(s.format), esc(s.text[..c]), CursorHtml(esc, cursorText), POST_CURSOR,
                  esc(s.text[c..]), CloseTags(s.format));
    } else if st.cursor >= 0 {
      BeforeParts(st.html, OpenTags(s.format), esc(s.text), "</div>", CloseTags(s.format));
    } else {
      PlainParts(st.html, OpenTags(s.format), esc(s.text), CloseTags(s.format));
    }
  }

  /** A turn from a placed state holding the closed form of the first `j`
      slices holds the closed form of the first `j + 1`. */
  lemma ClosedEmit(esc: string -> string, f: seq<Slice>, cursorText: string, cursor: int, j: nat, st: Stream, next: Stream)
    requires j < |f| && st.html == ClosedPartial(esc, f, cursorText, cursor, j) && Placed(f, cursor, j, st)
    requires next == Emit(esc, f[j], cursorText, st)
    ensures next.html == ClosedPartial(esc, f, cursorText, cursor, j + 1) && Placed(f, cursor, j + 1, next)
  {
    EmitStep(esc, f, cursorText, cursor, j, st);
    ClosedStep(esc, f, cursorText, cursor, j);
  }

  /** The method's appends for the cursor slice, in the grouping `Emit` writes. */
  lemma CursorAppends(x: string, a: string, b: string, c: string, d: string, e: string, g: string)
    ensures x + a + b + c + d + e + g == x + a + b + (c + d) + e + g
  {
  }

  /** The method's appends for a slice without the cursor, in the grouping
      `Emit` writes. */
  lemma PlainAppends(x: string, a: string, b: string, c: string)
    ensures x + a + b + c == x + a + b + "" + "" + c
  {
  }

  /** The method's appends for a slice before the cursor, in the grouping
      `Emit` writes. */
  lemma BeforeAppends(x: string, a: string, b: string, c: string, d: string)
    ensures x + a + b + c + d == x + a + b + c + "" + d
  {
  }

  /** The three outcomes of a turn, written out. */
  lemma EmitCases(esc: string -> string, s: Slice, cursorText: string, st: Stream)
    ensures var c := st.cursor - st.pos;
      st.pos <= st.cursor <= st.pos + |s.text| ==>
        Emit(esc, s, cursorText, st) == Stream(st.html + OpenTags(s.format) + esc(s.text[..c])
          + (CursorHtml(esc, cursorText) + POST_CURSOR) + esc(s.text[c..]) + CloseTags(s.format), st.pos, -1)
    ensures !(st.pos <= st.cursor <= st.pos + |s.text|) && st.cursor >= 0 ==>
        Emit(esc, s, cursorText, st) == Stream(st.html + OpenTags(s.format) + esc(s.text) + "</div>" + ""
          + CloseTags(s.format), st.pos + |s.text|, st.cursor)
    ensures !(st.pos <= st.cursor <= st.pos + |s.text|) && st.cursor < 0 ==>
        Emit(esc, s, cursorText, st) == Stream(st.html + OpenTags(s.format) + esc(s.text) + "" + ""
          + CloseTags(s.format), st.pos + |s.text|, st.cursor)
  {
  }

  /** One turn of the loop of `formatted_to_html` on slice `slice`, with
      `ss0`, `cursorPos0` and `cursor0` what the loop carries into it. */
  method AppendSlice(esc: string -> string, slice: Slice, cursorText: string, ss0: string, cursorPos0: int,
                     cursor0: int) returns (ss: string, cursorPos: int, cursor: int)
    ensures Stream(ss, cursorPos, cursor) == Emit(esc, slice, cursorText, Stream(ss0, cursorPos0, cursor0))
  {
    EmitCases(esc, slice, cursorText, Stream(ss0, cursorPos0, cursor0));
    ss := ss0;
    cursorPos := cursorPos0;
    cursor := cursor0;
    ghost var placed := false;
    ss := ss + OpenTags(slice.format);
    var size := |slice.text|;
    if cursorPos <= cursor && cursor <= cursorPos + size {
      ss := ss + esc(slice.text[..cursor - cursorPos]);
      ghost var beforeCursor := ss;
      if |cursorText| == 0 {
        ss := ss + CURSOR_NO_TEXT;
      } else {
        ss := ss + CURSOR;
        ss := ss + esc(cursorText);
        assert ss == beforeCursor + CursorHtml(esc, cursorText);
      }
      ss := ss + POST_CURSOR;
      ss := ss + esc(slice.text[cursor - cursorPos..]);
      cursor := -1;
      placed := true;
    } else {
      ss := ss + esc(slice.text);
      cursorPos := cursorPos + size;
    }
    if cursor >= 0 {
      ss := ss + "</div>";
    }
    ss := ss + CloseTags(slice.format);
    if placed {
      var c := cursor0 - cursorPos0;
      CursorAppends(ss0, OpenTags(slice.format), esc(slice.text[..c]), CursorHtml(esc, cursorText), POST_CURSOR,
              esc(slice.text[c..]), CloseTags(slice.format));
    } else if cursor >= 0 {
      BeforeAppends(ss0, OpenTags(slice.format), esc(slice.text), "</div>", CloseTags(slice.format));
    } else {
      PlainAppends(ss0, OpenTags(slice.format), esc(slice.text), CloseTags(slice.format));
    }
  }

  /** One turn of the loop from a placed state holding the closed form of the
      first `i` slices leaves a placed state holding that of the first `i + 1`. */
  method AppendPlaced(esc: string -> string, f: seq<Slice>, cursorText: string, cursor0: int, i: nat,
                      ss0: string, cursorPos0: int, cur0: int) returns (ss: string, cursorPos: int, cursor: int)
    requires i < |f| && ss0 == ClosedPartial(esc, f, cursorText, cursor0, i)
    requires Placed(f, cursor0, i, Stream(ss0, cursorPos0, cur0))
    ensures ss == ClosedPartial(esc, f, cursorText, cursor0, i + 1)
    ensures Placed(f, cursor0, i + 1, Stream(ss, cursorPos, cursor))
  {
    ss, cursorPos, cursor := AppendSlice(esc, f[i], cursorText, ss0, cursorPos0, cur0);
    ClosedEmit(esc, f, cursorText, cursor0, i, Stream(ss0, cursorPos0, cur0), Stream(ss, cursorPos, cursor));
  }

  /** `formatted_to_html`: one pass over the slices appending to a string
      stream, with `cursor_pos` the length of the slices passed before the
      cursor and `cursor` set to -1 once the cursor is drawn. */
  method FormattedToHtml(esc: string -> string, f: seq<Slice>, cursorText: string, cursor0: int) returns (html: string)
    ensures html == FormattedHtml(esc, f, cursorText, cursor0)
  {
    var ss := "";
    var cursorPos := 0;
    var cursor := cursor0;
    if cursor >= 0 {
      ss := ss + PRE_CURSOR;
      EmptyLeft(PRE_CURSOR);
    }
    PartialStart(esc, f, cursorText, cursor0);
    for i := 0 to |f|
      invariant ss == ClosedPartial(esc, f, cursorText, cursor0, i)
      invariant Placed(f, cursor0, i, Stream(ss, cursorPos, cursor))
    {
      ss, cursorPos, cursor := AppendPlaced(esc, f, cursorText, cursor0, i, ss, cursorPos, cursor);
    }
    ClosedIsFormatted(esc, f, cursorText, cursor0);
    html := ss;
  }

  /** The window's state that the calls read, and the scripts it has queued
      for the page, oldest first. */
  class WebviewCandidateWindow {
    var highlightMarkText: string
    var pageable: bool
    var hasPrev: bool
    var hasNext: bool
    var cursorText: string
    var accentColorNil: bool
    var accentColor: int
    var layout: int
    var writingMode: int
    var scripts: seq<string>

    /** The defaults of the header: no accent colour reported, the macOS blue
        (4) as fallback, horizontal layout and horizontal writing mode (both 0). */
    constructor ()
      ensures !accentColorNil && accentColor == 4 && layout == 0 && writingMode == 0
      ensures highlightMarkText == "" && cursorText == "" && !pageable && !hasPrev && !hasNext
      ensures scripts == []
    {
      highlightMarkText := "";
      pageable := false;
      hasPrev := false;
      hasNext := false;
      cursorText := "";
      accentColorNil := false;
      accentColor := 4;
      layout := 0;
      writingMode := 0;
      scripts := [];
    }

    /** `set_accent_color`: `null` when the platform has no accent colour. */
    method SetAccentColor(dump: JsonValue -> string)
      modifies this`scripts
      ensures scripts == old(scripts) + [InvokeJs(dump, "setAccentColor", [if accentColorNil then JNull else JInt(accentColor)])]
    {
      if accentColorNil {
        scripts := scripts + [InvokeJs(dump, "setAccentColor", [JNull])];
      } else {
        scripts := scripts + [InvokeJs(dump, "setAccentColor", [JInt(accentColor)])];
      }
    }

    /** `set_layout`: records the layout, then tells the page. */
    method SetLayout(dump: JsonValue -> string, l: int)
      modifies this`layout, this`scripts
      ensures layout == l && scripts == old(scripts) + [InvokeJs(dump, "setLayout", [JInt(l)])]
    {
      layout := l;
      scripts := scripts + [InvokeJs(dump, "setLayout", [JInt(l)])];
    }

    /** `set_candidates`: every candidate escaped, in order, followed by the
        window's paging state and the escaped highlight mark. */
    method SetCandidates(esc: string -> string, dump: JsonValue -> string, candidates: seq<Candidate>, highlighted: int,
                         scrollState: int, scrollStart: bool, scrollEnd: bool)
      modifies this`scripts
      ensures exists escaped ::
        EscapedCandidates(esc, candidates, escaped)
        && scripts == old(scripts) + [InvokeJs(dump, "setCandidates",
             [CandidatesJson(escaped), JInt(highlighted), JString(esc(highlightMarkText)), JBool(pageable),
              JBool(hasPrev), JBool(hasNext), JInt(scrollState), JBool(scrollStart), JBool(scrollEnd)])]
    {
      var escaped := EscapeCandidates(esc, candidates);
      scripts := scripts + [InvokeJs(dump, "setCandidates",
        [CandidatesJson(escaped), JInt(highlighted), JString(esc(highlightMarkText)), JBool(pageable),
         JBool(hasPrev), JBool(hasNext), JInt(scrollState), JBool(scrollStart), JBool(scrollEnd)])];
    }

    /** `scroll_key_action` */
    method ScrollKeyAction(dump: JsonValue -> string, action: int)
      modifies this`scripts
      ensures scripts == old(scripts) + [InvokeJs(dump, "scrollKeyAction", [JInt(action)])]
    {
      scripts := scripts + [InvokeJs(dump, "scrollKeyAction", [JInt(action)])];
    }

    /** `answer_actions`: the actions escaped, in order, with their ids. */
    method AnswerActions(esc: string -> string, dump: JsonValue -> string, actions: seq<CandidateAction>)
      modifies this`scripts
      ensures exists escaped ::
        EscapedActions(esc, actions, escaped)
        && scripts == old(scripts) + [InvokeJs(dump, "answerActions", [ActionsJson(escaped)])]
    {
      var escaped := EscapeActions(esc, actions);
      scripts := scripts + [InvokeJs(dump, "answerActions", [ActionsJson(escaped)])];
    }

    /** `set_theme` */
    method SetTheme(dump: JsonValue -> string, theme: int)
      modifies this`scripts
      ensures scripts == old(scripts) + [InvokeJs(dump, "setTheme", [JInt(theme)])]
    {
      scripts := scripts + [InvokeJs(dump, "setTheme", [JInt(theme)])];
    }

    /** `set_writing_mode`: records the mode, then tells the page. */
    method SetWritingMode(dump: JsonValue -> string, mode: int)
      modifies this`writingMode, this`scripts
      ensures writingMode == mode && scripts == old(scripts) + [InvokeJs(dump, "setWritingMode", [JInt(mode)])]
    {
      writingMode := mode;
      scripts := scripts + [InvokeJs(dump, "setWritingMode", [JInt(mode)])];
    }

    /** `set_style`: the style text goes to the page as a JSON string. */
    method SetStyle(dump: JsonValue -> string, style: string)
      modifies this`scripts
      ensures scripts == old(scripts) + [InvokeJs(dump, "setStyle", [JString(style)])]
    {
      scripts := scripts + [InvokeJs(dump, "setStyle", [JString(style)])];
    }

    /** `update_input_panel`: the preedit with the window's cursor text at
        `preeditCursor`, and the two auxiliary lines without a cursor. */
    method UpdateInputPanel(esc: string -> string, dump: JsonValue -> string, preedit: seq<Slice>, preeditCursor: int,
                            auxUp: seq<Slice>, auxDown: seq<Slice>)
      modifies this`scripts
      ensures scripts == old(scripts) + [InvokeJs(dump, "updateInputPanel",
        [JString(FormattedHtml(esc, preedit, cursorText, preeditCursor)),
         JString(FormattedHtml(esc, auxUp, "", -1)), JString(FormattedHtml(esc, auxDown, "", -1))])]
    {
      var p := FormattedToHtml(esc, preedit, cursorText, preeditCursor);
      var u := FormattedToHtml(esc, auxUp, "", -1);
      var d := FormattedToHtml(esc, auxDown, "", -1);
      scripts := scripts + [InvokeJs(dump, "updateInputPanel", [JString(p), JString(u), JString(d)])];
    }

    /** `copy_html`: a call without arguments. */
    method CopyHtml(dump: JsonValue -> string)
      modifies this`scripts
      ensures scripts == old(scripts) + ["fcitx.copyHTML();"]
    {
      InvokeJsShape(dump, "copyHTML", []);
      assert "fcitx." + "copyHTML" + "();" == "fcitx.copyHTML();";
      scripts := scripts + [InvokeJs(dump, "copyHTML", [])];
    }
  }
}
