/** The theme customisation of page/customize.ts: `setStyle` turns a parsed style
    record into a dictionary from CSS selectors to declaration blocks, in the
    order the rules are first assigned, and prints it as the text of the
    `#fcitx-basic` style element. */
module Customize {
  import opened Wrappers
  import opened Text
  import opened OrderedDict
  import opened Css
  import Json
  import Ux

  // ---------------------------------------------------------------------------
  // Selectors

  /** The rules that do not depend on the colour scheme, one per selector constant. */
  datatype BasicRule =
    | Panel | PanelVerticalCandidate | PanelHorizontalDivider | PanelHorizontalDividerSide
    | PanelVerticalDividerSide | Hoverables | LabelRule | TextRule | CommentRule | PreeditRule
    | CursorNoText | CandidateInner | VerticalCandidateInner | VerticalFirstCandidateInner
    | VerticalLastCandidateInner | HorizontalCandidateInner | HorizontalFirstCandidateInner
    | HorizontalLastCandidateInner | PagingOuter | PagingInner | HighlightMark
    | HighlightOriginalMark

  /** The colour rules, each of which exists once under the light panel and once
      under the dark panel: `PANEL_LIGHT_HIGHLIGHT`, `TEXT_LIGHT`, ... and the
      panel itself. */
  datatype Part =
    | PanelHighlight | PanelHighlightHover | PanelHighlightPress | PanelOtherHover
    | PanelOtherPress | TextHighlight | TextPress | LabelHighlight | CommentHighlight
    | TextPlain | LabelPlain | CommentPlain | PagingButton | PagingButtonDisabled
    | PreeditPlain | PreeditPreCursor | HeaderBackground | HoverablesBackground
    | PanelDividerMiddle | PanelDividerSide | PanelScrollDivider | PanelScrollTrack
    | CursorNoTextPlain | HighlightMarkPlain | PanelPlain

  /** A key of the rule dictionary. */
  datatype Sel = Basic(b: BasicRule) | Light(p: Part) | Dark(p: Part) | Blur

  const PANEL: string := ".fcitx-basic .fcitx-panel"
  const FIRST_CANDIDATE_INNER: string := ".fcitx-candidate-first .fcitx-candidate-inner"
  const LAST_CANDIDATE_INNER: string := ".fcitx-candidate-last .fcitx-candidate-inner"
  const PANEL_LIGHT: string := ".fcitx-light" + PANEL
  const PANEL_DARK: string := ".fcitx-dark" + PANEL

  /** What a basic selector adds after `PANEL`. */
  function BasicSuffix(b: BasicRule): string
  {
    match b
    case Panel => ""
    case PanelVerticalCandidate => ".fcitx-horizontal-tb .fcitx-vertical .fcitx-candidate"
    case PanelHorizontalDivider => " .fcitx-hoverables.fcitx-vertical .fcitx-divider"
    case PanelHorizontalDividerSide => " .fcitx-hoverables.fcitx-vertical .fcitx-divider-side"
    case PanelVerticalDividerSide => " .fcitx-hoverables.fcitx-horizontal .fcitx-divider-paging .fcitx-divider-side"
    case Hoverables => " .fcitx-hoverables"
    case LabelRule => " .fcitx-label"
    case TextRule => " .fcitx-text"
    case CommentRule => " .fcitx-comment"
    case PreeditRule => " .fcitx-preedit"
    case CursorNoText => " .fcitx-cursor.fcitx-no-text"
    case CandidateInner => " .fcitx-candidate-inner"
    case VerticalCandidateInner => " .fcitx-hoverables.fcitx-vertical .fcitx-candidate-inner"
    case VerticalFirstCandidateInner => " .fcitx-hoverables.fcitx-vertical " + FIRST_CANDIDATE_INNER
    case VerticalLastCandidateInner => " .fcitx-hoverables.fcitx-vertical " + LAST_CANDIDATE_INNER
    case HorizontalCandidateInner => " .fcitx-hoverables.fcitx-horizontal .fcitx-candidate-inner"
    case HorizontalFirstCandidateInner => " .fcitx-hoverables.fcitx-horizontal " + FIRST_CANDIDATE_INNER
    case HorizontalLastCandidateInner => " .fcitx-hoverables.fcitx-horizontal " + LAST_CANDIDATE_INNER
    case PagingOuter => " :is(.fcitx-prev, .fcitx-next)"
    case PagingInner => " .fcitx-paging-inner"
    case HighlightMark => " .fcitx-highlighted .fcitx-mark"
    case HighlightOriginalMark => " .fcitx-highlighted-original .fcitx-mark"
  }

  /** What a light colour selector adds after `PANEL_LIGHT`. */
  function PartSuffix(p: Part): string
  {
    match p
    case PanelHighlight => " .fcitx-hoverable.fcitx-highlighted .fcitx-hoverable-inner"
    case PanelHighlightHover => " .fcitx-mousemoved .fcitx-hoverable.fcitx-highlighted:hover .fcitx-hoverable-inner"
    case PanelHighlightPress => " .fcitx-hoverable.fcitx-highlighted:active .fcitx-hoverable-inner"
    case PanelOtherHover => " .fcitx-mousemoved .fcitx-hoverable:not(.fcitx-highlighted):hover .fcitx-hoverable-inner"
    case PanelOtherPress => " .fcitx-hoverable:not(.fcitx-highlighted):active .fcitx-hoverable-inner"
    case TextHighlight => " .fcitx-candidate.fcitx-highlighted .fcitx-text"
    case TextPress => " .fcitx-candidate:active .fcitx-candidate-inner .fcitx-text"
    case LabelHighlight => " .fcitx-candidate.fcitx-highlighted .fcitx-label"
    case CommentHighlight => " .fcitx-candidate.fcitx-highlighted .fcitx-comment"
    case TextPlain => " .fcitx-text"
    case LabelPlain => " .fcitx-label"
    case CommentPlain => " .fcitx-comment"
    case PagingButton => " .fcitx-paging .fcitx-hoverable-inner svg"
    case PagingButtonDisabled => " .fcitx-paging svg"
    case PreeditPlain => " :is(.fcitx-preedit, .fcitx-aux-up, .fcitx-aux-down)"
    case PreeditPreCursor => " .fcitx-pre-cursor"
    case HeaderBackground => " :is(.fcitx-header, .fcitx-aux-down)"
    case HoverablesBackground => " .fcitx-hoverables :is(.fcitx-candidate, .fcitx-paging)"
    case PanelDividerMiddle => " .fcitx-hoverables .fcitx-divider .fcitx-divider-middle"
    case PanelDividerSide => " .fcitx-hoverables .fcitx-divider .fcitx-divider-side"
    case PanelScrollDivider => " .fcitx-hoverables.fcitx-horizontal-scroll .fcitx-divider-middle"
    case PanelScrollTrack => " .fcitx-hoverables.fcitx-horizontal-scroll::-webkit-scrollbar-track"
    case CursorNoTextPlain => " .fcitx-cursor.fcitx-no-text"
    case HighlightMarkPlain => " .fcitx-highlighted .fcitx-mark"
    case PanelPlain => ""
  }

  /** `lightToDark(light)`: `light.replace(PANEL_LIGHT, PANEL_DARK)`. */
  function LightToDark(light: string): string
  {
    ReplaceFirst(light, PANEL_LIGHT, PANEL_DARK)
  }

  /** The selector text of a key; the dark selectors are made from the light ones
      by `LightToDark`, as the dark constants are. */
  function SelText(s: Sel): string
  {
    match s
    case Basic(b) => PANEL + BasicSuffix(b)
    case Light(p) => PANEL_LIGHT + PartSuffix(p)
    case Dark(p) => LightToDark(PANEL_LIGHT + PartSuffix(p))
    case Blur => ".fcitx-blur"
  }

  /** The key a light key is copied to. */
  function LightToDarkSel(s: Sel): Sel
  {
    if s.Light? then Dark(s.p) else s
  }

  /** Every light selector becomes the same selector under the dark panel. */
  lemma DarkSelector(p: Part)
    ensures SelText(Dark(p)) == PANEL_DARK + PartSuffix(p)
    ensures SelText(LightToDarkSel(Light(p))) == LightToDark(SelText(Light(p)))
  {
    ReplaceFirstOfPrefix(PANEL_LIGHT, PartSuffix(p), PANEL_DARK);
  }

  /** Keys of different kinds have different selector texts, so keying the
      dictionary by `Sel` merges no two rules that the page keeps apart: the
      texts part at the eighth or ninth character (".fcitx-basic", ".fcitx-light",
      ".fcitx-dark", ".fcitx-blur"). */
  lemma KindsDiffer(s: Sel, t: Sel)
    requires (s.Basic? && !t.Basic?) || (s.Light? && !t.Light?) || (s.Dark? && !t.Dark?) || (s.Blur? && !t.Blur?)
    ensures SelText(s) != SelText(t)
  {
    KindPrefix(s);
    KindPrefix(t);
  }

  /** The ninth and tenth characters of a selector text, which name its kind. */
  function Kind(s: Sel): string
  {
    match s
    case Basic(_) => "ba"
    case Light(_) => "li"
    case Dark(_) => "da"
    case Blur => "bl"
  }

  lemma KindPrefix(s: Sel)
    ensures |SelText(s)| >= 9 && SelText(s)[7..9] == Kind(s)
  {
    match s
    case Basic(b) =>
      assert PANEL[7..9] == "ba";
      assert (PANEL + BasicSuffix(b))[7..9] == PANEL[7..9];
    case Light(p) =>
      assert (PANEL_LIGHT + PartSuffix(p))[7..9] == PANEL_LIGHT[7..9];
    case Dark(p) =>
      DarkSelector(p);
      assert (PANEL_DARK + PartSuffix(p))[7..9] == PANEL_DARK[7..9];
    case Blur =>
  }

  // ---------------------------------------------------------------------------
  // Declarations

  type Rules = Dict<Sel, Block>

  /** The block after the assignments `block[k] = v` of `ds`, in order. */
  function Apply(o: Block, ds: seq<(Prop, string)>): Block
    decreases |ds|
  {
    if |ds| == 0 then o else With(Apply(o, ds[..|ds| - 1]), ds[|ds| - 1].0, ds[|ds| - 1].1)
  }

  /** A property that none of the assignments names keeps its value. */
  lemma {:induction false} ApplyUnassigned(b: Block, ds: seq<(Prop, string)>, k: Prop)
    requires forall j :: 0 <= j < |ds| ==> ds[j].0 != k
    ensures Lookup(Apply(b, ds), k) == Lookup(b, k)
    decreases |ds|
  {
    if |ds| > 0 {
      ApplyUnassigned(b, ds[..|ds| - 1], k);
    }
  }

  /** When the assignments name different properties, each property gets the
      value assigned to it. */
  lemma {:induction false} ApplyAssigned(b: Block, ds: seq<(Prop, string)>)
    requires forall i, j :: 0 <= i < j < |ds| ==> ds[i].0 != ds[j].0
    ensures forall j :: 0 <= j < |ds| ==> Lookup(Apply(b, ds), ds[j].0) == Some(ds[j].1)
    decreases |ds|
  {
    if |ds| > 0 {
      var init := ds[..|ds| - 1];
      ApplyAssigned(b, init);
      forall j | 0 <= j < |ds|
        ensures Lookup(Apply(b, ds), ds[j].0) == Some(ds[j].1)
      {
        if j < |init| {
          assert init[j] == ds[j];
        }
      }
    }
  }

  /** `px(n)` */
  function Px(n: string): string
  {
    n + "px"
  }

  /** The values of a font-family record that `setFontFamily` keeps: trimmed,
      with the blank ones dropped, in order. */
  function FontNames(f: seq<string>): seq<string>
  {
    NonBlank(Trimmed(f))
  }

  function Trimmed(f: seq<string>): (r: seq<string>)
    ensures |r| == |f| && forall i :: 0 <= i < |f| ==> r[i] == Trim(f[i])
  {
    seq(|f|, i requires 0 <= i < |f| => Trim(f[i]))
  }

  /** The non-empty strings of `t`, in order. */
  function NonBlank(t: seq<string>): seq<string>
  {
    if |t| == 0 then []
    else if t[0] == "" then NonBlank(t[1..])
    else [t[0]] + NonBlank(t[1..])
  }

  lemma {:induction false} NonBlankMembers(t: seq<string>, x: string)
    ensures x in NonBlank(t) <==> x in t && x != ""
    decreases |t|
  {
    if |t| > 0 {
      NonBlankMembers(t[1..], x);
      assert t == [t[0]] + t[1..];
    }
  }

  lemma {:induction false} NonBlankEmpty(t: seq<string>)
    ensures |NonBlank(t)| == 0 <==> forall i :: 0 <= i < |t| ==> t[i] == ""
    decreases |t|
  {
    if |t| > 0 {
      NonBlankEmpty(t[1..]);
      assert forall i :: 0 < i < |t| ==> t[i] == t[1..][i - 1];
    }
  }

  /** The kept names are exactly the non-blank trimmed values, and each is
      already trimmed. */
  lemma FontNamesMembers(f: seq<string>, x: string)
    ensures x in FontNames(f) <==> exists i :: 0 <= i < |f| && Trim(f[i]) == x && x != ""
    ensures x in FontNames(f) ==> Trim(x) == x
  {
    var t := Trimmed(f);
    NonBlankMembers(t, x);
    if x in t {
      var i :| 0 <= i < |t| && t[i] == x;
      TrimIdempotent(f[i]);
    }
  }

  /** No name is kept exactly when every value is blank. */
  lemma FontNamesEmpty(f: seq<string>)
    ensures |FontNames(f)| == 0 <==> forall i :: 0 <= i < |f| ==> Trim(f[i]) == ""
  {
    NonBlankEmpty(Trimmed(f));
  }

  lemma TrimIdempotent(s: string)
    ensures Trim(Trim(s)) == Trim(s)
  {
    var t := Trim(s);
    TrimSpec(s);
    if |t| > 0 {
      assert !IsJsWhitespace(t[0]) && !IsJsWhitespace(t[|t| - 1]);
    }
  }

  function QuoteAll(names: seq<string>): (r: seq<string>)
    ensures |r| == |names|
    ensures forall i :: 0 <= i < |names| ==> r[i] == Json.Quote(names[i])
  {
    if |names| == 0 then [] else [Json.Quote(names[0])] + QuoteAll(names[1..])
  }

  /** The `font-family` value `setFontFamily` writes, if it writes one. */
  function FamilyValue(f: seq<string>): Option<string>
  {
    var names := FontNames(f);
    if |names| > 0 then Some(Join(QuoteAll(names), ", ")) else None
  }

  /** `setFontFamily(o, f)` on the block `o`; `f` is `Object.values` of the record. */
  function SetFontFamily(o: Block, f: seq<string>): Block
  {
    var v := FamilyValue(f);
    if v.Some? then With(o, FontFamily, v.value) else o
  }

  /** `setFontFamily` leaves the block alone exactly when every value is blank,
      and otherwise sets `font-family` and nothing else. */
  lemma SetFontFamilySpec(o: Block, f: seq<string>)
    ensures FamilyValue(f).None? <==> forall i :: 0 <= i < |f| ==> Trim(f[i]) == ""
    ensures FamilyValue(f).None? ==> SetFontFamily(o, f) == o
    ensures FamilyValue(f).Some? ==> Lookup(SetFontFamily(o, f), FontFamily) == FamilyValue(f)
    ensures forall k :: k != FontFamily ==> Lookup(SetFontFamily(o, f), k) == Lookup(o, k)
  {
    FontNamesEmpty(f);
  }

  /** Reads a `font-family` value back: JSON string literals separated by ", ". */
  function ParseFontFamily(s: string): Option<seq<string>>
    decreases |s|
  {
    var first := Json.ReadString(s);
    if first.None? then None
    else
      var (name, rest) := first.value;
      if rest == "" then Some([name])
      else if |rest| >= 2 && rest[..2] == ", " && |rest| < |s| then
        var more := ParseFontFamily(rest[2..]);
        if more.Some? then Some([name] + more.value) else None
      else None
  }

  /** The value `setFontFamily` writes lists exactly the kept names, each one
      recoverable, in their order. */
  lemma FontFamilyRoundTrip(f: seq<string>)
    requires FamilyValue(f).Some?
    ensures ParseFontFamily(FamilyValue(f).value) == Some(FontNames(f))
  {
    ParseQuoted(FontNames(f), FamilyValue(f).value);
  }

  lemma {:induction false} ParseQuoted(names: seq<string>, s: string)
    requires |names| > 0 && s == Join(QuoteAll(names), ", ")
    ensures ParseFontFamily(s) == Some(names)
    decreases |names|
  {
    if |names| == 1 {
      ReadOnlyName(names);
      ParseLast(s, names[0]);
      assert names == [names[0]];
    } else {
      var tail := Join(QuoteAll(names[1..]), ", ");
      ReadFirstName(names);
      ParseQuoted(names[1..], tail);
      ParseNext(s, names, tail);
    }
  }

  /** The value of a single name is its string literal. */
  lemma ReadOnlyName(names: seq<string>)
    requires |names| == 1
    ensures Json.ReadString(Join(QuoteAll(names), ", ")) == Some((names[0], ""))
  {
    var head := Json.Quote(names[0]);
    assert QuoteAll(names) == [head];
    Json.ReadQuote(names[0], "");
    assert head + "" == head;
  }

  /** The value of several names starts with the first one's literal, then ", ". */
  lemma ReadFirstName(names: seq<string>)
    requires |names| >= 2
    ensures Json.ReadString(Join(QuoteAll(names), ", ")) == Some((names[0], ", " + Join(QuoteAll(names[1..]), ", ")))
    ensures |Join(QuoteAll(names[1..]), ", ")| + 2 < |Join(QuoteAll(names), ", ")|
  {
    var head := Json.Quote(names[0]);
    var tail := Join(QuoteAll(names[1..]), ", ");
    JoinCons(QuoteAll(names), ", ");
    assert QuoteAll(names)[1..] == QuoteAll(names[1..]);
    assert Join(QuoteAll(names), ", ") == head + (", " + tail);
    Json.ReadQuote(names[0], ", " + tail);
  }

  /** A text that is one string literal is read as that one name. */
  lemma ParseLast(s: string, name: string)
    requires Json.ReadString(s) == Some((name, ""))
    ensures ParseFontFamily(s) == Some([name])
  {
  }

  /** A string literal, ", " and more names read as the name and the rest. */
  lemma ParseNext(s: string, names: seq<string>, tail: string)
    requires |names| >= 2
    requires Json.ReadString(s) == Some((names[0], ", " + tail))
    requires |tail| + 2 < |s|
    requires ParseFontFamily(tail) == Some(names[1..])
    ensures ParseFontFamily(s) == Some(names)
  {
    assert (", " + tail)[..2] == ", " && (", " + tail)[2..] == tail;
    assert [names[0]] + names[1..] == names;
  }

  /** `noCache(url)`; `random` is the text of `Math.random()`. */
  function NoCache(url: string, random: string): string
  {
    url + "?r=" + random
  }

  /** The background image URL as written into the style: only `fcitx://` URLs
      get the cache-busting query. */
  function ImageUrl(url: string, random: string): (r: string)
    ensures StartsWith(r, url)
    ensures r == url <==> !StartsWith(url, "fcitx://")
  {
    if StartsWith(url, "fcitx://") then NoCache(url, random) else url
  }

  // ---------------------------------------------------------------------------
  // The style record

  datatype ModeColors = ModeColors(
    overrideDefault: bool,
    highlightColor: string, highlightHoverColor: string, highlightTextColor: string,
    highlightTextPressColor: string, highlightLabelColor: string,
    highlightCommentColor: string, highlightMarkColor: string, panelColor: string,
    textColor: string, labelColor: string, commentColor: string,
    pagingButtonColor: string, disabledPagingButtonColor: string, preeditColor: string,
    preeditColorPreCursor: string, borderColor: string, dividerColor: string)

  datatype Background = Background(imageUrl: string, blur: bool, blurRadius: string, shadow: bool)

  /** Font families are the record's values in `Object.values` order. */
  datatype Font = Font(
    textFontFamily: seq<string>, textFontSize: string,
    labelFontFamily: seq<string>, labelFontSize: string,
    commentFontFamily: seq<string>, commentFontSize: string,
    preeditFontFamily: seq<string>, preeditFontSize: string)

  datatype CursorStyle = CursorBlink | CursorStatic | CursorText
  datatype MarkStyle = MarkNone | MarkBar | MarkText

  datatype Highlight = Highlight(markStyle: MarkStyle, hoverBehavior: Ux.HoverBehavior)

  datatype Size = Size(
    borderWidth: string, borderRadius: string, margin: string, highlightRadius: string,
    topPadding: string, rightPadding: string, bottomPadding: string, leftPadding: string,
    labelTextGap: string, verticalMinWidth: string, horizontalDividerWidth: string)

  /** `STYLE_JSON` after `JSON.parse`; `sameWithLightMode` is the dark mode's flag. */
  datatype Style = Style(
    lightMode: ModeColors, darkMode: ModeColors, sameWithLightMode: bool,
    pagingButtonsStyle: Ux.PagingStyle, background: Background, font: Font,
    cursorStyle: CursorStyle, highlight: Highlight, size: Size, userCss: string)

  // ---------------------------------------------------------------------------
  // The colour rules of one scheme

  function ModeSel(dark: bool, p: Part): Sel
  {
    if dark then Dark(p) else Light(p)
  }

  function ModeSels(dark: bool, ps: seq<Part>): (r: seq<Sel>)
  {
    seq(|ps|, i requires 0 <= i < |ps| => ModeSel(dark, ps[i]))
  }

  /** The hover-add rules exist only under the 'Add' behaviour. */
  predicate Emitted(p: Part, add: bool)
  {
    add || (p != PanelOtherHover && p != PanelOtherPress)
  }

  /** The colour rule assigned `i`-th in each scheme's block; the last two are
      the hover-add rules. The two scroll rules are assigned in the order the
      chained assignment runs, the track first. */
  function ModeAt(i: nat): Part
    requires i < 25
  {
    match i
    case 0 => PanelHighlight case 1 => PanelHighlightHover case 2 => PanelHighlightPress
    case 3 => TextHighlight case 4 => TextPress case 5 => LabelHighlight
    case 6 => CommentHighlight case 7 => HeaderBackground case 8 => HoverablesBackground
    case 9 => TextPlain case 10 => LabelPlain case 11 => CommentPlain case 12 => PagingButton
    case 13 => PagingButtonDisabled case 14 => PreeditPlain case 15 => CursorNoTextPlain
    case 16 => PreeditPreCursor case 17 => PanelPlain case 18 => PanelDividerMiddle
    case 19 => PanelDividerSide case 20 => PanelScrollTrack case 21 => PanelScrollDivider
    case 22 => HighlightMarkPlain case 23 => PanelOtherHover case _ => PanelOtherPress
  }

  /** The position of a part in `ModeAt`. */
  function ModeIndex(p: Part): nat
  {
    match p
    case PanelHighlight => 0 case PanelHighlightHover => 1 case PanelHighlightPress => 2
    case TextHighlight => 3 case TextPress => 4 case LabelHighlight => 5
    case CommentHighlight => 6 case HeaderBackground => 7 case HoverablesBackground => 8
    case TextPlain => 9 case LabelPlain => 10 case CommentPlain => 11 case PagingButton => 12
    case PagingButtonDisabled => 13 case PreeditPlain => 14 case CursorNoTextPlain => 15
    case PreeditPreCursor => 16 case PanelPlain => 17 case PanelDividerMiddle => 18
    case PanelDividerSide => 19 case PanelScrollTrack => 20 case PanelScrollDivider => 21
    case HighlightMarkPlain => 22 case PanelOtherHover => 23 case PanelOtherPress => 24
  }

  /** How many colour rules a scheme has: the hover-add ones only under 'Add'. */
  function ModeCount(add: bool): nat
  {
    if add then 25 else 23
  }

  /** The table lists every part once, and the first `ModeCount(add)` entries
      are exactly the emitted ones. */
  lemma ModeTable()
    ensures forall i :: 0 <= i < 25 ==> ModeIndex(ModeAt(i)) == i
    ensures forall p :: ModeIndex(p) < 25 && ModeAt(ModeIndex(p)) == p
    ensures forall p, add :: Emitted(p, add) <==> ModeIndex(p) < ModeCount(add)
  {
  }

  /** The colour rules of one scheme, in the order they are assigned. */
  function ModeOrder(add: bool): seq<Part>
  {
    seq(ModeCount(add), i requires 0 <= i < ModeCount(add) => ModeAt(i))
  }

  /** The copy loop's key list is the assignment order with two neighbours
      swapped: the pre-cursor preedit comes before the cursor, and the scroll
      divider before the scroll track. */
  function CopySwap(i: nat): nat
  {
    if i == 15 then 16 else if i == 16 then 15
    else if i == 20 then 21 else if i == 21 then 20
    else i
  }

  /** The light keys copied to dark ones, in the order of the copy loop. */
  function CopyOrder(add: bool): seq<Part>
  {
    seq(ModeCount(add), i requires 0 <= i < ModeCount(add) => ModeAt(CopySwap(i)))
  }

  /** The position of a part in the copy list. */
  function CopyIndex(p: Part): nat
  {
    CopySwap(ModeIndex(p))
  }

  /** The copy loop visits every emitted colour rule once. */
  lemma CopyTable()
    ensures forall i :: 0 <= i < 25 ==> CopyIndex(ModeAt(CopySwap(i))) == i
    ensures forall p :: CopyIndex(p) < 25 && ModeAt(CopySwap(CopyIndex(p))) == p
    ensures forall p, add :: Emitted(p, add) <==> CopyIndex(p) < ModeCount(add)
  {
    ModeTable();
  }

  /** The declaration block of one colour rule. `hasBg` is whether a background
      image is set, and `markKey` the property the mark colour goes to. */
  function ModeBlock(c: ModeColors, p: Part, hasBg: bool, markKey: Prop): Block
  {
    var background := if hasBg then "inherit" else c.panelColor;
    match p
    case PanelHighlight => Decl(BackgroundColor, c.highlightColor)
    case PanelHighlightHover => Decl(BackgroundColor, c.highlightHoverColor)
    case PanelHighlightPress => Decl(BackgroundColor, c.highlightColor)
    case PanelOtherHover => Decl(BackgroundColor, c.highlightColor)
    case PanelOtherPress => Decl(BackgroundColor, c.highlightHoverColor)
    case TextHighlight => Decl(Color, c.highlightTextColor)
    case TextPress => Decl(Color, c.highlightTextPressColor)
    case LabelHighlight => Decl(Color, c.highlightLabelColor)
    case CommentHighlight => Decl(Color, c.highlightCommentColor)
    case HeaderBackground => Decl(BackgroundColor, c.panelColor)
    case HoverablesBackground => Decl(BackgroundColor, background)
    case TextPlain => Decl(Color, c.textColor)
    case LabelPlain => Decl(Color, c.labelColor)
    case CommentPlain => Decl(Color, c.commentColor)
    case PagingButton => Decl(Color, c.pagingButtonColor)
    case PagingButtonDisabled => Decl(Color, c.disabledPagingButtonColor)
    case PreeditPlain => Decl(Color, c.preeditColor)
    case CursorNoTextPlain => Decl(BackgroundColor, c.preeditColor)
    case PreeditPreCursor => Decl(Color, c.preeditColorPreCursor)
    case PanelPlain => Decl(BorderColor, c.borderColor)
    case PanelDividerMiddle => Decl(BackgroundColor, c.dividerColor)
    case PanelDividerSide => Decl(BackgroundColor, background)
    case PanelScrollDivider => Decl(BackgroundColor, background)
    case PanelScrollTrack => Decl(BackgroundColor, background)
    case HighlightMarkPlain => Decl(markKey, c.highlightMarkColor)
  }

  /** The mark colour goes to `color` for the 'Text' mark style and to
      `background-color` otherwise. */
  function MarkKey(m: MarkStyle): (r: Prop)
    ensures r == Color <==> m == MarkText
    ensures r == Color || r == BackgroundColor
  {
    if m == MarkText then Color else BackgroundColor
  }

  /** A run of `rules[sel] = {...}` statements, one per part of `ps` in order,
      each selector taken from the scheme `dark`. */
  function AssignAll(rules: Rules, dark: bool, ps: seq<Part>, block: Part -> Block): Rules
  {
    if |ps| == 0 then rules
    else
      var p := ps[|ps| - 1];
      Put(AssignAll(rules, dark, ps[..|ps| - 1], block), ModeSel(dark, p), block(p))
  }

  /** The parts are distinct and none of their selectors exists yet. */
  ghost predicate Fresh(rules: Rules, dark: bool, ps: seq<Part>)
  {
    (forall i, j :: 0 <= i < j < |ps| ==> ps[i] != ps[j])
    && forall p :: p in ps ==> ModeSel(dark, p) !in rules.values
  }

  /** Fresh selectors are appended to the key order in turn. */
  lemma {:induction false} AssignAllKeys(rules: Rules, dark: bool, ps: seq<Part>, block: Part -> Block)
    requires Fresh(rules, dark, ps)
    ensures AssignAll(rules, dark, ps, block).keys == rules.keys + ModeSels(dark, ps)
    decreases |ps|
  {
    if |ps| > 0 {
      var init := ps[..|ps| - 1];
      var last := ps[|ps| - 1];
      FreshInit(rules, dark, ps);
      AssignAllKeys(rules, dark, init, block);
      AssignAllGet(rules, dark, init, block);
      var prev := AssignAll(rules, dark, init, block);
      assert Get(prev, ModeSel(dark, last)) == Get(rules, ModeSel(dark, last));
      ModeSelsSnoc(dark, ps);
      PutFreshKeys(prev, ModeSel(dark, last), block(last), rules.keys, ModeSels(dark, init));
    }
  }

  /** Dropping the last part keeps the rest fresh, and the last part is not
      among the others. */
  lemma FreshInit(rules: Rules, dark: bool, ps: seq<Part>)
    requires Fresh(rules, dark, ps) && |ps| > 0
    ensures Fresh(rules, dark, ps[..|ps| - 1])
    ensures ps[|ps| - 1] !in ps[..|ps| - 1]
    ensures ModeSel(dark, ps[|ps| - 1]) !in rules.values
  {
    var init := ps[..|ps| - 1];
    forall k | 0 <= k < |init|
      ensures init[k] != ps[|ps| - 1]
    {
      assert init[k] == ps[k];
    }
  }

  lemma ModeSelsSnoc(dark: bool, ps: seq<Part>)
    requires |ps| > 0
    ensures ModeSels(dark, ps) == ModeSels(dark, ps[..|ps| - 1]) + [ModeSel(dark, ps[|ps| - 1])]
  {
  }

  /** A key not yet present goes last. */
  lemma PutFreshKeys(d: Rules, s: Sel, b: Block, a: seq<Sel>, c: seq<Sel>)
    requires d.keys == a + c && Get(d, s) == None
    ensures Put(d, s, b).keys == a + (c + [s])
  {
  }

  /** Each assigned part's rule is its block; the other rules of the scheme are
      as they were. */
  lemma {:induction false} AssignAllGet(rules: Rules, dark: bool, ps: seq<Part>, block: Part -> Block)
    ensures forall p :: Get(AssignAll(rules, dark, ps, block), ModeSel(dark, p)) == (if p in ps then Some(block(p)) else Get(rules, ModeSel(dark, p)))
    decreases |ps|
  {
    if |ps| > 0 {
      var n := |ps|;
      AssignAllGet(rules, dark, ps[..n - 1], block);
      assert ps == ps[..n - 1] + [ps[n - 1]];
    }
  }

  /** The rules of the other scheme and the basic rules do not change. */
  lemma {:induction false} AssignAllFrame(rules: Rules, dark: bool, ps: seq<Part>, block: Part -> Block)
    ensures forall s: Sel :: !(s.Light? || s.Dark?) || (s.Dark? != dark) ==> Get(AssignAll(rules, dark, ps, block), s) == Get(rules, s)
    decreases |ps|
  {
    if |ps| > 0 {
      AssignAllFrame(rules, dark, ps[..|ps| - 1], block);
    }
  }

  /** The assignment order lists each emitted part once. */
  lemma ModeOrderParts(add: bool)
    ensures forall i, j :: 0 <= i < j < |ModeOrder(add)| ==> ModeOrder(add)[i] != ModeOrder(add)[j]
    ensures forall p :: p in ModeOrder(add) <==> Emitted(p, add)
  {
    ModeTable();
    forall p | Emitted(p, add)
      ensures p in ModeOrder(add)
    {
      assert ModeOrder(add)[ModeIndex(p)] == p;
    }
  }

  /** The copy list lists each emitted part once. */
  lemma CopyOrderParts(add: bool)
    ensures forall i, j :: 0 <= i < j < |CopyOrder(add)| ==> CopyOrder(add)[i] != CopyOrder(add)[j]
    ensures forall p :: p in CopyOrder(add) <==> Emitted(p, add)
  {
    var order := CopyOrder(add);
    CopyTable();
    forall i | 0 <= i < |order|
      ensures CopyIndex(order[i]) == i && Emitted(order[i], add)
    {
      assert order[i] == ModeAt(CopySwap(i));
    }
    forall p | Emitted(p, add)
      ensures p in order
    {
      assert order[CopyIndex(p)] == p;
    }
  }

  /** The light block of `setStyle`, or its dark block built from the dark
      colours: one rule per emitted part, assigned in `ModeOrder`. The two
      scroll rules share one object in the page, which nothing changes
      afterwards. */
  method AddModeRules(rules: Rules, dark: bool, c: ModeColors, hasBg: bool, markKey: Prop, add: bool)
    returns (r: Rules)
    requires forall p :: ModeSel(dark, p) !in rules.values
    ensures r.keys == rules.keys + ModeSels(dark, ModeOrder(add))
    ensures forall p :: Get(r, ModeSel(dark, p)) == (if Emitted(p, add) then Some(ModeBlock(c, p, hasBg, markKey)) else None)
    ensures forall s: Sel {:trigger Get(r, s)} :: !(s.Light? || s.Dark?) || (s.Dark? != dark) ==> Get(r, s) == Get(rules, s)
  {
    var order := ModeOrder(add);
    var block := (p: Part) => ModeBlock(c, p, hasBg, markKey);
    r := rules;
    var i := 0;
    while i < |order|
      invariant 0 <= i <= |order|
      invariant r == AssignAll(rules, dark, order[..i], block)
    {
      assert order[..i + 1][..i] == order[..i];
      r := Put(r, ModeSel(dark, order[i]), block(order[i]));
      i := i + 1;
    }
    assert order[..i] == order;
    ModeOrderParts(add);
    AssignAllKeys(rules, dark, order, block);
    AssignAllGet(rules, dark, order, block);
    AssignAllFrame(rules, dark, order, block);
  }

  /** The copy loop: each listed light rule becomes the rule of its dark selector
      too. In the page both keys then name one object, which nothing changes
      afterwards. */
  method CopyLightToDark(rules: Rules, add: bool) returns (r: Rules)
    requires forall p :: Dark(p) !in rules.values
    requires forall p :: Emitted(p, add) ==> Light(p) in rules.values
    ensures r.keys == rules.keys + ModeSels(true, CopyOrder(add))
    ensures forall p :: Get(r, Dark(p)) == if Emitted(p, add) then Get(rules, Light(p)) else None
    ensures forall s: Sel {:trigger Get(r, s)} :: !s.Dark? ==> Get(r, s) == Get(rules, s)
  {
    var keys := ModeSels(false, CopyOrder(add));
    ghost var order := CopyOrder(add);
    ghost var block := (p: Part) => if Light(p) in rules.values then rules.values[Light(p)] else EmptyBlock;
    CopyOrderParts(add);
    r := rules;
    var i := 0;
    while i < |keys|
      invariant 0 <= i <= |keys| == |order|
      invariant r == AssignAll(rules, true, order[..i], block)
    {
      var key := keys[i];
      assert order[..i + 1][..i] == order[..i];
      AssignAllFrame(rules, true, order[..i], block);
      assert key == Light(order[i]) && Get(r, key) == Get(rules, key);
      r := Put(r, LightToDarkSel(key), r.values[key]);
      i := i + 1;
    }
    assert order[..i] == order;
    AssignAllKeys(rules, true, order, block);
    AssignAllGet(rules, true, order, block);
    AssignAllFrame(rules, true, order, block);
  }

  // ---------------------------------------------------------------------------
  // Building the rules step by step

  /** `rules[sel][key] = value` seen from one rule: it gets the declaration if
      it exists. */
  function Assign(o: Option<Block>, key: Prop, value: string): Option<Block>
  {
    if o.Some? then Some(With(o.value, key, value)) else None
  }

  /** Assignments in a row to one rule, seen from that rule. */
  function AssignDecls(o: Option<Block>, ds: seq<(Prop, string)>): Option<Block>
  {
    if o.Some? then Some(Apply(o.value, ds)) else None
  }

  /** `setFontFamily(rules[sel], f)` seen from one rule. */
  function AssignFamily(o: Option<Block>, f: seq<string>): Option<Block>
  {
    if o.Some? then Some(SetFontFamily(o.value, f)) else None
  }

  /** `rules[sel][key] = value` on a rule that exists: the rule gets the
      declaration and no other rule changes. */
  method SetDecl(rules: Rules, sel: Sel, key: Prop, value: string) returns (r: Rules)
    requires Get(rules, sel).Some?
    ensures r.keys == rules.keys
    ensures forall s {:trigger Get(r, s)} :: Get(r, s) == if s == sel then Assign(Get(rules, s), key, value) else Get(rules, s)
  {
    r := Put(rules, sel, With(rules.values[sel], key, value));
  }

  /** `rules[sel][k1] = v1; rules[sel][k2] = v2; ...` on a rule that exists. */
  method SetDecls(rules: Rules, sel: Sel, ds: seq<(Prop, string)>) returns (r: Rules)
    requires Get(rules, sel).Some?
    ensures r.keys == rules.keys
    ensures forall s {:trigger Get(r, s)} :: Get(r, s) == if s == sel then AssignDecls(Get(rules, s), ds) else Get(rules, s)
  {
    r := Put(rules, sel, Apply(rules.values[sel], ds));
  }

  /** `setFontFamily(rules[sel], f)` on a rule that exists. */
  method SetRuleFontFamily(rules: Rules, sel: Sel, f: seq<string>) returns (r: Rules)
    requires Get(rules, sel).Some?
    ensures r.keys == rules.keys
    ensures forall s {:trigger Get(r, s)} :: Get(r, s) == if s == sel then AssignFamily(Get(rules, s), f) else Get(rules, s)
  {
    r := Put(rules, sel, SetFontFamily(rules.values[sel], f));
  }

  /** `rules[sel] = block` for a selector that has no rule yet: it goes last. */
  method NewRule(rules: Rules, sel: Sel, block: Block) returns (r: Rules)
    requires Get(rules, sel).None?
    ensures r.keys == rules.keys + [sel]
    ensures forall s {:trigger Get(r, s)} :: Get(r, s) == if s == sel then Some(block) else Get(rules, s)
  {
    r := Put(rules, sel, block);
  }

  // ---------------------------------------------------------------------------
  // The colour rules of both schemes

  /** `hasBackgroundImage` */
  predicate HasBackgroundImage(bg: Background)
  {
    Trim(bg.imageUrl) != ""
  }

  predicate HoverAdds(st: Style)
  {
    st.highlight.hoverBehavior == Ux.HoverAdd
  }

  /** The dark rules are copies of the light ones when the dark scheme is the
      same as the light one and the light one is overridden. */
  predicate CopiesLight(st: Style)
  {
    st.sameWithLightMode && st.lightMode.overrideDefault
  }

  /** The light rule of a part after `setStyle`. */
  function LightRule(st: Style, p: Part): Option<Block>
  {
    if st.lightMode.overrideDefault && Emitted(p, HoverAdds(st))
    then Some(ModeBlock(st.lightMode, p, HasBackgroundImage(st.background), MarkKey(st.highlight.markStyle)))
    else None
  }

  /** The dark rule of a part after `setStyle`. */
  function DarkRule(st: Style, p: Part): Option<Block>
  {
    if st.darkMode.overrideDefault && Emitted(p, HoverAdds(st))
    then Some(ModeBlock(if CopiesLight(st) then st.lightMode else st.darkMode, p,
                        HasBackgroundImage(st.background), MarkKey(st.highlight.markStyle)))
    else None
  }

  /** What the light colour step does to a rule. */
  function LightStage(st: Style, s: Sel, o: Option<Block>): Option<Block>
  {
    if s.Light? then LightRule(st, s.p) else o
  }

  /** What the dark colour step does to a rule. */
  function DarkStage(st: Style, s: Sel, o: Option<Block>): Option<Block>
  {
    if s.Dark? then DarkRule(st, s.p) else o
  }

  /** What the colour steps do to a rule. */
  function ColourStage(st: Style, s: Sel, o: Option<Block>): Option<Block>
  {
    DarkStage(st, s, LightStage(st, s, o))
  }

  /** The light selectors in the order `setStyle` creates them. */
  function LightOrder(st: Style): seq<Sel>
  {
    if st.lightMode.overrideDefault then ModeSels(false, ModeOrder(HoverAdds(st))) else []
  }

  /** The dark selectors in the order `setStyle` creates them. */
  function DarkOrder(st: Style): seq<Sel>
  {
    if !st.darkMode.overrideDefault then []
    else if CopiesLight(st) then ModeSels(true, CopyOrder(HoverAdds(st)))
    else ModeSels(true, ModeOrder(HoverAdds(st)))
  }

  /** The colour selectors in the order `setStyle` creates them. */
  function ColourOrder(st: Style): seq<Sel>
  {
    LightOrder(st) + DarkOrder(st)
  }

  /** The light rules, if the light scheme is overridden. */
  method AddLightRules(rules: Rules, st: Style) returns (r: Rules)
    requires forall p :: Get(rules, Light(p)).None?
    ensures r.keys == rules.keys + LightOrder(st)
    ensures forall s {:trigger Get(r, s)} :: Get(r, s) == LightStage(st, s, Get(rules, s))
  {
    r := rules;
    if st.lightMode.overrideDefault {
      forall p
        ensures Light(p) !in rules.values
      {
        assert Get(rules, Light(p)).None?;
      }
      r := AddModeRules(rules, false, st.lightMode, HasBackgroundImage(st.background), MarkKey(st.highlight.markStyle), HoverAdds(st));
      forall s
        ensures Get(r, s) == LightStage(st, s, Get(rules, s))
      {
        if s.Light? {
          assert Get(r, ModeSel(false, s.p)) == Get(r, s);
        }
      }
    } else {
      assert r.keys + [] == r.keys;
      forall s
        ensures Get(r, s) == LightStage(st, s, Get(rules, s))
      {
        if s.Light? {
          assert Get(rules, Light(s.p)).None?;
        }
      }
    }
  }

  /** The dark rules, if the dark scheme is overridden: copies of the light
      rules, or rules made from the dark colours. */
  method AddDarkRules(rules: Rules, st: Style) returns (r: Rules)
    requires forall p :: Get(rules, Dark(p)).None?
    requires forall p :: Get(rules, Light(p)) == LightRule(st, p)
    ensures r.keys == rules.keys + DarkOrder(st)
    ensures forall s {:trigger Get(r, s)} :: Get(r, s) == DarkStage(st, s, Get(rules, s))
  {
    var add := HoverAdds(st);
    forall p
      ensures Dark(p) !in rules.values
    {
      assert Get(rules, Dark(p)).None?;
    }
    if !st.darkMode.overrideDefault {
      r := rules;
      assert r.keys + [] == r.keys;
      forall s
        ensures Get(r, s) == DarkStage(st, s, Get(rules, s))
      {
        if s.Dark? {
          assert Get(rules, Dark(s.p)).None?;
        }
      }
    } else if CopiesLight(st) {
      forall p | Emitted(p, add)
        ensures Light(p) in rules.values
      {
        assert Get(rules, Light(p)) == LightRule(st, p);
      }
      r := CopyLightToDark(rules, add);
      forall s
        ensures Get(r, s) == DarkStage(st, s, Get(rules, s))
      {
        if s.Dark? {
          assert Get(rules, Light(s.p)) == LightRule(st, s.p);
        }
      }
    } else {
      r := AddModeRules(rules, true, st.darkMode, HasBackgroundImage(st.background), MarkKey(st.highlight.markStyle), add);
      forall s
        ensures Get(r, s) == DarkStage(st, s, Get(rules, s))
      {
        if s.Dark? {
          assert Get(r, ModeSel(true, s.p)) == Get(r, s);
        }
      }
    }
  }

  /** The light rules, if the light scheme is overridden, then the dark ones:
      copied from the light rules or made from the dark colours. */
  method AddColours(rules: Rules, st: Style) returns (r: Rules)
    requires forall p :: Get(rules, Light(p)).None? && Get(rules, Dark(p)).None?
    ensures r.keys == rules.keys + ColourOrder(st)
    ensures forall s {:trigger Get(r, s)} :: Get(r, s) == ColourStage(st, s, Get(rules, s))
  {
    var mid := AddLightRules(rules, st);
    forall p
      ensures Get(mid, Dark(p)).None? && Get(mid, Light(p)) == LightRule(st, p)
    {
      assert Get(mid, Dark(p)) == Get(rules, Dark(p));
    }
    r := AddDarkRules(mid, st);
    AppendAssoc(rules.keys, LightOrder(st), DarkOrder(st));
  }

  /** A copied dark rule is the light rule of the same part: the dark scheme
      looks exactly like the light one. */
  lemma DarkCopiesLight(st: Style, p: Part)
    requires st.darkMode.overrideDefault && CopiesLight(st)
    ensures DarkRule(st, p) == LightRule(st, p)
  {
  }

  /** Without the override a scheme has no colour rules, with it every emitted
      part has one, and the hover-add parts are emitted only under 'Add'. */
  lemma ColourRulesExist(st: Style, p: Part)
    ensures LightRule(st, p).Some? <==> st.lightMode.overrideDefault && Emitted(p, HoverAdds(st))
    ensures DarkRule(st, p).Some? <==> st.darkMode.overrideDefault && Emitted(p, HoverAdds(st))
    ensures (p == PanelOtherHover || p == PanelOtherPress) ==> Emitted(p, HoverAdds(st)) == HoverAdds(st)
  {
  }

  /** The candidate and divider backgrounds are 'inherit' exactly when there is
      a background image, and the panel colour otherwise. */
  lemma InheritedBackground(c: ModeColors, p: Part, hasBg: bool, markKey: Prop)
    requires p == HoverablesBackground || p == PanelDividerSide || p == PanelScrollDivider || p == PanelScrollTrack
    ensures Lookup(ModeBlock(c, p, hasBg, markKey), BackgroundColor) == Some(if hasBg then "inherit" else c.panelColor)
  {
  }

  /** The mark colour is written under the mark key and under no other. */
  lemma MarkColour(c: ModeColors, hasBg: bool, m: MarkStyle)
    ensures Lookup(ModeBlock(c, HighlightMarkPlain, hasBg, MarkKey(m)), if m == MarkText then Color else BackgroundColor) == Some(c.highlightMarkColor)
    ensures Lookup(ModeBlock(c, HighlightMarkPlain, hasBg, MarkKey(m)), if m == MarkText then BackgroundColor else Color) == None
  {
  }

  // ---------------------------------------------------------------------------
  // The rules every style has

  /** The twelve empty rules that `setStyle` starts from, in the order they are
      assigned. */
  const INITIAL_SELECTORS: seq<Sel> :=
    [Basic(Panel), Basic(Hoverables), Basic(TextRule), Basic(LabelRule), Basic(CommentRule),
     Basic(PreeditRule), Basic(CursorNoText), Basic(HighlightMark), Basic(HighlightOriginalMark),
     Basic(CandidateInner), Basic(PagingOuter), Basic(PagingInner)]

  const INITIAL_RULES: Rules := Dict(INITIAL_SELECTORS, map s | s in INITIAL_SELECTORS :: EmptyBlock)

  /** A rule before the later steps: empty if it exists from the start. */
  function InitialRule(s: Sel): Option<Block>
  {
    match s
    case Basic(b) =>
      (match b
       case Panel | Hoverables | TextRule | LabelRule | CommentRule | PreeditRule | CursorNoText
         | HighlightMark | HighlightOriginalMark | CandidateInner | PagingOuter | PagingInner => Some(EmptyBlock)
       case _ => None)
    case _ => None
  }

  /** The initial rules are the twelve empty ones, each listed once. */
  lemma InitialRules()
    ensures forall s :: Get(INITIAL_RULES, s) == InitialRule(s)
    ensures Valid(INITIAL_RULES)
  {
    forall s
      ensures Get(INITIAL_RULES, s) == InitialRule(s)
      ensures s in INITIAL_RULES.keys <==> s in INITIAL_RULES.values
    {
      InitialSelector(s);
    }
    InitialKeysDistinct();
  }

  /** One selector of the initial rules. */
  lemma InitialSelector(s: Sel)
    ensures Get(INITIAL_RULES, s) == InitialRule(s)
    ensures s in INITIAL_RULES.keys <==> s in INITIAL_RULES.values
  {
    if s in INITIAL_SELECTORS {
      var i :| 0 <= i < |INITIAL_SELECTORS| && INITIAL_SELECTORS[i] == s;
      InitialListed(i);
    } else {
      InitialUnlisted(s);
    }
  }

  lemma InitialListed(i: int)
    requires 0 <= i < |INITIAL_SELECTORS|
    ensures InitialRule(INITIAL_SELECTORS[i]) == Some(EmptyBlock)
  {
  }

  lemma InitialUnlisted(s: Sel)
    ensures InitialRule(s).Some? ==> s in INITIAL_SELECTORS
  {
    if s.Basic? {
      match s.b
      case Panel => assert s == INITIAL_SELECTORS[0];
      case Hoverables => assert s == INITIAL_SELECTORS[1];
      case TextRule => assert s == INITIAL_SELECTORS[2];
      case LabelRule => assert s == INITIAL_SELECTORS[3];
      case CommentRule => assert s == INITIAL_SELECTORS[4];
      case PreeditRule => assert s == INITIAL_SELECTORS[5];
      case CursorNoText => assert s == INITIAL_SELECTORS[6];
      case HighlightMark => assert s == INITIAL_SELECTORS[7];
      case HighlightOriginalMark => assert s == INITIAL_SELECTORS[8];
      case CandidateInner => assert s == INITIAL_SELECTORS[9];
      case PagingOuter => assert s == INITIAL_SELECTORS[10];
      case PagingInner => assert s == INITIAL_SELECTORS[11];
      case _ =>
    }
  }

  /** The twelve initial selectors are different. */
  lemma InitialKeysDistinct()
    ensures forall i, j :: 0 <= i < j < |INITIAL_RULES.keys| ==> INITIAL_RULES.keys[i] != INITIAL_RULES.keys[j]
  {
  }

  /** What the background step does: the image on the hoverables, the blur rule
      of the fcitx5-js distribution and the shadow. */
  function BackgroundStage(bg: Background, isJs: bool, random: string, s: Sel, o: Option<Block>): Option<Block>
  {
    if s == Basic(Hoverables) && bg.imageUrl != "" then
      Assign(Assign(o, BackgroundImage, "url(" + Json.Quote(ImageUrl(bg.imageUrl, random)) + ")"), BackgroundSize, "cover")
    else if s == Blur && isJs && bg.blur then Some(BlurBlock(bg.blurRadius))
    else if s == Basic(Panel) && !bg.shadow then Assign(o, BoxShadow, "none")
    else o
  }

  function BlurBlock(radius: string): (r: Block)
  {
    var blur := "blur(" + Px(radius) + ")";
    With(Decl(WebkitBackdropFilter, blur), BackdropFilter, blur)
  }

  method AddBackground(rules: Rules, bg: Background, isJs: bool, random: string) returns (r: Rules)
    requires Get(rules, Basic(Hoverables)).Some? && Get(rules, Basic(Panel)).Some? && Get(rules, Blur).None?
    ensures r.keys == rules.keys + (if isJs && bg.blur then [Blur] else [])
    ensures forall s {:trigger Get(r, s)} :: Get(r, s) == BackgroundStage(bg, isJs, random, s, Get(rules, s))
  {
    r := rules;
    if bg.imageUrl != "" {
      var url := bg.imageUrl;
      if StartsWith(url, "fcitx://") {
        url := NoCache(url, random);
      }
      r := SetDecl(r, Basic(Hoverables), BackgroundImage, "url(" + Json.Quote(url) + ")");
      r := SetDecl(r, Basic(Hoverables), BackgroundSize, "cover");
    }
    if isJs && bg.blur {
      r := NewRule(r, Blur, BlurBlock(bg.blurRadius));
    }
    if !bg.shadow {
      r := SetDecl(r, Basic(Panel), BoxShadow, "none");
    }
  }

  /** What the candidate font step does. */
  function CandidateFontStage(font: Font, s: Sel, o: Option<Block>): Option<Block>
  {
    if s == Basic(TextRule) then Assign(AssignFamily(o, font.textFontFamily), FontSize, Px(font.textFontSize))
    else if s == Basic(CandidateInner) then Assign(o, LineHeight, Px(font.textFontSize))
    else if s == Basic(LabelRule) then Assign(AssignFamily(o, font.labelFontFamily), FontSize, Px(font.labelFontSize))
    else if s == Basic(CommentRule) then Assign(AssignFamily(o, font.commentFontFamily), FontSize, Px(font.commentFontSize))
    else o
  }

  /** The fonts of the candidate text, its label and its comment. The text size
      is also the line height of the candidate. */
  method AddCandidateFonts(rules: Rules, font: Font) returns (r: Rules)
    requires Get(rules, Basic(TextRule)).Some? && Get(rules, Basic(CandidateInner)).Some?
    requires Get(rules, Basic(LabelRule)).Some? && Get(rules, Basic(CommentRule)).Some?
    ensures r.keys == rules.keys
    ensures forall s {:trigger Get(r, s)} :: Get(r, s) == CandidateFontStage(font, s, Get(rules, s))
  {
    r := SetRuleFontFamily(rules, Basic(TextRule), font.textFontFamily);
    var textSize := Px(font.textFontSize);
    // rules[TEXT]['font-size'] = rules[CANDIDATE_INNER]['line-height'] = ...
    r := SetDecl(r, Basic(CandidateInner), LineHeight, textSize);
    r := SetDecl(r, Basic(TextRule), FontSize, textSize);
    r := SetRuleFontFamily(r, Basic(LabelRule), font.labelFontFamily);
    r := SetDecl(r, Basic(LabelRule), FontSize, Px(font.labelFontSize));
    r := SetRuleFontFamily(r, Basic(CommentRule), font.commentFontFamily);
    r := SetDecl(r, Basic(CommentRule), FontSize, Px(font.commentFontSize));
  }

  /** What the preedit font step does: the preedit rule gets `line-height`
      before `font-size`, the order in which the chained assignment runs, and
      the cursor is as high as the preedit text. */
  function PreeditFontStage(font: Font, s: Sel, o: Option<Block>): Option<Block>
  {
    if s == Basic(PreeditRule) then
      Assign(Assign(AssignFamily(o, font.preeditFontFamily), LineHeight, Px(font.preeditFontSize)), FontSize, Px(font.preeditFontSize))
    else if s == Basic(CursorNoText) then Assign(o, BlockSize, Px(font.preeditFontSize))
    else o
  }

  method AddPreeditFont(rules: Rules, font: Font) returns (r: Rules)
    requires Get(rules, Basic(PreeditRule)).Some? && Get(rules, Basic(CursorNoText)).Some?
    ensures r.keys == rules.keys
    ensures forall s {:trigger Get(r, s)} :: Get(r, s) == PreeditFontStage(font, s, Get(rules, s))
  {
    r := SetRuleFontFamily(rules, Basic(PreeditRule), font.preeditFontFamily);
    var preeditSize := Px(font.preeditFontSize);
    r := SetDecl(r, Basic(PreeditRule), LineHeight, preeditSize);
    r := SetDecl(r, Basic(PreeditRule), FontSize, preeditSize);
    r := SetDecl(r, Basic(CursorNoText), BlockSize, preeditSize);
  }

  /** The rule whose mark `opacity` is set: the original mark under 'Add'. */
  function OpacitySel(h: Highlight): Sel
  {
    if h.hoverBehavior == Ux.HoverAdd then Basic(HighlightOriginalMark) else Basic(HighlightMark)
  }

  /** The mark is hidden exactly for the 'None' mark style. */
  function MarkOpacity(m: MarkStyle): (r: string)
    ensures r == "0" <==> m == MarkNone
    ensures r == "0" || r == "1"
  {
    if m == MarkNone then "0" else "1"
  }

  function OpacityStage(h: Highlight, s: Sel, o: Option<Block>): Option<Block>
  {
    if s == OpacitySel(h) then Assign(o, Opacity, MarkOpacity(h.markStyle)) else o
  }

  /** `rules[...].opacity = ...` */
  method AddOpacity(rules: Rules, h: Highlight) returns (r: Rules)
    requires Get(rules, Basic(HighlightMark)).Some? && Get(rules, Basic(HighlightOriginalMark)).Some?
    ensures r.keys == rules.keys
    ensures forall s {:trigger Get(r, s)} :: Get(r, s) == OpacityStage(h, s, Get(rules, s))
  {
    r := SetDecl(rules, OpacitySel(h), Opacity, MarkOpacity(h.markStyle));
  }

  // ---------------------------------------------------------------------------
  // Sizes

  /** The rules that the sizes add, in order; the vertical margins only when
      there is no horizontal divider. */
  function SizeOrder(noDivider: bool): seq<Sel>
  {
    MarginOrder(noDivider) + DIVIDER_ORDER
  }

  function MarginOrder(noDivider: bool): seq<Sel>
  {
    (if noDivider then VERTICAL_MARGIN_ORDER else []) + HORIZONTAL_MARGIN_ORDER
  }

  const VERTICAL_MARGIN_ORDER: seq<Sel> :=
    [Basic(VerticalCandidateInner), Basic(VerticalFirstCandidateInner), Basic(VerticalLastCandidateInner)]

  const HORIZONTAL_MARGIN_ORDER: seq<Sel> :=
    [Basic(HorizontalCandidateInner), Basic(HorizontalFirstCandidateInner), Basic(HorizontalLastCandidateInner)]

  const DIVIDER_ORDER: seq<Sel> := [
    Basic(PanelVerticalCandidate), Basic(PanelHorizontalDivider), Basic(PanelHorizontalDividerSide),
    Basic(PanelVerticalDividerSide)]

  /** A margin rule: both sides of the candidate get half the margin. */
  function HalfMargins(startKey: Prop, endKey: Prop, halfMargin: string): Block
  {
    With(Decl(startKey, Px(halfMargin)), endKey, Px(halfMargin))
  }

  /** The panel border and the candidate margin. */
  function BorderStage(size: Size, s: Sel, o: Option<Block>): Option<Block>
  {
    if s == Basic(Panel) then Assign(Assign(o, BorderWidth, Px(size.borderWidth)), BorderRadius, Px(size.borderRadius))
    else if s == Basic(CandidateInner) then Assign(o, Margin, Px(size.margin))
    else o
  }

  method AddBorders(rules: Rules, size: Size) returns (r: Rules)
    requires Get(rules, Basic(Panel)).Some? && Get(rules, Basic(CandidateInner)).Some?
    ensures r.keys == rules.keys
    ensures forall s {:trigger Get(r, s)} :: Get(r, s) == BorderStage(size, s, Get(rules, s))
  {
    r := SetDecl(rules, Basic(Panel), BorderWidth, Px(size.borderWidth));
    r := SetDecl(r, Basic(Panel), BorderRadius, Px(size.borderRadius));
    r := SetDecl(r, Basic(CandidateInner), Margin, Px(size.margin));
  }

  /** The margin rules of one layout: half a margin on each side of a
      candidate, a whole one before the first and after the last. */
  function MarginStage(every: Sel, first: Sel, last: Sel, startKey: Prop, endKey: Prop, margin: string, halfMargin: string, s: Sel, o: Option<Block>): Option<Block>
  {
    if s == every then Some(HalfMargins(startKey, endKey, halfMargin))
    else if s == first then Some(Decl(startKey, Px(margin)))
    else if s == last then Some(Decl(endKey, Px(margin)))
    else o
  }

  /** Three new margin rules, in order. */
  method AddMargins(rules: Rules, every: Sel, first: Sel, last: Sel, startKey: Prop, endKey: Prop, margin: string, halfMargin: string)
    returns (r: Rules)
    requires every != first && every != last && first != last
    requires Get(rules, every).None? && Get(rules, first).None? && Get(rules, last).None?
    ensures r.keys == rules.keys + [every, first, last]
    ensures forall s {:trigger Get(r, s)} :: Get(r, s) == MarginStage(every, first, last, startKey, endKey, margin, halfMargin, s, Get(rules, s))
  {
    r := NewRule(rules, every, HalfMargins(startKey, endKey, halfMargin));
    r := NewRule(r, first, Decl(startKey, Px(margin)));
    r := NewRule(r, last, Decl(endKey, Px(margin)));
    assert rules.keys + [every] + [first] + [last] == rules.keys + [every, first, last];
  }

  /** The vertical margins, made only when the horizontal divider is '0' wide,
      and the horizontal ones, made always. */
  function MarginsStage(size: Size, halfMargin: string, s: Sel, o: Option<Block>): Option<Block>
  {
    var o' := if size.horizontalDividerWidth == "0" then VerticalMargins(size, halfMargin, s, o) else o;
    HorizontalMargins(size, halfMargin, s, o')
  }

  function VerticalMargins(size: Size, halfMargin: string, s: Sel, o: Option<Block>): Option<Block>
  {
    MarginStage(Basic(VerticalCandidateInner), Basic(VerticalFirstCandidateInner), Basic(VerticalLastCandidateInner),
      MarginBlockStart, MarginBlockEnd, size.margin, halfMargin, s, o)
  }

  function HorizontalMargins(size: Size, halfMargin: string, s: Sel, o: Option<Block>): Option<Block>
  {
    MarginStage(Basic(HorizontalCandidateInner), Basic(HorizontalFirstCandidateInner), Basic(HorizontalLastCandidateInner),
      MarginInlineStart, MarginInlineEnd, size.margin, halfMargin, s, o)
  }

  /** The highlight radius, the paddings and the gap between label and text,
      in the order they are assigned. */
  function PaddingDecls(size: Size): seq<(Prop, string)>
  {
    [(BorderRadius, Px(size.highlightRadius)), (PaddingBlockStart, Px(size.topPadding)),
     (PaddingInlineEnd, Px(size.rightPadding)), (PaddingBlockEnd, Px(size.bottomPadding)),
     (PaddingInlineStart, Px(size.leftPadding)), (Gap, Px(size.labelTextGap))]
  }

  /** The paging margin, the highlight radius and the candidate paddings and gap. */
  function PaddingStage(size: Size, s: Sel, o: Option<Block>): Option<Block>
  {
    if s == Basic(PagingOuter) then Assign(o, Margin, Px(size.margin))
    else if s == Basic(PagingInner) then Assign(o, BorderRadius, Px(size.highlightRadius))
    else if s == Basic(CandidateInner) then AssignDecls(o, PaddingDecls(size))
    else o
  }

  /** The paging button gets its radius before the candidate, the order in which
      the chained assignment runs. */
  method AddPaddings(rules: Rules, size: Size) returns (r: Rules)
    requires Get(rules, Basic(PagingOuter)).Some? && Get(rules, Basic(PagingInner)).Some?
    requires Get(rules, Basic(CandidateInner)).Some?
    ensures r.keys == rules.keys
    ensures forall s {:trigger Get(r, s)} :: Get(r, s) == PaddingStage(size, s, Get(rules, s))
  {
    r := SetDecl(rules, Basic(PagingOuter), Margin, Px(size.margin));
    var radius := Px(size.highlightRadius);
    // rules[CANDIDATE_INNER]['border-radius'] = rules[PAGING_INNER]['border-radius'] = ...
    r := SetDecl(r, Basic(PagingInner), BorderRadius, radius);
    r := SetDecls(r, Basic(CandidateInner), PaddingDecls(size));
  }

  /** The vertical layout's minimum width and the divider sizes. */
  function DividerStage(size: Size, s: Sel, o: Option<Block>): Option<Block>
  {
    if s == Basic(PanelVerticalCandidate) then Some(Decl(MinInlineSize, Px(size.verticalMinWidth)))
    else if s == Basic(PanelHorizontalDivider) then Some(Decl(BlockSize, Px(size.horizontalDividerWidth)))
    else if s == Basic(PanelHorizontalDividerSide) then Some(Decl(InlineSize, Px(size.margin)))
    else if s == Basic(PanelVerticalDividerSide) then Some(Decl(BlockSize, Px(size.margin)))
    else o
  }

  method AddDividers(rules: Rules, size: Size) returns (r: Rules)
    requires Get(rules, Basic(PanelVerticalCandidate)).None? && Get(rules, Basic(PanelHorizontalDivider)).None?
    requires Get(rules, Basic(PanelHorizontalDividerSide)).None? && Get(rules, Basic(PanelVerticalDividerSide)).None?
    ensures r.keys == rules.keys + DIVIDER_ORDER
    ensures forall s {:trigger Get(r, s)} :: Get(r, s) == DividerStage(size, s, Get(rules, s))
  {
    r := NewRule(rules, Basic(PanelVerticalCandidate), Decl(MinInlineSize, Px(size.verticalMinWidth)));
    r := NewRule(r, Basic(PanelHorizontalDivider), Decl(BlockSize, Px(size.horizontalDividerWidth)));
    r := NewRule(r, Basic(PanelHorizontalDividerSide), Decl(InlineSize, Px(size.margin)));
    r := NewRule(r, Basic(PanelVerticalDividerSide), Decl(BlockSize, Px(size.margin)));
    assert rules.keys + [Basic(PanelVerticalCandidate)] + [Basic(PanelHorizontalDivider)]
      + [Basic(PanelHorizontalDividerSide)] + [Basic(PanelVerticalDividerSide)] == rules.keys + DIVIDER_ORDER;
  }

  lemma AppendAssoc(a: seq<Sel>, b: seq<Sel>, c: seq<Sel>)
    ensures a + b + c == a + (b + c)
  {
  }

  /** Everything the sizes do, in the order the steps run. */
  function SizeStage(size: Size, halfMargin: string, s: Sel, o: Option<Block>): Option<Block>
  {
    DividerStage(size, s, PaddingStage(size, s, MarginsStage(size, halfMargin, s, BorderStage(size, s, o))))
  }

  /** The twelve rules made at the start exist. */
  ghost predicate BasicsPresent(rules: Rules)
  {
    forall s :: InitialRule(s).Some? ==> Get(rules, s).Some?
  }

  /** The selectors of the rules the sizes make. */
  predicate SizeSel(s: Sel)
  {
    match s
    case Basic(b) =>
      (match b
       case VerticalCandidateInner | VerticalFirstCandidateInner | VerticalLastCandidateInner
         | HorizontalCandidateInner | HorizontalFirstCandidateInner | HorizontalLastCandidateInner
         | PanelVerticalCandidate | PanelHorizontalDivider | PanelHorizontalDividerSide
         | PanelVerticalDividerSide => true
       case _ => false)
    case _ => false
  }

  /** None of the rules the sizes make exists yet. */
  ghost predicate SizeRulesAbsent(rules: Rules)
  {
    forall s :: SizeSel(s) ==> Get(rules, s).None?
  }

  /** The rules the paddings change exist. */
  predicate PaddedPresent(rules: Rules)
  {
    Get(rules, Basic(CandidateInner)).Some? && Get(rules, Basic(PagingOuter)).Some? && Get(rules, Basic(PagingInner)).Some?
  }

  predicate VerticalAbsent(rules: Rules)
  {
    Get(rules, Basic(VerticalCandidateInner)).None? && Get(rules, Basic(VerticalFirstCandidateInner)).None?
    && Get(rules, Basic(VerticalLastCandidateInner)).None?
  }

  predicate HorizontalAbsent(rules: Rules)
  {
    Get(rules, Basic(HorizontalCandidateInner)).None? && Get(rules, Basic(HorizontalFirstCandidateInner)).None?
    && Get(rules, Basic(HorizontalLastCandidateInner)).None?
  }

  predicate DividersAbsent(rules: Rules)
  {
    Get(rules, Basic(PanelVerticalCandidate)).None? && Get(rules, Basic(PanelHorizontalDivider)).None?
    && Get(rules, Basic(PanelHorizontalDividerSide)).None? && Get(rules, Basic(PanelVerticalDividerSide)).None?
  }

  lemma AbsentRules(rules: Rules)
    requires SizeRulesAbsent(rules)
    ensures VerticalAbsent(rules) && HorizontalAbsent(rules) && DividersAbsent(rules)
  {
  }

  /** The borders touch no rule the later size steps make or need. */
  lemma BorderFrame(rules: Rules, r: Rules, size: Size)
    requires forall s {:trigger Get(r, s)} :: Get(r, s) == BorderStage(size, s, Get(rules, s))
    requires PaddedPresent(rules) && VerticalAbsent(rules) && HorizontalAbsent(rules) && DividersAbsent(rules)
    ensures PaddedPresent(r) && VerticalAbsent(r) && HorizontalAbsent(r) && DividersAbsent(r)
  {
  }

  lemma VerticalFrame(rules: Rules, r: Rules, size: Size, halfMargin: string)
    requires forall s {:trigger Get(r, s)} :: Get(r, s) == if size.horizontalDividerWidth == "0" then VerticalMargins(size, halfMargin, s, Get(rules, s)) else Get(rules, s)
    requires PaddedPresent(rules) && HorizontalAbsent(rules) && DividersAbsent(rules)
    ensures PaddedPresent(r) && HorizontalAbsent(r) && DividersAbsent(r)
  {
  }

  lemma HorizontalFrame(rules: Rules, r: Rules, size: Size, halfMargin: string)
    requires forall s {:trigger Get(r, s)} :: Get(r, s) == HorizontalMargins(size, halfMargin, s, Get(rules, s))
    requires PaddedPresent(rules) && DividersAbsent(rules)
    ensures PaddedPresent(r) && DividersAbsent(r)
  {
  }

  lemma PaddingFrame(rules: Rules, r: Rules, size: Size)
    requires forall s {:trigger Get(r, s)} :: Get(r, s) == PaddingStage(size, s, Get(rules, s))
    requires DividersAbsent(rules)
    ensures DividersAbsent(r)
  {
  }

  /** The borders, margins, paddings and divider sizes: the selectors they
      create are appended in order. */
  method AddSizes(rules: Rules, size: Size, halfMargin: string) returns (r: Rules)
    requires Get(rules, Basic(Panel)).Some? && PaddedPresent(rules) && SizeRulesAbsent(rules)
    ensures r.keys == rules.keys + SizeOrder(size.horizontalDividerWidth == "0")
    ensures forall s {:trigger Get(r, s)} :: Get(r, s) == SizeStage(size, halfMargin, s, Get(rules, s))
  {
    var noDivider := size.horizontalDividerWidth == "0";
    AbsentRules(rules);
    var r0 := AddBorders(rules, size);
    BorderFrame(rules, r0, size);
    var r1 := r0;
    if noDivider {
      r1 := AddMargins(r0, Basic(VerticalCandidateInner), Basic(VerticalFirstCandidateInner), Basic(VerticalLastCandidateInner),
        MarginBlockStart, MarginBlockEnd, size.margin, halfMargin);
    }
    assert forall s {:trigger Get(r1, s)} :: Get(r1, s) == if size.horizontalDividerWidth == "0" then VerticalMargins(size, halfMargin, s, Get(r0, s)) else Get(r0, s);
    VerticalFrame(r0, r1, size, halfMargin);
    var r2 := AddMargins(r1, Basic(HorizontalCandidateInner), Basic(HorizontalFirstCandidateInner), Basic(HorizontalLastCandidateInner),
      MarginInlineStart, MarginInlineEnd, size.margin, halfMargin);
    HorizontalFrame(r1, r2, size, halfMargin);
    var r3 := AddPaddings(r2, size);
    PaddingFrame(r2, r3, size);
    r := AddDividers(r3, size);
    SizeKeys(rules.keys, r0.keys, r1.keys, r2.keys, r3.keys, r.keys, noDivider);
  }

  lemma SizeKeys(k: seq<Sel>, k0: seq<Sel>, k1: seq<Sel>, k2: seq<Sel>, k3: seq<Sel>, k4: seq<Sel>, noDivider: bool)
    requires k0 == k && k1 == (if noDivider then k0 + VERTICAL_MARGIN_ORDER else k0)
    requires k2 == k1 + HORIZONTAL_MARGIN_ORDER && k3 == k2 && k4 == k3 + DIVIDER_ORDER
    ensures k4 == k + SizeOrder(noDivider)
  {
    AppendAssoc(k, if noDivider then VERTICAL_MARGIN_ORDER else [], HORIZONTAL_MARGIN_ORDER);
    AppendAssoc(k, MarginOrder(noDivider), DIVIDER_ORDER);
  }

  // ---------------------------------------------------------------------------
  // setStyle

  /** Every rule after `setStyle`, in terms of the style: the initial rules, then
      the colours, the background, the fonts, the mark opacity and the sizes,
      as the steps run. `random` is the text `Math.random()` gives the
      background URL, and `halfMargin` the text of half the margin. */
  function Rule(st: Style, isJs: bool, random: string, halfMargin: string, s: Sel): Option<Block>
  {
    BasicStages(st, isJs, random, halfMargin, s, ColourStage(st, s, InitialRule(s)))
  }

  /** The steps after the colours. */
  function BasicStages(st: Style, isJs: bool, random: string, halfMargin: string, s: Sel, o: Option<Block>): Option<Block>
  {
    SizeStage(st.size, halfMargin, s,
      OpacityStage(st.highlight, s,
        PreeditFontStage(st.font, s,
          CandidateFontStage(st.font, s,
            BackgroundStage(st.background, isJs, random, s, o)))))
  }

  /** Every selector in the order `setStyle` creates it. */
  function RuleOrder(st: Style, isJs: bool): seq<Sel>
  {
    INITIAL_RULES.keys + ColourOrder(st) + (if isJs && st.background.blur then [Blur] else [])
    + SizeOrder(st.size.horizontalDividerWidth == "0")
  }

  /** The background, fonts, opacity and sizes, on top of the colour rules. */
  method AddBasicRules(rules: Rules, st: Style, isJs: bool, random: string, halfMargin: string) returns (r: Rules)
    requires BasicsPresent(rules) && SizeRulesAbsent(rules) && Get(rules, Blur).None?
    ensures r.keys == rules.keys + (if isJs && st.background.blur then [Blur] else []) + SizeOrder(st.size.horizontalDividerWidth == "0")
    ensures forall s {:trigger Get(r, s)} :: Get(r, s) == BasicStages(st, isJs, random, halfMargin, s, Get(rules, s))
  {
    PresentRules(rules);
    var r0 := AddBackground(rules, st.background, isJs, random);
    BackgroundShape(rules, r0, st.background, isJs, random);
    PresentRules(r0);
    var r1 := AddCandidateFonts(r0, st.font);
    CandidateFontShape(r0, r1, st.font);
    PresentRules(r1);
    var r2 := AddPreeditFont(r1, st.font);
    PreeditFontShape(r1, r2, st.font);
    PresentRules(r2);
    var r3 := AddOpacity(r2, st.highlight);
    OpacityShape(r2, r3, st.highlight);
    PresentRules(r3);
    r := AddSizes(r3, st.size, halfMargin);
    BasicKeys(rules.keys, r0.keys, r1.keys, r2.keys, r3.keys, r.keys, if isJs && st.background.blur then [Blur] else [],
      SizeOrder(st.size.horizontalDividerWidth == "0"));
  }

  lemma BasicKeys(k: seq<Sel>, k0: seq<Sel>, k1: seq<Sel>, k2: seq<Sel>, k3: seq<Sel>, k4: seq<Sel>, blur: seq<Sel>, sizes: seq<Sel>)
    requires k0 == k + blur && k1 == k0 && k2 == k1 && k3 == k2 && k4 == k3 + sizes
    ensures k4 == k + blur + sizes
  {
  }

  /** The rules `setStyle` starts from: the twelve basic ones and nothing else. */
  lemma InitialShape(rules: Rules)
    requires forall s {:trigger Get(rules, s)} :: Get(rules, s) == InitialRule(s)
    ensures BasicsPresent(rules) && SizeRulesAbsent(rules) && Get(rules, Blur).None?
    ensures forall p :: Get(rules, Light(p)).None? && Get(rules, Dark(p)).None?
  {
  }

  /** The colour steps make only colour rules. */
  lemma ColourShape(rules: Rules, r: Rules, st: Style)
    requires forall s {:trigger Get(r, s)} :: Get(r, s) == ColourStage(st, s, Get(rules, s))
    ensures BasicsPresent(rules) ==> BasicsPresent(r)
    ensures SizeRulesAbsent(rules) ==> SizeRulesAbsent(r)
    ensures Get(r, Blur) == Get(rules, Blur)
  {
  }

  /** The background step makes no basic rule. */
  lemma BackgroundShape(rules: Rules, r: Rules, bg: Background, isJs: bool, random: string)
    requires forall s {:trigger Get(r, s)} :: Get(r, s) == BackgroundStage(bg, isJs, random, s, Get(rules, s))
    ensures BasicsPresent(rules) ==> BasicsPresent(r)
    ensures SizeRulesAbsent(rules) ==> SizeRulesAbsent(r)
  {
  }

  /** The font and opacity steps make no rule. */
  lemma CandidateFontShape(rules: Rules, r: Rules, font: Font)
    requires forall s {:trigger Get(r, s)} :: Get(r, s) == CandidateFontStage(font, s, Get(rules, s))
    ensures BasicsPresent(rules) ==> BasicsPresent(r)
    ensures SizeRulesAbsent(rules) ==> SizeRulesAbsent(r)
  {
  }

  lemma PreeditFontShape(rules: Rules, r: Rules, font: Font)
    requires forall s {:trigger Get(r, s)} :: Get(r, s) == PreeditFontStage(font, s, Get(rules, s))
    ensures BasicsPresent(rules) ==> BasicsPresent(r)
    ensures SizeRulesAbsent(rules) ==> SizeRulesAbsent(r)
  {
  }

  lemma OpacityShape(rules: Rules, r: Rules, h: Highlight)
    requires forall s {:trigger Get(r, s)} :: Get(r, s) == OpacityStage(h, s, Get(rules, s))
    ensures BasicsPresent(rules) ==> BasicsPresent(r)
    ensures SizeRulesAbsent(rules) ==> SizeRulesAbsent(r)
  {
  }

  /** The initial rules one by one. */
  lemma PresentRules(rules: Rules)
    requires BasicsPresent(rules)
    ensures Get(rules, Basic(Panel)).Some? && Get(rules, Basic(Hoverables)).Some? && Get(rules, Basic(TextRule)).Some?
    ensures Get(rules, Basic(LabelRule)).Some? && Get(rules, Basic(CommentRule)).Some? && Get(rules, Basic(PreeditRule)).Some?
    ensures Get(rules, Basic(CursorNoText)).Some? && Get(rules, Basic(HighlightMark)).Some?
    ensures Get(rules, Basic(HighlightOriginalMark)).Some? && PaddedPresent(rules)
  {
  }

  /** The rule dictionary `setStyle` builds, before it is printed. */
  method BuildRules(st: Style, isJs: bool, random: string, halfMargin: string) returns (r: Rules)
    ensures r.keys == RuleOrder(st, isJs)
    ensures forall s {:trigger Get(r, s)} :: Get(r, s) == Rule(st, isJs, random, halfMargin, s)
  {
    InitialRules();
    InitialShape(INITIAL_RULES);
    var colours := AddColours(INITIAL_RULES, st);
    ColourShape(INITIAL_RULES, colours, st);
    r := AddBasicRules(colours, st, isJs, random, halfMargin);
    AppendAssoc(INITIAL_RULES.keys + ColourOrder(st), if isJs && st.background.blur then [Blur] else [],
      SizeOrder(st.size.horizontalDividerWidth == "0"));
  }

  // ---------------------------------------------------------------------------
  // What the built rules say

  /** After `setStyle` each colour rule is the one its scheme makes: the sized,
      font and background steps touch no colour rule. */
  lemma ColourRulesAfterStyle(st: Style, isJs: bool, random: string, halfMargin: string, p: Part)
    ensures Rule(st, isJs, random, halfMargin, Light(p)) == LightRule(st, p)
    ensures Rule(st, isJs, random, halfMargin, Dark(p)) == DarkRule(st, p)
  {
    BasicStagesPass(st, isJs, random, halfMargin, Light(p), ColourStage(st, Light(p), InitialRule(Light(p))));
    BasicStagesPass(st, isJs, random, halfMargin, Dark(p), ColourStage(st, Dark(p), InitialRule(Dark(p))));
  }

  /** The steps after the colours touch no colour rule. */
  lemma BasicStagesPass(st: Style, isJs: bool, random: string, halfMargin: string, s: Sel, o: Option<Block>)
    requires s.Light? || s.Dark?
    ensures BasicStages(st, isJs, random, halfMargin, s, o) == o
  {
  }

  /** The colour steps touch no basic rule and not the blur rule. */
  lemma ColourPass(st: Style, s: Sel, o: Option<Block>)
    requires s.Basic? || s.Blur?
    ensures ColourStage(st, s, o) == o
  {
  }

  /** The blur rule exists exactly in the fcitx5-js distribution with blur on,
      and sets both backdrop filters to the same blur. */
  lemma BlurRule(st: Style, isJs: bool, random: string, halfMargin: string)
    ensures Rule(st, isJs, random, halfMargin, Blur).Some? <==> isJs && st.background.blur
    ensures Rule(st, isJs, random, halfMargin, Blur).Some? ==>
      var b := Rule(st, isJs, random, halfMargin, Blur).value;
      Lookup(b, WebkitBackdropFilter) == Some("blur(" + Px(st.background.blurRadius) + ")")
      && Lookup(b, BackdropFilter) == Lookup(b, WebkitBackdropFilter)
  {
  }

  /** The candidate area gets the background image, as a JSON-quoted URL, and
      `cover`, exactly when the URL is not empty. */
  lemma BackgroundImageRule(st: Style, isJs: bool, random: string, halfMargin: string)
    ensures Rule(st, isJs, random, halfMargin, Basic(Hoverables)).Some?
    ensures var b := Rule(st, isJs, random, halfMargin, Basic(Hoverables)).value;
      var url := st.background.imageUrl;
      Lookup(b, BackgroundImage) == (if url != "" then Some("url(" + Json.Quote(ImageUrl(url, random)) + ")") else None)
      && Lookup(b, BackgroundSize) == (if url != "" then Some("cover") else None)
  {
  }

  /** The panel has no shadow exactly when the shadow is off, and gets the
      border width and radius. */
  lemma PanelRule(st: Style, isJs: bool, random: string, halfMargin: string)
    ensures Rule(st, isJs, random, halfMargin, Basic(Panel)).Some?
    ensures var b := Rule(st, isJs, random, halfMargin, Basic(Panel)).value;
      Lookup(b, BoxShadow) == (if st.background.shadow then None else Some("none"))
      && Lookup(b, BorderWidth) == Some(Px(st.size.borderWidth))
      && Lookup(b, BorderRadius) == Some(Px(st.size.borderRadius))
  {
    PanelRuleOf(st, isJs, random, halfMargin, Basic(Panel), Rule(st, isJs, random, halfMargin, Basic(Panel)));
  }

  lemma PanelRuleOf(st: Style, isJs: bool, random: string, halfMargin: string, s: Sel, r: Option<Block>)
    requires s == Basic(Panel) && r == Rule(st, isJs, random, halfMargin, s)
    ensures r.Some?
    ensures Lookup(r.value, BoxShadow) == (if st.background.shadow then None else Some("none"))
      && Lookup(r.value, BorderWidth) == Some(Px(st.size.borderWidth))
      && Lookup(r.value, BorderRadius) == Some(Px(st.size.borderRadius))
  {
    var o0 := Some(EmptyBlock);
    assert InitialRule(s) == o0;
    ColourPass(st, s, o0);
    var o1 := if st.background.shadow then o0 else Some(Decl(BoxShadow, "none"));
    assert BackgroundStage(st.background, isJs, random, s, o0) == o1;
    assert OpacityStage(st.highlight, s, PreeditFontStage(st.font, s, CandidateFontStage(st.font, s, o1))) == o1;
    var b := With(With(o1.value, BorderWidth, Px(st.size.borderWidth)), BorderRadius, Px(st.size.borderRadius));
    assert SizeStage(st.size, halfMargin, s, o1) == Some(b);
    assert Lookup(b, BoxShadow) == Lookup(o1.value, BoxShadow);
  }

  /** The candidate text is as large as its font; the label and the comment
      get their own sizes. */
  lemma FontSizeRules(st: Style, isJs: bool, random: string, halfMargin: string)
    ensures Rule(st, isJs, random, halfMargin, Basic(TextRule)).Some?
    ensures Rule(st, isJs, random, halfMargin, Basic(LabelRule)).Some?
    ensures Rule(st, isJs, random, halfMargin, Basic(CommentRule)).Some?
    ensures Lookup(Rule(st, isJs, random, halfMargin, Basic(TextRule)).value, FontSize) == Some(Px(st.font.textFontSize))
    ensures Lookup(Rule(st, isJs, random, halfMargin, Basic(LabelRule)).value, FontSize) == Some(Px(st.font.labelFontSize))
    ensures Lookup(Rule(st, isJs, random, halfMargin, Basic(CommentRule)).value, FontSize) == Some(Px(st.font.commentFontSize))
  {
    FontRule(st, isJs, random, halfMargin, Basic(TextRule), st.font.textFontFamily, st.font.textFontSize);
    FontRule(st, isJs, random, halfMargin, Basic(LabelRule), st.font.labelFontFamily, st.font.labelFontSize);
    FontRule(st, isJs, random, halfMargin, Basic(CommentRule), st.font.commentFontFamily, st.font.commentFontSize);
  }

  /** One of the three candidate font rules, as the font step leaves it. */
  lemma FontRule(st: Style, isJs: bool, random: string, halfMargin: string, s: Sel, family: seq<string>, size: string)
    requires s == Basic(TextRule) || s == Basic(LabelRule) || s == Basic(CommentRule)
    requires CandidateFontStage(st.font, s, Some(EmptyBlock)) == Assign(AssignFamily(Some(EmptyBlock), family), FontSize, Px(size))
    ensures Rule(st, isJs, random, halfMargin, s) == Some(With(SetFontFamily(EmptyBlock, family), FontSize, Px(size)))
  {
    var o0 := Some(EmptyBlock);
    ColourPass(st, s, InitialRule(s));
    assert BackgroundStage(st.background, isJs, random, s, o0) == o0;
    var o1 := Some(With(SetFontFamily(EmptyBlock, family), FontSize, Px(size)));
    assert CandidateFontStage(st.font, s, o0) == o1;
    assert OpacityStage(st.highlight, s, PreeditFontStage(st.font, s, o1)) == o1;
    SizePass(st.size, halfMargin, s, o1);
  }

  /** The size steps leave the text, font and mark rules alone. */
  lemma SizePass(size: Size, halfMargin: string, s: Sel, o: Option<Block>)
    requires s == Basic(TextRule) || s == Basic(LabelRule) || s == Basic(CommentRule) || s == Basic(PreeditRule)
      || s == Basic(CursorNoText) || s == Basic(HighlightMark) || s == Basic(HighlightOriginalMark)
    ensures SizeStage(size, halfMargin, s, o) == o
  {
  }

  /** The candidate gets the line height of its text, the margin, the highlight
      radius, the four paddings and the label gap. */
  lemma CandidateInnerRule(st: Style, isJs: bool, random: string, halfMargin: string)
    ensures Rule(st, isJs, random, halfMargin, Basic(CandidateInner)).Some?
    ensures var b := Rule(st, isJs, random, halfMargin, Basic(CandidateInner)).value;
      var size := st.size;
      Lookup(b, LineHeight) == Some(Px(st.font.textFontSize)) && Lookup(b, Margin) == Some(Px(size.margin))
      && Lookup(b, BorderRadius) == Some(Px(size.highlightRadius))
      && Lookup(b, PaddingBlockStart) == Some(Px(size.topPadding)) && Lookup(b, PaddingInlineEnd) == Some(Px(size.rightPadding))
      && Lookup(b, PaddingBlockEnd) == Some(Px(size.bottomPadding)) && Lookup(b, PaddingInlineStart) == Some(Px(size.leftPadding))
      && Lookup(b, Gap) == Some(Px(size.labelTextGap))
  {
    var inner := With(Decl(LineHeight, Px(st.font.textFontSize)), Margin, Px(st.size.margin));
    CandidateInnerBlock(st, isJs, random, halfMargin, inner);
    var ds := PaddingDecls(st.size);
    PaddingLookups(inner, Px(st.font.textFontSize), Px(st.size.margin), st.size, ds, Apply(inner, ds));
  }

  /** What the paddings leave in a block that has only a line height and a margin. */
  lemma PaddingLookups(inner: Block, lineHeight: string, margin: string, size: Size, ds: seq<(Prop, string)>, b: Block)
    requires inner == With(Decl(LineHeight, lineHeight), Margin, margin)
    requires |ds| == 6 && b == Apply(inner, ds)
    requires ds[0] == (BorderRadius, Px(size.highlightRadius)) && ds[1] == (PaddingBlockStart, Px(size.topPadding))
    requires ds[2] == (PaddingInlineEnd, Px(size.rightPadding)) && ds[3] == (PaddingBlockEnd, Px(size.bottomPadding))
    requires ds[4] == (PaddingInlineStart, Px(size.leftPadding)) && ds[5] == (Gap, Px(size.labelTextGap))
    ensures Lookup(b, LineHeight) == Some(lineHeight) && Lookup(b, Margin) == Some(margin)
    ensures Lookup(b, BorderRadius) == Some(Px(size.highlightRadius))
      && Lookup(b, PaddingBlockStart) == Some(Px(size.topPadding)) && Lookup(b, PaddingInlineEnd) == Some(Px(size.rightPadding))
      && Lookup(b, PaddingBlockEnd) == Some(Px(size.bottomPadding)) && Lookup(b, PaddingInlineStart) == Some(Px(size.leftPadding))
      && Lookup(b, Gap) == Some(Px(size.labelTextGap))
  {
    assert Lookup(Decl(LineHeight, lineHeight), LineHeight) == Some(lineHeight);
    assert Lookup(inner, LineHeight) == Some(lineHeight) && Lookup(inner, Margin) == Some(margin);
    KeysOfPaddings(ds);
    ApplyUnassigned(inner, ds, LineHeight);
    ApplyUnassigned(inner, ds, Margin);
    ApplyAssigned(inner, ds);
    assert Lookup(b, ds[0].0) == Some(ds[0].1) && Lookup(b, ds[1].0) == Some(ds[1].1);
    assert Lookup(b, ds[2].0) == Some(ds[2].1) && Lookup(b, ds[3].0) == Some(ds[3].1);
    assert Lookup(b, ds[4].0) == Some(ds[4].1) && Lookup(b, ds[5].0) == Some(ds[5].1);
  }

  /** The paddings name six different properties, neither of them the line
      height or the margin. */
  lemma KeysOfPaddings(ds: seq<(Prop, string)>)
    requires |ds| == 6
    requires ds[0].0 == BorderRadius && ds[1].0 == PaddingBlockStart && ds[2].0 == PaddingInlineEnd
    requires ds[3].0 == PaddingBlockEnd && ds[4].0 == PaddingInlineStart && ds[5].0 == Gap
    ensures forall j :: 0 <= j < |ds| ==> ds[j].0 != LineHeight && ds[j].0 != Margin
    ensures forall i, j :: 0 <= i < j < |ds| ==> ds[i].0 != ds[j].0
  {
  }

  /** The candidate rule as the steps leave it: the line height and the margin,
      then the paddings. */
  lemma CandidateInnerBlock(st: Style, isJs: bool, random: string, halfMargin: string, inner: Block)
    requires inner == With(Decl(LineHeight, Px(st.font.textFontSize)), Margin, Px(st.size.margin))
    ensures Rule(st, isJs, random, halfMargin, Basic(CandidateInner)) == Some(Apply(inner, PaddingDecls(st.size)))
  {
    var s := Basic(CandidateInner);
    var o0 := Some(EmptyBlock);
    ColourPass(st, s, InitialRule(s));
    assert BackgroundStage(st.background, isJs, random, s, o0) == o0;
    var o1 := Some(Decl(LineHeight, Px(st.font.textFontSize)));
    assert CandidateFontStage(st.font, s, o0) == o1;
    assert OpacityStage(st.highlight, s, PreeditFontStage(st.font, s, o1)) == o1;
    assert BorderStage(st.size, s, o1) == Some(inner);
    assert MarginsStage(st.size, halfMargin, s, Some(inner)) == Some(inner);
    assert PaddingStage(st.size, s, Some(inner)) == Some(Apply(inner, PaddingDecls(st.size)));
  }

  /** The paging button is as round as the highlight. */
  lemma PagingInnerRule(st: Style, isJs: bool, random: string, halfMargin: string)
    ensures Rule(st, isJs, random, halfMargin, Basic(PagingInner)) == Some(Decl(BorderRadius, Px(st.size.highlightRadius)))
  {
    ColourPass(st, Basic(PagingInner), InitialRule(Basic(PagingInner)));
  }

  /** The paging button's outer box has the candidate margin. */
  lemma PagingOuterRule(st: Style, isJs: bool, random: string, halfMargin: string)
    ensures Rule(st, isJs, random, halfMargin, Basic(PagingOuter)) == Some(Decl(Margin, Px(st.size.margin)))
  {
    ColourPass(st, Basic(PagingOuter), InitialRule(Basic(PagingOuter)));
  }

  /** The preedit line is as high as its font. */
  lemma PreeditHeightRule(st: Style, isJs: bool, random: string, halfMargin: string)
    ensures Rule(st, isJs, random, halfMargin, Basic(PreeditRule)).Some?
    ensures var b := Rule(st, isJs, random, halfMargin, Basic(PreeditRule)).value;
      Lookup(b, LineHeight) == Some(Px(st.font.preeditFontSize)) && Lookup(b, FontSize) == Lookup(b, LineHeight)
  {
    var o0 := Some(EmptyBlock);
    var s := Basic(PreeditRule);
    ColourPass(st, s, InitialRule(s));
    assert CandidateFontStage(st.font, s, BackgroundStage(st.background, isJs, random, s, o0)) == o0;
    var o1 := PreeditFontStage(st.font, s, o0);
    assert OpacityStage(st.highlight, s, o1) == o1;
    SizePass(st.size, halfMargin, s, o1);
  }

  /** The cursor shown when no text follows it is as high as the preedit font. */
  lemma CursorRule(st: Style, isJs: bool, random: string, halfMargin: string)
    ensures Rule(st, isJs, random, halfMargin, Basic(CursorNoText)) == Some(Decl(BlockSize, Px(st.font.preeditFontSize)))
  {
    var o0 := Some(EmptyBlock);
    var c := Basic(CursorNoText);
    ColourPass(st, c, InitialRule(c));
    assert CandidateFontStage(st.font, c, BackgroundStage(st.background, isJs, random, c, o0)) == o0;
    var o2 := PreeditFontStage(st.font, c, o0);
    assert OpacityStage(st.highlight, c, o2) == o2;
    SizePass(st.size, halfMargin, c, o2);
  }

  /** The mark opacity goes on the original mark under 'Add' and on the mark
      otherwise. */
  lemma OpacityRule(st: Style, isJs: bool, random: string, halfMargin: string)
    ensures Rule(st, isJs, random, halfMargin, OpacitySel(st.highlight)) == Some(Decl(Opacity, MarkOpacity(st.highlight.markStyle)))
  {
    var o0 := Some(EmptyBlock);
    var s := OpacitySel(st.highlight);
    ColourPass(st, s, InitialRule(s));
    assert PreeditFontStage(st.font, s, CandidateFontStage(st.font, s, BackgroundStage(st.background, isJs, random, s, o0))) == o0;
    SizePass(st.size, halfMargin, s, OpacityStage(st.highlight, s, o0));
  }

  /** The other mark rule stays empty. */
  lemma NoOpacityRule(st: Style, isJs: bool, random: string, halfMargin: string)
    ensures var other := if HoverAdds(st) then Basic(HighlightMark) else Basic(HighlightOriginalMark);
      Rule(st, isJs, random, halfMargin, other) == Some(EmptyBlock)
  {
    var o0 := Some(EmptyBlock);
    var other := if HoverAdds(st) then Basic(HighlightMark) else Basic(HighlightOriginalMark);
    ColourPass(st, other, InitialRule(other));
    assert PreeditFontStage(st.font, other, CandidateFontStage(st.font, other, BackgroundStage(st.background, isJs, random, other, o0))) == o0;
    SizePass(st.size, halfMargin, other, OpacityStage(st.highlight, other, o0));
  }

  /** The margin rules are what the margin steps make. */
  lemma MarginOnly(st: Style, isJs: bool, random: string, halfMargin: string, s: Sel)
    requires SizeSel(s) && !DividerSel(s)
    ensures Rule(st, isJs, random, halfMargin, s) == MarginsStage(st.size, halfMargin, s, None)
  {
    SizeRuleStages(st, isJs, random, halfMargin, s);
    var m := MarginsStage(st.size, halfMargin, s, None);
    assert DividerStage(st.size, s, m) == m;
  }

  /** The divider rules are what the divider step makes. */
  lemma DividerOnly(st: Style, isJs: bool, random: string, halfMargin: string, s: Sel)
    requires DividerSel(s)
    ensures Rule(st, isJs, random, halfMargin, s) == DividerStage(st.size, s, None)
  {
    SizeRuleStages(st, isJs, random, halfMargin, s);
    assert MarginsStage(st.size, halfMargin, s, None) == None;
  }

  /** The selectors of the divider rules. */
  predicate DividerSel(s: Sel)
  {
    match s
    case Basic(b) =>
      (match b
       case PanelVerticalCandidate | PanelHorizontalDivider | PanelHorizontalDividerSide | PanelVerticalDividerSide => true
       case _ => false)
    case _ => false
  }

  /** A rule the sizes make is what the margin and divider steps make of nothing. */
  lemma SizeRuleStages(st: Style, isJs: bool, random: string, halfMargin: string, s: Sel)
    requires SizeSel(s) || DividerSel(s)
    ensures Rule(st, isJs, random, halfMargin, s) == DividerStage(st.size, s, MarginsStage(st.size, halfMargin, s, None))
  {
    assert InitialRule(s) == None;
    ColourPass(st, s, None);
    var o := BackgroundStage(st.background, isJs, random, s, None);
    assert o == None;
    assert OpacityStage(st.highlight, s, PreeditFontStage(st.font, s, CandidateFontStage(st.font, s, o))) == None;
    assert BorderStage(st.size, s, None) == None;
    var m := MarginsStage(st.size, halfMargin, s, None);
    assert PaddingStage(st.size, s, m) == m;
  }

  /** The vertical margin rules exist exactly when the horizontal divider is
      '0' wide: inner candidates get half the margin above and below, the
      outer ones the whole margin outside. */
  lemma VerticalMarginRules(st: Style, isJs: bool, random: string, halfMargin: string)
    ensures var m := Px(st.size.margin);
      var vertical := st.size.horizontalDividerWidth == "0";
      && Rule(st, isJs, random, halfMargin, Basic(VerticalCandidateInner))
        == (if vertical then Some(HalfMargins(MarginBlockStart, MarginBlockEnd, halfMargin)) else None)
      && Rule(st, isJs, random, halfMargin, Basic(VerticalFirstCandidateInner))
        == (if vertical then Some(Decl(MarginBlockStart, m)) else None)
      && Rule(st, isJs, random, halfMargin, Basic(VerticalLastCandidateInner))
        == (if vertical then Some(Decl(MarginBlockEnd, m)) else None)
  {
    VerticalMarginsAlone(st.size, halfMargin);
    MarginOnly(st, isJs, random, halfMargin, Basic(VerticalCandidateInner));
    MarginOnly(st, isJs, random, halfMargin, Basic(VerticalFirstCandidateInner));
    MarginOnly(st, isJs, random, halfMargin, Basic(VerticalLastCandidateInner));
  }

  lemma VerticalMarginsAlone(size: Size, halfMargin: string)
    ensures var vertical := size.horizontalDividerWidth == "0";
      && MarginsStage(size, halfMargin, Basic(VerticalCandidateInner), None)
        == (if vertical then Some(HalfMargins(MarginBlockStart, MarginBlockEnd, halfMargin)) else None)
      && MarginsStage(size, halfMargin, Basic(VerticalFirstCandidateInner), None)
        == (if vertical then Some(Decl(MarginBlockStart, Px(size.margin))) else None)
      && MarginsStage(size, halfMargin, Basic(VerticalLastCandidateInner), None)
        == (if vertical then Some(Decl(MarginBlockEnd, Px(size.margin))) else None)
  {
  }

  /** The horizontal margin rules always exist, with half the margin on both
      sides of inner candidates and the whole margin outside the outer ones. */
  lemma HorizontalMarginRules(st: Style, isJs: bool, random: string, halfMargin: string)
    ensures var m := Px(st.size.margin);
      && Rule(st, isJs, random, halfMargin, Basic(HorizontalCandidateInner)) == Some(HalfMargins(MarginInlineStart, MarginInlineEnd, halfMargin))
      && Rule(st, isJs, random, halfMargin, Basic(HorizontalFirstCandidateInner)) == Some(Decl(MarginInlineStart, m))
      && Rule(st, isJs, random, halfMargin, Basic(HorizontalLastCandidateInner)) == Some(Decl(MarginInlineEnd, m))
  {
    HorizontalMarginsAlone(st.size, halfMargin);
    MarginOnly(st, isJs, random, halfMargin, Basic(HorizontalCandidateInner));
    MarginOnly(st, isJs, random, halfMargin, Basic(HorizontalFirstCandidateInner));
    MarginOnly(st, isJs, random, halfMargin, Basic(HorizontalLastCandidateInner));
  }

  lemma HorizontalMarginsAlone(size: Size, halfMargin: string)
    ensures MarginsStage(size, halfMargin, Basic(HorizontalCandidateInner), None) == Some(HalfMargins(MarginInlineStart, MarginInlineEnd, halfMargin))
    ensures MarginsStage(size, halfMargin, Basic(HorizontalFirstCandidateInner), None) == Some(Decl(MarginInlineStart, Px(size.margin)))
    ensures MarginsStage(size, halfMargin, Basic(HorizontalLastCandidateInner), None) == Some(Decl(MarginInlineEnd, Px(size.margin)))
  {
  }

  /** The vertical layout's minimum width and the divider sizes. */
  lemma DividerRules(st: Style, isJs: bool, random: string, halfMargin: string)
    ensures Rule(st, isJs, random, halfMargin, Basic(PanelVerticalCandidate)) == Some(Decl(MinInlineSize, Px(st.size.verticalMinWidth)))
    ensures Rule(st, isJs, random, halfMargin, Basic(PanelHorizontalDivider)) == Some(Decl(BlockSize, Px(st.size.horizontalDividerWidth)))
    ensures Rule(st, isJs, random, halfMargin, Basic(PanelHorizontalDividerSide)) == Some(Decl(InlineSize, Px(st.size.margin)))
    ensures Rule(st, isJs, random, halfMargin, Basic(PanelVerticalDividerSide)) == Some(Decl(BlockSize, Px(st.size.margin)))
  {
    DividerOnly(st, isJs, random, halfMargin, Basic(PanelVerticalCandidate));
    DividerOnly(st, isJs, random, halfMargin, Basic(PanelHorizontalDivider));
    DividerOnly(st, isJs, random, halfMargin, Basic(PanelHorizontalDividerSide));
    DividerOnly(st, isJs, random, halfMargin, Basic(PanelVerticalDividerSide));
  }

  // ---------------------------------------------------------------------------
  // Printing

  /** `${key}: ${value};` */
  function DeclText(e: (Prop, string)): string
  {
    PropText(e.0) + ": " + e.1 + ";"
  }

  function DeclTexts(es: seq<(Prop, string)>): (r: seq<string>)
    ensures |r| == |es| && forall i :: 0 <= i < |es| ==> r[i] == DeclText(es[i])
  {
    seq(|es|, i requires 0 <= i < |es| => DeclText(es[i]))
  }

  /** The declarations of a block, one per line, in `Object.entries` order. */
  function BlockText(b: Block): string
  {
    Join(DeclTexts(BlockEntries(b)), "\n")
  }

  /** `${selector} {${declarations}}` */
  function RuleText(e: (Sel, Block)): string
  {
    SelText(e.0) + " {" + BlockText(e.1) + "}"
  }

  function RuleTexts(es: seq<(Sel, Block)>): (r: seq<string>)
    ensures |r| == |es| && forall i :: 0 <= i < |es| ==> r[i] == RuleText(es[i])
  {
    seq(|es|, i requires 0 <= i < |es| => RuleText(es[i]))
  }

  /** The text of the `#fcitx-basic` style element: the rules one after the
      other, in `Object.entries` order. */
  function StyleText(rules: Rules): string
  {
    Join(RuleTexts(Entries(rules, EmptyBlock)), "\n")
  }

  /** A block of one declaration prints as that declaration. */
  lemma DeclBlockText(k: Prop, v: string)
    ensures BlockText(Decl(k, v)) == PropText(k) + ": " + v + ";"
  {
    assert BlockEntries(Decl(k, v)) == [(k, v)];
  }

  /** A property assigned for the first time prints on a line of its own after
      the others. */
  lemma BlockTextNew(p: Block, k: Prop, v: string)
    requires Lookup(p, k).None?
    ensures BlockText(With(p, k, v)) == if p == EmptyBlock then DeclText((k, v)) else BlockText(p) + "\n" + DeclText((k, v))
  {
    EntriesWithNew(p, k, v);
    var es := BlockEntries(p);
    assert DeclTexts(es + [(k, v)]) == DeclTexts(es) + [DeclText((k, v))];
    if p != EmptyBlock {
      JoinSnoc(DeclTexts(es), "\n", DeclText((k, v)));
    }
  }

  /** A property assigned again prints with its new value on its old line. */
  lemma BlockTextAgain(p: Block, k: Prop, v: string)
    requires Lookup(p, k).Some?
    ensures var es := BlockEntries(p);
      0 <= KeyIndex(es, k) && BlockText(With(p, k, v)) == Join(DeclTexts(es)[KeyIndex(es, k) := DeclText((k, v))], "\n")
  {
    BlockEntriesSpec(p);
    var es := BlockEntries(p);
    var i := KeyIndex(es, k);
    ReplaceEntry(p, k, v, i);
    DeclTextsUpdate(es, i, (k, v));
  }

  lemma DeclTextsUpdate(es: seq<(Prop, string)>, i: int, e: (Prop, string))
    requires 0 <= i < |es|
    ensures DeclTexts(es[i := e]) == DeclTexts(es)[i := DeclText(e)]
  {
  }

  /** A rule made for a new selector prints after all the others. */
  lemma StyleTextNew(rules: Rules, sel: Sel, b: Block)
    requires Listed(rules) && Get(rules, sel).None?
    ensures StyleText(Put(rules, sel, b)) ==
      if |rules.keys| == 0 then RuleText((sel, b)) else StyleText(rules) + "\n" + RuleText((sel, b))
  {
    var es := Entries(rules, EmptyBlock);
    var r := Put(rules, sel, b);
    assert Entries(r, EmptyBlock) == es + [(sel, b)];
    assert RuleTexts(es + [(sel, b)]) == RuleTexts(es) + [RuleText((sel, b))];
    if |rules.keys| > 0 {
      JoinSnoc(RuleTexts(es), "\n", RuleText((sel, b)));
    }
  }

  /** A rule as printed: its block, or an empty one where there is none. */
  function RuleBlock(st: Style, isJs: bool, random: string, halfMargin: string, s: Sel): Block
  {
    var o := Rule(st, isJs, random, halfMargin, s);
    if o.Some? then o.value else EmptyBlock
  }

  /** The style sheet `setStyle` prints: every rule, in the order the
      selectors were first assigned. */
  function StyleSheet(st: Style, isJs: bool, random: string, halfMargin: string): string
  {
    var order := RuleOrder(st, isJs);
    Join(seq(|order|, i requires 0 <= i < |order| => RuleText((order[i], RuleBlock(st, isJs, random, halfMargin, order[i])))), "\n")
  }

  /** Printing the built dictionary gives the style sheet of the style. */
  lemma PrintedRules(r: Rules, st: Style, isJs: bool, random: string, halfMargin: string)
    requires r.keys == RuleOrder(st, isJs)
    requires forall s {:trigger Get(r, s)} :: Get(r, s) == Rule(st, isJs, random, halfMargin, s)
    ensures StyleText(r) == StyleSheet(st, isJs, random, halfMargin)
  {
    var order := RuleOrder(st, isJs);
    var es := Entries(r, EmptyBlock);
    forall i | 0 <= i < |es|
      ensures RuleTexts(es)[i] == RuleText((order[i], RuleBlock(st, isJs, random, halfMargin, order[i])))
    {
      assert Get(r, order[i]) == Rule(st, isJs, random, halfMargin, order[i]);
    }
    assert RuleTexts(es) == seq(|order|, i requires 0 <= i < |order| => RuleText((order[i], RuleBlock(st, isJs, random, halfMargin, order[i]))));
  }

  /** `setStyle`: builds and prints the rules, gives the user style sheet its
      cache-busting link and passes the paging and hover settings on to the
      mouse handlers. `random` and `userRandom` are the texts of the two
      `Math.random()` calls. */
  method SetStyle(st: Style, isJs: bool, random: string, halfMargin: string, userRandom: string, mouse: Ux.MouseState)
    returns (css: string, userHref: string)
    modifies mouse`pagingButtonsStyle, mouse`hoverBehavior
    ensures css == StyleSheet(st, isJs, random, halfMargin)
    ensures userHref == NoCache(st.userCss, userRandom)
    ensures mouse.pagingButtonsStyle == st.pagingButtonsStyle && mouse.hoverBehavior == st.highlight.hoverBehavior
  {
    var rules := BuildRules(st, isJs, random, halfMargin);
    mouse.SetPagingButtonsStyle(st.pagingButtonsStyle);
    mouse.SetHoverBehavior(st.highlight.hoverBehavior);
    PrintedRules(rules, st, isJs, random, halfMargin);
    css := StyleText(rules);
    userHref := NoCache(st.userCss, userRandom);
  }
}
