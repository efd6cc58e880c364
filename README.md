# fcitx5-webview candidate panel, modelled in Dafny

fcitx5-webview draws the candidate window of the fcitx5 input method as a web
page. A native object (`WebviewCandidateWindow`) sends the page JavaScript
calls. The page keeps the candidate panel's state:

- the cells of the hoverables element;
- the scrolling grid with its row map, highlight and prefetch lock;
- the mouse handlers and the context menu;
- the learned label format;
- the colour scheme;
- the plugin registry;
- the style sheet that `setStyle` builds from the user's style record.

This project models that page-side state and the native serialisers that feed
it, and proves what the code promises about them.

One module per source file:

| module | file | form |
|---|---|---|
| `Scroll`, `ScrollRows`, `ScrollNav` | page/scroll.ts | class `ScrollGrid` over the row map, the highlight, the lock and the scroll state; pure row arithmetic and neighbour search beside it |
| `Panel` | page/panel.ts | class `CandidatePanel` (batch arrival, highlight moves, text areas) and pure cell construction |
| `FormatLabel` | page/format-label.ts | class `LabelFormat` (the memoised formatter) and the pure pattern check |
| `Ux` | page/ux.ts | class `MouseState`, the press/drag/click state machine and the context menu |
| `Customize` (with `Css`, `OrderedDict`, `Json`) | page/customize.ts | the rule dictionary filled step by step by methods, the printing as functions |
| `Theme` | page/theme.ts | class `ThemeState` over the panel's `light`/`dark` classes |
| `Plugin` | page/plugin.ts | class `PluginManager` over the unloader registry |
| `CandidateWindow` | src/webview_candidate_window.cpp | escaping; `formatted_to_html` as a loop method proved against a closed form; the window's calls to the page |
| `JsBridge` | include/webview_candidate_window.hpp | the `invoke_js` text and the `bind` handler's decision |

Shared modules:

- `Dom`: the hoverables element, shared by the grid, the panel and the mouse handlers, and the log of host calls (`_select`, `_page`, `_scroll`, `_askActions`).
- `Text`: JavaScript string operations.
- `Wrappers`: `Option`.

Geometry is integer: each cell has a rectangle (left, right, top, bottom) in content coordinates, and the viewport is given by `clientHeight` and `scrollTop`. `MAX_ROW` and `MAX_COLUMN` are constructor parameters of `ScrollGrid`; the page uses 6 and 6.

Functions the model takes as parameters:

- `escape_html`;
- the JSON `dump`;
- the conversion of one JSON value to a native argument;
- `isSingleEmoji`;
- the text of `Math.random()`.

Facts about the code that the model keeps:

- The highlighted row's labels are `${i - skipped + 1}` (page/scroll.ts:83-87), with no reduction modulo 10: a tenth cell in a row would be labelled 10, not 0.
- A page move ends after `MAX_ROW - 1` vertical steps, because the last lookup of the do-while is discarded (page/scroll.ts:164-178).
- The close tags follow the open tags' order, not the reverse (src/webview_candidate_window.cpp:163-174).

One place where the model does not follow the code as written:

- page/scroll.ts looks up `.candidate`, `.label`, `highlighted` and `highlighted-row`, but page/panel.ts builds cells with the classes `fcitx-candidate`, `fcitx-label` and `fcitx-highlighted`. As written, `querySelectorAll('.candidate')` matches none of those cells. The model instead reads these lookups as the cell record's fields `label`, `highlighted` and `inRow`, that is, as if the selectors named the classes panel.ts builds.

## Model

| member | source | states |
|---|---|---|
| ScrollRows.SliceEnd | page/scroll.ts:42-44 | where `slice(0, n)` stops: n itself inside the list, the whole list past it, a negative n counted from the end |
| ScrollRows.PrefixMono | page/scroll.ts:42-44 | with rows of at least one cell, the cell count of the first rows grows by at least one per row |
| ScrollRows.RowEndInside | page/scroll.ts:42-44 | every row of a valid row map ends inside the grid |
| ScrollRows.ItemCountPastEnd | page/scroll.ts:42-44 | `itemCountInFirstNRows(n)` is the total number of cells once n reaches the row count |
| ScrollRows.RowFrom | page/scroll.ts:46-56 | the `getRowOf` loop from row i stops at row i or later, never past the last row |
| ScrollRows.RowOf | page/scroll.ts:46-56 | `getRowOf` gives -1 for an empty row map and a row of the map otherwise |
| ScrollRows.RowOfBounds | page/scroll.ts:46-56 | the row found is the first whose end lies past the index, or the last row when there is none |
| ScrollRows.RowOfContains | page/scroll.ts:46-56 | for an index inside the grid, the row found contains it |
| ScrollRows.RowOfUnique | page/scroll.ts:46-56 | a row that contains the index is the one `getRowOf` finds |
| ScrollRows.RowOfPastEnd | page/scroll.ts:46-56 | indices past the last cell map to the last row |
| ScrollRows.RunLengths | page/scroll.ts:103-121 | the row map built from the cells' `y` has at least one row |
| ScrollRows.ScanIsRunLengths | page/scroll.ts:106-118 | the loop of `recalculateScroll` after i cells, with its current row closed, is the row map of those cells |
| ScrollRows.ScanAll | page/scroll.ts:106-118 | the loop over all cells builds the row map |
| ScrollRows.RunLengthsPartition | page/scroll.ts:103-121 | every row has at least one cell, the rows sum to the cell count, and each row is a maximal run of consecutive cells with equal `y` |
| ScrollRows.ExtendRun | page/scroll.ts:110-116 | one more cell lengthens the last row when its `y` repeats and starts a new row otherwise, keeping the partition |
| ScrollNav.ScanRow | page/scroll.ts:129-143 | the helper's scan stays inside the row it searches |
| ScrollNav.RowNeighbor | page/scroll.ts:129-143 | the helper gives -1 exactly for a row outside the grid, and otherwise a cell of that row |
| ScrollNav.Vertical | page/scroll.ts:146-151 | one up or down step gives a cell or -1 |
| ScrollNav.Walk | page/scroll.ts:164-178 | the page loop's walk always ends on a cell |
| ScrollNav.Neighbor | page/scroll.ts:123-180 | `getNeighborCandidate` gives a cell index or -1 |
| ScrollNav.VerticalRow | page/scroll.ts:146-151 | up and down land in the row just above or below, and fail exactly when that row does not exist |
| ScrollNav.WalkRow | page/scroll.ts:164-178 | walking k rows up or down ends k rows away, or at the top or bottom row |
| ScrollNav.PageMove | page/scroll.ts:164-178 | a page move fails exactly when the highlight is already in the top (page up) or bottom (page down) row, and otherwise moves `MAX_ROW - 1` rows or as far as the grid allows |
| ScrollNav.HomeEnd | page/scroll.ts:159-163 | home and end give the first and last cell of the highlight's row |
| ScrollNav.LeftRight | page/scroll.ts:152-158 | left gives index - 1 (-1 at 0); right gives index + 1 inside the grid and -1 past it; right undoes left |
| Scroll.Tops | page/scroll.ts:106-118 | the `y` of every cell, in order |
| Scroll.TopsOfSameRects | page/scroll.ts:103-121 | cells with the same boxes get the same row map |
| Scroll.PaintedSteps | page/scroll.ts:66-88 | the net effect on a cell is the four class and label changes applied in turn |
| Scroll.RenderedByLoops | page/scroll.ts:66-88 | a cell as the two loops and the two highlight changes leave it is the rendered cell |
| Scroll.LoopsRender | page/scroll.ts:66-88 | all the cells as the loops leave them are the rendered cells |
| Scroll.AdjustedScrollTopShows | page/scroll.ts:90-100 | after the two corrections the highlighted cell's top is never above the visible area, its bottom is not below it when it fits, and a visible cell causes no scrolling |
| Scroll.RenderedKeepsContent | page/scroll.ts:66-88 | rendering keeps every box, text and comment; only classes and labels move |
| Scroll.RenderMovesHighlight | page/scroll.ts:66-88 | with `clearOld` the row marks and the single highlight move to the new row and cell, and the new row is labelled 1, 2, ... in order |
| Scroll.FirstRenderMarks | page/scroll.ts:66-88 | a first render of an unmarked grid marks only the highlight's row |
| Scroll.SelectMatchesLabel | page/scroll.ts:183-190 | digit k selects the cell labelled k in the highlighted row, and nothing exactly when the row is shorter than k |
| Scroll.BottomRightCell | page/scroll.ts:218-230 | the scroll listener's trigger cell, the last of the next-to-last row, exists whenever there are two rows |
| Scroll.ScrollGrid.constructor | page/scroll.ts:5-25 | no scroll state, no end, no lock, an empty row map and highlight 0 |
| Scroll.ScrollGrid.GetScrollState | page/scroll.ts:10-12 | returns the scroll state |
| Scroll.ScrollGrid.SetScrollState | page/scroll.ts:14-16 | sets the scroll state |
| Scroll.ScrollGrid.SetScrollEnd | page/scroll.ts:20-22 | sets the end flag |
| Scroll.ScrollGrid.FetchComplete | page/scroll.ts:27-29 | releases the prefetch lock |
| Scroll.ScrollGrid.Expand | page/scroll.ts:31-33 | asks the host for `(0, (MAX_ROW + 1) * MAX_COLUMN)`, 42 on the page |
| Scroll.ScrollGrid.Collapse | page/scroll.ts:35-37 | asks the host for `(-1, 0)` |
| Scroll.ScrollGrid.GetRowOf | page/scroll.ts:46-56 | the loop result is `RowOf` of the row map |
| Scroll.ScrollGrid.ClearHighlightedRow | page/scroll.ts:68-74 | the current highlight's row loses its row marks and its labels become "0"; other cells are unchanged |
| Scroll.ScrollGrid.MarkHighlightedRow | page/scroll.ts:81-88 | the highlight's row gets the row mark and labels 1, 2, ... in order; other cells are unchanged |
| Scroll.ScrollGrid.ScrollHighlightIntoView | page/scroll.ts:90-100 | the scroll offset becomes the corrected one |
| Scroll.ScrollGrid.ClearOldHighlight | page/scroll.ts:68-77 | the old row is cleared and the old cell loses `highlighted` |
| Scroll.ScrollGrid.RenderHighlightAndLabels | page/scroll.ts:66-101 | the highlight becomes the new index; the cells are the rendered cells; the scroll offset is the corrected one |
| Scroll.ScrollGrid.RebuildRowMap | page/scroll.ts:105-118 | every row mark is cleared and the row map is the run lengths of the cells' `y` |
| Scroll.ScrollGrid.RecalculateScroll | page/scroll.ts:103-121 | the row map partitions the cells into runs of equal `y`; the highlight is the first cell when the session starts and is kept otherwise; the grid is in sync |
| Scroll.ScrollGrid.RowNeighborOf | page/scroll.ts:129-143 | the helper's loop computes `RowNeighbor` |
| Scroll.ScrollGrid.GetNeighborCandidate | page/scroll.ts:123-180 | the result is `Neighbor` of the grid, including the page loop's do-while |
| Scroll.ScrollGrid.PrefetchNearEnd | page/scroll.ts:203-209 | within `MAX_ROW` rows of the end, with no request out and the list not complete, the lock is taken and `(cells, MAX_ROW * MAX_COLUMN)` is requested; otherwise nothing changes |
| Scroll.ScrollGrid.MoveHighlight | page/scroll.ts:199-212 | a move renders the neighbour and may prefetch; a failed move up from the top row collapses and keeps the highlight |
| Scroll.ScrollGrid.SelectKey | page/scroll.ts:182-189 | a digit selects the cell at that position of the highlighted row, and nothing when the row is shorter |
| Scroll.ScrollGrid.ScrollKeyAction | page/scroll.ts:182-216 | digits select within the highlighted row, moves keep the grid in sync, other actions change nothing |
| Scroll.ScrollGrid.OnScroll | page/scroll.ts:218-230 | when the trigger cell's top is above the visible bottom, with no request out and the list not complete, the lock is taken and `(cells, 36)` requested |
| Dom.Layout | page/panel.ts:21-31 | each candidate is followed by exactly one plain divider; a tail adds a paging divider and its buttons |
| Dom.Hoverables.constructor | page/panel.ts:59-75 | an empty hoverables element with no tail and no scroll offset |
| Dom.Host.constructor | page/scroll.ts:27-37 | no host call made yet |
| Panel.EscapeWS | page/panel.ts:16-19 | the output has no raw space, newline or tab, and every other character is kept |
| Panel.EscapeWSPerChar | page/panel.ts:16-19 | the three replacements amount to rewriting space, newline and tab to `&nbsp;`, `<br>` and `&emsp;`, character by character |
| Panel.EscapeWSAppend | page/panel.ts:16-19 | escaping works piece by piece |
| Panel.EscapeWSChar | page/panel.ts:16-19 | one character escapes to its entity or to itself |
| Panel.Batch | page/panel.ts:95-149 | one cell per candidate, in order |
| Panel.BatchCells | page/panel.ts:95-149 | each cell has its box, text, first/last marks only when not scrolling, `highlighted` exactly at the highlight index, a label exactly when the label is non-empty or scrolling (the formatter's 0 when empty), the comment when present, and no mark exactly off the highlight outside vertical or scroll mode |
| Panel.BatchShown | page/panel.ts:95-149 | the cells show the escaped texts; at most one cell is highlighted, none when the index is out of range |
| Panel.LabelsOf | page/panel.ts:94 | the labels recorded in SCROLL_READY, one per candidate |
| Panel.ActionsOf | page/panel.ts:151 | the actions handed to the mouse handlers, one list per candidate |
| Panel.FirstHighlightedCell | page/panel.ts:34-48 | the first highlighted cell from a position on, or none |
| Panel.FirstHighlighted | page/panel.ts:34-48 | `querySelector('.fcitx-highlighted')`: the first highlighted hoverable in document order |
| Panel.FirstMarkCell | page/panel.ts:40-47 | the first cell with a mark, or -1 |
| Panel.SetHighlighted | page/panel.ts:34-48 | setting one element's class changes only that element |
| Panel.Unhighlighted | page/panel.ts:34-48 | after removing the first highlight none is left when there was at most one |
| Panel.MarkMoved | page/panel.ts:40-47 | the mark moves from its cell to the target cell |
| Panel.HighlightFollowsPointer | page/panel.ts:34-48 | after `moveHighlight` exactly the target is highlighted and only highlights and marks change |
| Panel.MarkFollowsPointer | page/panel.ts:40-47 | the single mark moves to a hovered candidate without a mark; hovering a button leaves the marks alone |
| Panel.MarkMovedSingle | page/panel.ts:40-47 | moving a single mark leaves a single mark |
| Panel.Area.constructor | page/panel.ts:207-215 | an area starts shown and empty |
| Panel.Area.Update | page/panel.ts:207-215 | empty HTML only hides the element and keeps its content; other HTML replaces the content and shows it |
| Panel.CandidatePanel.constructor | page/panel.ts:59-75 | the panel starts shown, with colour transitions on, three new text areas and the given grid, mouse handlers and label formatter |
| Panel.CandidatePanel.BeginBatch | page/panel.ts:60-94 | the cells are kept (and the lock released) exactly when a scroll continues, and cleared otherwise; the mouse and menu are reset; the scroll classes and labels follow the state |
| Panel.CandidatePanel.ResetSession | page/panel.ts:60-75 | the theme shows when there are candidates; the mouse state and menu are reset; a continuing scroll keeps cells, tail and offset and releases the lock, any other batch clears them |
| Panel.CandidatePanel.SetScrollMode | page/panel.ts:76-94 | horizontal scrolling exactly while scrolling, the end flag only then, colour transitions off while scrolling, labels recorded only in SCROLL_READY |
| Panel.CandidatePanel.AppendCells | page/panel.ts:95-149 | the new cells are the batch, appended after the old ones |
| Panel.CandidatePanel.SetCandidates | page/panel.ts:59-205 | the whole batch: cells cleared or continued, the batch appended, the actions recorded, the tail chosen or the grid recalculated, the invariant kept |
| Panel.CandidatePanel.FinishBatch | page/panel.ts:153-194 | the tail is the one the state and paging style choose; a scroll batch with cells recalculates and renders the grid |
| Panel.CandidatePanel.OnHover | page/panel.ts:196-204 | under the 'Move' behaviour with the pointer really moved, the highlight follows the pointer; otherwise nothing changes |
| Panel.CandidatePanel.MoveHighlight | page/panel.ts:34-48 | the view becomes `MovedHighlight` of the old view |
| Panel.CandidatePanel.FindHighlighted | page/panel.ts:34-35 | the search finds `FirstHighlighted` |
| Panel.CandidatePanel.FindMark | page/panel.ts:40-41 | the search finds `FirstMarkCell` |
| Panel.CandidatePanel.SetHighlightedClass | page/panel.ts:34-48 | the view becomes `SetHighlighted` of the old view |
| Panel.CandidatePanel.UpdateInputPanel | page/panel.ts:217-225 | each area is updated as `updateElement` does; the panel shows when any text is non-empty; the menu hides |
| Panel.CandidatePanel.HidePanel | page/panel.ts:227-231 | every area and the panel are hidden, the hoverables are empty, nothing is highlighted, no scroll state, no actions |
| FormatLabel.PatternSplices | page/format-label.ts:25 | a learned pattern prints n in place of the single '1' of the first label |
| FormatLabel.GuessedFits | page/format-label.ts:10-33 | a learned formatter reproduces each of the first ten labels: label i is the formatter applied to (i + 1) mod 10 |
| FormatLabel.PatternFirst | page/format-label.ts:25 | a learned pattern prints 1 as the first label |
| FormatLabel.PatternInjective | page/format-label.ts:25 | a learned pattern prints different numbers differently |
| FormatLabel.DotPattern | page/format-label.ts:25 | the first label "1." gives "0." for 0 |
| FormatLabel.LabelFormat.constructor | page/format-label.ts:1-3 | no labels and no cached formatter |
| FormatLabel.LabelFormat.SetLastLabels | page/format-label.ts:5-8 | records the labels and drops the cached formatter |
| FormatLabel.LabelFormat.GuessLabelFormatter | page/format-label.ts:10-33 | the loop returns `Guessed`: the default for no labels, modifier notation, not exactly one '1', or a label that does not fit; the pattern otherwise |
| FormatLabel.LabelFormat.GetLabelFormatter | page/format-label.ts:35-40 | the formatter guessed from the current labels, computed once and then answered from the cache |
| Ux.CandidateIndex | page/ux.ts:143-151 | -1 for anything but a candidate of the hoverables, else the candidate's index |
| Ux.Resolve | page/ux.ts:223-242 | a select click names the candidate; with no button class on the way up, the click is a select or nothing |
| Ux.ResolveLowestButton | page/ux.ts:223-238 | a click pages back exactly when some element has `fcitx-prev` and every element below it has no button class, and likewise for next and expand |
| Ux.ResolveStep | page/ux.ts:223-238 | a button class decides the click; any other element passes it to its parent |
| Ux.MouseState.constructor | page/ux.ts:15-25 | nothing pressed, no drag, all offsets 0, no actions, the menu hidden, hover 'None', paging 'Arrow' |
| Ux.MouseState.ResetMouseMoveState | page/ux.ts:26-29 | the move counter is 0 and `fcitx-mousemoved` is removed |
| Ux.MouseState.HideContextmenu | page/ux.ts:170-173 | the menu is hidden |
| Ux.MouseState.MouseDown | page/ux.ts:177-187 | a non-left button changes nothing; a left press records the start and zeroes the offsets and the drag offset |
| Ux.MouseState.MouseMove | page/ux.ts:189-210 | the counter grows by one and `fcitx-mousemoved` is on from the second move; without a left press the drag state is unchanged; during one the offsets follow the pointer and the drag offset is the maximum seen, so it never decreases |
| Ux.MouseState.GetCandidateIndex | page/ux.ts:143-151 | the search gives `CandidateIndex` |
| Ux.MouseState.MouseUp | page/ux.ts:212-243 | a left release ends the press and the drag; a drag past the threshold 10 issues nothing; otherwise the click resolves to page, expand or select |
| Ux.MouseState.ClickPath | page/ux.ts:223-242 | the host calls are the ones the resolved click makes |
| Ux.MouseState.SetActions | page/ux.ts:245-248 | records the actions |
| Ux.MouseState.AnswerActions | page/ux.ts:254-256 | shows the host's actions where they were asked for |
| Ux.MouseState.ChooseMenuItem | page/ux.ts:158-161 | an entry of the shown menu runs its action and closes the menu; anything else changes nothing |
| Ux.MouseState.ContextMenu | page/ux.ts:258-284 | while scrolling, a candidate's position is kept and its actions are asked for; otherwise the menu shows the candidate's actions when there are some and hides when not |
| Ux.MouseState.SetHoverBehavior | page/ux.ts:349-351 | sets the hover behaviour |
| Ux.MouseState.GetHoverBehavior | page/ux.ts:352-354 | returns the hover behaviour |
| Ux.MouseState.SetPagingButtonsStyle | page/ux.ts:358-360 | sets the paging style |
| Ux.MouseState.GetPagingButtonsStyle | page/ux.ts:361-363 | returns the paging style |
| Theme.PanelClasses.constructor | page/theme.ts:5-7 | neither class on yet |
| Theme.ThemeState.constructor | page/theme.ts:5-7 | the page follows the system, whose scheme it records |
| Theme.ThemeState.SetLightTheme | page/theme.ts:9-12 | exactly `light` on |
| Theme.ThemeState.SetDarkTheme | page/theme.ts:14-17 | exactly `dark` on |
| Theme.ThemeState.SystemThemeHandler | page/theme.ts:19-25 | the class is the system's scheme |
| Theme.ThemeState.OnSystemChange | page/theme.ts:27-32 | the system's scheme is always recorded; the classes follow it only while the page follows the system; one class stays one class |
| Theme.ThemeState.SetTheme | page/theme.ts:34-49 | 0 follows the system again with its class, 1 and 2 fix light and dark, each leaving exactly one class; any other value changes nothing |
| Plugin.LoadEvents | page/plugin.ts:17-25 | one "Loading plugin" log line per name, in order |
| Plugin.ScriptSrcs | page/plugin.ts:17-25 | one script src `fcitx:///file/plugin/<name>/dist/index.js` per name, in order |
| Plugin.Reverse | page/plugin.ts:28 | `reverse` puts element i at position n - 1 - i |
| Plugin.CallsAppend | page/plugin.ts:27-38 | the calls of two stretches of events are the calls of each, in order |
| Plugin.UnloadCallsAll | page/plugin.ts:29-34 | a throwing unloader does not stop the loop: every unloader is called once, in order |
| Plugin.PluginManager.constructor | page/plugin.ts:1-3 | an empty registry, no scripts, no events |
| Plugin.PluginManager.Register | page/plugin.ts:4-15 | no `load` function: only the log line; a `load` without `unload`: only the other log line; otherwise the unloader is recorded and then `load` is called |
| Plugin.PluginManager.LoadPlugins | page/plugin.ts:17-25 | appends one log line and one script per name, in order |
| Plugin.PluginManager.UnloadPlugins | page/plugin.ts:27-38 | every unloader is called newest first, throwing ones logged; afterwards the registry and the scripts are empty |
| Text.NatString | page/scroll.ts:84-86 | decimal digits without leading zeros |
| Text.DecimalString | page/scroll.ts:84-86 | `${i}` of an integer: a minus sign for negatives, then the digits |
| Text.NatStringRoundTrip | page/scroll.ts:84-86 | the digits read back as the number |
| Text.NatStringInjective | page/scroll.ts:84-86 | different numbers print differently |
| Text.Join | page/customize.ts:493-498 | `join` of one part is the part and of none is "" |
| Text.JoinSnoc | page/customize.ts:493-498 | one more part adds one separator and the part |
| Text.ReplaceAllChar | page/panel.ts:16-19 | `replaceAll` of a character removes it unless the replacement has it, keeps every other character and adds only the replacement's |
| Text.ReplaceAllAppend | page/panel.ts:16-19 | replacing works piece by piece |
| Text.ReplaceAllOne | page/panel.ts:16-19 | one character is replaced when it matches and kept otherwise |
| Text.ReplaceAllAbsent | page/panel.ts:16-19 | a string without the character is unchanged |
| Text.IndexOf | page/format-label.ts:21-24 | the first position of the character, -1 exactly when it is absent |
| Text.LastIndexOf | page/format-label.ts:21-24 | the last position of the character, -1 exactly when it is absent |
| Text.FindFrom | page/customize.ts:140-142 | the first occurrence of a pattern at or after a position, or -1 |
| Text.CountAppend | page/format-label.ts:21-24 | occurrences add over concatenation |
| Text.CountZero | page/format-label.ts:21-24 | no occurrence exactly when the character is absent |
| Text.OccursOnce | page/format-label.ts:21-24 | `indexOf != -1 && lastIndexOf == indexOf` holds exactly when the character occurs once |
| Text.FindFromChar | page/format-label.ts:25 | a one-character pattern is found at its first occurrence |
| Text.ReplaceFirstOfPrefix | page/customize.ts:140-142 | `replace` on a string that starts with the pattern replaces that prefix |
| Text.ReplaceFirstChar | page/format-label.ts:25 | `replace` of a character cuts the string around its first occurrence |
| Text.TrimStart | page/customize.ts:173-178 | removes exactly the leading white space |
| Text.TrimEnd | page/customize.ts:173-178 | removes exactly the trailing white space |
| Text.TrimSpec | page/customize.ts:173-178 | `trim` leaves a contiguous part of the string that neither starts nor ends with white space, with only white space around it |
| Json.HexValue | page/customize.ts:173-178 | the value of a hex digit in either case, -1 otherwise |
| Json.HexRoundTrip | page/customize.ts:173-178 | a hex digit reads back as its value |
| Json.EscapeChar | page/customize.ts:173-178 | each character has a non-empty literal text |
| Json.Quote | page/customize.ts:173-178 | `JSON.stringify` of a string is enclosed in double quotes |
| Json.ReadEscapedChar | page/customize.ts:173-178 | an escaped character reads back as itself |
| Json.ReadEscapeBody | page/customize.ts:173-178 | an escaped body and its closing quote read back as the string, leaving what follows |
| Json.ReadQuote | page/customize.ts:173-178 | a quoted string at the start of a text reads back, stopping after its closing quote |
| Json.QuoteRoundTrip | page/customize.ts:173-178 | unquoting a quoted string gives the string |
| Json.QuoteInjective | page/customize.ts:173-178 | different strings quote differently |
| OrderedDict.Empty | page/customize.ts:189-200 | `{}` has no keys |
| OrderedDict.PutValid | page/customize.ts:189-200 | assignment keeps each key listed once, reads back the value assigned, changes no other key, and adds a key only when new |
| OrderedDict.Entries | page/customize.ts:493-498 | `Object.entries` lists the keys in order, each with its value |
| Css.KeyIndex | page/customize.ts:493-498 | the position of a property's entry, -1 exactly when it has none |
| Css.EntryKeys | page/customize.ts:493-498 | the keys of the entries, in order |
| Css.BlockEntriesSpec | page/customize.ts:493-498 | `Object.entries` of a block lists every assigned property once, with its last value, and nothing else |
| Css.EntriesWithNew | page/customize.ts:493-498 | a property assigned for the first time goes last |
| Css.EntryKeysWith | page/customize.ts:493-498 | assignment keeps the key order, except that a new key goes last |
| Css.LookupIndex | page/customize.ts:493-498 | a property has a value exactly when it has an entry |
| Customize.DarkSelector | page/customize.ts:138-142 | `lightToDark` turns every light selector into the same selector under the dark panel |
| Customize.KindsDiffer | page/customize.ts:86-110 | selectors of different kinds have different texts, so no two of the page's rules share a key |
| Customize.KindPrefix | page/customize.ts:86-110 | a selector's kind can be read from its text |
| Customize.ApplyUnassigned | page/customize.ts:184-501 | a property no assignment names keeps its value |
| Customize.ApplyAssigned | page/customize.ts:184-501 | assignments to different properties each leave their value |
| Customize.Trimmed | page/customize.ts:173-178 | each value trimmed, in order |
| Customize.NonBlankMembers | page/customize.ts:173-178 | the kept strings are exactly the non-empty ones |
| Customize.FontNamesMembers | page/customize.ts:173-178 | the kept names are exactly the non-blank trimmed values, each already trimmed |
| Customize.FontNamesEmpty | page/customize.ts:173-178 | no name is kept exactly when every value is blank |
| Customize.TrimIdempotent | page/customize.ts:173-178 | trimming twice is trimming once |
| Customize.QuoteAll | page/customize.ts:173-178 | each name JSON-quoted, in order |
| Customize.SetFontFamilySpec | page/customize.ts:173-178 | `setFontFamily` leaves the block alone exactly when every value is blank, and otherwise sets `font-family` and nothing else |
| Customize.FontFamilyRoundTrip | page/customize.ts:173-178 | the written value reads back as the kept names, in order |
| Customize.ParseQuoted | page/customize.ts:173-178 | quoted names joined by ", " read back as the names |
| Customize.ImageUrl | page/customize.ts:180-182 | only `fcitx://` URLs get the `?r=` cache-busting suffix |
| Customize.ModeTable | page/customize.ts:202-280 | the colour table lists every part once, and the emitted ones come first |
| Customize.CopyTable | page/customize.ts:283-316 | the copy loop visits every emitted colour rule once |
| Customize.MarkKey | page/customize.ts:188 | the mark colour goes to `color` for the 'Text' mark style and to `background-color` otherwise |
| Customize.AssignAllKeys | page/customize.ts:202-280 | fresh selectors join the key order in turn |
| Customize.AssignAllGet | page/customize.ts:202-280 | each assigned part's rule is its block; the scheme's other rules are unchanged |
| Customize.AssignAllFrame | page/customize.ts:202-280 | the other scheme's rules and the basic rules do not change |
| Customize.ModeOrderParts | page/customize.ts:202-280 | the assignment order lists each emitted part once |
| Customize.CopyOrderParts | page/customize.ts:283-316 | the copy list lists each emitted part once |
| Customize.AddModeRules | page/customize.ts:202-280 | one rule per emitted part, in assignment order, each with its colour block |
| Customize.CopyLightToDark | page/customize.ts:283-316 | each listed light rule becomes the rule of its dark selector too |
| Customize.SetDecl | page/customize.ts:184-501 | `rules[sel][key] = value` on an existing rule gives that rule the declaration and changes no other rule |
| Customize.SetDecls | page/customize.ts:184-501 | a run of such assignments, in order |
| Customize.SetRuleFontFamily | page/customize.ts:424-436 | `setFontFamily` on an existing rule changes only that rule |
| Customize.NewRule | page/customize.ts:184-501 | a new selector's rule goes last |
| Customize.AddLightRules | page/customize.ts:202-280 | the light rules exist only when the light scheme is overridden |
| Customize.AddDarkRules | page/customize.ts:282-395 | the dark rules exist only when the dark scheme is overridden: copies of the light rules when the dark scheme is the same as the light one and the light one is overridden, otherwise rules made from the dark colours |
| Customize.AddColours | page/customize.ts:202-395 | the light rules, then the dark ones |
| Customize.DarkCopiesLight | page/customize.ts:283-316 | a copied dark rule is the light rule of the same part |
| Customize.ColourRulesExist | page/customize.ts:202-395 | without the override a scheme has no colour rules; with it every emitted part has one; the hover-add parts are emitted only under 'Add' |
| Customize.InheritedBackground | page/customize.ts:202-280 | candidate and divider backgrounds are 'inherit' exactly when there is a background image, and the panel colour otherwise |
| Customize.MarkColour | page/customize.ts:269-271 | the mark colour is written under the mark key and no other |
| Customize.InitialRules | page/customize.ts:189-200 | the initial rules are the twelve empty ones, each listed once |
| Customize.InitialKeysDistinct | page/customize.ts:189-200 | the twelve initial selectors are different |
| Customize.AddBackground | page/customize.ts:399-422 | the background image, the distribution's blur rule and the shadow |
| Customize.AddCandidateFonts | page/customize.ts:424-431 | the candidate, label and comment fonts; the text size is also the candidate's line height |
| Customize.AddPreeditFont | page/customize.ts:433-436 | the preedit's line height and font size, and the cursor as high as the preedit |
| Customize.MarkOpacity | page/customize.ts:440 | the mark is hidden exactly for the 'None' mark style |
| Customize.AddOpacity | page/customize.ts:440 | sets the mark opacity on the original mark under 'Add' and on the mark otherwise |
| Customize.AddBorders | page/customize.ts:443-444 | the panel border and the candidate margin |
| Customize.AddMargins | page/customize.ts:446-471 | three new margin rules, in order |
| Customize.AddPaddings | page/customize.ts:473-479 | the paging radius before the candidate's, then the paddings and the gap |
| Customize.AddDividers | page/customize.ts:480-491 | the vertical minimum width and the divider sizes |
| Customize.AddSizes | page/customize.ts:443-491 | the borders, margins, paddings and divider sizes, the new selectors appended in order |
| Customize.AddBasicRules | page/customize.ts:397-491 | the background, fonts, opacity and sizes on top of the colour rules |
| Customize.BuildRules | page/customize.ts:184-491 | the rule dictionary is `Rule` for every selector, with the keys in `RuleOrder` |
| Customize.ColourRulesAfterStyle | page/customize.ts:184-491 | after the later steps each colour rule is still the one its scheme made |
| Customize.BlurRule | page/customize.ts:409-418 | the blur rule exists exactly in the fcitx5-js distribution with blur on, and sets both backdrop filters to the same blur |
| Customize.BackgroundImageRule | page/customize.ts:399-407 | the candidate area gets the JSON-quoted image URL and `cover` exactly when the URL is not empty |
| Customize.PanelRule | page/customize.ts:420-422 | the panel has no shadow exactly when the shadow is off, and gets the border width and radius |
| Customize.FontSizeRules | page/customize.ts:424-431 | the candidate text is as large as its font; label and comment get their own sizes |
| Customize.CandidateInnerRule | page/customize.ts:424-479 | the candidate gets its text's line height, the margin, the highlight radius, the four paddings and the label gap |
| Customize.PagingInnerRule | page/customize.ts:473-479 | the paging button is as round as the highlight |
| Customize.PagingOuterRule | page/customize.ts:443-479 | the paging button's outer box has the candidate margin |
| Customize.PreeditHeightRule | page/customize.ts:433-436 | the preedit line is as high as its font |
| Customize.CursorRule | page/customize.ts:433-436 | the cursor shown with no text after it is as high as the preedit font |
| Customize.OpacityRule | page/customize.ts:440 | the mark opacity is on the original mark under 'Add' and on the mark otherwise |
| Customize.NoOpacityRule | page/customize.ts:440 | the other mark rule stays empty |
| Customize.VerticalMarginRules | page/customize.ts:449-460 | the vertical margin rules exist exactly when the horizontal divider is '0' wide: half margins inside, whole margins outside |
| Customize.HorizontalMarginRules | page/customize.ts:462-471 | the horizontal margin rules always exist, with half margins inside and whole margins outside |
| Customize.DividerRules | page/customize.ts:480-491 | the vertical minimum width and the divider sizes |
| Customize.DeclTexts | page/customize.ts:493-498 | one `key: value;` text per entry, in order |
| Customize.RuleTexts | page/customize.ts:493-498 | one `selector {...}` text per rule, in order |
| Customize.DeclBlockText | page/customize.ts:493-498 | a block of one declaration prints as that declaration |
| Customize.BlockTextNew | page/customize.ts:493-498 | a property assigned for the first time prints on its own line after the others |
| Customize.BlockTextAgain | page/customize.ts:493-498 | a property assigned again prints its new value on its old line |
| Customize.StyleTextNew | page/customize.ts:493-498 | a rule made for a new selector prints after all the others |
| Customize.PrintedRules | page/customize.ts:493-498 | printing the built dictionary gives the style sheet of the style |
| Customize.SetStyle | page/customize.ts:184-501 | the basic style text is the style sheet; the user style link carries its cache-busting URL; the paging and hover settings go to the mouse handlers |
| CandidateWindow.EscapedCandidatesUnique | src/webview_candidate_window.cpp:24-35 | the escaped form of a candidate list is unique |
| CandidateWindow.EscapeActions | src/webview_candidate_window.cpp:24-35 | as many actions, in order, with the same ids and escaped texts |
| CandidateWindow.EscapeCandidate | src/webview_candidate_window.cpp:28-35 | text, label and comment escaped, actions escaped in order with their ids |
| CandidateWindow.EscapeCandidates | src/webview_candidate_window.cpp:99-109 | as many candidates, in order, each escaped |
| CandidateWindow.TagsAppend | src/webview_candidate_window.cpp:150-174 | the tags of two name lists are the tags of each, in order |
| CandidateWindow.TagStep | src/webview_candidate_window.cpp:150-174 | each condition of a tag builder is one entry of the tag table |
| CandidateWindow.TagsUnfold | src/webview_candidate_window.cpp:150-174 | the tag builders are the walk over the tag table |
| CandidateWindow.OpenTagsSpec | src/webview_candidate_window.cpp:150-161 | the open tags name the set flags' elements in the order u, mark, b, s, i |
| CandidateWindow.CloseTagsSpec | src/webview_candidate_window.cpp:163-174 | the close tags name the same elements in the same order, not reversed |
| CandidateWindow.CloseTagsNotNested | src/webview_candidate_window.cpp:150-174 | underline with bold opens `<u><b>` and closes `</u></b>` |
| CandidateWindow.StartMonotone | src/webview_candidate_window.cpp:176-211 | slice start positions never decrease |
| CandidateWindow.FindCursor | src/webview_candidate_window.cpp:189-200 | the search ends at a slice at or after its start, or at the end |
| CandidateWindow.CursorSlice | src/webview_candidate_window.cpp:189-200 | the cursor's slice is the first whose span, ends included, holds the cursor, or none |
| CandidateWindow.CursorDrawn | src/webview_candidate_window.cpp:176-211 | the cursor is drawn exactly when there is a slice and the cursor does not lie beyond the text |
| CandidateWindow.CursorAtSliceEnd | src/webview_candidate_window.cpp:189-200 | a cursor at the end of a slice is drawn in that slice or earlier |
| CandidateWindow.ClosedStep | src/webview_candidate_window.cpp:186-208 | each slice's piece extends the closed form by one slice |
| CandidateWindow.EmitStep | src/webview_candidate_window.cpp:186-208 | one turn from a state consistent before slice j appends exactly that slice's piece of `FormattedHtml` and leaves a state consistent before slice j + 1 |
| CandidateWindow.ClosedEmit | src/webview_candidate_window.cpp:186-208 | a turn from the closed form of the first j slices gives the closed form of the first j + 1 |
| CandidateWindow.AppendPlaced | src/webview_candidate_window.cpp:186-208 | one turn of the loop keeps the stream equal to the closed form and the cursor bookkeeping consistent |
| CandidateWindow.EmitCases | src/webview_candidate_window.cpp:186-208 | the three outcomes of one turn of the loop |
| CandidateWindow.AppendSlice | src/webview_candidate_window.cpp:186-208 | one turn appends the slice's piece and carries `cursor_pos` and `cursor` on |
| CandidateWindow.FormattedToHtml | src/webview_candidate_window.cpp:176-211 | the loop returns `FormattedHtml`: no cursor divs without a cursor; otherwise the pre-cursor div, one `</div>` after each slice before the cursor, the text split around the cursor div in the first slice whose span holds the cursor, plain slices after |
| CandidateWindow.WebviewCandidateWindow.constructor | include/webview_candidate_window.hpp:61-72 | the header's defaults: accent 4, layout 0, writing mode 0 |
| CandidateWindow.WebviewCandidateWindow.SetAccentColor | src/webview_candidate_window.cpp:86-92 | sends the accent colour, or `null` when there is none |
| CandidateWindow.WebviewCandidateWindow.SetLayout | src/webview_candidate_window.cpp:94-97 | records the layout and sends it |
| CandidateWindow.WebviewCandidateWindow.SetCandidates | src/webview_candidate_window.cpp:99-109 | sends every candidate escaped, in order, with the paging state and the escaped highlight mark |
| CandidateWindow.WebviewCandidateWindow.ScrollKeyAction | src/webview_candidate_window.cpp:111-113 | sends the action |
| CandidateWindow.WebviewCandidateWindow.AnswerActions | src/webview_candidate_window.cpp:115-122 | sends the actions escaped, in order, with their ids |
| CandidateWindow.WebviewCandidateWindow.SetTheme | src/webview_candidate_window.cpp:124-126 | sends the theme |
| CandidateWindow.WebviewCandidateWindow.SetWritingMode | src/webview_candidate_window.cpp:128-131 | records the mode and sends it |
| CandidateWindow.WebviewCandidateWindow.SetStyle | src/webview_candidate_window.cpp:133-135 | sends the style text as a JSON string |
| CandidateWindow.WebviewCandidateWindow.UpdateInputPanel | src/webview_candidate_window.cpp:213-220 | sends the preedit with the cursor and the two auxiliary lines without one |
| CandidateWindow.WebviewCandidateWindow.CopyHtml | src/webview_candidate_window.cpp:222 | sends a call without arguments |
| JsBridge.Dumps | include/webview_candidate_window.hpp:117-130 | each argument's dump, in order |
| Text.JoinCons | include/webview_candidate_window.hpp:117-130 | a join of two or more parts is the first part, the separator and the rest joined |
| JsBridge.ArgsAreJoinedDumps | include/webview_candidate_window.hpp:117-130 | the arguments are the dumps joined by ", ": n arguments give n - 1 separators, none give nothing |
| JsBridge.ArgsAppend | include/webview_candidate_window.hpp:117-130 | splitting the pack splits the text at one separator |
| JsBridge.InvokeJsShape | include/webview_candidate_window.hpp:95-100 | the script is `fcitx.<name>(<joined dumps>);`, and `fcitx.<name>();` without arguments |
| JsBridge.JsonToTupleSpec | include/webview_candidate_window.hpp:170-173 | the tuple converts exactly when every element does, each value in place; otherwise the first failure is the outcome |
| JsBridge.JsonToTuplePrefix | include/webview_candidate_window.hpp:170-173 | elements past the arity do not change the conversion |
| JsBridge.HandleSpec | include/webview_candidate_window.hpp:134-168 | `f` is called exactly when the array has enough elements and each converts; the reply is "" unless `f` returns a value, whose dump is then the reply; a refusal writes a log line |
| JsBridge.HandleIgnoresExtra | include/webview_candidate_window.hpp:146-148 | elements beyond the arity change neither the reply nor the call |

## Left out

- `resize` and `getBoundingRectWithShadow` (page/ux.ts:39-131): floating-point DOM geometry and box-shadow parsing. MouseMove does not request a resize.
- The blur and blink timers, `setBlur`, `setBlink` and `showCursor` (page/ux.ts:290-345): timers. Customize.SetStyle does not call `setBlink` or `setBlur`.
- `showContextmenu` building the menu's DOM (page/ux.ts:153-168). The menu is a `MenuShown` value with its position, index and items.
- page/ghost-stripe.ts, page/api.ts, page/log.ts and page/distribution.ts are not part of this model. The fcitx5-js distribution check is the boolean `isJs`.
- `isSingleEmoji` (page/panel.ts:11-14) depends on an emoji library and `Intl.Segmenter`; it is a predicate parameter.
- `escape_html` (src/utility.cpp) and the JSON library's `dump` are function parameters. Json.Quote models only string literals, the form `setFontFamily` and `set_style` need.
- `JSON.parse` of the style text (page/customize.ts:185): the model starts from the parsed style record.
- `Math.random()` in `noCache` is a string parameter.
- The writes to `document.head` (page/customize.ts:493-500) are fields holding the style text and the user style link. The search for an existing `#fcitx-basic` element is not modelled.
- Customize.SetStyle: the half margin is computed with floating-point division, so the model takes its text as a parameter.
- `setColorTransition` is a flag of the panel; the CSS transitions it controls are not modelled.
- `getBoundingClientRect` and `distanceToTop` (page/scroll.ts:62-64) are replaced by integer rectangles given with each batch. The browser clamping `scrollTop` to the content is not modelled.
- Scroll.ScrollGrid.ScrollKeyAction, MoveHighlight and the other grid operations require the row map to match the cells (`Synced`). Key actions reach the grid only after `recalculateScroll` has run in scroll mode. A key action that arrives before any row map exists is not modelled: there `getRowOf` gives -1, and HOME would render cell 0 and request more candidates.
- ScrollNav.PageMove requires `MAX_ROW >= 2`. With one row per page the do-while makes no move, which Neighbor still models.
- Ux.MouseState.GetCandidateIndex, ContextMenu: where the page would index `actions` past its end and throw, the model treats the handler as aborted with no change.
- The hover listeners (page/panel.ts:196-204) are the method Panel.CandidatePanel.OnHover, not registered closures. Element identity and aliasing are replaced by indices into the cell list.
- `show`, `hide`, native blur and shadow, `set_api`, `api_curl`, `load_plugins` and `unload_plugins` (src/webview_candidate_window.cpp:137-148, 225-363) are window glue and network I/O. src/curl.cpp, the platform files and preview/preview.cpp are not part of this model.
- The asynchronous dispatch of `invoke_js` (include/webview_candidate_window.hpp:105-114) and `async_on_main`: the model builds the script text only.
- The `bind` registration list: JsBridge.Handle is one bound handler applied to a parsed array. Error output is the `log` string.
- C++ `int` overflow of `cursor_pos` and of text sizes: the model uses unbounded integers.
- Strings are Dafny strings, sequences of Unicode scalar values. A JavaScript string is read as its scalar values: code-unit lengths and offsets are not modelled, and a lone surrogate cannot be represented, so the `\udxxx` escape JSON.stringify gives one (page/customize.ts:174) is not modelled either. The C++ strings of src/webview_candidate_window.cpp are `std::string`, read as byte sequences. No Unicode normalisation or segmentation is modelled.
- The scroll state is an integer, as in page/constant.ts; values other than 0, 1 and 2 are accepted and act like none of them.
- Theme.ThemeState.SetTheme accepts any integer, since the `switch` has no default branch. Values other than 0, 1 and 2 change nothing.
- Customize: the selector strings of page/customize.ts:86-110 are built by the function `SelText` from a `Sel` key. Customize.KindsDiffer proves that no two keys share a text.
