# Virtualized list engine

A Dafny model of the windowing and navigation engine of crush's experimental
terminal list (`internal/tui/exp/list/list.go`). The list holds a sequence of
items, an id → index map, a per-id render cache of where each item sits in the
rendered buffer, the buffer itself with its line index, and a scroll offset
counted from the top (forward) or from the bottom (backward). The model covers:

- the viewport arithmetic (`viewPosition`);
- the line index and line slicing of the buffer (`setRendered`, `getLines`);
- building the buffer (`renderIterator`, `recalculateItemPositionsFrom`, `render`);
- the item store (`AppendItem`, `PrependItem`, `DeleteItem`, `UpdateItem`, `SetItems`, `reset`);
- scrolling (`incrementOffset`, `decrementOffset`, `MoveDown`, `MoveUp`);
- keyboard focus navigation (`firstSelectableItemAbove`/`Below`, `selectFirstItem`, `selectLastItem`,
  `setDefaultSelected`, `SelectItemAbove`/`Below`, `GoToTop`/`GoToBottom`, `focusSelectedItem`,
  `blurSelectedItem`);
- the two "is the selected item in view" policies (`scrollToSelection`, `changeSelectionWhenScrolling`);
- the mouse selection: setters, `hasSelection`, the per-row bounds of `selectionView`,
  `findParagraphBoundaries` and `SelectParagraph`.

An item is `(id, view, focusable)`. An item's view and the buffer are opaque
strings (`seq<char>`), and the height of a string is its number of `'\n'` plus
one, so the empty string has height 1.

Files:

- `Text.dfy`: newline counting, the line index and `getLines`.
- `Viewport.dfy`: `viewPosition` and the scroll policy of `scrollToSelection`.
- `Layout.dfy`: items, cache entries, the full layout of the buffer, the two passes of
  `renderIterator` and the recalculation of positions as functions, and the focusable-item searches.
- `Render.dfy`: the loops of `renderIterator` and `recalculateItemPositionsFrom`, and a full render.
- `Navigation.dfy`: the focus searches as loops, the default selection, focus and blur, and `scrollToSelection`.
- `ScrollSelection.dfy`: `changeSelectionWhenScrolling`.
- `Scrolling.dfy`: offset increments and decrements, and how selection rows follow a scroll.
- `Selection.dfy`: the selection rectangle, its per-row bounds, screen/buffer row translation and paragraphs.
- `Store.dfy`: the id → index map under append, prepend, delete and replace.
- `ListEngine.dfy`: the `List` class with the Go struct's fields, and its operations proved against
  predicates over its state (`AfterRender`, `MovedView`, `AddedItem`, `DeletedItem`, `UpdatedItem`, …).

Each rendering operation of the class is specified on a value, `ViewState`, which holds
the selection, the previous selection, the focus flags, the cache, the buffer, its height
and line index, the offset and the keyboard-navigation flag. The class methods keep
`Valid()` and state their effect as a predicate from `old(State())` to `State()`.

## Model

| member | source | states |
|---|---|---|
| Viewport.ViewPosition | internal/tui/exp/list/list.go:529-541 | the visible line range always has start ≤ end |
| Viewport.ViewPositionFillsViewport | internal/tui/exp/list/list.go:529-541 | with the offset in range, the range lies inside the buffer and holds min(height, renderedHeight) lines; forward it starts at the offset, backward it ends offset lines above the last line |
| Viewport.ViewPositionMirror | internal/tui/exp/list/list.go:529-541 | the backward range is the forward range mirrored about the middle of the buffer |
| Viewport.TallItemCoversViewport | internal/tui/exp/list/list.go:686-736 | after keyboard navigation (`movingByItem`), or whenever neither end line of the item is in view, scrolling to an item at least as tall as the view leaves the view within the item |
| Viewport.TallItemMayStayPartlyShown | internal/tui/exp/list/list.go:703-709 | without keyboard navigation a tall item showing one end line keeps the offset: lines 5-20 of 30 with a 10-line view at offset 0 stay at view 0..9, which starts before the item |
| Viewport.ShortItemBecomesVisible | internal/tui/exp/list/list.go:686-736 | after `scrollToSelection`, a shorter item is wholly in view during keyboard navigation, and at least one of its ends is in view otherwise |
| Viewport.ScrollTargetInRange | internal/tui/exp/list/list.go:686-736 | the offset `scrollToSelection` picks stays in [0, max(0, renderedHeight − height)] |
| Viewport.ScrollTarget | internal/tui/exp/list/list.go:694-735 | the offset `scrollToSelection` moves to: it changes only when the selection does not count as shown, and is never negative for an item and offset in the content; TallItemCoversViewport, ShortItemBecomesVisible and ScrollTargetInRange state what it achieves |
| Text.CountNewlines | internal/tui/exp/list/list.go:543-564 | the newline count is at most the length |
| Text.Height | internal/tui/exp/list/list.go:543-564 | a string's height is at least 1 |
| Text.NextNewline | internal/tui/exp/list/list.go:552-560 | the byte search finds the first `'\n'` at or after the start, or reports none |
| Text.IndexLines | internal/tui/exp/list/list.go:543-564 | the loop of `setRendered` builds exactly the line-start index of the buffer |
| Text.LineStartsShape | internal/tui/exp/list/list.go:543-564 | for a non-empty buffer: one entry per line, the first is 0, the entries strictly increase, each later one follows a `'\n'`, and every `'\n'` starts an entry |
| Text.LineStartsEmpty | internal/tui/exp/list/list.go:548-563 | an empty buffer has no line starts |
| Text.LineStartsIncreasing | internal/tui/exp/list/list.go:543-564 | line starts strictly increase |
| Text.SplitJoin | internal/tui/exp/list/list.go:543-564 | splitting at `'\n'` and joining again gives the buffer back, with one piece per line and no newline inside a piece |
| Text.GetLinesIsJoinOfLines | internal/tui/exp/list/list.go:566-592 | `getLines(start, end)` is lines start..end joined by `'\n'`, with end clamped to the last line, and `""` for an empty buffer, a start past the last line or start > end |
| Text.GetLines | internal/tui/exp/list/list.go:566-592 | `getLines` returns a contiguous piece of the buffer, and nothing when end < start; GetLinesIsJoinOfLines identifies the piece as the requested lines |
| Text.GetLinesOfEmpty | internal/tui/exp/list/list.go:567-569 | an empty buffer gives `""` whatever index it carries |
| Layout.IndexConsistentUnique | internal/tui/exp/list/list.go:111-138 | a consistent id → index map means the ids are distinct |
| Layout.CacheInsert | internal/tui/exp/list/list.go:1036-1042 | inserting an entry made from an item keeps the cache consistent |
| Layout.CacheRemove | internal/tui/exp/list/list.go:876-928 | dropping cache entries keeps the cache consistent |
| Layout.LayoutHeight | internal/tui/exp/list/list.go:939-1034 | the full buffer's height is the last item's start line plus its height |
| Layout.ItemPlacement | internal/tui/exp/list/list.go:939-1034 | item i's view sits in the full buffer after exactly StartLine(i) newlines, followed by its gap |
| Layout.IterIndex | internal/tui/exp/list/list.go:959-963 | the reverse walk visits valid indices |
| Layout.FinalIndexFrom | internal/tui/exp/list/list.go:953-988 | the index a pass stops at lies between its start and the item count |
| Layout.FinalIndexStops | internal/tui/exp/list/list.go:953-988 | without the height limit a pass returns the item count; with it, it stops at the first index whose accumulated height reaches the view height |
| Layout.PassCacheStep | internal/tui/exp/list/list.go:959-987 | one step of a pass keeps a cached entry, or caches the item's fresh entry, adds its fragment with gap+1 newlines (none after the last item), and advances the height |
| Layout.PassCacheConsistent | internal/tui/exp/list/list.go:953-988 | a pass keeps the cache consistent with the items |
| Layout.PassFragmentsJoin | internal/tui/exp/list/list.go:990-1033 | forward fragments join into the buffer segment they cover; backward ones, reversed, into theirs |
| Layout.ForwardPassExact | internal/tui/exp/list/list.go:960-987 | a forward pass from an exact start records each item's exact start and end lines |
| Layout.PassPositionsExact | internal/tui/exp/list/list.go:953-988 | a forward pass keeps exact positions exact |
| Layout.PassResultFacts | internal/tui/exp/list/list.go:939-1034 | after a pass the cache holds the old and the visited ids and stays consistent; backward, once every item is cached, its positions (after recalculation) are exact; forward, exact positions stay exact |
| Layout.FullPassRender | internal/tui/exp/list/list.go:638-650 | rendering in one pass yields the full layout with every item cached; positions are exact going backward and stay exact going forward |
| Layout.PrefixIndex | internal/tui/exp/list/list.go:651-657 | the first pass of a first render stops within the items |
| Layout.TwoPassText | internal/tui/exp/list/list.go:651-673 | the height-limited first pass followed by the second pass from its final index yields the full layout; forward, the second pass starts on the next item's start line |
| Layout.TwoPassCache | internal/tui/exp/list/list.go:651-673 | after both passes every item is cached and the cache is consistent; positions are exact going backward and stay exact going forward |
| Layout.RecalculatedStep | internal/tui/exp/list/list.go:598-624 | each cached item from k on gets start = the running line and end = start + height − 1, and the running line becomes end + 1 + gap |
| Layout.RecalculatedPositionsExact | internal/tui/exp/list/list.go:594-596 | recalculating from 0 with every item cached makes every position exact (item 0 at line 0) |
| Layout.PassesCoverAll | internal/tui/exp/list/list.go:651-673 | the two passes together visit every item |
| Layout.FirstFocusableFrom | internal/tui/exp/list/list.go:861-869 | the first focusable index from a start, or none |
| Layout.LastFocusableBefore | internal/tui/exp/list/list.go:844-852 | the last focusable index before a bound, or none |
| Layout.FocusableBelow | internal/tui/exp/list/list.go:859-874 | the smallest focusable index after i; wrapping only when on and i is the last index; `ItemNotFound` only when nothing qualifies |
| Layout.FocusableAbove | internal/tui/exp/list/list.go:843-857 | the largest focusable index before i; wrapping only when on and i is 0; `ItemNotFound` only when nothing qualifies |
| Layout.DefaultIndex | internal/tui/exp/list/list.go:823-841 | none exactly when no item is focusable; else the first (forward) or last (backward) focusable item |
| Render.CollectFragments | internal/tui/exp/list/list.go:953-988 | the loop of `renderIterator` yields the pass's final index, its cache and its fragments |
| Render.JoinFragments | internal/tui/exp/list/list.go:990-1033 | forward output is the previous text followed by the fragments; backward, the fragments in reverse followed by the previous text |
| Render.IteratePass | internal/tui/exp/list/list.go:939-1034 | `renderIterator`: the final index, cache and text of one pass, with the cache kept consistent |
| Render.PlaceFrom | internal/tui/exp/list/list.go:598-624 | the loop of `recalculateItemPositionsFrom` gives the recalculated cache |
| Render.RecalculateFrom | internal/tui/exp/list/list.go:598-624 | `recalculateItemPositionsFrom(k)` recalculates from k, does nothing past the end, and keeps the cache consistent |
| Render.RenderPass | internal/tui/exp/list/list.go:638-650 | one pass, then the recalculation when going backward: the pass's final index and text, and the resulting cache, kept consistent |
| Render.RenderAll | internal/tui/exp/list/list.go:638-650 | a render with a buffer yields the full layout with every item cached; positions are exact going backward and stay exact going forward |
| Render.RenderInTwo | internal/tui/exp/list/list.go:651-673 | a first render in two passes yields the same |
| Navigation.FirstSelectableBelow | internal/tui/exp/list/list.go:859-874 | the loop returns `FocusableBelow` |
| Navigation.FirstSelectableAbove | internal/tui/exp/list/list.go:843-857 | the loop returns `FocusableAbove` |
| Navigation.DefaultSelected | internal/tui/exp/list/list.go:676-684 | an empty selection becomes the first (forward) or last (backward) focusable item, or stays empty; a set one is kept |
| Navigation.FocusSelected | internal/tui/exp/list/list.go:876-910 | with a selection and focus: the previous item is blurred if the selection moved, the selected one is focused, and exactly the items whose flag changed lose their cache entry |
| Navigation.BlurSelected | internal/tui/exp/list/list.go:912-928 | when not focused, the selected focusable item is blurred and loses its cache entry; nothing else changes |
| Navigation.ScrollTo | internal/tui/exp/list/list.go:686-736 | an uncached selection is replaced by the default one; else the offset moves to the scroll target and keyboard navigation ends once a scroll was needed |
| ScrollSelection.FirstCandidateFrom | internal/tui/exp/list/list.go:762-786 | the downward search returns a later index or none |
| ScrollSelection.LastCandidateBefore | internal/tui/exp/list/list.go:794-818 | the upward search returns an earlier index or none |
| ScrollSelection.FirstCandidateIsFirst | internal/tui/exp/list/list.go:762-786 | the downward search finds the first focusable cached item that covers the view or whose first line is in view, and skips no such item |
| ScrollSelection.LastCandidateIsLast | internal/tui/exp/list/list.go:794-818 | the upward search finds the last qualifying item before the selection, and skips no such item |
| ScrollSelection.SearchBelow | internal/tui/exp/list/list.go:762-786 | the downward loop (without wrapping) computes the first candidate |
| ScrollSelection.SearchAbove | internal/tui/exp/list/list.go:794-818 | the upward loop (without wrapping) computes the last candidate |
| ScrollSelection.ChangeSelection | internal/tui/exp/list/list.go:738-821 | `changeSelectionWhenScrolling` picks the new selection and reports whether it changed |
| ScrollSelection.ScrollSelectionSpec | internal/tui/exp/list/list.go:738-821 | a selection that covers or sits inside the view stays; otherwise the middle line of the old selection picks the direction, and a new one is a focusable cached item that covers the view or shows its first line (downward) or its last line (upward), the nearest such below (or above) the selection |
| ScrollSelection.ScrollSelection | internal/tui/exp/list/list.go:738-821 | the policy of `changeSelectionWhenScrolling` without wrap-around: a new selection is always the id of a focusable, cached item; ScrollSelectionSpec states which one |
| ScrollSelection.SearchBelowWithoutWrap | internal/tui/exp/list/list.go:762-786 | without wrapping the loop as written ends with the first candidate |
| ScrollSelection.SearchBelowAsWritten | internal/tui/exp/list/list.go:762-786 | the downward loop as written, bounded by a step count: any index it stops on is a downward candidate; SearchBelowWithoutWrap and LoopRunsOn state when it stops |
| ScrollSelection.LoopRunsOn | internal/tui/exp/list/list.go:762-786 | on the example list, the wrapping loop as written never returns, however many steps it is given |
| ScrollSelection.LoopExampleReachable | internal/tui/exp/list/list.go:638-673 | the example's cache is the one a render leaves: every item cached with exact positions in a 12-line buffer |
| ScrollSelection.WrappingSearchNeverEnds | internal/tui/exp/list/list.go:755-786 | on the example, the selection is off view and above its middle, so the downward search runs, and with wrapping it never ends |
| ScrollSelection.CorrectedSearchStops | internal/tui/exp/list/list.go:738-821 | on the same example, the corrected search ends and keeps the selection |
| ScrollSelection.SearchAboveWithoutWrap | internal/tui/exp/list/list.go:794-818 | without wrapping the upward loop as written ends with the last candidate above the selection |
| ScrollSelection.SearchAboveAsWritten | internal/tui/exp/list/list.go:794-818 | the upward loop as written, bounded by a step count: any index it stops on is an upward candidate; SearchAboveWithoutWrap and UpLoopRunsOn state when it stops |
| ScrollSelection.UpLoopRunsOn | internal/tui/exp/list/list.go:794-818 | on the mirrored example list, the wrapping upward loop as written never returns, however many steps it is given |
| ScrollSelection.UpLoopExampleReachable | internal/tui/exp/list/list.go:638-673 | the mirrored example's cache is the one a render leaves: every item cached with exact positions in a 12-line buffer |
| ScrollSelection.WrappingSearchAboveNeverEnds | internal/tui/exp/list/list.go:748-818 | on the mirrored example, the selection is off view and its middle is below the view, so the upward search runs, and with wrapping it never ends |
| ScrollSelection.CorrectedSearchAboveStops | internal/tui/exp/list/list.go:738-821 | on the mirrored example, the corrected search ends and keeps the selection |
| Scrolling.Incremented | internal/tui/exp/list/list.go:1181-1193 | no change when the content fits or n ≤ 0; grows by at most n; keeps the offset in range, stopping at the largest offset |
| Scrolling.Decremented | internal/tui/exp/list/list.go:1195-1205 | no change when n ≤ 0 or the offset is 0; shrinks by at most n and stops at 0 |
| Scrolling.DecrementedInRange | internal/tui/exp/list/list.go:1195-1205 | decrementing keeps the offset in range |
| Scrolling.ScrollRoundTrip | internal/tui/exp/list/list.go:1181-1205 | scrolling back by the distance just scrolled restores the offset, in both orders |
| Scrolling.ShiftRows | internal/tui/exp/list/list.go:1218-1236 | a finished selection moves as a whole; during a drag only the upper (moving down) or lower (moving up) end moves; no selection stays put |
| Scrolling.MovedOffset | internal/tui/exp/list/list.go:1209-1247 | the offset `MoveDown` (lines 1209-1214) and `MoveUp` (lines 1242-1247) reach: moving down it grows by at most n going forward and shrinks by at most n going backward, moving up the reverse, and an offset in range stays in range |
| Scrolling.ShiftKeepsBufferRow | internal/tui/exp/list/list.go:1208-1271 | a screen row moved by the distance scrolled still shows the same buffer row |
| Scrolling.MoveDownShiftsByRequestedLines | internal/tui/exp/list/list.go:1218-1236 | with the offset stopping short, the rows as written no longer show the selected buffer rows, and the corrected shift does |
| Selection.Canon | internal/tui/exp/list/list.go:346-350 | the canonical rectangle orders each coordinate pair and keeps its values |
| Selection.RowBoundsReadingOrder | internal/tui/exp/list/list.go:364-388 | a cell is inside the single-line, first, last or middle row span exactly when it lies between the rectangle's corners in reading order |
| Selection.RowBoundsOf | internal/tui/exp/list/list.go:364-388 | a row is in the selection exactly when it lies between the rectangle's rows; only the first row may start after column 0 and only the last may end before the screen's width; RowBoundsReadingOrder gives the reading-order meaning |
| Selection.AreaAsWritten | internal/tui/exp/list/list.go:346-350 | the rectangle as written has its rows in order |
| Selection.SelectionArea | internal/tui/exp/list/list.go:346-350 | the corrected area has the drag's two ends as corners, in reading order |
| Selection.SelectionAreaMatchesDrag | internal/tui/exp/list/list.go:346-388 | with the corrected area, a cell is highlighted exactly when it lies between the two ends of the drag |
| Selection.AreaAsWrittenSelectsBeforeStart | internal/tui/exp/list/list.go:346-388 | a drag down and to the left (or up and to the right), as written, highlights a cell before its start |
| Selection.BufferToScreen | internal/tui/exp/list/list.go:1606-1619 | translating back from a buffer row gives a screen row that translates to it |
| Selection.ScreenToBuffer | internal/tui/exp/list/list.go:1573-1583 | a screen row of the view, with an offset in range, shows a row of the buffer; ScreenRoundTrip and BufferToScreen make the translation one-to-one |
| Selection.ScreenRoundTrip | internal/tui/exp/list/list.go:1573-1619 | screen → buffer → screen row translation is the identity |
| Selection.ParagraphUnique | internal/tui/exp/list/list.go:1594-1604 | the paragraph around a non-blank line is unique |
| Store.BuildIndex | internal/tui/exp/list/list.go:227-232 | the loop sends every id to its position |
| Store.Without | internal/tui/exp/list/list.go:1099 | removing index i shifts the later items down by one |
| Store.DeleteFromStore | internal/tui/exp/list/list.go:1099-1109 | after the deletion every remaining id is mapped to its actual position and names the same item, and the deleted id is gone |
| Store.ShiftedIndexConsistent | internal/tui/exp/list/list.go:1103-1109 | lowering every position after the deleted one makes the map consistent again |
| Store.CacheAfterDelete | internal/tui/exp/list/list.go:1099-1109 | the cache without the deleted id stays consistent |
| Store.ReplaceKeepsStore | internal/tui/exp/list/list.go:1451-1459 | replacing an item keeps the map, and the cache without its id stays consistent |
| Store.AppendKeepsStore | internal/tui/exp/list/list.go:1053-1055 | appending with a new id keeps map and cache consistent |
| Store.PrependKeepsStore | internal/tui/exp/list/list.go:1279-1289 | after prepending and rebuilding the map, every cache entry still names its item |
| Store.PrependUnique | internal/tui/exp/list/list.go:1279-1289 | prepending a new id keeps the ids distinct |
| ListEngine.SettleFocus | internal/tui/exp/list/list.go:626-637 | `render`'s preamble: the default selection is settled and focus follows it, the cache losing exactly the entries whose focus changed |
| ListEngine.RenderBuffer | internal/tui/exp/list/list.go:638-673 | either branch of `render` yields the full layout with every item cached and one entry per id; positions are exact going backward and stay exact going forward |
| ListEngine.RenderState | internal/tui/exp/list/list.go:626-674 | a render takes the state as `Rendered` says: full buffer and line index, settled selection and focus, offset scrolled to the selection from the kept (or reset) offset |
| ListEngine.RenderOrKeep | internal/tui/exp/list/list.go:626-630 | `render` renders only with a positive size and some items, and leaves the state unchanged otherwise |
| ListEngine.Reselect | internal/tui/exp/list/list.go:738-821 | after a scroll the selection changes as `changeSelectionWhenScrolling` says and the list renders only when it changed |
| ListEngine.MoveView | internal/tui/exp/list/list.go:1208-1271 | the offset moves by the scroll; if it moved, the selection is re-picked |
| ListEngine.OffsetPastNewItem | internal/tui/exp/list/list.go:1073-1082 | a non-zero offset moves past the new item and its gap, no further than the last line |
| ListEngine.SelectionAfterDelete | internal/tui/exp/list/list.go:1111-1122 | a deleted selection moves to the preceding item, or to none; another selection is kept |
| ListEngine.OffsetAfterDelete | internal/tui/exp/list/list.go:1123-1133 | with content, the offset is pulled into [0, max(0, renderedHeight − height)], and an offset already in range is kept |
| ListEngine.Clamp | internal/tui/exp/list/list.go:1473 | the clamped value lies in [low, high] and a value already there is kept |
| ListEngine.RenderedHeightPositive | internal/tui/exp/list/list.go:1074-1080 | a render that cached a new item left a buffer with at least one line |
| ListEngine.IndexedNonneg | internal/tui/exp/list/list.go:543-564 | no entry of a kept line index is negative |
| ListEngine.SelectViaTop | internal/tui/exp/list/list.go:1329-1346 | going to the top and then selecting the item renders twice, recording the settled selection as the previous one |
| ListEngine.SelectAbove | internal/tui/exp/list/list.go:1316-1351 | `SelectItemAbove`: moves to the focusable item above and renders, first going to the top when it is the first focusable item at index 1; otherwise no change |
| ListEngine.AddItem | internal/tui/exp/list/list.go:1063-1083 | after an append or prepend the list renders and, going in the followed direction, goes to the end at offset 0 or moves past the new item |
| ListEngine.DeleteRender | internal/tui/exp/list/list.go:1123-1133 | after a deletion the list renders and pulls the offset back into range |
| ListEngine.UpdateRender | internal/tui/exp/list/list.go:1453-1482 | after a replacement the item is re-rendered; an item before the view moves the offset by its change of height, clamped to the buffer |
| ListEngine.OffsetAfterUpdate | internal/tui/exp/list/list.go:1466-1481 | an offset that moves lands inside the buffer; from an in-range offset it moves forward when the item grew, backward when it shrank, and not at all when its height is unchanged |
| ListEngine.Cleared | internal/tui/exp/list/list.go:1412-1419 | `reset` empties cache and buffer, sets offset 0 and the selection, and keeps the rest |
| ListEngine.RecachedValid | internal/tui/exp/list/list.go:1099-1109 | a state whose new cache agrees with the new store stays valid |
| ListEngine.ClearedValid | internal/tui/exp/list/list.go:1412-1419 | the cleared state is valid |
| ListEngine.List.constructor | internal/tui/exp/list/list.go:208-234 | `New`: the options become fields, the id → index map is built, nothing is rendered and no selection is active |
| ListEngine.List.SetRendered | internal/tui/exp/list/list.go:543-564 | the buffer, its height and its line index are set |
| ListEngine.List.GetLines | internal/tui/exp/list/list.go:566-592 | lines start..end of the buffer joined by `'\n'`, end clamped, `""` past the end |
| ListEngine.List.RenderIterator | internal/tui/exp/list/list.go:939-1034 | the pass's final index, new cache and text |
| ListEngine.List.RecalculateItemPositions | internal/tui/exp/list/list.go:594-596 | recalculates from 0, keeps the cached ids, and makes positions exact when all items are cached |
| ListEngine.List.RecalculateItemPositionsFrom | internal/tui/exp/list/list.go:598-624 | recalculates from k, or does nothing past the end |
| ListEngine.List.FirstSelectableItemBelow | internal/tui/exp/list/list.go:859-874 | returns `FocusableBelow` |
| ListEngine.List.FirstSelectableItemAbove | internal/tui/exp/list/list.go:843-857 | returns `FocusableAbove` |
| ListEngine.List.SelectFirstItem | internal/tui/exp/list/list.go:823-831 | selects the first focusable item, or keeps the selection when there is none |
| ListEngine.List.SelectLastItem | internal/tui/exp/list/list.go:833-841 | selects the last focusable item, or keeps the selection when there is none |
| ListEngine.List.SetDefaultSelected | internal/tui/exp/list/list.go:676-684 | an empty selection becomes the default one |
| ListEngine.List.FocusSelectedItem | internal/tui/exp/list/list.go:876-910 | as `FocusSelected`, on the fields |
| ListEngine.List.BlurSelectedItem | internal/tui/exp/list/list.go:912-928 | as `BlurSelected`, on the fields |
| ListEngine.List.ScrollToSelection | internal/tui/exp/list/list.go:686-736 | as `ScrollTo`, on the fields |
| ListEngine.List.Render | internal/tui/exp/list/list.go:626-674 | `render` takes the state as `AfterRender` says and keeps the invariant |
| ListEngine.List.SetSelected | internal/tui/exp/list/list.go:1406-1410 | records the previous selection, selects the id and renders |
| ListEngine.List.Focus | internal/tui/exp/list/list.go:1138-1141 | sets the focus flag and renders |
| ListEngine.List.Blur | internal/tui/exp/list/list.go:1088-1091 | clears the focus flag and renders |
| ListEngine.List.GoToTop | internal/tui/exp/list/list.go:1157-1162 | offset 0, no selection, forward, rendered |
| ListEngine.List.GoToBottom | internal/tui/exp/list/list.go:1149-1154 | offset 0, no selection, backward, rendered |
| ListEngine.List.SelectItemBelow | internal/tui/exp/list/list.go:1354-1373 | with a focusable item below, selects it by keyboard and renders; otherwise nothing changes |
| ListEngine.List.SelectItemAbove | internal/tui/exp/list/list.go:1316-1351 | as `SelectAbove`, on the fields |
| ListEngine.List.IncrementOffset | internal/tui/exp/list/list.go:1181-1193 | the offset becomes `Incremented` |
| ListEngine.List.DecrementOffset | internal/tui/exp/list/list.go:1195-1205 | the offset becomes `Decremented` |
| ListEngine.List.ChangeSelectionWhenScrolling | internal/tui/exp/list/list.go:738-821 | as `Reselect`, on the fields |
| ListEngine.List.Move | internal/tui/exp/list/list.go:1208-1271 | `MoveDown`/`MoveUp`: the state moves as `MovedView` says; the selection rows stay when the offset did not change, and otherwise shift by the distance scrolled |
| ListEngine.List.AppendItem | internal/tui/exp/list/list.go:1045-1085 | the item is added at the end, its id mapped to the last position, and the list renders and follows it going backward |
| ListEngine.List.PrependItem | internal/tui/exp/list/list.go:1274-1313 | the item is added at the front, the map rebuilt, and the list renders and follows it going forward |
| ListEngine.List.DeleteItem | internal/tui/exp/list/list.go:1094-1135 | an unknown id changes nothing; otherwise the item and its id go, the selection moves as `SelectionAfterDelete` says, the entry leaves the cache, and the list renders with the offset in range |
| ListEngine.List.UpdateItem | internal/tui/exp/list/list.go:1448-1485 | an unknown id changes nothing; otherwise the item is replaced in place and the list re-renders as `UpdatedItem` says |
| ListEngine.List.Reset | internal/tui/exp/list/list.go:1412-1433 | the map is rebuilt, the state cleared with the given selection, and the list renders |
| ListEngine.List.SetItems | internal/tui/exp/list/list.go:1392-1403 | the items are replaced and the list resets with no selection |
| ListEngine.List.SetSize | internal/tui/exp/list/list.go:1436-1445 | the size is stored; a change of width resets the list keeping the selection, otherwise nothing else changes |
| ListEngine.List.StartSelection | internal/tui/exp/list/list.go:1492-1498 | both ends at the cell, the drag active, nothing selected yet |
| ListEngine.List.EndSelection | internal/tui/exp/list/list.go:1501-1507 | during a drag the end moves to the cell, and a selection exists exactly when it differs from the start; otherwise nothing moves |
| ListEngine.List.SelectionStop | internal/tui/exp/list/list.go:1509-1511 | the drag ends |
| ListEngine.List.SelectionClear | internal/tui/exp/list/list.go:1513-1519 | all ends reset to −1, no drag and no selection |
| ListEngine.List.FindParagraphBoundaries | internal/tui/exp/list/list.go:1565-1621 | found exactly when the buffer row under the screen row is a non-blank line; then the returned screen rows translate to the paragraph around it; otherwise 0, 0 |
| ListEngine.List.SelectParagraph | internal/tui/exp/list/list.go:1634-1644 | on a non-blank line the selection spans its paragraph from column 0 to width − 1, not dragging; otherwise it is left alone |

## Left out

- The Bubble Tea plumbing (`Update`, `handleMouseWheel`, key bindings, `Init`) and the commands the operations return: methods return nothing and their effect on the list's state is specified.
- The deferred second render of `render` runs at once after the first pass; only its effect on the state is modelled.
- `renderMu` and the concurrent map and slice wrappers: plain `seq` and `map` fields.
- `View`, `cachedView`, styling, the screen buffer and `GetSelectedText`: screen output.
- `findWordBoundaries` and `SelectWord`: they depend on Unicode word segmentation, which is not part of this model.
- `ansi.Strip` and the icon replacement in `findParagraphBoundaries`: a line is blank when it holds only ASCII whitespace (`IsBlank`).
- Animation handling and the items' own `Init`, `SetSize`, `Focus` and `Blur`: an item's focus flag is the list's set `focusedIds`, and an item's view does not depend on it.
- The getters `Items`, `GetSize`, `IsFocused`, `SelectedItem` and `HasSelection`'s public wrapper read fields and are not modelled separately.
- Rendering an item is the identity on its view (`renderItem` only measures it).
- ListEngine.List.AppendItem, ListEngine.List.PrependItem: require a non-empty id not yet in the list; the source would silently corrupt its map on a duplicate id.
- ListEngine.List.UpdateItem: requires the new item to carry the id it replaces, as every caller does.
- ListEngine.List.GetLines: requires `start >= 0`; the source would index out of range on a negative start.
- ListEngine.Clamp: modelled for low ≤ high, the only way the list calls `ordered.Clamp`, whose library is not part of this model.
- Layout.FocusableBelow, Layout.FocusableAbove: require items when wrapping is on and the search starts outside the list; the source recurses forever on an empty list with wrapping.
- ListEngine.List.Move: `MoveDown` and `MoveUp` are one method with a `down` flag, and the selection rows shift by the distance scrolled (the corrected behaviour recorded under "## Findings" for list.go:1218-1236), not by the requested lines.
- ListEngine.List.SelectItemAbove, ListEngine.List.AppendItem, ListEngine.List.PrependItem: the calls to `GoToTop`/`GoToBottom` inside them are modelled as the same state change on values.
- ScrollSelection.SearchBelowAsWritten, ScrollSelection.SearchAboveAsWritten: the wrapping loops as written are modelled with a step bound (`fuel`); the source's versions are unbounded.
- ScrollSelection.ChangeSelection, ScrollSelection.ScrollSelection, ListEngine.Reselect, ListEngine.MoveView, ListEngine.List.ChangeSelectionWhenScrolling, ListEngine.List.Move: model the search without wrap-around whatever `wrap` is; with `wrap` on, the source's loops restart at the other end and, on the examples recorded under "## Findings" for list.go:755-786 and list.go:794-818, never return, where the model keeps the selection.
- ListEngine.List.constructor, ListEngine.List.SetItems, ListEngine.List.Reset: require distinct, non-empty ids and take the gap as a `nat`; the source accepts duplicates (the map keeps the last position and the second copy reuses the first copy's cache entry), an empty id reads as "no selection", and a negative gap from `WithGap` writes no separating newline so item positions overlap. None of these states keeps the invariant `Valid()` that the rendering proofs rest on.
- Going forward, `DeleteItem` and `UpdateItem` leave cached positions after the changed item stale until the next recalculation, as the source does; exact positions are proved only where the source recalculates.

## Findings

| source | as written | input that shows it | evidently intended | confidence | as-written member | corrected member |
|---|---|---|---|---|---|---|
| internal/tui/exp/list/list.go:755-786 | with wrapping on, the downward search in `changeSelectionWhenScrolling` restarts from the top whenever it reaches the last item without a candidate, so it never ends when no item qualifies | items `s` (focusable, 1 line), `n` (not focusable, 10 lines), `l` (focusable, 1 line), gap 0, view height 3, offset 4 forward, `s` selected, wrap on | search each direction once and keep the selection when nothing qualifies | high, not executed | ScrollSelection.WrappingSearchNeverEnds | ScrollSelection.CorrectedSearchStops |
| internal/tui/exp/list/list.go:794-818 | with wrapping on, the upward search in `changeSelectionWhenScrolling` restarts from the bottom whenever it passes the first item without a candidate, so it never ends when no item qualifies | items `l` (focusable, 1 line), `n` (not focusable, 10 lines), `s` (focusable, 1 line), gap 0, view height 3, offset 4 forward, `s` selected, wrap on | search each direction once and keep the selection when nothing qualifies | high, not executed | ScrollSelection.WrappingSearchAboveNeverEnds | ScrollSelection.CorrectedSearchAboveStops |
| internal/tui/exp/list/list.go:346-350 | the selection rectangle is canonicalised coordinate by coordinate, so a drag down and to the left (or up and to the right) gets a corner made of the end column and the start row | start (10, 2), end (3, 5), width 80: cell (5, 2) is highlighted though it lies before the start | order the two drag ends in reading order | high, not executed | Selection.AreaAsWrittenSelectsBeforeStart | Selection.SelectionAreaMatchesDrag |
| internal/tui/exp/list/list.go:1218-1236 | `MoveDown`/`MoveUp` shift the selection rows by the requested `n` even when the offset moved less | 12 lines, view 10, offset 0, finished selection rows 3..5, `MoveDown(5)`: the offset stops at 2 but the rows become -2..0, showing buffer rows 0..2 | shift by the distance the offset moved | medium, not executed | Scrolling.MoveDownShiftsByRequestedLines | Scrolling.ShiftKeepsBufferRow |
