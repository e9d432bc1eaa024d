/**
 * The list itself: its items, id → index map, render cache, rendered buffer
 * with its line index, scroll offset, keyboard selection and mouse selection,
 * and the operations that update them in place.
 */
module ListEngine {
  import opened Text
  import opened Viewport
  import opened Layout
  import opened Selection
  import opened Render
  import opened Navigation
  import opened ScrollSelection
  import opened Scrolling
  import opened Store

  /** The selection a full render settles on: an empty selection becomes the
      default one, and a focused list replaces a selection that names no
      item by the default one. */
  function SettledSelection(items: seq<Item>, indexMap: map<string, int>, wrap: bool, dir: Direction,
                            focused: bool, sel: string): string
    requires |items| > 0
  {
    var s := SelectionOrDefault(items, wrap, dir, sel);
    if focused && s !in indexMap then DefaultSelection(items, wrap, dir) else s
  }

  /** The part of the list's state `render` reads and writes: the
      selection, the previously selected item, the focus flags, the render
      cache, the buffer with its height and line index, the offset and
      whether keyboard navigation is in progress. */
  datatype ViewState = ViewState(sel: string, prev: string, focusedIds: set<string>,
                                 cache: map<string, RenderedItem>, buffer: string, bufferHeight: int,
                                 lineStarts: seq<int>, offset: int, movingByItem: bool)

  /** Where `render` leaves the offset: a focused list with a selected
      item scrolls from `base` as `ScrollTarget` says and keeps navigating
      by item only while no scroll was needed; otherwise both are kept. */
  ghost predicate RenderScroll(indexMap: map<string, int>, dir: Direction, height: int, focused: bool,
                               sel: string, base: int, moving0: bool, v: ViewState)
  {
    var vp := ViewPosition(base, height, Height(v.buffer), dir); var start, end := vp.0, vp.1;
    if focused && sel in indexMap && sel in v.cache then
      var e := v.cache[sel];
      && v.offset == ScrollTarget(e.start, e.end, e.height, base, height, Height(v.buffer), dir, moving0)
      && v.movingByItem == (moving0 && (CoversView(e.start, e.end, start, end) || InsideView(e.start, e.end, start, end)))
    else v.offset == base && v.movingByItem == moving0
  }

  /** The state `render` takes a list with items from `v0` to `v`: the
      buffer is the full layout and every item is cached, the selection is
      settled and the focus flags follow it, the offset follows
      `RenderScroll` from the kept offset (reset to 0 on the first render),
      and the cached positions are exact going backward, and stay exact going
      forward. */
  ghost predicate Rendered(items: seq<Item>, indexMap: map<string, int>, gap: nat, dir: Direction, height: int,
                           wrap: bool, focused: bool, v0: ViewState, v: ViewState)
    requires |items| > 0
  {
    var s := SelectionOrDefault(items, wrap, dir, v0.sel);
    && v.buffer == Layout.Layout(items, gap) && v.bufferHeight == Height(v.buffer) && v.lineStarts == LineStarts(v.buffer)
    && AllItemsCached(items, v.cache) && v.cache.Keys == indexMap.Keys
    && v.sel == SettledSelection(items, indexMap, wrap, dir, focused, v0.sel)
    && FocusUpdated(items, indexMap, s, focused, v0.prev, v0.focusedIds, v.prev, v.focusedIds)
    && RenderScroll(indexMap, dir, height, focused, s, if |v0.buffer| > 0 then v0.offset else 0, v0.movingByItem, v)
    && (dir == Backward ==> PositionsExact(items, gap, v.cache))
    && (dir == Forward && PositionsExact(items, gap, v0.cache) ==> PositionsExact(items, gap, v.cache))
  }

  /** The first steps of `render`: the default selection is settled and the
      focus flags follow it; every item whose flag changed loses its cache
      entry, so that it is rendered again. */
  method SettleFocus(items: seq<Item>, indexMap: map<string, int>, gap: nat, dir: Direction, wrap: bool,
                     focused: bool, sel0: string, prev0: string, ids0: set<string>, cache0: map<string, RenderedItem>)
    returns (sel: string, prev: string, ids: set<string>, cache: map<string, RenderedItem>)
    requires |items| > 0 && IndexConsistent(items, indexMap) && CacheConsistent(items, indexMap, cache0)
    ensures sel == SelectionOrDefault(items, wrap, dir, sel0)
    ensures FocusUpdated(items, indexMap, sel, focused, prev0, ids0, prev, ids)
    ensures cache == cache0 - (ids0 - ids) - (ids - ids0)
    ensures CacheConsistent(items, indexMap, cache)
    ensures PositionsExact(items, gap, cache0) ==> PositionsExact(items, gap, cache)
  {
    sel := DefaultSelected(items, wrap, dir, sel0);
    if focused {
      prev, ids, cache := FocusSelected(items, indexMap, sel, true, prev0, ids0, cache0);
    } else {
      prev := prev0;
      ids, cache := BlurSelected(items, indexMap, sel, false, ids0, cache0);
    }
    assert PositionsExact(items, gap, cache0) ==> PositionsExact(items, gap, cache) by {
      assert cache.Keys <= cache0.Keys && forall id | id in cache :: cache[id] == cache0[id];
    }
  }

  /** The rendering steps of `render`: one pass once a buffer exists, two
      the first time. The buffer is the full layout, every item of the list
      is cached and no other id is; going backward every item ends on its
      true line, going forward an exact cache stays exact. */
  method RenderBuffer(items: seq<Item>, indexMap: map<string, int>, gap: nat, dir: Direction, height: int,
                      cache0: map<string, RenderedItem>, hasBuffer: bool)
    returns (out: string, cache: map<string, RenderedItem>)
    requires IndexConsistent(items, indexMap) && CacheConsistent(items, indexMap, cache0)
    ensures CacheConsistent(items, indexMap, cache)
    ensures out == Layout.Layout(items, gap) && AllItemsCached(items, cache) && cache.Keys == indexMap.Keys
    ensures dir == Backward ==> PositionsExact(items, gap, cache)
    ensures dir == Forward && PositionsExact(items, gap, cache0) ==> PositionsExact(items, gap, cache)
  {
    if hasBuffer {
      out, cache := RenderAll(items, indexMap, gap, dir, height, cache0);
    } else {
      out, cache := RenderInTwo(items, indexMap, gap, dir, height, cache0);
    }
    CompleteCacheKeys(items, indexMap, cache);
  }

  /** `render` on values, for a list with items: the selection and focus
      are settled, the whole buffer is rendered and indexed, and a focused
      list scrolls to its selection. */
  method RenderState(items: seq<Item>, indexMap: map<string, int>, gap: nat, dir: Direction, height: int,
                     wrap: bool, focused: bool, v0: ViewState)
    returns (v: ViewState)
    requires |items| > 0 && IndexConsistent(items, indexMap) && CacheConsistent(items, indexMap, v0.cache)
    requires v0.offset >= 0
    ensures CacheConsistent(items, indexMap, v.cache) && v.offset >= 0
    ensures Rendered(items, indexMap, gap, dir, height, wrap, focused, v0, v)
  {
    var s, prev, ids, c1 := SettleFocus(items, indexMap, gap, dir, wrap, focused, v0.sel, v0.prev, v0.focusedIds, v0.cache);
    var out, cache := RenderBuffer(items, indexMap, gap, dir, height, c1, |v0.buffer| > 0);
    var base := if |v0.buffer| > 0 then v0.offset else 0;
    var sel, offset, moving := s, base, v0.movingByItem;
    if focused {
      sel, offset, moving := ScrollTo(items, indexMap, wrap, dir, cache, s, base, height, Height(out), v0.movingByItem);
    }
    var lo := IndexLines(out);
    v := ViewState(sel, prev, ids, cache, out, Height(out), lo, offset, moving);
  }

  /** The invariant of the render state: the cache agrees with the items,
      the offset is not negative, and the buffer is either indexed (its
      height and line starts are recorded) or in the state `reset` leaves:
      empty, height 0, and a line index that is stale but holds no negative
      entry. */
  ghost predicate ViewValid(items: seq<Item>, indexMap: map<string, int>, v: ViewState)
  {
    CacheConsistent(items, indexMap, v.cache) && v.offset >= 0 && BufferIndexed(v.buffer, v.bufferHeight, v.lineStarts)
  }

  ghost predicate BufferIndexed(buffer: string, bufferHeight: int, lineStarts: seq<int>)
  {
    || (bufferHeight == Height(buffer) && lineStarts == LineStarts(buffer))
    || (buffer == [] && bufferHeight == 0 && forall k | 0 <= k < |lineStarts| :: lineStarts[k] >= 0)
  }

  /** `render` does anything only with a positive size and some items. */
  predicate Renders(width: int, height: int, items: seq<Item>)
  {
    width > 0 && height > 0 && |items| > 0
  }

  /** The state after a call of `render` from `v0`: `Rendered` when it
      renders, `v0` itself otherwise. */
  ghost predicate AfterRender(items: seq<Item>, indexMap: map<string, int>, gap: nat, dir: Direction, width: int,
                              height: int, wrap: bool, focused: bool, v0: ViewState, v: ViewState)
  {
    if Renders(width, height, items) then Rendered(items, indexMap, gap, dir, height, wrap, focused, v0, v) else v == v0
  }

  /** `render` on values, including the case where it does nothing. */
  method RenderOrKeep(items: seq<Item>, indexMap: map<string, int>, gap: nat, dir: Direction, width: int,
                      height: int, wrap: bool, focused: bool, v0: ViewState)
    returns (v: ViewState)
    requires IndexConsistent(items, indexMap) && ViewValid(items, indexMap, v0)
    ensures ViewValid(items, indexMap, v)
    ensures AfterRender(items, indexMap, gap, dir, width, height, wrap, focused, v0, v)
  {
    v := v0;
    if width <= 0 || height <= 0 || |items| == 0 {
      return;
    }
    v := RenderState(items, indexMap, gap, dir, height, wrap, focused, v0);
  }

  /** `changeSelectionWhenScrolling` after a scroll to `v1.offset`: the
      selection becomes the one `ScrollSelection` picks for the new view, and
      when it changed the list renders again. */
  ghost predicate Reselected(items: seq<Item>, indexMap: map<string, int>, gap: nat, dir: Direction, width: int,
                             height: int, wrap: bool, focused: bool, v1: ViewState, v: ViewState)
    requires IndexConsistent(items, indexMap)
  {
    var vp := ViewPosition(v1.offset, height, v1.bufferHeight, dir);
    exists s | s == ScrollSelection.ScrollSelection(items, indexMap, v1.cache, v1.sel, vp.0, vp.1) ::
      if s == v1.sel then v == v1 else AfterRender(items, indexMap, gap, dir, width, height, wrap, focused, v1.(sel := s), v)
  }

  /** `changeSelectionWhenScrolling` on values. */
  method Reselect(items: seq<Item>, indexMap: map<string, int>, gap: nat, dir: Direction, width: int,
                  height: int, wrap: bool, focused: bool, v1: ViewState)
    returns (v: ViewState)
    requires IndexConsistent(items, indexMap) && ViewValid(items, indexMap, v1)
    ensures ViewValid(items, indexMap, v)
    ensures Reselected(items, indexMap, gap, dir, width, height, wrap, focused, v1, v)
  {
    var vp := ViewPosition(v1.offset, height, v1.bufferHeight, dir);
    var s, changed := ChangeSelection(items, indexMap, v1.cache, v1.sel, vp.0, vp.1);
    v := v1;
    if changed {
      v := RenderOrKeep(items, indexMap, gap, dir, width, height, wrap, focused, v1.(sel := s));
    }
    assert s == ScrollSelection.ScrollSelection(items, indexMap, v1.cache, v1.sel, vp.0, vp.1);
  }

  /** `MoveDown` (`down`) and `MoveUp` on the view: the offset moves as
      `MovedOffset` says and, when it moved, the selection is chosen again
      for the new view (`Reselected`); otherwise nothing changes. */
  ghost predicate MovedView(items: seq<Item>, indexMap: map<string, int>, gap: nat, dir: Direction, width: int,
                            height: int, wrap: bool, focused: bool, n: int, down: bool, v0: ViewState, v: ViewState)
    requires IndexConsistent(items, indexMap)
  {
    exists o1 | o1 == MovedOffset(v0.offset, n, v0.bufferHeight, height, dir, down) ::
      if o1 == v0.offset then v == v0
      else Reselected(items, indexMap, gap, dir, width, height, wrap, focused, v0.(offset := o1), v)
  }

  method MoveView(items: seq<Item>, indexMap: map<string, int>, gap: nat, dir: Direction, width: int,
                  height: int, wrap: bool, focused: bool, n: int, down: bool, v0: ViewState)
    returns (v: ViewState)
    requires IndexConsistent(items, indexMap) && ViewValid(items, indexMap, v0)
    ensures ViewValid(items, indexMap, v)
    ensures MovedView(items, indexMap, gap, dir, width, height, wrap, focused, n, down, v0, v)
  {
    var o1 := MovedOffset(v0.offset, n, v0.bufferHeight, height, dir, down);
    if o1 == v0.offset {
      v := v0;
      assert MovedView(items, indexMap, gap, dir, width, height, wrap, focused, n, down, v0, v) by {
        assert o1 == MovedOffset(v0.offset, n, v0.bufferHeight, height, dir, down);
      }
      return;
    }
    if (dir == Forward) == down {
      assert o1 >= v0.offset;
    } else {
      assert o1 >= 0;
    }
    v := Reselect(items, indexMap, gap, dir, width, height, wrap, focused, v0.(offset := o1));
    assert o1 == MovedOffset(v0.offset, n, v0.bufferHeight, height, dir, down);
  }

  /** Where `AppendItem` (going backward) and `PrependItem` (going forward)
      move an offset that is not 0: past the new item's lines, and its gap
      when it is not the only item, but not beyond the last line. */
  function OffsetPastNewItem(v: ViewState, id: string, gap: nat, count: int): (r: int)
    ensures id !in v.cache ==> r == v.offset
    ensures id in v.cache && v.cache[id].height >= 0 ==> r <= v.bufferHeight - 1 && (r == v.bufferHeight - 1 || r >= v.offset)
  {
    if id in v.cache then Min(v.bufferHeight - 1, v.offset + v.cache[id].height + (if count > 1 then gap else 0))
    else v.offset
  }

  /** The state after `AppendItem` (going backward) or `PrependItem` (going
      forward) has rendered: at offset 0 the list goes to the bottom (top),
      dropping the selection and rendering again; otherwise the offset moves
      past the new item. */
  ghost predicate FollowedNewItem(items: seq<Item>, indexMap: map<string, int>, gap: nat, dir: Direction, width: int,
                                  height: int, wrap: bool, focused: bool, id: string, v1: ViewState, v: ViewState)
  {
    if v1.offset == 0 then AfterRender(items, indexMap, gap, dir, width, height, wrap, focused, v1.(sel := "", offset := 0), v)
    else v == v1.(offset := OffsetPastNewItem(v1, id, gap, |items|))
  }

  /** The selection after `DeleteItem` removed the item at `inx` with id
      `id`: a deleted selection moves to the item before it, or to none. */
  function SelectionAfterDelete(items: seq<Item>, inx: int, id: string, sel: string): (s: string)
    requires 0 <= inx < |items|
    ensures sel != id ==> s == sel
    ensures sel == id && inx > 0 ==> s == items[inx - 1].id
    ensures sel == id && inx == 0 ==> s == ""
  {
    if sel == id then (if inx > 0 then items[inx - 1].id else "") else sel
  }

  /** The offset `DeleteItem` leaves once the list has rendered: with
      content, it is pulled back into range, to 0 when everything fits. */
  function OffsetAfterDelete(v: ViewState, height: int): (r: int)
    ensures v.buffer == [] ==> r == v.offset
    ensures v.buffer != [] && v.offset >= 0 ==> OffsetInRange(r, v.bufferHeight, height) && r <= v.offset
    ensures v.buffer != [] && v.offset >= 0 && OffsetInRange(v.offset, v.bufferHeight, height) ==> r == v.offset
  {
    if v.buffer != [] then
      if v.bufferHeight <= height then 0
      else Min(v.offset, v.bufferHeight - height)
    else v.offset
  }

  /** `ordered.Clamp(n, low, high)` for `low <= high`, the only way the list
      calls it. */
  function Clamp(n: int, low: int, high: int): (r: int)
    ensures low <= high ==> low <= r <= high
    ensures low <= n <= high ==> r == n
  {
    Min(high, Max(low, n))
  }

  /** The offset `UpdateItem` leaves once the list has rendered the
      replaced item: when the old item lay before the view (below it, going
      backward) the offset follows the item's change of height, clamped to
      the buffer. */
  function OffsetAfterUpdate(v0: ViewState, v1: ViewState, id: string, dir: Direction): (r: int)
    ensures r != v1.offset && v1.bufferHeight >= 1 ==> 0 <= r < v1.bufferHeight
    ensures id in v0.cache && id in v1.cache && 0 <= v1.offset < v1.bufferHeight ==>
      && (v1.cache[id].height >= v0.cache[id].height ==> v1.offset <= r)
      && (v1.cache[id].height <= v0.cache[id].height ==> r <= v1.offset)
  {
    if id !in v0.cache || id !in v1.cache then v1.offset
    else
      var old_ := v0.cache[id];
      var newLines := v1.cache[id].height - old_.height;
      if dir == Backward then
        if (v0.bufferHeight - 1) - v0.offset < old_.end then Clamp(v1.offset + newLines, 0, v1.bufferHeight - 1)
        else v1.offset
      else if v1.offset > old_.start then Clamp(v1.offset + newLines, 0, v1.bufferHeight - 1)
      else v1.offset
  }

  /** After a render from a state whose cache lacks `id`, a cache entry
      for `id` means the list did render, so the buffer has a line. */
  lemma RenderedHeightPositive(items: seq<Item>, indexMap: map<string, int>, gap: nat, dir: Direction, width: int,
                               height: int, wrap: bool, focused: bool, v0: ViewState, v: ViewState, id: string)
    requires AfterRender(items, indexMap, gap, dir, width, height, wrap, focused, v0, v)
    requires id !in v0.cache && id in v.cache
    ensures v.bufferHeight >= 1
  {
  }

  /** No entry of a line index the list keeps is negative. */
  lemma IndexedNonneg(buffer: string, bufferHeight: int, lineStarts: seq<int>)
    requires BufferIndexed(buffer, bufferHeight, lineStarts)
    ensures forall k | 0 <= k < |lineStarts| :: lineStarts[k] >= 0
  {
    LineStartsNonneg(buffer);
  }

  /** `SelectItemAbove` when the item it moves to is the first focusable
      one and sits at index 1: the list first goes to the top (offset 0, no
      selection, forward, rendered), and then selects the item, recording
      the selection the top settled on as the previous one. */
  ghost predicate SelectedViaTop(items: seq<Item>, indexMap: map<string, int>, gap: nat, width: int, height: int,
                                 wrap: bool, focused: bool, id: string, v0: ViewState, v: ViewState)
  {
    exists v1: ViewState ::
      && AfterRender(items, indexMap, gap, Forward, width, height, wrap, focused, v0.(sel := "", offset := 0), v1)
      && AfterRender(items, indexMap, gap, Forward, width, height, wrap, focused,
                     v1.(sel := id, prev := v1.sel, movingByItem := true), v)
  }

  method SelectViaTop(items: seq<Item>, indexMap: map<string, int>, gap: nat, width: int, height: int,
                      wrap: bool, focused: bool, id: string, v0: ViewState)
    returns (v: ViewState)
    requires IndexConsistent(items, indexMap) && ViewValid(items, indexMap, v0)
    ensures ViewValid(items, indexMap, v)
    ensures SelectedViaTop(items, indexMap, gap, width, height, wrap, focused, id, v0, v)
  {
    var dir := Forward;
    var v1 := RenderOrKeep(items, indexMap, gap, dir, width, height, wrap, focused, v0.(sel := "", offset := 0));
    v := RenderOrKeep(items, indexMap, gap, dir, width, height, wrap, focused,
                      v1.(sel := id, prev := v1.sel, movingByItem := true));
  }

  /** `SelectItemAbove` on values, from `v0` going in direction `dir`: with
      a known selection and a focusable item `r` above it (`FocusableAbove`),
      the selection moves to `r` by keyboard and the list renders; when `r`
      is index 1 with nothing focusable above it, the list goes to the top
      first (`SelectedViaTop`) and then goes forward (`dir'`). Otherwise
      nothing changes. */
  ghost predicate SelectedAbove(items: seq<Item>, indexMap: map<string, int>, gap: nat, dir: Direction, width: int,
                                height: int, wrap: bool, focused: bool, v0: ViewState, dir': Direction, v: ViewState)
    requires IndexConsistent(items, indexMap)
  {
    if v0.sel !in indexMap then v == v0 && dir' == dir
    else
      var r := FocusableAbove(items, wrap, indexMap[v0.sel]);
      if r == ItemNotFound then v == v0 && dir' == dir
      else if r == 1 && FocusableAbove(items, wrap, 1) == ItemNotFound then
        dir' == Forward && SelectedViaTop(items, indexMap, gap, width, height, wrap, focused, items[r].id, v0, v)
      else
        dir' == dir && AfterRender(items, indexMap, gap, dir, width, height, wrap, focused,
                                   v0.(sel := items[r].id, prev := v0.sel, movingByItem := true), v)
  }

  method SelectAbove(items: seq<Item>, indexMap: map<string, int>, gap: nat, dir: Direction, width: int,
                     height: int, wrap: bool, focused: bool, v0: ViewState)
    returns (dir': Direction, v: ViewState)
    requires IndexConsistent(items, indexMap) && ViewValid(items, indexMap, v0)
    ensures ViewValid(items, indexMap, v)
    ensures SelectedAbove(items, indexMap, gap, dir, width, height, wrap, focused, v0, dir', v)
  {
    dir', v := dir, v0;
    if v0.sel !in indexMap {
      return;
    }
    var newIndex := FirstSelectableAbove(items, wrap, indexMap[v0.sel]);
    if newIndex == ItemNotFound {
      return;
    }
    var peak := false;
    if newIndex == 1 {
      var peakAboveIndex := FirstSelectableAbove(items, wrap, newIndex);
      peak := peakAboveIndex == ItemNotFound;
    }
    if peak {
      dir' := Forward;
      v := SelectViaTop(items, indexMap, gap, width, height, wrap, focused, items[newIndex].id, v0);
    } else {
      v := RenderOrKeep(items, indexMap, gap, dir, width, height, wrap, focused,
                        v0.(sel := items[newIndex].id, prev := v0.sel, movingByItem := true));
    }
  }

  /** `AppendItem` and `PrependItem` after the store took the new item
      `id`: the list renders; when the direction is `follow` (backward for
      an append, forward for a prepend) it then follows the new item as
      `FollowedNewItem` says. */
  ghost predicate AddedItem(items: seq<Item>, indexMap: map<string, int>, gap: nat, dir: Direction, width: int,
                            height: int, wrap: bool, focused: bool, id: string, follow: Direction,
                            v0: ViewState, v: ViewState)
  {
    exists v1: ViewState ::
      && AfterRender(items, indexMap, gap, dir, width, height, wrap, focused, v0, v1)
      && (if dir == follow then FollowedNewItem(items, indexMap, gap, dir, width, height, wrap, focused, id, v1, v)
          else v == v1)
  }

  method AddItem(items: seq<Item>, indexMap: map<string, int>, gap: nat, dir: Direction, width: int,
                 height: int, wrap: bool, focused: bool, id: string, follow: Direction, v0: ViewState)
    returns (v: ViewState)
    requires IndexConsistent(items, indexMap) && ViewValid(items, indexMap, v0) && id !in v0.cache
    ensures ViewValid(items, indexMap, v)
    ensures AddedItem(items, indexMap, gap, dir, width, height, wrap, focused, id, follow, v0, v)
  {
    var v1 := RenderOrKeep(items, indexMap, gap, dir, width, height, wrap, focused, v0);
    if dir == follow {
      if v1.offset == 0 {
        v := RenderOrKeep(items, indexMap, gap, dir, width, height, wrap, focused, v1.(sel := "", offset := 0));
      } else {
        if id in v1.cache {
          RenderedHeightPositive(items, indexMap, gap, dir, width, height, wrap, focused, v0, v1, id);
        }
        v := v1.(offset := OffsetPastNewItem(v1, id, gap, |items|));
      }
      assert FollowedNewItem(items, indexMap, gap, dir, width, height, wrap, focused, id, v1, v);
    } else {
      v := v1;
    }
    assert AfterRender(items, indexMap, gap, dir, width, height, wrap, focused, v0, v1);
  }

  /** `DeleteItem` after the store dropped the item: the list renders and
      the offset is pulled back into range. */
  ghost predicate DeletedItem(items: seq<Item>, indexMap: map<string, int>, gap: nat, dir: Direction, width: int,
                              height: int, wrap: bool, focused: bool, v0: ViewState, v: ViewState)
  {
    exists v1: ViewState ::
      AfterRender(items, indexMap, gap, dir, width, height, wrap, focused, v0, v1)
      && v == v1.(offset := OffsetAfterDelete(v1, height))
  }

  method DeleteRender(items: seq<Item>, indexMap: map<string, int>, gap: nat, dir: Direction, width: int,
                      height: int, wrap: bool, focused: bool, v0: ViewState)
    returns (v: ViewState)
    requires IndexConsistent(items, indexMap) && ViewValid(items, indexMap, v0)
    ensures ViewValid(items, indexMap, v)
    ensures DeletedItem(items, indexMap, gap, dir, width, height, wrap, focused, v0, v)
  {
    var v1 := RenderOrKeep(items, indexMap, gap, dir, width, height, wrap, focused, v0);
    v := v1.(offset := OffsetAfterDelete(v1, height));
    assert AfterRender(items, indexMap, gap, dir, width, height, wrap, focused, v0, v1);
  }

  /** `UpdateItem` after the store took the new item for `id`: the old
      entry is dropped from the cache, the list renders, and the offset
      follows the item's change of height as `OffsetAfterUpdate` says. */
  ghost predicate UpdatedItem(items: seq<Item>, indexMap: map<string, int>, gap: nat, dir: Direction, width: int,
                              height: int, wrap: bool, focused: bool, id: string, v0: ViewState, v: ViewState)
  {
    exists v1: ViewState ::
      AfterRender(items, indexMap, gap, dir, width, height, wrap, focused, v0.(cache := v0.cache - {id}), v1)
      && v == v1.(offset := OffsetAfterUpdate(v0, v1, id, dir))
  }

  method UpdateRender(items: seq<Item>, indexMap: map<string, int>, gap: nat, dir: Direction, width: int,
                      height: int, wrap: bool, focused: bool, id: string, v0: ViewState)
    returns (v: ViewState)
    requires IndexConsistent(items, indexMap) && ViewValid(items, indexMap, v0.(cache := v0.cache - {id}))
    ensures ViewValid(items, indexMap, v)
    ensures UpdatedItem(items, indexMap, gap, dir, width, height, wrap, focused, id, v0, v)
  {
    var v0' := v0.(cache := v0.cache - {id});
    var v1 := RenderOrKeep(items, indexMap, gap, dir, width, height, wrap, focused, v0');
    assert AfterRender(items, indexMap, gap, dir, width, height, wrap, focused, v0', v1);
    if id in v0.cache && id in v1.cache {
      RenderedHeightPositive(items, indexMap, gap, dir, width, height, wrap, focused, v0', v1, id);
    }
    v := v1.(offset := OffsetAfterUpdate(v0, v1, id, dir));
  }

  /** The state `reset` leaves before it renders: the selection is set,
      the cache and the buffer are emptied and the offset is 0; the line
      index is left as it was. */
  function Cleared(v: ViewState, sel: string): (c: ViewState)
    ensures c.cache == map[] && c.buffer == [] && c.bufferHeight == 0 && c.offset == 0 && c.sel == sel
    ensures c.prev == v.prev && c.focusedIds == v.focusedIds && c.lineStarts == v.lineStarts
    ensures c.movingByItem == v.movingByItem
  {
    v.(sel := sel, cache := map[], buffer := [], bufferHeight := 0, offset := 0)
  }

  /** The view stays valid for a new store when only its selection and
      cache change and the new cache is consistent with the new store. */
  lemma RecachedValid(items: seq<Item>, indexMap: map<string, int>, v: ViewState,
                      items': seq<Item>, indexMap': map<string, int>, v': ViewState)
    requires ViewValid(items, indexMap, v) && CacheConsistent(items', indexMap', v'.cache)
    requires v' == v.(sel := v'.sel, cache := v'.cache)
    ensures ViewValid(items', indexMap', v')
  {
  }

  /** A cleared state is valid for any store, once its stale line index
      holds no negative entry. */
  lemma ClearedValid(items: seq<Item>, indexMap: map<string, int>, v: ViewState, sel: string)
    requires forall k | 0 <= k < |v.lineStarts| :: v.lineStarts[k] >= 0
    ensures ViewValid(items, indexMap, Cleared(v, sel))
  {
  }

  /** The list component. `Valid()` ties its fields together: every id is
      non-empty and the map sends it to the position of its item, the cache
      only holds entries made from the current items, the offset is not
      negative and the line index belongs to the buffer (`ViewValid`). The
      operations that render are proved against the predicates above on
      `State()`. */
  class List {
    // configuration
    var width: int
    var height: int
    var gap: nat
    var wrap: bool
    var direction: Direction
    var selectedItem: string
    var focused: bool

    var offset: int

    // item store and render cache
    var indexMap: map<string, int>
    var items: seq<Item>
    var renderedItems: map<string, RenderedItem>

    // rendered buffer
    var rendered: string
    var renderedHeight: int
    var lineOffsets: seq<int>

    // keyboard navigation and mouse selection
    var movingByItem: bool
    var prevSelectedItem: string
    var selectionStartCol: int
    var selectionStartLine: int
    var selectionEndCol: int
    var selectionEndLine: int
    var selectionActive: bool

    /** Ids of the items whose focus flag is set. */
    var focusedIds: set<string>

    ghost predicate StoreValid()
      reads this`items, this`indexMap
    {
      IndexConsistent(items, indexMap) && forall i | 0 <= i < |items| :: items[i].id != ""
    }

    ghost predicate CacheValid()
      reads this`items, this`indexMap, this`renderedItems
    {
      CacheConsistent(items, indexMap, renderedItems)
    }

    ghost predicate Valid()
      reads this`items, this`indexMap, this`selectedItem, this`prevSelectedItem, this`focusedIds, this`renderedItems,
            this`rendered, this`renderedHeight, this`lineOffsets, this`offset, this`movingByItem
    {
      StoreValid() && ViewValid(items, indexMap, State())
    }

    /** `New`: the options become parameters; the id → index map is built
        from the items. */
    constructor (items0: seq<Item>, width0: int, height0: int, gap0: nat, wrap0: bool,
                 direction0: Direction, selected0: string, focused0: bool)
      requires UniqueIds(items0)
      requires forall i | 0 <= i < |items0| :: items0[i].id != ""
      ensures Valid()
      ensures items == items0 && renderedItems == map[] && rendered == [] && renderedHeight == 0
      ensures lineOffsets == [] && offset == 0
      ensures width == width0 && height == height0 && gap == gap0 && wrap == wrap0
      ensures direction == direction0 && selectedItem == selected0 && focused == focused0
      ensures selectionStartCol == -1 && selectionStartLine == -1 && selectionEndCol == -1 && selectionEndLine == -1
      ensures !selectionActive && !movingByItem && prevSelectedItem == "" && focusedIds == {}
    {
      var m := BuildIndex(items0);
      width, height, gap, wrap := width0, height0, gap0, wrap0;
      direction, selectedItem, focused := direction0, selected0, focused0;
      items, indexMap := items0, m;
      renderedItems := map[];
      rendered, renderedHeight, lineOffsets := [], 0, [];
      offset := 0;
      movingByItem, prevSelectedItem := false, "";
      selectionStartCol, selectionStartLine, selectionEndCol, selectionEndLine := -1, -1, -1, -1;
      selectionActive := false;
      focusedIds := {};
    }

    // -------------------------------------------------------------------
    // The rendered buffer
    // -------------------------------------------------------------------

    /** `setRendered`: stores the buffer, its height, and the offset of
        every line start, found by scanning for newlines. */
    method SetRendered(r: string)
      modifies this`rendered, this`renderedHeight, this`lineOffsets
      ensures rendered == r && renderedHeight == Height(r)
      ensures lineOffsets == LineStarts(r)
    {
      rendered := r;
      renderedHeight := Height(r);
      lineOffsets := IndexLines(r);
    }

    /** `getLines`: the text of buffer lines `start` .. `end`, joined by
        newlines, with `end` clamped to the last line. */
    function GetLines(start: int, end: int): (s: string)
      reads this`rendered, this`lineOffsets, this`renderedHeight
      requires BufferIndexed(rendered, renderedHeight, lineOffsets) && 0 <= start
      ensures |rendered| == 0 || start >= |Split(rendered)| || start > end ==> s == ""
      ensures |rendered| > 0 && start <= end < |Split(rendered)| ==> s == Join(Split(rendered)[start..end + 1])
      ensures |rendered| > 0 && start < |Split(rendered)| <= end ==> s == Join(Split(rendered)[start..])
    {
      if |rendered| == 0 then
        GetLinesOfEmpty(lineOffsets, start, end);
        Text.GetLines(rendered, lineOffsets, start, end)
      else
        GetLinesIsJoinOfLines(rendered, start, end);
        Text.GetLines(rendered, lineOffsets, start, end)
    }

    // -------------------------------------------------------------------
    // The render pass
    // -------------------------------------------------------------------

    /** `renderIterator` on the list: the pass's new cache entries are
        stored in the cache. */
    method RenderIterator(startInx: int, limitHeight: bool, prev: string) returns (out: string, finalIndex: int)
      requires StoreValid() && CacheValid()
      requires 0 <= startInx <= |items|
      modifies this`renderedItems
      ensures CacheValid()
      ensures finalIndex == FinalIndexFrom(items, gap, direction, old(renderedItems), startInx, Height(prev) - 1, limitHeight, height, startInx)
      ensures renderedItems == PassCache(items, gap, direction, old(renderedItems), startInx, Height(prev) - 1, finalIndex)
      ensures out == PassText(items, gap, direction, startInx, finalIndex, prev)
    {
      out, renderedItems, finalIndex := IteratePass(items, indexMap, gap, direction, height, renderedItems, startInx, limitHeight, prev);
    }

    /** `recalculateItemPositions`: recalculation from the top. Over a
        complete cache it puts every item on the line it starts on in the
        full buffer; it never adds or drops an entry. */
    method RecalculateItemPositions()
      requires StoreValid() && CacheValid()
      modifies this`renderedItems
      ensures CacheValid()
      ensures renderedItems == Recalculated(items, gap, old(renderedItems), 0, |items|)
      ensures renderedItems.Keys == old(renderedItems).Keys
      ensures AllItemsCached(items, renderedItems) ==> PositionsExact(items, gap, renderedItems)
    {
      ghost var c1, its, g := renderedItems, items, gap;
      RecalculateItemPositionsFrom(0);
      assert renderedItems.Keys == c1.Keys by {
        RecalculatedKeys(its, g, c1, 0, |its|);
      }
      assert AllItemsCached(its, renderedItems) ==> PositionsExact(its, g, renderedItems) by {
        if AllItemsCached(its, renderedItems) {
          RecalculatedPositionsExact(its, indexMap, g, c1);
        }
      }
    }

    /** `recalculateItemPositionsFrom` on the list. */
    method RecalculateItemPositionsFrom(k: int)
      requires StoreValid() && CacheValid()
      requires 0 <= k
      modifies this`renderedItems
      ensures CacheValid()
      ensures renderedItems == if k <= |items| then Recalculated(items, gap, old(renderedItems), k, |items|) else old(renderedItems)
    {
      renderedItems := RecalculateFrom(items, indexMap, gap, renderedItems, k);
    }

    // -------------------------------------------------------------------
    // Focus search and default selection
    // -------------------------------------------------------------------

    /** `firstSelectableItemBelow` on the list. */
    method FirstSelectableItemBelow(inx: int) returns (r: int)
      requires !(wrap && |items| == 0 && inx == -1)
      ensures r == FocusableBelow(items, wrap, inx)
    {
      r := FirstSelectableBelow(items, wrap, inx);
    }

    /** `firstSelectableItemAbove` on the list. */
    method FirstSelectableItemAbove(inx: int) returns (r: int)
      requires !(wrap && |items| == 0 && inx == 0)
      ensures r == FocusableAbove(items, wrap, inx)
    {
      r := FirstSelectableAbove(items, wrap, inx);
    }

    /** `selectFirstItem`: selects the first focusable item, if any. */
    method SelectFirstItem()
      requires wrap ==> |items| > 0
      modifies this`selectedItem
      ensures var i := DefaultIndex(items, wrap, Forward);
        selectedItem == if i == ItemNotFound then old(selectedItem) else items[i].id
    {
      var inx := FirstSelectableItemBelow(-1);
      if inx != ItemNotFound {
        selectedItem := items[inx].id;
      }
    }

    /** `selectLastItem`: selects the last focusable item, if any. */
    method SelectLastItem()
      requires wrap ==> |items| > 0
      modifies this`selectedItem
      ensures var i := DefaultIndex(items, wrap, Backward);
        selectedItem == if i == ItemNotFound then old(selectedItem) else items[i].id
    {
      var inx := FirstSelectableItemAbove(|items|);
      if inx != ItemNotFound {
        selectedItem := items[inx].id;
      }
    }

    /** `setDefaultSelected` on the list. */
    method SetDefaultSelected()
      requires wrap ==> |items| > 0
      modifies this`selectedItem
      ensures selectedItem == SelectionOrDefault(items, wrap, direction, old(selectedItem))
    {
      selectedItem := DefaultSelected(items, wrap, direction, selectedItem);
    }

    // -------------------------------------------------------------------
    // Item focus
    // -------------------------------------------------------------------

    /** `focusSelectedItem` on the list. */
    method FocusSelectedItem()
      requires StoreValid() && CacheValid()
      modifies this`focusedIds, this`renderedItems, this`prevSelectedItem
      ensures CacheValid()
      ensures selectedItem == "" || !focused ==>
        focusedIds == old(focusedIds) && renderedItems == old(renderedItems) && prevSelectedItem == old(prevSelectedItem)
      ensures selectedItem != "" && focused ==>
        var blurred: set<string> :=
          if BlursPrevious(items, indexMap, selectedItem, old(prevSelectedItem), old(focusedIds)) then {old(prevSelectedItem)} else {};
        var focusedNow: set<string> :=
          if FocusesSelected(items, indexMap, selectedItem, old(focusedIds)) then {selectedItem} else {};
        && prevSelectedItem == selectedItem
        && focusedIds == old(focusedIds) - blurred + focusedNow
        && renderedItems == old(renderedItems) - blurred - focusedNow
    {
      prevSelectedItem, focusedIds, renderedItems :=
        FocusSelected(items, indexMap, selectedItem, focused, prevSelectedItem, focusedIds, renderedItems);
    }

    /** `blurSelectedItem` on the list. */
    method BlurSelectedItem()
      requires StoreValid() && CacheValid()
      modifies this`focusedIds, this`renderedItems
      ensures CacheValid()
      ensures var blurred: set<string> :=
          if BlursSelected(items, indexMap, selectedItem, focused, old(focusedIds)) then {selectedItem} else {};
        focusedIds == old(focusedIds) - blurred && renderedItems == old(renderedItems) - blurred
    {
      focusedIds, renderedItems := BlurSelected(items, indexMap, selectedItem, focused, focusedIds, renderedItems);
    }

    /** `scrollToSelection` on the list. */
    method ScrollToSelection()
      requires wrap ==> |items| > 0
      requires CacheValid() && offset >= 0
      modifies this`offset, this`selectedItem, this`movingByItem
      ensures offset >= 0
      ensures old(selectedItem) !in renderedItems ==>
        && selectedItem == DefaultSelection(items, wrap, direction)
        && offset == old(offset) && movingByItem == old(movingByItem)
      ensures old(selectedItem) in renderedItems ==>
        var e := renderedItems[old(selectedItem)];
        var vp := ViewPosition(old(offset), height, renderedHeight, direction); var start, end := vp.0, vp.1;
        && selectedItem == old(selectedItem)
        && offset == ScrollTarget(e.start, e.end, e.height, old(offset), height, renderedHeight, direction, old(movingByItem))
        && movingByItem == (old(movingByItem) && (CoversView(e.start, e.end, start, end) || InsideView(e.start, e.end, start, end)))
    {
      selectedItem, offset, movingByItem :=
        ScrollTo(items, indexMap, wrap, direction, renderedItems, selectedItem, offset, height, renderedHeight, movingByItem);
    }

    // -------------------------------------------------------------------
    // Rendering
    // -------------------------------------------------------------------

    /** The fields `render` reads and writes, as a value. */
    function State(): ViewState
      reads this`selectedItem, this`prevSelectedItem, this`focusedIds, this`renderedItems, this`rendered,
            this`renderedHeight, this`lineOffsets, this`offset, this`movingByItem
    {
      ViewState(selectedItem, prevSelectedItem, focusedIds, renderedItems, rendered, renderedHeight, lineOffsets,
                offset, movingByItem)
    }

    /** Stores a computed state in the fields. */
    method SetState(v: ViewState)
      requires StoreValid() && ViewValid(items, indexMap, v)
      modifies this`selectedItem, this`prevSelectedItem, this`focusedIds, this`renderedItems, this`rendered,
               this`renderedHeight, this`lineOffsets, this`offset, this`movingByItem
      ensures State() == v && Valid()
    {
      selectedItem, prevSelectedItem, focusedIds, renderedItems := v.sel, v.prev, v.focusedIds, v.cache;
      rendered, renderedHeight, lineOffsets := v.buffer, v.bufferHeight, v.lineStarts;
      offset, movingByItem := v.offset, v.movingByItem;
    }

    /** Stores a computed state, and the rows of the two ends of the mouse
        selection, in the fields. */
    method SetStateAndRows(v: ViewState, rows: (int, int))
      modifies this`selectedItem, this`prevSelectedItem, this`focusedIds, this`renderedItems, this`rendered,
               this`renderedHeight, this`lineOffsets, this`offset, this`movingByItem,
               this`selectionStartLine, this`selectionEndLine
      requires StoreValid() && ViewValid(items, indexMap, v)
      ensures State() == v && Valid() && selectionStartLine == rows.0 && selectionEndLine == rows.1
    {
      SetState(v);
      selectionStartLine, selectionEndLine := rows.0, rows.1;
    }

    /** Stores a new store and a computed state in the fields. */
    method SetStoreAndState(items': seq<Item>, indexMap': map<string, int>, v: ViewState)
      requires IndexConsistent(items', indexMap') && forall i | 0 <= i < |items'| :: items'[i].id != ""
      requires ViewValid(items', indexMap', v)
      modifies this`items, this`indexMap, this`selectedItem, this`prevSelectedItem, this`focusedIds, this`renderedItems,
               this`rendered, this`renderedHeight, this`lineOffsets, this`offset, this`movingByItem
      ensures items == items' && indexMap == indexMap' && State() == v && Valid()
    {
      items, indexMap := items', indexMap';
      SetState(v);
    }

    /** `render`: does nothing without a positive size or without items;
        otherwise the list takes the state `RenderState` computes. */
    method Render()
      requires Valid()
      modifies this`selectedItem, this`prevSelectedItem, this`focusedIds, this`renderedItems, this`rendered,
               this`renderedHeight, this`lineOffsets, this`offset, this`movingByItem
      ensures Valid()
      ensures AfterRender(old(items), old(indexMap), old(gap), old(direction), old(width), old(height), old(wrap),
                          old(focused), old(State()), State())
    {
      var v := RenderOrKeep(items, indexMap, gap, direction, width, height, wrap, focused, State());
      SetState(v);
    }

    // -------------------------------------------------------------------
    // Selection and focus of the list
    // -------------------------------------------------------------------

    /** `SetSelected`: records the previous selection, selects `id` and
        renders. */
    method SetSelected(id: string)
      requires Valid()
      modifies this`selectedItem, this`prevSelectedItem, this`focusedIds, this`renderedItems, this`rendered,
               this`renderedHeight, this`lineOffsets, this`offset, this`movingByItem
      ensures Valid()
      ensures AfterRender(old(items), old(indexMap), old(gap), old(direction), old(width), old(height), old(wrap), old(focused),
                          old(State()).(sel := id, prev := old(selectedItem)), State())
    {
      var v := RenderOrKeep(items, indexMap, gap, direction, width, height, wrap, focused,
                            State().(sel := id, prev := selectedItem));
      SetState(v);
    }

    /** `Focus`: the list takes the focus and renders. */
    method Focus()
      requires Valid()
      modifies this`focused, this`selectedItem, this`prevSelectedItem, this`focusedIds, this`renderedItems, this`rendered,
               this`renderedHeight, this`lineOffsets, this`offset, this`movingByItem
      ensures Valid() && focused
      ensures AfterRender(old(items), old(indexMap), old(gap), old(direction), old(width), old(height), old(wrap), focused,
                          old(State()), State())
    {
      var f := true;
      var v := RenderOrKeep(items, indexMap, gap, direction, width, height, wrap, f, State());
      SetState(v);
      focused := f;
    }

    /** `Blur`: the list loses the focus and renders. */
    method Blur()
      requires Valid()
      modifies this`focused, this`selectedItem, this`prevSelectedItem, this`focusedIds, this`renderedItems, this`rendered,
               this`renderedHeight, this`lineOffsets, this`offset, this`movingByItem
      ensures Valid() && !focused
      ensures AfterRender(old(items), old(indexMap), old(gap), old(direction), old(width), old(height), old(wrap), focused,
                          old(State()), State())
    {
      var f := false;
      var v := RenderOrKeep(items, indexMap, gap, direction, width, height, wrap, f, State());
      SetState(v);
      focused := f;
    }

    /** `GoToTop`: offset 0, no selection, forward direction, and a render,
        which selects the first focusable item. */
    method GoToTop()
      requires Valid()
      modifies this`direction, this`selectedItem, this`prevSelectedItem, this`focusedIds, this`renderedItems, this`rendered,
               this`renderedHeight, this`lineOffsets, this`offset, this`movingByItem
      ensures Valid() && direction == Forward
      ensures AfterRender(old(items), old(indexMap), old(gap), direction, old(width), old(height), old(wrap), old(focused),
                          old(State()).(sel := "", offset := 0), State())
    {
      var dir := Forward;
      var v := RenderOrKeep(items, indexMap, gap, dir, width, height, wrap, focused, State().(sel := "", offset := 0));
      SetState(v);
      direction := dir;
    }

    /** `GoToBottom`: offset 0, no selection, backward direction, and a
        render, which selects the last focusable item. */
    method GoToBottom()
      requires Valid()
      modifies this`direction, this`selectedItem, this`prevSelectedItem, this`focusedIds, this`renderedItems, this`rendered,
               this`renderedHeight, this`lineOffsets, this`offset, this`movingByItem
      ensures Valid() && direction == Backward
      ensures AfterRender(old(items), old(indexMap), old(gap), direction, old(width), old(height), old(wrap), old(focused),
                          old(State()).(sel := "", offset := 0), State())
    {
      var dir := Backward;
      var v := RenderOrKeep(items, indexMap, gap, dir, width, height, wrap, focused, State().(sel := "", offset := 0));
      SetState(v);
      direction := dir;
    }

    /** `SelectItemBelow`: moves the selection to the next focusable item
        (see `FocusableBelow`) by keyboard and renders; nothing happens
        without a known selection or without such an item. */
    method SelectItemBelow()
      requires Valid()
      modifies this`selectedItem, this`prevSelectedItem, this`focusedIds, this`renderedItems, this`rendered,
               this`renderedHeight, this`lineOffsets, this`offset, this`movingByItem
      ensures Valid()
      ensures old(selectedItem) !in old(indexMap) ==> unchanged(this)
      ensures old(selectedItem) in old(indexMap) ==>
        var r := FocusableBelow(old(items), old(wrap), old(indexMap)[old(selectedItem)]);
        && (r == ItemNotFound ==> unchanged(this))
        && (r != ItemNotFound ==>
              AfterRender(old(items), old(indexMap), old(gap), old(direction), old(width), old(height), old(wrap), old(focused),
                          old(State()).(sel := old(items)[r].id, prev := old(selectedItem), movingByItem := true), State()))
    {
      if selectedItem !in indexMap {
        return;
      }
      var newIndex := FirstSelectableItemBelow(indexMap[selectedItem]);
      if newIndex == ItemNotFound {
        return;
      }
      var v := RenderOrKeep(items, indexMap, gap, direction, width, height, wrap, focused,
                            State().(sel := items[newIndex].id, prev := selectedItem, movingByItem := true));
      SetState(v);
    }

    /** `SelectItemAbove`: moves the selection to the previous focusable
        item by keyboard and renders, going to the top first when that item
        is the topmost focusable one at index 1 (`SelectedAbove`). */
    method SelectItemAbove()
      requires Valid()
      modifies this`direction, this`selectedItem, this`prevSelectedItem, this`focusedIds, this`renderedItems, this`rendered,
               this`renderedHeight, this`lineOffsets, this`offset, this`movingByItem
      ensures Valid()
      ensures SelectedAbove(old(items), old(indexMap), old(gap), old(direction), old(width), old(height), old(wrap), old(focused),
                            old(State()), direction, State())
    {
      var dir, v := SelectAbove(items, indexMap, gap, direction, width, height, wrap, focused, State());
      SetState(v);
      direction := dir;
    }

    // -------------------------------------------------------------------
    // Scrolling
    // -------------------------------------------------------------------

    /** `incrementOffset` on the list. */
    method IncrementOffset(n: int)
      modifies this`offset
      ensures offset == Incremented(old(offset), n, renderedHeight, height)
    {
      if renderedHeight <= height {
        return;
      }
      var maxOffset := renderedHeight - height;
      var step := Min(n, maxOffset - offset);
      if step <= 0 {
        return;
      }
      offset := offset + step;
    }

    /** `decrementOffset` on the list. */
    method DecrementOffset(n: int)
      modifies this`offset
      ensures offset == Decremented(old(offset), n)
    {
      var step := Min(n, offset);
      if step <= 0 {
        return;
      }
      offset := offset - step;
      if offset < 0 {
        offset := 0;
      }
    }

    /** `changeSelectionWhenScrolling` on the list. */
    method ChangeSelectionWhenScrolling()
      requires Valid()
      modifies this`selectedItem, this`prevSelectedItem, this`focusedIds, this`renderedItems, this`rendered,
               this`renderedHeight, this`lineOffsets, this`offset, this`movingByItem
      ensures Valid()
      ensures Reselected(old(items), old(indexMap), old(gap), old(direction), old(width), old(height), old(wrap), old(focused), old(State()), State())
    {
      var v := Reselect(items, indexMap, gap, direction, width, height, wrap, focused, State());
      SetState(v);
    }

    /** `hasSelection`: the mouse selection is not empty. */
    predicate HasSelection()
      reads this`selectionStartCol, this`selectionStartLine, this`selectionEndCol, this`selectionEndLine
    {
      Scrolling.HasSelection(selectionStartCol, selectionStartLine, selectionEndCol, selectionEndLine)
    }

    /** `MoveDown` (`down`) and `MoveUp`: scroll `n` lines as
        `incrementOffset`/`decrementOffset` do; when the offset moved, the
        mouse selection rows follow the content by the distance scrolled,
        and the selection is chosen again for the new view
        (`changeSelectionWhenScrolling`). When the offset did not move,
        nothing changes. */
    method Move(n: int, down: bool)
      requires Valid()
      modifies this`selectedItem, this`prevSelectedItem, this`focusedIds, this`renderedItems, this`rendered,
               this`renderedHeight, this`lineOffsets, this`offset, this`movingByItem, this`selectionStartLine, this`selectionEndLine
      ensures Valid()
      ensures MovedView(old(items), old(indexMap), old(gap), old(direction), old(width), old(height), old(wrap), old(focused),
                        n, down, old(State()), State())
      ensures var o1 := MovedOffset(old(offset), n, old(renderedHeight), old(height), old(direction), down);
        if o1 == old(offset) then
          selectionStartLine == old(selectionStartLine) && selectionEndLine == old(selectionEndLine)
        else
          var rows := ShiftRows(old(selectionStartLine), old(selectionEndLine), old(HasSelection()) && !old(selectionActive),
                                old(selectionActive), Moved(old(offset), o1), down);
          selectionStartLine == rows.0 && selectionEndLine == rows.1
    {
      var oldOffset := offset;
      var o1 := MovedOffset(offset, n, renderedHeight, height, direction, down);
      var rows := (selectionStartLine, selectionEndLine);
      if oldOffset != o1 {
        rows := ShiftRows(selectionStartLine, selectionEndLine, HasSelection() && !selectionActive, selectionActive,
                          Moved(oldOffset, o1), down);
      }
      var v := MoveView(items, indexMap, gap, direction, width, height, wrap, focused, n, down, State());
      SetStateAndRows(v, rows);
    }

    // -------------------------------------------------------------------
    // The item store
    // -------------------------------------------------------------------

    /** `AppendItem`: the item is added at the end under a new id and the
        list renders; going backward, a list at offset 0 then goes to the
        bottom (`GoToBottom`), otherwise the offset moves past the new item,
        no further than the last line. */
    method AppendItem(item: Item)
      requires Valid() && item.id != "" && item.id !in indexMap
      modifies this`items, this`indexMap, this`selectedItem, this`prevSelectedItem, this`focusedIds, this`renderedItems, this`rendered,
               this`renderedHeight, this`lineOffsets, this`offset, this`movingByItem
      ensures Valid()
      ensures items == old(items) + [item] && indexMap == old(indexMap)[item.id := |old(items)|]
      ensures AddedItem(items, indexMap, old(gap), old(direction), old(width), old(height), old(wrap), old(focused), item.id, Backward, old(State()), State())
    {
      AppendKeepsStore(items, indexMap, renderedItems, item);
      var follow := Backward;
      var items', m := items + [item], indexMap[item.id := |items|];
      var v := AddItem(items', m, gap, direction, width, height, wrap, focused, item.id, follow, State());
      SetStoreAndState(items', m, v);
    }

    /** `PrependItem`: the item is added at the front under a new id, the
        map is rebuilt and the list renders; going forward, a list at offset
        0 then goes to the top (`GoToTop`), otherwise the offset moves past
        the new item, no further than the last line. */
    method PrependItem(item: Item)
      requires Valid() && item.id != "" && item.id !in indexMap
      modifies this`items, this`indexMap, this`selectedItem, this`prevSelectedItem, this`focusedIds, this`renderedItems, this`rendered,
               this`renderedHeight, this`lineOffsets, this`offset, this`movingByItem
      ensures Valid()
      ensures items == [item] + old(items)
      ensures AddedItem(items, indexMap, old(gap), old(direction), old(width), old(height), old(wrap), old(focused), item.id, Forward, old(State()), State())
    {
      PrependUnique(items, indexMap, item);
      var items' := [item] + items;
      var m := BuildIndex(items');
      PrependKeepsStore(items, indexMap, renderedItems, item, m);
      var follow := Forward;
      var v := AddItem(items', m, gap, direction, width, height, wrap, focused, item.id, follow, State());
      SetStoreAndState(items', m, v);
    }

    /** `DeleteItem`: an unknown id changes nothing. Otherwise the item
        leaves the sequence, the map and the cache; a deleted selection
        moves to the item before it (`SelectionAfterDelete`); the list
        renders, and then pulls the offset back into range
        (`OffsetAfterDelete`). */
    method DeleteItem(id: string)
      requires Valid()
      modifies this`items, this`indexMap, this`selectedItem, this`prevSelectedItem, this`focusedIds, this`renderedItems, this`rendered,
               this`renderedHeight, this`lineOffsets, this`offset, this`movingByItem
      ensures Valid()
      ensures id !in old(indexMap) ==> unchanged(this)
      ensures id in old(indexMap) ==>
        && items == Without(old(items), old(indexMap)[id])
        && indexMap.Keys == old(indexMap).Keys - {id}
        && DeletedItem(items, indexMap, old(gap), old(direction), old(width), old(height), old(wrap), old(focused),
                       old(State()).(sel := SelectionAfterDelete(old(items), old(indexMap)[id], id, old(selectedItem)),
                                     cache := old(renderedItems) - {id}), State())
    {
      if id !in indexMap {
        return;
      }
      var inx := indexMap[id];
      var items', m := DeleteFromStore(items, indexMap, id);
      CacheAfterDelete(items, indexMap, items', m, renderedItems, id);
      var v0 := State().(sel := SelectionAfterDelete(items, inx, id, selectedItem), cache := renderedItems - {id});
      RecachedValid(items, indexMap, State(), items', m, v0);
      var v := DeleteRender(items', m, gap, direction, width, height, wrap, focused, v0);
      SetStoreAndState(items', m, v);
    }

    /** `UpdateItem`: an unknown id changes nothing. Otherwise the item
        replaces the one with its id and the list renders it again
        (`UpdatedItem`). */
    method UpdateItem(id: string, item: Item)
      requires Valid() && item.id == id
      modifies this`items, this`selectedItem, this`prevSelectedItem, this`focusedIds, this`renderedItems, this`rendered,
               this`renderedHeight, this`lineOffsets, this`offset, this`movingByItem
      ensures Valid()
      ensures id !in old(indexMap) ==> unchanged(this)
      ensures id in old(indexMap) ==>
        && items == old(items)[old(indexMap)[id] := item]
        && UpdatedItem(items, indexMap, old(gap), old(direction), old(width), old(height), old(wrap), old(focused), id, old(State()), State())
    {
      if id !in indexMap {
        return;
      }
      var inx := indexMap[id];
      ReplaceKeepsStore(items, indexMap, renderedItems, item);
      assert items[inx].id == id != "";
      var items' := items[inx := item];
      var v := UpdateRender(items', indexMap, gap, direction, width, height, wrap, focused, id, State());
      items := items';
      SetState(v);
    }

    /** `reset`: the map is rebuilt, the state cleared (`Cleared`) with the
        given selection, and the list renders. */
    method Reset(sel: string)
      requires UniqueIds(items) && forall i | 0 <= i < |items| :: items[i].id != ""
      requires forall k | 0 <= k < |lineOffsets| :: lineOffsets[k] >= 0
      modifies this`indexMap, this`selectedItem, this`prevSelectedItem, this`focusedIds, this`renderedItems, this`rendered,
               this`renderedHeight, this`lineOffsets, this`offset, this`movingByItem
      ensures Valid()
      ensures AfterRender(old(items), indexMap, old(gap), old(direction), old(width), old(height), old(wrap), old(focused),
                          Cleared(old(State()), sel), State())
    {
      var v0 := Cleared(State(), sel);
      var m := BuildIndex(items);
      ClearedValid(items, m, State(), sel);
      var v := RenderOrKeep(items, m, gap, direction, width, height, wrap, focused, v0);
      indexMap := m;
      SetState(v);
    }

    /** `SetItems`: the items are replaced and the list is reset with no
        selection. */
    method SetItems(newItems: seq<Item>)
      requires Valid()
      requires UniqueIds(newItems) && forall i | 0 <= i < |newItems| :: newItems[i].id != ""
      modifies this`items, this`indexMap, this`selectedItem, this`prevSelectedItem, this`focusedIds, this`renderedItems, this`rendered,
               this`renderedHeight, this`lineOffsets, this`offset, this`movingByItem
      ensures Valid() && items == newItems
      ensures AfterRender(newItems, indexMap, old(gap), old(direction), old(width), old(height), old(wrap), old(focused),
                          Cleared(old(State()), ""), State())
    {
      IndexedNonneg(rendered, renderedHeight, lineOffsets);
      items := newItems;
      Reset("");
    }

    /** `SetSize`: the new size is stored; a change of width resets the
        list, keeping its selection. */
    method SetSize(w: int, h: int)
      requires Valid()
      modifies this`width, this`height, this`indexMap, this`selectedItem, this`prevSelectedItem, this`focusedIds, this`renderedItems, this`rendered,
               this`renderedHeight, this`lineOffsets, this`offset, this`movingByItem
      ensures Valid() && width == w && height == h
      ensures old(width) == w ==> State() == old(State()) && indexMap == old(indexMap)
      ensures old(width) != w ==>
        AfterRender(old(items), indexMap, old(gap), old(direction), w, h, old(wrap), old(focused),
                    Cleared(old(State()), old(selectedItem)), State())
    {
      var oldWidth := width;
      width, height := w, h;
      if oldWidth != w {
        IndexedNonneg(rendered, renderedHeight, lineOffsets);
        IndexConsistentUnique(items, indexMap);
        Reset(selectedItem);
      }
    }

    // -------------------------------------------------------------------
    // Mouse selection
    // -------------------------------------------------------------------

    /** `StartSelection`: an empty selection at the cell, being dragged. */
    method StartSelection(col: int, line: int)
      modifies this`selectionStartCol, this`selectionStartLine, this`selectionEndCol, this`selectionEndLine, this`selectionActive
      ensures selectionStartCol == col && selectionStartLine == line
      ensures selectionEndCol == col && selectionEndLine == line
      ensures selectionActive && !HasSelection()
    {
      selectionStartCol := col;
      selectionStartLine := line;
      selectionEndCol := col;
      selectionEndLine := line;
      selectionActive := true;
    }

    /** `EndSelection`: while dragging, the end follows the cell; the
        selection is then non-empty exactly when the cell is not the start. */
    method EndSelection(col: int, line: int)
      modifies this`selectionEndCol, this`selectionEndLine
      ensures old(selectionActive) ==> selectionEndCol == col && selectionEndLine == line
      ensures old(selectionActive) ==> (HasSelection() <==> (col, line) != (selectionStartCol, selectionStartLine))
      ensures !old(selectionActive) ==> selectionEndCol == old(selectionEndCol) && selectionEndLine == old(selectionEndLine)
    {
      if !selectionActive {
        return;
      }
      selectionEndCol := col;
      selectionEndLine := line;
    }

    /** `SelectionStop`: dragging ends; the selection stays. */
    method SelectionStop()
      modifies this`selectionActive
      ensures !selectionActive
    {
      selectionActive := false;
    }

    /** `SelectionClear`: no selection, all ends at -1. */
    method SelectionClear()
      modifies this`selectionStartCol, this`selectionStartLine, this`selectionEndCol, this`selectionEndLine, this`selectionActive
      ensures selectionStartCol == -1 && selectionStartLine == -1 && selectionEndCol == -1 && selectionEndLine == -1
      ensures !selectionActive && !HasSelection()
    {
      selectionStartCol := -1;
      selectionStartLine := -1;
      selectionEndCol := -1;
      selectionEndLine := -1;
      selectionActive := false;
    }

    /** `findParagraphBoundaries`: the screen row is translated to a buffer
        row; when that row exists and is not blank, the result is the
        paragraph around it, translated back to screen rows. */
    method FindParagraphBoundaries(line: int) returns (startLine: int, endLine: int, found: bool)
      ensures var lines := Split(rendered);
        var b := ScreenToBuffer(line, |lines|, height, offset, direction);
        && (found <==> 0 <= b < |lines| && !IsBlank(lines[b]))
        && (found ==> ParagraphAround(lines, ScreenToBuffer(startLine, |lines|, height, offset, direction),
                                      ScreenToBuffer(endLine, |lines|, height, offset, direction), b))
        && (!found ==> startLine == 0 && endLine == 0)
    {
      var lines := Split(rendered);
      var n := |lines|;
      var b := line;
      if direction == Backward && n > height {
        b := (n - 1) - height + line + 1;
      }
      if offset > 0 {
        if direction == Backward {
          b := b - offset;
        } else {
          b := b + offset;
        }
      }
      assert b == ScreenToBuffer(line, n, height, offset, direction);
      if b < 0 || b >= n {
        return 0, 0, false;
      }
      if IsBlank(lines[b]) {
        return 0, 0, false;
      }
      var lo := b;
      while lo > 0 && !IsBlank(lines[lo - 1])
        invariant 0 <= lo <= b
        invariant forall k | lo <= k <= b :: !IsBlank(lines[k])
      {
        lo := lo - 1;
      }
      var hi := b;
      while hi < n - 1 && !IsBlank(lines[hi + 1])
        invariant b <= hi < n
        invariant forall k | b <= k <= hi :: !IsBlank(lines[k])
      {
        hi := hi + 1;
      }
      startLine, endLine := lo, hi;
      if direction == Backward && n > height {
        startLine := startLine - (n - 1) + height - 1;
        endLine := endLine - (n - 1) + height - 1;
      }
      if offset > 0 {
        if direction == Backward {
          startLine := startLine + offset;
          endLine := endLine + offset;
        } else {
          startLine := startLine - offset;
          endLine := endLine - offset;
        }
      }
      assert startLine == BufferToScreen(lo, n, height, offset, direction);
      assert endLine == BufferToScreen(hi, n, height, offset, direction);
      found := true;
    }

    /** `SelectParagraph`: selects the whole rows of the paragraph around
        the screen row, as a finished selection; nothing happens on a blank
        row or outside the buffer. */
    method SelectParagraph(col: int, line: int)
      modifies this`selectionStartCol, this`selectionStartLine, this`selectionEndCol, this`selectionEndLine, this`selectionActive
      ensures var lines := Split(rendered);
        var b := ScreenToBuffer(line, |lines|, height, offset, direction);
        && (0 <= b < |lines| && !IsBlank(lines[b]) ==>
              && ParagraphAround(lines, ScreenToBuffer(selectionStartLine, |lines|, height, offset, direction),
                                 ScreenToBuffer(selectionEndLine, |lines|, height, offset, direction), b)
              && selectionStartCol == 0 && selectionEndCol == width - 1 && !selectionActive)
        && (!(0 <= b < |lines| && !IsBlank(lines[b])) ==> unchanged(this`selectionStartCol, this`selectionStartLine, this`selectionEndCol, this`selectionEndLine, this`selectionActive))
    {
      var startLine, endLine, found := FindParagraphBoundaries(line);
      if !found {
        return;
      }
      selectionStartCol := 0;
      selectionStartLine := startLine;
      selectionEndCol := width - 1;
      selectionEndLine := endLine;
      selectionActive := false;
    }
  }
}
