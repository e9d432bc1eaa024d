/**
 * Keyboard selection and focus on values: the focusable-item searches, the
 * default selection, moving the focus flag with the selection, and
 * `scrollToSelection`. The list applies their results to its fields.
 */
module Navigation {
  import opened Viewport
  import opened Layout

  /** `firstSelectableItemBelow`: the first focusable index after `inx`,
      restarting from the top when `inx` is the last index and wrapping is on. */
  method FirstSelectableBelow(items: seq<Item>, wrap: bool, inx: int) returns (r: int)
    requires !(wrap && |items| == 0 && inx == -1)
    ensures r == FocusableBelow(items, wrap, inx)
    decreases if inx == -1 then 0 else 1
  {
    var itemsLen := |items|;
    var i := inx + 1;
    while i < itemsLen
      invariant inx + 1 <= i
      invariant FirstFocusableFrom(items, Max(inx + 1, 0)) == FirstFocusableFrom(items, Max(i, 0))
      decreases itemsLen - i
    {
      if 0 <= i && items[i].focusable {
        return i;
      }
      i := i + 1;
    }
    if inx == itemsLen - 1 && wrap {
      r := FirstSelectableBelow(items, wrap, -1);
      return;
    }
    return ItemNotFound;
  }

  /** `firstSelectableItemAbove`: the last focusable index before `inx`,
      restarting from the bottom when `inx` is 0 and wrapping is on. */
  method FirstSelectableAbove(items: seq<Item>, wrap: bool, inx: int) returns (r: int)
    requires !(wrap && |items| == 0 && inx == 0)
    ensures r == FocusableAbove(items, wrap, inx)
    decreases if inx == 0 then 1 else 0
  {
    var i := inx - 1;
    while i >= 0
      invariant i <= inx - 1
      invariant LastFocusableBefore(items, inx) == LastFocusableBefore(items, i + 1)
    {
      if i < |items| && items[i].focusable {
        return i;
      }
      i := i - 1;
    }
    if inx == 0 && wrap {
      r := FirstSelectableAbove(items, wrap, |items|);
      return;
    }
    return ItemNotFound;
  }

  /** `setDefaultSelected`, with `selectFirstItem` and `selectLastItem`
      inlined: an empty selection becomes the first focusable item going
      forward, the last one going backward, and stays empty when there is none. */
  method DefaultSelected(items: seq<Item>, wrap: bool, dir: Direction, sel: string) returns (s: string)
    requires wrap ==> |items| > 0
    ensures s == SelectionOrDefault(items, wrap, dir, sel)
    ensures sel != "" ==> s == sel
    ensures sel == "" && s != "" ==> exists i | 0 <= i < |items| :: items[i].id == s && items[i].focusable
  {
    s := sel;
    if sel == "" {
      var inx;
      if dir == Forward {
        inx := FirstSelectableBelow(items, wrap, -1);
      } else {
        inx := FirstSelectableAbove(items, wrap, |items|);
      }
      if inx != ItemNotFound {
        s := items[inx].id;
      }
    }
  }

  /** Whether `focusSelectedItem` blurs the previously selected item `prev`. */
  predicate BlursPrevious(items: seq<Item>, indexMap: map<string, int>, sel: string, prev: string, focusedIds: set<string>)
  {
    prev != "" && prev != sel && prev in indexMap && 0 <= indexMap[prev] < |items|
    && items[indexMap[prev]].focusable && prev in focusedIds
  }

  /** Whether `focusSelectedItem` focuses the selected item `sel`. */
  predicate FocusesSelected(items: seq<Item>, indexMap: map<string, int>, sel: string, focusedIds: set<string>)
  {
    sel in indexMap && 0 <= indexMap[sel] < |items| && items[indexMap[sel]].focusable && sel !in focusedIds
  }

  /** `focusSelectedItem` on values: with a selection and the list focused,
      the previously selected item is blurred when the selection moved, the
      selected one is focused, and each item whose focus flag changed loses
      its cache entry so that it is rendered again. */
  method FocusSelected(items: seq<Item>, indexMap: map<string, int>, sel: string, focused: bool,
                       prev0: string, focusedIds0: set<string>, cache0: map<string, RenderedItem>)
    returns (prev: string, focusedIds: set<string>, cache: map<string, RenderedItem>)
    requires IndexConsistent(items, indexMap) && CacheConsistent(items, indexMap, cache0)
    ensures CacheConsistent(items, indexMap, cache)
    ensures sel == "" || !focused ==> prev == prev0 && focusedIds == focusedIds0 && cache == cache0
    ensures sel != "" && focused ==>
      var blurred: set<string> := if BlursPrevious(items, indexMap, sel, prev0, focusedIds0) then {prev0} else {};
      var focusedNow: set<string> := if FocusesSelected(items, indexMap, sel, focusedIds0) then {sel} else {};
      && prev == sel
      && focusedIds == focusedIds0 - blurred + focusedNow
      && cache == cache0 - blurred - focusedNow
    ensures cache == cache0 - (focusedIds0 - focusedIds) - (focusedIds - focusedIds0)
  {
    prev, focusedIds, cache := prev0, focusedIds0, cache0;
    if sel == "" || !focused {
      return;
    }
    ghost var blurred: set<string> := if BlursPrevious(items, indexMap, sel, prev0, focusedIds0) then {prev0} else {};
    ghost var focusedNow: set<string> := if FocusesSelected(items, indexMap, sel, focusedIds0) then {sel} else {};
    if prev != "" && prev != sel {
      if prev in indexMap {
        var prevItem := items[indexMap[prev]];
        if prevItem.focusable && prevItem.id in focusedIds {
          focusedIds := focusedIds - {prevItem.id};
          cache := cache - {prevItem.id};
        }
      }
    }
    assert focusedIds == focusedIds0 - blurred && cache == cache0 - blurred;
    assert sel in focusedIds <==> sel in focusedIds0;
    if sel in indexMap {
      var item := items[indexMap[sel]];
      if item.focusable && item.id !in focusedIds {
        focusedIds := focusedIds + {item.id};
        cache := cache - {item.id};
      }
    }
    prev := sel;
    assert focusedIds0 - focusedIds == blurred && focusedIds - focusedIds0 == focusedNow;
    CacheRemove(items, indexMap, cache0, blurred);
    CacheRemove(items, indexMap, cache0 - blurred, focusedNow);
  }

  /** Whether `blurSelectedItem` blurs the selected item `sel`. */
  predicate BlursSelected(items: seq<Item>, indexMap: map<string, int>, sel: string, focused: bool, focusedIds: set<string>)
  {
    sel != "" && !focused && sel in indexMap && 0 <= indexMap[sel] < |items|
    && items[indexMap[sel]].focusable && sel in focusedIds
  }

  /** `blurSelectedItem` on values: when the list is not focused, the
      selected item is blurred and loses its cache entry. */
  method BlurSelected(items: seq<Item>, indexMap: map<string, int>, sel: string, focused: bool,
                      focusedIds0: set<string>, cache0: map<string, RenderedItem>)
    returns (focusedIds: set<string>, cache: map<string, RenderedItem>)
    requires IndexConsistent(items, indexMap) && CacheConsistent(items, indexMap, cache0)
    ensures CacheConsistent(items, indexMap, cache)
    ensures var blurred: set<string> := if BlursSelected(items, indexMap, sel, focused, focusedIds0) then {sel} else {};
      focusedIds == focusedIds0 - blurred && cache == cache0 - blurred
    ensures cache == cache0 - (focusedIds0 - focusedIds) - (focusedIds - focusedIds0)
  {
    focusedIds, cache := focusedIds0, cache0;
    if sel == "" || focused {
      return;
    }
    if sel in indexMap {
      var item := items[indexMap[sel]];
      if item.focusable && item.id in focusedIds {
        cache := cache - {item.id};
        focusedIds := focusedIds - {item.id};
      }
    }
  }

  /** The focus flags after `render` has called `focusSelectedItem` (list
      focused) or `blurSelectedItem` (not focused) for the selection `sel`,
      and the previously selected item it records. */
  predicate FocusUpdated(items: seq<Item>, indexMap: map<string, int>, sel: string, focused: bool,
                         prev0: string, focusedIds0: set<string>, prev: string, focusedIds: set<string>)
  {
    if focused && sel != "" then
      && prev == sel
      && focusedIds == focusedIds0 - (if BlursPrevious(items, indexMap, sel, prev0, focusedIds0) then {prev0} else {})
                                   + (if FocusesSelected(items, indexMap, sel, focusedIds0) then {sel} else {})
    else
      && prev == prev0
      && focusedIds == focusedIds0 - (if BlursSelected(items, indexMap, sel, focused, focusedIds0) then {sel} else {})
  }

  /** `scrollToSelection` on values: a selection without a cache entry is
      replaced by the default selection; otherwise the offset moves as
      `ScrollTarget` says, and keyboard navigation ends once a scroll was
      needed. */
  method ScrollTo(items: seq<Item>, indexMap: map<string, int>, wrap: bool, dir: Direction,
                  cache: map<string, RenderedItem>, sel0: string, offset0: int, height: int, renderedHeight: int,
                  movingByItem0: bool)
    returns (sel: string, offset: int, movingByItem: bool)
    requires wrap ==> |items| > 0
    requires CacheConsistent(items, indexMap, cache) && offset0 >= 0
    ensures offset >= 0
    ensures sel0 !in cache ==>
      sel == DefaultSelection(items, wrap, dir) && offset == offset0 && movingByItem == movingByItem0
    ensures sel0 in cache ==>
      var e := cache[sel0];
      var vp := ViewPosition(offset0, height, renderedHeight, dir); var start, end := vp.0, vp.1;
      && sel == sel0
      && offset == ScrollTarget(e.start, e.end, e.height, offset0, height, renderedHeight, dir, movingByItem0)
      && movingByItem == (movingByItem0 && (CoversView(e.start, e.end, start, end) || InsideView(e.start, e.end, start, end)))
  {
    sel, offset, movingByItem := sel0, offset0, movingByItem0;
    if sel0 !in cache {
      sel := DefaultSelected(items, wrap, dir, "");
      return;
    }
    var rItem := cache[sel0];
    var vp := ViewPosition(offset, height, renderedHeight, dir); var start, end := vp.0, vp.1;
    ghost var target := ScrollTarget(rItem.start, rItem.end, rItem.height, offset, height, renderedHeight, dir, movingByItem);
    ghost var shown := SelectionShown(rItem.start, rItem.end, offset, height, renderedHeight, dir, movingByItem);
    assert shown ==> target == offset;
    if rItem.start <= start && rItem.end >= end {
      return;
    }
    if movingByItem {
      if rItem.start >= start && rItem.end <= end {
        return;
      }
      // deferred in the source: keyboard navigation ends with this call
      movingByItem := false;
    } else {
      if rItem.start >= start && rItem.start <= end {
        return;
      }
      if rItem.end >= start && rItem.end <= end {
        return;
      }
    }
    assert !shown;
    if rItem.height >= height {
      if dir == Forward {
        offset := rItem.start;
      } else {
        offset := Max(0, renderedHeight - (rItem.start + height));
      }
      assert offset == target;
      return;
    }
    var renderedLines := renderedHeight - 1;
    if rItem.start < start {
      if dir == Forward {
        offset := rItem.start;
      } else {
        offset := Max(0, renderedLines - rItem.start - height + 1);
      }
    } else if rItem.end > end {
      if dir == Forward {
        offset := Max(0, rItem.end - height + 1);
      } else {
        offset := Max(0, renderedLines - rItem.end);
      }
    }
    assert offset == target;
  }
}
