/**
 * The render pass on values: `renderIterator` and
 * `recalculateItemPositionsFrom` as they act on the items and the render
 * cache, and one whole pass of `render` built from them. The list stores
 * their results in its fields.
 */
module Render {
  import opened Text
  import opened Viewport
  import opened Layout

  /** The first loop of `renderIterator`: collects one fragment per visited
      step, caching the entries it has to create, until the height limit. */
  method CollectFragments(items: seq<Item>, gap: nat, dir: Direction, height: int, cache0: map<string, RenderedItem>,
                          startInx: int, limitHeight: bool, base: int)
    returns (fragments: seq<RenderFragment>, cache: map<string, RenderedItem>, finalIndex: int)
    requires UniqueIds(items)
    requires 0 <= startInx <= |items|
    ensures finalIndex == FinalIndexFrom(items, gap, dir, cache0, startInx, base, limitHeight, height, startInx)
    ensures cache == PassCache(items, gap, dir, cache0, startInx, base, finalIndex)
    ensures fragments == PassFragments(items, gap, dir, cache0, startInx, base, finalIndex)
  {
    var n := |items|;
    cache := cache0;
    fragments := [];
    var currentContentHeight := base;
    finalIndex := n;
    var i := startInx;
    while i < n
      invariant startInx <= i <= n && finalIndex == n
      invariant currentContentHeight == HeightBefore(items, gap, dir, cache0, startInx, base, i)
      invariant fragments == PassFragments(items, gap, dir, cache0, startInx, base, i)
      invariant FinalIndexFrom(items, gap, dir, cache0, startInx, base, limitHeight, height, startInx)
             == FinalIndexFrom(items, gap, dir, cache0, startInx, base, limitHeight, height, i)
      invariant cache == PassCache(items, gap, dir, cache0, startInx, base, i)
    {
      if limitHeight && currentContentHeight >= height {
        finalIndex := i;
        break;
      }
      var inx := i;
      if dir != Forward {
        inx := (n - 1) - i;
      }
      var item := items[inx];
      PassCacheStep(items, gap, dir, cache0, startInx, base, i);
      var rItem: RenderedItem;
      if item.id in cache {
        rItem := cache[item.id];
      } else {
        rItem := RenderedItem(item.view, Height(item.view), currentContentHeight, currentContentHeight + Height(item.view) - 1);
        cache := cache[item.id := rItem];
      }
      var g := gap + 1;
      if inx == n - 1 {
        g := 0;
      }
      fragments := fragments + [RenderFragment(rItem.view, g)];
      currentContentHeight := rItem.end + 1 + gap;
      i := i + 1;
    }
  }

  /** The second loop of `renderIterator`: writes the fragments after the
      previous buffer going forward, and in reverse before it going
      backward. */
  method JoinFragments(fragments: seq<RenderFragment>, prev: string, dir: Direction) returns (out: string)
    ensures dir == Forward ==> out == prev + ConcatFragments(fragments)
    ensures dir == Backward ==> out == ConcatReversed(fragments) + prev
  {
    var b := "";
    if dir == Forward {
      b := prev;
      var k := 0;
      while k < |fragments|
        invariant 0 <= k <= |fragments|
        invariant b == prev + ConcatFragments(fragments[..k])
      {
        var f := fragments[k];
        assert fragments[..k + 1][..k] == fragments[..k];
        b := b + f.view;
        if f.gap > 0 {
          b := b + Newlines(f.gap);
        }
        k := k + 1;
      }
      assert fragments[..|fragments|] == fragments;
      return b;
    }
    var k := |fragments|;
    while k > 0
      invariant 0 <= k <= |fragments|
      invariant b == ConcatReversed(fragments[k..])
    {
      var f := fragments[k - 1];
      assert fragments[k - 1..][1..] == fragments[k..];
      b := b + f.view;
      if f.gap > 0 {
        b := b + Newlines(f.gap);
      }
      k := k - 1;
    }
    out := b + prev;
  }

  /** `renderIterator`: visits the items from step `startInx` (in item
      order going forward, in reverse going backward), taking each item's
      cache entry or caching a fresh one at the accumulated height, and
      stops before the first step whose accumulated height reaches the
      viewport when `limitHeight` is set. The visited items' text is added
      after `prev` going forward and before it going backward. */
  method IteratePass(items: seq<Item>, indexMap: map<string, int>, gap: nat, dir: Direction, height: int,
                     cache0: map<string, RenderedItem>, startInx: int, limitHeight: bool, prev: string)
    returns (out: string, cache: map<string, RenderedItem>, finalIndex: int)
    requires IndexConsistent(items, indexMap) && CacheConsistent(items, indexMap, cache0)
    requires 0 <= startInx <= |items|
    ensures CacheConsistent(items, indexMap, cache)
    ensures finalIndex == FinalIndexFrom(items, gap, dir, cache0, startInx, Height(prev) - 1, limitHeight, height, startInx)
    ensures cache == PassCache(items, gap, dir, cache0, startInx, Height(prev) - 1, finalIndex)
    ensures out == PassText(items, gap, dir, startInx, finalIndex, prev)
  {
    ghost var base := Height(prev) - 1;
    IndexConsistentUnique(items, indexMap);
    var fragments;
    fragments, cache, finalIndex := CollectFragments(items, gap, dir, height, cache0, startInx, limitHeight, Height(prev) - 1);
    assert CacheConsistent(items, indexMap, cache) by {
      PassCacheConsistent(items, indexMap, gap, dir, cache0, startInx, base, finalIndex);
    }
    out := JoinFragments(fragments, prev, dir);
    assert out == PassText(items, gap, dir, startInx, finalIndex, prev) by {
      PassFragmentsJoin(items, indexMap, gap, dir, cache0, startInx, base, finalIndex);
    }
  }

  /** The loop of `recalculateItemPositionsFrom`: each cached item from `k`
      on is moved to `currentContentHeight`, which then advances past it
      and the gap. */
  method PlaceFrom(items: seq<Item>, gap: nat, cache0: map<string, RenderedItem>, k: int, currentContentHeight: int)
    returns (cache: map<string, RenderedItem>)
    requires UniqueIds(items)
    requires 0 <= k <= |items|
    requires currentContentHeight == RecalcStart(items, gap, cache0, k, k)
    ensures cache == Recalculated(items, gap, cache0, k, |items|)
  {
    cache := cache0;
    var n := |items|;
    var i := k;
    var cur := currentContentHeight;
    while i < n
      invariant k <= i <= n
      invariant cur == RecalcStart(items, gap, cache0, k, i)
      invariant cache == Recalculated(items, gap, cache0, k, i)
    {
      var item := items[i];
      RecalculatedStep(items, gap, cache0, k, i, cur);
      if item.id in cache {
        var rItem := cache[item.id];
        rItem := rItem.(start := cur, end := cur + rItem.height - 1);
        cache := cache[item.id := rItem];
        cur := rItem.end + 1 + gap;
      }
      i := i + 1;
    }
  }

  /** `recalculateItemPositionsFrom`: lays the cached items from index `k`
      out one after the other, separated by the gap, starting after the
      cached item before `k` (or at line 0). */
  method RecalculateFrom(items: seq<Item>, indexMap: map<string, int>, gap: nat, cache0: map<string, RenderedItem>, k: int)
    returns (cache: map<string, RenderedItem>)
    requires IndexConsistent(items, indexMap) && CacheConsistent(items, indexMap, cache0)
    requires 0 <= k
    ensures CacheConsistent(items, indexMap, cache)
    ensures cache == if k <= |items| then Recalculated(items, gap, cache0, k, |items|) else cache0
  {
    var currentContentHeight := 0;
    if k > 0 && k - 1 < |items| {
      var prevItem := items[k - 1];
      if prevItem.id in cache0 {
        currentContentHeight := cache0[prevItem.id].end + 1 + gap;
      }
    }
    if k >= |items| {
      return cache0;
    }
    IndexConsistentUnique(items, indexMap);
    cache := PlaceFrom(items, gap, cache0, k, currentContentHeight);
    RecalculatedConsistent(items, indexMap, gap, cache0, k, |items|);
  }

  /** One render of `render`: a pass of `renderIterator`, followed by
      `recalculateItemPositions` going backward. */
  method RenderPass(items: seq<Item>, indexMap: map<string, int>, gap: nat, dir: Direction, height: int,
                    cache0: map<string, RenderedItem>, startInx: int, limitHeight: bool, prev: string)
    returns (out: string, cache: map<string, RenderedItem>, fi: int)
    requires IndexConsistent(items, indexMap) && CacheConsistent(items, indexMap, cache0)
    requires 0 <= startInx <= |items|
    ensures CacheConsistent(items, indexMap, cache)
    ensures fi == FinalIndexFrom(items, gap, dir, cache0, startInx, Height(prev) - 1, limitHeight, height, startInx)
    ensures out == PassText(items, gap, dir, startInx, fi, prev)
    ensures cache == PassResult(items, gap, dir, cache0, startInx, Height(prev) - 1, limitHeight, height)
  {
    out, cache, fi := IteratePass(items, indexMap, gap, dir, height, cache0, startInx, limitHeight, prev);
    if dir == Backward {
      cache := RecalculateFrom(items, indexMap, gap, cache, 0);
    }
  }

  /** The rendering part of `render` when a buffer exists: one pass from
      the top without a height limit. It produces the full buffer and
      caches every item; going backward every item ends on its true line,
      going forward an exact cache stays exact. */
  method RenderAll(items: seq<Item>, indexMap: map<string, int>, gap: nat, dir: Direction, height: int,
                   cache0: map<string, RenderedItem>)
    returns (out: string, cache: map<string, RenderedItem>)
    requires IndexConsistent(items, indexMap) && CacheConsistent(items, indexMap, cache0)
    ensures CacheConsistent(items, indexMap, cache)
    ensures out == Layout.Layout(items, gap) && AllItemsCached(items, cache)
    ensures dir == Backward ==> PositionsExact(items, gap, cache)
    ensures dir == Forward && PositionsExact(items, gap, cache0) ==> PositionsExact(items, gap, cache)
  {
    assert Height("") - 1 == 0;
    var fi;
    out, cache, fi := RenderPass(items, indexMap, gap, dir, height, cache0, 0, false, "");
    FullPassRender(items, indexMap, gap, dir, cache0, height);
  }

  /** The rendering part of `render` when the buffer is empty: a first
      pass limited to the viewport height, completed by a second pass from
      where the first stopped, after the first one's text. Together they
      produce the full buffer and cache every item, with the same
      positions as above. */
  method RenderInTwo(items: seq<Item>, indexMap: map<string, int>, gap: nat, dir: Direction, height: int,
                     cache0: map<string, RenderedItem>)
    returns (out: string, cache: map<string, RenderedItem>)
    requires IndexConsistent(items, indexMap) && CacheConsistent(items, indexMap, cache0)
    ensures CacheConsistent(items, indexMap, cache)
    ensures out == Layout.Layout(items, gap) && AllItemsCached(items, cache)
    ensures dir == Backward ==> PositionsExact(items, gap, cache)
    ensures dir == Forward && PositionsExact(items, gap, cache0) ==> PositionsExact(items, gap, cache)
  {
    assert Height("") - 1 == 0;
    var t1, c1, fi := RenderPass(items, indexMap, gap, dir, height, cache0, 0, true, "");
    var fi2;
    out, cache, fi2 := RenderPass(items, indexMap, gap, dir, height, c1, fi, false, t1);
    TwoPassText(items, gap, dir, cache0, height, fi, t1, c1);
    TwoPassCache(items, indexMap, gap, dir, cache0, height, fi, t1, c1);
  }
}
