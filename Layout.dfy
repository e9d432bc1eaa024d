/**
 * The layout of the list's rendered buffer: items, their cached render
 * entries, the fragment each item contributes (its view followed by the gap
 * newlines), the line each item starts on, and the search for the next
 * focusable item used by keyboard navigation.
 */
module Layout {
  import opened Text
  import opened Viewport

  /** An item of the list, reduced to what the engine looks at: its id, its
      rendered view, and whether it implements the focusable interface. */
  datatype Item = Item(id: string, view: string, focusable: bool)

  /** A render-cache entry: the item's view, its height in lines, and the
      first and last buffer line it occupies. */
  datatype RenderedItem = RenderedItem(view: string, height: int, start: int, end: int)

  /** A piece of the buffer: a view and the number of newlines after it. */
  datatype RenderFragment = RenderFragment(view: string, gap: nat)

  /** Returned by the focus search when no item qualifies. */
  const ItemNotFound: int := -1

  /** The id → index map sends every id to its position and knows every item. */
  predicate IndexConsistent(items: seq<Item>, indexMap: map<string, int>)
  {
    && (forall id | id in indexMap :: 0 <= indexMap[id] < |items| && items[indexMap[id]].id == id)
    && (forall i | 0 <= i < |items| :: items[i].id in indexMap && indexMap[items[i].id] == i)
  }

  predicate UniqueIds(items: seq<Item>)
  {
    forall i, j | 0 <= i < j < |items| :: items[i].id != items[j].id
  }

  /** An index map can only be consistent with a sequence of distinct ids. */
  lemma IndexConsistentUnique(items: seq<Item>, indexMap: map<string, int>)
    requires IndexConsistent(items, indexMap)
    ensures UniqueIds(items)
  {
    forall i, j | 0 <= i < j < |items| ensures items[i].id != items[j].id {
      assert indexMap[items[i].id] == i && indexMap[items[j].id] == j;
    }
  }

  /** A cache entry agrees with the view it was made from. */
  predicate EntryFits(e: RenderedItem, view: string)
  {
    e.view == view && e.height == Height(view) && e.start >= 0 && e.end == e.start + e.height - 1
  }

  /** Every cache entry belongs to a present item and agrees with its view. */
  predicate CacheConsistent(items: seq<Item>, indexMap: map<string, int>, cache: map<string, RenderedItem>)
  {
    forall id | id in cache :: id in indexMap && 0 <= indexMap[id] < |items| && EntryFits(cache[id], items[indexMap[id]].view)
  }

  lemma CacheInsert(items: seq<Item>, indexMap: map<string, int>, cache: map<string, RenderedItem>,
                    id: string, e: RenderedItem)
    requires CacheConsistent(items, indexMap, cache)
    requires id in indexMap && 0 <= indexMap[id] < |items| && EntryFits(e, items[indexMap[id]].view)
    ensures CacheConsistent(items, indexMap, cache[id := e])
  {
  }

  lemma CacheRemove(items: seq<Item>, indexMap: map<string, int>, cache: map<string, RenderedItem>, ids: set<string>)
    requires CacheConsistent(items, indexMap, cache)
    ensures CacheConsistent(items, indexMap, cache - ids)
  {
  }

  // ---------------------------------------------------------------------
  // Fragments and the buffer they make up
  // ---------------------------------------------------------------------

  /** Newlines written after the item at `inx`: `gap + 1`, none after the last item. */
  function GapAfter(n: int, gap: nat, inx: int): nat
  {
    if inx == n - 1 then 0 else gap + 1
  }

  function FragmentOf(items: seq<Item>, gap: nat, inx: int): RenderFragment
    requires 0 <= inx < |items|
  {
    RenderFragment(items[inx].view, GapAfter(|items|, gap, inx))
  }

  function FragmentText(f: RenderFragment): string
  {
    f.view + Newlines(f.gap)
  }

  /** The text items lo .. hi-1 contribute, in item order. */
  function Segment(items: seq<Item>, gap: nat, lo: int, hi: int): string
    requires 0 <= lo <= hi <= |items|
    decreases hi - lo
  {
    if lo == hi then "" else Segment(items, gap, lo, hi - 1) + FragmentText(FragmentOf(items, gap, hi - 1))
  }

  /** The full buffer of the list. */
  function Layout(items: seq<Item>, gap: nat): string
  {
    Segment(items, gap, 0, |items|)
  }

  /** The line on which item `i` starts in the full buffer. */
  function StartLine(items: seq<Item>, gap: nat, i: int): int
    requires 0 <= i <= |items|
  {
    if i == 0 then 0 else StartLine(items, gap, i - 1) + Height(items[i - 1].view) + gap
  }

  /** Every cached item of the list has the start line it has in the full buffer. */
  predicate PositionsExact(items: seq<Item>, gap: nat, cache: map<string, RenderedItem>)
  {
    forall i {:trigger cache[items[i].id]} | 0 <= i < |items| && items[i].id in cache :: cache[items[i].id].start == StartLine(items, gap, i)
  }

  lemma {:induction false} SegmentSplit(items: seq<Item>, gap: nat, lo: int, mid: int, hi: int)
    requires 0 <= lo <= mid <= hi <= |items|
    ensures Segment(items, gap, lo, hi) == Segment(items, gap, lo, mid) + Segment(items, gap, mid, hi)
    decreases hi - mid
  {
    if mid < hi {
      SegmentSplit(items, gap, lo, mid, hi - 1);
    }
  }

  /** Before any item that is not the last, the buffer holds exactly
      `StartLine(i)` newlines: item `i` begins on that line. */
  lemma {:induction false} SegmentNewlines(items: seq<Item>, gap: nat, i: int)
    requires 0 <= i < |items|
    ensures CountNewlines(Segment(items, gap, 0, i)) == StartLine(items, gap, i)
  {
    if i > 0 {
      SegmentNewlines(items, gap, i - 1);
      var f := FragmentOf(items, gap, i - 1);
      CountNewlinesAppend(Segment(items, gap, 0, i - 1), FragmentText(f));
      CountNewlinesAppend(f.view, Newlines(f.gap));
      NewlinesCount(f.gap);
    }
  }

  lemma {:induction false} NewlinesCount(k: nat)
    ensures CountNewlines(Newlines(k)) == k
  {
    if k > 0 {
      NewlinesCount(k - 1);
      assert Newlines(k) == Newlines(k - 1) + "\n";
      CountNewlinesAppend(Newlines(k - 1), "\n");
    }
  }

  /** The height of the full buffer is one past the last line of the last item. */
  lemma LayoutHeight(items: seq<Item>, gap: nat)
    requires |items| > 0
    ensures Height(Layout(items, gap)) == StartLine(items, gap, |items| - 1) + Height(items[|items| - 1].view)
  {
    var n := |items|;
    SegmentNewlines(items, gap, n - 1);
    assert FragmentText(FragmentOf(items, gap, n - 1)) == items[n - 1].view;
    CountNewlinesAppend(Segment(items, gap, 0, n - 1), items[n - 1].view);
  }

  /** Item `i`'s view sits in the full buffer right after `StartLine(i)`
      newlines, at the beginning of a line, followed by its gap and the rest. */
  lemma ItemPlacement(items: seq<Item>, gap: nat, i: int)
    requires 0 <= i < |items|
    ensures var before := Segment(items, gap, 0, i);
      && Layout(items, gap) == before + items[i].view + Newlines(GapAfter(|items|, gap, i)) + Segment(items, gap, i + 1, |items|)
      && CountNewlines(before) == StartLine(items, gap, i)
      && (i > 0 ==> before[|before| - 1] == '\n')
  {
    var before := Segment(items, gap, 0, i);
    var f := FragmentOf(items, gap, i);
    SegmentSplit(items, gap, 0, i + 1, |items|);
    assert Segment(items, gap, 0, i + 1) == before + FragmentText(f);
    SegmentNewlines(items, gap, i);
    if i > 0 {
      var g := FragmentOf(items, gap, i - 1);
      assert before == Segment(items, gap, 0, i - 1) + FragmentText(g);
      assert g.gap > 0;
      assert FragmentText(g)[|FragmentText(g)| - 1] == '\n';
    }
  }

  // ---------------------------------------------------------------------
  // The render pass
  // ---------------------------------------------------------------------

  /** The item visited at step `i` of a render pass. */
  function IterIndex(n: int, dir: Direction, i: int): (inx: int)
    requires 0 <= i < n
    ensures 0 <= inx < n
  {
    if dir == Forward then i else (n - 1) - i
  }

  /** The entry a render pass starting at `startInx` uses at step `i`: the
      cached one, or a fresh one placed at the accumulated height. */
  function EntryAt(items: seq<Item>, gap: nat, dir: Direction, cache: map<string, RenderedItem>,
                   startInx: int, base: int, i: int): RenderedItem
    requires 0 <= startInx <= i < |items|
    decreases i, 1
  {
    var it := items[IterIndex(|items|, dir, i)];
    if it.id in cache then cache[it.id]
    else
      var a := HeightBefore(items, gap, dir, cache, startInx, base, i);
      RenderedItem(it.view, Height(it.view), a, a + Height(it.view) - 1)
  }

  /** The accumulated content height before step `i`. */
  function HeightBefore(items: seq<Item>, gap: nat, dir: Direction, cache: map<string, RenderedItem>,
                        startInx: int, base: int, i: int): int
    requires 0 <= startInx <= i <= |items|
    decreases i, 0
  {
    if i == startInx then base else EntryAt(items, gap, dir, cache, startInx, base, i - 1).end + 1 + gap
  }

  /** The step at which a render pass stops: the first step from `i` whose
      accumulated height has reached `height` when the height is limited,
      otherwise the number of items. */
  function FinalIndexFrom(items: seq<Item>, gap: nat, dir: Direction, cache: map<string, RenderedItem>,
                          startInx: int, base: int, limitHeight: bool, height: int, i: int): (r: int)
    requires 0 <= startInx <= i <= |items|
    decreases |items| - i
    ensures i <= r <= |items|
  {
    if i == |items| then |items|
    else if limitHeight && HeightBefore(items, gap, dir, cache, startInx, base, i) >= height then i
    else FinalIndexFrom(items, gap, dir, cache, startInx, base, limitHeight, height, i + 1)
  }

  /** A pass without a height limit visits every step; with one, it stops at
      the first step from `i` whose accumulated height has reached the
      viewport, and at no step before. */
  lemma {:induction false} FinalIndexStops(items: seq<Item>, gap: nat, dir: Direction, cache: map<string, RenderedItem>,
                                           startInx: int, base: int, limitHeight: bool, height: int, i: int)
    requires 0 <= startInx <= i <= |items|
    ensures var r := FinalIndexFrom(items, gap, dir, cache, startInx, base, limitHeight, height, i);
      && (!limitHeight ==> r == |items|)
      && (forall j | i <= j < r :: !(limitHeight && HeightBefore(items, gap, dir, cache, startInx, base, j) >= height))
      && (r < |items| ==> limitHeight && HeightBefore(items, gap, dir, cache, startInx, base, r) >= height)
    decreases |items| - i
  {
    if i < |items| && !(limitHeight && HeightBefore(items, gap, dir, cache, startInx, base, i) >= height) {
      FinalIndexStops(items, gap, dir, cache, startInx, base, limitHeight, height, i + 1);
    }
  }

  /** The ids a render pass visits in steps lo .. hi-1. */
  function VisitedIds(items: seq<Item>, dir: Direction, lo: int, hi: int): set<string>
    requires 0 <= lo <= hi <= |items|
    decreases hi
  {
    if hi == lo then {} else VisitedIds(items, dir, lo, hi - 1) + {items[IterIndex(|items|, dir, hi - 1)].id}
  }

  /** An id is visited in steps lo .. hi-1 exactly when it is the id of the
      item at one of those steps. */
  lemma {:induction false} VisitedIdsMember(items: seq<Item>, dir: Direction, lo: int, hi: int, id: string)
    requires 0 <= lo <= hi <= |items|
    ensures id in VisitedIds(items, dir, lo, hi) <==> exists j | lo <= j < hi :: items[IterIndex(|items|, dir, j)].id == id
  {
    if hi > lo {
      VisitedIdsMember(items, dir, lo, hi - 1, id);
    }
  }

  /** A pass over all steps visits every item. */
  lemma VisitedAll(items: seq<Item>, dir: Direction)
    ensures forall i | 0 <= i < |items| :: items[i].id in VisitedIds(items, dir, 0, |items|)
  {
    forall i | 0 <= i < |items| ensures items[i].id in VisitedIds(items, dir, 0, |items|) {
      var j := IterIndex(|items|, dir, i);
      assert IterIndex(|items|, dir, j) == i;
      VisitedIdsMember(items, dir, 0, |items|, items[i].id);
    }
  }

  /** Within one pass, the item at step `i` has not been visited before. */
  lemma StepNotVisited(items: seq<Item>, dir: Direction, startInx: int, i: int)
    requires UniqueIds(items)
    requires 0 <= startInx <= i < |items|
    ensures items[IterIndex(|items|, dir, i)].id !in VisitedIds(items, dir, startInx, i)
  {
    var n := |items|;
    forall j | startInx <= j < i
      ensures items[IterIndex(n, dir, j)].id != items[IterIndex(n, dir, i)].id
    {
      assert IterIndex(n, dir, j) != IterIndex(n, dir, i);
    }
    VisitedIdsMember(items, dir, startInx, i, items[IterIndex(n, dir, i)].id);
  }

  /** The render cache after steps startInx .. i-1 of a pass: each visited
      item without an entry gets the fresh one `EntryAt` describes. */
  function PassCache(items: seq<Item>, gap: nat, dir: Direction, cache: map<string, RenderedItem>,
                     startInx: int, base: int, i: int): map<string, RenderedItem>
    requires 0 <= startInx <= i <= |items|
    decreases i
  {
    if i == startInx then cache
    else
      var m := PassCache(items, gap, dir, cache, startInx, base, i - 1);
      var id := items[IterIndex(|items|, dir, i - 1)].id;
      if id in cache then m else m[id := EntryAt(items, gap, dir, cache, startInx, base, i - 1)]
  }

  /** A pass adds exactly the ids it visits to the cache. */
  lemma {:induction false} PassCacheKeys(items: seq<Item>, gap: nat, dir: Direction, cache: map<string, RenderedItem>,
                                         startInx: int, base: int, i: int)
    requires 0 <= startInx <= i <= |items|
    ensures PassCache(items, gap, dir, cache, startInx, base, i).Keys == cache.Keys + VisitedIds(items, dir, startInx, i)
  {
    if i > startInx {
      PassCacheKeys(items, gap, dir, cache, startInx, base, i - 1);
    }
  }

  /** A pass never changes an entry that was already cached. */
  lemma {:induction false} PassCacheKeeps(items: seq<Item>, gap: nat, dir: Direction, cache: map<string, RenderedItem>,
                                          startInx: int, base: int, i: int, id: string)
    requires 0 <= startInx <= i <= |items|
    requires id in cache
    ensures id in PassCache(items, gap, dir, cache, startInx, base, i)
    ensures PassCache(items, gap, dir, cache, startInx, base, i)[id] == cache[id]
  {
    if i > startInx {
      PassCacheKeeps(items, gap, dir, cache, startInx, base, i - 1, id);
    }
  }

  /** After a pass, each visited item's entry is the one used at its step. */
  lemma {:induction false} PassCacheAt(items: seq<Item>, gap: nat, dir: Direction, cache: map<string, RenderedItem>,
                                       startInx: int, base: int, i: int, j: int)
    requires UniqueIds(items)
    requires 0 <= startInx <= j < i <= |items|
    ensures items[IterIndex(|items|, dir, j)].id in PassCache(items, gap, dir, cache, startInx, base, i)
    ensures PassCache(items, gap, dir, cache, startInx, base, i)[items[IterIndex(|items|, dir, j)].id]
      == EntryAt(items, gap, dir, cache, startInx, base, j)
  {
    var id := items[IterIndex(|items|, dir, j)].id;
    if j == i - 1 {
      if id in cache {
        PassCacheKeeps(items, gap, dir, cache, startInx, base, i - 1, id);
      }
    } else {
      PassCacheAt(items, gap, dir, cache, startInx, base, i - 1, j);
      assert IterIndex(|items|, dir, j) != IterIndex(|items|, dir, i - 1);
    }
  }

  /** One step of a pass: the item at step `i` is cached before the step
      exactly when it was cached before the pass, with the same entry. */
  lemma PassCacheStep(items: seq<Item>, gap: nat, dir: Direction, cache: map<string, RenderedItem>,
                      startInx: int, base: int, i: int)
    requires UniqueIds(items)
    requires 0 <= startInx <= i < |items|
    ensures var id := items[IterIndex(|items|, dir, i)].id;
      && (id in PassCache(items, gap, dir, cache, startInx, base, i) <==> id in cache)
      && (id in cache ==> PassCache(items, gap, dir, cache, startInx, base, i)[id] == cache[id])
    ensures var inx := IterIndex(|items|, dir, i);
      var e := EntryAt(items, gap, dir, cache, startInx, base, i);
      && PassCache(items, gap, dir, cache, startInx, base, i + 1)
         == (if items[inx].id in cache then PassCache(items, gap, dir, cache, startInx, base, i)
             else PassCache(items, gap, dir, cache, startInx, base, i)[items[inx].id := e])
      && PassFragments(items, gap, dir, cache, startInx, base, i + 1)
         == PassFragments(items, gap, dir, cache, startInx, base, i) + [RenderFragment(e.view, GapAfter(|items|, gap, inx))]
      && HeightBefore(items, gap, dir, cache, startInx, base, i + 1) == e.end + 1 + gap
  {
    var id := items[IterIndex(|items|, dir, i)].id;
    PassCacheKeys(items, gap, dir, cache, startInx, base, i);
    StepNotVisited(items, dir, startInx, i);
    if id in cache {
      PassCacheKeeps(items, gap, dir, cache, startInx, base, i, id);
    }
  }

  /** Entries that fit their views, from a first line that is not negative,
      keep the accumulated height non-negative. */
  lemma {:induction false} HeightBeforeNonneg(items: seq<Item>, indexMap: map<string, int>, gap: nat, dir: Direction,
                                              cache: map<string, RenderedItem>, startInx: int, base: int, i: int)
    requires CacheConsistent(items, indexMap, cache)
    requires 0 <= startInx <= i <= |items| && base >= 0
    ensures HeightBefore(items, gap, dir, cache, startInx, base, i) >= 0
  {
    if i > startInx {
      HeightBeforeNonneg(items, indexMap, gap, dir, cache, startInx, base, i - 1);
    }
  }

  /** The entry used at a step shows the view of the item visited there. */
  lemma EntryAtView(items: seq<Item>, indexMap: map<string, int>, gap: nat, dir: Direction,
                    cache: map<string, RenderedItem>, startInx: int, base: int, i: int)
    requires IndexConsistent(items, indexMap) && CacheConsistent(items, indexMap, cache)
    requires 0 <= startInx <= i < |items|
    ensures EntryAt(items, gap, dir, cache, startInx, base, i).view == items[IterIndex(|items|, dir, i)].view
  {
    var inx := IterIndex(|items|, dir, i);
    assert items[inx].id in indexMap && indexMap[items[inx].id] == inx;
  }

  /** A pass keeps the cache consistent with the items. */
  lemma {:induction false} PassCacheConsistent(items: seq<Item>, indexMap: map<string, int>, gap: nat, dir: Direction,
                                               cache: map<string, RenderedItem>, startInx: int, base: int, i: int)
    requires IndexConsistent(items, indexMap) && CacheConsistent(items, indexMap, cache)
    requires 0 <= startInx <= i <= |items| && base >= 0
    ensures CacheConsistent(items, indexMap, PassCache(items, gap, dir, cache, startInx, base, i))
  {
    if i > startInx {
      PassCacheConsistent(items, indexMap, gap, dir, cache, startInx, base, i - 1);
      var inx := IterIndex(|items|, dir, i - 1);
      var id := items[inx].id;
      if id !in cache {
        HeightBeforeNonneg(items, indexMap, gap, dir, cache, startInx, base, i - 1);
        assert indexMap[id] == inx;
        CacheInsert(items, indexMap, PassCache(items, gap, dir, cache, startInx, base, i - 1), id,
                    EntryAt(items, gap, dir, cache, startInx, base, i - 1));
      }
    }
  }

  /** The fragments a pass collects in steps startInx .. i-1: the view of the
      entry used at each step and the gap after the item visited there. */
  function PassFragments(items: seq<Item>, gap: nat, dir: Direction, cache: map<string, RenderedItem>,
                         startInx: int, base: int, i: int): (fs: seq<RenderFragment>)
    requires 0 <= startInx <= i <= |items|
    ensures |fs| == i - startInx
    decreases i
  {
    if i == startInx then []
    else
      var inx := IterIndex(|items|, dir, i - 1);
      PassFragments(items, gap, dir, cache, startInx, base, i - 1)
        + [RenderFragment(EntryAt(items, gap, dir, cache, startInx, base, i - 1).view, GapAfter(|items|, gap, inx))]
  }

  /** With a consistent cache, the fragments a pass collects are those of
      the items it visits. */
  lemma {:induction false} PassFragmentsOf(items: seq<Item>, indexMap: map<string, int>, gap: nat, dir: Direction,
                                           cache: map<string, RenderedItem>, startInx: int, base: int, i: int)
    requires IndexConsistent(items, indexMap) && CacheConsistent(items, indexMap, cache)
    requires 0 <= startInx <= i <= |items|
    ensures forall k | 0 <= k < i - startInx ::
      PassFragments(items, gap, dir, cache, startInx, base, i)[k] == FragmentOf(items, gap, IterIndex(|items|, dir, startInx + k))
  {
    if i > startInx {
      PassFragmentsOf(items, indexMap, gap, dir, cache, startInx, base, i - 1);
      EntryAtView(items, indexMap, gap, dir, cache, startInx, base, i - 1);
      var fs := PassFragments(items, gap, dir, cache, startInx, base, i);
      var fs' := PassFragments(items, gap, dir, cache, startInx, base, i - 1);
      forall k | 0 <= k < |fs| ensures fs[k] == FragmentOf(items, gap, IterIndex(|items|, dir, startInx + k)) {
        if k < |fs'| {
          assert fs[k] == fs'[k];
        } else {
          assert startInx + k == i - 1;
          assert fs[k] == RenderFragment(EntryAt(items, gap, dir, cache, startInx, base, i - 1).view,
                                         GapAfter(|items|, gap, IterIndex(|items|, dir, i - 1)));
        }
      }
    }
  }

  /** The fragments in the order they were collected, each followed by its gap. */
  function ConcatFragments(fs: seq<RenderFragment>): string
  {
    if |fs| == 0 then "" else ConcatFragments(fs[..|fs| - 1]) + FragmentText(fs[|fs| - 1])
  }

  /** The fragments from the last collected to the first. */
  function ConcatReversed(fs: seq<RenderFragment>): string
  {
    if |fs| == 0 then "" else ConcatReversed(fs[1..]) + FragmentText(fs[0])
  }

  /** Fragments of consecutive items, in item order, make up their segment. */
  lemma {:induction false} ConcatIsSegment(items: seq<Item>, gap: nat, fs: seq<RenderFragment>, lo: int, hi: int)
    requires 0 <= lo <= hi <= |items| && |fs| == hi - lo
    requires forall k | 0 <= k < |fs| :: fs[k] == FragmentOf(items, gap, lo + k)
    ensures ConcatFragments(fs) == Segment(items, gap, lo, hi)
  {
    if lo < hi {
      var init := fs[..|fs| - 1];
      assert forall k | 0 <= k < |init| :: init[k] == fs[k];
      ConcatIsSegment(items, gap, init, lo, hi - 1);
      assert fs[|fs| - 1] == FragmentOf(items, gap, hi - 1);
    }
  }

  /** Fragments of consecutive items collected from the last one back,
      concatenated in reverse, make up their segment. */
  lemma {:induction false} ConcatReversedIsSegment(items: seq<Item>, gap: nat, fs: seq<RenderFragment>, lo: int, hi: int)
    requires 0 <= lo <= hi <= |items| && |fs| == hi - lo
    requires forall k | 0 <= k < |fs| :: fs[k] == FragmentOf(items, gap, hi - 1 - k)
    ensures ConcatReversed(fs) == Segment(items, gap, lo, hi)
  {
    if lo < hi {
      var rest := fs[1..];
      assert forall k | 0 <= k < |rest| :: rest[k] == fs[k + 1];
      ConcatReversedIsSegment(items, gap, rest, lo, hi - 1);
      assert fs[0] == FragmentOf(items, gap, hi - 1);
    }
  }

  /** The fragments of a pass, joined in the direction's order, are the
      text of the items the pass visited, in item order. */
  lemma PassFragmentsJoin(items: seq<Item>, indexMap: map<string, int>, gap: nat, dir: Direction,
                          cache: map<string, RenderedItem>, startInx: int, base: int, i: int)
    requires IndexConsistent(items, indexMap) && CacheConsistent(items, indexMap, cache)
    requires 0 <= startInx <= i <= |items|
    ensures dir == Forward ==> ConcatFragments(PassFragments(items, gap, dir, cache, startInx, base, i)) == Segment(items, gap, startInx, i)
    ensures dir == Backward ==> ConcatReversed(PassFragments(items, gap, dir, cache, startInx, base, i)) == Segment(items, gap, |items| - i, |items| - startInx)
  {
    var fs := PassFragments(items, gap, dir, cache, startInx, base, i);
    PassFragmentsOf(items, indexMap, gap, dir, cache, startInx, base, i);
    if dir == Forward {
      ConcatIsSegment(items, gap, fs, startInx, i);
    } else {
      ConcatReversedIsSegment(items, gap, fs, |items| - i, |items| - startInx);
    }
  }

  /** Going forward from an item's true start line over a cache whose entries
      sit at their true lines, the pass places every item on its true line. */
  lemma {:induction false} ForwardPassExact(items: seq<Item>, gap: nat, cache: map<string, RenderedItem>,
                                            startInx: int, i: int)
    requires 0 <= startInx <= i < |items|
    requires forall j | startInx <= j < |items| && items[j].id in cache ::
      EntryFits(cache[items[j].id], items[j].view) && cache[items[j].id].start == StartLine(items, gap, j)
    ensures HeightBefore(items, gap, Forward, cache, startInx, StartLine(items, gap, startInx), i) == StartLine(items, gap, i)
    ensures EntryAt(items, gap, Forward, cache, startInx, StartLine(items, gap, startInx), i).start == StartLine(items, gap, i)
    ensures EntryAt(items, gap, Forward, cache, startInx, StartLine(items, gap, startInx), i).end == StartLine(items, gap, i + 1) - gap - 1
  {
    if i > startInx {
      ForwardPassExact(items, gap, cache, startInx, i - 1);
    }
  }

  // ---------------------------------------------------------------------
  // Recomputing positions
  // ---------------------------------------------------------------------

  /** The start line `recalculateItemPositionsFrom(k)` gives item `i`:
      items without a cache entry are skipped and take no space. */
  function RecalcStart(items: seq<Item>, gap: nat, cache: map<string, RenderedItem>, k: int, i: int): int
    requires 0 <= k <= i <= |items|
    decreases i
  {
    if i == k then
      (if k > 0 && items[k - 1].id in cache then cache[items[k - 1].id].end + 1 + gap else 0)
    else
      var id := items[i - 1].id;
      if id in cache then RecalcStart(items, gap, cache, k, i - 1) + cache[id].height + gap
      else RecalcStart(items, gap, cache, k, i - 1)
  }

  /** An entry moved so that it starts on line `s`. */
  function Placed(e: RenderedItem, s: int): RenderedItem
  {
    e.(start := s, end := s + e.height - 1)
  }

  /** The cache after `recalculateItemPositionsFrom(k)` has handled items
      k .. i-1. */
  function Recalculated(items: seq<Item>, gap: nat, cache: map<string, RenderedItem>, k: int, i: int): map<string, RenderedItem>
    requires 0 <= k <= i <= |items|
    decreases i
  {
    if i == k then cache
    else
      var m := Recalculated(items, gap, cache, k, i - 1);
      var id := items[i - 1].id;
      if id in cache then m[id := Placed(cache[id], RecalcStart(items, gap, cache, k, i - 1))] else m
  }

  lemma {:induction false} RecalculatedKeys(items: seq<Item>, gap: nat, cache: map<string, RenderedItem>, k: int, i: int)
    requires 0 <= k <= i <= |items|
    ensures Recalculated(items, gap, cache, k, i).Keys == cache.Keys
  {
    if i > k {
      RecalculatedKeys(items, gap, cache, k, i - 1);
    }
  }

  /** Recalculation moves exactly the cached items from `k` on, each to its
      `RecalcStart` line, and leaves every other entry as it was. */
  lemma {:induction false} RecalculatedAt(items: seq<Item>, gap: nat, cache: map<string, RenderedItem>, k: int, i: int, j: int)
    requires UniqueIds(items)
    requires 0 <= k <= i <= |items| && 0 <= j < |items| && items[j].id in cache
    ensures items[j].id in Recalculated(items, gap, cache, k, i)
    ensures Recalculated(items, gap, cache, k, i)[items[j].id]
      == if k <= j < i then Placed(cache[items[j].id], RecalcStart(items, gap, cache, k, j)) else cache[items[j].id]
  {
    if i > k {
      RecalculatedAt(items, gap, cache, k, i - 1, j);
      if j != i - 1 {
        assert items[j].id != items[i - 1].id;
      }
    }
  }

  /** One step of the recalculation loop: the entry of item `i` is still
      the original one, and placing it at `cur` extends the map by item `i`. */
  lemma RecalculatedStep(items: seq<Item>, gap: nat, cache: map<string, RenderedItem>, k: int, i: int, cur: int)
    requires UniqueIds(items)
    requires 0 <= k <= i < |items|
    requires cur == RecalcStart(items, gap, cache, k, i)
    ensures items[i].id in Recalculated(items, gap, cache, k, i) <==> items[i].id in cache
    ensures items[i].id in cache ==>
      var e := Recalculated(items, gap, cache, k, i)[items[i].id];
      && e == cache[items[i].id]
      && Recalculated(items, gap, cache, k, i)[items[i].id := e.(start := cur, end := cur + e.height - 1)]
         == Recalculated(items, gap, cache, k, i + 1)
      && cur + e.height - 1 + 1 + gap == RecalcStart(items, gap, cache, k, i + 1)
    ensures items[i].id !in cache ==>
      && Recalculated(items, gap, cache, k, i) == Recalculated(items, gap, cache, k, i + 1)
      && cur == RecalcStart(items, gap, cache, k, i + 1)
  {
    RecalculatedKeys(items, gap, cache, k, i);
    if items[i].id in cache {
      RecalculatedAt(items, gap, cache, k, i, i);
    }
  }

  /** Recalculated positions never go above the first line. */
  lemma {:induction false} RecalcStartNonneg(items: seq<Item>, gap: nat, cache: map<string, RenderedItem>, k: int, i: int)
    requires 0 <= k <= i <= |items|
    requires forall id | id in cache :: cache[id].height >= 1 && cache[id].start >= 0 && cache[id].end == cache[id].start + cache[id].height - 1
    ensures RecalcStart(items, gap, cache, k, i) >= 0
  {
    if i > k {
      RecalcStartNonneg(items, gap, cache, k, i - 1);
    }
  }

  /** Recalculation keeps the cache consistent with the items. */
  lemma {:induction false} RecalculatedConsistent(items: seq<Item>, indexMap: map<string, int>, gap: nat,
                                                  cache: map<string, RenderedItem>, k: int, i: int)
    requires IndexConsistent(items, indexMap) && CacheConsistent(items, indexMap, cache)
    requires 0 <= k <= i <= |items|
    ensures CacheConsistent(items, indexMap, Recalculated(items, gap, cache, k, i))
  {
    if i > k {
      RecalculatedConsistent(items, indexMap, gap, cache, k, i - 1);
      var id := items[i - 1].id;
      if id in cache {
        RecalcStartNonneg(items, gap, cache, k, i - 1);
        CacheInsert(items, indexMap, Recalculated(items, gap, cache, k, i - 1), id,
                    Placed(cache[id], RecalcStart(items, gap, cache, k, i - 1)));
      }
    }
  }

  /** With every item cached at its own height, recomputing from the top puts
      each item on its line of the full buffer. */
  lemma {:induction false} RecalcFromTopExact(items: seq<Item>, gap: nat, cache: map<string, RenderedItem>, i: int)
    requires 0 <= i <= |items|
    requires forall j | 0 <= j < |items| :: items[j].id in cache && cache[items[j].id].height == Height(items[j].view)
    ensures RecalcStart(items, gap, cache, 0, i) == StartLine(items, gap, i)
  {
    if i > 0 {
      RecalcFromTopExact(items, gap, cache, i - 1);
    }
  }

  /** Every item of the list has a cache entry. */
  predicate AllItemsCached(items: seq<Item>, cache: map<string, RenderedItem>)
  {
    forall i | 0 <= i < |items| :: items[i].id in cache
  }

  /** Recomputing from the top over a complete, consistent cache puts every
      item on the line it starts on in the full buffer. */
  lemma RecalculatedPositionsExact(items: seq<Item>, indexMap: map<string, int>, gap: nat, cache: map<string, RenderedItem>)
    requires IndexConsistent(items, indexMap) && CacheConsistent(items, indexMap, cache)
    requires AllItemsCached(items, cache)
    ensures AllItemsCached(items, Recalculated(items, gap, cache, 0, |items|))
    ensures PositionsExact(items, gap, Recalculated(items, gap, cache, 0, |items|))
  {
    IndexConsistentUnique(items, indexMap);
    forall j | 0 <= j < |items|
      ensures items[j].id in cache && cache[items[j].id].height == Height(items[j].view)
    {
      assert indexMap[items[j].id] == j;
    }
    forall i | 0 <= i < |items|
      ensures items[i].id in Recalculated(items, gap, cache, 0, |items|)
      ensures Recalculated(items, gap, cache, 0, |items|)[items[i].id].start == StartLine(items, gap, i)
    {
      RecalculatedAt(items, gap, cache, 0, |items|, i);
      RecalcFromTopExact(items, gap, cache, i);
    }
  }

  /** A complete, consistent cache holds exactly the ids of the list. */
  lemma CompleteCacheKeys(items: seq<Item>, indexMap: map<string, int>, cache: map<string, RenderedItem>)
    requires IndexConsistent(items, indexMap) && CacheConsistent(items, indexMap, cache)
    requires AllItemsCached(items, cache)
    ensures cache.Keys == indexMap.Keys
  {
    forall id | id in indexMap ensures id in cache {
      assert items[indexMap[id]].id == id;
    }
  }

  /** A pass over steps 0 .. fi-1 followed by one over fi .. n-1 visits every item. */
  lemma PassesCoverAll(items: seq<Item>, dir: Direction, fi: int)
    requires 0 <= fi <= |items|
    ensures forall i | 0 <= i < |items| ::
      items[i].id in VisitedIds(items, dir, 0, fi) || items[i].id in VisitedIds(items, dir, fi, |items|)
  {
    forall i | 0 <= i < |items|
      ensures items[i].id in VisitedIds(items, dir, 0, fi) || items[i].id in VisitedIds(items, dir, fi, |items|)
    {
      var j := IterIndex(|items|, dir, i);
      assert IterIndex(|items|, dir, j) == i;
      if j < fi {
        VisitedIdsMember(items, dir, 0, fi, items[i].id);
      } else {
        VisitedIdsMember(items, dir, fi, |items|, items[i].id);
      }
    }
  }

  /** A forward pass from an item's true start line, over a consistent cache
      whose entries sit on their true lines, leaves every entry on its true
      line. */
  lemma PassPositionsExact(items: seq<Item>, indexMap: map<string, int>, gap: nat, cache: map<string, RenderedItem>,
                           startInx: int, i: int)
    requires IndexConsistent(items, indexMap) && CacheConsistent(items, indexMap, cache)
    requires PositionsExact(items, gap, cache)
    requires 0 <= startInx <= i <= |items|
    ensures PositionsExact(items, gap, PassCache(items, gap, Forward, cache, startInx, StartLine(items, gap, startInx), i))
  {
    IndexConsistentUnique(items, indexMap);
    var base := StartLine(items, gap, startInx);
    var m := PassCache(items, gap, Forward, cache, startInx, base, i);
    forall j | startInx <= j < |items| && items[j].id in cache
      ensures EntryFits(cache[items[j].id], items[j].view) && cache[items[j].id].start == StartLine(items, gap, j)
    {
      assert indexMap[items[j].id] == j;
    }
    forall j | 0 <= j < |items| && items[j].id in m
      ensures m[items[j].id].start == StartLine(items, gap, j)
    {
      var id := items[j].id;
      if id in cache {
        PassCacheKeeps(items, gap, Forward, cache, startInx, base, i, id);
      } else {
        PassCacheKeys(items, gap, Forward, cache, startInx, base, i);
        VisitedIdsMember(items, Forward, startInx, i, id);
        var k :| startInx <= k < i && items[IterIndex(|items|, Forward, k)].id == id;
        assert k == j;
        PassCacheAt(items, gap, Forward, cache, startInx, base, i, j);
        ForwardPassExact(items, gap, cache, startInx, j);
      }
    }
  }

  // ---------------------------------------------------------------------
  // Whole renders
  // ---------------------------------------------------------------------

  /** The buffer a pass over steps startInx .. fi-1 produces after `prev`:
      going forward the items follow it, going backward they precede it. */
  function PassText(items: seq<Item>, gap: nat, dir: Direction, startInx: int, fi: int, prev: string): string
    requires 0 <= startInx <= fi <= |items|
  {
    if dir == Forward then prev + Segment(items, gap, startInx, fi)
    else Segment(items, gap, |items| - fi, |items| - startInx) + prev
  }

  /** The cache after one render pass from step `startInx`: the pass's own
      cache, recomputed from the top when going backward. */
  function PassResult(items: seq<Item>, gap: nat, dir: Direction, cache: map<string, RenderedItem>,
                      startInx: int, base: int, limitHeight: bool, height: int): map<string, RenderedItem>
    requires 0 <= startInx <= |items|
  {
    var c := PassCache(items, gap, dir, cache, startInx, base,
                       FinalIndexFrom(items, gap, dir, cache, startInx, base, limitHeight, height, startInx));
    if dir == Forward then c else Recalculated(items, gap, c, 0, |items|)
  }

  /** One render pass keeps the cache consistent and adds exactly the
      visited ids; without a height limit it visits every step. Going
      backward a complete cache ends exact; going forward from an item's
      true start line, an exact cache stays exact. */
  lemma PassResultFacts(items: seq<Item>, indexMap: map<string, int>, gap: nat, dir: Direction,
                        cache: map<string, RenderedItem>, startInx: int, base: int, limitHeight: bool, height: int)
    requires IndexConsistent(items, indexMap) && CacheConsistent(items, indexMap, cache)
    requires 0 <= startInx <= |items| && base >= 0
    ensures var fi := FinalIndexFrom(items, gap, dir, cache, startInx, base, limitHeight, height, startInx);
      var r := PassResult(items, gap, dir, cache, startInx, base, limitHeight, height);
      && (!limitHeight ==> fi == |items|)
      && CacheConsistent(items, indexMap, r)
      && r.Keys == cache.Keys + VisitedIds(items, dir, startInx, fi)
      && (dir == Backward && AllItemsCached(items, r) ==> PositionsExact(items, gap, r))
      && (dir == Forward && PositionsExact(items, gap, cache) && (startInx == |items| || base == StartLine(items, gap, startInx))
          ==> PositionsExact(items, gap, r))
  {
    var fi := FinalIndexFrom(items, gap, dir, cache, startInx, base, limitHeight, height, startInx);
    var c := PassCache(items, gap, dir, cache, startInx, base, fi);
    FinalIndexStops(items, gap, dir, cache, startInx, base, limitHeight, height, startInx);
    PassCacheKeys(items, gap, dir, cache, startInx, base, fi);
    PassCacheConsistent(items, indexMap, gap, dir, cache, startInx, base, fi);
    if dir == Backward {
      RecalculatedKeys(items, gap, c, 0, |items|);
      RecalculatedConsistent(items, indexMap, gap, c, 0, |items|);
      if AllItemsCached(items, Recalculated(items, gap, c, 0, |items|)) {
        RecalculatedPositionsExact(items, indexMap, gap, c);
      }
    } else if PositionsExact(items, gap, cache) && startInx < |items| && base == StartLine(items, gap, startInx) {
      PassPositionsExact(items, indexMap, gap, cache, startInx, fi);
    }
  }

  /** Rendering into an existing buffer: one pass from the top without a
      height limit. Its text and its cache. */
  function FullRenderText(items: seq<Item>, gap: nat, dir: Direction, cache: map<string, RenderedItem>, height: int): string
  {
    PassText(items, gap, dir, 0, FinalIndexFrom(items, gap, dir, cache, 0, 0, false, height, 0), "")
  }

  function FullRenderCache(items: seq<Item>, gap: nat, dir: Direction, cache: map<string, RenderedItem>, height: int): map<string, RenderedItem>
  {
    PassResult(items, gap, dir, cache, 0, 0, false, height)
  }

  /** Rendering into an existing buffer produces the full buffer and caches
      every item; going backward every item ends on its true line, going
      forward an exact cache stays exact. */
  lemma FullPassRender(items: seq<Item>, indexMap: map<string, int>, gap: nat, dir: Direction,
                       cache: map<string, RenderedItem>, height: int)
    requires IndexConsistent(items, indexMap) && CacheConsistent(items, indexMap, cache)
    ensures FullRenderText(items, gap, dir, cache, height) == Layout(items, gap)
    ensures CacheConsistent(items, indexMap, FullRenderCache(items, gap, dir, cache, height))
    ensures AllItemsCached(items, FullRenderCache(items, gap, dir, cache, height))
    ensures dir == Backward ==> PositionsExact(items, gap, FullRenderCache(items, gap, dir, cache, height))
    ensures dir == Forward && PositionsExact(items, gap, cache) ==> PositionsExact(items, gap, FullRenderCache(items, gap, dir, cache, height))
  {
    PassResultFacts(items, indexMap, gap, dir, cache, 0, 0, false, height);
    VisitedAll(items, dir);
    if |items| > 0 {
      assert StartLine(items, gap, 0) == 0;
    }
    assert FullRenderText(items, gap, dir, cache, height) == Layout(items, gap) by {
      SegmentSplit(items, gap, 0, 0, |items|);
      assert "" + Segment(items, gap, 0, |items|) == Segment(items, gap, 0, |items|) + "";
    }
  }

  /** The first render of an empty buffer starts with a pass from the top
      limited to the viewport height: where it stops, its text, its cache. */
  function PrefixIndex(items: seq<Item>, gap: nat, dir: Direction, cache: map<string, RenderedItem>, height: int): (fi: int)
    ensures 0 <= fi <= |items|
  {
    FinalIndexFrom(items, gap, dir, cache, 0, 0, true, height, 0)
  }

  function PrefixText(items: seq<Item>, gap: nat, dir: Direction, cache: map<string, RenderedItem>, height: int): string
  {
    PassText(items, gap, dir, 0, PrefixIndex(items, gap, dir, cache, height), "")
  }

  function PrefixCache(items: seq<Item>, gap: nat, dir: Direction, cache: map<string, RenderedItem>, height: int): map<string, RenderedItem>
  {
    PassResult(items, gap, dir, cache, 0, 0, true, height)
  }

  /** The two passes of a first render, the second one without limit from
      where the first stopped and after the first one's text, produce the
      full buffer; going forward, the second starts on the true line of its
      first item. */
  lemma TwoPassText(items: seq<Item>, gap: nat, dir: Direction, cache: map<string, RenderedItem>, height: int,
                    fi: int, t1: string, c1: map<string, RenderedItem>)
    requires fi == PrefixIndex(items, gap, dir, cache, height) && t1 == PrefixText(items, gap, dir, cache, height)
    ensures PassText(items, gap, dir, fi, FinalIndexFrom(items, gap, dir, c1, fi, Height(t1) - 1, false, height, fi), t1)
            == Layout(items, gap)
    ensures dir == Forward && fi < |items| ==> Height(t1) - 1 == StartLine(items, gap, fi)
  {
    var n := |items|;
    FinalIndexStops(items, gap, dir, c1, fi, Height(t1) - 1, false, height, fi);
    if dir == Forward {
      assert t1 == Segment(items, gap, 0, fi);
      if fi < n {
        SegmentNewlines(items, gap, fi);
      }
      SegmentSplit(items, gap, 0, fi, n);
    } else {
      assert t1 == Segment(items, gap, n - fi, n);
      SegmentSplit(items, gap, 0, n - fi, n);
    }
  }

  /** The cache after the two passes of a first render is consistent and
      complete; going backward every item ends on its true line, going
      forward an exact cache stays exact. */
  lemma TwoPassCache(items: seq<Item>, indexMap: map<string, int>, gap: nat, dir: Direction,
                     cache: map<string, RenderedItem>, height: int, fi: int, t1: string, c1: map<string, RenderedItem>)
    requires IndexConsistent(items, indexMap) && CacheConsistent(items, indexMap, cache)
    requires fi == PrefixIndex(items, gap, dir, cache, height) && t1 == PrefixText(items, gap, dir, cache, height)
    requires c1 == PrefixCache(items, gap, dir, cache, height)
    ensures CacheConsistent(items, indexMap, PassResult(items, gap, dir, c1, fi, Height(t1) - 1, false, height))
    ensures AllItemsCached(items, PassResult(items, gap, dir, c1, fi, Height(t1) - 1, false, height))
    ensures dir == Backward ==> PositionsExact(items, gap, PassResult(items, gap, dir, c1, fi, Height(t1) - 1, false, height))
    ensures dir == Forward && PositionsExact(items, gap, cache) ==>
              PositionsExact(items, gap, PassResult(items, gap, dir, c1, fi, Height(t1) - 1, false, height))
  {
    var n := |items|;
    var base := Height(t1) - 1;
    var r := PassResult(items, gap, dir, c1, fi, base, false, height);
    PassResultFacts(items, indexMap, gap, dir, cache, 0, 0, true, height);
    PassResultFacts(items, indexMap, gap, dir, c1, fi, base, false, height);
    TwoPassText(items, gap, dir, cache, height, fi, t1, c1);
    assert r.Keys == cache.Keys + VisitedIds(items, dir, 0, fi) + VisitedIds(items, dir, fi, n);
    PassesCoverAll(items, dir, fi);
    assert AllItemsCached(items, r);
    if dir == Forward && PositionsExact(items, gap, cache) {
      if n > 0 {
        assert StartLine(items, gap, 0) == 0;
      }
      assert PositionsExact(items, gap, c1);
    }
  }

  // ---------------------------------------------------------------------
  // Focus search
  // ---------------------------------------------------------------------

  /** The first focusable index at or after `from`, or `ItemNotFound`. */
  function FirstFocusableFrom(items: seq<Item>, from: int): (r: int)
    requires 0 <= from
    decreases |items| - from
    ensures r == ItemNotFound || (from <= r < |items| && items[r].focusable)
    ensures forall j | from <= j < |items| && (r == ItemNotFound || j < r) :: !items[j].focusable
  {
    if from >= |items| then ItemNotFound
    else if items[from].focusable then from
    else FirstFocusableFrom(items, from + 1)
  }

  /** The last focusable index before `k`, or `ItemNotFound`. */
  function LastFocusableBefore(items: seq<Item>, k: int): (r: int)
    decreases k
    ensures r == ItemNotFound || (0 <= r < k && r < |items| && items[r].focusable)
    ensures forall j | r < j < k && 0 <= j < |items| :: !items[j].focusable
  {
    if k <= 0 then ItemNotFound
    else if k - 1 < |items| && items[k - 1].focusable then k - 1
    else LastFocusableBefore(items, k - 1)
  }

  /** `firstSelectableItemBelow`: the smallest focusable index above `inx`;
      from the last index with wrapping on, the search restarts at the top.
      (With wrapping on and no items, the source recurses forever.) */
  function FocusableBelow(items: seq<Item>, wrap: bool, inx: int): (r: int)
    requires !(wrap && |items| == 0 && inx == -1)
    decreases if inx == -1 then 0 else 1
    ensures r == ItemNotFound || (0 <= r < |items| && items[r].focusable)
    ensures r > inx ==> forall j | inx < j < r && 0 <= j :: !items[j].focusable
    ensures r <= inx ==> forall j | inx < j < |items| && 0 <= j :: !items[j].focusable
    ensures r != ItemNotFound && r <= inx ==> wrap && inx == |items| - 1 && forall j | 0 <= j < r :: !items[j].focusable
    ensures r == ItemNotFound && wrap && inx == |items| - 1 ==> forall j | 0 <= j < |items| :: !items[j].focusable
  {
    var r := FirstFocusableFrom(items, Max(inx + 1, 0));
    if r != ItemNotFound then r
    else if inx == |items| - 1 && wrap then FocusableBelow(items, wrap, -1)
    else ItemNotFound
  }

  /** `firstSelectableItemAbove`: the largest focusable index below `inx`;
      from index 0 with wrapping on, the search restarts at the bottom.
      (With wrapping on and no items, the source recurses forever.) */
  function FocusableAbove(items: seq<Item>, wrap: bool, inx: int): (r: int)
    requires !(wrap && |items| == 0 && inx == 0)
    decreases if inx == 0 then 1 else 0
    ensures r == ItemNotFound || (0 <= r < |items| && items[r].focusable)
    ensures 0 <= r < inx ==> forall j | r < j < inx && j < |items| :: !items[j].focusable
    ensures (r == ItemNotFound || r >= inx) ==> forall j | 0 <= j < inx && j < |items| :: !items[j].focusable
    ensures r != ItemNotFound && r >= inx ==> wrap && inx == 0 && forall j | r < j < |items| :: !items[j].focusable
    ensures r == ItemNotFound && wrap && inx == 0 ==> forall j | 0 <= j < |items| :: !items[j].focusable
  {
    var r := LastFocusableBefore(items, inx);
    if r != ItemNotFound then r
    else if inx == 0 && wrap then FocusableAbove(items, wrap, |items|)
    else ItemNotFound
  }

  /** The index `setDefaultSelected` picks: the first focusable item going
      forward, the last one going backward. */
  function DefaultIndex(items: seq<Item>, wrap: bool, dir: Direction): (r: int)
    requires |items| > 0 || !wrap
    ensures r == ItemNotFound <==> forall j | 0 <= j < |items| :: !items[j].focusable
    ensures r != ItemNotFound ==> 0 <= r < |items| && items[r].focusable
    ensures r != ItemNotFound && dir == Forward ==> forall j | 0 <= j < r :: !items[j].focusable
    ensures r != ItemNotFound && dir == Backward ==> forall j | r < j < |items| :: !items[j].focusable
  {
    if dir == Forward then FocusableBelow(items, wrap, -1) else FocusableAbove(items, wrap, |items|)
  }

  /** The id `setDefaultSelected` selects, or "" when nothing is focusable. */
  function DefaultSelection(items: seq<Item>, wrap: bool, dir: Direction): string
    requires |items| > 0 || !wrap
  {
    var i := DefaultIndex(items, wrap, dir);
    if i == ItemNotFound then "" else items[i].id
  }

  /** The selection after `setDefaultSelected`: kept unless it is empty. */
  function SelectionOrDefault(items: seq<Item>, wrap: bool, dir: Direction, sel: string): string
    requires |items| > 0 || !wrap
  {
    if sel == "" then DefaultSelection(items, wrap, dir) else sel
  }
}
