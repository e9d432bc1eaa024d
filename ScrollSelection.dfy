/**
 * `changeSelectionWhenScrolling`: after the view scrolled, a selected item
 * that left the view is replaced by the nearest focusable item that shows
 * in it, searching away from the side on which the selection left.
 */
module ScrollSelection {
  import opened Text
  import opened Viewport
  import opened Layout
  import opened Navigation

  /** Searching downward, an entry qualifies when it covers the view or its
      first line is in view. */
  predicate QualifiesBelow(e: RenderedItem, start: int, end: int)
  {
    CoversView(e.start, e.end, start, end) || (e.start >= start && e.start <= end)
  }

  /** Searching upward, an entry qualifies when it covers the view or its
      last line is in view. */
  predicate QualifiesAbove(e: RenderedItem, start: int, end: int)
  {
    CoversView(e.start, e.end, start, end) || (e.end >= start && e.end <= end)
  }

  /** The middle line of an entry, `start + height/2` with Go's division,
      which truncates toward zero. */
  function Middle(e: RenderedItem): int
  {
    e.start + (if e.height >= 0 then e.height / 2 else -((-e.height) / 2))
  }

  /** Item `i` is focusable, cached, and its entry qualifies downward. */
  predicate CandidateBelow(items: seq<Item>, cache: map<string, RenderedItem>, start: int, end: int, i: int)
  {
    0 <= i < |items| && items[i].focusable && items[i].id in cache && QualifiesBelow(cache[items[i].id], start, end)
  }

  /** Item `i` is focusable, cached, and its entry qualifies upward. */
  predicate CandidateAbove(items: seq<Item>, cache: map<string, RenderedItem>, start: int, end: int, i: int)
  {
    0 <= i < |items| && items[i].focusable && items[i].id in cache && QualifiesAbove(cache[items[i].id], start, end)
  }

  /** The first downward candidate at or after index `from`, or `ItemNotFound`. */
  function FirstCandidateFrom(items: seq<Item>, cache: map<string, RenderedItem>, start: int, end: int, from: int): (r: int)
    requires 0 <= from
    decreases |items| - from
    ensures r == ItemNotFound || from <= r < |items|
    ensures r != ItemNotFound ==> CandidateBelow(items, cache, start, end, r)
  {
    if from >= |items| then ItemNotFound
    else if CandidateBelow(items, cache, start, end, from) then from
    else FirstCandidateFrom(items, cache, start, end, from + 1)
  }

  /** The last upward candidate before index `k`, or `ItemNotFound`. */
  function LastCandidateBefore(items: seq<Item>, cache: map<string, RenderedItem>, start: int, end: int, k: int): (r: int)
    decreases k
    ensures r == ItemNotFound || (0 <= r < k && r < |items|)
    ensures r != ItemNotFound ==> CandidateAbove(items, cache, start, end, r)
  {
    if k <= 0 then ItemNotFound
    else if CandidateAbove(items, cache, start, end, k - 1) then k - 1
    else LastCandidateBefore(items, cache, start, end, k - 1)
  }

  /** `FirstCandidateFrom` finds the smallest candidate at or after `from`. */
  lemma {:induction false} FirstCandidateIsFirst(items: seq<Item>, cache: map<string, RenderedItem>, start: int, end: int, from: int)
    requires 0 <= from
    decreases |items| - from
    ensures var r := FirstCandidateFrom(items, cache, start, end, from);
      && (r == ItemNotFound || (from <= r && CandidateBelow(items, cache, start, end, r)))
      && (forall j | from <= j < |items| && (r == ItemNotFound || j < r) :: !CandidateBelow(items, cache, start, end, j))
  {
    if from < |items| && !CandidateBelow(items, cache, start, end, from) {
      FirstCandidateIsFirst(items, cache, start, end, from + 1);
    }
  }

  /** `LastCandidateBefore` finds the largest candidate before `k`. */
  lemma {:induction false} LastCandidateIsLast(items: seq<Item>, cache: map<string, RenderedItem>, start: int, end: int, k: int)
    decreases k
    ensures var r := LastCandidateBefore(items, cache, start, end, k);
      && (r == ItemNotFound || (r < k && CandidateAbove(items, cache, start, end, r)))
      && (forall j | r < j < k :: !CandidateAbove(items, cache, start, end, j))
  {
    if k > 0 && !CandidateAbove(items, cache, start, end, k - 1) {
      LastCandidateIsLast(items, cache, start, end, k - 1);
    }
  }

  /** Skipping indices that hold no focusable item does not change the
      downward search. */
  lemma {:induction false} FirstCandidateSkip(items: seq<Item>, cache: map<string, RenderedItem>, start: int, end: int,
                                             lo: int, hi: int)
    requires 0 <= lo <= hi
    requires forall j | lo <= j < hi && j < |items| :: !items[j].focusable
    decreases hi - lo
    ensures FirstCandidateFrom(items, cache, start, end, lo) == FirstCandidateFrom(items, cache, start, end, hi)
  {
    if lo < hi {
      if lo < |items| {
        FirstCandidateSkip(items, cache, start, end, lo + 1, hi);
      } else {
        assert FirstCandidateFrom(items, cache, start, end, hi) == ItemNotFound;
      }
    }
  }

  /** Skipping indices that hold no focusable item does not change the
      upward search. */
  lemma {:induction false} LastCandidateSkip(items: seq<Item>, cache: map<string, RenderedItem>, start: int, end: int,
                                            lo: int, k: int)
    requires lo <= k
    requires forall j | lo <= j < k && 0 <= j < |items| :: !items[j].focusable
    decreases k - lo
    ensures LastCandidateBefore(items, cache, start, end, k) == LastCandidateBefore(items, cache, start, end, lo)
  {
    if lo < k {
      if k > 0 {
        LastCandidateSkip(items, cache, start, end, lo, k - 1);
      } else {
        assert LastCandidateBefore(items, cache, start, end, lo) == ItemNotFound;
      }
    }
  }

  /** The downward loop of `changeSelectionWhenScrolling` with the focus
      search's wrapping turned off: it steps through the focusable items
      after `inx` and stops at the first candidate. */
  method SearchBelow(items: seq<Item>, cache: map<string, RenderedItem>, start: int, end: int, inx: int) returns (r: int)
    requires -1 <= inx < |items|
    ensures r == FirstCandidateFrom(items, cache, start, end, inx + 1)
  {
    var i := inx;
    while true
      invariant -1 <= i < |items| && inx <= i
      invariant FirstCandidateFrom(items, cache, start, end, inx + 1) == FirstCandidateFrom(items, cache, start, end, i + 1)
      decreases |items| - i
    {
      var next := FirstSelectableBelow(items, false, i);
      if next == ItemNotFound {
        FirstCandidateSkip(items, cache, start, end, i + 1, |items|);
        return ItemNotFound;
      }
      FirstCandidateSkip(items, cache, start, end, i + 1, next);
      i := next;
      var item := items[i];
      if item.id in cache {
        var e := cache[item.id];
        if e.start <= start && e.end >= end {
          return i;
        }
        if e.start >= start && e.start <= end {
          return i;
        }
      }
    }
  }

  /** The upward loop of `changeSelectionWhenScrolling` with the focus
      search's wrapping turned off. */
  method SearchAbove(items: seq<Item>, cache: map<string, RenderedItem>, start: int, end: int, inx: int) returns (r: int)
    requires inx <= |items|
    ensures r == LastCandidateBefore(items, cache, start, end, inx)
  {
    var i := inx;
    while true
      invariant i <= inx
      invariant LastCandidateBefore(items, cache, start, end, inx) == LastCandidateBefore(items, cache, start, end, i)
      decreases i
    {
      var next := FirstSelectableAbove(items, false, i);
      if next == ItemNotFound {
        LastCandidateSkip(items, cache, start, end, Min(i, 0), i);
        return ItemNotFound;
      }
      LastCandidateSkip(items, cache, start, end, next + 1, i);
      i := next;
      var item := items[i];
      if item.id in cache {
        var e := cache[item.id];
        if e.start <= start && e.end >= end {
          return i;
        }
        if e.end >= start && e.end <= end {
          return i;
        }
      }
    }
  }

  /** The selection `changeSelectionWhenScrolling` leaves for the view
      [start, end]: a cached selected item that neither covers the view nor
      lies inside it is replaced by the nearest candidate below it when its
      middle line is above the view, and above it when its middle line is
      below the view; without a candidate the selection is kept. */
  function ScrollSelection(items: seq<Item>, indexMap: map<string, int>, cache: map<string, RenderedItem>,
                           sel: string, start: int, end: int): (r: string)
    requires IndexConsistent(items, indexMap)
    ensures r != sel ==> r in indexMap && r in cache && items[indexMap[r]].focusable
  {
    if sel !in cache then sel
    else
      var e := cache[sel];
      if CoversView(e.start, e.end, start, end) || InsideView(e.start, e.end, start, end) then sel
      else
        var middle := Middle(e);
        if middle < start && sel in indexMap then
          var c := FirstCandidateFrom(items, cache, start, end, indexMap[sel] + 1);
          if c == ItemNotFound then sel else items[c].id
        else if middle > end && sel in indexMap then
          var c := LastCandidateBefore(items, cache, start, end, indexMap[sel]);
          if c == ItemNotFound then sel else items[c].id
        else sel
  }

  /** `changeSelectionWhenScrolling` on values: the new selection, and
      whether it changed (the list then renders again). */
  method ChangeSelection(items: seq<Item>, indexMap: map<string, int>, cache: map<string, RenderedItem>,
                         sel: string, start: int, end: int) returns (newSel: string, changed: bool)
    requires IndexConsistent(items, indexMap)
    ensures newSel == ScrollSelection(items, indexMap, cache, sel, start, end)
    ensures changed <==> newSel != sel
  {
    newSel, changed := sel, false;
    if sel !in cache {
      return;
    }
    var rItem := cache[sel];
    if rItem.start <= start && rItem.end >= end {
      return;
    }
    if rItem.start >= start && rItem.end <= end {
      return;
    }
    var itemMiddle := Middle(rItem);
    IndexConsistentUnique(items, indexMap);
    if itemMiddle < start {
      if sel !in indexMap {
        return;
      }
      var inx := SearchBelow(items, cache, start, end, indexMap[sel]);
      if inx != ItemNotFound {
        FirstCandidateIsFirst(items, cache, start, end, indexMap[sel] + 1);
        newSel, changed := items[inx].id, true;
      }
    } else if itemMiddle > end {
      if sel !in indexMap {
        return;
      }
      var inx := SearchAbove(items, cache, start, end, indexMap[sel]);
      if inx != ItemNotFound {
        LastCandidateIsLast(items, cache, start, end, indexMap[sel]);
        newSel, changed := items[inx].id, true;
      }
    }
  }

  /** What the policy promises: a selection that covers the view or lies
      inside it is kept; a new selection is a focusable, cached item that
      covers the view or shows its first line (when the old one went out
      above) or its last line (when it went out below), and no such item
      lies between the old selection and the new one. */
  lemma ScrollSelectionSpec(items: seq<Item>, indexMap: map<string, int>, cache: map<string, RenderedItem>,
                            sel: string, start: int, end: int)
    requires IndexConsistent(items, indexMap)
    ensures var s := ScrollSelection(items, indexMap, cache, sel, start, end);
      && ((sel in cache && (CoversView(cache[sel].start, cache[sel].end, start, end)
                            || InsideView(cache[sel].start, cache[sel].end, start, end))) ==> s == sel)
      && (s != sel ==> sel in indexMap && sel in cache && s in indexMap && s in cache
                       && items[indexMap[s]].focusable
                       && (QualifiesBelow(cache[s], start, end) || QualifiesAbove(cache[s], start, end)))
      && (s != sel && indexMap[s] > indexMap[sel] ==>
            QualifiesBelow(cache[s], start, end)
            && forall j | indexMap[sel] < j < indexMap[s] :: !CandidateBelow(items, cache, start, end, j))
      && (s != sel && indexMap[s] < indexMap[sel] ==>
            QualifiesAbove(cache[s], start, end)
            && forall j | indexMap[s] < j < indexMap[sel] :: !CandidateAbove(items, cache, start, end, j))
  {
    if sel in cache && sel in indexMap {
      FirstCandidateIsFirst(items, cache, start, end, indexMap[sel] + 1);
      LastCandidateIsLast(items, cache, start, end, indexMap[sel]);
    }
  }

  // ---------------------------------------------------------------------
  // The loop as written, with wrapping
  // ---------------------------------------------------------------------

  /** The downward loop exactly as written, with the focus search wrapping
      when `wrap` is set; `fuel` bounds the number of steps, and `None`
      means the loop is still running after `fuel` steps. */
  function SearchBelowAsWritten(items: seq<Item>, cache: map<string, RenderedItem>, wrap: bool,
                                start: int, end: int, inx: int, fuel: nat): (r: Option<int>)
    requires |items| > 0 && 0 <= inx < |items|
    decreases fuel
    ensures r.Some? && r.value != ItemNotFound ==> CandidateBelow(items, cache, start, end, r.value)
  {
    if fuel == 0 then None
    else
      var next := FocusableBelow(items, wrap, inx);
      if next == ItemNotFound then Some(ItemNotFound)
      else if CandidateBelow(items, cache, start, end, next) then Some(next)
      else SearchBelowAsWritten(items, cache, wrap, start, end, next, fuel - 1)
  }

  /** Without wrapping the loop as written ends within |items| steps, with
      the result of the corrected search. */
  lemma {:induction false} SearchBelowWithoutWrap(items: seq<Item>, cache: map<string, RenderedItem>,
                                                  start: int, end: int, inx: int, fuel: nat)
    requires |items| > 0 && 0 <= inx < |items|
    requires fuel >= |items| - inx
    decreases fuel
    ensures SearchBelowAsWritten(items, cache, false, start, end, inx, fuel)
            == Some(FirstCandidateFrom(items, cache, start, end, inx + 1))
  {
    var next := FocusableBelow(items, false, inx);
    if next == ItemNotFound {
      FirstCandidateSkip(items, cache, start, end, inx + 1, |items|);
    } else {
      FirstCandidateSkip(items, cache, start, end, inx + 1, next);
      if !CandidateBelow(items, cache, start, end, next) {
        SearchBelowWithoutWrap(items, cache, start, end, next, fuel - 1);
      }
    }
  }

  /** A list on which the wrapping loop never ends: a one-line focusable
      item, a ten-line item that is not focusable, and a one-line focusable
      item, with no gap and a viewport of 3 lines. */
  function LoopItems(): seq<Item>
  {
    [Item("s", "S", true), Item("n", Newlines(9), false), Item("l", "L", true)]
  }

  /** The cache a full render of `LoopItems` leaves: lines 0, 1-10 and 11. */
  function LoopCache(): map<string, RenderedItem>
  {
    map["s" := RenderedItem("S", 1, 0, 0), "n" := RenderedItem(Newlines(9), 10, 1, 10),
        "l" := RenderedItem("L", 1, 11, 11)]
  }

  /** From either focusable item of the example the loop runs on. */
  lemma {:induction false} LoopRunsOn(fuel: nat)
    ensures SearchBelowAsWritten(LoopItems(), LoopCache(), true, 4, 6, 0, fuel) == None
    ensures SearchBelowAsWritten(LoopItems(), LoopCache(), true, 4, 6, 2, fuel) == None
  {
    var items, cache := LoopItems(), LoopCache();
    if fuel > 0 {
      assert FocusableBelow(items, true, 0) == 2 by {
        assert FirstFocusableFrom(items, 1) == 2;
      }
      assert FocusableBelow(items, true, 2) == 0 by {
        assert FirstFocusableFrom(items, 3) == ItemNotFound;
        assert FirstFocusableFrom(items, 0) == 0;
      }
      assert !CandidateBelow(items, cache, 4, 6, 0) && !CandidateBelow(items, cache, 4, 6, 2);
      LoopRunsOn(fuel - 1);
    }
  }

  /** The example is a reachable state: the cache holds the true positions
      of the full layout, which is 12 lines high. */
  lemma LoopExampleReachable()
    ensures PositionsExact(LoopItems(), 0, LoopCache()) && AllItemsCached(LoopItems(), LoopCache())
    ensures Height(Layout.Layout(LoopItems(), 0)) == 12
  {
    var items := LoopItems();
    NewlinesCount(9);
    assert StartLine(items, 0, 1) == 1 && StartLine(items, 0, 2) == 11;
    LayoutHeight(items, 0);
  }

  /** With the offset at 4 the example's view is lines 4-6; the selected
      first item is cached, neither covers nor is inside the view, and its
      middle line is above it, so the downward loop is entered from index 0,
      and with wrapping on it never ends. */
  lemma WrappingSearchNeverEnds(fuel: nat)
    ensures ViewPosition(4, 3, 12, Forward) == (4, 6)
    ensures var e := LoopCache()["s"];
      && !CoversView(e.start, e.end, 4, 6) && !InsideView(e.start, e.end, 4, 6) && Middle(e) < 4
    ensures SearchBelowAsWritten(LoopItems(), LoopCache(), true, 4, 6, 0, fuel) == None
  {
    LoopRunsOn(fuel);
  }

  /** On the same example the corrected search stops and keeps the
      selection. */
  lemma CorrectedSearchStops()
    ensures ScrollSelection(LoopItems(), map["s" := 0, "n" := 1, "l" := 2], LoopCache(), "s", 4, 6) == "s"
  {
    assert FirstCandidateFrom(LoopItems(), LoopCache(), 4, 6, 1) == ItemNotFound;
  }

  /** The upward loop exactly as written, with the focus search wrapping
      when `wrap` is set; `None` means it is still running after `fuel` steps. */
  function SearchAboveAsWritten(items: seq<Item>, cache: map<string, RenderedItem>, wrap: bool,
                                start: int, end: int, inx: int, fuel: nat): (r: Option<int>)
    requires |items| > 0 && 0 <= inx < |items|
    decreases fuel
    ensures r.Some? && r.value != ItemNotFound ==> CandidateAbove(items, cache, start, end, r.value)
  {
    if fuel == 0 then None
    else
      var next := FocusableAbove(items, wrap, inx);
      if next == ItemNotFound then Some(ItemNotFound)
      else if CandidateAbove(items, cache, start, end, next) then Some(next)
      else SearchAboveAsWritten(items, cache, wrap, start, end, next, fuel - 1)
  }

  /** Without wrapping the upward loop as written ends within `inx + 1`
      steps, with the result of the corrected search. */
  lemma {:induction false} SearchAboveWithoutWrap(items: seq<Item>, cache: map<string, RenderedItem>,
                                                  start: int, end: int, inx: int, fuel: nat)
    requires |items| > 0 && 0 <= inx < |items|
    requires fuel >= inx + 1
    decreases fuel
    ensures SearchAboveAsWritten(items, cache, false, start, end, inx, fuel)
            == Some(LastCandidateBefore(items, cache, start, end, inx))
  {
    var next := FocusableAbove(items, false, inx);
    if next == ItemNotFound {
      LastCandidateSkip(items, cache, start, end, 0, inx);
    } else {
      LastCandidateSkip(items, cache, start, end, next + 1, inx);
      if !CandidateAbove(items, cache, start, end, next) {
        SearchAboveWithoutWrap(items, cache, start, end, next, fuel - 1);
      }
    }
  }

  /** The example mirrored for the upward loop: a one-line focusable item,
      a ten-line item that is not focusable, and a one-line focusable item. */
  function UpLoopItems(): seq<Item>
  {
    [Item("l", "L", true), Item("n", Newlines(9), false), Item("s", "S", true)]
  }

  /** The cache a full render of `UpLoopItems` leaves: lines 0, 1-10 and 11. */
  function UpLoopCache(): map<string, RenderedItem>
  {
    map["l" := RenderedItem("L", 1, 0, 0), "n" := RenderedItem(Newlines(9), 10, 1, 10),
        "s" := RenderedItem("S", 1, 11, 11)]
  }

  /** From either focusable item of the mirrored example the upward loop
      runs on. */
  lemma {:induction false} UpLoopRunsOn(fuel: nat)
    ensures SearchAboveAsWritten(UpLoopItems(), UpLoopCache(), true, 4, 6, 2, fuel) == None
    ensures SearchAboveAsWritten(UpLoopItems(), UpLoopCache(), true, 4, 6, 0, fuel) == None
  {
    var items, cache := UpLoopItems(), UpLoopCache();
    if fuel > 0 {
      assert FocusableAbove(items, true, 2) == 0 by {
        assert LastFocusableBefore(items, 2) == 0;
      }
      assert FocusableAbove(items, true, 0) == 2 by {
        assert LastFocusableBefore(items, 0) == ItemNotFound;
        assert LastFocusableBefore(items, 3) == 2;
      }
      assert !CandidateAbove(items, cache, 4, 6, 0) && !CandidateAbove(items, cache, 4, 6, 2);
      UpLoopRunsOn(fuel - 1);
    }
  }

  /** The mirrored example is a reachable state as well. */
  lemma UpLoopExampleReachable()
    ensures PositionsExact(UpLoopItems(), 0, UpLoopCache()) && AllItemsCached(UpLoopItems(), UpLoopCache())
    ensures Height(Layout.Layout(UpLoopItems(), 0)) == 12
  {
    var items := UpLoopItems();
    NewlinesCount(9);
    assert StartLine(items, 0, 1) == 1 && StartLine(items, 0, 2) == 11;
    LayoutHeight(items, 0);
  }

  /** With the view at lines 4-6 the selected last item is cached, neither
      covers nor is inside the view, and its middle line is below it, so the
      upward loop is entered from index 2, and with wrapping on it never
      ends. */
  lemma WrappingSearchAboveNeverEnds(fuel: nat)
    ensures ViewPosition(4, 3, 12, Forward) == (4, 6)
    ensures var e := UpLoopCache()["s"];
      && !CoversView(e.start, e.end, 4, 6) && !InsideView(e.start, e.end, 4, 6) && Middle(e) > 6
    ensures SearchAboveAsWritten(UpLoopItems(), UpLoopCache(), true, 4, 6, 2, fuel) == None
  {
    UpLoopRunsOn(fuel);
  }

  /** On the mirrored example the corrected search stops and keeps the
      selection. */
  lemma CorrectedSearchAboveStops()
    ensures ScrollSelection(UpLoopItems(), map["l" := 0, "n" := 1, "s" := 2], UpLoopCache(), "s", 4, 6) == "s"
  {
    assert LastCandidateBefore(UpLoopItems(), UpLoopCache(), 4, 6, 2) == ItemNotFound;
  }
}
