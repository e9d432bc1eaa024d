/**
 * Viewport arithmetic of the list: which lines of the rendered buffer are
 * visible for a scroll offset (`viewPosition`), the largest offset that keeps
 * the viewport filled, and the policy `scrollToSelection` uses to bring the
 * selected item into view.
 */
module Viewport {

  /** Forward: line 0 of the buffer is at the top and the offset counts from
      the top. Backward: the offset counts from the bottom. */
  datatype Direction = Forward | Backward

  function Max(a: int, b: int): int { if a >= b then a else b }

  function Min(a: int, b: int): int { if a <= b then a else b }

  /** The largest offset that still shows a full viewport. */
  function MaxOffset(renderedHeight: int, height: int): int
  {
    Max(0, renderedHeight - height)
  }

  /** The offset invariant the list keeps while scrolling. */
  predicate OffsetInRange(offset: int, renderedHeight: int, height: int)
  {
    0 <= offset <= MaxOffset(renderedHeight, height)
  }

  /** `viewPosition`: the inclusive range [start, end] of visible buffer lines. */
  function ViewPosition(offset: int, height: int, renderedHeight: int, dir: Direction): (r: (int, int))
    ensures r.0 <= r.1
  {
    var renderedLines := renderedHeight - 1;
    var start := if dir == Forward then Max(0, offset) else Max(0, renderedLines - offset - height + 1);
    var end := if dir == Forward then Min(offset + height - 1, renderedLines) else Max(0, renderedLines - offset);
    (Min(start, end), end)
  }

  /** With the offset in range, the visible range lies inside the content and
      holds a full viewport, or all of the content when it is shorter. In the
      forward direction its first line is the offset itself; in the backward
      direction its last line is `offset` lines above the last line. */
  lemma ViewPositionFillsViewport(offset: int, height: int, renderedHeight: int, dir: Direction)
    requires height >= 1 && renderedHeight >= 1
    requires OffsetInRange(offset, renderedHeight, height)
    ensures var vp := ViewPosition(offset, height, renderedHeight, dir); var start, end := vp.0, vp.1;
      && 0 <= start <= end <= renderedHeight - 1
      && end - start + 1 == Min(height, renderedHeight)
      && (dir == Forward ==> start == offset)
      && (dir == Backward ==> end == renderedHeight - 1 - offset)
  {
  }

  /** The backward view at an offset is the forward view at the same offset
      mirrored about the middle of the content. */
  lemma ViewPositionMirror(offset: int, height: int, renderedHeight: int)
    requires height >= 1 && renderedHeight >= 1
    requires OffsetInRange(offset, renderedHeight, height)
    ensures var vp := ViewPosition(offset, height, renderedHeight, Forward); var fs, fe := vp.0, vp.1;
      ViewPosition(offset, height, renderedHeight, Backward) == (renderedHeight - 1 - fe, renderedHeight - 1 - fs)
  {
  }

  /** The item spans the whole view (it may extend beyond it on both sides). */
  predicate CoversView(itemStart: int, itemEnd: int, start: int, end: int)
  {
    itemStart <= start && itemEnd >= end
  }

  /** The item lies entirely within the view. */
  predicate InsideView(itemStart: int, itemEnd: int, start: int, end: int)
  {
    itemStart >= start && itemEnd <= end
  }

  /** The item's first or last line is within the view. */
  predicate TouchesView(itemStart: int, itemEnd: int, start: int, end: int)
  {
    (itemStart >= start && itemStart <= end) || (itemEnd >= start && itemEnd <= end)
  }

  /** Whether `scrollToSelection` leaves the offset alone: the item covers
      the view, or it is inside it (after keyboard navigation) or shows at
      least one of its end lines (otherwise). */
  predicate SelectionShown(itemStart: int, itemEnd: int, offset: int, height: int, renderedHeight: int,
                           dir: Direction, movingByItem: bool)
  {
    var vp := ViewPosition(offset, height, renderedHeight, dir); var start, end := vp.0, vp.1;
    || CoversView(itemStart, itemEnd, start, end)
    || (movingByItem && InsideView(itemStart, itemEnd, start, end))
    || (!movingByItem && TouchesView(itemStart, itemEnd, start, end))
  }

  /** The offset `scrollToSelection` moves to, for a selected item spanning
      lines [itemStart, itemEnd] of height `itemHeight`. When the item already
      counts as shown the offset is kept; a tall item is aligned with the top
      of the view, a short one is scrolled in from the side it lies on. */
  function ScrollTarget(itemStart: int, itemEnd: int, itemHeight: int, offset: int,
                        height: int, renderedHeight: int, dir: Direction, movingByItem: bool): (r: int)
    ensures r != offset ==> !SelectionShown(itemStart, itemEnd, offset, height, renderedHeight, dir, movingByItem)
    ensures 0 <= itemStart && 0 <= offset ==> 0 <= r
  {
    var vp := ViewPosition(offset, height, renderedHeight, dir); var start, end := vp.0, vp.1;
    if SelectionShown(itemStart, itemEnd, offset, height, renderedHeight, dir, movingByItem) then offset
    else if itemHeight >= height then
      (if dir == Forward then itemStart else Max(0, renderedHeight - (itemStart + height)))
    else
      var renderedLines := renderedHeight - 1;
      if itemStart < start then
        (if dir == Forward then itemStart else Max(0, renderedLines - itemStart - height + 1))
      else if itemEnd > end then
        (if dir == Forward then Max(0, itemEnd - height + 1) else Max(0, renderedLines - itemEnd))
      else offset
  }

  /** An item lying inside the content, with its recorded height. */
  predicate ItemInContent(itemStart: int, itemEnd: int, itemHeight: int, renderedHeight: int)
  {
    0 <= itemStart <= itemEnd <= renderedHeight - 1 && itemHeight == itemEnd - itemStart + 1
  }

  /** Scrolling to an item at least as tall as the viewport, after keyboard
      navigation or whenever neither end line of the item is in view,
      leaves the viewport entirely within the item, in both directions. */
  lemma TallItemCoversViewport(itemStart: int, itemEnd: int, itemHeight: int, offset: int,
                               height: int, renderedHeight: int, dir: Direction, movingByItem: bool)
    requires height >= 1
    requires ItemInContent(itemStart, itemEnd, itemHeight, renderedHeight)
    requires itemHeight >= height
    requires movingByItem || var vp := ViewPosition(offset, height, renderedHeight, dir);
      !TouchesView(itemStart, itemEnd, vp.0, vp.1)
    ensures var o := ScrollTarget(itemStart, itemEnd, itemHeight, offset, height, renderedHeight, dir, movingByItem);
      var vp := ViewPosition(o, height, renderedHeight, dir); var start, end := vp.0, vp.1;
      itemStart <= start && end <= itemEnd
  {
  }

  /** Without keyboard navigation a tall item that shows one end line keeps
      the offset, and the view need not lie within it: lines 5-20 of a
      30-line buffer, seen through a 10-line view at offset 0. */
  lemma TallItemMayStayPartlyShown()
    ensures ScrollTarget(5, 20, 16, 0, 10, 30, Forward, false) == 0
    ensures var vp := ViewPosition(ScrollTarget(5, 20, 16, 0, 10, 30, Forward, false), 10, 30, Forward);
      vp == (0, 9) && vp.0 < 5
  {
  }

  /** Scrolling to an item shorter than the viewport, from an offset in range:
      after keyboard navigation the whole item is visible; otherwise at least
      its first or its last line is. */
  lemma ShortItemBecomesVisible(itemStart: int, itemEnd: int, itemHeight: int, offset: int,
                                height: int, renderedHeight: int, dir: Direction, movingByItem: bool)
    requires height >= 1
    requires ItemInContent(itemStart, itemEnd, itemHeight, renderedHeight)
    requires itemHeight < height
    requires OffsetInRange(offset, renderedHeight, height)
    ensures var o := ScrollTarget(itemStart, itemEnd, itemHeight, offset, height, renderedHeight, dir, movingByItem);
      var vp := ViewPosition(o, height, renderedHeight, dir); var start, end := vp.0, vp.1;
      && (movingByItem ==> start <= itemStart && itemEnd <= end)
      && (!movingByItem ==> (start <= itemStart <= end) || (start <= itemEnd <= end))
  {
    ViewPositionFillsViewport(offset, height, renderedHeight, dir);
  }

  /** The policy never leaves the offset range. */
  lemma ScrollTargetInRange(itemStart: int, itemEnd: int, itemHeight: int, offset: int,
                            height: int, renderedHeight: int, dir: Direction, movingByItem: bool)
    requires height >= 1
    requires ItemInContent(itemStart, itemEnd, itemHeight, renderedHeight)
    requires OffsetInRange(offset, renderedHeight, height)
    ensures OffsetInRange(ScrollTarget(itemStart, itemEnd, itemHeight, offset, height, renderedHeight, dir, movingByItem),
                          renderedHeight, height)
  {
    ViewPositionFillsViewport(offset, height, renderedHeight, dir);
  }
}
