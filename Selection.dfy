/**
 * Mouse-selection geometry: the per-row horizontal bounds `selectionView`
 * derives from the two selection endpoints, and the translation between
 * screen rows and rows of the rendered buffer used by the paragraph search.
 */
module Selection {
  import opened Text
  import opened Viewport

  /** A cell position: column `x`, screen row `y`. */
  datatype Point = Point(x: int, y: int)

  /** A rectangle given by two corners, as the selection area is built. */
  datatype Rect = Rect(min: Point, max: Point)

  /** The horizontal bounds of the selection on one screen row: columns
      `startX` up to but excluding `endX`, when the row is in the selection. */
  datatype RowBounds = RowBounds(startX: int, endX: int, inSelection: bool)

  /** Rectangle canonicalisation: each axis is swapped on its own so that
      min <= max on both. */
  function Canon(r: Rect): (c: Rect)
    ensures c.min.x <= c.max.x && c.min.y <= c.max.y
    ensures {c.min.x, c.max.x} == {r.min.x, r.max.x} && {c.min.y, c.max.y} == {r.min.y, r.max.y}
  {
    var (x0, x1) := if r.max.x < r.min.x then (r.max.x, r.min.x) else (r.min.x, r.max.x);
    var (y0, y1) := if r.max.y < r.min.y then (r.max.y, r.min.y) else (r.min.y, r.max.y);
    Rect(Point(x0, y0), Point(x1, y1))
  }

  /** Reading order on cells: by row, then by column. */
  predicate Before(p: Point, q: Point)
  {
    p.y < q.y || (p.y == q.y && p.x < q.x)
  }

  /** The bounds `selectionView` gives row `y` of a screen `width` columns
      wide: a single-line span, the first line of a multi-line span, its last
      line, or a middle line. */
  function RowBoundsOf(sel: Rect, width: int, y: int): (b: RowBounds)
    ensures b.inSelection <==> sel.min.y <= y <= sel.max.y
    ensures b.inSelection && y != sel.min.y ==> b.startX == 0
    ensures b.inSelection && y != sel.max.y ==> b.endX == width
  {
    if y >= sel.min.y && y <= sel.max.y then
      if sel.min.y == sel.max.y then RowBounds(sel.min.x, sel.max.x, true)
      else if y == sel.min.y then RowBounds(sel.min.x, width, true)
      else if y == sel.max.y then RowBounds(0, sel.max.x, true)
      else RowBounds(0, width, true)
    else RowBounds(-1, -1, false)
  }

  /** A cell is highlighted when its row is selected and its column is in bounds. */
  predicate CellSelected(b: RowBounds, x: int)
  {
    b.inSelection && b.startX <= x < b.endX
  }

  /** Read row by row, the bounds select exactly the cells of the screen
      from the rectangle's min corner (included) to its max corner
      (excluded) in reading order. */
  lemma RowBoundsReadingOrder(sel: Rect, width: int, x: int, y: int)
    requires sel.min.y <= sel.max.y
    requires 0 <= x < width
    ensures CellSelected(RowBoundsOf(sel, width, y), x) <==>
      !Before(Point(x, y), sel.min) && Before(Point(x, y), sel.max)
  {
  }

  /** The selection area as `selectionView` builds it from the two drag
      endpoints: the rectangle they span, canonicalised axis by axis. */
  function AreaAsWritten(start: Point, end: Point): (r: Rect)
    ensures r.min.y <= r.max.y
  {
    Canon(Rect(start, end))
  }

  /** The selection area ordered by reading order: the endpoint that comes
      first is the min corner. */
  function SelectionArea(start: Point, end: Point): (r: Rect)
    ensures r.min.y <= r.max.y
    ensures {r.min, r.max} == {start, end}
    ensures !Before(r.max, r.min)
  {
    if Before(end, start) then Rect(end, start) else Rect(start, end)
  }

  /** Whether a cell lies between the two drag endpoints in reading order
      (the later endpoint excluded), whichever way the drag went. */
  predicate BetweenEndpoints(start: Point, end: Point, p: Point)
  {
    if Before(end, start) then !Before(p, end) && Before(p, start)
    else !Before(p, start) && Before(p, end)
  }

  /** With the area ordered by reading order, a cell is highlighted exactly
      when it lies between the endpoints, for drags in any direction. */
  lemma SelectionAreaMatchesDrag(start: Point, end: Point, width: int, x: int, y: int)
    requires 0 <= x < width
    ensures CellSelected(RowBoundsOf(SelectionArea(start, end), width, y), x) <==> BetweenEndpoints(start, end, Point(x, y))
  {
    RowBoundsReadingOrder(SelectionArea(start, end), width, x, y);
  }

  /** Canonicalising axis by axis breaks this for a drag down and to the
      left: from column 10 of row 2 to column 3 of row 5 on an 80-column
      screen, column 5 of row 2 is highlighted although it comes before the
      drag's start. */
  lemma AreaAsWrittenSelectsBeforeStart()
    ensures var start, end := Point(10, 2), Point(3, 5);
      && CellSelected(RowBoundsOf(AreaAsWritten(start, end), 80, 2), 5)
      && !BetweenEndpoints(start, end, Point(5, 2))
  {
  }

  // ---------------------------------------------------------------------
  // Screen rows and buffer rows
  // ---------------------------------------------------------------------

  /** The buffer row shown on screen row `line`, for a buffer of `n` lines. */
  function ScreenToBuffer(line: int, n: int, height: int, offset: int, dir: Direction): (row: int)
    ensures 0 <= line < height && line < n && OffsetInRange(offset, n, height) ==> 0 <= row < n
  {
    var l := if dir == Backward && n > height then (n - 1) - height + line + 1 else line;
    if offset > 0 then (if dir == Backward then l - offset else l + offset) else l
  }

  /** The screen row a buffer row is shown on; the inverse translation. */
  function BufferToScreen(row: int, n: int, height: int, offset: int, dir: Direction): (line: int)
    ensures ScreenToBuffer(line, n, height, offset, dir) == row
  {
    var l := if dir == Backward && n > height then row - (n - 1) + height - 1 else row;
    if offset > 0 then (if dir == Backward then l + offset else l - offset) else l
  }

  /** The translation is one-to-one: screen → buffer → screen is the identity. */
  lemma ScreenRoundTrip(line: int, n: int, height: int, offset: int, dir: Direction)
    ensures BufferToScreen(ScreenToBuffer(line, n, height, offset, dir), n, height, offset, dir) == line
  {
  }

  /** A line `strings.TrimSpace` reduces to "": only white space. */
  predicate IsBlank(s: string)
  {
    forall i | 0 <= i < |s| :: s[i] in {' ', '\t', '\n', '\r', '\U{0B}', '\U{0C}'}
  }

  /** Rows lo..hi of `lines` form the paragraph around row `b`: all
      non-blank, bounded by a blank row or the end of the buffer on both
      sides. */
  predicate ParagraphAround(lines: seq<string>, lo: int, hi: int, b: int)
  {
    && 0 <= lo <= b <= hi < |lines|
    && (forall k | lo <= k <= hi :: !IsBlank(lines[k]))
    && (lo == 0 || IsBlank(lines[lo - 1]))
    && (hi == |lines| - 1 || IsBlank(lines[hi + 1]))
  }

  /** The paragraph around a row is unique. */
  lemma ParagraphUnique(lines: seq<string>, lo: int, hi: int, lo': int, hi': int, b: int)
    requires ParagraphAround(lines, lo, hi, b) && ParagraphAround(lines, lo', hi', b)
    ensures lo == lo' && hi == hi'
  {
  }
}
