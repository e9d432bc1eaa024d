/**
 * Mouse-wheel scrolling: `incrementOffset` and `decrementOffset` on values,
 * the offset `MoveDown`/`MoveUp` reach, and how they carry the mouse
 * selection rows along with the content.
 */
module Scrolling {
  import opened Viewport
  import opened Selection

  /** `incrementOffset`: scrolls `n` lines towards the largest offset and
      stops there; nothing happens when all content fits in the view. */
  function Incremented(offset: int, n: int, renderedHeight: int, height: int): (r: int)
    ensures renderedHeight <= height || n <= 0 ==> r == offset
    ensures offset <= r && r - offset <= Max(n, 0)
    ensures OffsetInRange(offset, renderedHeight, height) ==> OffsetInRange(r, renderedHeight, height)
    ensures OffsetInRange(offset, renderedHeight, height) ==> r == Min(offset + Max(n, 0), MaxOffset(renderedHeight, height))
  {
    if renderedHeight <= height then offset
    else
      var step := Min(n, (renderedHeight - height) - offset);
      if step <= 0 then offset else offset + step
  }

  /** `decrementOffset`: scrolls `n` lines towards offset 0 and stops there. */
  function Decremented(offset: int, n: int): (r: int)
    ensures n <= 0 || offset <= 0 ==> r == offset
    ensures r <= offset && offset - r <= Max(n, 0)
    ensures offset >= 0 ==> r == Max(0, offset - Max(n, 0))
  {
    var step := Min(n, offset);
    if step <= 0 then offset else Max(offset - step, 0)
  }

  /** Decrementing keeps the offset in range as well. */
  lemma DecrementedInRange(offset: int, n: int, renderedHeight: int, height: int)
    requires OffsetInRange(offset, renderedHeight, height)
    ensures OffsetInRange(Decremented(offset, n), renderedHeight, height)
  {
  }

  /** Scrolling back by the distance just scrolled returns to the start, in
      both orders. */
  lemma ScrollRoundTrip(offset: int, n: int, renderedHeight: int, height: int)
    requires OffsetInRange(offset, renderedHeight, height)
    ensures Decremented(Incremented(offset, n, renderedHeight, height), Incremented(offset, n, renderedHeight, height) - offset) == offset
    ensures Incremented(Decremented(offset, n), offset - Decremented(offset, n), renderedHeight, height) == offset
  {
  }

  /** The offset `MoveDown` (`down`) or `MoveUp` reaches: forward, moving
      down increments it; backward, where the offset counts from the bottom,
      moving down decrements it. */
  function MovedOffset(offset: int, n: int, renderedHeight: int, height: int, dir: Direction, down: bool): (r: int)
    ensures (dir == Forward) == down ==> offset <= r && r - offset <= Max(n, 0)
    ensures (dir == Forward) != down ==> r <= offset && offset - r <= Max(n, 0)
    ensures OffsetInRange(offset, renderedHeight, height) ==> OffsetInRange(r, renderedHeight, height)
  {
    if (dir == Forward) == down then Incremented(offset, n, renderedHeight, height) else Decremented(offset, n)
  }

  /** `hasSelection`: the two ends of the mouse selection differ. */
  predicate HasSelection(startCol: int, startLine: int, endCol: int, endLine: int)
  {
    endCol != startCol || endLine != startLine
  }

  /** How `MoveDown` (`down`) and `MoveUp` move the selection rows by `k`
      lines, the content having moved up (down) on screen: a finished
      selection moves as a whole; during a drag only one end moves, the
      upper one when moving down and the lower one when moving up. */
  function ShiftRows(startLine: int, endLine: int, finished: bool, active: bool, k: int, down: bool): (r: (int, int))
    requires !(finished && active) && k >= 0
    ensures var d := if down then -k else k;
      && (!finished && !active ==> r == (startLine, endLine))
      && (finished ==> r == (startLine + d, endLine + d))
      && (active ==> (r == (startLine + d, endLine) || r == (startLine, endLine + d)))
      && (active && down ==> Min(r.0, r.1) == Min(startLine, endLine) + d && Max(r.0, r.1) == Max(startLine, endLine))
      && (active && !down ==> Max(r.0, r.1) == Max(startLine, endLine) + d && Min(r.0, r.1) == Min(startLine, endLine))
  {
    if down then
      if finished then (startLine - k, endLine - k)
      else if active then (if startLine < endLine then (startLine - k, endLine) else (startLine, endLine - k))
      else (startLine, endLine)
    else
      if finished then (startLine + k, endLine + k)
      else if active then (if startLine > endLine then (startLine + k, endLine) else (startLine, endLine + k))
      else (startLine, endLine)
  }

  /** How many lines the content moved on screen between two offsets. */
  function Moved(offset: int, offset': int): nat
  {
    if offset' >= offset then offset' - offset else offset - offset'
  }

  /** A screen row moved by the distance the content moved still shows the
      same buffer row: moving down, rows go up by what the offset grew
      (forward) or shrank (backward). */
  lemma ShiftKeepsBufferRow(line: int, n: int, height: int, offset: int, n': int, dir: Direction, down: bool)
    requires offset >= 0 && 0 <= n'
    requires var offset' := MovedOffset(offset, n', n, height, dir, down);
      offset' != offset
    ensures var offset' := MovedOffset(offset, n', n, height, dir, down);
      var m: int := Moved(offset, offset'); var d := if down then -m else m;
      ScreenToBuffer(line + d, n, height, offset', dir) == ScreenToBuffer(line, n, height, offset, dir)
  {
  }

  /** `MoveDown` as written shifts a finished selection by the requested
      `n` lines, not by the distance scrolled: with 12 lines of content, a
      view of 10 lines at offset 0 and `MoveDown(5)`, the offset stops at 2
      but rows 3..5 become rows -2..0, which show buffer rows 0..2 instead of
      3..5. Shifting by the distance scrolled keeps them on rows 3..5. */
  lemma MoveDownShiftsByRequestedLines()
    ensures MovedOffset(0, 5, 12, 10, Forward, true) == 2
    ensures ShiftRows(3, 5, true, false, 5, true) == (-2, 0)
    ensures ScreenToBuffer(-2, 12, 10, 2, Forward) == 0 != ScreenToBuffer(3, 12, 10, 0, Forward)
    ensures ShiftRows(3, 5, true, false, Moved(0, 2), true) == (1, 3)
    ensures ScreenToBuffer(1, 12, 10, 2, Forward) == 3 == ScreenToBuffer(3, 12, 10, 0, Forward)
  {
  }
}
