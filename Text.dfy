/**
 * Line bookkeeping over the flat rendered buffer of the list: the line height
 * of a string, the byte offset of each line start (the `lineOffsets` index
 * built by `setRendered`), splitting on '\n' and slicing a range of lines
 * (`getLines`). Strings are sequences of characters standing for bytes; the
 * only byte that matters here is '\n', which is one byte in UTF-8.
 */
module Text {

  datatype Option<T> = None | Some(value: T)

  /** Number of '\n' characters in `s`. */
  function CountNewlines(s: string): (n: nat)
    ensures n <= |s|
  {
    if |s| == 0 then 0
    else CountNewlines(s[..|s| - 1]) + (if s[|s| - 1] == '\n' then 1 else 0)
  }

  /** The height of a string in lines, as the layout library measures it:
      one more than the number of newlines (so the empty string is one line). */
  function Height(s: string): (h: nat)
    ensures h >= 1
  {
    CountNewlines(s) + 1
  }

  /** `k` newline characters (a gap between two items). */
  function Newlines(k: nat): (s: string)
    ensures |s| == k && forall i :: 0 <= i < k ==> s[i] == '\n'
  {
    seq(k, _ => '\n')
  }

  /** The position of the first '\n' at or after `from`, if any. */
  function NextNewline(s: string, from: nat): (r: Option<nat>)
    ensures r.Some? ==> from <= r.value < |s| && s[r.value] == '\n'
    ensures r.Some? ==> forall j :: from <= j < r.value ==> s[j] != '\n'
    ensures r.None? ==> forall j :: from <= j < |s| ==> s[j] != '\n'
    decreases |s| - from
  {
    if from >= |s| then None
    else if s[from] == '\n' then Some(from)
    else NextNewline(s, from + 1)
  }

  /** The start of every line that begins after a '\n' at or after `from`. */
  function StartsFrom(s: string, from: nat): (r: seq<int>)
    ensures forall k :: 0 <= k < |r| ==> from < r[k] <= |s| && s[r[k] - 1] == '\n'
    decreases |s| - from
  {
    match NextNewline(s, from)
    case None => []
    case Some(p) => [p + 1] + StartsFrom(s, p + 1)
  }

  /** The line starts after `from` are strictly increasing. */
  lemma {:induction false} StartsFromIncreasing(s: string, from: nat)
    ensures forall i, j :: 0 <= i < j < |StartsFrom(s, from)| ==> StartsFrom(s, from)[i] < StartsFrom(s, from)[j]
    decreases |s| - from
  {
    match NextNewline(s, from)
    case None =>
    case Some(p) =>
      StartsFromIncreasing(s, p + 1);
      var r, t := StartsFrom(s, from), StartsFrom(s, p + 1);
      assert r == [p + 1] + t;
      forall i, j | 0 <= i < j < |r| ensures r[i] < r[j] {
        assert r[j] == t[j - 1] && p + 1 < t[j - 1];
        if i > 0 {
          assert r[i] == t[i - 1] && t[i - 1] < t[j - 1];
        } else {
          assert r[i] == p + 1;
        }
      }
  }

  /** The byte offset of each line start of `s`; none at all for the empty string. */
  function LineStarts(s: string): seq<int>
  {
    if |s| == 0 then [] else [0] + StartsFrom(s, 0)
  }

  /** The line index is strictly increasing. */
  lemma LineStartsIncreasing(s: string)
    ensures forall i, j :: 0 <= i < j < |LineStarts(s)| ==> LineStarts(s)[i] < LineStarts(s)[j]
  {
    if |s| > 0 {
      StartsFromIncreasing(s, 0);
      var L, t := LineStarts(s), StartsFrom(s, 0);
      forall i, j | 0 <= i < j < |L| ensures L[i] < L[j] {
        assert L[j] == t[j - 1] && 0 < t[j - 1];
        if i > 0 {
          assert L[i] == t[i - 1] && t[i - 1] < t[j - 1];
        } else {
          assert L[i] == 0;
        }
      }
    }
  }

  /** The loop of `setRendered`: the line index of `r`, found by scanning
      for one newline after another. */
  method IndexLines(r: string) returns (offsets: seq<int>)
    ensures offsets == LineStarts(r)
  {
    if |r| == 0 {
      return [];
    }
    offsets := [0];
    var off: nat := 0;
    while NextNewline(r, off).Some?
      invariant off <= |r|
      invariant offsets + StartsFrom(r, off) == LineStarts(r)
      decreases |r| - off
    {
      off := NextNewline(r, off).value + 1;
      offsets := offsets + [off];
    }
  }

  /** The lines of `s[from..]`, split on '\n' (the last one may be empty). */
  function LinesFrom(s: string, from: nat): (lines: seq<string>)
    requires from <= |s|
    ensures |lines| == |StartsFrom(s, from)| + 1
    decreases |s| - from
  {
    match NextNewline(s, from)
    case None => [s[from..]]
    case Some(p) => [s[from..p]] + LinesFrom(s, p + 1)
  }

  /** `strings.Split(s, "\n")`. */
  function Split(s: string): seq<string>
  {
    LinesFrom(s, 0)
  }

  /** `strings.Join(lines, "\n")`. */
  function Join(lines: seq<string>): string
  {
    if |lines| == 0 then ""
    else if |lines| == 1 then lines[0]
    else lines[0] + "\n" + Join(lines[1..])
  }

  /** What the list keeps in `lineOffsets`: either the index of the current
      buffer, or, after a reset emptied the buffer, a stale index whose
      entries are still non-negative. */
  ghost predicate LineIndexOk(s: string, offsets: seq<int>)
  {
    offsets == LineStarts(s) || (s == [] && forall k :: 0 <= k < |offsets| ==> offsets[k] >= 0)
  }

  /** `getLines`: the text of lines `start..end` (inclusive) of `s`, looked up
      in the line index `offsets`; `end` is clamped to the last line. */
  function GetLines(s: string, offsets: seq<int>, start: int, end: int): (r: string)
    requires LineIndexOk(s, offsets)
    requires 0 <= start
    ensures end < start ==> r == ""
    ensures r == "" || exists i, j | 0 <= i <= j <= |s| :: r == s[i..j]
  {
    LineStartsIncreasing(s);
    if |offsets| == 0 || start >= |offsets| then ""
    else
      var last := if end >= |offsets| then |offsets| - 1 else end;
      if start > last then ""
      else
        var startOffset := offsets[start];
        var endOffset := if last + 1 < |offsets| then offsets[last + 1] - 1 else |s|;
        if startOffset >= |s| then ""
        else s[startOffset..if endOffset < |s| then endOffset else |s|]
  }

  // ---------------------------------------------------------------------
  // Properties of the line index

  lemma {:induction false} CountNewlinesAppend(a: string, b: string)
    ensures CountNewlines(a + b) == CountNewlines(a) + CountNewlines(b)
    decreases |b|
  {
    if |b| > 0 {
      var b' := b[..|b| - 1];
      assert (a + b)[..|a + b| - 1] == a + b';
      CountNewlinesAppend(a, b');
    } else {
      assert a + b == a;
    }
  }

  /** Every '\n' at or after `from` is followed by a line start in `StartsFrom`. */
  lemma {:induction false} StartsFromComplete(s: string, from: nat)
    requires from <= |s|
    ensures forall p :: from <= p < |s| && s[p] == '\n' ==> p + 1 in StartsFrom(s, from)
    decreases |s| - from
  {
    match NextNewline(s, from)
    case None =>
    case Some(q) =>
      StartsFromComplete(s, q + 1);
      var r := StartsFrom(s, from);
      assert r == [q + 1] + StartsFrom(s, q + 1);
      forall p | from <= p < |s| && s[p] == '\n'
        ensures p + 1 in r
      {
        if p == q {
          assert r[0] == p + 1;
        } else {
          var t := StartsFrom(s, q + 1);
          assert q < p && p + 1 in t;
          var k :| 0 <= k < |t| && t[k] == p + 1;
          assert r[k + 1] == p + 1;
        }
      }
  }

  /** There is one entry of `StartsFrom` per newline at or after `from`. */
  lemma {:induction false} StartsFromCount(s: string, from: nat)
    requires from <= |s|
    ensures |StartsFrom(s, from)| == CountNewlines(s[from..])
    decreases |s| - from
  {
    match NextNewline(s, from)
    case None =>
      NoNewlinesCount(s[from..]);
    case Some(q) =>
      StartsFromCount(s, q + 1);
      CountPastNewline(s, from, q);
  }

  /** Counting from `from` counts the first newline `q` and then the rest. */
  lemma CountPastNewline(s: string, from: nat, q: nat)
    requires from <= q < |s| && s[q] == '\n'
    requires forall j :: from <= j < q ==> s[j] != '\n'
    ensures CountNewlines(s[from..]) == 1 + CountNewlines(s[q + 1..])
  {
    var pre := s[from..q];
    assert s[from..] == (pre + [s[q]]) + s[q + 1..];
    NoNewlinesCount(pre);
    CountNewlinesAppend(pre + [s[q]], s[q + 1..]);
    CountNewlinesAppend(pre, [s[q]]);
    assert CountNewlines([s[q]]) == 1 by {
      assert [s[q]][..0] == [];
    }
  }

  lemma {:induction false} NoNewlinesCount(s: string)
    requires forall j :: 0 <= j < |s| ==> s[j] != '\n'
    ensures CountNewlines(s) == 0
  {
    if |s| > 0 {
      NoNewlinesCount(s[..|s| - 1]);
    }
  }

  /** The shape of the line index of a non-empty buffer: it starts at 0, is
      strictly increasing, every later entry is one past a '\n', every '\n' is
      followed by an entry, and there is one entry per line. */
  lemma LineStartsShape(s: string)
    requires |s| > 0
    ensures var L := LineStarts(s);
      && |L| == Height(s)
      && L[0] == 0
      && (forall i, j :: 0 <= i < j < |L| ==> L[i] < L[j])
      && (forall k :: 0 < k < |L| ==> 0 < L[k] <= |s| && s[L[k] - 1] == '\n')
      && (forall p :: 0 <= p < |s| && s[p] == '\n' ==> p + 1 in L)
  {
    StartsFromComplete(s, 0);
    StartsFromCount(s, 0);
    LineStartsIncreasing(s);
    assert s[0..] == s;
    var L := LineStarts(s);
    forall p | 0 <= p < |s| && s[p] == '\n'
      ensures p + 1 in L
    {
      assert p + 1 in StartsFrom(s, 0);
    }
  }

  /** No line start is negative. */
  lemma LineStartsNonneg(s: string)
    ensures forall k | 0 <= k < |LineStarts(s)| :: LineStarts(s)[k] >= 0
  {
    if |s| > 0 {
      LineStartsShape(s);
    }
  }

  /** The empty buffer has no line index. */
  lemma LineStartsEmpty()
    ensures LineStarts("") == []
  {
  }

  // ---------------------------------------------------------------------
  // Split and Join

  /** No line produced by Split contains a newline. */
  lemma {:induction false} LinesFromNoNewline(s: string, from: nat)
    requires from <= |s|
    ensures forall k, j :: 0 <= k < |LinesFrom(s, from)| && 0 <= j < |LinesFrom(s, from)[k]| ==>
      LinesFrom(s, from)[k][j] != '\n'
    decreases |s| - from
  {
    match NextNewline(s, from)
    case None =>
    case Some(p) =>
      LinesFromNoNewline(s, p + 1);
      var rest := LinesFrom(s, p + 1);
      assert LinesFrom(s, from) == [s[from..p]] + rest;
      forall k, j | 0 <= k < |LinesFrom(s, from)| && 0 <= j < |LinesFrom(s, from)[k]|
        ensures LinesFrom(s, from)[k][j] != '\n'
      {
        if k > 0 {
          assert LinesFrom(s, from)[k] == rest[k - 1];
        }
      }
  }

  lemma {:induction false} JoinLinesFrom(s: string, from: nat)
    requires from <= |s|
    ensures Join(LinesFrom(s, from)) == s[from..]
    decreases |s| - from
  {
    match NextNewline(s, from)
    case None =>
    case Some(p) =>
      JoinLinesFrom(s, p + 1);
      var rest := LinesFrom(s, p + 1);
      var lines := [s[from..p]] + rest;
      assert lines[1..] == rest;
      assert s[from..] == s[from..p] + "\n" + s[p + 1..];
  }

  /** Joining the lines of a buffer gives the buffer back, there is one line
      per line of height, and no line holds a newline. */
  lemma SplitJoin(s: string)
    ensures Join(Split(s)) == s
    ensures |Split(s)| == Height(s)
    ensures forall k, j :: 0 <= k < |Split(s)| && 0 <= j < |Split(s)[k]| ==> Split(s)[k][j] != '\n'
  {
    JoinLinesFrom(s, 0);
    assert s[0..] == s;
    StartsFromCount(s, 0);
    LinesFromNoNewline(s, 0);
  }

  /** Where line `b` of `s[from..]` ends, given the starts `P` of its lines. */
  function LineEnd(s: string, P: seq<int>, b: int): int
    requires 0 <= b < |P|
  {
    if b + 1 < |P| then P[b + 1] - 1 else |s|
  }

  /** The starts of the lines of `s[from..]`, the first one included. */
  function StartsWith(s: string, from: nat): (P: seq<int>)
    requires from <= |s|
    ensures |P| == |StartsFrom(s, from)| + 1 && P[0] == from
    ensures forall k :: 0 <= k < |P| ==> from <= P[k] <= |s|
    ensures forall i, j :: 0 <= i < j < |P| ==> P[i] < P[j]
  {
    StartsFromIncreasing(s, from);
    var P := [from] + StartsFrom(s, from);
    assert forall i, j :: 0 <= i < j < |P| ==> P[i] < P[j] by {
      forall i, j | 0 <= i < j < |P| ensures P[i] < P[j] {
        assert P[j] == StartsFrom(s, from)[j - 1];
        if i > 0 {
          assert P[i] == StartsFrom(s, from)[i - 1];
        }
      }
    }
    P
  }

  lemma LineEndBounds(s: string, from: nat, a: int, b: int)
    requires from <= |s|
    requires 0 <= a <= b < |StartsFrom(s, from)| + 1
    ensures var P := StartsWith(s, from); P[a] <= LineEnd(s, P, b) <= |s|
  {
    var P := StartsWith(s, from);
    if b + 1 < |P| {
      assert P[a] < P[b + 1];
    }
  }

  lemma {:induction false} JoinSlice(s: string, from: nat, a: int, b: int)
    requires from <= |s|
    requires 0 <= a <= b < |StartsFrom(s, from)| + 1
    ensures var P := StartsWith(s, from);
      P[a] <= LineEnd(s, P, b) <= |s| &&
      Join(LinesFrom(s, from)[a..b + 1]) == s[P[a]..LineEnd(s, P, b)]
    decreases |s| - from
  {
    LineEndBounds(s, from, a, b);
    var P := StartsWith(s, from);
    var lines := LinesFrom(s, from);
    match NextNewline(s, from)
    case None =>
      assert lines[a..b + 1] == [s[from..]];
    case Some(p) =>
      JoinSliceStep(s, from, p, a, b);
  }

  lemma {:induction false} JoinSliceStep(s: string, from: nat, p: nat, a: int, b: int)
    requires from <= |s|
    requires NextNewline(s, from) == Some(p)
    requires 0 <= a <= b < |StartsFrom(s, from)| + 1
    ensures var P := StartsWith(s, from);
      P[a] <= LineEnd(s, P, b) <= |s| &&
      Join(LinesFrom(s, from)[a..b + 1]) == s[P[a]..LineEnd(s, P, b)]
    decreases |s| - from, 1
  {
    LineEndBounds(s, from, a, b);
    if a > 0 {
      JoinSliceLater(s, from, p, a, b);
    } else if b == 0 {
      assert LinesFrom(s, from)[0..1] == [s[from..p]];
    } else {
      JoinSliceFirst(s, from, p, b);
    }
  }

  lemma {:induction false} JoinSliceLater(s: string, from: nat, p: nat, a: int, b: int)
    requires from <= |s|
    requires NextNewline(s, from) == Some(p)
    requires 0 < a <= b < |StartsFrom(s, from)| + 1
    ensures var P := StartsWith(s, from);
      Join(LinesFrom(s, from)[a..b + 1]) == s[P[a]..LineEnd(s, P, b)]
    decreases |s| - from, 0
  {
    UnfoldAt(s, from, p);
    JoinSlice(s, p + 1, a - 1, b - 1);
    ShiftSlice(s[from..p], LinesFrom(s, p + 1), a, b);
    ShiftLineEnd(s, from, p, a, b);
  }

  /** One step of the line recursion, for a buffer whose first newline after `from` is at `p`. */
  lemma UnfoldAt(s: string, from: nat, p: nat)
    requires from <= |s|
    requires NextNewline(s, from) == Some(p)
    ensures LinesFrom(s, from) == [s[from..p]] + LinesFrom(s, p + 1)
    ensures StartsWith(s, from) == [from] + StartsWith(s, p + 1)
  {
  }

  lemma ShiftLineEnd(s: string, from: nat, p: nat, a: int, b: int)
    requires from <= |s|
    requires NextNewline(s, from) == Some(p)
    requires 0 < a <= b < |StartsFrom(s, from)| + 1
    ensures var P := StartsWith(s, from); var P' := StartsWith(s, p + 1);
      P[a] == P'[a - 1] && LineEnd(s, P, b) == LineEnd(s, P', b - 1)
  {
    UnfoldAt(s, from, p);
  }

  lemma {:induction false} JoinSliceFirst(s: string, from: nat, p: nat, b: int)
    requires from <= |s|
    requires NextNewline(s, from) == Some(p)
    requires 0 < b < |StartsFrom(s, from)| + 1
    ensures var P := StartsWith(s, from);
      Join(LinesFrom(s, from)[0..b + 1]) == s[P[0]..LineEnd(s, P, b)]
    decreases |s| - from, 0
  {
    var P := StartsWith(s, from);
    var P' := StartsWith(s, p + 1);
    assert P == [from] + P';
    JoinSlice(s, p + 1, 0, b - 1);
    assert LineEnd(s, P, b) == LineEnd(s, P', b - 1);
    JoinFirstLine(s, from, p, b);
  }

  lemma ShiftSlice(x: string, rest: seq<string>, a: int, b: int)
    requires 0 < a <= b <= |rest|
    ensures ([x] + rest)[a..b + 1] == rest[a - 1..b]
  {
  }

  lemma JoinFirstLine(s: string, from: nat, p: nat, b: int)
    requires from <= |s|
    requires NextNewline(s, from) == Some(p)
    requires 0 < b < |StartsFrom(s, from)| + 1
    requires var P' := StartsWith(s, p + 1);
      p + 1 <= LineEnd(s, P', b - 1) <= |s| &&
      Join(LinesFrom(s, p + 1)[0..b]) == s[p + 1..LineEnd(s, P', b - 1)]
    ensures var e := LineEnd(s, StartsWith(s, p + 1), b - 1);
      Join(LinesFrom(s, from)[0..b + 1]) == s[from..e]
  {
    var e := LineEnd(s, StartsWith(s, p + 1), b - 1);
    var tail := LinesFrom(s, p + 1)[0..b];
    var lines := LinesFrom(s, from)[0..b + 1];
    assert lines == [s[from..p]] + tail;
    assert lines[1..] == tail;
    assert Join(lines) == s[from..p] + "\n" + s[p + 1..e];
    CutAtNewline(s, from, p, e);
  }

  /** A slice across a '\n' is the part before it, the newline, and the part after it. */
  lemma CutAtNewline(s: string, from: nat, p: nat, e: nat)
    requires from <= p < e <= |s| && s[p] == '\n'
    ensures s[from..e] == s[from..p] + "\n" + s[p + 1..e]
  {
    assert s[from..e] == s[from..p] + s[p..e];
    assert s[p..e] == [s[p]] + s[p + 1..e];
  }

  /** `getLines(start, end)` over the index built for `s` is exactly lines
      `start..end` of `s` joined by '\n', with `end` clamped to the last line;
      it is empty when `start` is past the last line or after `end`. */
  lemma GetLinesIsJoinOfLines(s: string, start: int, end: int)
    requires 0 <= start
    ensures |s| == 0 || start >= |Split(s)| || start > end ==> GetLines(s, LineStarts(s), start, end) == ""
    ensures |s| > 0 && start <= end < |Split(s)| ==> GetLines(s, LineStarts(s), start, end) == Join(Split(s)[start..end + 1])
    ensures |s| > 0 && start < |Split(s)| <= end ==> GetLines(s, LineStarts(s), start, end) == Join(Split(s)[start..])
  {
    var n := |Split(s)|;
    if |s| > 0 && start < n && start <= end {
      assert n == |StartsFrom(s, 0)| + 1;
      if end < n {
        GetLinesAt(s, start, end, end);
      } else {
        GetLinesAt(s, start, end, n - 1);
        assert Split(s)[start..n] == Split(s)[start..];
      }
    } else if |s| > 0 {
      assert n == |LineStarts(s)|;
    }
  }

  /** Over an empty buffer `getLines` returns nothing, whatever is left
      in its line index. */
  lemma GetLinesOfEmpty(offsets: seq<int>, start: int, end: int)
    requires LineIndexOk([], offsets) && 0 <= start
    ensures GetLines([], offsets, start, end) == ""
  {
    if 0 <= start < |offsets| {
      assert offsets[start] >= 0;
    }
  }

  /** Lines `start..last` of `s`, `last` being `end` clamped to the last
      line, are what `getLines` slices out of `s`. */
  lemma GetLinesAt(s: string, start: int, end: int, last: int)
    requires |s| > 0
    requires 0 <= start <= last < |StartsFrom(s, 0)| + 1
    requires last == if end < |StartsFrom(s, 0)| + 1 then end else |StartsFrom(s, 0)|
    ensures GetLines(s, LineStarts(s), start, end) == Join(Split(s)[start..last + 1])
  {
    var P := StartsWith(s, 0);
    assert LineStarts(s) == P;
    LineEndBounds(s, 0, start, last);
    GetLinesSlice(s, P, start, end, last);
    JoinSlice(s, 0, start, last);
  }

  /** `getLines` over the index of `s`, for a range that holds a line. */
  lemma GetLinesSlice(s: string, offsets: seq<int>, start: int, end: int, last: int)
    requires offsets == LineStarts(s)
    requires 0 <= start <= last < |offsets| && last == (if end >= |offsets| then |offsets| - 1 else end)
    requires offsets[start] <= LineEnd(s, offsets, last) <= |s|
    ensures GetLines(s, offsets, start, end) == s[offsets[start]..LineEnd(s, offsets, last)]
  {
  }
}
