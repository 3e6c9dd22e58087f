/**
 Assignment of event times to tumbling, sliding and session windows. Times, sizes and
 slides are in microseconds; every boundary is aligned to the epoch.
 */
module Windows {
  import opened Prelude

  const SECOND: int := 1_000_000

  /** A half-open interval. */
  datatype Window = Window(start: int, end: int)

  predicate Contains(w: Window, t: int) {
    w.start <= t < w.end
  }

  ghost predicate SortedByStart(ws: seq<Window>) {
    forall i, j :: 0 <= i < j < |ws| ==> ws[i].start < ws[j].start
  }

  // ------------------------------------------------------------------ sliding

  /** An epoch-aligned window of the given size and slide that holds `ts`. */
  predicate Assigned(size: int, slide: int, ts: int, w: Window)
    requires slide > 0
  {
    w.end == w.start + size && w.start % slide == 0 && Contains(w, ts)
  }

  lemma {:induction false} Multiple(slide: int, k: int)
    requires slide > 0
    ensures (slide * k) % slide == 0 && (slide * k) / slide == k
  {
    DivMod(slide, slide * k, k, 0);
  }

  /** Quotient and remainder are unique. */
  lemma DivMod(d: int, x: int, q: int, r: int)
    requires d > 0 && x == d * q + r && 0 <= r < d
    ensures x / d == q && x % d == r
  {
    var p := x / d;
    assert x == d * p + x % d;
    assert d * (p - q) == r - x % d;
    if p > q {
      Scale(d, p - q);
    } else if p < q {
      Scale(d, q - p);
    }
  }

  lemma Scale(d: int, k: int)
    requires d > 0 && k >= 1
    ensures d * k >= d
  {
    if k > 1 {
      assert d * (k - 1) > 0;
    }
  }

  /** The `k`-th candidate start, counting back from the last one at or before `ts`. */
  function StartAt(slide: int, ts: int, k: int): int
    requires slide > 0
  {
    slide * (ts / slide - k)
  }

  /** Every aligned start not after `ts` is a candidate. */
  lemma IsCandidate(slide: int, ts: int, start: int) returns (k: nat)
    requires slide > 0 && start % slide == 0 && start <= ts
    ensures start == StartAt(slide, ts, k)
  {
    var q := start / slide;
    assert start == slide * q;
    var p := ts / slide;
    assert ts == slide * p + ts % slide;
    assert slide * (q - p) == start - slide * p;
    if q > p {
      Scale(slide, q - p);
    }
    k := p - q;
  }

  lemma Candidates(slide: int, ts: int, k: int)
    requires slide > 0
    ensures StartAt(slide, ts, k) % slide == 0
    ensures StartAt(slide, ts, k + 1) == StartAt(slide, ts, k) - slide
    ensures StartAt(slide, ts, 0) <= ts < StartAt(slide, ts, 0) + slide
  {
    Multiple(slide, ts / slide - k);
    assert slide * (ts / slide - (k + 1)) == slide * (ts / slide - k) - slide;
  }

  /** Starts fall strictly as the index grows. */
  lemma {:induction false} Falling(slide: int, ts: int, j: nat, k: nat)
    requires slide > 0 && j < k
    ensures StartAt(slide, ts, k) < StartAt(slide, ts, j)
    decreases k
  {
    Candidates(slide, ts, k - 1);
    if j < k - 1 {
      Falling(slide, ts, j, k - 1);
    }
  }

  function Reverse(ws: seq<Window>): (r: seq<Window>)
    ensures |r| == |ws| && forall i :: 0 <= i < |r| ==> r[i] == ws[|ws| - 1 - i]
  {
    seq(|ws|, i requires 0 <= i < |ws| => ws[|ws| - 1 - i])
  }

  /** What the loop has appended: the windows of the first candidates, latest first. */
  ghost predicate Collected(size: int, slide: int, ts: int, out: seq<Window>)
    requires slide > 0
  {
    forall i :: 0 <= i < |out| ==> out[i] == Window(StartAt(slide, ts, i), StartAt(slide, ts, i) + size)
  }

  lemma CollectedSorted(size: int, slide: int, ts: int, out: seq<Window>)
    requires slide > 0 && Collected(size, slide, ts, out)
    ensures SortedByStart(Reverse(out))
  {
    var r := Reverse(out);
    forall i, j | 0 <= i < j < |r| ensures r[i].start < r[j].start {
      Falling(slide, ts, |out| - 1 - j, |out| - 1 - i);
    }
  }

  lemma CollectedExact(size: int, slide: int, ts: int, out: seq<Window>, w: Window)
    requires 0 < slide <= size && Collected(size, slide, ts, out)
    requires StartAt(slide, ts, |out|) + size <= ts
    requires forall i :: 0 <= i < |out| ==> StartAt(slide, ts, i) <= ts < StartAt(slide, ts, i) + size
    ensures w in out <==> Assigned(size, slide, ts, w)
  {
    if w in out {
      var i :| 0 <= i < |out| && out[i] == w;
      Candidates(slide, ts, i);
    }
    if Assigned(size, slide, ts, w) {
      var k := IsCandidate(slide, ts, w.start);
      if k > |out| {
        Falling(slide, ts, |out|, k);
      }
      assert k < |out|;
      assert out[k] == w;
    }
  }

  /**
   `SlidingWindower.assign`: strictly sorted and without repetition, precisely the aligned windows
   that hold the timestamp; the second guard of the loop never decides.
   */
  method AssignSliding(size: int, slide: int, ts: int) returns (r: seq<Window>)
    requires 0 < slide <= size
    ensures SortedByStart(r)
    ensures forall w :: w in r <==> Assigned(size, slide, ts, w)
    ensures size % slide == 0 ==> |r| == size / slide
  {
    var lastStart := slide * (ts / slide);
    var out: seq<Window> := [];
    var start := lastStart;
    Candidates(slide, ts, 0);
    while start + size > ts && start >= lastStart - size
      invariant start == StartAt(slide, ts, |out|) <= ts && lastStart == StartAt(slide, ts, 0)
      invariant Collected(size, slide, ts, out)
      invariant forall i :: 0 <= i < |out| ==> StartAt(slide, ts, i) <= ts < StartAt(slide, ts, i) + size
      decreases start + size - ts
    {
      Candidates(slide, ts, |out|);
      if start <= ts < start + size {
        out := out + [Window(start, start + size)];
      }
      start := start - slide;
    }
    CollectedSorted(size, slide, ts, out);
    forall w ensures w in out <==> Assigned(size, slide, ts, w) {
      CollectedExact(size, slide, ts, out, w);
    }
    if size % slide == 0 {
      ExactCount(size, slide, ts, |out|);
    }
    r := Reverse(out);
    SameElements(out);
  }

  lemma SameElements(ws: seq<Window>)
    ensures forall w :: w in Reverse(ws) <==> w in ws
  {
    var r := Reverse(ws);
    forall w | w in ws ensures w in r {
      var i :| 0 <= i < |ws| && ws[i] == w;
      assert r[|ws| - 1 - i] == w;
    }
  }

  /** With a slide that divides the size, the loop stops after exactly `size / slide` windows. */
  lemma ExactCount(size: int, slide: int, ts: int, n: nat)
    requires 0 < slide <= size && size % slide == 0
    requires StartAt(slide, ts, n) + size <= ts
    requires forall i :: 0 <= i < n ==> StartAt(slide, ts, i) + size > ts
    ensures n == size / slide
  {
    var m := size / slide;
    assert size == slide * m;
    Candidates(slide, ts, 0);
    assert StartAt(slide, ts, m) == StartAt(slide, ts, 0) - size by {
      assert slide * (ts / slide - m) == slide * (ts / slide) - slide * m;
    }
    if n < m {
      NotYet(slide, ts, n, m);
    }
  }

  lemma NotYet(slide: int, ts: int, n: nat, m: nat)
    requires slide > 0 && n < m
    ensures StartAt(slide, ts, n) >= StartAt(slide, ts, m) + slide
  {
    Candidates(slide, ts, m - 1);
    if n < m - 1 {
      Falling(slide, ts, n, m - 1);
    }
  }

  /** `TumblingWindower.assign`: the one aligned window of the size that holds the timestamp. */
  function AssignTumbling(size: int, ts: int): (w: Window)
    requires size > 0
    ensures Assigned(size, size, ts, w)
  {
    Candidates(size, ts, 0);
    Window(size * (ts / size), size * (ts / size) + size)
  }

  /** Tumbling windows tile the time line: a timestamp is in one aligned window and no other. */
  lemma TumblingUnique(size: int, ts: int, w: Window)
    requires size > 0 && Assigned(size, size, ts, w)
    ensures w == AssignTumbling(size, ts)
  {
    var k := IsCandidate(size, ts, w.start);
    Candidates(size, ts, 0);
    if k > 0 {
      NotYet(size, ts, 0, k);
    }
  }

  // ------------------------------------------------------------------ sessions

  datatype Session = Session(start: int, end: int, size: int, group: string)

  /** A provisional session for one event. */
  function AssignSession(gap: int, ts: int, group: string): Session {
    Session(ts, ts + gap * SECOND, gap, group)
  }

  /** Sessions are not empty: gaps are positive. */
  predicate Proper(s: Session) {
    s.start < s.end
  }

  predicate Within(s: Session, t: int) {
    s.start <= t < s.end
  }

  function Min(a: int, b: int): int {
    if a <= b then a else b
  }

  /** `SessionWindower.merge`; the size is the length in whole seconds. */
  function MergeSessions(a: Session, b: Session): Option<Session> {
    if a.group != b.group then None
    else if a.start <= b.end && b.start <= a.end then
      var start, end := Min(a.start, b.start), Max(a.end, b.end);
      Some(Session(start, end, (end - start) / SECOND, a.group))
    else None
  }

  /** The recorded size is the length in whole seconds, the fraction dropped. */
  lemma MergedSize(a: Session, b: Session)
    requires MergeSessions(a, b).Some?
    ensures
      var c := MergeSessions(a, b).value;
      c.size * 1_000_000 <= c.end - c.start < (c.size + 1) * 1_000_000
  {
  }

  /** `[start, end)` is the union of the two sessions. */
  ghost predicate IsUnion(a: Session, b: Session, start: int, end: int) {
    forall t :: start <= t < end <==> Within(a, t) || Within(b, t)
  }

  /** Two sessions merge exactly when they share a group and their union is one interval, and the result is it. */
  lemma MergeIffUnion(a: Session, b: Session)
    requires Proper(a) && Proper(b)
    ensures MergeSessions(a, b).Some? <==> a.group == b.group && exists start, end :: IsUnion(a, b, start, end)
    ensures MergeSessions(a, b).Some? ==>
              var c := MergeSessions(a, b).value;
              Proper(c) && c.group == a.group && IsUnion(a, b, c.start, c.end)
  {
    if MergeSessions(a, b).Some? {
      var c := MergeSessions(a, b).value;
      assert IsUnion(a, b, c.start, c.end);
    } else if a.group == b.group {
      forall start, end ensures !IsUnion(a, b, start, end) {
        GapSplits(a, b, start, end);
      }
    }
  }

  /** Sessions that do not touch leave a point between them out. */
  lemma GapSplits(a: Session, b: Session, start: int, end: int)
    requires Proper(a) && Proper(b) && (a.end < b.start || b.end < a.start)
    ensures !IsUnion(a, b, start, end)
  {
    var t := if a.end < b.start then a.end else b.end;
    assert Within(a, a.start) && Within(b, b.start) && !Within(a, t) && !Within(b, t);
  }

  lemma MergeSymmetric(a: Session, b: Session)
    ensures MergeSessions(a, b) == MergeSessions(b, a)
  {
  }

  /** Where the first two and the last two merge, all three do, in either order and with the same result. */
  lemma MergeAssociative(a: Session, b: Session, c: Session)
    requires Proper(a) && Proper(b) && Proper(c)
    requires MergeSessions(a, b).Some? && MergeSessions(b, c).Some?
    ensures MergeSessions(MergeSessions(a, b).value, c).Some?
    ensures MergeSessions(MergeSessions(a, b).value, c) == MergeSessions(a, MergeSessions(b, c).value)
  {
  }

  /** Two events of a group share a session exactly when they are at most the gap apart. */
  lemma EventsMergeIff(gap: int, t: int, u: int, group: string)
    requires gap > 0
    ensures MergeSessions(AssignSession(gap, t, group), AssignSession(gap, u, group)).Some? <==>
            -gap * SECOND <= t - u <= gap * SECOND
  {
  }
}
