/**
 Which minutes an ordinary flush finalises, told by event times and clock readings alone.
 */
module AnalyticsFlush {
  import opened Prelude
  import opened EventTime
  import opened SortedSets
  import opened Metrics
  import opened Analytics
  import opened AnalyticsRuns

  /** How far the clock has run past the idle limit since `lastSeen`. */
  function Idle(lastSeen: Time, idleAdvance: int, now: Time): int {
    Max(now - lastSeen - idleAdvance, 0)
  }

  /** The newest event time and the idle excess have reached the end of the minute `b` plus the lateness twice. */
  ghost predicate Past(es: seq<Event>, lateness: int, idle: int, b: Time) {
    exists i :: 0 <= i < |es| && es[i].time + idle >= b + 60_000_000 + 2 * lateness
  }

  /** The same in terms of a watermark's fields. */
  predicate PastMark(m: Mark, b: Time, now: Time) {
    && m.maxSeen.Some?
    && m.maxSeen.value + Idle(m.lastWall, m.idleAdvance, now) >= b + 60_000_000 + 2 * m.lateness
  }

  lemma DueIff(m: Mark, b: Time, now: Time)
    ensures Due(m, b, now) <==> PastMark(m, b, now)
  {
  }

  // ------------------------------------------------------- the mark over a run

  /** The clock reading of the last observation, or of the start. */
  function LastSeen(start: Time, steps: seq<Step>): Time {
    if steps == [] then start
    else
      var s := steps[|steps| - 1];
      if s.Handle? then s.observedAt else LastSeen(start, steps[..|steps| - 1])
  }

  ghost predicate MarkIs(m: Mark, lateness: int, idleAdvance: int, start: Time, steps: seq<Step>) {
    && m.lateness == lateness && m.idleAdvance == idleAdvance
    && m.lastWall == LastSeen(start, steps) && m.maxSeen == MaxTime(Times(Events(steps)))
  }

  lemma StepMark(catalog: Catalog, s: State, step: Step)
    requires Enabled(s, step)
    ensures Apply(catalog, s, step).mark ==
            if step.Handle? then Observed(s.mark, step.e.time, step.observedAt) else s.mark
  {
    if step.Handle? {
      HandledShape(catalog, s, step.e, step.observedAt, step.classifiedAt);
    } else {
      FlushShape(catalog, s, step);
    }
  }

  lemma {:induction false} MarkHolds(catalog: Catalog, lateness: int, idleAdvance: int, start: Time, steps: seq<Step>)
    requires Legal(catalog, Fresh(lateness, idleAdvance, start), steps)
    ensures MarkIs(After(catalog, Fresh(lateness, idleAdvance, start), steps).mark, lateness, idleAdvance, start, steps)
  {
    if steps != [] {
      var n := |steps| - 1;
      MarkHolds(catalog, lateness, idleAdvance, start, steps[..n]);
      StepMark(catalog, After(catalog, Fresh(lateness, idleAdvance, start), steps[..n]), steps[n]);
      if steps[n].Handle? {
        assert Events(steps) == Events(steps[..n]) + [steps[n].e];
        TimesSnoc(Events(steps[..n]), steps[n].e);
        MaxTimeSnoc(Times(Events(steps[..n])), steps[n].e.time);
      } else {
        assert Events(steps) == Events(steps[..n]);
      }
    }
  }

  lemma PastMarkIff(m: Mark, es: seq<Event>, b: Time, now: Time)
    requires m.maxSeen == MaxTime(Times(es))
    ensures PastMark(m, b, now) <==> Past(es, m.lateness, Idle(m.lastWall, m.idleAdvance, now), b)
  {
    var ts := Times(es);
    MaxTimeIsMax(ts);
    if PastMark(m, b, now) {
      var i :| 0 <= i < |ts| && ts[i] == m.maxSeen.value;
      assert es[i].time == ts[i];
    }
    if i :| 0 <= i < |es| && es[i].time + Idle(m.lastWall, m.idleAdvance, now) >= b + 60_000_000 + 2 * m.lateness {
      assert ts[i] == es[i].time;
    }
  }

  // ------------------------------------------------------------- the flush

  /**
   In every run, whatever its clocks: a flush that begins at `now` lines up, in ascending order, exactly the open
   minutes whose end plus twice the lateness the newest event time and the idle excess have reached.
   */
  lemma FlushPicks(catalog: Catalog, lateness: int, idleAdvance: int, start: Time, steps: seq<Step>, now: Time, b: Time)
    requires Legal(catalog, Fresh(lateness, idleAdvance, start), steps)
    requires Enabled(After(catalog, Fresh(lateness, idleAdvance, start), steps), BeginFlush(now))
    ensures
      var s := After(catalog, Fresh(lateness, idleAdvance, start), steps);
      var ready := Apply(catalog, s, BeginFlush(now)).ready;
      && (forall i, j :: 0 <= i < j < |ready| ==> ready[i] < ready[j])
      && (b in ready <==>
            b in s.open && Past(Events(steps), lateness, Idle(LastSeen(start, steps), idleAdvance, now), b))
  {
    var s := After(catalog, Fresh(lateness, idleAdvance, start), steps);
    MarkHolds(catalog, lateness, idleAdvance, start, steps);
    DueIff(s.mark, b, now);
    PastMarkIff(s.mark, Events(steps), b, now);
  }

  /** So many minutes finalised, every persist taken. */
  function Finalizes(n: nat): seq<Step> {
    if n == 0 then [] else Finalizes(n - 1) + [Finalize(true)]
  }

  /** The first `n` of the minutes lined up are closed with their rows; nothing else has changed. */
  ghost predicate ClosedFirst(catalog: Catalog, s: State, n: nat, s': State) {
    && n <= |s.ready| && s'.ready == s.ready[n..]
    && s'.mark == s.mark && s'.store == s.store && s'.late == s.late
    && (forall b :: b in s'.open <==> b in s.open && b !in s.ready[..n])
    && (forall b :: b in s.ready[..n] ==> b in s'.rows && s'.rows[b] == RowOf(catalog, s.store, b))
    && (forall b :: b !in s.ready[..n] ==>
          (b in s'.rows <==> b in s.rows) && (b in s.rows ==> s'.rows[b] == s.rows[b]))
  }

  lemma CloseOne(catalog: Catalog, s: State, n: nat, m: State)
    requires ClosedFirst(catalog, s, n, m) && n < |s.ready|
    ensures Enabled(m, Finalize(true)) && ClosedFirst(catalog, s, n + 1, Apply(catalog, m, Finalize(true)))
  {
    assert s.ready[..n + 1] == s.ready[..n] + [s.ready[n]];
    assert s.ready[n..][0] == s.ready[n] && s.ready[n..][1..] == s.ready[n + 1..];
  }

  lemma FinalizesSnoc(steps: seq<Step>, n: nat)
    requires n > 0
    ensures steps + Finalizes(n) == steps + Finalizes(n - 1) + [Finalize(true)]
  {
  }

  lemma {:induction false} CloseMany(catalog: Catalog, s0: State, steps: seq<Step>, s: State, es: seq<Event>, n: nat)
    returns (s': State, all: seq<Step>)
    requires Reached(catalog, s0, steps, s, es) && n <= |s.ready|
    ensures all == steps + Finalizes(n) && Reached(catalog, s0, all, s', es) && ClosedFirst(catalog, s, n, s')
  {
    if n == 0 {
      s', all := s, steps;
      assert steps + [] == steps;
    } else {
      var m, most := CloseMany(catalog, s0, steps, s, es, n - 1);
      CloseOne(catalog, s, n - 1, m);
      s' := FinalizeReached(catalog, s0, most, m, es);
      FinalizesSnoc(steps, n);
      all := most + [Finalize(true)];
    }
  }

  lemma FinalizeReached(catalog: Catalog, s0: State, steps: seq<Step>, m: State, es: seq<Event>) returns (s': State)
    requires Reached(catalog, s0, steps, m, es) && Enabled(m, Finalize(true))
    ensures s' == Apply(catalog, m, Finalize(true)) && Reached(catalog, s0, steps + [Finalize(true)], s', es)
  {
    s' := Apply(catalog, m, Finalize(true));
    ReachedQuietly(catalog, s0, steps, m, es, Finalize(true), s');
  }

  /** Exactly the past minutes are closed, with their rows. */
  ghost predicate ClosesPast(catalog: Catalog, es: seq<Event>, lateness: int, idle: int, s: State, s': State) {
    && (forall b :: b in s'.open <==> b in s.open && !Past(es, lateness, idle, b))
    && (forall b :: b in s.open && Past(es, lateness, idle, b) ==>
          b in s'.rows && s'.rows[b] == RowOf(catalog, s.store, b))
    && (forall b :: !(b in s.open && Past(es, lateness, idle, b)) ==>
          (b in s'.rows <==> b in s.rows) && (b in s.rows ==> s'.rows[b] == s.rows[b]))
  }

  lemma AllClosed(catalog: Catalog, es: seq<Event>, lateness: int, idle: int, s: State, begun: State, s': State)
    requires begun.open == s.open && begun.rows == s.rows && begun.store == s.store
    requires forall b :: b in begun.ready <==> b in s.open && Past(es, lateness, idle, b)
    requires ClosedFirst(catalog, begun, |begun.ready|, s')
    ensures ClosesPast(catalog, es, lateness, idle, s, s') && s'.ready == []
  {
    assert begun.ready[..|begun.ready|] == begun.ready;
  }

  /**
   In every run, a flush whose persists all succeed leaves no such minute open, closes no other, and writes the
   rows of exactly those it closes.
   */
  lemma FlushCloses(catalog: Catalog, lateness: int, idleAdvance: int, start: Time, steps: seq<Step>, s: State,
                    now: Time)
    returns (s': State, all: seq<Step>)
    requires Reached(catalog, Fresh(lateness, idleAdvance, start), steps, s, Events(steps))
    requires Enabled(s, BeginFlush(now))
    ensures exists n :: all == steps + [BeginFlush(now)] + Finalizes(n)
    ensures Reached(catalog, Fresh(lateness, idleAdvance, start), all, s', Events(steps)) && s'.ready == []
    ensures ClosesPast(catalog, Events(steps), lateness, Idle(LastSeen(start, steps), idleAdvance, now), s, s')
  {
    var begun := FlushBegins(catalog, lateness, idleAdvance, start, steps, s, now);
    s', all := CloseMany(catalog, Fresh(lateness, idleAdvance, start), steps + [BeginFlush(now)], begun, Events(steps),
                         |begun.ready|);
    AllClosed(catalog, Events(steps), lateness, Idle(LastSeen(start, steps), idleAdvance, now), s, begun, s');
  }

  lemma FlushBegins(catalog: Catalog, lateness: int, idleAdvance: int, start: Time, steps: seq<Step>, s: State,
                    now: Time)
    returns (begun: State)
    requires Reached(catalog, Fresh(lateness, idleAdvance, start), steps, s, Events(steps))
    requires Enabled(s, BeginFlush(now))
    ensures Reached(catalog, Fresh(lateness, idleAdvance, start), steps + [BeginFlush(now)], begun, Events(steps))
    ensures begun.open == s.open && begun.rows == s.rows && begun.store == s.store
    ensures forall b :: b in begun.ready <==>
                        b in s.open && Past(Events(steps), lateness, Idle(LastSeen(start, steps), idleAdvance, now), b)
  {
    begun := Apply(catalog, s, BeginFlush(now));
    ReachedQuietly(catalog, Fresh(lateness, idleAdvance, start), steps, s, Events(steps), BeginFlush(now), begun);
    FlushShape(catalog, s, BeginFlush(now));
    forall b
      ensures b in begun.ready <==>
              b in s.open && Past(Events(steps), lateness, Idle(LastSeen(start, steps), idleAdvance, now), b)
    {
      FlushPicks(catalog, lateness, idleAdvance, start, steps, now, b);
    }
  }
}
