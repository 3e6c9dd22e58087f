/**
 The analytics processor as the object it is: `handle` and `_flush` update its
 watermark, its open minutes, the Redis accumulators and the stored rows.
 */
module AnalyticsProcessor {
  import opened Prelude
  import opened EventTime
  import opened Metrics
  import opened Analytics
  import opened AnalyticsRuns
  import opened AnalyticsFlush
  import opened SortedSets

  class Processor {
    const catalog: Catalog
    const wm: Watermark
    var openBuckets: set<Time>
    var store: Store
    var late: map<Time, nat>
    var rows: map<Time, Row>

    constructor (catalog: Catalog, lateness: int, idleAdvance: int, now: Time)
      ensures fresh(wm) && this.catalog == catalog
      ensures Snapshot([]) == Fresh(lateness, idleAdvance, now)
    {
      this.catalog := catalog;
      wm := new Watermark(lateness, idleAdvance, now);
      openBuckets, store, late, rows := {}, map[], map[], map[];
    }

    /** The state of the transition system, with the minutes that a flush still has to finalise. */
    function Snapshot(ready: seq<Time>): State
      reads this, wm
    {
      State(wm.State(), openBuckets, store, late, rows, ready)
    }

    /** `handle`: observe, classify, then drop the event or fold its contributions. */
    method Handle(e: Event, observedAt: Time, classifiedAt: Time)
      modifies this, wm
      ensures forall ready :: Snapshot(ready) == Handled(catalog, old(Snapshot(ready)), e, observedAt, classifiedAt)
      ensures OpensMinute(wm.State(), e.time, classifiedAt, old(openBuckets), openBuckets)
    {
      MinuteOpened(e.time);
      wm.Observe(e.time, observedAt);
      var bucket := BucketOf(e.time);
      var klass := wm.Classify(bucket + BUCKET, classifiedAt);
      if klass.TooLate? {
        late := BumpLate(late, bucket);
        return;
      }
      if klass.AcceptedLate? {
        late := BumpLate(late, bucket);
      }
      openBuckets := openBuckets + {bucket};
      var contributions := ClassifyEvent(catalog, e);
      FoldContributions(e, contributions);
    }

    /** The nested loops over contributions and group keys. */
    method FoldContributions(e: Event, contributions: seq<Contribution>)
      modifies this`store
      ensures store == AddAll(old(store), e, contributions)
    {
      for i := 0 to |contributions|
        invariant store == AddAll(old(store), e, contributions[..i])
      {
        assert contributions[..i + 1][..i] == contributions[..i];
        var c := contributions[i];
        var groups := Groups(c.def, e);
        ghost var before := store;
        for j := 0 to |groups|
          invariant store == AddTo(before, BucketOf(e.time), c, groups[..j])
        {
          assert groups[..j + 1][..j] == groups[..j];
          store := Touch(store, Key(c.def.name, BucketOf(e.time), groups[j]), c.delta);
        }
        assert groups[..|groups|] == groups;
      }
      assert contributions[..|contributions|] == contributions;
    }

    /** `next(d for d in METRIC_DEFS if d.name == name)`: the first definition of the name. */
    method FindDef(name: string) returns (def: MetricDef)
      requires name in Names(catalog)
      ensures def == FirstDef(catalog, name)
    {
      var i := 0;
      assert catalog[0..] == catalog;
      while catalog[i].name != name
        invariant 0 <= i < |catalog| && name in Names(catalog[i..])
        invariant FirstDef(catalog, name) == FirstDef(catalog[i..], name)
        decreases |catalog| - i
      {
        LaterName(catalog[i..], name);
        assert catalog[i..][1..] == catalog[i + 1..];
        i := i + 1;
      }
      def := catalog[i];
    }

    /** The loop over the metric names: read each accumulator of the minute by its kind. */
    method ReadSamples(bucket: Time) returns (raw: Samples)
      ensures raw == RawOf(catalog, store, bucket)
    {
      raw := map[];
      var rest := Names(catalog);
      while rest != {}
        invariant rest <= Names(catalog)
        invariant forall name :: name in raw <==> name in Names(catalog) && name !in rest
        invariant forall name :: name in raw ==> raw[name] == RawOf(catalog, store, bucket)[name]
      {
        var name :| name in rest;
        var def := FindDef(name);
        raw := raw[name := SampleOf(def.kind, AccAt(store, Key(name, bucket, "_all")))];
        rest := rest - {name};
      }
    }

    /** `_finalize_bucket`: read, compose, write; `persisted` says whether the database took the row. */
    method FinalizeBucket(bucket: Time, persisted: bool)
      modifies this`rows
      ensures rows == if persisted then old(rows)[bucket := RowOf(catalog, store, bucket)] else old(rows)
    {
      var raw := ReadSamples(bucket);
      var samples := ComposeMetrics(raw);
      if persisted {
        rows := rows[bucket := samples];
      }
    }

    /** The minutes a flush will finalise, in order. */
    method ReadyBuckets(force: bool, now: Time) returns (ready: seq<Time>)
      ensures forall i, j :: 0 <= i < j < |ready| ==> ready[i] < ready[j]
      ensures forall b :: b in ready <==> b in openBuckets && (force || PastMark(wm.State(), b, now))
      ensures ready ==
              if force then Sorted(openBuckets) else Sorted(set b | b in openBuckets && Due(wm.State(), b, now))
    {
      forall b ensures Due(wm.State(), b, now) <==> PastMark(wm.State(), b, now) {
        DueIff(wm.State(), b, now);
      }
      var value := wm.CurrentValue(now);
      if force {
        return Sorted(openBuckets);
      }
      var due := set b | b in openBuckets && value.Some? && value.value >= b + BUCKET + wm.allowedLateness;
      assert due == set b | b in openBuckets && Due(wm.State(), b, now);
      return Sorted(due);
    }

    /** The flush picks its minutes. */
    method StartFlush(force: bool, now: Time) returns (ready: seq<Time>, ghost steps: seq<Step>)
      ensures forall b :: b in ready <==> b in openBuckets && (force || PastMark(wm.State(), b, now))
      ensures Reached(catalog, Snapshot([]), steps, Snapshot(ready), [])
    {
      ready := ReadyBuckets(force, now);
      ghost var first := if force then BeginForced else BeginFlush(now);
      ReachedQuietly(catalog, Snapshot([]), [], Snapshot([]), [], first, Snapshot(ready));
      steps := [] + [first];
    }

    /** One turn of the flush loop. */
    method FlushOne(bucket: Time, persisted: bool, ghost s0: State, ghost steps: seq<Step>, ghost ready: seq<Time>)
      returns (ok: bool, ghost next: seq<Step>)
      requires ready != [] && ready[0] == bucket && Reached(catalog, s0, steps, Snapshot(ready), [])
      modifies this`rows, this`openBuckets
      ensures ok == persisted
      ensures openBuckets == if ok then old(openBuckets) - {bucket} else old(openBuckets)
      ensures rows == if ok then old(rows)[bucket := RowOf(catalog, store, bucket)] else old(rows)
      ensures Reached(catalog, s0, next, Snapshot(if ok then ready[1..] else []), [])
    {
      ghost var s := Snapshot(ready);
      FinalizeBucket(bucket, persisted);
      ok := persisted;
      if persisted {
        openBuckets := openBuckets - {bucket};
        ReachedQuietly(catalog, s0, steps, s, [], Finalize(true), Snapshot(ready[1..]));
      } else {
        ReachedQuietly(catalog, s0, steps, s, [], Finalize(false), Snapshot([]));
      }
      next := steps + [Finalize(persisted)];
    }

    /** The loop over the minutes lined up; it ends at the first persist that fails. `n` minutes are closed. */
    method FlushReady(ready: seq<Time>, persisted: Time -> bool, ghost s0: State, ghost steps0: seq<Step>)
      returns (ghost n: nat, ghost steps: seq<Step>)
      requires Reached(catalog, s0, steps0, Snapshot(ready), [])
      modifies this`rows, this`openBuckets
      ensures Reached(catalog, s0, steps, Snapshot([]), [])
      ensures n <= |ready| && FlushedTo(catalog, store, old(openBuckets), old(rows), ready[..n], openBuckets, rows)
      ensures (forall k :: 0 <= k < n ==> persisted(ready[k])) && (n == |ready| || !persisted(ready[n]))
    {
      n, steps := 0, steps0;
      assert ready[0..] == ready;
      for i := 0 to |ready|
        invariant n == i && Reached(catalog, s0, steps, Snapshot(ready[i..]), [])
        invariant FlushedTo(catalog, store, old(openBuckets), old(rows), ready[..i], openBuckets, rows)
        invariant forall k :: 0 <= k < i ==> persisted(ready[k])
      {
        ghost var open1, rows1 := openBuckets, rows;
        var ok;
        ok, steps := FlushOne(ready[i], persisted(ready[i]), s0, steps, ready[i..]);
        if !ok {
          return;
        }
        assert ready[i..][1..] == ready[i + 1..];
        FlushedMore(catalog, store, old(openBuckets), old(rows), ready, i, open1, rows1);
        n := i + 1;
      }
      assert ready[|ready|..] == [];
    }

    /**
     `_flush`.  A persist that fails ends the flush and leaves its minute open;
     the whole call is a run of the transition system.
     */
    method Flush(force: bool, now: Time, persisted: Time -> bool) returns (ghost steps: seq<Step>)
      modifies this`rows, this`openBuckets
      ensures Reached(catalog, old(Snapshot([])), steps, Snapshot([]), [])
      ensures Outcome(catalog, store, wm.State(), force, now, persisted, old(openBuckets), old(rows), openBuckets, rows)
    {
      ghost var s0, open0, rows0 := Snapshot([]), openBuckets, rows;
      var ready;
      ready, steps := StartFlush(force, now);
      ghost var n;
      n, steps := FlushReady(ready, persisted, s0, steps);
      FlushStops(catalog, store, wm.State(), force, now, persisted, open0, rows0, ready, n, openBuckets, rows);
    }
  }

  /** The minute that holds the time is opened, unless an event for it is too late. */
  ghost predicate OpensMinute(m: Mark, t: Time, classifiedAt: Time, open0: set<Time>, open: set<Time>) {
    forall b :: MinuteHolds(b, t) ==>
                  open == if Classified(m, b + 60_000_000, classifiedAt).TooLate? then open0 else open0 + {b}
  }

  lemma MinuteOpened(t: Time)
    ensures forall m: Mark, at: Time, open0: set<Time>, open: set<Time> ::
              open == (if Classified(m, BucketOf(t) + BUCKET, at).TooLate? then open0 else open0 + {BucketOf(t)})
              ==> OpensMinute(m, t, at, open0, open)
  {
    forall b | MinuteHolds(b, t) ensures b == BucketOf(t) {
      BucketIsMinute(t, b);
    }
  }

  /**
   What a flush does to the open minutes and the rows: it closes only minutes that are past (or any, when forced)
   and that the database took, and writes their rows; no other row changes; and if the database takes
   everything it leaves no such minute open.
   */
  ghost predicate Outcome(catalog: Catalog, store: Store, m: Mark, force: bool, now: Time, persisted: Time -> bool,
                          open0: set<Time>, rows0: map<Time, Row>, open: set<Time>, rows: map<Time, Row>) {
    && (forall b :: b in open ==> b in open0)
    && (forall b :: b in open0 && b !in open ==>
          (force || PastMark(m, b, now)) && persisted(b) && b in rows && rows[b] == RowOf(catalog, store, b))
    && (forall b :: b in open || b !in open0 ==> (b in rows <==> b in rows0) && (b in rows ==> rows[b] == rows0[b]))
    && ((forall b :: persisted(b)) ==> forall b :: b in open ==> !(force || PastMark(m, b, now)))
  }

  lemma FlushedMore(catalog: Catalog, store: Store, open0: set<Time>, rows0: map<Time, Row>, ready: seq<Time>, n: nat,
                    open: set<Time>, rows: map<Time, Row>)
    requires n < |ready| && FlushedTo(catalog, store, open0, rows0, ready[..n], open, rows)
    ensures FlushedTo(catalog, store, open0, rows0, ready[..n + 1], open - {ready[n]},
                      rows[ready[n] := RowOf(catalog, store, ready[n])])
  {
    assert ready[..n + 1] == ready[..n] + [ready[n]];
  }

  lemma FlushStops(catalog: Catalog, store: Store, m: Mark, force: bool, now: Time, persisted: Time -> bool,
                   open0: set<Time>, rows0: map<Time, Row>, ready: seq<Time>, n: nat,
                   open: set<Time>, rows: map<Time, Row>)
    requires n <= |ready| && FlushedTo(catalog, store, open0, rows0, ready[..n], open, rows)
    requires forall b :: b in ready <==> b in open0 && (force || PastMark(m, b, now))
    requires forall k :: 0 <= k < n ==> persisted(ready[k])
    requires n == |ready| || !persisted(ready[n])
    ensures Outcome(catalog, store, m, force, now, persisted, open0, rows0, open, rows)
  {
    forall b | b in ready[..n] ensures b in ready && persisted(b) {
      var k :| 0 <= k < n && ready[k] == b;
    }
    if forall b :: persisted(b) {
      assert ready[..n] == ready;
    }
  }

  /** The minutes in `done` are closed and have their rows; nothing else has changed. */
  ghost predicate FlushedTo(catalog: Catalog, store: Store, open0: set<Time>, rows0: map<Time, Row>, done: seq<Time>,
                            open: set<Time>, rows: map<Time, Row>) {
    && (forall b :: b in open <==> b in open0 && b !in done)
    && (forall b :: b in done ==> b in rows && rows[b] == RowOf(catalog, store, b))
    && (forall b :: b !in done ==> (b in rows <==> b in rows0) && (b in rows ==> rows[b] == rows0[b]))
  }

  /** A name that is not the first definition's is a name of the others. */
  lemma LaterName(catalog: Catalog, name: string)
    requires name in Names(catalog) && catalog[0].name != name
    ensures name in Names(catalog[1..]) && FirstDef(catalog, name) == FirstDef(catalog[1..], name)
  {
    var i :| 0 <= i < |catalog| && catalog[i].name == name;
    assert catalog[1..][i - 1].name == name;
  }
}
