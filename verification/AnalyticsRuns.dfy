/**
 Runs of the analytics processor: events, clock readings, flushes that may fail,
 and the forced flush at shutdown, in any order.
 */
module AnalyticsRuns {
  import opened Prelude
  import opened EventTime
  import opened Metrics
  import opened Analytics
  import opened SortedSets

  type Row = Samples

  /** The processor's fields, its Redis state and the rows it has written. */
  datatype State = State(
    mark: Mark,
    open: set<Time>,
    store: Store,
    late: map<Time, nat>,
    rows: map<Time, Row>,
    ready: seq<Time>)

  datatype Step =
    | Handle(e: Event, observedAt: Time, classifiedAt: Time)
    | BeginFlush(now: Time)
    | BeginForced
    | Finalize(persisted: bool)

  // -------------------------------------------------------------- transitions

  function BumpLate(late: map<Time, nat>, bucket: Time): map<Time, nat> {
    late[bucket := At(late, bucket) + 1]
  }

  function Handled(catalog: Catalog, s: State, e: Event, observedAt: Time, classifiedAt: Time): State {
    var mark := Observed(s.mark, e.time, observedAt);
    var bucket := BucketOf(e.time);
    match Classified(mark, bucket + BUCKET, classifiedAt)
    case TooLate => s.(mark := mark, late := BumpLate(s.late, bucket))
    case AcceptedLate =>
      s.(mark := mark, late := BumpLate(s.late, bucket), open := s.open + {bucket},
         store := AddEvent(catalog, s.store, e))
    case OnTime =>
      s.(mark := mark, open := s.open + {bucket}, store := AddEvent(catalog, s.store, e))
  }

  predicate Due(mark: Mark, bucket: Time, now: Time) {
    Value(mark, now).Some? && Value(mark, now).value >= bucket + BUCKET + mark.lateness
  }

  function Names(catalog: Catalog): set<string> {
    set i | 0 <= i < |catalog| :: catalog[i].name
  }

  /** `next(d for d in METRIC_DEFS if d.name == name)`. */
  function FirstDef(catalog: Catalog, name: string): MetricDef
    requires name in Names(catalog)
  {
    if catalog[0].name == name then catalog[0]
    else
      assert forall i :: 0 < i < |catalog| ==> catalog[i].name == catalog[1..][i - 1].name;
      FirstDef(catalog[1..], name)
  }

  /** What `_finalize_bucket` reads out of the accumulators of a minute. */
  function RawOf(catalog: Catalog, store: Store, bucket: Time): Samples {
    map name | name in Names(catalog)
      :: SampleOf(FirstDef(catalog, name).kind, AccAt(store, Key(name, bucket, "_all")))
  }

  /** What it composes and stores. */
  function RowOf(catalog: Catalog, store: Store, bucket: Time): Row {
    Compose(RawOf(catalog, store, bucket))
  }

  predicate Enabled(s: State, step: Step) {
    match step
    case Handle(_, _, _) => true
    case BeginFlush(_) => s.ready == []
    case BeginForced => true
    case Finalize(_) => s.ready != []
  }

  function Apply(catalog: Catalog, s: State, step: Step): State
    requires Enabled(s, step)
  {
    match step
    case Handle(e, observedAt, classifiedAt) => Handled(catalog, s, e, observedAt, classifiedAt)
    case BeginFlush(now) => s.(ready := Sorted(set b | b in s.open && Due(s.mark, b, now)))
    case BeginForced => s.(ready := Sorted(s.open))
    case Finalize(persisted) =>
      if persisted
      then s.(rows := s.rows[s.ready[0] := RowOf(catalog, s.store, s.ready[0])],
              open := s.open - {s.ready[0]}, ready := s.ready[1..])
      else s.(ready := [])
  }

  function Fresh(lateness: int, idleAdvance: int, now: Time): State {
    State(Mark(lateness, idleAdvance, None, now), {}, map[], map[], map[], [])
  }

  predicate Legal(catalog: Catalog, s: State, steps: seq<Step>)
    decreases |steps|, 0
  {
    steps == [] ||
    (Legal(catalog, s, steps[..|steps| - 1]) &&
     Enabled(After(catalog, s, steps[..|steps| - 1]), steps[|steps| - 1]))
  }

  function After(catalog: Catalog, s: State, steps: seq<Step>): State
    requires Legal(catalog, s, steps)
    decreases |steps|, 1
  {
    if steps == [] then s
    else Apply(catalog, After(catalog, s, steps[..|steps| - 1]), steps[|steps| - 1])
  }

  // -------------------------------------------------- what the run depends on

  /** The events of a run, in order, without clocks and flushes. */
  function Events(steps: seq<Step>): seq<Event> {
    if steps == [] then []
    else Events(steps[..|steps| - 1]) + if steps[|steps| - 1].Handle? then [steps[|steps| - 1].e] else []
  }

  function Times(es: seq<Event>): seq<Time> {
    seq(|es|, i requires 0 <= i < |es| => es[i].time)
  }

  /** The last event is dropped: the largest event time has reached its minute's end plus both latenesses. */
  predicate Dropped(lateness: int, es: seq<Event>)
    requires es != []
  {
    var newest := MaxTime(Times(es));
    newest.Some? && newest.value >= BucketOf(es[|es| - 1].time) + BUCKET + lateness + Max(lateness, 0)
  }

  /**
   In terms of the event times: the last event, in the minute that starts at `b`, is dropped exactly when some event
   so far, itself included, has reached the minute's end plus the lateness twice.
   */
  lemma DroppedIff(lateness: int, es: seq<Event>, b: Time)
    requires es != [] && MinuteHolds(b, es[|es| - 1].time)
    ensures Dropped(lateness, es) <==>
            exists i :: 0 <= i < |es| && es[i].time >= b + 60_000_000 + lateness + Max(lateness, 0)
  {
    BucketIsMinute(es[|es| - 1].time, b);
    MaxTimeIsMax(Times(es));
    var newest := MaxTime(Times(es)).value;
    var j :| 0 <= j < |Times(es)| && Times(es)[j] == newest;
    assert es[j].time == newest;
    forall i | 0 <= i < |es| ensures es[i].time <= newest {
      assert Times(es)[i] == es[i].time;
    }
  }

  /** The events that are folded: a function of the event times alone. */
  function Accepted(lateness: int, es: seq<Event>): seq<Event> {
    if es == [] then []
    else Accepted(lateness, es[..|es| - 1]) + if Dropped(lateness, es) then [] else [es[|es| - 1]]
  }

  /** Observing and classifying an event takes no longer than the idle advance. */
  predicate Prompt(idleAdvance: int, steps: seq<Step>) {
    forall i :: 0 <= i < |steps| && steps[i].Handle? ==>
      steps[i].classifiedAt - steps[i].observedAt <= idleAdvance
  }

  /** Some event lies in the minute that starts at `bucket`. */
  predicate HasBucket(es: seq<Event>, bucket: Time) {
    exists i :: 0 <= i < |es| && MinuteHolds(bucket, es[i].time)
  }

  /** The write-behind invariant: a closed minute that accepted an event has an up-to-date row. */
  ghost predicate Coherent(catalog: Catalog, s: State, accepted: seq<Event>) {
    forall b :: HasBucket(accepted, b) && b !in s.open ==> b in s.rows && s.rows[b] == RowOf(catalog, s.store, b)
  }

  ghost predicate RunInv(catalog: Catalog, lateness: int, idleAdvance: int, es: seq<Event>, s: State) {
    && s.mark.lateness == lateness && s.mark.idleAdvance == idleAdvance
    && s.mark.maxSeen == MaxTime(Times(es))
    && s.store == StoreOf(catalog, Accepted(lateness, es))
    && Coherent(catalog, s, Accepted(lateness, es))
  }

  // -------------------------------------------------------------- preservation

  lemma TimesSnoc(es: seq<Event>, e: Event)
    ensures Times(es + [e]) == Times(es) + [e.time]
  {
  }

  lemma MaxTimeSnoc(ts: seq<Time>, t: Time)
    ensures MaxTime(ts + [t]) == if MaxTime(ts).None? || t > MaxTime(ts).value then Some(t) else MaxTime(ts)
  {
    assert (ts + [t])[..|ts + [t]| - 1] == ts;
  }

  /** The classification of a prompt event is the one that event times alone decide. */
  lemma DropDecision(m: Mark, es: seq<Event>, e: Event, observedAt: Time, classifiedAt: Time)
    requires m.maxSeen == MaxTime(Times(es)) && classifiedAt - observedAt <= m.idleAdvance
    ensures
      var m' := Observed(m, e.time, observedAt);
      && m'.maxSeen == MaxTime(Times(es + [e]))
      && (Classified(m', BucketOf(e.time) + BUCKET, classifiedAt).TooLate? <==> Dropped(m.lateness, es + [e]))
  {
    TimesSnoc(es, e);
    MaxTimeSnoc(Times(es), e.time);
    TooLateExactly(m, e.time, BucketOf(e.time) + BUCKET, observedAt, classifiedAt);
  }

  lemma AcceptedSnoc(lateness: int, es: seq<Event>, e: Event)
    ensures Accepted(lateness, es + [e]) ==
              if Dropped(lateness, es + [e]) then Accepted(lateness, es) else Accepted(lateness, es) + [e]
  {
    assert (es + [e])[..|es + [e]| - 1] == es;
  }

  lemma StoreSnoc(catalog: Catalog, es: seq<Event>, e: Event)
    ensures StoreOf(catalog, es + [e]) == AddEvent(catalog, StoreOf(catalog, es), e)
  {
    assert (es + [e])[..|es + [e]| - 1] == es;
  }

  lemma RowUnchanged(catalog: Catalog, store: Store, e: Event, bucket: Time)
    requires !MinuteHolds(bucket, e.time)
    ensures RowOf(catalog, AddEvent(catalog, store, e), bucket) == RowOf(catalog, store, bucket)
  {
    forall name | name in Names(catalog)
      ensures AccAt(AddEvent(catalog, store, e), Key(name, bucket, "_all")) == AccAt(store, Key(name, bucket, "_all"))
    {
      OtherBuckets(catalog, store, e, Key(name, bucket, "_all"));
    }
    assert RawOf(catalog, AddEvent(catalog, store, e), bucket) == RawOf(catalog, store, bucket);
  }

  lemma FoldKeepsCoherence(catalog: Catalog, s: State, s': State, accepted: seq<Event>, e: Event)
    requires Coherent(catalog, s, accepted)
    requires s'.open == s.open + {BucketOf(e.time)} && s'.rows == s.rows && s'.store == AddEvent(catalog, s.store, e)
    ensures Coherent(catalog, s', accepted + [e])
  {
    forall b | HasBucket(accepted + [e], b) && b !in s'.open
      ensures b in s'.rows && s'.rows[b] == RowOf(catalog, s'.store, b)
    {
      var i :| 0 <= i < |accepted + [e]| && MinuteHolds(b, (accepted + [e])[i].time);
      BucketIsMinute(e.time, b);
      assert MinuteHolds(b, accepted[i].time);
      RowUnchanged(catalog, s.store, e, b);
    }
  }

  /** Handling an event either drops it or opens its minute and folds it. */
  lemma HandledShape(catalog: Catalog, s: State, e: Event, observedAt: Time, classifiedAt: Time)
    ensures
      var s' := Handled(catalog, s, e, observedAt, classifiedAt);
      var mark := Observed(s.mark, e.time, observedAt);
      && s'.mark == mark && s'.rows == s.rows && s'.ready == s.ready
      && if Classified(mark, BucketOf(e.time) + BUCKET, classifiedAt).TooLate?
         then s'.open == s.open && s'.store == s.store
         else s'.open == s.open + {BucketOf(e.time)} && s'.store == AddEvent(catalog, s.store, e)
  {
  }

  lemma HandleKeeps(catalog: Catalog, lateness: int, idleAdvance: int, es: seq<Event>, s: State, step: Step)
    requires RunInv(catalog, lateness, idleAdvance, es, s)
    requires step.Handle? && step.classifiedAt - step.observedAt <= idleAdvance
    ensures RunInv(catalog, lateness, idleAdvance, es + [step.e], Apply(catalog, s, step))
  {
    var s', e := Apply(catalog, s, step), step.e;
    var accepted := Accepted(lateness, es);
    HandledShape(catalog, s, e, step.observedAt, step.classifiedAt);
    DropDecision(s.mark, es, e, step.observedAt, step.classifiedAt);
    AcceptedSnoc(lateness, es, e);
    if Dropped(lateness, es + [e]) {
      DropKeepsCoherence(catalog, s, s', accepted);
    } else {
      StoreSnoc(catalog, accepted, e);
      FoldKeepsCoherence(catalog, s, s', accepted, e);
    }
  }

  lemma DropKeepsCoherence(catalog: Catalog, s: State, s': State, accepted: seq<Event>)
    requires Coherent(catalog, s, accepted) && s'.open == s.open && s'.rows == s.rows && s'.store == s.store
    ensures Coherent(catalog, s', accepted)
  {
  }

  lemma FlushKeeps(catalog: Catalog, lateness: int, idleAdvance: int, es: seq<Event>, s: State, step: Step)
    requires RunInv(catalog, lateness, idleAdvance, es, s) && !step.Handle? && Enabled(s, step)
    ensures RunInv(catalog, lateness, idleAdvance, es, Apply(catalog, s, step))
  {
    var s' := Apply(catalog, s, step);
    FlushShape(catalog, s, step);
    if step == Finalize(true) {
      RowKeepsCoherence(catalog, s, s', Accepted(lateness, es), s.ready[0]);
    } else {
      DropKeepsCoherence(catalog, s, s', Accepted(lateness, es));
    }
  }

  /** A flush step leaves watermark and accumulators alone; only a persisted minute changes rows and open set. */
  lemma FlushShape(catalog: Catalog, s: State, step: Step)
    requires !step.Handle? && Enabled(s, step)
    ensures
      var s' := Apply(catalog, s, step);
      && s'.mark == s.mark && s'.store == s.store
      && if step == Finalize(true)
         then s.ready != [] && s'.open == s.open - {s.ready[0]}
              && s'.rows == s.rows[s.ready[0] := RowOf(catalog, s.store, s.ready[0])]
         else s'.open == s.open && s'.rows == s.rows
  {
  }

  lemma RowKeepsCoherence(catalog: Catalog, s: State, s': State, accepted: seq<Event>, b: Time)
    requires Coherent(catalog, s, accepted)
    requires s'.open == s.open - {b} && s'.rows == s.rows[b := RowOf(catalog, s.store, b)] && s'.store == s.store
    ensures Coherent(catalog, s', accepted)
  {
  }

  lemma {:induction false} RunHolds(catalog: Catalog, lateness: int, idleAdvance: int, start: Time, steps: seq<Step>)
    requires Legal(catalog, Fresh(lateness, idleAdvance, start), steps) && Prompt(idleAdvance, steps)
    ensures RunInv(catalog, lateness, idleAdvance, Events(steps),
                   After(catalog, Fresh(lateness, idleAdvance, start), steps))
  {
    if steps != [] {
      var n := |steps| - 1;
      RunHolds(catalog, lateness, idleAdvance, start, steps[..n]);
      var s := After(catalog, Fresh(lateness, idleAdvance, start), steps[..n]);
      if steps[n].Handle? {
        HandleKeeps(catalog, lateness, idleAdvance, Events(steps[..n]), s, steps[n]);
      } else {
        FlushKeeps(catalog, lateness, idleAdvance, Events(steps[..n]), s, steps[n]);
        assert Events(steps) == Events(steps[..n]);
      }
    }
  }

  // ---------------------------------------------------------------- theorems

  /** Write-behind coherence, in every state of every run. */
  lemma WriteBehindCoherence(catalog: Catalog, lateness: int, idleAdvance: int, start: Time, steps: seq<Step>, b: Time)
    requires Legal(catalog, Fresh(lateness, idleAdvance, start), steps) && Prompt(idleAdvance, steps)
    requires HasBucket(Accepted(lateness, Events(steps)), b)
    ensures
      var s := After(catalog, Fresh(lateness, idleAdvance, start), steps);
      b in s.open || (b in s.rows && s.rows[b] == RowOf(catalog, s.store, b))
  {
    RunHolds(catalog, lateness, idleAdvance, start, steps);
  }

  /** The samples of a minute as the plain group-by of a sequence of events gives them. */
  function GroupBySamples(catalog: Catalog, es: seq<Event>, bucket: Time): Samples {
    map name | name in Names(catalog)
      :: SampleOf(FirstDef(catalog, name).kind, Fold(GroupBy(catalog, es, Key(name, bucket, "_all"))))
  }

  /** The row that is stored for them. */
  function GroupByRow(catalog: Catalog, es: seq<Event>, bucket: Time): Row {
    Compose(GroupBySamples(catalog, es, bucket))
  }

  lemma RowIsGroupBy(catalog: Catalog, es: seq<Event>, bucket: Time)
    ensures RowOf(catalog, StoreOf(catalog, es), bucket) == GroupByRow(catalog, es, bucket)
  {
    forall name | name in Names(catalog)
      ensures AccAt(StoreOf(catalog, es), Key(name, bucket, "_all")) ==
              Fold(GroupBy(catalog, es, Key(name, bucket, "_all")))
    {
      StoreIsGroupBy(catalog, es, Key(name, bucket, "_all"));
    }
    assert RawOf(catalog, StoreOf(catalog, es), bucket) == GroupBySamples(catalog, es, bucket);
  }

  /**
   Idleness never changes final values: whatever the clocks read and however
   often minutes were closed and reopened, once a minute is closed its row is the
   group-by of the events that event times alone decide to keep.
   */
  lemma ClosedRowIsGroupBy(catalog: Catalog, lateness: int, idleAdvance: int, start: Time, steps: seq<Step>, b: Time)
    requires Legal(catalog, Fresh(lateness, idleAdvance, start), steps) && Prompt(idleAdvance, steps)
    requires HasBucket(Accepted(lateness, Events(steps)), b)
    requires b !in After(catalog, Fresh(lateness, idleAdvance, start), steps).open
    ensures
      var s := After(catalog, Fresh(lateness, idleAdvance, start), steps);
      b in s.rows && s.rows[b] == GroupByRow(catalog, Accepted(lateness, Events(steps)), b)
  {
    RunHolds(catalog, lateness, idleAdvance, start, steps);
    RowIsGroupBy(catalog, Accepted(lateness, Events(steps)), b);
  }

  /** Two runs that see the same events end with the same accumulators, whatever their clocks and flushes. */
  lemma ClocksDoNotMatter(catalog: Catalog, lateness: int, idleAdvance: int,
                          startA: Time, a: seq<Step>, startB: Time, b: seq<Step>)
    requires Legal(catalog, Fresh(lateness, idleAdvance, startA), a) && Prompt(idleAdvance, a)
    requires Legal(catalog, Fresh(lateness, idleAdvance, startB), b) && Prompt(idleAdvance, b)
    requires Events(a) == Events(b)
    ensures After(catalog, Fresh(lateness, idleAdvance, startA), a).store ==
            After(catalog, Fresh(lateness, idleAdvance, startB), b).store
  {
    RunHolds(catalog, lateness, idleAdvance, startA, a);
    RunHolds(catalog, lateness, idleAdvance, startB, b);
  }

  /** The steps of a forced flush in which every persist succeeds. */
  function ForcedFlush(n: nat): seq<Step> {
    if n == 0 then [BeginForced] else ForcedFlush(n - 1) + [Finalize(true)]
  }

  ghost predicate Reached(catalog: Catalog, s0: State, steps: seq<Step>, s: State, es: seq<Event>) {
    Legal(catalog, s0, steps) && After(catalog, s0, steps) == s && Events(steps) == es
  }

  lemma ReachedQuietly(catalog: Catalog, s0: State, steps: seq<Step>, s: State, es: seq<Event>, step: Step, s': State)
    requires Reached(catalog, s0, steps, s, es) && Enabled(s, step) && !step.Handle? && s' == Apply(catalog, s, step)
    ensures Reached(catalog, s0, steps + [step], s', es)
  {
    assert (steps + [step])[..|steps + [step]| - 1] == steps;
  }

  /** In the middle of a flush of the minutes `sorted`, the first `n` are closed and the others are due. */
  ghost predicate Flushed(before: set<Time>, sorted: seq<Time>, n: nat, s: State) {
    && n <= |sorted| && s.ready == sorted[n..]
    && (forall b :: b in s.open <==> b in before && b !in sorted[..n])
  }

  lemma FlushOne(catalog: Catalog, before: set<Time>, sorted: seq<Time>, n: nat, s: State)
    requires Flushed(before, sorted, n, s) && n < |sorted|
    ensures Enabled(s, Finalize(true)) && Flushed(before, sorted, n + 1, Apply(catalog, s, Finalize(true)))
  {
    assert sorted[..n + 1] == sorted[..n] + [sorted[n]];
    assert sorted[n..][1..] == sorted[n + 1..] && sorted[n..][0] == sorted[n];
  }

  lemma FlushStart(catalog: Catalog, s: State)
    ensures Flushed(s.open, Sorted(s.open), 0, Apply(catalog, s, BeginForced))
  {
    assert Sorted(s.open)[0..] == Sorted(s.open) && Sorted(s.open)[..0] == [];
  }

  /** The states of a flush, one after each finalisation. */
  function FlushState(catalog: Catalog, s: State, n: nat): State
    requires n <= |Sorted(s.open)|
    ensures Flushed(s.open, Sorted(s.open), n, FlushState(catalog, s, n))
  {
    if n == 0 then
      FlushStart(catalog, s);
      Apply(catalog, s, BeginForced)
    else
      FlushOne(catalog, s.open, Sorted(s.open), n - 1, FlushState(catalog, s, n - 1));
      Apply(catalog, FlushState(catalog, s, n - 1), Finalize(true))
  }

  lemma FlushAppend(steps: seq<Step>, n: nat)
    requires n > 0
    ensures steps + ForcedFlush(n) == steps + ForcedFlush(n - 1) + [Finalize(true)]
  {
  }

  /** After `n` successful finalisations, the first `n` of the sorted open minutes are closed. */
  lemma {:induction false} FlushProgress(catalog: Catalog, s0: State, steps: seq<Step>, s: State, es: seq<Event>,
                                         n: nat)
    requires Reached(catalog, s0, steps, s, es) && n <= |Sorted(s.open)|
    ensures Reached(catalog, s0, steps + ForcedFlush(n), FlushState(catalog, s, n), es)
  {
    if n == 0 {
      ReachedQuietly(catalog, s0, steps, s, es, BeginForced, FlushState(catalog, s, 0));
    } else {
      FlushProgress(catalog, s0, steps, s, es, n - 1);
      ReachedQuietly(catalog, s0, steps + ForcedFlush(n - 1), FlushState(catalog, s, n - 1), es, Finalize(true),
                     FlushState(catalog, s, n));
      FlushAppend(steps, n);
    }
  }

  /**
   After the shutdown flush every minute that accepted an event has the row that
   the group-by over the kept events gives.
   */
  lemma ShutdownRows(catalog: Catalog, lateness: int, idleAdvance: int, start: Time, steps: seq<Step>, b: Time)
    requires Legal(catalog, Fresh(lateness, idleAdvance, start), steps) && Prompt(idleAdvance, steps)
    requires HasBucket(Accepted(lateness, Events(steps)), b)
    ensures
      var s0 := Fresh(lateness, idleAdvance, start);
      var all := steps + ForcedFlush(|Sorted(After(catalog, s0, steps).open)|);
      && Legal(catalog, s0, all) && After(catalog, s0, all).open == {}
      && b in After(catalog, s0, all).rows
      && After(catalog, s0, all).rows[b] == GroupByRow(catalog, Accepted(lateness, Events(steps)), b)
  {
    var s0 := Fresh(lateness, idleAdvance, start);
    var s := After(catalog, s0, steps);
    var n := |Sorted(s.open)|;
    FlushProgress(catalog, s0, steps, s, Events(steps), n);
    assert Sorted(s.open)[..n] == Sorted(s.open);
    NoneMeansEmpty(FlushState(catalog, s, n).open);
    FlushIsQuiet(n);
    ClosedRowIsGroupBy(catalog, lateness, idleAdvance, start, steps + ForcedFlush(n), b);
  }

  lemma {:induction false} FlushIsQuiet(n: nat)
    ensures forall i :: 0 <= i < |ForcedFlush(n)| ==> !ForcedFlush(n)[i].Handle?
  {
    if n > 0 {
      FlushIsQuiet(n - 1);
    }
  }

  // ------------------------------------- rows of a catalog with unique names

  predicate UniqueNames(catalog: Catalog) {
    forall i, j :: 0 <= i < j < |catalog| ==> catalog[i].name != catalog[j].name
  }

  /** The event belongs to the minute and to the metric. */
  predicate Hits(def: MetricDef, e: Event, bucket: Time) {
    MinuteHolds(bucket, e.time) && Matches(def, e.eventType)
  }

  /** The update one event makes to one definition's "_all" group in a minute, if any. */
  function Added(def: MetricDef, e: Event, bucket: Time): seq<Delta> {
    if Hits(def, e, bucket) && DeltaOf(def, e).Some? then [DeltaOf(def, e).value] else []
  }

  /** The updates that one definition gets from the events of one minute. */
  function DefDeltas(def: MetricDef, es: seq<Event>, bucket: Time): seq<Delta> {
    if es == [] then [] else DefDeltas(def, es[..|es| - 1], bucket) + Added(def, es[|es| - 1], bucket)
  }

  lemma DeltasAppend(cs: seq<Contribution>, c: seq<Contribution>, e: Event, key: Key)
    requires |c| <= 1
    ensures DeltasFrom(cs + c, e, key) ==
            DeltasFrom(cs, e, key) + if |c| == 1 && Feeds(c[0], e, key) then [c[0].delta] else []
  {
    if |c| == 1 {
      assert (cs + c)[..|cs + c| - 1] == cs;
    } else {
      assert cs + c == cs;
    }
  }

  lemma AddedByDef(cs: seq<Contribution>, def: MetricDef, e: Event, name: string, bucket: Time)
    ensures DeltasFrom(cs + ContributionOf(def, e), e, Key(name, bucket, "_all")) ==
              DeltasFrom(cs, e, Key(name, bucket, "_all")) + if def.name == name then Added(def, e, bucket) else []
  {
    DeltasAppend(cs, ContributionOf(def, e), e, Key(name, bucket, "_all"));
  }

  function AddedBy(defs: Catalog, e: Event, name: string, bucket: Time): seq<Delta> {
    if defs == [] then []
    else
      var def := defs[|defs| - 1];
      AddedBy(defs[..|defs| - 1], e, name, bucket) + if def.name == name then Added(def, e, bucket) else []
  }

  lemma {:induction false} DeltasAreAdded(defs: Catalog, e: Event, name: string, bucket: Time)
    ensures DeltasFrom(Contributions(defs, e), e, Key(name, bucket, "_all")) == AddedBy(defs, e, name, bucket)
  {
    if defs != [] {
      var n := |defs| - 1;
      DeltasAreAdded(defs[..n], e, name, bucket);
      AddedByDef(Contributions(defs[..n], e), defs[n], e, name, bucket);
    }
  }

  lemma {:induction false} NoneAdded(defs: Catalog, e: Event, name: string, bucket: Time)
    requires forall k :: 0 <= k < |defs| ==> defs[k].name != name
    ensures AddedBy(defs, e, name, bucket) == []
  {
    if defs != [] {
      NoneAdded(defs[..|defs| - 1], e, name, bucket);
    }
  }

  lemma {:induction false} OneAdds(catalog: Catalog, e: Event, i: nat, bucket: Time)
    requires UniqueNames(catalog) && i < |catalog|
    ensures AddedBy(catalog, e, catalog[i].name, bucket) == Added(catalog[i], e, bucket)
    decreases |catalog|
  {
    var n := |catalog| - 1;
    if i == n {
      NoneAdded(catalog[..n], e, catalog[i].name, bucket);
    } else {
      OneAdds(catalog[..n], e, i, bucket);
      assert catalog[..n][i] == catalog[i] && catalog[n].name != catalog[i].name;
    }
  }

  /** With unique names, a metric's group-by is the filtered events of that metric alone. */
  lemma {:induction false} GroupByIsDef(catalog: Catalog, es: seq<Event>, i: nat, bucket: Time)
    requires UniqueNames(catalog) && i < |catalog|
    ensures GroupBy(catalog, es, Key(catalog[i].name, bucket, "_all")) == DefDeltas(catalog[i], es, bucket)
  {
    if es != [] {
      var n := |es| - 1;
      GroupByIsDef(catalog, es[..n], i, bucket);
      DeltasAreAdded(catalog, es[n], catalog[i].name, bucket);
      OneAdds(catalog, es[n], i, bucket);
    }
  }

  lemma {:induction false} FirstDefUnique(catalog: Catalog, i: nat)
    requires UniqueNames(catalog) && i < |catalog|
    ensures catalog[i].name in Names(catalog) && FirstDef(catalog, catalog[i].name) == catalog[i]
  {
    if i > 0 {
      FirstDefUnique(catalog[1..], i - 1);
    }
  }

  function MatchCount(def: MetricDef, es: seq<Event>, bucket: Time): nat {
    if es == [] then 0
    else
      MatchCount(def, es[..|es| - 1], bucket) +
        if Hits(def, es[|es| - 1], bucket) then 1 else 0
  }

  /** So many events counted. */
  function Ones(n: nat): seq<Delta> {
    seq(n, i => AddOne)
  }

  lemma {:induction false} CountDeltas(def: MetricDef, es: seq<Event>, bucket: Time)
    requires def.kind.Count?
    ensures DefDeltas(def, es, bucket) == Ones(MatchCount(def, es, bucket))
  {
    if es != [] {
      CountDeltas(def, es[..|es| - 1], bucket);
    }
  }

  lemma {:induction false} OnesCount(n: nat)
    ensures Counted(Ones(n)) == n
  {
    if n > 0 {
      OnesCount(n - 1);
      assert Ones(n)[..n - 1] == Ones(n - 1);
    }
  }
}
