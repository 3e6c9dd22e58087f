/**
 The consumer framework composed with the persistence processor, whose handler
 inserts one row per event and does nothing on conflict.
 */
module ConsumerPersistence {
  import opened Prelude
  import opened ConsumerModel
  import opened ConsumerSafety

  ghost predicate UniqueIds(events: seq<Row>) {
    forall i, j :: 0 <= i < j < |events| ==> events[i].eventId != events[j].eventId
  }

  /** Each row is the message that the log holds at the offset the row names. */
  ghost predicate Faithful(log: Log, events: seq<Row>) {
    forall i :: 0 <= i < |events| ==> FromLog(log, events[i])
  }

  ghost predicate FromLog(log: Log, row: Row) {
    InLog(log, row.loc) &&
    MessageAt(log, row.loc).eventId == row.eventId && MessageAt(log, row.loc).body == row.body
  }

  ghost predicate RecordsBacked(records: map<EventId, RecordStatus>, events: seq<Row>) {
    forall id :: IsProcessed(records, id) ==> HasRow(events, id)
  }

  ghost predicate RowFor(log: Log, events: seq<Row>, loc: Loc) {
    InLog(log, loc) && HasRow(events, MessageAt(log, loc).eventId)
  }

  ghost predicate TasksBacked(events: seq<Row>, tasks: map<Loc, Job>) {
    forall loc :: loc in tasks && tasks[loc].stage.Recording? ==> HasRow(events, tasks[loc].msg.eventId)
  }

  ghost predicate StoreInv(kept: set<Loc>, w: World) {
    && OffsetInv(w)
    && UniqueIds(w.events)
    && Faithful(w.log, w.events)
    && RecordsBacked(w.records, w.events)
    && (w.process.Some? ==> TasksBacked(w.events, w.process.value.tasks))
    && (forall loc :: loc in kept ==> RowFor(w.log, w.events, loc))
  }

  /** The insert keeps ids unique, keeps every row, and afterwards the id has a row. */
  lemma InsertKeeps(events: seq<Row>, row: Row)
    requires UniqueIds(events)
    ensures
      var events' := InsertEvent(events, row);
      && UniqueIds(events') && events <= events'
      && HasRow(events', row.eventId)
      && (forall id :: HasRow(events, id) ==> HasRow(events', id))
  {
    var events' := InsertEvent(events, row);
    if events' != events {
      assert events'[|events|] == row;
    }
    forall id | HasRow(events, id) ensures HasRow(events', id) {
      var i :| 0 <= i < |events| && events[i].eventId == id;
      assert events'[i].eventId == id;
    }
  }

  lemma HandleStores(cfg: Config, kept: set<Loc>, w: World, loc: Loc, act: Act)
    requires cfg.envelope && StoreInv(kept, w) && Enabled(cfg, w, Task(loc, act)) && act.Handle?
    ensures StoreInv(kept, Apply(cfg, w, Task(loc, act)))
    ensures w.events <= Apply(cfg, w, Task(loc, act)).events
  {
    OffsetStep(cfg, w, Task(loc, act));
    ActShape(cfg, w, loc, act);
    HandleShape(cfg, w, loc, act);
    InsertHolds(kept, w, Apply(cfg, w, Task(loc, act)), loc);
  }

  /** A handler step touches no record; it inserts its row, or nothing, and completes only after inserting. */
  lemma HandleShape(cfg: Config, w: World, loc: Loc, act: Act)
    requires cfg.envelope && Enabled(cfg, w, Task(loc, act)) && act.Handle?
    ensures
      var w', job := Apply(cfg, w, Task(loc, act)), w.process.value.tasks[loc];
      && w'.records == w.records && w'.process.Some? && loc in w'.process.value.tasks
      && (w'.events == w.events || w'.events == InsertEvent(w.events, Row(job.msg.eventId, job.msg.body, loc)))
      && (w'.process.value.tasks[loc].stage.Recording? ==>
            w'.events == InsertEvent(w.events, Row(job.msg.eventId, job.msg.body, loc)))
  {
  }

  lemma InsertHolds(kept: set<Loc>, w: World, w': World, loc: Loc)
    requires StoreInv(kept, w) && OffsetInv(w') && w.process.Some? && loc in w.process.value.tasks && w'.process.Some?
    requires w'.log == w.log && w'.records == w.records
    requires
      var tasks, tasks' := w.process.value.tasks, w'.process.value.tasks;
      var inserted := InsertEvent(w.events, Row(tasks[loc].msg.eventId, tasks[loc].msg.body, loc));
      && loc in tasks' && tasks' == tasks[loc := tasks'[loc]] && tasks'[loc].msg == tasks[loc].msg
      && (w'.events == w.events || w'.events == inserted)
      && (tasks'[loc].stage.Recording? ==> w'.events == inserted)
    ensures StoreInv(kept, w') && w.events <= w'.events
  {
    var msg := w.process.value.tasks[loc].msg;
    var row := Row(msg.eventId, msg.body, loc);
    InsertKeeps(w.events, row);
    InsertFaithful(w.log, w.events, row);
  }

  lemma InsertFaithful(log: Log, events: seq<Row>, row: Row)
    requires Faithful(log, events) && FromLog(log, row)
    ensures Faithful(log, InsertEvent(events, row))
  {
  }

  /** Records are written only by a task whose handler has stored the row. */
  lemma ActRecords(cfg: Config, w: World, p: Process, loc: Loc, act: Act)
    requires loc in p.tasks && ActEnabled(cfg, w, p, p.tasks[loc], act) && !act.Handle?
    requires RecordsBacked(w.records, w.events) && TasksBacked(w.events, p.tasks)
    ensures RecordsBacked(StoreEffect(cfg, w, loc, p.tasks[loc], act).records, w.events)
    ensures StoreEffect(cfg, w, loc, p.tasks[loc], act).events == w.events
    ensures !NextStage(cfg, p.tasks[loc], act).Recording?
    ensures cfg.envelope && KeptBy(cfg, Task(loc, act)) != {} ==>
              KeptBy(cfg, Task(loc, act)) == {loc} && HasRow(w.events, p.tasks[loc].msg.eventId)
  {
  }

  lemma ActStores(cfg: Config, kept: set<Loc>, w: World, loc: Loc, act: Act)
    requires cfg.envelope && StoreInv(kept, w) && Enabled(cfg, w, Task(loc, act)) && !act.Handle?
    ensures StoreInv(kept + KeptBy(cfg, Task(loc, act)), Apply(cfg, w, Task(loc, act)))
    ensures w.events == Apply(cfg, w, Task(loc, act)).events
  {
    OffsetStep(cfg, w, Task(loc, act));
    ActShape(cfg, w, loc, act);
    ActRecords(cfg, w, w.process.value, loc, act);
  }

  lemma LoopStores(cfg: Config, kept: set<Loc>, w: World, s: Step)
    requires StoreInv(kept, w) && Enabled(cfg, w, s) && !s.Task?
    ensures StoreInv(kept, Apply(cfg, w, s))
    ensures w.events == Apply(cfg, w, s).events
  {
    OffsetStep(cfg, w, s);
    match s
    case Produce(tp, msg) => LogGrows(cfg, w, s);
    case Loop(Deliver(counts)) => DeliveredShape(w, w.process.value, counts);
    case _ =>
  }

  /** The log only grows, so what was true of a message stays true. */
  lemma LogGrows(cfg: Config, w: World, s: Step)
    requires Enabled(cfg, w, s)
    ensures forall loc :: InLog(w.log, loc) ==>
              InLog(Apply(cfg, w, s).log, loc) && MessageAt(Apply(cfg, w, s).log, loc) == MessageAt(w.log, loc)
  {
  }

  lemma StoreStep(cfg: Config, kept: set<Loc>, w: World, s: Step)
    requires cfg.envelope && StoreInv(kept, w) && Enabled(cfg, w, s)
    ensures StoreInv(kept + KeptBy(cfg, s), Apply(cfg, w, s))
    ensures w.events <= Apply(cfg, w, s).events
  {
    if s.Task? && !s.act.Handle? {
      ActStores(cfg, kept, w, s.loc, s.act);
    } else {
      assert kept + KeptBy(cfg, s) == kept;
      if s.Task? {
        HandleStores(cfg, kept, w, s.loc, s.act);
      } else {
        LoopStores(cfg, kept, w, s);
      }
    }
  }

  lemma {:induction false} StoresHold(cfg: Config, steps: seq<Step>)
    requires cfg.envelope && Legal(cfg, INIT, steps)
    ensures StoreInv(Kept(cfg, steps), After(cfg, INIT, steps))
  {
    if steps != [] {
      var prev := steps[..|steps| - 1];
      StoresHold(cfg, prev);
      StoreStep(cfg, Kept(cfg, prev), After(cfg, INIT, prev), steps[|steps| - 1]);
    }
  }

  /**
   Exactly-once effects: whatever crashes, is redelivered or interleaves, the
   events table has at most one row per id, every row is a logged message, a
   "processed" record implies its row, and every message below a committed
   offset has its row or went through the dead letter hand-off.
   */
  lemma PersistenceSafety(cfg: Config, steps: seq<Step>)
    requires cfg.envelope && Attempts(cfg) && Legal(cfg, INIT, steps)
    ensures
      var w := After(cfg, INIT, steps);
      && UniqueIds(w.events)
      && Faithful(w.log, w.events)
      && RecordsBacked(w.records, w.events)
      && forall loc: Loc :: loc.offset < At(w.committed, loc.tp) ==>
           RowFor(w.log, w.events, loc) || loc in Handed(steps)
  {
    StoresHold(cfg, steps);
    LossHolds(cfg, steps);
  }

  /** The first delivery wins for good: rows are never changed or removed. */
  lemma {:induction false} RowsArePermanent(cfg: Config, steps: seq<Step>, n: nat)
    requires cfg.envelope && Legal(cfg, INIT, steps) && n <= |steps|
    ensures Legal(cfg, INIT, steps[..n])
    ensures After(cfg, INIT, steps[..n]).events <= After(cfg, INIT, steps).events
    decreases |steps|
  {
    if n == |steps| {
      assert steps[..n] == steps;
    } else {
      var m := |steps| - 1;
      RowsArePermanent(cfg, steps[..m], n);
      assert steps[..m][..n] == steps[..n];
      StoresHold(cfg, steps[..m]);
      StoreStep(cfg, Kept(cfg, steps[..m]), After(cfg, INIT, steps[..m]), steps[m]);
    }
  }
}
