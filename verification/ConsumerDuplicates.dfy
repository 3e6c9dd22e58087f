/**
 At-least-once, quantified: how often the handler can complete for one event id.
 */
module ConsumerDuplicates {
  import opened Prelude
  import opened ConsumerModel
  import opened ConsumerSafety
  import opened ConsumerPersistence

  /**
   For one event id: handler completions; record writes that were lost; record writes that were
   confirmed; confirmed records that a "failed" upsert overwrote; lookups that raised on the last attempt.
   */
  datatype Tally = Tally(completed: nat, lost: nat, written: nat, overwritten: nat, raised: nat)

  const ZERO: Tally := Tally(0, 0, 0, 0, 0)

  function Tasks(w: World): map<Loc, Job> {
    if w.process.Some? then w.process.value.tasks else map[]
  }

  predicate RecordingNow(tasks: map<Loc, Job>, id: EventId) {
    exists loc :: loc in tasks && tasks[loc].stage.Recording? && tasks[loc].msg.eventId == id
  }

  /** A confirmed record that nothing has overwritten since. */
  predicate Standing(t: Tally) {
    t.written > t.overwritten
  }

  /** A write is lost when it raises, or when the process crashes while it is under way. */
  function Count(cfg: Config, t: Tally, w: World, s: Step, id: EventId): Tally {
    match s
    case Loop(Crash) => if RecordingNow(Tasks(w), id) then t.(lost := t.lost + 1) else t
    case Task(loc, act) =>
      if loc in Tasks(w) && Tasks(w)[loc].msg.eventId == id then CountAct(cfg, t, Tasks(w)[loc].stage, act) else t
    case _ => t
  }

  function CountAct(cfg: Config, t: Tally, stage: Stage, act: Act): Tally {
    match act
    case Handle(_, Ok) => t.(completed := t.completed + 1)
    case Record(_, ok) => if ok then t.(written := t.written + 1) else t.(lost := t.lost + 1)
    case RecordFailure(true) => if Standing(t) then t.(overwritten := t.overwritten + 1) else t
    case LookUp(LookupError) => if LastLookup(cfg, stage) then t.(raised := t.raised + 1) else t
    case _ => t
  }

  predicate LastLookup(cfg: Config, stage: Stage) {
    stage.LookingUp? && stage.attempt >= cfg.maxAttempts
  }

  function Totals(cfg: Config, steps: seq<Step>, id: EventId): Tally
    requires Legal(cfg, INIT, steps)
  {
    if steps == [] then ZERO else
      Count(cfg, Totals(cfg, steps[..|steps| - 1], id),
            After(cfg, INIT, steps[..|steps| - 1]), steps[|steps| - 1], id)
  }

  /** No event id is in flight twice. */
  ghost predicate UniqueInFlight(tasks: map<Loc, Job>) {
    forall a, b :: a in tasks && b in tasks && a != b ==> Distinct(tasks[a], tasks[b])
  }

  predicate Distinct(a: Job, b: Job) {
    a.stage.Done? || b.stage.Done? || a.msg.eventId != b.msg.eventId
  }

  /** No id is ever in flight twice. */
  ghost predicate Apart(cfg: Config, steps: seq<Step>)
    requires Legal(cfg, INIT, steps)
  {
    steps == [] ||
    (Apart(cfg, steps[..|steps| - 1]) && UniqueInFlight(Tasks(After(cfg, INIT, steps[..|steps| - 1]))))
  }

  /** The handler or its record write is under way. */
  predicate Open(stage: Stage) {
    stage.Handling? || stage.Recording?
  }

  /** The task is on its way to the "failed" upsert. */
  predicate GivingUp(stage: Stage) {
    || stage.RecordingFailure?
    || (stage.Publishing? && stage.reason.RetriesExhausted?)
    || (stage.Inserting? && stage.reason.RetriesExhausted?)
  }

  ghost predicate NoneOpen(tasks: map<Loc, Job>, id: EventId) {
    forall loc :: loc in tasks && tasks[loc].msg.eventId == id ==> !Open(tasks[loc].stage)
  }

  predicate GivingUpNow(tasks: map<Loc, Job>, id: EventId) {
    exists loc :: loc in tasks && GivingUp(tasks[loc].stage) && tasks[loc].msg.eventId == id
  }

  ghost predicate TallyInv(t: Tally, w: World, id: EventId) {
    Balanced(t, IsProcessed(w.records, id), RecordingNow(Tasks(w), id), NoneOpen(Tasks(w), id),
             GivingUpNow(Tasks(w), id))
  }

  /**
   Completed runs are accounted for; at most one confirmed record stands, and while it does the table
   says "processed", no handler of the id is open, and giving up has cost a lookup on the last attempt.
   */
  ghost predicate Balanced(t: Tally, processed: bool, recording: bool, noneOpen: bool, givingUp: bool) {
    && t.completed == t.lost + t.written + (if recording then 1 else 0)
    && t.overwritten <= t.written <= t.overwritten + 1
    && (Standing(t) ==> processed && noneOpen)
    && t.overwritten + (if Standing(t) && givingUp then 1 else 0) <= t.raised
  }

  // --------------------------------------------------------------- one step

  /** What one task does to its own stage, to the record of its own id and to the tally. */
  lemma OwnAct(cfg: Config, t: Tally, w: World, p: Process, loc: Loc, act: Act)
    requires cfg.envelope && loc in p.tasks && ActEnabled(cfg, w, p, p.tasks[loc], act)
    requires
      var job := p.tasks[loc];
      Balanced(t, IsProcessed(w.records, job.msg.eventId), job.stage.Recording?, !Open(job.stage), GivingUp(job.stage))
    ensures
      var job := p.tasks[loc];
      var stage := NextStage(cfg, job, act);
      var records := StoreEffect(cfg, w, loc, job, act).records;
      Balanced(CountAct(cfg, t, job.stage, act), IsProcessed(records, job.msg.eventId),
               stage.Recording?, !Open(stage), GivingUp(stage))
  {
  }

  /** A task never touches the record of another id. */
  lemma OtherRecords(cfg: Config, w: World, loc: Loc, job: Job, act: Act, id: EventId)
    requires job.msg.eventId != id
    ensures IsProcessed(StoreEffect(cfg, w, loc, job, act).records, id) == IsProcessed(w.records, id)
  {
  }

  lemma ActTally(cfg: Config, w: World, loc: Loc, act: Act, t: Tally, id: EventId)
    requires cfg.envelope && Enabled(cfg, w, Task(loc, act))
    requires UniqueInFlight(Tasks(w)) && TallyInv(t, w, id)
    ensures TallyInv(Count(cfg, t, w, Task(loc, act), id), Apply(cfg, w, Task(loc, act)), id)
  {
    var p := w.process.value;
    var job := p.tasks[loc];
    var stage := NextStage(cfg, job, act);
    ActShape(cfg, w, loc, act);
    if job.msg.eventId == id {
      SoleTask(p.tasks, loc, stage);
      OwnAct(cfg, t, w, p, loc, act);
    } else {
      OtherRecords(cfg, w, loc, job, act, id);
      OtherTask(p.tasks, loc, stage, id);
    }
  }

  /** With ids unique in flight, the live task of an id decides alone what the id is doing. */
  lemma SoleTask(tasks: map<Loc, Job>, loc: Loc, stage: Stage)
    requires loc in tasks && UniqueInFlight(tasks) && !tasks[loc].stage.Done?
    ensures
      var id := tasks[loc].msg.eventId;
      var tasks' := tasks[loc := Job(tasks[loc].msg, stage)];
      && RecordingNow(tasks, id) == tasks[loc].stage.Recording?
      && RecordingNow(tasks', id) == stage.Recording?
      && NoneOpen(tasks, id) == !Open(tasks[loc].stage)
      && NoneOpen(tasks', id) == !Open(stage)
      && GivingUpNow(tasks, id) == GivingUp(tasks[loc].stage)
      && GivingUpNow(tasks', id) == GivingUp(stage)
  {
    var tasks' := tasks[loc := Job(tasks[loc].msg, stage)];
    assert forall l :: l in tasks && l != loc ==> Distinct(tasks[loc], tasks[l]) && tasks'[l] == tasks[l];
    assert loc in tasks';
  }

  lemma OtherTask(tasks: map<Loc, Job>, loc: Loc, stage: Stage, id: EventId)
    requires loc in tasks && tasks[loc].msg.eventId != id
    ensures
      var tasks' := tasks[loc := Job(tasks[loc].msg, stage)];
      && RecordingNow(tasks', id) == RecordingNow(tasks, id)
      && NoneOpen(tasks', id) == NoneOpen(tasks, id)
      && GivingUpNow(tasks', id) == GivingUpNow(tasks, id)
  {
    var tasks' := tasks[loc := Job(tasks[loc].msg, stage)];
    assert forall l :: l in tasks && l != loc ==> tasks'[l] == tasks[l];
    if RecordingNow(tasks, id) {
      var l :| l in tasks && tasks[l].stage.Recording? && tasks[l].msg.eventId == id;
      assert l in tasks' && tasks'[l] == tasks[l];
    }
    if GivingUpNow(tasks, id) {
      var l :| l in tasks && GivingUp(tasks[l].stage) && tasks[l].msg.eventId == id;
      assert l in tasks' && tasks'[l] == tasks[l];
    }
  }

  ghost predicate Quiet(tasks: map<Loc, Job>) {
    forall loc :: loc in tasks ==> tasks[loc].stage.Done? || tasks[loc].stage.Queued?
  }

  /** Outside the tasks nothing touches a record, and tasks vanish only when done or in a crash. */
  lemma MoveTasks(w: World, p: Process, move: Move)
    requires MoveEnabled(w, p, move) && w.process == Some(p) && (p.phase.Polling? ==> AllDone(p))
    ensures MoveApply(w, p, move).records == w.records
    ensures
      var tasks' := Tasks(MoveApply(w, p, move));
      if move == Crash then tasks' == map[] else tasks' == p.tasks || (Quiet(p.tasks) && Quiet(tasks'))
  {
    match move
    case Deliver(counts) => DeliverTasks(w, p, counts);
    case _ =>
  }

  lemma DeliverTasks(w: World, p: Process, counts: Offsets)
    requires AllDone(p) && CanDeliver(w.log, p.position, counts)
    ensures
      var tasks' := Delivered(w.log, p, counts).tasks;
      tasks' == p.tasks || (Quiet(p.tasks) && Quiet(tasks'))
  {
    if counts != map[] {
      var fetched := Fetched(w.log, p.position, counts);
      assert forall loc :: loc in fetched ==> fetched[loc].stage.Queued?;
    }
  }

  lemma LoopTally(cfg: Config, w: World, s: Step, t: Tally, id: EventId)
    requires Enabled(cfg, w, s) && !s.Task? && OffsetInv(w) && TallyInv(t, w, id)
    ensures TallyInv(Count(cfg, t, w, s, id), Apply(cfg, w, s), id)
  {
    if s.Loop? {
      MoveTasks(w, w.process.value, s.move);
    }
  }

  lemma {:induction false} TallyHolds(cfg: Config, steps: seq<Step>, id: EventId)
    requires cfg.envelope && Legal(cfg, INIT, steps) && Apart(cfg, steps)
    ensures TallyInv(Totals(cfg, steps, id), After(cfg, INIT, steps), id)
  {
    if steps != [] {
      var prev, s := steps[..|steps| - 1], steps[|steps| - 1];
      var w := After(cfg, INIT, prev);
      TallyHolds(cfg, prev, id);
      if s.Task? {
        ActTally(cfg, w, s.loc, s.act, Totals(cfg, prev, id), id);
      } else {
        OffsetsHold(cfg, prev);
        LoopTally(cfg, w, s, Totals(cfg, prev, id), id);
      }
    }
  }

  // -------------------------------------------------------------- the bound

  /**
   Whatever raises: completed handler runs of an id are at most one more than its lost record writes and
   its overwritten records, and each overwrite has cost a lookup that raised on the last attempt.
   */
  lemma BoundedDuplicates(cfg: Config, steps: seq<Step>, id: EventId)
    requires cfg.envelope && Legal(cfg, INIT, steps) && Apart(cfg, steps)
    ensures
      var t := Totals(cfg, steps, id);
      t.completed <= 1 + t.lost + t.overwritten && t.overwritten <= t.raised
  {
    TallyHolds(cfg, steps, id);
  }

  /** Re-entry only after an overwrite: the handler is open to an id only while no confirmed record stands. */
  lemma NoReentry(cfg: Config, steps: seq<Step>, id: EventId, loc: Loc, applied: bool, reply: Reply)
    requires cfg.envelope && Legal(cfg, INIT, steps) && Apart(cfg, steps)
    requires Enabled(cfg, After(cfg, INIT, steps), Task(loc, Handle(applied, reply)))
    requires After(cfg, INIT, steps).process.value.tasks[loc].msg.eventId == id
    ensures Totals(cfg, steps, id).overwritten == Totals(cfg, steps, id).written
  {
    TallyHolds(cfg, steps, id);
  }

  /** What counts as an overwrite hits a record that says "processed", and leaves it saying "failed". */
  lemma OverwriteHitsRecord(cfg: Config, steps: seq<Step>, id: EventId)
    requires cfg.envelope && Legal(cfg, INIT, steps) && Apart(cfg, steps) && steps != []
    requires Totals(cfg, steps, id).overwritten > Totals(cfg, steps[..|steps| - 1], id).overwritten
    ensures IsProcessed(After(cfg, INIT, steps[..|steps| - 1]).records, id)
    ensures !IsProcessed(After(cfg, INIT, steps).records, id)
  {
    TallyHolds(cfg, steps[..|steps| - 1], id);
  }

  // --------------------------------------------------- lookups that do not raise

  /** The step is a lookup that raises on the last attempt; on an earlier one it is tried again. */
  predicate GivesUp(cfg: Config, w: World, s: Step) {
    && s.Task? && s.act == LookUp(LookupError)
    && s.loc in Tasks(w) && LastLookup(cfg, Tasks(w)[s.loc].stage)
  }

  predicate Tame(cfg: Config, steps: seq<Step>)
    requires Legal(cfg, INIT, steps)
  {
    steps == [] ||
    (Tame(cfg, steps[..|steps| - 1]) && !GivesUp(cfg, After(cfg, INIT, steps[..|steps| - 1]), steps[|steps| - 1]))
  }

  lemma TameStep(cfg: Config, t: Tally, w: World, s: Step, id: EventId)
    requires !GivesUp(cfg, w, s)
    ensures Count(cfg, t, w, s, id).raised == t.raised
  {
  }

  lemma {:induction false} TameNeverRaises(cfg: Config, steps: seq<Step>, id: EventId)
    requires Legal(cfg, INIT, steps) && Tame(cfg, steps)
    ensures Totals(cfg, steps, id).raised == 0
  {
    if steps != [] {
      var prev := steps[..|steps| - 1];
      TameNeverRaises(cfg, prev, id);
      TameStep(cfg, Totals(cfg, prev, id), After(cfg, INIT, prev), steps[|steps| - 1], id);
    }
  }

  /** If no lookup raises on the last attempt, one completed run more than lost writes is the limit. */
  lemma TameDuplicates(cfg: Config, steps: seq<Step>, id: EventId)
    requires cfg.envelope && Legal(cfg, INIT, steps) && Apart(cfg, steps) && Tame(cfg, steps)
    ensures Totals(cfg, steps, id).overwritten == 0
    ensures Totals(cfg, steps, id).completed <= 1 + Totals(cfg, steps, id).lost
  {
    TameNeverRaises(cfg, steps, id);
    BoundedDuplicates(cfg, steps, id);
  }

  /** Then a confirmed record keeps every later delivery of the id out of the handler for good. */
  lemma TameNoReentry(cfg: Config, steps: seq<Step>, id: EventId, loc: Loc, applied: bool, reply: Reply)
    requires cfg.envelope && Legal(cfg, INIT, steps) && Apart(cfg, steps) && Tame(cfg, steps)
    requires Totals(cfg, steps, id).written >= 1
    requires Enabled(cfg, After(cfg, INIT, steps), Task(loc, Handle(applied, reply)))
    ensures After(cfg, INIT, steps).process.value.tasks[loc].msg.eventId != id
  {
    if After(cfg, INIT, steps).process.value.tasks[loc].msg.eventId == id {
      TameDuplicates(cfg, steps, id);
      NoReentry(cfg, steps, id, loc, applied, reply);
    }
  }

  // --------------------------------------------- a condition on the log alone

  ghost predicate UniqueLog(log: Log) {
    forall a, b :: InLog(log, a) && InLog(log, b) && a != b ==>
      MessageAt(log, a).eventId != MessageAt(log, b).eventId
  }

  /** In a log without repeated ids no id is ever in flight twice, redeliveries included. */
  lemma {:induction false} UniqueLogIsApart(cfg: Config, steps: seq<Step>)
    requires Legal(cfg, INIT, steps) && UniqueLog(After(cfg, INIT, steps).log)
    ensures Apart(cfg, steps)
  {
    if steps != [] {
      var prev, s := steps[..|steps| - 1], steps[|steps| - 1];
      var w := After(cfg, INIT, prev);
      LogGrows(cfg, w, s);
      assert UniqueLog(w.log);
      UniqueLogIsApart(cfg, prev);
      OffsetsHold(cfg, prev);
    }
  }

  lemma BoundedDuplicatesUniqueLog(cfg: Config, steps: seq<Step>, id: EventId)
    requires cfg.envelope && Legal(cfg, INIT, steps) && UniqueLog(After(cfg, INIT, steps).log)
    ensures
      var t := Totals(cfg, steps, id);
      t.completed <= 1 + t.lost + t.overwritten && t.overwritten <= t.raised
  {
    UniqueLogIsApart(cfg, steps);
    BoundedDuplicates(cfg, steps, id);
  }

  // ------------------------------------------- the bound is reached, everywhere

  /** A legal run of one message, the world it reaches and its tally. */
  ghost predicate Reaches(cfg: Config, steps: seq<Step>, w: World, id: EventId, t: Tally) {
    Legal(cfg, INIT, steps) && After(cfg, INIT, steps) == w && Totals(cfg, steps, id) == t
  }

  lemma ThenReaches(cfg: Config, steps: seq<Step>, w: World, id: EventId, t: Tally, s: Step, w': World, t': Tally)
    returns (more: seq<Step>)
    requires Reaches(cfg, steps, w, id, t) && Enabled(cfg, w, s)
    requires w' == Apply(cfg, w, s) && t' == Count(cfg, t, w, s, id)
    ensures Reaches(cfg, more, w', id, t')
  {
    more := Then(cfg, steps, s);
    assert more[..|more| - 1] == steps;
  }

  /** The world with one process whose only task is in the given stage. */
  function With(w: World, msg: Message, stage: Stage): World {
    w.(process := Some(Holder(msg, stage)))
  }

  /** One act of the only task: the stores go from `w` to `v`. */
  lemma Play(cfg: Config, steps: seq<Step>, w: World, msg: Message, t: Tally, stage: Stage, act: Act,
             v: World, t': Tally) returns (more: seq<Step>)
    requires Reaches(cfg, steps, With(w, msg, stage), msg.eventId, t)
    requires ActEnabled(cfg, With(w, msg, stage), Holder(msg, stage), Job(msg, stage), act)
    requires With(v, msg, stage) == StoreEffect(cfg, With(w, msg, stage), L0, Job(msg, stage), act)
    requires t' == CountAct(cfg, t, stage, act)
    ensures Reaches(cfg, more, With(v, msg, NextStage(cfg, Job(msg, stage), act)), msg.eventId, t')
  {
    DoWorld(cfg, With(w, msg, stage), msg, stage, act);
    more := ThenReaches(cfg, steps, With(w, msg, stage), msg.eventId, t, Task(L0, act),
                        With(v, msg, NextStage(cfg, Job(msg, stage), act)), t');
  }

  /** A stopped process starts and fetches the uncommitted message. */
  lemma Refetch(cfg: Config, steps: seq<Step>, w: World, msg: Message, t: Tally) returns (more: seq<Step>)
    requires Reaches(cfg, steps, w, msg.eventId, t)
    requires Stopped(w, msg)
    ensures Reaches(cfg, more, With(w, msg, Queued), msg.eventId, t)
  {
    FetchWorld(cfg, w, msg);
    var id := msg.eventId;
    var w1 := w.(process := Some(Process(map[], Idle, false, map[], map[])));
    var w2 := w.(process := Some(Process(map[], Polling, false, map[], map[])));
    more := ThenReaches(cfg, steps, w, id, t, Start, w1, t);
    more := ThenReaches(cfg, more, w1, id, t, Loop(BeginPoll), w2, t);
    more := ThenReaches(cfg, more, w2, id, t, Loop(Deliver(map[TP0 := 1])), With(w, msg, Queued), t);
  }

  /** No process, and one uncommitted message in the log. */
  predicate Stopped(w: World, msg: Message) {
    w.process.None? && w.log == map[TP0 := [msg]] && w.committed == map[]
  }

  /** The process dies with its only task done and the offset uncommitted. */
  lemma Die(cfg: Config, steps: seq<Step>, w: World, msg: Message, t: Tally, fate: Fate) returns (more: seq<Step>)
    requires Reaches(cfg, steps, With(w, msg, Done(fate)), msg.eventId, t)
    ensures Reaches(cfg, more, w.(process := None), msg.eventId, t)
  {
    var w1 := With(w, msg, Done(fate));
    assert !RecordingNow(Tasks(w1), msg.eventId);
    more := ThenReaches(cfg, steps, w1, msg.eventId, t, Loop(Crash), w.(process := None), t);
  }

  /** Configurations in which a handler can run. */
  predicate Runs(cfg: Config) {
    cfg.envelope && cfg.maxAttempts >= 1 && cfg.concurrency >= 1
  }

  /** A delivery up to its record lookup. */
  lemma Approach(cfg: Config, steps: seq<Step>, w: World, msg: Message, t: Tally) returns (more: seq<Step>)
    requires Runs(cfg) && msg.wellFormed && Reaches(cfg, steps, w, msg.eventId, t) && Stopped(w, msg)
    ensures Reaches(cfg, more, With(w, msg, LookingUp(1)), msg.eventId, t)
  {
    more := Refetch(cfg, steps, w, msg, t);
    assert Running(Holder(msg, Queued).tasks) == {};
    more := Play(cfg, more, w, msg, t, Queued, Acquire, w, t);
  }

  lemma Published(cfg: Config, msg: Message) returns (steps: seq<Step>)
    ensures Reaches(cfg, steps, World(map[TP0 := [msg]], map[], map[], [], [], [], None), msg.eventId, ZERO)
  {
    assert LogOf(INIT.log, TP0) + [msg] == [msg];
    steps := ThenReaches(cfg, [], INIT, msg.eventId, ZERO, Produce(TP0, msg),
                         World(map[TP0 := [msg]], map[], map[], [], [], [], None), ZERO);
  }

  /** From the lookup that finds no record to a completed handler. */
  lemma RunHandler(cfg: Config, steps: seq<Step>, w: World, msg: Message, t: Tally) returns (more: seq<Step>, v: World)
    requires Runs(cfg) && Reaches(cfg, steps, With(w, msg, LookingUp(1)), msg.eventId, t)
    requires !IsProcessed(w.records, msg.eventId)
    ensures v == w.(events := InsertEvent(w.events, Row(msg.eventId, msg.body, L0)))
    ensures Reaches(cfg, more, With(v, msg, Recording(1)), msg.eventId, t.(completed := t.completed + 1))
  {
    v := w.(events := InsertEvent(w.events, Row(msg.eventId, msg.body, L0)));
    more := Play(cfg, steps, w, msg, t, LookingUp(1), LookUp(Missing), w, t);
    more := Play(cfg, more, w, msg, t, Handling(1), Handle(true, Ok), v, t.(completed := t.completed + 1));
  }

  /** The record is written, and then the process dies before the commit. */
  lemma Conclude(cfg: Config, steps: seq<Step>, w: World, msg: Message, t: Tally) returns (more: seq<Step>, v: World)
    requires Reaches(cfg, steps, With(w, msg, Recording(1)), msg.eventId, t)
    ensures v == w.(process := None, records := w.records[msg.eventId := Processed])
    ensures Reaches(cfg, more, v, msg.eventId, t.(written := t.written + 1))
  {
    v := w.(process := None, records := w.records[msg.eventId := Processed]);
    more := Play(cfg, steps, w, msg, t, Recording(1), Record(true, true), v, t.(written := t.written + 1));
    more := Die(cfg, more, v, msg, t.(written := t.written + 1), Completed);
  }

  /** The lookup raises on every attempt that is left. */
  lemma {:induction false} RaiseAll(cfg: Config, steps: seq<Step>, w: World, msg: Message, t: Tally, n: nat)
    returns (more: seq<Step>)
    requires Runs(cfg) && 1 <= n <= cfg.maxAttempts
    requires Reaches(cfg, steps, With(w, msg, LookingUp(n)), msg.eventId, t)
    ensures Reaches(cfg, more, With(w, msg, Publishing(RetriesExhausted, cfg.maxAttempts)), msg.eventId,
                    t.(raised := t.raised + 1))
    decreases cfg.maxAttempts - n
  {
    if n == cfg.maxAttempts {
      more := Play(cfg, steps, w, msg, t, LookingUp(n), LookUp(LookupError), w, t.(raised := t.raised + 1));
    } else {
      more := Play(cfg, steps, w, msg, t, LookingUp(n), LookUp(LookupError), w, t);
      more := Play(cfg, more, w, msg, t, Sleeping(n), Wake, w, t);
      more := RaiseAll(cfg, more, w, msg, t, n + 1);
    }
  }

  /** Giving up overwrites the standing record with "failed". */
  lemma GiveUp(cfg: Config, steps: seq<Step>, w: World, msg: Message, t: Tally, n: nat)
    returns (more: seq<Step>, v: World)
    requires Runs(cfg) && Standing(t)
    requires Reaches(cfg, steps, With(w, msg, Publishing(RetriesExhausted, n)), msg.eventId, t)
    ensures v == w.(process := None, records := w.records[msg.eventId := Failed])
    ensures Reaches(cfg, more, v, msg.eventId, t.(overwritten := t.overwritten + 1))
  {
    v := w.(process := None, records := w.records[msg.eventId := Failed]);
    var t' := t.(overwritten := t.overwritten + 1);
    more := Play(cfg, steps, w, msg, t, Publishing(RetriesExhausted, n), PublishDlq(false), w, t);
    more := Play(cfg, more, w, msg, t, Inserting(RetriesExhausted, n, false), InsertDlq(false), w, t);
    more := Play(cfg, more, w, msg, t, RecordingFailure(n), RecordFailure(true), v, t');
    more := Die(cfg, more, v, msg, t', DeadLettered);
  }

  /** One delivery that handles the message, records it, and dies before the commit. */
  lemma Complete(cfg: Config, steps: seq<Step>, w: World, msg: Message, t: Tally) returns (more: seq<Step>, v: World)
    requires Runs(cfg) && msg.wellFormed && Reaches(cfg, steps, w, msg.eventId, t) && Stopped(w, msg)
    requires !IsProcessed(w.records, msg.eventId)
    ensures Stopped(v, msg) && IsProcessed(v.records, msg.eventId)
    ensures Reaches(cfg, more, v, msg.eventId, t.(completed := t.completed + 1, written := t.written + 1))
  {
    more := Approach(cfg, steps, w, msg, t);
    more, v := RunHandler(cfg, more, w, msg, t);
    more, v := Conclude(cfg, more, v, msg, t.(completed := t.completed + 1));
  }

  /** One delivery whose lookups all raise: it leaves the record "failed", and dies before the commit. */
  lemma Forget(cfg: Config, steps: seq<Step>, w: World, msg: Message, t: Tally) returns (more: seq<Step>, v: World)
    requires Runs(cfg) && msg.wellFormed && Reaches(cfg, steps, w, msg.eventId, t) && Stopped(w, msg) && Standing(t)
    ensures Stopped(v, msg) && !IsProcessed(v.records, msg.eventId)
    ensures Reaches(cfg, more, v, msg.eventId, t.(overwritten := t.overwritten + 1, raised := t.raised + 1))
  {
    more := Approach(cfg, steps, w, msg, t);
    more := RaiseAll(cfg, more, w, msg, t, 1);
    more, v := GiveUp(cfg, more, w, msg, t.(raised := t.raised + 1), cfg.maxAttempts);
  }

  /**
   The bound is reached: in every configuration in which a handler can run, for every message and every `k`,
   some run completes the handler `k + 1` times without losing a record write, overwriting `k` records.
   */
  lemma {:induction false} LookupErrorsReopen(cfg: Config, msg: Message, k: nat) returns (steps: seq<Step>, w: World)
    requires Runs(cfg) && msg.wellFormed
    ensures Stopped(w, msg) && IsProcessed(w.records, msg.eventId)
    ensures Reaches(cfg, steps, w, msg.eventId, Tally(k + 1, 0, k + 1, k, k)) && Apart(cfg, steps)
    decreases k
  {
    if k == 0 {
      steps := Published(cfg, msg);
      w := World(map[TP0 := [msg]], map[], map[], [], [], [], None);
      steps, w := Complete(cfg, steps, w, msg, ZERO);
    } else {
      steps, w := LookupErrorsReopen(cfg, msg, k - 1);
      steps, w := Forget(cfg, steps, w, msg, Tally(k, 0, k, k - 1, k - 1));
      steps, w := Complete(cfg, steps, w, msg, Tally(k, 0, k, k, k));
    }
    SoleMessage(w.log, msg);
    UniqueLogIsApart(cfg, steps);
  }

  lemma SoleMessage(log: Log, msg: Message)
    requires log == map[TP0 := [msg]]
    ensures UniqueLog(log)
  {
    forall loc | InLog(log, loc) ensures loc == L0 {
      assert loc.tp == TP0;
    }
  }

  // --------------------------------------- where lost writes alone are the bound

  /** No task is at or past a lookup. */
  ghost predicate NoneTried(tasks: map<Loc, Job>) {
    forall loc :: loc in tasks ==> Untouched(tasks[loc].stage)
  }

  predicate Untouched(stage: Stage) {
    !stage.LookingUp? && !stage.Handling? && !stage.Recording? && !stage.Sleeping?
  }

  lemma ActUntouched(cfg: Config, w: World, loc: Loc, act: Act, t: Tally, id: EventId)
    requires cfg.envelope && !Runs(cfg) && NoneTried(Tasks(w)) && Enabled(cfg, w, Task(loc, act))
    ensures NoneTried(Tasks(Apply(cfg, w, Task(loc, act))))
    ensures Count(cfg, t, w, Task(loc, act), id).completed == t.completed
  {
    ActShape(cfg, w, loc, act);
    var job := w.process.value.tasks[loc];
    assert Untouched(job.stage);
    assert Untouched(NextStage(cfg, job, act));
  }

  lemma LoopUntouched(cfg: Config, w: World, s: Step, t: Tally, id: EventId)
    requires NoneTried(Tasks(w)) && OffsetInv(w) && Enabled(cfg, w, s) && !s.Task?
    ensures NoneTried(Tasks(Apply(cfg, w, s))) && Count(cfg, t, w, s, id).completed == t.completed
  {
    if s.Loop? {
      MoveTasks(w, w.process.value, s.move);
    }
  }

  lemma {:induction false} NeverCompletes(cfg: Config, steps: seq<Step>, id: EventId)
    requires cfg.envelope && !Runs(cfg) && Legal(cfg, INIT, steps)
    ensures NoneTried(Tasks(After(cfg, INIT, steps))) && Totals(cfg, steps, id).completed == 0
  {
    if steps != [] {
      var prev := steps[..|steps| - 1];
      NeverCompletes(cfg, prev, id);
      var w, s, t := After(cfg, INIT, prev), steps[|steps| - 1], Totals(cfg, prev, id);
      if s.Task? {
        ActUntouched(cfg, w, s.loc, s.act, t, id);
      } else {
        OffsetsHold(cfg, prev);
        LoopUntouched(cfg, w, s, t, id);
      }
    }
  }

  ghost predicate LostWritesBound(cfg: Config, steps: seq<Step>)
    requires Legal(cfg, INIT, steps)
  {
    forall id :: Totals(cfg, steps, id).completed <= 1 + Totals(cfg, steps, id).lost
  }

  /** Lost writes alone bound the completed runs, in every run, only where no handler can run at all. */
  lemma LostWritesBoundIff(cfg: Config)
    requires cfg.envelope
    ensures (forall steps | Legal(cfg, INIT, steps) && Apart(cfg, steps) :: LostWritesBound(cfg, steps)) <==> !Runs(cfg)
  {
    if Runs(cfg) {
      var steps, w := LookupErrorsReopen(cfg, Message("e1", true, "body"), 1);
      assert Totals(cfg, steps, "e1") == Tally(2, 0, 2, 1, 1);
      assert !LostWritesBound(cfg, steps);
    } else {
      forall steps | Legal(cfg, INIT, steps) && Apart(cfg, steps) ensures LostWritesBound(cfg, steps) {
        forall id ensures Totals(cfg, steps, id).completed <= 1 + Totals(cfg, steps, id).lost {
          NeverCompletes(cfg, steps, id);
        }
      }
    }
  }
}
