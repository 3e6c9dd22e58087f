/**
 The Kafka consumer framework as a labelled transition system.

 One `Step` is what happens between two suspension points of `StreamConsumer`:
 every reply of the broker, of the record table, of the handler and of the dead
 letter sinks is part of the label, and so is a crash.  A run is a sequence of
 labels, so a claim about "every run" quantifies over every interleaving, every
 failure and every crash point.
 */
module ConsumerModel {
  import opened Prelude

  type EventId = string

  datatype TopicPartition = TopicPartition(topic: string, partition: nat)
  datatype Loc = Loc(tp: TopicPartition, offset: nat)

  /** `wellFormed` says whether `EventEnvelope.from_wire` accepts the message. */
  datatype Message = Message(eventId: EventId, wellFormed: bool, body: string)

  type Log = map<TopicPartition, seq<Message>>
  type Offsets = map<TopicPartition, nat>

  /** A row of the `events` table: the event and where it was consumed from. */
  datatype Row = Row(eventId: EventId, body: string, loc: Loc)

  datatype RecordStatus = Processed | Failed

  datatype Reason = MalformedEnvelope | PermanentError | RetriesExhausted
  datatype DeadLetter = DeadLetter(loc: Loc, eventId: EventId, reason: Reason, attempts: nat)

  /** `Untried` is the retry loop ending without a single iteration. */
  datatype Fate = Completed | Duplicate | DeadLettered | Untried

  /** Where one task of the batch stands; each constructor but `Done` is an await. */
  datatype Stage =
    | Queued
    | LookingUp(attempt: nat)
    | Handling(attempt: nat)
    | Recording(attempt: nat)
    | Sleeping(attempt: nat)
    | Publishing(reason: Reason, attempt: nat)
    | Inserting(reason: Reason, attempt: nat, published: bool)
    | RecordingFailure(attempt: nat)
    | Done(fate: Fate)

  datatype Job = Job(msg: Message, stage: Stage)

  datatype Phase = Idle | Polling | Gathering | Committing | Stopping

  /** What a running consumer process holds in memory. */
  datatype Process = Process(
    position: Offsets,
    phase: Phase,
    stopping: bool,
    tasks: map<Loc, Job>,
    batchEnd: Offsets)

  /** Everything that survives a crash, plus the process if one is running. */
  datatype World = World(
    log: Log,
    committed: Offsets,
    records: map<EventId, RecordStatus>,
    events: seq<Row>,
    dlqTopic: seq<DeadLetter>,
    dlqTable: seq<DeadLetter>,
    process: Option<Process>)

  /** `envelope`, `consumer_retry_max_attempts` and `consumer_max_concurrency`. */
  datatype Config = Config(envelope: bool, maxAttempts: int, concurrency: int)

  datatype Answer = Found | Missing | LookupError
  datatype Reply = Ok | Permanent | Transient

  /** One step of the task of one message. */
  datatype Act =
    | Acquire
    | LookUp(answer: Answer)
    | Handle(applied: bool, reply: Reply)
    | Record(applied: bool, ok: bool)
    | Wake
    | PublishDlq(stored: bool)
    | InsertDlq(stored: bool)
    | RecordFailure(applied: bool)

  /** One step of the main loop, of `stop`, or the end of the process. */
  datatype Move =
    | Crash
    | RequestStop
    | BeginPoll
    | PollError
    | PollRaises
    | Deliver(counts: Offsets)
    | Gathered
    | CommitBatch(applied: bool)
    | ExitLoop
    | StopCommit(applied: bool)

  datatype Step =
    | Produce(tp: TopicPartition, msg: Message)
    | Start
    | Loop(move: Move)
    | Task(loc: Loc, act: Act)

  const INIT: World := World(map[], map[], map[], [], [], [], None)

  // ---------------------------------------------------------------- stores

  function LogOf(log: Log, tp: TopicPartition): seq<Message> {
    if tp in log then log[tp] else []
  }

  predicate InLog(log: Log, loc: Loc) {
    loc.offset < |LogOf(log, loc.tp)|
  }

  function MessageAt(log: Log, loc: Loc): Message
    requires InLog(log, loc)
  {
    LogOf(log, loc.tp)[loc.offset]
  }

  predicate HasRow(events: seq<Row>, id: EventId) {
    exists i :: 0 <= i < |events| && events[i].eventId == id
  }

  /** `INSERT ... ON CONFLICT (event_id) DO NOTHING`. */
  function InsertEvent(events: seq<Row>, row: Row): seq<Row> {
    if HasRow(events, row.eventId) then events else events + [row]
  }

  predicate IsProcessed(records: map<EventId, RecordStatus>, id: EventId) {
    id in records && records[id] == Processed
  }

  predicate Holds(entries: seq<DeadLetter>, loc: Loc) {
    exists i :: 0 <= i < |entries| && entries[i].loc == loc
  }

  // ------------------------------------------------------- per-message flow

  /** The head of the retry loop: `for attempt in range(1, max_attempts + 1)`. */
  function LoopHead(cfg: Config, attempt: nat): Stage {
    if attempt > cfg.maxAttempts then Done(Untried)
    else if cfg.envelope then LookingUp(attempt)
    else Handling(attempt)
  }

  /** `_process_one` up to its first await. */
  function FirstStage(cfg: Config, msg: Message): Stage {
    if cfg.envelope && !msg.wellFormed then Publishing(MalformedEnvelope, 1) else LoopHead(cfg, 1)
  }

  /** The `except Exception` branch of the retry loop. */
  function AfterTransient(cfg: Config, attempt: nat): Stage {
    if attempt >= cfg.maxAttempts then Publishing(RetriesExhausted, attempt) else Sleeping(attempt)
  }

  function AfterLookUp(cfg: Config, attempt: nat, answer: Answer): Stage {
    match answer
    case Found => Done(Duplicate)
    case Missing => Handling(attempt)
    case LookupError => AfterTransient(cfg, attempt)
  }

  function AfterHandle(cfg: Config, attempt: nat, reply: Reply): Stage {
    match reply
    case Ok => if cfg.envelope then Recording(attempt) else Done(Completed)
    case Permanent => Publishing(PermanentError, attempt)
    case Transient => AfterTransient(cfg, attempt)
  }

  function AfterDlq(cfg: Config, reason: Reason, attempt: nat): Stage {
    if reason.RetriesExhausted? && cfg.envelope then RecordingFailure(attempt) else Done(DeadLettered)
  }

  // ------------------------------------------------------------- transitions

  predicate AllDone(p: Process) {
    forall loc :: loc in p.tasks ==> p.tasks[loc].stage.Done?
  }

  predicate Holding(stage: Stage) {
    !stage.Queued? && !stage.Done?
  }

  /** Tasks that hold the semaphore. */
  function Running(tasks: map<Loc, Job>): set<Loc> {
    set loc | loc in tasks && Holding(tasks[loc].stage)
  }

  predicate Enabled(cfg: Config, w: World, s: Step) {
    match s
    case Produce(_, _) => true
    case Start => w.process.None?
    case Loop(move) => w.process.Some? && MoveEnabled(w, w.process.value, move)
    case Task(loc, act) =>
      w.process.Some? && loc in w.process.value.tasks &&
      ActEnabled(cfg, w, w.process.value, w.process.value.tasks[loc], act)
  }

  predicate MoveEnabled(w: World, p: Process, move: Move) {
    match move
    case Crash => true
    case RequestStop => true
    case BeginPoll => p.phase.Idle? && !p.stopping
    case PollError => p.phase.Polling?
    case PollRaises => p.phase.Polling?
    case Deliver(counts) => p.phase.Polling? && CanDeliver(w.log, p.position, counts)
    case Gathered => p.phase.Gathering? && AllDone(p)
    case CommitBatch(_) => p.phase.Committing?
    case ExitLoop => p.phase.Idle? && p.stopping
    case StopCommit(_) => p.phase.Stopping? && AllDone(p)
  }

  predicate ActEnabled(cfg: Config, w: World, p: Process, job: Job, act: Act) {
    match act
    case Acquire => job.stage.Queued? && |Running(p.tasks)| < cfg.concurrency
    case LookUp(answer) =>
      job.stage.LookingUp? &&
      (answer.Found? ==> IsProcessed(w.records, job.msg.eventId)) &&
      (answer.Missing? ==> !IsProcessed(w.records, job.msg.eventId))
    case Handle(applied, reply) => job.stage.Handling? && (reply.Ok? ==> applied)
    case Record(applied, ok) => job.stage.Recording? && (ok ==> applied)
    case Wake => job.stage.Sleeping?
    case PublishDlq(_) => job.stage.Publishing?
    case InsertDlq(_) => job.stage.Inserting?
    case RecordFailure(_) => job.stage.RecordingFailure?
  }

  /** Where a task stands after an act; an act out of place changes nothing. */
  function NextStage(cfg: Config, job: Job, act: Act): Stage {
    match (act, job.stage)
    case (Acquire, Queued) => FirstStage(cfg, job.msg)
    case (LookUp(answer), LookingUp(n)) => AfterLookUp(cfg, n, answer)
    case (Handle(_, reply), Handling(n)) => AfterHandle(cfg, n, reply)
    case (Record(_, ok), Recording(n)) => if ok then Done(Completed) else AfterTransient(cfg, n)
    case (Wake, Sleeping(n)) => LoopHead(cfg, n + 1)
    case (PublishDlq(stored), Publishing(reason, n)) => Inserting(reason, n, stored)
    case (InsertDlq(_), Inserting(reason, n, _)) => AfterDlq(cfg, reason, n)
    case (RecordFailure(_), RecordingFailure(_)) => Done(DeadLettered)
    case (_, stage) => stage
  }

  /** `mark_processed`: upsert on (event_id, processor). */
  function Upsert(w: World, id: EventId, status: RecordStatus, applied: bool): World {
    if applied then w.(records := w.records[id := status]) else w
  }

  /** What an act does to the stores.  The handler is the persistence processor's. */
  function StoreEffect(cfg: Config, w: World, loc: Loc, job: Job, act: Act): World {
    match act
    case Handle(applied, _) =>
      if applied && cfg.envelope
      then w.(events := InsertEvent(w.events, Row(job.msg.eventId, job.msg.body, loc)))
      else w
    case Record(applied, _) => Upsert(w, job.msg.eventId, Processed, applied)
    case PublishDlq(stored) =>
      if stored && job.stage.Publishing?
      then w.(dlqTopic := w.dlqTopic + [DeadLetter(loc, job.msg.eventId, job.stage.reason, job.stage.attempt)])
      else w
    case InsertDlq(stored) =>
      if stored && job.stage.Inserting?
      then w.(dlqTable := w.dlqTable + [DeadLetter(loc, job.msg.eventId, job.stage.reason, job.stage.attempt)])
      else w
    case RecordFailure(applied) => Upsert(w, job.msg.eventId, Failed, applied)
    case Acquire => w
    case LookUp(_) => w
    case Wake => w
  }

  predicate CanDeliver(log: Log, position: Offsets, counts: Offsets) {
    forall tp :: tp in counts ==> At(position, tp) + counts[tp] <= |LogOf(log, tp)|
  }

  function Fetched(log: Log, position: Offsets, counts: Offsets): map<Loc, Job>
    requires CanDeliver(log, position, counts)
  {
    map tp, o | tp in counts && At(position, tp) <= o < At(position, tp) + counts[tp]
      :: Loc(tp, o) := Job(LogOf(log, tp)[o], Queued)
  }

  function Advanced(position: Offsets, counts: Offsets): Offsets {
    map tp | tp in position.Keys + counts.Keys :: At(position, tp) + At(counts, tp)
  }

  /** `getmany` returned: advance the positions and create one task per message. */
  function Delivered(log: Log, p: Process, counts: Offsets): Process
    requires CanDeliver(log, p.position, counts)
  {
    if counts == map[] then p.(phase := Idle) else
      var position := Advanced(p.position, counts);
      Process(position, Gathering, p.stopping, Fetched(log, p.position, counts),
              BatchEnd(position, counts))
  }

  /** `last_offset + 1` of every partition in the batch. */
  function BatchEnd(position: Offsets, counts: Offsets): Offsets {
    map tp | tp in counts && counts[tp] > 0 :: At(position, tp)
  }

  function Commit(w: World, offsets: Offsets, applied: bool): World {
    if applied then w.(committed := w.committed + offsets) else w
  }

  function Apply(cfg: Config, w: World, s: Step): World
    requires Enabled(cfg, w, s)
  {
    match s
    case Produce(tp, msg) => w.(log := w.log[tp := LogOf(w.log, tp) + [msg]])
    case Start => w.(process := Some(Process(w.committed, Idle, false, map[], map[])))
    case Loop(move) => MoveApply(w, w.process.value, move)
    case Task(loc, act) => ActApply(cfg, w, w.process.value, loc, act)
  }

  function ActApply(cfg: Config, w: World, p: Process, loc: Loc, act: Act): World
    requires loc in p.tasks
  {
    var job := p.tasks[loc];
    var tasks := p.tasks[loc := job.(stage := NextStage(cfg, job, act))];
    StoreEffect(cfg, w, loc, job, act).(process := Some(p.(tasks := tasks)))
  }

  function MoveApply(w: World, p: Process, move: Move): World
    requires MoveEnabled(w, p, move)
  {
    match move
    case Crash => w.(process := None)
    case RequestStop => w.(process := Some(p.(stopping := true)))
    case BeginPoll => w.(process := Some(p.(phase := Polling)))
    case PollError => w.(process := Some(p.(phase := Idle)))
    case PollRaises => w.(process := Some(p.(phase := Stopping, stopping := true)))
    case Deliver(counts) => w.(process := Some(Delivered(w.log, p, counts)))
    case Gathered =>
      w.(process := Some(p.(phase := if p.stopping || p.batchEnd == map[] then Idle else Committing)))
    case CommitBatch(applied) =>
      Commit(w, p.batchEnd, applied).(process := Some(p.(phase := Idle)))
    case ExitLoop => w.(process := Some(p.(phase := Stopping)))
    case StopCommit(applied) => Commit(w, p.position, applied).(process := None)
  }

  // -------------------------------------------------------------------- runs

  predicate Legal(cfg: Config, w: World, steps: seq<Step>)
    decreases |steps|, 0
  {
    steps == [] ||
    (Legal(cfg, w, steps[..|steps| - 1]) &&
     Enabled(cfg, After(cfg, w, steps[..|steps| - 1]), steps[|steps| - 1]))
  }

  /** The world a legal sequence of steps leads to. */
  function After(cfg: Config, w: World, steps: seq<Step>): World
    requires Legal(cfg, w, steps)
    decreases |steps|, 1
  {
    if steps == [] then w
    else Apply(cfg, After(cfg, w, steps[..|steps| - 1]), steps[|steps| - 1])
  }

  /** Messages that a step finishes by a handler completion or a duplicate skip. */
  function KeptBy(cfg: Config, s: Step): set<Loc> {
    match s
    case Task(loc, LookUp(Found)) => {loc}
    case Task(loc, Record(_, true)) => {loc}
    case Task(loc, Handle(_, Ok)) => if cfg.envelope then {} else {loc}
    case _ => {}
  }

  /** Messages for which a step finishes the `_to_dlq` hand-off. */
  function HandedBy(s: Step): set<Loc> {
    match s
    case Task(loc, InsertDlq(_)) => {loc}
    case _ => {}
  }

  function Kept(cfg: Config, steps: seq<Step>): set<Loc> {
    if steps == [] then {} else Kept(cfg, steps[..|steps| - 1]) + KeptBy(cfg, steps[|steps| - 1])
  }

  function Handed(steps: seq<Step>): set<Loc> {
    if steps == [] then {} else Handed(steps[..|steps| - 1]) + HandedBy(steps[|steps| - 1])
  }

  /** Every message below a committed offset was kept or dead-lettered in this run. */
  ghost predicate NothingLost(cfg: Config, steps: seq<Step>, w: World) {
    forall loc: Loc :: loc.offset < At(w.committed, loc.tp) ==> loc in Kept(cfg, steps) + Handed(steps)
  }
}
