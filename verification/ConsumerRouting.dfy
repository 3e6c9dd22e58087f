/**
 Which way a message goes: a malformed envelope never reaches the handler and ends with the dead
 letters, and every dead letter tells which message failed, why, and after how many attempts.
 */
module ConsumerRouting {
  import opened Prelude
  import opened ConsumerModel
  import opened ConsumerSafety
  import opened ConsumerPersistence

  /** The envelope parses, or none is expected. */
  predicate Parses(cfg: Config, msg: Message) {
    cfg.envelope ==> msg.wellFormed
  }

  /** The reason fits the message, and the attempts fit the reason. */
  predicate ReasonFits(cfg: Config, msg: Message, reason: Reason, attempts: nat) {
    match reason
    case MalformedEnvelope => !Parses(cfg, msg) && attempts == 1
    case PermanentError => Parses(cfg, msg) && 1 <= attempts <= cfg.maxAttempts
    case RetriesExhausted => Parses(cfg, msg) && 1 <= attempts == cfg.maxAttempts
  }

  predicate Tried(cfg: Config, msg: Message, n: nat) {
    Parses(cfg, msg) && 1 <= n <= cfg.maxAttempts
  }

  /** Where a task with this message can stand. */
  predicate StageFits(cfg: Config, msg: Message, stage: Stage) {
    match stage
    case Queued => true
    case LookingUp(n) => Tried(cfg, msg, n)
    case Handling(n) => Tried(cfg, msg, n)
    case Recording(n) => Tried(cfg, msg, n)
    case Sleeping(n) => Tried(cfg, msg, n)
    case Publishing(reason, n) => ReasonFits(cfg, msg, reason, n)
    case Inserting(reason, n, _) => ReasonFits(cfg, msg, reason, n)
    case RecordingFailure(n) => Tried(cfg, msg, n)
    case Done(fate) => !Parses(cfg, msg) ==> fate == DeadLettered
  }

  /** The dead letter names a logged message, its event id, and a fitting reason. */
  ghost predicate LetterFits(cfg: Config, log: Log, e: DeadLetter) {
    && InLog(log, e.loc) && MessageAt(log, e.loc).eventId == e.eventId
    && ReasonFits(cfg, MessageAt(log, e.loc), e.reason, e.attempts)
  }

  ghost predicate LettersFit(cfg: Config, log: Log, entries: seq<DeadLetter>) {
    forall i :: 0 <= i < |entries| ==> LetterFits(cfg, log, entries[i])
  }

  ghost predicate TasksFit(cfg: Config, tasks: map<Loc, Job>) {
    forall loc :: loc in tasks ==> StageFits(cfg, tasks[loc].msg, tasks[loc].stage)
  }

  ghost predicate RouteInv(cfg: Config, w: World) {
    && LettersFit(cfg, w.log, w.dlqTopic) && LettersFit(cfg, w.log, w.dlqTable)
    && (w.process.Some? ==> TasksFit(cfg, w.process.value.tasks))
  }

  // --------------------------------------------------------------- one step

  lemma NextFits(cfg: Config, w: World, p: Process, job: Job, act: Act)
    requires ActEnabled(cfg, w, p, job, act) && StageFits(cfg, job.msg, job.stage)
    ensures StageFits(cfg, job.msg, NextStage(cfg, job, act))
  {
  }

  lemma AppendFits(cfg: Config, log: Log, entries: seq<DeadLetter>, e: DeadLetter)
    requires LettersFit(cfg, log, entries) && LetterFits(cfg, log, e)
    ensures LettersFit(cfg, log, entries + [e])
  {
  }

  lemma ActFits(cfg: Config, w: World, loc: Loc, act: Act)
    requires OffsetInv(w) && RouteInv(cfg, w) && Enabled(cfg, w, Task(loc, act))
    ensures RouteInv(cfg, Apply(cfg, w, Task(loc, act)))
  {
    var p := w.process.value;
    var job := p.tasks[loc];
    ActShape(cfg, w, loc, act);
    assert StageFits(cfg, job.msg, job.stage);
    NextFits(cfg, w, p, job, act);
    if act.PublishDlq? {
      AppendFits(cfg, w.log, w.dlqTopic, DeadLetter(loc, job.msg.eventId, job.stage.reason, job.stage.attempt));
    } else if act.InsertDlq? {
      AppendFits(cfg, w.log, w.dlqTable, DeadLetter(loc, job.msg.eventId, job.stage.reason, job.stage.attempt));
    }
  }

  lemma GrowFits(cfg: Config, log: Log, log': Log, entries: seq<DeadLetter>)
    requires LettersFit(cfg, log, entries)
    requires forall loc :: InLog(log, loc) ==> InLog(log', loc) && MessageAt(log', loc) == MessageAt(log, loc)
    ensures LettersFit(cfg, log', entries)
  {
    forall i | 0 <= i < |entries| ensures LetterFits(cfg, log', entries[i]) {
      assert LetterFits(cfg, log, entries[i]);
    }
  }

  lemma LoopFits(cfg: Config, w: World, s: Step)
    requires RouteInv(cfg, w) && Enabled(cfg, w, s) && !s.Task?
    ensures RouteInv(cfg, Apply(cfg, w, s))
  {
    var w' := Apply(cfg, w, s);
    LogGrows(cfg, w, s);
    assert w'.dlqTopic == w.dlqTopic && w'.dlqTable == w.dlqTable;
    GrowFits(cfg, w.log, w'.log, w.dlqTopic);
    GrowFits(cfg, w.log, w'.log, w.dlqTable);
    LoopTasksFit(cfg, w, s);
  }

  lemma LoopTasksFit(cfg: Config, w: World, s: Step)
    requires RouteInv(cfg, w) && Enabled(cfg, w, s) && !s.Task?
    ensures
      var w' := Apply(cfg, w, s);
      w'.process.Some? ==> TasksFit(cfg, w'.process.value.tasks)
  {
    if s.Loop? && s.move.Deliver? {
      DeliveredShape(w, w.process.value, s.move.counts);
    }
  }

  lemma {:induction false} RoutesHold(cfg: Config, steps: seq<Step>)
    requires Legal(cfg, INIT, steps)
    ensures RouteInv(cfg, After(cfg, INIT, steps))
  {
    if steps != [] {
      var prev, s := steps[..|steps| - 1], steps[|steps| - 1];
      RoutesHold(cfg, prev);
      OffsetsHold(cfg, prev);
      if s.Task? {
        ActFits(cfg, After(cfg, INIT, prev), s.loc, s.act);
      } else {
        LoopFits(cfg, After(cfg, INIT, prev), s);
      }
    }
  }

  // ---------------------------------------------------------------- theorems

  /**
   In every run each dead letter, in the topic and in the table, names a logged message and its event id:
   "malformed" after one attempt for an envelope that does not parse, "permanent" within the attempts allowed,
   "retries exhausted" after all of them.
   */
  lemma LettersAreTrue(cfg: Config, steps: seq<Step>, e: DeadLetter)
    requires Legal(cfg, INIT, steps)
    requires e in After(cfg, INIT, steps).dlqTopic || e in After(cfg, INIT, steps).dlqTable
    ensures
      var log := After(cfg, INIT, steps).log;
      && InLog(log, e.loc)
      && var msg := MessageAt(log, e.loc);
         && msg.eventId == e.eventId
         && (e.reason == MalformedEnvelope <==> cfg.envelope && !msg.wellFormed)
         && (e.reason == MalformedEnvelope ==> e.attempts == 1)
         && (e.reason == RetriesExhausted ==> e.attempts == cfg.maxAttempts)
         && (e.reason == PermanentError ==> 1 <= e.attempts <= cfg.maxAttempts)
  {
    RoutesHold(cfg, steps);
    var w := After(cfg, INIT, steps);
    assert LetterFits(cfg, w.log, e);
  }

  /** The acts of a task past the envelope: lookup, handler and record write. */
  predicate Handles(act: Act) {
    act.LookUp? || act.Handle? || act.Record?
  }

  /** No lookup, handler call or record write is ever made for an envelope that does not parse. */
  lemma MalformedNeverHandled(cfg: Config, steps: seq<Step>, loc: Loc, act: Act)
    requires Legal(cfg, INIT, steps) && Enabled(cfg, After(cfg, INIT, steps), Task(loc, act)) && Handles(act)
    ensures InLog(After(cfg, INIT, steps).log, loc)
    ensures cfg.envelope ==> MessageAt(After(cfg, INIT, steps).log, loc).wellFormed
  {
    RoutesHold(cfg, steps);
    OffsetsHold(cfg, steps);
    HandlesParsed(cfg, After(cfg, INIT, steps), loc, act);
  }

  lemma HandlesParsed(cfg: Config, w: World, loc: Loc, act: Act)
    requires RouteInv(cfg, w) && OffsetInv(w) && Enabled(cfg, w, Task(loc, act)) && Handles(act)
    ensures InLog(w.log, loc) && Parses(cfg, MessageAt(w.log, loc))
  {
    var job := w.process.value.tasks[loc];
    assert StageFits(cfg, job.msg, job.stage);
  }

  lemma {:induction false} KeptParses(cfg: Config, steps: seq<Step>, loc: Loc)
    requires Legal(cfg, INIT, steps) && loc in Kept(cfg, steps)
    ensures InLog(After(cfg, INIT, steps).log, loc) && Parses(cfg, MessageAt(After(cfg, INIT, steps).log, loc))
    decreases |steps|
  {
    var n := |steps| - 1;
    var w := After(cfg, INIT, steps[..n]);
    LogGrows(cfg, w, steps[n]);
    if loc in Kept(cfg, steps[..n]) {
      KeptParses(cfg, steps[..n], loc);
    } else {
      assert loc in KeptBy(cfg, steps[n]);
      RoutesHold(cfg, steps[..n]);
      OffsetsHold(cfg, steps[..n]);
      HandlesParsed(cfg, w, steps[n].loc, steps[n].act);
    }
  }

  /** Every committed envelope that does not parse went through the dead letter hand-off, and only there. */
  lemma MalformedIsHandedOff(cfg: Config, steps: seq<Step>, loc: Loc)
    requires cfg.envelope && Attempts(cfg) && Legal(cfg, INIT, steps)
    requires loc.offset < At(After(cfg, INIT, steps).committed, loc.tp)
    requires InLog(After(cfg, INIT, steps).log, loc) && !MessageAt(After(cfg, INIT, steps).log, loc).wellFormed
    ensures loc in Handed(steps) && loc !in Kept(cfg, steps)
  {
    LossHolds(cfg, steps);
    if loc in Kept(cfg, steps) {
      KeptParses(cfg, steps, loc);
    }
  }
}
