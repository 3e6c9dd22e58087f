/**
 What is left to see of a message: its row, or a dead letter in the topic or in the table.
 The steps of the run decide it exactly.
 */
module ConsumerVisibility {
  import opened Prelude
  import opened ConsumerModel
  import opened ConsumerSafety
  import opened ConsumerPersistence

  ghost predicate Visible(w: World, loc: Loc) {
    Holds(w.dlqTopic, loc) || Holds(w.dlqTable, loc)
  }

  /** The message left a row for its event or a dead letter. */
  ghost predicate Traced(w: World, loc: Loc) {
    RowFor(w.log, w.events, loc) || Visible(w, loc)
  }

  // ------------------------------------------------------- in terms of the steps

  /** The step writes a dead letter for the message. */
  predicate StoresLetter(s: Step, loc: Loc) {
    s == Task(loc, PublishDlq(true)) || s == Task(loc, InsertDlq(true))
  }

  ghost predicate LetterStored(steps: seq<Step>, loc: Loc) {
    exists i :: 0 <= i < |steps| && StoresLetter(steps[i], loc)
  }

  /** The step is a handler call for the event id whose insert took effect. */
  predicate InsertsRow(log: Log, s: Step, id: EventId) {
    && s.Task? && s.act.Handle? && s.act.applied
    && InLog(log, s.loc) && MessageAt(log, s.loc).eventId == id
  }

  ghost predicate RowInserted(log: Log, steps: seq<Step>, id: EventId) {
    exists i :: 0 <= i < |steps| && InsertsRow(log, steps[i], id)
  }

  // --------------------------------------------------------------- one step

  lemma AppendHolds(entries: seq<DeadLetter>, e: DeadLetter, loc: Loc)
    ensures Holds(entries + [e], loc) <==> Holds(entries, loc) || e.loc == loc
  {
    var more := entries + [e];
    assert more[|entries|] == e;
    if Holds(entries, loc) {
      var i :| 0 <= i < |entries| && entries[i].loc == loc;
      assert more[i].loc == loc;
    }
  }

  lemma ActLetters(cfg: Config, w: World, at: Loc, act: Act, loc: Loc)
    requires Enabled(cfg, w, Task(at, act))
    ensures Visible(Apply(cfg, w, Task(at, act)), loc) <==> Visible(w, loc) || StoresLetter(Task(at, act), loc)
  {
    var job := w.process.value.tasks[at];
    if act.PublishDlq? {
      AppendHolds(w.dlqTopic, DeadLetter(at, job.msg.eventId, job.stage.reason, job.stage.attempt), loc);
    } else if act.InsertDlq? {
      AppendHolds(w.dlqTable, DeadLetter(at, job.msg.eventId, job.stage.reason, job.stage.attempt), loc);
    }
  }

  lemma InsertedRow(events: seq<Row>, row: Row, id: EventId)
    ensures HasRow(InsertEvent(events, row), id) <==> HasRow(events, id) || row.eventId == id
  {
    var more := events + [row];
    assert more[|events|] == row;
    if HasRow(events, id) {
      var i :| 0 <= i < |events| && events[i].eventId == id;
      assert more[i].eventId == id;
    }
  }

  lemma ActRows(cfg: Config, w: World, at: Loc, act: Act, id: EventId)
    requires cfg.envelope && OffsetInv(w) && Enabled(cfg, w, Task(at, act))
    ensures InLog(w.log, at)
    ensures HasRow(Apply(cfg, w, Task(at, act)).events, id) <==>
            HasRow(w.events, id) || InsertsRow(w.log, Task(at, act), id)
  {
    var msg := w.process.value.tasks[at].msg;
    InsertedRow(w.events, Row(msg.eventId, msg.body, at), id);
  }

  /** Outside the tasks no row and no dead letter is written. */
  lemma LoopTraces(cfg: Config, w: World, s: Step)
    requires Enabled(cfg, w, s) && !s.Task?
    ensures
      var w' := Apply(cfg, w, s);
      w'.events == w.events && w'.dlqTopic == w.dlqTopic && w'.dlqTable == w.dlqTable
  {
  }

  // ---------------------------------------------------------------- whole runs

  /** A dead letter is there exactly when a step of the run wrote one. */
  lemma {:induction false} VisibleIffStored(cfg: Config, steps: seq<Step>, loc: Loc)
    requires Legal(cfg, INIT, steps)
    ensures Visible(After(cfg, INIT, steps), loc) <==> LetterStored(steps, loc)
  {
    if steps != [] {
      var n := |steps| - 1;
      var w := After(cfg, INIT, steps[..n]);
      VisibleIffStored(cfg, steps[..n], loc);
      LetterSnoc(steps, loc);
      if steps[n].Task? {
        ActLetters(cfg, w, steps[n].loc, steps[n].act, loc);
      } else {
        LoopTraces(cfg, w, steps[n]);
      }
    }
  }

  lemma LetterSnoc(steps: seq<Step>, loc: Loc)
    requires steps != []
    ensures LetterStored(steps, loc) <==>
            LetterStored(steps[..|steps| - 1], loc) || StoresLetter(steps[|steps| - 1], loc)
  {
    var n := |steps| - 1;
    assert forall i :: 0 <= i < n ==> steps[..n][i] == steps[i];
  }

  /** A task's message is in the log, then and ever after. */
  lemma {:induction false} ActsInLog(cfg: Config, steps: seq<Step>, i: nat)
    requires Legal(cfg, INIT, steps) && i < |steps| && steps[i].Task?
    ensures InLog(After(cfg, INIT, steps).log, steps[i].loc)
    decreases |steps|
  {
    var n := |steps| - 1;
    var w := After(cfg, INIT, steps[..n]);
    LogGrows(cfg, w, steps[n]);
    if i == n {
      OffsetsHold(cfg, steps[..n]);
      assert InLog(w.log, steps[n].loc);
    } else {
      assert steps[..n][i] == steps[i];
      ActsInLog(cfg, steps[..n], i);
    }
  }

  /** A row is there exactly when a step of the run inserted it. */
  lemma {:induction false} RowIffInserted(cfg: Config, steps: seq<Step>, id: EventId)
    requires cfg.envelope && Legal(cfg, INIT, steps)
    ensures HasRow(After(cfg, INIT, steps).events, id) <==> RowInserted(After(cfg, INIT, steps).log, steps, id)
  {
    if steps != [] {
      var n := |steps| - 1;
      var w, w' := After(cfg, INIT, steps[..n]), After(cfg, INIT, steps);
      RowIffInserted(cfg, steps[..n], id);
      OffsetsHold(cfg, steps[..n]);
      InsertedSnoc(cfg, steps, id);
      if steps[n].Task? {
        ActRows(cfg, w, steps[n].loc, steps[n].act, id);
        ActShape(cfg, w, steps[n].loc, steps[n].act);
      } else {
        LoopTraces(cfg, w, steps[n]);
      }
    }
  }

  lemma InsertedSnoc(cfg: Config, steps: seq<Step>, id: EventId)
    requires Legal(cfg, INIT, steps) && steps != []
    ensures RowInserted(After(cfg, INIT, steps).log, steps, id) <==>
            RowInserted(After(cfg, INIT, steps[..|steps| - 1]).log, steps[..|steps| - 1], id)
            || InsertsRow(After(cfg, INIT, steps).log, steps[|steps| - 1], id)
  {
    var n := |steps| - 1;
    var log, log' := After(cfg, INIT, steps[..n]).log, After(cfg, INIT, steps).log;
    LogGrows(cfg, After(cfg, INIT, steps[..n]), steps[n]);
    forall i | 0 <= i < n ensures InsertsRow(log', steps[i], id) <==> InsertsRow(log, steps[..n][i], id) {
      assert steps[..n][i] == steps[i];
      if steps[i].Task? {
        ActsInLog(cfg, steps[..n], i);
      }
    }
    InsertedSplit(log, log', steps, id);
  }

  lemma InsertedSplit(log: Log, log': Log, steps: seq<Step>, id: EventId)
    requires steps != []
    requires forall i :: 0 <= i < |steps| - 1 ==>
               (InsertsRow(log', steps[i], id) <==> InsertsRow(log, steps[..|steps| - 1][i], id))
    ensures RowInserted(log', steps, id) <==>
            RowInserted(log, steps[..|steps| - 1], id) || InsertsRow(log', steps[|steps| - 1], id)
  {
    var n := |steps| - 1;
    var prev := steps[..n];
    if RowInserted(log', steps, id) {
      var i :| 0 <= i < |steps| && InsertsRow(log', steps[i], id);
      assert i < n ==> InsertsRow(log, prev[i], id);
    }
    if RowInserted(log, prev, id) {
      var i :| 0 <= i < n && InsertsRow(log, prev[i], id);
      assert InsertsRow(log', steps[i], id);
    }
  }

  /**
   The exact account: a message is traced if and only if some handler call for its event id took
   effect or one of its own dead letter writes did.
   */
  lemma TracedIff(cfg: Config, steps: seq<Step>, loc: Loc)
    requires cfg.envelope && Legal(cfg, INIT, steps) && InLog(After(cfg, INIT, steps).log, loc)
    ensures
      var w := After(cfg, INIT, steps);
      Traced(w, loc) <==> RowInserted(w.log, steps, MessageAt(w.log, loc).eventId) || LetterStored(steps, loc)
  {
    var w := After(cfg, INIT, steps);
    RowIffInserted(cfg, steps, MessageAt(w.log, loc).eventId);
    VisibleIffStored(cfg, steps, loc);
  }

  /** Every committed message is traced. */
  ghost predicate NoSilentLoss(w: World) {
    forall loc: Loc :: loc.offset < At(w.committed, loc.tp) ==> Traced(w, loc)
  }

  /** Every hand-off has left a dead letter, or the handler's insert had taken effect before it raised. */
  ghost predicate HandOffsTraced(steps: seq<Step>, w: World) {
    forall loc: Loc :: loc in Handed(steps) && loc.offset < At(w.committed, loc.tp) ==>
      LetterStored(steps, loc) || (InLog(w.log, loc) && RowInserted(w.log, steps, MessageAt(w.log, loc).eventId))
  }

  /**
   No committed message is lost silently if and only if each committed message that was handed off
   left a dead letter or a row, in this delivery or in another.
   */
  lemma EveryFailureVisible(cfg: Config, steps: seq<Step>)
    requires cfg.envelope && Attempts(cfg) && Legal(cfg, INIT, steps)
    ensures NoSilentLoss(After(cfg, INIT, steps)) <==> HandOffsTraced(steps, After(cfg, INIT, steps))
  {
    var w := After(cfg, INIT, steps);
    PersistenceSafety(cfg, steps);
    OffsetsHold(cfg, steps);
    forall loc: Loc | loc.offset < At(w.committed, loc.tp)
      ensures InLog(w.log, loc)
      ensures Traced(w, loc) <==> RowInserted(w.log, steps, MessageAt(w.log, loc).eventId) || LetterStored(steps, loc)
    {
      TracedIff(cfg, steps, loc);
    }
  }

  // ------------------------------------------------ a condition on each hand-off

  /** The step ends a hand-off neither of whose two writes succeeded. */
  predicate DropsHandOff(w: World, s: Step) {
    && s.Task? && s.act.InsertDlq? && !s.act.stored
    && w.process.Some? && s.loc in w.process.value.tasks
    && w.process.value.tasks[s.loc].stage.Inserting?
    && !w.process.value.tasks[s.loc].stage.published
  }

  predicate HandOffsStored(cfg: Config, steps: seq<Step>)
    requires Legal(cfg, INIT, steps)
  {
    steps == [] ||
    (HandOffsStored(cfg, steps[..|steps| - 1]) &&
     !DropsHandOff(After(cfg, INIT, steps[..|steps| - 1]), steps[|steps| - 1]))
  }

  ghost predicate LetterInv(handed: set<Loc>, w: World) {
    && (forall loc :: loc in handed ==> Visible(w, loc))
    && (w.process.Some? ==> forall loc :: loc in w.process.value.tasks ==>
          (w.process.value.tasks[loc].stage.Inserting? && w.process.value.tasks[loc].stage.published ==>
             Holds(w.dlqTopic, loc)))
  }

  lemma AppendedHolds(entries: seq<DeadLetter>, e: DeadLetter)
    ensures Holds(entries + [e], e.loc)
    ensures forall loc :: Holds(entries, loc) ==> Holds(entries + [e], loc)
  {
    forall loc ensures Holds(entries + [e], loc) <==> Holds(entries, loc) || e.loc == loc {
      AppendHolds(entries, e, loc);
    }
  }

  lemma HandOffLetters(cfg: Config, handed: set<Loc>, w: World, loc: Loc, act: Act)
    requires LetterInv(handed, w) && Enabled(cfg, w, Task(loc, act)) && !DropsHandOff(w, Task(loc, act))
    ensures LetterInv(handed + HandedBy(Task(loc, act)), Apply(cfg, w, Task(loc, act)))
  {
    ActShape(cfg, w, loc, act);
    var job := w.process.value.tasks[loc];
    if act.PublishDlq? {
      AppendedHolds(w.dlqTopic, DeadLetter(loc, job.msg.eventId, job.stage.reason, job.stage.attempt));
    } else if act.InsertDlq? {
      AppendedHolds(w.dlqTable, DeadLetter(loc, job.msg.eventId, job.stage.reason, job.stage.attempt));
    } else {
      assert !NextStage(cfg, job, act).Inserting?;
    }
  }

  lemma LoopHandOffs(cfg: Config, handed: set<Loc>, w: World, s: Step)
    requires LetterInv(handed, w) && Enabled(cfg, w, s) && !s.Task?
    ensures LetterInv(handed, Apply(cfg, w, s))
  {
    match s
    case Loop(Deliver(counts)) => DeliveredShape(w, w.process.value, counts);
    case _ =>
  }

  lemma {:induction false} LettersHold(cfg: Config, steps: seq<Step>)
    requires Legal(cfg, INIT, steps) && HandOffsStored(cfg, steps)
    ensures LetterInv(Handed(steps), After(cfg, INIT, steps))
  {
    if steps != [] {
      var prev, s := steps[..|steps| - 1], steps[|steps| - 1];
      LettersHold(cfg, prev);
      if s.Task? {
        HandOffLetters(cfg, Handed(prev), After(cfg, INIT, prev), s.loc, s.act);
      } else {
        LoopHandOffs(cfg, Handed(prev), After(cfg, INIT, prev), s);
        assert Handed(steps) == Handed(prev);
      }
    }
  }

  /** In particular nothing is lost silently when no hand-off loses both its writes. */
  lemma StoredHandOffsSuffice(cfg: Config, steps: seq<Step>)
    requires cfg.envelope && Attempts(cfg) && Legal(cfg, INIT, steps) && HandOffsStored(cfg, steps)
    ensures NoSilentLoss(After(cfg, INIT, steps))
  {
    var w := After(cfg, INIT, steps);
    LettersHold(cfg, steps);
    forall loc: Loc | loc in Handed(steps) ensures LetterStored(steps, loc) {
      VisibleIffStored(cfg, steps, loc);
    }
    EveryFailureVisible(cfg, steps);
  }

  // ------------------------------------------- which configurations promise it

  /** The steps of a rejected message whose two dead letter writes both fail. */
  function DroppedSteps(msg: Message): seq<Step> {
    [Produce(TP0, msg), Start, Loop(BeginPoll), Loop(Deliver(map[TP0 := 1])),
     Task(L0, Acquire), Task(L0, LookUp(Missing)), Task(L0, Handle(false, Permanent)),
     Task(L0, PublishDlq(false)), Task(L0, InsertDlq(false))]
  }

  lemma DroppedHandOff(cfg: Config, msg: Message)
    requires cfg.envelope && cfg.maxAttempts >= 1 && cfg.concurrency >= 1 && msg.wellFormed
    ensures Legal(cfg, INIT, DroppedSteps(msg))
    ensures After(cfg, INIT, DroppedSteps(msg)) ==
              World(map[TP0 := [msg]], map[], map[], [], [], [], Some(Holder(msg, Done(DeadLettered))))
  {
    var steps := Rejected(cfg, msg);
    steps := Do(cfg, steps, msg, Publishing(PermanentError, 1), PublishDlq(false));
    steps := Do(cfg, steps, msg, Inserting(PermanentError, 1, false), InsertDlq(false));
    assert steps == DroppedSteps(msg);
  }

  /** Up to the handler's permanent error. */
  lemma Rejected(cfg: Config, msg: Message) returns (steps: seq<Step>)
    requires cfg.envelope && cfg.maxAttempts >= 1 && cfg.concurrency >= 1 && msg.wellFormed
    ensures steps == DroppedSteps(msg)[..7] && Legal(cfg, INIT, steps)
    ensures After(cfg, INIT, steps) == World(map[TP0 := [msg]], map[], map[], [], [], [],
                                             Some(Holder(msg, Publishing(PermanentError, 1))))
  {
    steps := FirstFetch(cfg, msg);
    steps := ReachHandler(cfg, steps, msg);
    steps := Do(cfg, steps, msg, Handling(1), Handle(false, Permanent));
  }

  /** The step inserts a row or writes a dead letter. */
  predicate Stores(s: Step) {
    s.Task? && match s.act
               case Handle(applied, _) => applied
               case PublishDlq(stored) => stored
               case InsertDlq(stored) => stored
               case Acquire => false
               case LookUp(_) => false
               case Record(_, _) => false
               case Wake => false
               case RecordFailure(_) => false
  }

  ghost predicate StoresNothing(steps: seq<Step>) {
    forall i :: 0 <= i < |steps| ==> !Stores(steps[i])
  }

  lemma DroppedStoresNothing(msg: Message, steps: seq<Step>)
    requires steps == DroppedSteps(msg) + [Loop(Gathered), Loop(CommitBatch(true))]
    ensures StoresNothing(steps)
  {
  }

  lemma UntriedStoresNothing(msg: Message, steps: seq<Step>)
    requires steps == [Produce(TP0, msg), Start, Loop(BeginPoll), Loop(Deliver(map[TP0 := 1])),
                       Task(L0, Acquire), Loop(Gathered), Loop(CommitBatch(true))]
    ensures StoresNothing(steps)
  {
  }

  /** A run none of whose steps stores anything leaves its committed messages without a trace. */
  lemma NothingStored(cfg: Config, steps: seq<Step>, loc: Loc)
    requires cfg.envelope && Legal(cfg, INIT, steps)
    requires loc.offset < At(After(cfg, INIT, steps).committed, loc.tp)
    requires StoresNothing(steps)
    ensures !Traced(After(cfg, INIT, steps), loc) && !NoSilentLoss(After(cfg, INIT, steps))
  {
    OffsetsHold(cfg, steps);
    TracedIff(cfg, steps, loc);
    assert forall i :: 0 <= i < |steps| && StoresLetter(steps[i], loc) ==> Stores(steps[i]);
  }

  /**
   Both dead letter writes may fail, and with no attempt allowed nothing is even tried: either way the
   offset is committed with neither a row nor a dead letter, for any message of any such configuration.
   */
  lemma SilentLoss(cfg: Config, msg: Message) returns (steps: seq<Step>)
    requires cfg.envelope && cfg.concurrency >= 1 && msg.wellFormed
    ensures Legal(cfg, INIT, steps)
    ensures At(After(cfg, INIT, steps).committed, TP0) == 1
    ensures !Traced(After(cfg, INIT, steps), L0) && !NoSilentLoss(After(cfg, INIT, steps))
  {
    if cfg.maxAttempts >= 1 {
      DroppedHandOff(cfg, msg);
      steps := Finish(cfg, DroppedSteps(msg), msg, DeadLettered);
      DroppedStoresNothing(msg, steps);
    } else {
      steps := UntriedRun(cfg, msg);
      UntriedStoresNothing(msg, steps);
    }
    NothingStored(cfg, steps, L0);
  }

  ghost predicate AllQueued(w: World) {
    w.process.Some? ==> forall loc :: loc in w.process.value.tasks ==> w.process.value.tasks[loc].stage.Queued?
  }

  lemma StaysQueued(cfg: Config, w: World, s: Step)
    requires cfg.concurrency < 1 && AllQueued(w) && Enabled(cfg, w, s)
    ensures !s.Task? && AllQueued(Apply(cfg, w, s))
  {
    match s
    case Loop(Deliver(counts)) => DeliveredShape(w, w.process.value, counts);
    case _ =>
  }

  /** A semaphore of size zero lets no task start. */
  lemma {:induction false} NothingStarts(cfg: Config, steps: seq<Step>)
    requires cfg.concurrency < 1 && Legal(cfg, INIT, steps)
    ensures AllQueued(After(cfg, INIT, steps)) && Kept(cfg, steps) == {} && Handed(steps) == {}
  {
    if steps != [] {
      NothingStarts(cfg, steps[..|steps| - 1]);
      StaysQueued(cfg, After(cfg, INIT, steps[..|steps| - 1]), steps[|steps| - 1]);
    }
  }

  /** No configuration that lets tasks run promises it: silent loss is excluded only where nothing is processed. */
  lemma SilentLossIff(cfg: Config)
    requires cfg.envelope
    ensures (forall steps :: Legal(cfg, INIT, steps) ==> NoSilentLoss(After(cfg, INIT, steps)))
            <==> cfg.concurrency < 1
  {
    if cfg.concurrency < 1 {
      forall steps | Legal(cfg, INIT, steps) ensures NoSilentLoss(After(cfg, INIT, steps)) {
        NothingStarts(cfg, steps);
        LossHolds(cfg, steps);
      }
    } else {
      var steps := SilentLoss(cfg, Message("e1", true, "body"));
      assert Legal(cfg, INIT, steps) && !NoSilentLoss(After(cfg, INIT, steps));
    }
  }
}
