/**
 No loss: offsets are committed only past messages that were kept or handed to
 the dead letter queue, in every run, with a crash allowed at every step.
 */
module ConsumerSafety {
  import opened Prelude
  import opened ConsumerModel

  /** The configurations for which a task cannot end without an attempt. */
  predicate Attempts(cfg: Config) {
    cfg.maxAttempts >= 1 || cfg.concurrency < 1
  }

  /** What the offsets, the log and the tasks of a process have to do with each other. */
  ghost predicate ProcessInv(log: Log, committed: Offsets, p: Process) {
    && (forall tp :: At(committed, tp) <= At(p.position, tp) <= |LogOf(log, tp)|)
    && (forall tp :: tp in p.batchEnd ==> p.batchEnd[tp] == At(p.position, tp))
    && (forall loc :: loc in p.tasks ==> InLog(log, loc) && MessageAt(log, loc) == p.tasks[loc].msg)
    && (!p.phase.Gathering? ==> AllDone(p))
  }

  ghost predicate OffsetInv(w: World) {
    && (forall tp :: At(w.committed, tp) <= |LogOf(w.log, tp)|)
    && (w.process.Some? ==> ProcessInv(w.log, w.committed, w.process.value))
  }

  /** Every fetched message is settled or still a live task of the batch. */
  ghost predicate Covered(cfg: Config, settled: set<Loc>, p: Process) {
    && (forall loc: Loc :: loc.offset < At(p.position, loc.tp) ==> loc in settled || loc in p.tasks)
    && (forall loc :: loc in p.tasks ==> JobCovered(cfg, settled, loc, p.tasks[loc].stage))
  }

  ghost predicate JobCovered(cfg: Config, settled: set<Loc>, loc: Loc, stage: Stage) {
    && (stage.Done? || stage.RecordingFailure? ==> loc in settled)
    && (stage.Sleeping? ==> stage.attempt < cfg.maxAttempts)
  }

  ghost predicate CommittedSettled(settled: set<Loc>, committed: Offsets) {
    forall loc: Loc :: loc.offset < At(committed, loc.tp) ==> loc in settled
  }

  ghost predicate LossInv(cfg: Config, settled: set<Loc>, w: World) {
    && OffsetInv(w)
    && CommittedSettled(settled, w.committed)
    && (w.process.Some? ==> Covered(cfg, settled, w.process.value))
  }

  // ------------------------------------------------------ offsets and tasks

  /** A task step replaces one stage and leaves logs, offsets and positions alone. */
  lemma ActShape(cfg: Config, w: World, loc: Loc, act: Act)
    requires Enabled(cfg, w, Task(loc, act))
    ensures
      var w' := Apply(cfg, w, Task(loc, act));
      && w'.process.Some?
      && w'.log == w.log && w'.committed == w.committed
      && var p, p' := w.process.value, w'.process.value;
      && p' == p.(tasks := p'.tasks)
      && p'.tasks == p.tasks[loc := Job(p.tasks[loc].msg, NextStage(cfg, p.tasks[loc], act))]
      && !p.tasks[loc].stage.Done?
  {
  }

  lemma DeliveredShape(w: World, p: Process, counts: Offsets)
    requires CanDeliver(w.log, p.position, counts)
    ensures
      var p' := Delivered(w.log, p, counts);
      && (forall tp :: At(p'.position, tp) == At(p.position, tp) + At(counts, tp))
      && (counts != map[] ==> p'.phase.Gathering?)
      && (counts != map[] ==> forall loc :: loc in p'.tasks <==>
            At(p.position, loc.tp) <= loc.offset < At(p'.position, loc.tp))
      && (counts != map[] ==> forall loc :: loc in p'.tasks ==>
            InLog(w.log, loc) && p'.tasks[loc] == Job(MessageAt(w.log, loc), Queued))
      && (counts == map[] ==> p' == p.(phase := Idle))
  {
    var p' := Delivered(w.log, p, counts);
    forall tp ensures At(p'.position, tp) == At(p.position, tp) + At(counts, tp) {}
  }

  lemma DeliverOffsets(w: World, p: Process, counts: Offsets)
    requires w.process == Some(p) && OffsetInv(w) && CanDeliver(w.log, p.position, counts) && p.phase.Polling?
    ensures ProcessInv(w.log, w.committed, Delivered(w.log, p, counts))
  {
    DeliveredShape(w, p, counts);
  }

  /** Committing offsets that do not pass the positions keeps the order of the two. */
  lemma CommitOffsets(w: World, p: Process, offsets: Offsets, applied: bool)
    requires ProcessInv(w.log, w.committed, p)
    requires forall tp :: tp in offsets ==> offsets[tp] == At(p.position, tp)
    ensures
      var c := Commit(w, offsets, applied).committed;
      && ProcessInv(w.log, c, p)
      && (forall tp :: At(w.committed, tp) <= At(c, tp) <= |LogOf(w.log, tp)|)
  {
    var c := Commit(w, offsets, applied).committed;
    forall tp
      ensures At(w.committed, tp) <= At(c, tp) <= At(p.position, tp) <= |LogOf(w.log, tp)|
    {
      assert At(w.committed, tp) <= At(p.position, tp) <= |LogOf(w.log, tp)|;
    }
  }

  lemma MoveOffsets(w: World, move: Move)
    requires OffsetInv(w) && w.process.Some? && MoveEnabled(w, w.process.value, move)
    ensures OffsetInv(MoveApply(w, w.process.value, move))
    ensures forall tp :: At(w.committed, tp) <= At(MoveApply(w, w.process.value, move).committed, tp)
  {
    var p := w.process.value;
    match move
    case Deliver(counts) => DeliverOffsets(w, p, counts);
    case CommitBatch(applied) => CommitOffsets(w, p, p.batchEnd, applied);
    case StopCommit(applied) => CommitOffsets(w, p, p.position, applied);
    case Crash =>
    case _ => SwitchKeepsOffsets(w.log, w.committed, p, MoveApply(w, p, move).process.value);
  }

  /** Moves that only switch the phase or the stop flag keep the offsets in order. */
  lemma SwitchKeepsOffsets(log: Log, committed: Offsets, p: Process, p': Process)
    requires ProcessInv(log, committed, p)
    requires p'.position == p.position && p'.batchEnd == p.batchEnd && p'.tasks == p.tasks
    requires p'.phase.Gathering? || AllDone(p)
    ensures ProcessInv(log, committed, p')
  {
  }

  lemma OffsetStep(cfg: Config, w: World, s: Step)
    requires OffsetInv(w) && Enabled(cfg, w, s)
    ensures OffsetInv(Apply(cfg, w, s))
    ensures forall tp :: At(w.committed, tp) <= At(Apply(cfg, w, s).committed, tp)
  {
    var w' := Apply(cfg, w, s);
    match s
    case Task(loc, act) => ActShape(cfg, w, loc, act);
    case Produce(tp, msg) =>
      forall loc | InLog(w.log, loc) ensures InLog(w'.log, loc) && MessageAt(w'.log, loc) == MessageAt(w.log, loc) {}
    case Loop(move) => MoveOffsets(w, move);
    case Start =>
  }

  // ------------------------------------------------------------------ no loss

  lemma ActLoss(cfg: Config, settled: set<Loc>, w: World, loc: Loc, act: Act)
    requires Attempts(cfg) && LossInv(cfg, settled, w) && Enabled(cfg, w, Task(loc, act))
    ensures LossInv(cfg, settled + KeptBy(cfg, Task(loc, act)) + HandedBy(Task(loc, act)),
                    Apply(cfg, w, Task(loc, act)))
  {
    OffsetStep(cfg, w, Task(loc, act));
    ActShape(cfg, w, loc, act);
    JobLoss(cfg, settled, w, w.process.value, loc, act);
  }

  /** A task ends, or starts to record its failure, only in a step that settles its message. */
  lemma JobLoss(cfg: Config, settled: set<Loc>, w: World, p: Process, loc: Loc, act: Act)
    requires Attempts(cfg) && loc in p.tasks && ActEnabled(cfg, w, p, p.tasks[loc], act)
    requires JobCovered(cfg, settled, loc, p.tasks[loc].stage)
    ensures JobCovered(cfg, settled + KeptBy(cfg, Task(loc, act)) + HandedBy(Task(loc, act)), loc,
                       NextStage(cfg, p.tasks[loc], act))
  {
  }

  lemma LoopLoss(cfg: Config, settled: set<Loc>, w: World, s: Step)
    requires LossInv(cfg, settled, w) && !s.Task? && Enabled(cfg, w, s)
    ensures LossInv(cfg, settled, Apply(cfg, w, s))
  {
    OffsetStep(cfg, w, s);
    match s
    case Loop(move) => MoveLoss(cfg, settled, w, w.process.value, move);
    case _ =>
  }

  lemma MoveLoss(cfg: Config, settled: set<Loc>, w: World, p: Process, move: Move)
    requires w.process == Some(p) && LossInv(cfg, settled, w) && MoveEnabled(w, p, move)
    ensures
      var w' := MoveApply(w, p, move);
      && CommittedSettled(settled, w'.committed)
      && (w'.process.Some? ==> Covered(cfg, settled, w'.process.value))
  {
    match move
    case Deliver(counts) => DeliverLoss(cfg, settled, w, p, counts);
    case CommitBatch(applied) => CommitLoss(cfg, settled, w, p, p.batchEnd, applied);
    case StopCommit(applied) => CommitLoss(cfg, settled, w, p, p.position, applied);
    case _ =>
  }

  lemma DeliverLoss(cfg: Config, settled: set<Loc>, w: World, p: Process, counts: Offsets)
    requires Covered(cfg, settled, p) && AllDone(p) && CanDeliver(w.log, p.position, counts)
    ensures Covered(cfg, settled, Delivered(w.log, p, counts))
  {
    DeliveredShape(w, p, counts);
    PositionsSettled(cfg, settled, p);
  }

  lemma CommitLoss(cfg: Config, settled: set<Loc>, w: World, p: Process, offsets: Offsets, applied: bool)
    requires Covered(cfg, settled, p) && AllDone(p) && CommittedSettled(settled, w.committed)
    requires forall tp :: tp in offsets ==> offsets[tp] == At(p.position, tp)
    ensures CommittedSettled(settled, Commit(w, offsets, applied).committed)
  {
    PositionsSettled(cfg, settled, p);
  }

  /** With every task done, everything below the positions is settled. */
  lemma PositionsSettled(cfg: Config, settled: set<Loc>, p: Process)
    requires Covered(cfg, settled, p) && AllDone(p)
    ensures CommittedSettled(settled, p.position)
  {
  }

  lemma LossStep(cfg: Config, settled: set<Loc>, w: World, s: Step)
    requires Attempts(cfg) && LossInv(cfg, settled, w) && Enabled(cfg, w, s)
    ensures LossInv(cfg, settled + KeptBy(cfg, s) + HandedBy(s), Apply(cfg, w, s))
  {
    if s.Task? {
      ActLoss(cfg, settled, w, s.loc, s.act);
    } else {
      LoopLoss(cfg, settled, w, s);
      assert settled + KeptBy(cfg, s) + HandedBy(s) == settled;
    }
  }

  lemma {:induction false} LossHolds(cfg: Config, steps: seq<Step>)
    requires Attempts(cfg) && Legal(cfg, INIT, steps)
    ensures LossInv(cfg, Kept(cfg, steps) + Handed(steps), After(cfg, INIT, steps))
  {
    if steps != [] {
      var prev, s := steps[..|steps| - 1], steps[|steps| - 1];
      var settled := Kept(cfg, prev) + Handed(prev);
      LossHolds(cfg, prev);
      LossStep(cfg, settled, After(cfg, INIT, prev), s);
      assert settled + KeptBy(cfg, s) + HandedBy(s) == Kept(cfg, steps) + Handed(steps);
    }
  }

  /** The exact condition: no run loses a message, iff a task gets at least one attempt or none can start. */
  lemma NoLossIff(cfg: Config)
    ensures (forall steps :: Legal(cfg, INIT, steps) ==> NothingLost(cfg, steps, After(cfg, INIT, steps)))
            <==> (cfg.maxAttempts >= 1 || cfg.concurrency < 1)
  {
    if Attempts(cfg) {
      forall steps | Legal(cfg, INIT, steps) ensures NothingLost(cfg, steps, After(cfg, INIT, steps)) {
        LossHolds(cfg, steps);
      }
    } else {
      var steps := LosingRun(cfg);
      assert !NothingLost(cfg, steps, After(cfg, INIT, steps));
    }
  }

  const TP0: TopicPartition := TopicPartition("events.validated", 0)
  const L0: Loc := Loc(TP0, 0)

  /** A process that fetched one message and has its task in the given stage. */
  function Holder(msg: Message, stage: Stage): Process {
    Process(map[TP0 := 1], Gathering, false, map[L0 := Job(msg, stage)], map[TP0 := 1])
  }

  lemma FetchWorld(cfg: Config, w: World, msg: Message)
    requires w.process.None? && w.log == map[TP0 := [msg]] && w.committed == map[]
    ensures Enabled(cfg, w, Start)
    ensures Apply(cfg, w, Start) == w.(process := Some(Process(map[], Idle, false, map[], map[])))
    ensures
      var p := Process(map[], Polling, false, map[], map[]);
      CanDeliver(w.log, p.position, map[TP0 := 1]) && Delivered(w.log, p, map[TP0 := 1]) == Holder(msg, Queued)
  {
    var p := Process(map[], Polling, false, map[], map[]);
    assert Advanced(map[], map[TP0 := 1]) == map[TP0 := 1];
    assert Fetched(w.log, map[], map[TP0 := 1]) == map[L0 := Job(msg, Queued)];
    assert Delivered(w.log, p, map[TP0 := 1]).batchEnd == map[TP0 := 1];
  }

  /** A stopped consumer with one uncommitted message can start and fetch it. */
  lemma Fetch(cfg: Config, steps: seq<Step>, msg: Message) returns (more: seq<Step>)
    requires Legal(cfg, INIT, steps)
    requires
      var w := After(cfg, INIT, steps);
      w.process.None? && w.log == map[TP0 := [msg]] && w.committed == map[]
    ensures more == steps + [Start, Loop(BeginPoll), Loop(Deliver(map[TP0 := 1]))]
    ensures Legal(cfg, INIT, more)
    ensures After(cfg, INIT, more) == After(cfg, INIT, steps).(process := Some(Holder(msg, Queued)))
  {
    FetchWorld(cfg, After(cfg, INIT, steps), msg);
    more := Then(cfg, steps, Start);
    more := Then(cfg, more, Loop(BeginPoll));
    more := Then(cfg, more, Loop(Deliver(map[TP0 := 1])));
  }

  lemma DoWorld(cfg: Config, w: World, msg: Message, stage: Stage, act: Act)
    requires w.process == Some(Holder(msg, stage))
    requires ActEnabled(cfg, w, Holder(msg, stage), Job(msg, stage), act)
    ensures Enabled(cfg, w, Task(L0, act))
    ensures Apply(cfg, w, Task(L0, act)) ==
              StoreEffect(cfg, w, L0, Job(msg, stage), act)
                .(process := Some(Holder(msg, NextStage(cfg, Job(msg, stage), act))))
  {
    var job' := Job(msg, NextStage(cfg, Job(msg, stage), act));
    assert map[L0 := Job(msg, stage)][L0 := job'] == map[L0 := job'];
  }

  /** One act of the only task. */
  lemma Do(cfg: Config, steps: seq<Step>, msg: Message, stage: Stage, act: Act) returns (more: seq<Step>)
    requires Legal(cfg, INIT, steps)
    requires After(cfg, INIT, steps).process == Some(Holder(msg, stage))
    requires ActEnabled(cfg, After(cfg, INIT, steps), Holder(msg, stage), Job(msg, stage), act)
    ensures more == steps + [Task(L0, act)]
    ensures Legal(cfg, INIT, more)
    ensures After(cfg, INIT, more) ==
              StoreEffect(cfg, After(cfg, INIT, steps), L0, Job(msg, stage), act)
                .(process := Some(Holder(msg, NextStage(cfg, Job(msg, stage), act))))
  {
    DoWorld(cfg, After(cfg, INIT, steps), msg, stage, act);
    more := Then(cfg, steps, Task(L0, act));
  }

  /** A run that has just fetched its only message. */
  lemma FirstFetch(cfg: Config, msg: Message) returns (steps: seq<Step>)
    ensures steps == [Produce(TP0, msg), Start, Loop(BeginPoll), Loop(Deliver(map[TP0 := 1]))]
    ensures Legal(cfg, INIT, steps)
    ensures After(cfg, INIT, steps) ==
              World(map[TP0 := [msg]], map[], map[], [], [], [], Some(Holder(msg, Queued)))
  {
    steps := Then(cfg, [], Produce(TP0, msg));
    assert LogOf(INIT.log, TP0) + [msg] == [msg];
    steps := Fetch(cfg, steps, msg);
    assert Running(Holder(msg, Queued).tasks) == {};
  }

  /** With its only task done, the batch is gathered and committed. */
  lemma Finish(cfg: Config, steps: seq<Step>, msg: Message, fate: Fate) returns (more: seq<Step>)
    requires Legal(cfg, INIT, steps)
    requires After(cfg, INIT, steps).process == Some(Holder(msg, Done(fate)))
    ensures more == steps + [Loop(Gathered), Loop(CommitBatch(true))]
    ensures Legal(cfg, INIT, more)
    ensures
      var w, w' := After(cfg, INIT, steps), After(cfg, INIT, more);
      && At(w'.committed, TP0) == 1 && w'.events == w.events && w'.records == w.records
      && w'.dlqTopic == w.dlqTopic && w'.dlqTable == w.dlqTable
  {
    assert TP0 in Holder(msg, Done(fate)).batchEnd;
    more := Then(cfg, steps, Loop(Gathered));
    more := Then(cfg, more, Loop(CommitBatch(true)));
  }

  /** The task of a well-formed message passes the semaphore and finds no record. */
  lemma ReachHandler(cfg: Config, steps: seq<Step>, msg: Message) returns (more: seq<Step>)
    requires cfg.envelope && cfg.maxAttempts >= 1 && cfg.concurrency >= 1 && msg.wellFormed
    requires Legal(cfg, INIT, steps)
    requires After(cfg, INIT, steps).process == Some(Holder(msg, Queued))
    requires !IsProcessed(After(cfg, INIT, steps).records, msg.eventId)
    ensures more == steps + [Task(L0, Acquire), Task(L0, LookUp(Missing))]
    ensures Legal(cfg, INIT, more)
    ensures After(cfg, INIT, more) == After(cfg, INIT, steps).(process := Some(Holder(msg, Handling(1))))
  {
    assert Running(Holder(msg, Queued).tasks) == {};
    more := Do(cfg, steps, msg, Queued, Acquire);
    more := Do(cfg, more, msg, LookingUp(1), LookUp(Missing));
  }

  /** With no attempt allowed, the retry loop falls through and the batch is committed all the same. */
  lemma UntriedRun(cfg: Config, msg: Message) returns (steps: seq<Step>)
    requires cfg.maxAttempts < 1 && cfg.concurrency >= 1 && msg.wellFormed
    ensures steps == [Produce(TP0, msg), Start, Loop(BeginPoll), Loop(Deliver(map[TP0 := 1])),
                      Task(L0, Acquire), Loop(Gathered), Loop(CommitBatch(true))]
    ensures Legal(cfg, INIT, steps) && At(After(cfg, INIT, steps).committed, TP0) == 1
  {
    steps := FirstFetch(cfg, msg);
    assert Running(Holder(msg, Queued).tasks) == {};
    steps := Do(cfg, steps, msg, Queued, Acquire);
    steps := Finish(cfg, steps, msg, Untried);
  }

  lemma LosingRun(cfg: Config) returns (steps: seq<Step>)
    requires cfg.maxAttempts < 1 && cfg.concurrency >= 1
    ensures Legal(cfg, INIT, steps)
    ensures !NothingLost(cfg, steps, After(cfg, INIT, steps))
  {
    steps := UntriedRun(cfg, Message("e1", true, "body"));
    NothingSettled(cfg, steps);
    assert L0.offset < At(After(cfg, INIT, steps).committed, L0.tp);
  }

  lemma {:induction false} NothingSettled(cfg: Config, steps: seq<Step>)
    requires forall i :: 0 <= i < |steps| ==> KeptBy(cfg, steps[i]) == {} && HandedBy(steps[i]) == {}
    ensures Kept(cfg, steps) == {} && Handed(steps) == {}
  {
    if steps != [] {
      NothingSettled(cfg, steps[..|steps| - 1]);
    }
  }

  /** One more step of a run under construction. */
  lemma Then(cfg: Config, steps: seq<Step>, s: Step) returns (more: seq<Step>)
    requires Legal(cfg, INIT, steps) && Enabled(cfg, After(cfg, INIT, steps), s)
    ensures more == steps + [s]
    ensures Legal(cfg, INIT, more)
    ensures After(cfg, INIT, more) == Apply(cfg, After(cfg, INIT, steps), s)
  {
    more := steps + [s];
    assert more[..|more| - 1] == steps;
  }

  /** A kept message is one for which the run has a duplicate skip, a written record or a finished raw handler. */
  lemma {:induction false} KeptOccurs(cfg: Config, steps: seq<Step>, loc: Loc)
    ensures loc in Kept(cfg, steps) <==> exists i :: 0 <= i < |steps| && loc in KeptBy(cfg, steps[i])
    ensures loc in Handed(steps) <==> exists i :: 0 <= i < |steps| && loc in HandedBy(steps[i])
  {
    if steps != [] {
      var n := |steps| - 1;
      KeptOccurs(cfg, steps[..n], loc);
      assert forall i :: 0 <= i < n ==> steps[..n][i] == steps[i];
    }
  }

  // ------------------------------------------------- offsets never move back

  lemma {:induction false} OffsetsHold(cfg: Config, steps: seq<Step>)
    requires Legal(cfg, INIT, steps)
    ensures OffsetInv(After(cfg, INIT, steps))
  {
    if steps != [] {
      OffsetsHold(cfg, steps[..|steps| - 1]);
      OffsetStep(cfg, After(cfg, INIT, steps[..|steps| - 1]), steps[|steps| - 1]);
    }
  }

  /** A committed offset never moves back, whatever fails or restarts in between. */
  lemma {:induction false} CommittedMonotone(cfg: Config, steps: seq<Step>, n: nat, tp: TopicPartition)
    requires Legal(cfg, INIT, steps) && n <= |steps|
    ensures Legal(cfg, INIT, steps[..n])
    ensures At(After(cfg, INIT, steps[..n]).committed, tp) <= At(After(cfg, INIT, steps).committed, tp)
    ensures At(After(cfg, INIT, steps).committed, tp) <= |LogOf(After(cfg, INIT, steps).log, tp)|
    decreases |steps|
  {
    OffsetsHold(cfg, steps);
    if n == |steps| {
      assert steps[..n] == steps;
    } else {
      var m := |steps| - 1;
      CommittedMonotone(cfg, steps[..m], n, tp);
      assert steps[..m][..n] == steps[..n];
      OffsetsHold(cfg, steps[..m]);
      OffsetStep(cfg, After(cfg, INIT, steps[..m]), steps[m]);
    }
  }

  // ----------------------------------------------------- bounded concurrency

  lemma RunningShrinks(p: Process, p': Process, loc: Loc)
    requires forall l :: l in p'.tasks && l != loc ==> l in p.tasks && p.tasks[l] == p'.tasks[l]
    requires loc in p'.tasks ==>
               loc in p.tasks && (Holding(p'.tasks[loc].stage) ==> Holding(p.tasks[loc].stage))
    ensures |Running(p'.tasks)| <= |Running(p.tasks)|
  {
    assert Running(p'.tasks) <= Running(p.tasks);
    Subset(Running(p'.tasks), Running(p.tasks));
  }

  lemma Subset<T>(a: set<T>, b: set<T>)
    requires a <= b
    ensures |a| <= |b|
  {
    assert b == a + (b - a);
  }

  lemma ActConcurrency(cfg: Config, w: World, loc: Loc, act: Act)
    requires Enabled(cfg, w, Task(loc, act))
    requires |Running(w.process.value.tasks)| <= cfg.concurrency || Running(w.process.value.tasks) == {}
    ensures Apply(cfg, w, Task(loc, act)).process.Some?
    ensures |Running(Apply(cfg, w, Task(loc, act)).process.value.tasks)| <= cfg.concurrency
            || Running(Apply(cfg, w, Task(loc, act)).process.value.tasks) == {}
  {
    ActShape(cfg, w, loc, act);
    var p, p' := w.process.value, Apply(cfg, w, Task(loc, act)).process.value;
    if act.Acquire? {
      assert Running(p'.tasks) <= Running(p.tasks) + {loc};
      Subset(Running(p'.tasks), Running(p.tasks) + {loc});
    } else {
      RunningShrinks(p, p', loc);
      assert loc in Running(p.tasks);
    }
  }

  lemma DeliverConcurrency(w: World, p: Process, counts: Offsets)
    requires CanDeliver(w.log, p.position, counts)
    ensures
      var tasks := Delivered(w.log, p, counts).tasks;
      Running(tasks) == {} || tasks == p.tasks
  {
    if counts != map[] {
      assert forall loc :: loc in Fetched(w.log, p.position, counts) ==>
          Fetched(w.log, p.position, counts)[loc].stage.Queued?;
    }
  }

  lemma LoopConcurrency(cfg: Config, w: World, s: Step)
    requires Enabled(cfg, w, s) && !s.Task? && Apply(cfg, w, s).process.Some?
    ensures
      var tasks := Apply(cfg, w, s).process.value.tasks;
      Running(tasks) == {} || (w.process.Some? && tasks == w.process.value.tasks)
  {
    match s
    case Loop(Deliver(counts)) => DeliverConcurrency(w, w.process.value, counts);
    case _ =>
  }

  /** The semaphore: at most `consumer_max_concurrency` handlers are past it, in every reachable state. */
  lemma {:induction false} ConcurrencyBound(cfg: Config, steps: seq<Step>)
    requires Legal(cfg, INIT, steps) && After(cfg, INIT, steps).process.Some?
    ensures |Running(After(cfg, INIT, steps).process.value.tasks)| <= cfg.concurrency
            || Running(After(cfg, INIT, steps).process.value.tasks) == {}
  {
    var prev, s := steps[..|steps| - 1], steps[|steps| - 1];
    var w := After(cfg, INIT, prev);
    if w.process.Some? {
      ConcurrencyBound(cfg, prev);
    }
    if s.Task? {
      ActConcurrency(cfg, w, s.loc, s.act);
    } else {
      LoopConcurrency(cfg, w, s);
    }
  }
}
