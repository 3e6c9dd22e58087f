/**
 The retry loop and the batch loop in their own imperative form.  What the
 environment answers is a parameter; the ghost result of each method is the run
 of the transition system that the code has just performed.
 */
module ConsumerLoop {
  import opened Prelude
  import opened ConsumerModel
  import opened ConsumerSafety
  import opened ConsumerCommits

  /** What the environment answers in one attempt. */
  datatype Trial = Trial(lookupRaises: bool, handlerApplied: bool, reply: Reply, recordApplied: bool, recordOk: bool)

  /** What becomes of the two dead letter writes and of the "failed" record. */
  datatype Sinks = Sinks(topicOk: bool, tableOk: bool, failureApplied: bool)

  /** The broker and the database, which outlive the process. */
  class Stores {
    var log: Log
    var committed: Offsets
    var records: map<EventId, RecordStatus>
    var events: seq<Row>
    var dlqTopic: seq<DeadLetter>
    var dlqTable: seq<DeadLetter>

    constructor ()
      ensures log == map[] && committed == map[] && records == map[] && events == [] && dlqTopic == [] && dlqTable == []
    {
      log, committed, records, events, dlqTopic, dlqTable := map[], map[], map[], [], [], [];
    }
  }

  class StreamConsumer {
    const cfg: Config
    const db: Stores
    var position: Offsets
    var stopping: bool
    var batchEnd: Offsets
    var processed: nat
    var failed: nat
    /** Program counters of the coroutines, which the source keeps in its tasks. */
    ghost var tasks: map<Loc, Job>
    ghost var phase: Phase

    constructor (cfg: Config, db: Stores)
      ensures this.cfg == cfg && this.db == db && processed == 0 && failed == 0
      ensures World() == Apply(cfg, World().(process := None), Start)
    {
      this.cfg, this.db := cfg, db;
      position, stopping, batchEnd, processed, failed := db.committed, false, map[], 0, 0;
      tasks, phase := map[], Idle;
    }

    ghost function World(): World
      reads this, db
    {
      ConsumerModel.World.World(db.log, db.committed, db.records, db.events, db.dlqTopic, db.dlqTable,
            Some(Process(position, phase, stopping, tasks, batchEnd)))
    }

    ghost predicate Stands(loc: Loc, msg: Message, stage: Stage)
      reads this
    {
      loc in tasks && tasks[loc] == Job(msg, stage)
    }

    /** Everything but the stage of one task and the stores is as before. */
    twostate predicate OnlyTask(loc: Loc)
      reads this, db
    {
      && position == old(position) && stopping == old(stopping) && batchEnd == old(batchEnd) && phase == old(phase)
      && db.log == old(db.log) && db.committed == old(db.committed)
      && tasks.Keys == old(tasks).Keys
      && forall l :: l in tasks && l != loc ==> tasks[l] == old(tasks)[l]
    }

    /** Move the program counter of a task. */
    ghost method Advance(loc: Loc, act: Act)
      requires loc in tasks
      modifies this`tasks
      ensures tasks == old(tasks)[loc := Job(old(tasks)[loc].msg, NextStage(cfg, old(tasks)[loc], act))]
    {
      tasks := tasks[loc := Job(tasks[loc].msg, NextStage(cfg, tasks[loc], act))];
    }

    /** `ProcessingContext.already_processed`. */
    method AlreadyProcessed(loc: Loc, msg: Message, ghost n: nat, raises: bool,
                   ghost w: World, ghost steps: seq<Step>)
        returns (answer: Answer, ghost next: seq<Step>)
      requires Ran(cfg, w, steps, World())
      requires Stands(loc, msg, LookingUp(n))
      modifies this`tasks
      ensures Ran(cfg, w, next, World()) && next == steps + [Task(loc, LookUp(answer))]
      ensures answer.LookupError? == raises
      ensures Stands(loc, msg, AfterLookUp(cfg, n, answer)) && OnlyTask(loc)
    {
      ghost var was := World();
      if raises {
        answer := LookupError;
      } else if msg.eventId in db.records && db.records[msg.eventId] == Processed {
        answer := Found;
      } else {
        answer := Missing;
      }
      Advance(loc, LookUp(answer));
      next := steps + [Task(loc, LookUp(answer))];
      RanOne(cfg, w, steps, was, Task(loc, LookUp(answer)), World());
    }

    /** `PersistenceProcessor.handle`, or any handler without rows when there is no envelope. */
    method CallHandler(loc: Loc, msg: Message, ghost n: nat, applied: bool, reply: Reply,
                   ghost w: World, ghost steps: seq<Step>)
        returns (ghost next: seq<Step>)
      requires Ran(cfg, w, steps, World())
      requires Stands(loc, msg, Handling(n)) && (reply.Ok? ==> applied)
      modifies this`tasks, db`events
      ensures Ran(cfg, w, next, World()) && next == steps + [Task(loc, Handle(applied, reply))]
      ensures Stands(loc, msg, AfterHandle(cfg, n, reply)) && OnlyTask(loc)
    {
      ghost var was := World();
      if applied && cfg.envelope {
        db.events := InsertEvent(db.events, Row(msg.eventId, msg.body, loc));
      }
      Advance(loc, Handle(applied, reply));
      next := steps + [Task(loc, Handle(applied, reply))];
      RanOne(cfg, w, steps, was, Task(loc, Handle(applied, reply)), World());
    }

    /** `ProcessingContext.mark_processed`. */
    method MarkProcessed(loc: Loc, msg: Message, ghost n: nat, applied: bool, ok: bool,
                   ghost w: World, ghost steps: seq<Step>)
        returns (ghost next: seq<Step>)
      requires Ran(cfg, w, steps, World())
      requires Stands(loc, msg, Recording(n)) && (ok ==> applied)
      modifies this`tasks, db`records
      ensures Ran(cfg, w, next, World()) && next == steps + [Task(loc, Record(applied, ok))]
      ensures Stands(loc, msg, if ok then Done(Completed) else AfterTransient(cfg, n)) && OnlyTask(loc)
    {
      ghost var was := World();
      if applied {
        db.records := db.records[msg.eventId := Processed];
      }
      Advance(loc, Record(applied, ok));
      next := steps + [Task(loc, Record(applied, ok))];
      RanOne(cfg, w, steps, was, Task(loc, Record(applied, ok)), World());
    }

    method MarkFailed(loc: Loc, msg: Message, ghost n: nat, applied: bool,
                   ghost w: World, ghost steps: seq<Step>)
        returns (ghost next: seq<Step>)
      requires Ran(cfg, w, steps, World())
      requires Stands(loc, msg, RecordingFailure(n))
      modifies this`tasks, db`records
      ensures Ran(cfg, w, next, World()) && next == steps + [Task(loc, RecordFailure(applied))]
      ensures Stands(loc, msg, Done(DeadLettered)) && OnlyTask(loc)
    {
      ghost var was := World();
      if applied {
        db.records := db.records[msg.eventId := Failed];
      }
      Advance(loc, RecordFailure(applied));
      next := steps + [Task(loc, RecordFailure(applied))];
      RanOne(cfg, w, steps, was, Task(loc, RecordFailure(applied)), World());
    }

    method Publish(loc: Loc, msg: Message, reason: Reason, attempt: nat, stored: bool,
                   ghost w: World, ghost steps: seq<Step>)
        returns (ghost next: seq<Step>)
      requires Ran(cfg, w, steps, World())
      requires Stands(loc, msg, Publishing(reason, attempt))
      modifies this`tasks, db`dlqTopic
      ensures Ran(cfg, w, next, World()) && next == steps + [Task(loc, PublishDlq(stored))]
      ensures Stands(loc, msg, Inserting(reason, attempt, stored)) && OnlyTask(loc)
    {
      ghost var was := World();
      if stored {
        db.dlqTopic := db.dlqTopic + [DeadLetter(loc, msg.eventId, reason, attempt)];
      }
      Advance(loc, PublishDlq(stored));
      next := steps + [Task(loc, PublishDlq(stored))];
      RanOne(cfg, w, steps, was, Task(loc, PublishDlq(stored)), World());
    }

    method InsertLetter(loc: Loc, msg: Message, reason: Reason, attempt: nat, ghost published: bool, stored: bool,
                   ghost w: World, ghost steps: seq<Step>)
        returns (ghost next: seq<Step>)
      requires Ran(cfg, w, steps, World())
      requires Stands(loc, msg, Inserting(reason, attempt, published))
      modifies this`tasks, db`dlqTable
      ensures Ran(cfg, w, next, World()) && next == steps + [Task(loc, InsertDlq(stored))]
      ensures Stands(loc, msg, AfterDlq(cfg, reason, attempt)) && OnlyTask(loc)
    {
      ghost var was := World();
      if stored {
        db.dlqTable := db.dlqTable + [DeadLetter(loc, msg.eventId, reason, attempt)];
      }
      Advance(loc, InsertDlq(stored));
      next := steps + [Task(loc, InsertDlq(stored))];
      RanOne(cfg, w, steps, was, Task(loc, InsertDlq(stored)), World());
    }

    /** `asyncio.sleep` before the next attempt. */
    ghost method Sleep(loc: Loc, msg: Message, n: nat, w: World, steps: seq<Step>) returns (next: seq<Step>)
      requires Ran(cfg, w, steps, World())
      requires Stands(loc, msg, Sleeping(n))
      modifies this`tasks
      ensures Ran(cfg, w, next, World()) && next == steps + [Task(loc, Wake)]
      ensures Stands(loc, msg, LoopHead(cfg, n + 1)) && OnlyTask(loc)
    {
      ghost var was := World();
      Advance(loc, Wake);
      next := steps + [Task(loc, Wake)];
      RanOne(cfg, w, steps, was, Task(loc, Wake), World());
    }

    /** `_to_dlq`: publish, then insert; a failure of either is swallowed. */
    method ToDlq(loc: Loc, msg: Message, reason: Reason, attempt: nat, sinks: Sinks,
                 ghost w: World, ghost steps: seq<Step>)
      returns (ghost next: seq<Step>)
      requires Ran(cfg, w, steps, World())
      requires Stands(loc, msg, Publishing(reason, attempt))
      modifies this`tasks, db`dlqTopic, db`dlqTable
      ensures Ran(cfg, w, next, World())
      ensures Stands(loc, msg, AfterDlq(cfg, reason, attempt)) && OnlyTask(loc)
    {
      next := Publish(loc, msg, reason, attempt, sinks.topicOk, w, steps);
      next := InsertLetter(loc, msg, reason, attempt, sinks.topicOk, sinks.tableOk, w, next);
    }

    /** The body of the `try` in the retry loop; `ended` is its early return. */
    method TryOnce(loc: Loc, msg: Message, n: nat, trial: Trial, ghost w: World, ghost steps: seq<Step>)
      returns (ended: bool, permanent: bool, ghost next: seq<Step>)
      requires Ran(cfg, w, steps, World())
      requires Stands(loc, msg, LoopHead(cfg, n)) && n <= cfg.maxAttempts
      requires (trial.reply.Ok? ==> trial.handlerApplied) && (trial.recordOk ==> trial.recordApplied)
      modifies this`tasks, this`processed, db`events, db`records
      ensures Ran(cfg, w, next, World())
      ensures OnlyTask(loc)
      ensures ended ==> Stands(loc, msg, Done(Completed)) || Stands(loc, msg, Done(Duplicate))
      ensures !ended ==> Stands(loc, msg, if permanent then Publishing(PermanentError, n) else AfterTransient(cfg, n))
      ensures processed == old(processed) + if ended && Stands(loc, msg, Done(Completed)) then 1 else 0
    {
      next := steps;
      ended, permanent := false, false;
      if cfg.envelope {
        var answer;
        answer, next := AlreadyProcessed(loc, msg, n, trial.lookupRaises, w, next);
        if answer.Found? {
          ended := true;
          return;
        }
        if answer.LookupError? {
          return;
        }
      }
      next := CallHandler(loc, msg, n, trial.handlerApplied, trial.reply, w, next);
      if !trial.reply.Ok? {
        permanent := trial.reply.Permanent?;
        return;
      }
      if cfg.envelope {
        next := MarkProcessed(loc, msg, n, trial.recordApplied, trial.recordOk, w, next);
        if !trial.recordOk {
          return;
        }
      }
      processed := processed + 1;
      ended := true;
    }

    /** What the environment may answer: a confirmed write has been applied. */
    ghost predicate Answers(trials: seq<Trial>) {
      |trials| >= cfg.maxAttempts &&
      forall i :: 0 <= i < |trials| ==>
        (trials[i].reply.Ok? ==> trials[i].handlerApplied) && (trials[i].recordOk ==> trials[i].recordApplied)
    }

    /** After the last attempt: dead-letter the message and try to record the failure. */
    method Exhausted(loc: Loc, msg: Message, attempt: nat, sinks: Sinks, ghost w: World, ghost steps: seq<Step>)
      returns (ghost next: seq<Step>)
      requires Ran(cfg, w, steps, World())
      requires Stands(loc, msg, Publishing(RetriesExhausted, attempt))
      modifies this`tasks, this`failed, db`dlqTopic, db`dlqTable, db`records
      ensures Ran(cfg, w, next, World())
      ensures Stands(loc, msg, Done(DeadLettered)) && OnlyTask(loc) && failed == old(failed) + 1
    {
      failed := failed + 1;
      next := ToDlq(loc, msg, RetriesExhausted, attempt, sinks, w, steps);
      if cfg.envelope {
        next := MarkFailed(loc, msg, attempt, sinks.failureApplied, w, next);
      }
    }

    /**
     `_handle_with_retry`.  However the environment answers, the loop is one run
     of the task's transitions that ends in `Done`, and the two counters tell
     completions and dead letters apart.
     */
    method HandleWithRetry(loc: Loc, msg: Message, trials: seq<Trial>, sinks: Sinks,
                           ghost w: World, ghost steps: seq<Step>)
      returns (ghost next: seq<Step>)
      requires Ran(cfg, w, steps, World())
      requires Stands(loc, msg, LoopHead(cfg, 1)) && Answers(trials)
      modifies this`tasks, this`processed, this`failed, db`events, db`records, db`dlqTopic, db`dlqTable
      ensures Ran(cfg, w, next, World())
      ensures OnlyTask(loc) && loc in tasks && tasks[loc].msg == msg && tasks[loc].stage.Done?
      ensures processed == old(processed) + if tasks[loc].stage == Done(Completed) then 1 else 0
      ensures failed == old(failed) + if tasks[loc].stage == Done(DeadLettered) then 1 else 0
      ensures tasks[loc].stage == Done(Untried) <==> cfg.maxAttempts < 1
    {
      var attempt := 1;
      next := steps;
      while attempt <= cfg.maxAttempts
        invariant attempt >= 1 && (cfg.maxAttempts >= 1 ==> attempt <= cfg.maxAttempts)
        invariant Stands(loc, msg, LoopHead(cfg, attempt)) && OnlyTask(loc)
        invariant Ran(cfg, w, next, World())
        invariant processed == old(processed) && failed == old(failed)
      {
        var ended, permanent;
        ended, permanent, next := TryOnce(loc, msg, attempt, trials[attempt - 1], w, next);
        if ended {
          return;
        }
        if permanent {
          failed := failed + 1;
          next := ToDlq(loc, msg, PermanentError, attempt, sinks, w, next);
          return;
        }
        if attempt >= cfg.maxAttempts {
          next := Exhausted(loc, msg, attempt, sinks, w, next);
          return;
        }
        next := Sleep(loc, msg, attempt, w, next);
        attempt := attempt + 1;
      }
    }

    /** `_process_one` under the semaphore. */
    method ProcessOne(loc: Loc, msg: Message, trials: seq<Trial>, sinks: Sinks, ghost w: World, ghost steps: seq<Step>)
      returns (ghost next: seq<Step>)
      requires Ran(cfg, w, steps, World())
      requires Stands(loc, msg, Queued) && |Running(tasks)| < cfg.concurrency && Answers(trials)
      modifies this`tasks, this`processed, this`failed, db`events, db`records, db`dlqTopic, db`dlqTable
      ensures Ran(cfg, w, next, World())
      ensures OnlyTask(loc) && loc in tasks && tasks[loc].msg == msg && tasks[loc].stage.Done?
      ensures cfg.envelope && !msg.wellFormed ==> tasks[loc].stage == Done(DeadLettered)
    {
      ghost var was := World();
      Advance(loc, Acquire);
      next := steps + [Task(loc, Acquire)];
      RanOne(cfg, w, steps, was, Task(loc, Acquire), World());
      if cfg.envelope && !msg.wellFormed {
        next := ToDlq(loc, msg, MalformedEnvelope, 1, sinks, w, next);
      } else {
        next := HandleWithRetry(loc, msg, trials, sinks, w, next);
      }
    }

    /** `getmany`: a broker error ends the turn, any other error the loop, an empty result the turn. */
    method Fetch(poll: Poll, ghost w: World, ghost steps: seq<Step>) returns (ghost next: seq<Step>)
      requires Ran(cfg, w, steps, World()) && phase.Idle? && !stopping
      requires poll.Returns? ==> CanDeliver(db.log, position, poll.counts)
      modifies this`position, this`batchEnd, this`tasks, this`phase, this`stopping
      ensures Ran(cfg, w, next, World()) && (stopping <==> poll.Raises?)
      ensures phase == if poll.Raises? then Stopping else if Delivers(poll) then Gathering else Idle
      ensures !Delivers(poll) ==> position == old(position) && tasks == old(tasks) && batchEnd == old(batchEnd)
      ensures Delivers(poll) ==> forall tp :: At(position, tp) == At(old(position), tp) + At(poll.counts, tp)
      ensures Delivers(poll) ==> Ends(batchEnd, old(position), poll.counts)
      ensures Delivers(poll) ==> tasks == Fetched(db.log, old(position), poll.counts)
    {
      ghost var was := World();
      phase := Polling;
      RanOne(cfg, w, steps, was, Loop(BeginPoll), World());
      next := steps + [Loop(BeginPoll)];
      if Delivers(poll) {
        next := TakeDelivery(poll.counts, w, next);
      } else {
        next := TakeNothing(poll, w, next);
      }
    }

    /** The poll brought no message. */
    method TakeNothing(poll: Poll, ghost w: World, ghost steps: seq<Step>) returns (ghost next: seq<Step>)
      requires Ran(cfg, w, steps, World()) && phase.Polling? && !Delivers(poll) && !stopping
      modifies this`phase, this`stopping
      ensures Ran(cfg, w, next, World()) && (stopping <==> poll.Raises?)
      ensures phase == if poll.Raises? then Stopping else Idle
    {
      ghost var was := World();
      ghost var move := if poll.Raises? then PollRaises else if poll.Fails? then PollError else Deliver(map[]);
      if poll.Raises? {
        stopping := true;
        phase := Stopping;
      } else {
        phase := Idle;
      }
      RanOne(cfg, w, steps, was, Loop(move), World());
      next := steps + [Loop(move)];
    }

    /** `getmany` has returned messages. */
    method TakeDelivery(counts: Offsets, ghost w: World, ghost steps: seq<Step>) returns (ghost next: seq<Step>)
      requires Ran(cfg, w, steps, World()) && phase.Polling?
      requires CanDeliver(db.log, position, counts) && counts != map[]
      modifies this`position, this`batchEnd, this`tasks, this`phase
      ensures Ran(cfg, w, next, World()) && phase.Gathering?
      ensures forall tp :: At(position, tp) == At(old(position), tp) + At(counts, tp)
      ensures Ends(batchEnd, old(position), counts)
      ensures tasks == Fetched(db.log, old(position), counts)
    {
      ghost var was := World();
      EndIs(position, counts);
      tasks := Fetched(db.log, position, counts);
      position := Advanced(position, counts);
      batchEnd := BatchEnd(position, counts);
      phase := Gathering;
      RanOne(cfg, w, steps, was, Loop(Deliver(counts)), World());
      next := steps + [Loop(Deliver(counts))];
    }

    /** All tasks of the batch, in one of the orders the event loop may choose. */
    method GatherBatch(order: seq<Loc>, trials: seq<seq<Trial>>, sinks: seq<Sinks>,
                       ghost w: World, ghost steps: seq<Step>)
      returns (ghost next: seq<Step>)
      requires Ran(cfg, w, steps, World()) && phase.Gathering? && cfg.concurrency >= 1
      requires |trials| == |sinks| == |order| && forall i :: 0 <= i < |order| ==> Answers(trials[i])
      requires Progress(db.log, tasks, order, 0)
      modifies this`tasks, this`processed, this`failed, db`events, db`records, db`dlqTopic, db`dlqTable
      ensures Ran(cfg, w, next, World())
      ensures Progress(db.log, tasks, order, |order|)
    {
      next := steps;
      for i := 0 to |order|
        invariant Ran(cfg, w, next, World())
        invariant Progress(db.log, tasks, order, i)
      {
        NoneRunning(db.log, tasks, order, i);
        ghost var before := tasks;
        next := ProcessOne(order[i], MessageAt(db.log, order[i]), trials[i], sinks[i], w, next);
        OneMore(db.log, before, tasks, order, i);
      }
    }

    /** One commit of `{partition: last_offset + 1}` after the whole batch is done. */
    method CommitAfterBatch(applied: bool, ghost w: World, ghost steps: seq<Step>) returns (ghost next: seq<Step>)
      requires Ran(cfg, w, steps, World()) && phase.Gathering?
      requires forall loc :: loc in tasks ==> tasks[loc].stage.Done?
      modifies this`phase, db`committed
      ensures Ran(cfg, w, next, World()) && phase.Idle?
      ensures db.committed ==
                if applied && !stopping && batchEnd != map[] then old(db.committed) + batchEnd else old(db.committed)
    {
      ghost var was := World();
      phase := if stopping || batchEnd == map[] then Idle else Committing;
      RanOne(cfg, w, steps, was, Loop(Gathered), World());
      next := steps + [Loop(Gathered)];
      if batchEnd != map[] && !stopping {
        was := World();
        if applied {
          db.committed := db.committed + batchEnd;
        }
        phase := Idle;
        RanOne(cfg, w, next, was, Loop(CommitBatch(applied)), World());
        next := next + [Loop(CommitBatch(applied))];
      }
    }

    /** The loop has seen the stop flag. */
    method LeaveLoop(ghost w: World, ghost steps: seq<Step>) returns (ghost next: seq<Step>)
      requires Ran(cfg, w, steps, World()) && phase.Idle?
      modifies this`phase, this`stopping
      ensures Ran(cfg, w, next, World()) && phase.Stopping? && stopping
    {
      ghost var was := World();
      stopping := true;
      RanOne(cfg, w, steps, was, Loop(RequestStop), World());
      next := steps + [Loop(RequestStop)];
      was := World();
      phase := Stopping;
      RanOne(cfg, w, next, was, Loop(ExitLoop), World());
      next := next + [Loop(ExitLoop)];
    }

    /**
     `stop`, after the loop: no task is in flight outside a batch, so draining finds nothing; the fetch positions
     are committed, if the broker takes them, and the process ends.
     */
    method Stop(applied: bool, ghost w: World, ghost steps: seq<Step>) returns (ghost next: seq<Step>)
      requires Ran(cfg, w, steps, World()) && phase.Idle? && OffsetInv(World())
      modifies this`phase, this`stopping, db`committed
      ensures stopping && Ran(cfg, w, next, World().(process := None))
      ensures db.committed == if applied then old(db.committed) + position else old(db.committed)
    {
      Drained(World());
      next := LeaveLoop(w, steps);
      ghost var was := World();
      if applied {
        db.committed := db.committed + position;
      }
      RanOne(cfg, w, next, was, Loop(StopCommit(applied)), World().(process := None));
      next := next + [Loop(StopCommit(applied))];
    }

    /** The stop flag is set while the batch is being handled. */
    method AskToStop(ghost w: World, ghost steps: seq<Step>) returns (ghost next: seq<Step>)
      requires Ran(cfg, w, steps, World())
      modifies this`stopping
      ensures stopping && Ran(cfg, w, next, World())
    {
      ghost var was := World();
      stopping := true;
      RanOne(cfg, w, steps, was, Loop(RequestStop), World());
      next := steps + [Loop(RequestStop)];
    }

    /** The batch that was fetched: handle every message, then commit unless a stop was asked for meanwhile. */
    method RunBatch(order: seq<Loc>, trials: seq<seq<Trial>>, sinks: seq<Sinks>, stopAsked: bool, applied: bool,
                    ghost w: World, ghost steps: seq<Step>)
      returns (ghost next: seq<Step>)
      requires Ran(cfg, w, steps, World()) && phase.Gathering? && !stopping && cfg.concurrency >= 1
      requires |trials| == |sinks| == |order| && forall i :: 0 <= i < |order| ==> Answers(trials[i])
      requires Progress(db.log, tasks, order, 0)
      modifies this`tasks, this`processed, this`failed, this`stopping, this`phase
      modifies db`committed, db`events, db`records, db`dlqTopic, db`dlqTable
      ensures Ran(cfg, w, next, World()) && phase.Idle? && stopping == stopAsked
      ensures db.committed ==
                if applied && !stopAsked && batchEnd != map[] then old(db.committed) + batchEnd else old(db.committed)
    {
      next := GatherBatch(order, trials, sinks, w, steps);
      if stopAsked {
        next := AskToStop(w, next);
      }
      EveryTaskDone(db.log, tasks, order);
      next := CommitAfterBatch(applied, w, next);
    }

    /**
     One iteration of the main loop: poll, handle every message, commit.  The
     code is a run of the transition system, so what holds of every run holds of it.
     */
    method RunOnce(poll: Poll, order: seq<Loc>, trials: seq<seq<Trial>>, sinks: seq<Sinks>, stopAsked: bool,
                   applied: bool, ghost w: World, ghost steps: seq<Step>)
      returns (ghost next: seq<Step>)
      requires Ran(cfg, w, steps, World()) && phase.Idle? && !stopping && cfg.concurrency >= 1
      requires poll.Returns? ==> CanDeliver(db.log, position, poll.counts)
      requires poll.Returns? ==> Lists(db.log, position, poll.counts, order)
      requires |trials| == |sinks| == |order| && forall i :: 0 <= i < |order| ==> Answers(trials[i])
      modifies this, db`committed, db`events, db`records, db`dlqTopic, db`dlqTable
      ensures Ran(cfg, w, next, World()) && phase == if poll.Raises? then Stopping else Idle
      ensures forall tp :: At(position, tp) == At(old(position), tp) + if Delivers(poll) then At(poll.counts, tp) else 0
      ensures forall tp :: At(db.committed, tp) ==
                           if Delivers(poll) && applied && !stopAsked && tp in poll.counts && poll.counts[tp] > 0
                           then At(old(position), tp) + poll.counts[tp] else At(old(db.committed), tp)
    {
      ghost var was, before := db.committed, position;
      if Delivers(poll) {
        FetchedProgress(db.log, position, poll.counts, order);
      }
      next := Fetch(poll, w, steps);
      if Delivers(poll) {
        next := RunBatch(order, trials, sinks, stopAsked, applied, w, next);
        EndsMerge(was, batchEnd, before, poll.counts);
      }
    }
  }

  /** One end for each partition that delivered something: the offset after its last message. */
  ghost predicate Ends(ends: Offsets, position: Offsets, counts: Offsets) {
    && (forall tp :: tp in ends <==> tp in counts && counts[tp] > 0)
    && (forall tp :: tp in ends ==> ends[tp] == At(position, tp) + counts[tp])
  }

  lemma EndsMerge(committed: Offsets, ends: Offsets, position: Offsets, counts: Offsets)
    requires Ends(ends, position, counts)
    ensures forall tp :: At(committed + ends, tp) ==
                         if tp in counts && counts[tp] > 0 then At(position, tp) + counts[tp] else At(committed, tp)
  {
  }

  /** What a poll of the broker may bring. */
  datatype Poll = Fails | Raises | Returns(counts: Offsets)

  predicate Delivers(poll: Poll) {
    poll.Returns? && poll.counts != map[]
  }

  /** `order` lists the fetched messages, each once. */
  ghost predicate Lists(log: Log, position: Offsets, counts: Offsets, order: seq<Loc>)
    requires CanDeliver(log, position, counts)
  {
    && (forall i, j :: 0 <= i < j < |order| ==> order[i] != order[j])
    && (forall loc :: loc in Fetched(log, position, counts) <==> loc in order)
  }

  /** Between batches no task is in flight. */
  lemma Drained(w: World)
    requires OffsetInv(w) && w.process.Some? && !w.process.value.phase.Gathering?
    ensures forall loc :: loc in w.process.value.tasks ==> w.process.value.tasks[loc].stage.Done?
  {
  }

  /** The tasks are those of `order`; the first `n` are done, the others still queued. */
  ghost predicate Progress(log: Log, tasks: map<Loc, Job>, order: seq<Loc>, n: nat) {
    && n <= |order|
    && (forall i, j :: 0 <= i < j < |order| ==> order[i] != order[j])
    && (forall loc :: loc in tasks ==> loc in order)
    && (forall k :: 0 <= k < |order| ==> order[k] in tasks)
    && (forall k :: 0 <= k < n ==> tasks[order[k]].stage.Done?)
    && (forall k :: n <= k < |order| ==>
          InLog(log, order[k]) && tasks[order[k]] == Job(MessageAt(log, order[k]), Queued))
  }

  lemma FetchedProgress(log: Log, position: Offsets, counts: Offsets, order: seq<Loc>)
    requires CanDeliver(log, position, counts) && Lists(log, position, counts, order)
    ensures Progress(log, Fetched(log, position, counts), order, 0)
  {
    forall k | 0 <= k < |order|
      ensures order[k] in Fetched(log, position, counts) && InLog(log, order[k])
      ensures Fetched(log, position, counts)[order[k]] == Job(MessageAt(log, order[k]), Queued)
    {
      assert order[k] in order;
    }
  }

  lemma EveryTaskDone(log: Log, tasks: map<Loc, Job>, order: seq<Loc>)
    requires Progress(log, tasks, order, |order|)
    ensures forall loc :: loc in tasks ==> tasks[loc].stage.Done?
  {
    forall loc | loc in tasks ensures tasks[loc].stage.Done? {
      var k :| 0 <= k < |order| && order[k] == loc;
    }
  }

  lemma NoneRunning(log: Log, tasks: map<Loc, Job>, order: seq<Loc>, n: nat)
    requires Progress(log, tasks, order, n)
    ensures Running(tasks) == {}
  {
    forall loc | loc in tasks ensures !Holding(tasks[loc].stage) {
      var k :| 0 <= k < |order| && order[k] == loc;
    }
  }

  lemma OneMore(log: Log, tasks: map<Loc, Job>, tasks': map<Loc, Job>, order: seq<Loc>, n: nat)
    requires Progress(log, tasks, order, n) && n < |order|
    requires tasks'.Keys == tasks.Keys && tasks'[order[n]].stage.Done?
    requires forall l :: l in tasks' && l != order[n] ==> tasks'[l] == tasks[l]
    ensures Progress(log, tasks', order, n + 1)
  {
    forall k | 0 <= k < |order| && k != n ensures tasks'[order[k]] == tasks[order[k]] {
      assert order[k] in tasks.Keys;
    }
  }

  /** The steps are a run of the transition system from `w` to `w'`. */
  ghost predicate Ran(cfg: Config, w: World, steps: seq<Step>, w': World) {
    Legal(cfg, w, steps) && After(cfg, w, steps) == w'
  }

  lemma RanOne(cfg: Config, w: World, steps: seq<Step>, w1: World, s: Step, w2: World)
    requires Ran(cfg, w, steps, w1) && Enabled(cfg, w1, s) && w2 == Apply(cfg, w1, s)
    ensures Ran(cfg, w, steps + [s], w2)
  {
    assert (steps + [s])[..|steps + [s]| - 1] == steps;
  }
}
