/**
 The gathering of a batch under every interleaving of its tasks: each step of a task uses up part of a
 finite amount of work, and until all tasks are done some task can step.
 */
module ConsumerProgress {
  import opened Prelude
  import opened ConsumerModel
  import opened ConsumerSafety

  /** Attempts that are left after attempt `n`. */
  function Left(cfg: Config, n: nat): nat {
    if n <= cfg.maxAttempts then cfg.maxAttempts - n else 0
  }

  /** An upper bound for the steps a task can still take. */
  function Work(cfg: Config, stage: Stage): nat {
    match stage
    case Queued => 4 * Left(cfg, 0) + 8
    case LookingUp(n) => 4 * Left(cfg, n) + 7
    case Handling(n) => 4 * Left(cfg, n) + 6
    case Recording(n) => 4 * Left(cfg, n) + 5
    case Sleeping(n) => 4 * Left(cfg, n) + 4
    case Publishing(_, _) => 3
    case Inserting(_, _, _) => 2
    case RecordingFailure(_) => 1
    case Done(_) => 0
  }

  /** Every act uses up work. */
  lemma ActWorks(cfg: Config, w: World, p: Process, job: Job, act: Act)
    requires ActEnabled(cfg, w, p, job, act)
    ensures Work(cfg, NextStage(cfg, job, act)) < Work(cfg, job.stage)
  {
  }

  ghost function TotalWork(cfg: Config, tasks: map<Loc, Job>): nat
    decreases |tasks|
  {
    if tasks == map[] then 0
    else
      var loc :| loc in tasks;
      Work(cfg, tasks[loc].stage) + TotalWork(cfg, tasks - {loc})
  }

  lemma {:induction false} TotalPick(cfg: Config, tasks: map<Loc, Job>, loc: Loc)
    requires loc in tasks
    ensures TotalWork(cfg, tasks) == Work(cfg, tasks[loc].stage) + TotalWork(cfg, tasks - {loc})
    decreases |tasks|
  {
    var c: Loc :| c in tasks && TotalWork(cfg, tasks) == Work(cfg, tasks[c].stage) + TotalWork(cfg, tasks - {c});
    if c != loc {
      TotalPick(cfg, tasks - {c}, loc);
      TotalPick(cfg, tasks - {loc}, c);
      assert tasks - {c} - {loc} == tasks - {loc} - {c};
    }
  }

  /** One task's step changes the total by its own work. */
  lemma TotalUpdate(cfg: Config, tasks: map<Loc, Job>, loc: Loc, job: Job)
    requires loc in tasks && Work(cfg, job.stage) < Work(cfg, tasks[loc].stage)
    ensures TotalWork(cfg, tasks[loc := job]) < TotalWork(cfg, tasks)
  {
    var after := tasks[loc := job];
    TotalPick(cfg, tasks, loc);
    TotalPick(cfg, after, loc);
    assert after - {loc} == tasks - {loc};
  }

  ghost predicate OnlyTasks(steps: seq<Step>) {
    forall i :: 0 <= i < |steps| ==> steps[i].Task?
  }

  ghost predicate InBatch(w: World) {
    w.process.Some? && w.process.value.phase.Gathering?
  }

  ghost function WorkLeft(cfg: Config, w: World): nat {
    if w.process.Some? then TotalWork(cfg, w.process.value.tasks) else 0
  }

  lemma StepWorks(cfg: Config, w: World, s: Step)
    requires InBatch(w) && s.Task? && Enabled(cfg, w, s)
    ensures InBatch(Apply(cfg, w, s)) && WorkLeft(cfg, Apply(cfg, w, s)) < WorkLeft(cfg, w)
  {
    var p := w.process.value;
    ActShape(cfg, w, s.loc, s.act);
    ActWorks(cfg, w, p, p.tasks[s.loc], s.act);
    TotalUpdate(cfg, p.tasks, s.loc, Job(p.tasks[s.loc].msg, NextStage(cfg, p.tasks[s.loc], s.act)));
  }

  /** Some act of a running task is always possible. */
  function SomeAct(w: World, job: Job): Act {
    match job.stage
    case LookingUp(_) => LookUp(if IsProcessed(w.records, job.msg.eventId) then Found else Missing)
    case Handling(_) => Handle(true, Ok)
    case Recording(_) => Record(true, true)
    case Sleeping(_) => Wake
    case Publishing(_, _) => PublishDlq(true)
    case Inserting(_, _, _) => InsertDlq(true)
    case RecordingFailure(_) => RecordFailure(true)
    case Queued => Acquire
    case Done(_) => Acquire
  }

  /** Until every task is done, one of them can step: there is no deadlock on the semaphore. */
  lemma SomeTaskCanStep(cfg: Config, w: World) returns (loc: Loc, act: Act)
    requires cfg.concurrency >= 1 && InBatch(w) && !AllDone(w.process.value)
    ensures Enabled(cfg, w, Task(loc, act))
  {
    var p := w.process.value;
    if running :| running in p.tasks && Holding(p.tasks[running].stage) {
      loc, act := running, SomeAct(w, p.tasks[running]);
    } else {
      loc :| loc in p.tasks && !p.tasks[loc].stage.Done?;
      act := Acquire;
      assert p.tasks[loc].stage.Queued?;
      assert Running(p.tasks) == {};
    }
  }

  /**
   Every interleaving of the tasks of a batch takes at most as many steps as there was work, and it can be
   continued until all tasks are done; so the gathering ends, whatever the schedule.
   */
  lemma {:induction false} GatherEnds(cfg: Config, w: World, steps: seq<Step>)
    requires InBatch(w) && OnlyTasks(steps) && Legal(cfg, w, steps)
    ensures
      var w' := After(cfg, w, steps);
      && InBatch(w') && |steps| + WorkLeft(cfg, w') <= WorkLeft(cfg, w)
      && (AllDone(w'.process.value) || cfg.concurrency < 1 ||
          exists loc, act :: Enabled(cfg, w', Task(loc, act)))
  {
    if steps != [] {
      var prev := steps[..|steps| - 1];
      GatherEnds(cfg, w, prev);
      StepWorks(cfg, After(cfg, w, prev), steps[|steps| - 1]);
    }
    var w' := After(cfg, w, steps);
    if !AllDone(w'.process.value) && cfg.concurrency >= 1 {
      var loc, act := SomeTaskCanStep(cfg, w');
    }
  }

  /** From any point of a batch some schedule of the tasks reaches its end. */
  lemma {:induction false} GatherCanFinish(cfg: Config, w: World) returns (steps: seq<Step>)
    requires cfg.concurrency >= 1 && InBatch(w)
    ensures OnlyTasks(steps) && Legal(cfg, w, steps)
    ensures InBatch(After(cfg, w, steps)) && AllDone(After(cfg, w, steps).process.value)
    decreases WorkLeft(cfg, w)
  {
    if AllDone(w.process.value) {
      steps := [];
    } else {
      var loc, act := SomeTaskCanStep(cfg, w);
      StepWorks(cfg, w, Task(loc, act));
      var more := GatherCanFinish(cfg, Apply(cfg, w, Task(loc, act)));
      steps := [Task(loc, act)] + more;
      Prepend(cfg, w, Task(loc, act), more);
    }
  }

  lemma {:induction false} Prepend(cfg: Config, w: World, s: Step, more: seq<Step>)
    requires Enabled(cfg, w, s) && Legal(cfg, Apply(cfg, w, s), more)
    ensures Legal(cfg, w, [s] + more) && After(cfg, w, [s] + more) == After(cfg, Apply(cfg, w, s), more)
    decreases |more|
  {
    var all := [s] + more;
    if more == [] {
      assert all == [s] && all[..0] == [];
      assert Legal(cfg, w, []) && After(cfg, w, []) == w;
    } else {
      var front := more[..|more| - 1];
      Prepend(cfg, w, s, front);
      assert all[..|all| - 1] == [s] + front;
    }
  }

  /** The work of a fresh batch: a fixed amount per message. */
  lemma {:induction false} FreshWork(cfg: Config, tasks: map<Loc, Job>)
    requires forall loc :: loc in tasks ==> tasks[loc].stage.Queued?
    ensures TotalWork(cfg, tasks) == |tasks| * (4 * Left(cfg, 0) + 8)
    decreases |tasks|
  {
    if tasks != map[] {
      var loc :| loc in tasks;
      TotalPick(cfg, tasks, loc);
      FreshWork(cfg, tasks - {loc});
    }
  }
}
