/**
 Which offsets a batch commits: for every partition of the batch the offset after its last
 message, and nothing for any other partition.
 */
module ConsumerCommits {
  import opened Prelude
  import opened ConsumerModel
  import opened ConsumerSafety

  /** Every message of the batch lies below the end kept for its partition, and every end follows one of them. */
  ghost predicate EndsMatch(ends: Offsets, tasks: map<Loc, Job>) {
    && (forall loc :: loc in tasks ==> loc.tp in ends && loc.offset < ends[loc.tp])
    && (forall tp :: tp in ends ==> ends[tp] >= 1 && Loc(tp, ends[tp] - 1) in tasks)
  }

  ghost predicate BatchInv(w: World) {
    w.process.Some? && (w.process.value.phase.Gathering? || w.process.value.phase.Committing?) ==>
      EndsMatch(w.process.value.batchEnd, w.process.value.tasks)
  }

  lemma DeliverEnds(w: World, p: Process, counts: Offsets)
    requires CanDeliver(w.log, p.position, counts) && counts != map[]
    ensures EndsMatch(Delivered(w.log, p, counts).batchEnd, Delivered(w.log, p, counts).tasks)
  {
    var p' := Delivered(w.log, p, counts);
    DeliveredShape(w, p, counts);
    EndIs(p.position, counts);
    forall loc | loc in p'.tasks ensures loc.tp in p'.batchEnd && loc.offset < p'.batchEnd[loc.tp] {
      assert At(p'.position, loc.tp) == At(p.position, loc.tp) + At(counts, loc.tp);
    }
    forall tp | tp in p'.batchEnd ensures p'.batchEnd[tp] >= 1 && Loc(tp, p'.batchEnd[tp] - 1) in p'.tasks {
      assert At(p'.position, tp) == At(p.position, tp) + At(counts, tp);
    }
  }

  /** A partition has an end exactly when it delivered something; the end is the position after it. */
  lemma EndIs(position: Offsets, counts: Offsets)
    ensures
      var ends := BatchEnd(Advanced(position, counts), counts);
      && (forall tp :: tp in ends <==> tp in counts && counts[tp] > 0)
      && (forall tp :: tp in ends ==> ends[tp] == At(position, tp) + counts[tp])
  {
  }

  lemma StepEnds(cfg: Config, w: World, s: Step)
    requires BatchInv(w) && Enabled(cfg, w, s)
    ensures BatchInv(Apply(cfg, w, s))
  {
    match s
    case Task(loc, act) => ActShape(cfg, w, loc, act);
    case Loop(move) => MoveEnds(w, w.process.value, move);
    case Produce(_, _) =>
    case Start =>
  }

  lemma MoveEnds(w: World, p: Process, move: Move)
    requires w.process == Some(p) && BatchInv(w) && MoveEnabled(w, p, move)
    ensures BatchInv(MoveApply(w, p, move))
  {
    if move.Deliver? && move.counts != map[] {
      DeliverEnds(w, p, move.counts);
    }
  }

  lemma {:induction false} EndsHold(cfg: Config, steps: seq<Step>)
    requires Legal(cfg, INIT, steps)
    ensures BatchInv(After(cfg, INIT, steps))
  {
    if steps != [] {
      EndsHold(cfg, steps[..|steps| - 1]);
      StepEnds(cfg, After(cfg, INIT, steps[..|steps| - 1]), steps[|steps| - 1]);
    }
  }

  /** The last message of a partition in the batch. */
  ghost predicate LastOf(tasks: map<Loc, Job>, loc: Loc) {
    loc in tasks && forall other :: other in tasks && other.tp == loc.tp ==> other.offset <= loc.offset
  }

  /** For each partition of the batch the offset after its last message is committed, for no other anything. */
  ghost predicate CommitsBatch(before: Offsets, tasks: map<Loc, Job>, after: Offsets) {
    && (forall loc :: LastOf(tasks, loc) ==> At(after, loc.tp) == loc.offset + 1)
    && (forall tp :: (forall loc :: loc in tasks ==> loc.tp != tp) ==> At(after, tp) == At(before, tp))
  }

  lemma EndsCommit(before: Offsets, ends: Offsets, tasks: map<Loc, Job>)
    requires EndsMatch(ends, tasks)
    ensures CommitsBatch(before, tasks, before + ends)
  {
    var after := before + ends;
    forall loc | LastOf(tasks, loc) ensures At(after, loc.tp) == loc.offset + 1 {
      assert Loc(loc.tp, ends[loc.tp] - 1) in tasks;
    }
    forall tp | tp in ends ensures exists loc :: loc in tasks && loc.tp == tp {
      assert Loc(tp, ends[tp] - 1) in tasks;
    }
  }

  /** In every run, a commit that the broker takes commits exactly the batch whose tasks are done. */
  lemma CommitExact(cfg: Config, steps: seq<Step>)
    requires Legal(cfg, INIT, steps) && Enabled(cfg, After(cfg, INIT, steps), Loop(CommitBatch(true)))
    ensures
      var w := After(cfg, INIT, steps);
      CommitsBatch(w.committed, w.process.value.tasks, Apply(cfg, w, Loop(CommitBatch(true))).committed)
  {
    EndsHold(cfg, steps);
    CommitStep(cfg, After(cfg, INIT, steps));
  }

  lemma CommitStep(cfg: Config, w: World)
    requires BatchInv(w) && Enabled(cfg, w, Loop(CommitBatch(true)))
    ensures CommitsBatch(w.committed, w.process.value.tasks, Apply(cfg, w, Loop(CommitBatch(true))).committed)
  {
    EndsCommit(w.committed, w.process.value.batchEnd, w.process.value.tasks);
  }

  /** A gathered batch goes on to its commit exactly when it has a message and no stop was asked for. */
  lemma GatheredCommits(cfg: Config, steps: seq<Step>)
    requires Legal(cfg, INIT, steps) && Enabled(cfg, After(cfg, INIT, steps), Loop(Gathered))
    ensures
      var w := After(cfg, INIT, steps);
      var p' := Apply(cfg, w, Loop(Gathered)).process.value;
      && (p'.phase.Committing? <==> !w.process.value.stopping && w.process.value.tasks != map[])
      && p'.tasks == w.process.value.tasks
  {
    EndsHold(cfg, steps);
    GatheredStep(cfg, After(cfg, INIT, steps));
  }

  lemma GatheredStep(cfg: Config, w: World)
    requires BatchInv(w) && Enabled(cfg, w, Loop(Gathered))
    ensures
      var p' := Apply(cfg, w, Loop(Gathered)).process.value;
      && (p'.phase.Committing? <==> !w.process.value.stopping && w.process.value.tasks != map[])
      && p'.tasks == w.process.value.tasks
  {
    var p := w.process.value;
    if p.batchEnd != map[] {
      var tp :| tp in p.batchEnd;
      assert Loc(tp, p.batchEnd[tp] - 1) in p.tasks;
    }
    if p.tasks != map[] {
      var loc :| loc in p.tasks;
      assert loc.tp in p.batchEnd;
    }
  }
}
