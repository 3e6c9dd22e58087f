/**
 Replay of stored events: keyset pagination over a table that other writers change
 between two page queries. Row ids enter only through their order, so they are integers.
 */
module Replay {
  import opened Prelude
  import opened SortedSets

  datatype Row = Row(time: int, eventType: string, producer: string)

  /** The rows other writers let a query see, by id. */
  type Table = map<int, Row>

  /** An empty filter does not filter. */
  datatype Job = Job(timeFrom: int, timeTo: int, eventType: string, producer: string)

  /** What reading the job row back after a page finds. */
  datatype Check = Active | Cancel | Gone | ReadError

  /** One turn of the loop meets: a failing query, or a table, publish failures and the job row's state. */
  datatype Turn = QueryError | Turn(table: Table, unpublished: set<int>, check: Check, closeFails: bool)

  datatype Status = Running | Completed | Cancelled | Failed

  datatype Progress = Progress(status: Status, last: Option<int>, attempted: seq<int>,
                               replayed: nat, failed: nat, rowReplayed: nat, rowFailed: nat)

  predicate Matches(job: Job, row: Row) {
    && job.timeFrom <= row.time <= job.timeTo
    && (job.eventType != "" ==> row.eventType == job.eventType)
    && (job.producer != "" ==> row.producer == job.producer)
  }

  predicate Beyond(last: Option<int>, id: int) {
    last == None || id > last.value
  }

  function Candidates(job: Job, table: Table, last: Option<int>): set<int> {
    set id | id in table && Matches(job, table[id]) && Beyond(last, id)
  }

  /** The page query: ascending ids after `last`, at most `limit` of them. */
  function Page(job: Job, table: Table, last: Option<int>, limit: nat): (ids: seq<int>)
    ensures |ids| <= limit
    ensures forall i, j :: 0 <= i < j < |ids| ==> ids[i] < ids[j]
    ensures forall i :: 0 <= i < |ids| ==> ids[i] in Candidates(job, table, last)
  {
    var all := Sorted(Candidates(job, table, last));
    if |all| <= limit then all else all[..limit]
  }

  function Published(ids: seq<int>, unpublished: set<int>): nat {
    if ids == [] then 0
    else Published(ids[..|ids| - 1], unpublished) + if ids[|ids| - 1] in unpublished then 0 else 1
  }

  function Start(): Progress {
    Progress(Running, None, [], 0, 0, 0, 0)
  }

  /** The counts are written back and the job ends. */
  function Close(p: Progress, status: Status): Progress {
    p.(status := status, rowReplayed := p.replayed, rowFailed := p.failed)
  }

  /** A page's rows attempted one after the other. */
  function Attempt(p: Progress, ids: seq<int>, unpublished: set<int>): Progress {
    if ids == [] then p
    else
      var q := Attempt(p, ids[..|ids| - 1], unpublished);
      var id := ids[|ids| - 1];
      var p' := q.(last := Some(id), attempted := q.attempted + [id]);
      if id in unpublished then p'.(failed := q.failed + 1) else p'.(replayed := q.replayed + 1)
  }

  /** After the page: the job row is read, and the counts are written unless the job was cancelled. */
  function Checked(p: Progress, check: Check): Progress {
    match check
    case Active => Close(p, Running)
    case Cancel => p.(status := Cancelled)
    case Gone => p.(status := Cancelled)
    case ReadError => Close(p, Failed)
  }

  function Step(job: Job, limit: int, p: Progress, t: Turn): Progress {
    if t.QueryError? || limit < 0 then Close(p, Failed) else OnPage(p, Page(job, t.table, p.last, limit), t)
  }

  /** Some row is left for the job. */
  predicate RowsLeft(job: Job, table: Table, last: Option<int>) {
    exists id | id in table :: Wanted(job, table, id) && Beyond(last, id)
  }

  /**
   How a turn of a running job ends, in terms of what it meets: a failing query (or an impossible limit) or job row
   read fails it; finding nothing completes it, unless closing fails; a cancelled or missing job row after
   a page cancels it; otherwise it goes on.
   */
  lemma TurnEnds(job: Job, limit: int, p: Progress, t: Turn)
    requires p.status == Running
    ensures
      var status := Step(job, limit, p, t).status;
      if t.QueryError? || limit < 0 then status == Failed
      else if limit == 0 || !RowsLeft(job, t.table, p.last) then status == if t.closeFails then Failed else Completed
      else match t.check
           case Active => status == Running
           case Cancel => status == Cancelled
           case Gone => status == Cancelled
           case ReadError => status == Failed
  {
    if t.Turn? && limit >= 0 {
      var all := Candidates(job, t.table, p.last);
      if id :| id in t.table && Wanted(job, t.table, id) && Beyond(p.last, id) {
        assert id in all;
        assert id in Sorted(all);
      } else {
        forall id ensures id !in all {
          WantedIff(job, t.table, id);
        }
        NoneMeansEmpty(all);
      }
      AttemptCounts(p, Page(job, t.table, p.last, limit), t.unpublished);
    }
  }

  /** No publish of the turn fails. */
  ghost predicate Works(t: Turn) {
    t.Turn? ==> forall id :: id !in t.unpublished
  }

  /** Every publish of the turn fails. */
  ghost predicate Breaks(t: Turn) {
    t.Turn? ==> forall id :: id in t.table ==> id in t.unpublished
  }

  lemma StepPublishes(job: Job, limit: int, p: Progress, t: Turn)
    ensures Works(t) ==> Step(job, limit, p, t).failed == p.failed
    ensures Breaks(t) ==> Step(job, limit, p, t).replayed == p.replayed
  {
    if t.Turn? && limit >= 0 {
      var ids := Page(job, t.table, p.last, limit);
      AttemptCounts(p, ids, t.unpublished);
      PublishedAllOrNone(ids, t.unpublished);
    }
  }

  /** Where every publish works no row fails, and where none works no row is replayed. */
  lemma {:induction false} PublishDecides(job: Job, limit: int, turns: seq<Turn>)
    ensures (forall i :: 0 <= i < |turns| ==> Works(turns[i])) ==> After(job, limit, turns).failed == 0
    ensures (forall i :: 0 <= i < |turns| ==> Breaks(turns[i])) ==> After(job, limit, turns).replayed == 0
  {
    if turns != [] {
      var n := |turns| - 1;
      PublishDecides(job, limit, turns[..n]);
      StepPublishes(job, limit, After(job, limit, turns[..n]), turns[n]);
    }
  }

  lemma {:induction false} PublishedAllOrNone(ids: seq<int>, unpublished: set<int>)
    ensures (forall i :: 0 <= i < |ids| ==> ids[i] !in unpublished) ==> Published(ids, unpublished) == |ids|
    ensures (forall i :: 0 <= i < |ids| ==> ids[i] in unpublished) ==> Published(ids, unpublished) == 0
  {
    if ids != [] {
      PublishedAllOrNone(ids[..|ids| - 1], unpublished);
    }
  }

  /** The rest of a turn, once the page has been read. */
  function OnPage(p: Progress, ids: seq<int>, t: Turn): Progress
    requires t.Turn?
  {
    if ids == [] then Close(p, if t.closeFails then Failed else Completed)
    else Checked(Attempt(p, ids, t.unpublished), t.check)
  }

  /** The job after as many of the turns as it takes. */
  function After(job: Job, limit: int, turns: seq<Turn>): Progress {
    if turns == [] then Start()
    else
      var p := After(job, limit, turns[..|turns| - 1]);
      if p.status == Running then Step(job, limit, p, turns[|turns| - 1]) else p
  }

  // ------------------------------------------------------------------- facts

  ghost predicate Increasing(xs: seq<int>) {
    forall i, j :: 0 <= i < j < |xs| ==> xs[i] < xs[j]
  }

  /** Attempts strictly increase and end at `last`; the counters add up. */
  ghost predicate ProgressHolds(p: Progress) {
    && Increasing(p.attempted)
    && (p.last == if p.attempted == [] then None else Some(p.attempted[|p.attempted| - 1]))
    && p.replayed + p.failed == |p.attempted|
  }

  /** Attempting a page appends it, counts it, and leaves the job row alone. */
  lemma {:induction false} AttemptCounts(p: Progress, ids: seq<int>, unpublished: set<int>)
    ensures
      var q := Attempt(p, ids, unpublished);
      && q.attempted == p.attempted + ids && q.status == p.status
      && q.replayed == p.replayed + Published(ids, unpublished)
      && q.replayed + q.failed == p.replayed + p.failed + |ids|
      && q.rowReplayed == p.rowReplayed && q.rowFailed == p.rowFailed
      && q.last == if ids == [] then p.last else Some(ids[|ids| - 1])
  {
    if ids != [] {
      var n := |ids| - 1;
      AttemptCounts(p, ids[..n], unpublished);
      assert ids == ids[..n] + [ids[n]];
    }
  }

  lemma AttemptHolds(p: Progress, ids: seq<int>, unpublished: set<int>)
    requires ProgressHolds(p) && Increasing(ids) && (ids != [] ==> Beyond(p.last, ids[0]))
    ensures ProgressHolds(Attempt(p, ids, unpublished))
  {
    AttemptCounts(p, ids, unpublished);
    IncreasingAppend(p.attempted, ids, p.last);
  }

  lemma IncreasingAppend(xs: seq<int>, ys: seq<int>, last: Option<int>)
    requires Increasing(xs) && last == if xs == [] then None else Some(xs[|xs| - 1])
    requires Increasing(ys) && (ys != [] ==> Beyond(last, ys[0]))
    ensures Increasing(xs + ys)
  {
    forall i, j | 0 <= i < j < |xs + ys| ensures (xs + ys)[i] < (xs + ys)[j] {
      if i < |xs| <= j {
        assert i == |xs| - 1 || xs[i] < xs[|xs| - 1];
        assert j == |xs| || ys[0] < ys[j - |xs|];
      }
    }
  }

  lemma PageHolds(p: Progress, ids: seq<int>, t: Turn)
    requires t.Turn? && ProgressHolds(p) && Increasing(ids) && (ids != [] ==> Beyond(p.last, ids[0]))
    ensures ProgressHolds(OnPage(p, ids, t))
  {
    AttemptHolds(p, ids, t.unpublished);
  }

  lemma PageFits(job: Job, table: Table, last: Option<int>, limit: nat)
    ensures
      var ids := Page(job, table, last, limit);
      Increasing(ids) && (ids != [] ==> Beyond(last, ids[0]))
  {
  }

  lemma StepHolds(job: Job, limit: int, p: Progress, t: Turn)
    requires ProgressHolds(p)
    ensures ProgressHolds(Step(job, limit, p, t))
  {
    if t.Turn? && limit >= 0 {
      PageFits(job, t.table, p.last, limit);
      PageHolds(p, Page(job, t.table, p.last, limit), t);
    }
  }

  /**
   Over every run, whatever is inserted or deleted between two queries: no row is attempted
   twice, attempts go up in id order, and replayed plus failed is the number of attempts.
   */
  lemma {:induction false} NoRowTwice(job: Job, limit: int, turns: seq<Turn>)
    ensures ProgressHolds(After(job, limit, turns))
  {
    if turns != [] {
      var front := turns[..|turns| - 1];
      NoRowTwice(job, limit, front);
      StepHolds(job, limit, After(job, limit, front), turns[|turns| - 1]);
    }
  }

  // ---------------------------------------------------------------- coverage

  /** Turn `i` was taken: the job was still running before it. */
  ghost predicate Taken(job: Job, limit: int, turns: seq<Turn>, i: nat)
    requires i < |turns|
  {
    After(job, limit, turns[..i]).status == Running
  }

  /** The row matched in every table the job queried. */
  ghost predicate AlwaysThere(job: Job, limit: int, turns: seq<Turn>, id: int) {
    forall i :: 0 <= i < |turns| && Taken(job, limit, turns, i) && turns[i].Turn? ==> Wanted(job, turns[i].table, id)
  }

  /**
   The table holds the row, its event time lies in the job's range, both ends included, its type is the job's if
   the job names one, and its producer the job's if the job names one.
   */
  predicate Wanted(job: Job, table: Table, id: int) {
    && id in table
    && table[id].time >= job.timeFrom && table[id].time <= job.timeTo
    && (job.eventType == "" || table[id].eventType == job.eventType)
    && (job.producer == "" || table[id].producer == job.producer)
  }

  lemma WantedIff(job: Job, table: Table, id: int)
    ensures Wanted(job, table, id) <==> id in table && Matches(job, table[id])
  {
  }

  ghost predicate Covered(p: Progress, id: int) {
    id in p.attempted || (p.status == Running && Beyond(p.last, id))
  }

  /** A candidate the page leaves out comes after everything on it. */
  lemma PageTakesSmallest(job: Job, table: Table, last: Option<int>, limit: nat, id: int)
    requires id in Candidates(job, table, last)
    ensures
      var ids := Page(job, table, last, limit);
      id in ids || (|ids| == limit && forall i :: 0 <= i < |ids| ==> ids[i] < id)
  {
    var all := Sorted(Candidates(job, table, last));
    var k :| 0 <= k < |all| && all[k] == id;
    if k < limit {
      assert |all| > limit ==> all[..limit][k] == id;
    }
  }

  lemma StepCovers(job: Job, limit: int, p: Progress, t: Turn, id: int)
    requires ProgressHolds(p) && p.status == Running && Covered(p, id)
    requires t.Turn? ==> id in t.table && Matches(job, t.table[id])
    ensures Step(job, limit, p, t).status == Running ==> Covered(Step(job, limit, p, t), id)
    ensures Step(job, limit, p, t).status == Completed ==>
              id in p.attempted || (limit == 0 && job.timeFrom <= job.timeTo)
    ensures forall k :: k in p.attempted ==> k in Step(job, limit, p, t).attempted
  {
    if t.Turn? && limit >= 0 {
      PageAdds(p, Page(job, t.table, p.last, limit), t);
      if Beyond(p.last, id) {
        PageTakesSmallest(job, t.table, p.last, limit, id);
      }
    }
  }

  lemma {:induction false} RunCovers(job: Job, limit: int, turns: seq<Turn>, id: int)
    requires (limit != 0 || job.timeFrom > job.timeTo) && AlwaysThere(job, limit, turns, id)
    ensures
      var p := After(job, limit, turns);
      (p.status == Running ==> Covered(p, id)) && (p.status == Completed ==> id in p.attempted)
  {
    if turns != [] {
      var n := |turns| - 1;
      var front := turns[..n];
      forall i | 0 <= i < |front| && Taken(job, limit, front, i) && front[i].Turn?
        ensures Wanted(job, front[i].table, id)
      {
        assert turns[..i] == front[..i];
        assert Taken(job, limit, turns, i);
      }
      RunCovers(job, limit, front, id);
      var p := After(job, limit, front);
      NoRowTwice(job, limit, front);
      if p.status == Running {
        assert Taken(job, limit, turns, n);
        assert turns[n].Turn? ==> Wanted(job, turns[n].table, id);
        StepCovers(job, limit, p, turns[n], id);
      }
    }
  }

  /**
   A completed job attempted every row that matched in all the tables it queried, in every run,
   exactly when the batch size is not zero or the time range is empty: a zero limit completes at
   once with nothing attempted.
   */
  lemma CoverageIff(job: Job, limit: int)
    ensures limit != 0 || job.timeFrom > job.timeTo <==>
            forall turns, id | After(job, limit, turns).status == Completed && AlwaysThere(job, limit, turns, id)
              :: id in After(job, limit, turns).attempted
  {
    if limit != 0 || job.timeFrom > job.timeTo {
      forall turns, id | After(job, limit, turns).status == Completed && AlwaysThere(job, limit, turns, id)
        ensures id in After(job, limit, turns).attempted
      {
        RunCovers(job, limit, turns, id);
      }
    } else {
      var table := map[7 := Row(job.timeFrom, job.eventType, job.producer)];
      var turns := [Turn(table, {}, Active, false)];
      ZeroLimit(job, turns);
      assert AlwaysThere(job, 0, turns, 7);
    }
  }

  lemma ZeroLimit(job: Job, turns: seq<Turn>)
    requires |turns| == 1 && turns[0].Turn? && !turns[0].closeFails
    ensures After(job, 0, turns).status == Completed && After(job, 0, turns).attempted == []
  {
    assert turns[..0] == [];
    assert After(job, 0, turns) == Step(job, 0, Start(), turns[0]);
    assert Page(job, turns[0].table, None, 0) == [];
  }

  lemma PageAdds(p: Progress, ids: seq<int>, t: Turn)
    requires t.Turn?
    ensures OnPage(p, ids, t).attempted == p.attempted + ids
    ensures OnPage(p, ids, t).status == Running ==> ids != [] && OnPage(p, ids, t).last == Some(ids[|ids| - 1])
    ensures OnPage(p, ids, t).status == Completed && p.status == Running ==> ids == []
  {
    AttemptCounts(p, ids, t.unpublished);
  }

  lemma StepMatching(job: Job, limit: int, p: Progress, t: Turn, id: int)
    requires id !in p.attempted && id in Step(job, limit, p, t).attempted
    ensures t.Turn? && Wanted(job, t.table, id)
  {
    if t.Turn? && limit >= 0 {
      PageAdds(p, Page(job, t.table, p.last, limit), t);
    }
  }

  /** The job queried a table in which the row met its range and filters. */
  ghost predicate WantedAt(job: Job, limit: int, turns: seq<Turn>, i: nat, id: int) {
    i < |turns| && Taken(job, limit, turns, i) && turns[i].Turn? && Wanted(job, turns[i].table, id)
  }

  lemma WantedLater(job: Job, limit: int, turns: seq<Turn>, i: nat, id: int)
    requires turns != [] && WantedAt(job, limit, turns[..|turns| - 1], i, id)
    ensures WantedAt(job, limit, turns, i, id)
  {
    assert turns[..|turns| - 1][..i] == turns[..i];
  }

  /** Only rows that met the job's range and filters in some queried table are attempted. */
  lemma {:induction false} OnlyMatching(job: Job, limit: int, turns: seq<Turn>, id: int) returns (i: nat)
    requires id in After(job, limit, turns).attempted
    ensures WantedAt(job, limit, turns, i, id)
    decreases |turns|
  {
    var n := |turns| - 1;
    var p := After(job, limit, turns[..n]);
    if id in p.attempted {
      i := OnlyMatching(job, limit, turns[..n], id);
      WantedLater(job, limit, turns, i, id);
    } else {
      i := n;
      StepMatching(job, limit, p, turns[n], id);
    }
  }

  // -------------------------------------------------------- the job row's counts

  ghost predicate RowCurrent(p: Progress) {
    p.rowReplayed == p.replayed && p.rowFailed == p.failed
  }

  /** Current unless cancelled; a cancelled job's row counts fewer rows than were attempted. */
  ghost predicate RowHolds(p: Progress) {
    && (p.status != Cancelled ==> RowCurrent(p))
    && (p.status == Cancelled ==> p.rowReplayed + p.rowFailed < p.replayed + p.failed)
  }

  /** The job row shows the true counts in every state but one: a cancelled job's row misses its last page. */
  lemma {:induction false} RowCounts(job: Job, limit: int, turns: seq<Turn>)
    ensures RowHolds(After(job, limit, turns))
  {
    if turns != [] {
      var n := |turns| - 1;
      var p := After(job, limit, turns[..n]);
      RowCounts(job, limit, turns[..n]);
      if p.status == Running {
        StepRow(job, limit, p, turns[n]);
      }
    }
  }

  lemma PageRow(p: Progress, ids: seq<int>, t: Turn)
    requires t.Turn? && p.status == Running && RowCurrent(p)
    ensures RowHolds(OnPage(p, ids, t))
  {
    AttemptCounts(p, ids, t.unpublished);
  }

  lemma StepRow(job: Job, limit: int, p: Progress, t: Turn)
    requires p.status == Running && RowCurrent(p)
    ensures RowHolds(Step(job, limit, p, t))
  {
    if t.Turn? && limit >= 0 {
      PageRow(p, Page(job, t.table, p.last, limit), t);
    }
  }

  // --------------------------------------------------------------- the loop

  /** The inner loop over a page. */
  method AttemptPage(p0: Progress, ids: seq<int>, unpublished: set<int>) returns (p: Progress)
    ensures p == Attempt(p0, ids, unpublished)
  {
    p := p0;
    for i := 0 to |ids|
      invariant p == Attempt(p0, ids[..i], unpublished)
    {
      var id := ids[i];
      assert ids[..i + 1][..i] == ids[..i];
      p := p.(last := Some(id), attempted := p.attempted + [id]);
      if id in unpublished {
        p := p.(failed := p.failed + 1);
      } else {
        p := p.(replayed := p.replayed + 1);
      }
    }
    assert ids[..|ids|] == ids;
  }

  /** One turn of the outer loop. */
  method TakeTurn(job: Job, batchSize: int, p0: Progress, t: Turn) returns (p: Progress)
    ensures p == Step(job, batchSize, p0, t)
  {
    if t.QueryError? || batchSize < 0 {
      return Close(p0, Failed);
    }
    var rows := Page(job, t.table, p0.last, batchSize);
    if rows == [] {
      return Close(p0, if t.closeFails then Failed else Completed);
    }
    p := AttemptPage(p0, rows, t.unpublished);
    if t.check == Cancel || t.check == Gone {
      p := p.(status := Cancelled);
    } else if t.check == ReadError {
      p := Close(p, Failed);
    } else {
      p := Close(p, Running);
    }
  }

  /** `run_replay_job`, until the turns given are used up or the job ends. */
  method RunReplayJob(job: Job, batchSize: int, turns: seq<Turn>) returns (p: Progress)
    ensures p == After(job, batchSize, turns)
  {
    p := Start();
    var i := 0;
    while i < |turns| && p.status == Running
      invariant 0 <= i <= |turns| && p == After(job, batchSize, turns[..i])
    {
      assert turns[..i + 1][..i] == turns[..i];
      p := TakeTurn(job, batchSize, p, turns[i]);
      i := i + 1;
    }
    Finished(job, batchSize, turns, i);
  }

  lemma {:induction false} Finished(job: Job, limit: int, turns: seq<Turn>, i: nat)
    requires i <= |turns| && (i == |turns| || After(job, limit, turns[..i]).status != Running)
    ensures After(job, limit, turns) == After(job, limit, turns[..i])
    decreases |turns|
  {
    if i == |turns| {
      assert turns[..i] == turns;
    } else {
      var front := turns[..|turns| - 1];
      assert front[..i] == turns[..i];
      Finished(job, limit, front, i);
    }
  }
}
