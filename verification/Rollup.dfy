/**
 Hourly rollups recomputed in batch: read the events of a window, group them by type,
 region and hour, delete the window's rows from the target table, append the new ones.
 Times are microseconds since the epoch, in UTC.
 */
module Rollup {
  import opened Prelude

  const HOUR: int := 3_600_000_000

  datatype Event = Event(time: int, eventType: string, region: Option<string>, correlation: string,
                         user: Option<string>, amount: Option<real>, late: bool, replay: bool)

  datatype Key = Key(eventType: string, region: string, hour: int)

  datatype Row = Row(count: nat, correlations: nat, users: nat, total: real, avg: real, late: nat, replays: nat)

  datatype Window = Window(from: int, to: int)

  /** The table has a unique constraint on its key, so it is a map. */
  type Table = map<Key, Row>

  function Trunc(t: int): int {
    t - t % HOUR
  }

  function KeyOf(e: Event): Key {
    Key(e.eventType, if e.region.Some? then e.region.value else "unknown", Trunc(e.time))
  }

  // ------------------------------------------------------------- group by

  predicate InWindow(w: Window, e: Event) {
    w.from <= e.time < w.to
  }

  /** The events of the window with key `k`, in table order. */
  function Group(es: seq<Event>, w: Window, k: Key): seq<Event> {
    if es == [] then []
    else
      var e := es[|es| - 1];
      Group(es[..|es| - 1], w, k) + if InWindow(w, e) && KeyOf(e) == k then [e] else []
  }

  function Amounts(g: seq<Event>): seq<real> {
    if g == [] then []
    else Amounts(g[..|g| - 1]) + if g[|g| - 1].amount.Some? then [g[|g| - 1].amount.value] else []
  }

  function Sum(xs: seq<real>): real {
    if xs == [] then 0.0 else Sum(xs[..|xs| - 1]) + xs[|xs| - 1]
  }

  function Correlations(g: seq<Event>): set<string> {
    set i | 0 <= i < |g| :: g[i].correlation
  }

  function Users(g: seq<Event>): set<string> {
    set i | 0 <= i < |g| && g[i].user.Some? :: g[i].user.value
  }

  function Late(g: seq<Event>): nat {
    if g == [] then 0 else Late(g[..|g| - 1]) + if g[|g| - 1].late then 1 else 0
  }

  function Replays(g: seq<Event>): nat {
    if g == [] then 0 else Replays(g[..|g| - 1]) + if g[|g| - 1].replay then 1 else 0
  }

  /** The aggregate expressions over one group. */
  function RowOf(g: seq<Event>): Row {
    var amounts := Amounts(g);
    Row(|g|, |Correlations(g)|, |Users(g)|, Sum(amounts),
        if amounts == [] then 0.0 else Sum(amounts) / |amounts| as real, Late(g), Replays(g))
  }

  function Keys(es: seq<Event>, w: Window): set<Key> {
    set i | 0 <= i < |es| && InWindow(w, es[i]) :: KeyOf(es[i])
  }

  /** One row for each key that occurs in the window. */
  function Aggregate(es: seq<Event>, w: Window): Table {
    map k | k in Keys(es, w) :: RowOf(Group(es, w, k))
  }

  // ------------------------------------------------------ what a row stands for

  /**
   The event belongs to the row with this key: it lies in the window and in the key's whole hour, has its type, and
   its region, or no region where the key says "unknown".
   */
  predicate Belongs(w: Window, k: Key, e: Event) {
    && w.from <= e.time < w.to
    && k.hour % 3_600_000_000 == 0 && k.hour <= e.time < k.hour + 3_600_000_000
    && k.eventType == e.eventType
    && (e.region == Some(k.region) || (e.region == None && k.region == "unknown"))
  }

  lemma BelongsIff(w: Window, k: Key, e: Event)
    ensures Belongs(w, k, e) <==> InWindow(w, e) && KeyOf(e) == k
  {
    var q := e.time / HOUR;
    assert e.time == HOUR * q + e.time % HOUR && Trunc(e.time) == HOUR * q;
    if Belongs(w, k, e) {
      assert k.hour == HOUR * (k.hour / HOUR);
    }
  }

  /** The rollup has a row for a key exactly when some event belongs to it. */
  lemma RowIff(es: seq<Event>, w: Window, k: Key)
    ensures k in Aggregate(es, w) <==> exists i :: 0 <= i < |es| && Belongs(w, k, es[i])
  {
    forall i | 0 <= i < |es| ensures Belongs(w, k, es[i]) <==> InWindow(w, es[i]) && KeyOf(es[i]) == k {
      BelongsIff(w, k, es[i]);
    }
  }

  /** Its group is those events, in table order. */
  lemma {:induction false} GroupIs(es: seq<Event>, w: Window, k: Key)
    ensures Group(es, w, k) == Chosen(es, w, k)
  {
    if es != [] {
      GroupIs(es[..|es| - 1], w, k);
      BelongsIff(w, k, es[|es| - 1]);
    }
  }

  function Chosen(es: seq<Event>, w: Window, k: Key): seq<Event> {
    if es == [] then []
    else
      var e := es[|es| - 1];
      Chosen(es[..|es| - 1], w, k) + if Belongs(w, k, e) then [e] else []
  }

  ghost predicate HasCorrelation(g: seq<Event>, c: string) {
    exists i :: 0 <= i < |g| && g[i].correlation == c
  }

  ghost predicate HasUser(g: seq<Event>, u: string) {
    exists i :: 0 <= i < |g| && g[i].user == Some(u)
  }

  /**
   The fields of a row: its events; its different correlation ids; its different users, missing ones not
   counted; and an average that times the number of amounts gives their total, zero without any.
   */
  lemma RowMeans(g: seq<Event>, correlations: set<string>, users: set<string>)
    requires forall c :: c in correlations <==> HasCorrelation(g, c)
    requires forall u :: u in users <==> HasUser(g, u)
    ensures
      var row := RowOf(g);
      && row.count == |g| && row.correlations == |correlations| && row.users == |users|
      && row.avg * |Amounts(g)| as real == row.total && (Amounts(g) == [] ==> row.avg == 0.0 && row.total == 0.0)
  {
    assert Correlations(g) == correlations;
    assert Users(g) == users;
    var n, total := |Amounts(g)|, Sum(Amounts(g));
    if n > 0 {
      assert (total / n as real) * n as real == total;
    }
  }

  // ------------------------------------------------------------------ runs

  /** How far a run got: before the delete, after it, after appending some rows, or to the end. */
  datatype Reached = NotStarted | Deleted | Appended(keys: set<Key>) | Finished

  datatype Run = Run(window: Window, reached: Reached)

  /** The hours a delete clears. */
  predicate Touches(w: Window, hour: int) {
    Trunc(w.from) <= hour < w.to
  }

  function DeleteWindow(table: Table, w: Window): Table {
    map k | k in table && !Touches(w, k.hour) :: table[k]
  }

  function Apply(es: seq<Event>, table: Table, run: Run): Table {
    match run.reached
    case NotStarted => table
    case Deleted => DeleteWindow(table, run.window)
    case Appended(keys) => DeleteWindow(table, run.window) + Part(Aggregate(es, run.window), keys)
    case Finished => DeleteWindow(table, run.window) + Aggregate(es, run.window)
  }

  function After(es: seq<Event>, table: Table, runs: seq<Run>): Table {
    if runs == [] then table else Apply(es, After(es, table, runs[..|runs| - 1]), runs[|runs| - 1])
  }

  // --------------------------------------------------------- delete and append

  lemma TruncMonotone(a: int, b: int)
    requires a <= b
    ensures Trunc(a) <= Trunc(b) <= b < Trunc(b) + HOUR
  {
  }

  /** The deleted range covers every hour the run inserts into, whatever the window. */
  lemma DeleteCoversInserts(es: seq<Event>, w: Window, k: Key)
    requires k in Aggregate(es, w)
    ensures Touches(w, k.hour)
  {
    var i :| 0 <= i < |es| && InWindow(w, es[i]) && KeyOf(es[i]) == k;
    TruncMonotone(w.from, es[i].time);
  }

  /** So the append never meets the unique constraint. */
  lemma AppendNeverConflicts(es: seq<Event>, table: Table, w: Window)
    ensures DeleteWindow(table, w).Keys !! Aggregate(es, w).Keys
  {
    forall k | k in Aggregate(es, w) ensures k !in DeleteWindow(table, w) {
      DeleteCoversInserts(es, w, k);
    }
  }

  /** The rows of `t` at `hour` are those of `u`. */
  ghost predicate SameAt(t: Table, u: Table, hour: int) {
    forall k: Key :: k.hour == hour ==> (k in t <==> k in u) && (k in t ==> t[k] == u[k])
  }

  lemma Untouched(es: seq<Event>, table: Table, run: Run, hour: int)
    requires run.reached == NotStarted || !Touches(run.window, hour)
    ensures SameAt(Apply(es, table, run), table, hour)
  {
    forall k | k in Aggregate(es, run.window) ensures Touches(run.window, k.hour) {
      DeleteCoversInserts(es, run.window, k);
    }
  }

  lemma FinishedHour(es: seq<Event>, table: Table, run: Run, hour: int)
    requires run.reached == Finished && Touches(run.window, hour)
    ensures SameAt(Apply(es, table, run), Aggregate(es, run.window), hour)
  {
  }

  /** The last run that cleared `hour` was `runs[n]`. */
  ghost predicate LastTouch(runs: seq<Run>, hour: int, n: nat) {
    && n < |runs| && runs[n].reached != NotStarted && Touches(runs[n].window, hour)
    && forall m :: n < m < |runs| ==> runs[m].reached == NotStarted || !Touches(runs[m].window, hour)
  }

  /**
   Whatever ran before, was repeated, overlapped or died half way: if the last run to clear an hour
   finished, the hour holds exactly that run's rows.
   */
  lemma {:induction false} LastRunWins(es: seq<Event>, table: Table, runs: seq<Run>, hour: int, n: nat)
    requires LastTouch(runs, hour, n) && runs[n].reached == Finished
    ensures SameAt(After(es, table, runs), Aggregate(es, runs[n].window), hour)
    decreases |runs|
  {
    var last := |runs| - 1;
    var before := After(es, table, runs[..last]);
    if n == last {
      FinishedHour(es, before, runs[last], hour);
    } else {
      assert forall m :: n < m < last ==> runs[..last][m] == runs[m];
      LastRunWins(es, table, runs[..last], hour, n);
      Untouched(es, before, runs[last], hour);
    }
  }

  /** Running the same window again changes nothing. */
  lemma Idempotent(es: seq<Event>, table: Table, w: Window)
    ensures
      var once := Apply(es, table, Run(w, Finished));
      Apply(es, once, Run(w, Finished)) == once
  {
    ClearedTheSame(es, table, w, Finished);
  }

  /** A run repeated after dying at any point leaves the table of one undisturbed run. */
  lemma RerunRepairs(es: seq<Event>, table: Table, w: Window, reached: Reached)
    ensures Apply(es, Apply(es, table, Run(w, reached)), Run(w, Finished)) == Apply(es, table, Run(w, Finished))
  {
    ClearedTheSame(es, table, w, reached);
  }

  lemma ClearedTheSame(es: seq<Event>, table: Table, w: Window, reached: Reached)
    ensures DeleteWindow(Apply(es, table, Run(w, reached)), w) == DeleteWindow(table, w)
  {
    var died := Apply(es, table, Run(w, reached));
    forall k: Key | !Touches(w, k.hour) ensures (k in died <==> k in table) && (k in died ==> died[k] == table[k]) {
      Untouched(es, table, Run(w, reached), k.hour);
      assert SameAt(died, table, k.hour);
    }
  }

  // ---------------------------------------------------- whole hours and alignment

  function WholeHour(hour: int): Window {
    Window(hour, hour + HOUR)
  }

  predicate IsHour(h: int) {
    h % HOUR == 0
  }

  predicate Covers(w: Window, hour: int) {
    w.from <= hour && hour + HOUR <= w.to
  }

  lemma {:induction false} SameGroup(es: seq<Event>, w: Window, k: Key)
    requires IsHour(k.hour)
    requires forall i :: 0 <= i < |es| && Trunc(es[i].time) == k.hour ==> InWindow(w, es[i])
    ensures Group(es, w, k) == Group(es, WholeHour(k.hour), k)
  {
    if es != [] {
      var n := |es| - 1;
      forall i | 0 <= i < n && Trunc(es[..n][i].time) == k.hour ensures InWindow(w, es[..n][i]) {
        assert es[..n][i] == es[i];
      }
      SameGroup(es[..n], w, k);
      TruncMonotone(es[n].time, es[n].time);
    }
  }

  lemma SameKey(es: seq<Event>, w: Window, k: Key)
    requires IsHour(k.hour)
    requires forall i :: 0 <= i < |es| && Trunc(es[i].time) == k.hour ==> InWindow(w, es[i])
    ensures k in Keys(es, w) <==> k in Keys(es, WholeHour(k.hour))
  {
    forall i | 0 <= i < |es| && KeyOf(es[i]) == k ensures InWindow(w, es[i]) && InWindow(WholeHour(k.hour), es[i]) {
      TruncMonotone(es[i].time, es[i].time);
    }
  }

  /** The run's rows for an hour are the hour's own group-by, when the window holds all the hour's events. */
  lemma HourExact(es: seq<Event>, w: Window, hour: int)
    requires IsHour(hour)
    requires forall i :: 0 <= i < |es| && Trunc(es[i].time) == hour ==> InWindow(w, es[i])
    ensures SameAt(Aggregate(es, w), Aggregate(es, WholeHour(hour)), hour)
  {
    forall k: Key | k.hour == hour
      ensures k in Keys(es, w) <==> k in Keys(es, WholeHour(hour))
      ensures Group(es, w, k) == Group(es, WholeHour(hour), k)
    {
      SameKey(es, w, k);
      SameGroup(es, w, k);
    }
  }

  /** For every event table the run's rows of an hour are the hour's own exactly when the window covers the hour. */
  lemma CoversIffExact(w: Window, hour: int)
    requires IsHour(hour)
    ensures Covers(w, hour) <==> forall es :: SameAt(Aggregate(es, w), Aggregate(es, WholeHour(hour)), hour)
  {
    if Covers(w, hour) {
      forall es: seq<Event> ensures SameAt(Aggregate(es, w), Aggregate(es, WholeHour(hour)), hour) {
        forall i | 0 <= i < |es| && Trunc(es[i].time) == hour ensures InWindow(w, es[i]) {
          TruncMonotone(es[i].time, es[i].time);
        }
        HourExact(es, w, hour);
      }
    } else {
      var t := if w.from > hour then hour else hour + HOUR - 1;
      assert hour <= t < hour + HOUR && !(w.from <= t < w.to);
      MissedEvent(w, hour, t);
    }
  }

  lemma TruncInHour(hour: int, t: int)
    requires IsHour(hour) && hour <= t < hour + HOUR
    ensures Trunc(t) == hour
  {
    var p := hour / HOUR;
    assert hour == HOUR * p;
    assert t % HOUR == (t - hour) % HOUR;
  }

  lemma MissedEvent(w: Window, hour: int, t: int)
    requires IsHour(hour) && hour <= t < hour + HOUR && !(w.from <= t < w.to)
    ensures exists es :: !SameAt(Aggregate(es, w), Aggregate(es, WholeHour(hour)), hour)
  {
    var e := Event(t, "e", None, "c", None, None, false, false);
    var es := [e];
    TruncInHour(hour, t);
    assert KeyOf(es[0]) in Keys(es, WholeHour(hour));
    assert KeyOf(e) !in Keys(es, w);
    assert KeyOf(e) in Aggregate(es, WholeHour(hour)) && KeyOf(e) !in Aggregate(es, w);
    assert !SameAt(Aggregate(es, w), Aggregate(es, WholeHour(hour)), hour);
  }

  predicate Aligned(w: Window) {
    IsHour(w.from) && IsHour(w.to)
  }

  /** A window covers every hour it clears exactly when both its ends are on the hour. */
  lemma AlignedIff(w: Window)
    requires w.from < w.to
    ensures Aligned(w) <==> forall hour :: IsHour(hour) && Touches(w, hour) ==> Covers(w, hour)
  {
    if Aligned(w) {
      forall hour | IsHour(hour) && Touches(w, hour) ensures Covers(w, hour) {
        AlignedGap(hour, w.to);
      }
    } else {
      TruncMonotone(w.from, w.from);
      TruncMonotone(w.from, w.to - 1);
      TruncIsHour(w.from);
      TruncIsHour(w.to - 1);
      var first, final := Trunc(w.from), Trunc(w.to - 1);
      assert Touches(w, first) && Touches(w, final);
      if Covers(w, first) && Covers(w, final) {
        NextHour(final);
      }
    }
  }

  lemma TruncIsHour(t: int)
    ensures IsHour(Trunc(t))
  {
    assert Trunc(t) == HOUR * (t / HOUR);
  }

  lemma NextHour(h: int)
    requires IsHour(h)
    ensures IsHour(h + HOUR)
  {
  }

  lemma AlignedGap(a: int, b: int)
    requires IsHour(a) && IsHour(b) && a < b
    ensures a + HOUR <= b
  {
    assert a == HOUR * (a / HOUR) && b == HOUR * (b / HOUR);
  }

  /**
   Over an unchanged event table, any sequence of aligned windows, overlapping, repeated, reordered or
   broken off: every hour whose last clearing run finished holds exactly that hour's group-by rows.
   */
  lemma RecomputationIsExact(es: seq<Event>, table: Table, runs: seq<Run>, hour: int, n: nat)
    requires IsHour(hour) && LastTouch(runs, hour, n) && runs[n].reached == Finished && Aligned(runs[n].window)
    ensures SameAt(After(es, table, runs), Aggregate(es, WholeHour(hour)), hour)
  {
    LastRunWins(es, table, runs, hour, n);
    var w := runs[n].window;
    if w.from < w.to {
      AlignedIff(w);
    } else {
      AlignedIffEmpty(w, hour);
    }
    CoversIffExact(w, hour);
    assert SameAt(Aggregate(es, w), Aggregate(es, WholeHour(hour)), hour);
  }

  lemma AlignedIffEmpty(w: Window, hour: int)
    requires Aligned(w) && w.from >= w.to
    ensures !Touches(w, hour)
  {
  }

  /** The hours some run covers, when all finish with aligned windows, fix the table whatever their order. */
  lemma OrderDoesNotMatter(es: seq<Event>, a: seq<Run>, b: seq<Run>, hour: int, n: nat, m: nat)
    requires IsHour(hour) && LastTouch(a, hour, n) && a[n].reached == Finished && Aligned(a[n].window)
    requires LastTouch(b, hour, m) && b[m].reached == Finished && Aligned(b[m].window)
    ensures forall t, u :: SameAt(After(es, t, a), After(es, u, b), hour)
  {
    forall t: Table, u: Table ensures SameAt(After(es, t, a), After(es, u, b), hour) {
      RecomputationIsExact(es, t, a, hour, n);
      RecomputationIsExact(es, u, b, hour, m);
    }
  }

  /** A window off the hour, such as the default "the last 24 hours", wipes a complete row of its first hour. */
  lemma UnalignedRunLosesRows() returns (es: seq<Event>, runs: seq<Run>, k: Key)
    ensures |runs| == 2 && runs[0].reached == Finished && runs[1].reached == Finished
    ensures k in Aggregate(es, WholeHour(k.hour)) && k in After(es, map[], runs[..1]) && k !in After(es, map[], runs)
  {
    es := [Event(10, "e", None, "c", None, None, false, false)];
    var w, v := Window(0, HOUR), Window(20, HOUR + 20);
    runs := [Run(w, Finished), Run(v, Finished)];
    k := KeyOf(es[0]);
    assert k.hour == 0;
    assert k in Keys(es, w) && k !in Keys(es, v);
    LastRunWins(es, map[], runs[..1], 0, 0);
    assert SameAt(After(es, map[], runs[..1]), Aggregate(es, w), 0);
    LastRunWins(es, map[], runs, 0, 1);
    assert SameAt(After(es, map[], runs), Aggregate(es, v), 0);
  }

  // ------------------------------------------------------------ conservation

  /** The sum of a measure over the groups of some keys. */
  ghost function SumGroups(es: seq<Event>, w: Window, ks: set<Key>, m: seq<Event> -> real): real {
    if ks == {} then 0.0
    else
      var k :| k in ks;
      m(Group(es, w, k)) + SumGroups(es, w, ks - {k}, m)
  }

  lemma {:induction false} SumPick(es: seq<Event>, w: Window, ks: set<Key>, m: seq<Event> -> real, k: Key)
    requires k in ks
    ensures SumGroups(es, w, ks, m) == m(Group(es, w, k)) + SumGroups(es, w, ks - {k}, m)
    decreases |ks|
  {
    var c: Key :| c in ks && SumGroups(es, w, ks, m) == m(Group(es, w, c)) + SumGroups(es, w, ks - {c}, m);
    if c != k {
      SumPick(es, w, ks - {c}, m, k);
      SumPick(es, w, ks - {k}, m, c);
      assert ks - {c} - {k} == ks - {k} - {c};
    }
  }

  lemma {:induction false} SumSame(es: seq<Event>, fs: seq<Event>, w: Window, ks: set<Key>, m: seq<Event> -> real)
    requires forall k :: k in ks ==> Group(es, w, k) == Group(fs, w, k)
    ensures SumGroups(es, w, ks, m) == SumGroups(fs, w, ks, m)
    decreases |ks|
  {
    if ks != {} {
      var c :| c in ks;
      SumPick(es, w, ks, m, c);
      SumPick(fs, w, ks, m, c);
      SumSame(es, fs, w, ks - {c}, m);
    }
  }

  lemma KeysSnoc(es: seq<Event>, w: Window, e: Event)
    ensures Keys(es + [e], w) == if InWindow(w, e) then Keys(es, w) + {KeyOf(e)} else Keys(es, w)
  {
    var all := es + [e];
    forall k | k in Keys(es, w) ensures k in Keys(all, w) {
      var i :| 0 <= i < |es| && InWindow(w, es[i]) && KeyOf(es[i]) == k;
      assert all[i] == es[i];
    }
    assert all[|es|] == e;
  }

  lemma {:induction false} NoKeyNoGroup(es: seq<Event>, w: Window, k: Key)
    requires k !in Keys(es, w)
    ensures Group(es, w, k) == []
  {
    if es != [] {
      var n := |es| - 1;
      assert es == es[..n] + [es[n]];
      KeysSnoc(es[..n], w, es[n]);
      NoKeyNoGroup(es[..n], w, k);
    }
  }

  /** The measure of each event that the window holds. */
  ghost function Measured(es: seq<Event>, w: Window, d: Event -> real): real {
    if es == [] then 0.0
    else Measured(es[..|es| - 1], w, d) + if InWindow(w, es[|es| - 1]) then d(es[|es| - 1]) else 0.0
  }

  ghost predicate Additive(m: seq<Event> -> real, d: Event -> real) {
    m([]) == 0.0 && forall g, e :: m(g + [e]) == m(g) + d(e)
  }

  lemma SumAddKey(es: seq<Event>, w: Window, ks: set<Key>, m: seq<Event> -> real, k: Key)
    requires m([]) == 0.0 && ks == Keys(es, w)
    ensures SumGroups(es, w, ks + {k}, m) == SumGroups(es, w, ks, m)
  {
    if k !in ks {
      NoKeyNoGroup(es, w, k);
      SumPick(es, w, ks + {k}, m, k);
      assert ks + {k} - {k} == ks;
    } else {
      assert ks + {k} == ks;
    }
  }

  /**
   Conservation: summed over the rollup's rows, an additive measure of the groups gives the
   measure of the window's events. Every event is counted in exactly one row.
   */
  lemma {:induction false} Conservation(es: seq<Event>, w: Window, m: seq<Event> -> real, d: Event -> real)
    requires Additive(m, d)
    ensures SumGroups(es, w, Keys(es, w), m) == Measured(es, w, d)
  {
    if es == [] {
      assert Keys(es, w) == {};
    } else {
      var n := |es| - 1;
      var front, e := es[..n], es[n];
      assert es == front + [e];
      Conservation(front, w, m, d);
      KeysSnoc(front, w, e);
      if InWindow(w, e) {
        AddedEvent(front, w, e, m, d);
      } else {
        SumSame(es, front, w, Keys(front, w), m);
      }
    }
  }

  lemma AddedEvent(front: seq<Event>, w: Window, e: Event, m: seq<Event> -> real, d: Event -> real)
    requires Additive(m, d) && InWindow(w, e)
    ensures SumGroups(front + [e], w, Keys(front, w) + {KeyOf(e)}, m) == SumGroups(front, w, Keys(front, w), m) + d(e)
  {
    var es, k := front + [e], KeyOf(e);
    var ks := Keys(front, w) + {k};
    assert es[..|front|] == front;
    SumAddKey(front, w, Keys(front, w), m, k);
    SumPick(es, w, ks, m, k);
    SumPick(front, w, ks, m, k);
    SumSame(es, front, w, ks - {k}, m);
    assert Group(es, w, k) == Group(front, w, k) + [e];
  }

  function Counted(g: seq<Event>): real {
    RowOf(g).count as real
  }

  function Totalled(g: seq<Event>): real {
    RowOf(g).total
  }

  function LateCounted(g: seq<Event>): real {
    RowOf(g).late as real
  }

  function ReplayCounted(g: seq<Event>): real {
    RowOf(g).replays as real
  }

  function LateOf(e: Event): real {
    if e.late then 1.0 else 0.0
  }

  function ReplayOf(e: Event): real {
    if e.replay then 1.0 else 0.0
  }

  function AmountOf(e: Event): real {
    if e.amount.Some? then e.amount.value else 0.0
  }

  lemma TotalledSnoc(g: seq<Event>, e: Event)
    ensures Totalled(g + [e]) == Totalled(g) + AmountOf(e)
  {
    assert (g + [e])[..|g|] == g;
    var xs := Amounts(g);
    if e.amount.Some? {
      var ys := xs + [e.amount.value];
      assert Amounts(g + [e]) == ys;
      assert ys[..|ys| - 1] == xs;
    } else {
      assert Amounts(g + [e]) == xs;
    }
  }

  /** Event counts add up to the events read, and amounts to the amounts read. */
  lemma CountsAndTotalsConserved(es: seq<Event>, w: Window)
    ensures SumGroups(es, w, Keys(es, w), Counted) == Measured(es, w, e => 1.0)
    ensures SumGroups(es, w, Keys(es, w), Totalled) == Measured(es, w, AmountOf)
    ensures SumGroups(es, w, Keys(es, w), LateCounted) == Measured(es, w, LateOf)
    ensures SumGroups(es, w, Keys(es, w), ReplayCounted) == Measured(es, w, ReplayOf)
  {
    forall g: seq<Event>, e: Event ensures LateCounted(g + [e]) == LateCounted(g) + LateOf(e) {
      assert (g + [e])[..|g|] == g;
    }
    Conservation(es, w, LateCounted, LateOf);
    forall g: seq<Event>, e: Event ensures ReplayCounted(g + [e]) == ReplayCounted(g) + ReplayOf(e) {
      assert (g + [e])[..|g|] == g;
    }
    Conservation(es, w, ReplayCounted, ReplayOf);
    Conservation(es, w, Counted, e => 1.0);
    forall g: seq<Event>, e: Event ensures Totalled(g + [e]) == Totalled(g) + AmountOf(e) {
      TotalledSnoc(g, e);
    }
    Conservation(es, w, Totalled, AmountOf);
  }

  // ------------------------------------------------------------------ the job

  /** The target table and the job's two statements on it. */
  class RollupJob {
    var rows: Table

    constructor (initial: Table)
      ensures rows == initial
    {
      rows := initial;
    }

    method Delete(w: Window)
      modifies this
      ensures rows == DeleteWindow(old(rows), w)
    {
      rows := map k | k in rows && !(Trunc(w.from) <= k.hour < w.to) :: rows[k];
    }

    /**
     Append row by row, in any order, until a key is already there or the job dies after `limit` rows.
     `done` are the keys inserted.
     */
    method Append(added: Table, limit: nat) returns (conflict: bool, ghost done: set<Key>)
      modifies this
      ensures done <= added.Keys && done !! old(rows).Keys && rows == old(rows) + Part(added, done)
      ensures conflict ==> exists k :: k in added && k in old(rows)
      ensures !conflict && limit >= |added| ==> done == added.Keys
    {
      conflict, done := false, {};
      var rest := added.Keys;
      var n := 0;
      while rest != {} && n < limit
        invariant rest <= added.Keys && done == added.Keys - rest && n + |rest| == |added.Keys|
        invariant done !! old(rows).Keys && rows == old(rows) + Part(added, done)
      {
        var k :| k in rest;
        if k in rows {
          conflict := true;
          return;
        }
        rows := rows[k := added[k]];
        PartMore(old(rows), added, done, k);
        rest, done, n := rest - {k}, done + {k}, n + 1;
      }
    }

    /**
     The job over one window, which may die after any number of inserted rows: the append never meets the unique
     key, and the table is the one the run it stands for leaves; with room for all rows the run is a finished one.
     */
    method RunWindow(es: seq<Event>, w: Window, limit: nat) returns (conflict: bool, ghost reached: Reached)
      modifies this
      ensures !conflict && rows == Apply(es, old(rows), Run(w, reached))
      ensures limit >= |Aggregate(es, w)| ==> reached == Finished
    {
      ghost var before := rows;
      var rollups := Aggregate(es, w);
      Delete(w);
      ghost var done;
      conflict, done := Append(rollups, limit);
      NoCommonKey(es, before, w);
      reached := ReachedBy(rollups, done);
      RunReached(es, before, w, done);
    }
  }

  /** The rows of some keys. */
  function Part(t: Table, keys: set<Key>): Table {
    map k | k in t && k in keys :: t[k]
  }

  lemma PartMore(before: Table, added: Table, done: set<Key>, k: Key)
    requires k in added
    ensures (before + Part(added, done))[k := added[k]] == before + Part(added, done + {k})
  {
  }

  /** How far a run got that inserted these keys. */
  ghost function ReachedBy(rollups: Table, done: set<Key>): Reached {
    if done == rollups.Keys then Finished else Appended(done)
  }

  lemma RunReached(es: seq<Event>, before: Table, w: Window, done: set<Key>)
    requires done <= Aggregate(es, w).Keys
    ensures DeleteWindow(before, w) + Part(Aggregate(es, w), done) ==
            Apply(es, before, Run(w, ReachedBy(Aggregate(es, w), done)))
  {
    PartAll(Aggregate(es, w));
  }

  lemma PartAll(t: Table)
    ensures Part(t, t.Keys) == t
  {
  }

  lemma NoCommonKey(es: seq<Event>, before: Table, w: Window)
    ensures forall k :: k in Aggregate(es, w) ==> k !in DeleteWindow(before, w)
  {
    AppendNeverConflicts(es, before, w);
  }
}
