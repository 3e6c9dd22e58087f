/**
 From the events to the answer of `/top`: what the endpoint sums out of the stored rows, against
 the total weight of the accepted events.
 */
module TopEndpoint {
  import opened Prelude
  import opened EventTime
  import opened SortedSets
  import opened Metrics
  import opened Analytics
  import opened AnalyticsRuns
  import opened AnalyticsRows
  import TopN

  type Entries = seq<(string, real)>

  /** `(extra or {}).get("top", [])` of a minute's row. */
  function TopAt(rows: map<Time, Row>, b: Time, name: string): Entries {
    if b in rows && name in rows[b] then rows[b][name].top else []
  }

  /** What the entries of one list add to a key. */
  function EntrySum(top: Entries, key: string): real {
    if top == [] then 0.0
    else EntrySum(top[..|top| - 1], key) + if top[|top| - 1].0 == key then top[|top| - 1].1 else 0.0
  }

  function EntryTotal(rows: map<Time, Row>, name: string, bs: seq<Time>, key: string): real {
    if bs == [] then 0.0
    else EntryTotal(rows, name, bs[..|bs| - 1], key) + EntrySum(TopAt(rows, bs[|bs| - 1], name), key)
  }

  /** The inner loop of the endpoint. */
  method AddEntries(before: map<string, real>, top: Entries) returns (agg: map<string, real>)
    ensures forall key :: Get(agg, key) == Get(before, key) + EntrySum(top, key)
  {
    agg := before;
    for j := 0 to |top|
      invariant forall key :: Get(agg, key) == Get(before, key) + EntrySum(top[..j], key)
    {
      assert top[..j + 1][..j] == top[..j];
      agg := agg[top[j].0 := Get(agg, top[j].0) + top[j].1];
    }
    assert top[..|top|] == top;
  }

  /** The endpoint's loop over the rows of a metric. */
  method SumRows(rows: map<Time, Row>, name: string, bs: seq<Time>) returns (agg: map<string, real>)
    ensures forall key :: Get(agg, key) == EntryTotal(rows, name, bs, key)
  {
    agg := map[];
    for i := 0 to |bs|
      invariant forall key :: Get(agg, key) == EntryTotal(rows, name, bs[..i], key)
    {
      assert bs[..i + 1][..i] == bs[..i];
      agg := AddEntries(agg, TopAt(rows, bs[i], name));
    }
    assert bs[..|bs|] == bs;
  }

  // ----------------------------------------------------------- lists to scores

  lemma {:induction false} PairsSum(scores: map<string, real>, keys: seq<string>, key: string)
    requires forall i, j :: 0 <= i < j < |keys| ==> keys[i] != keys[j]
    ensures EntrySum(Pairs(scores, keys), key) == if key in keys then Get(scores, key) else 0.0
  {
    if keys != [] {
      var n := |keys| - 1;
      PairsSum(scores, keys[..n], key);
      assert Pairs(scores, keys)[..n] == Pairs(scores, keys[..n]);
      assert keys == keys[..n] + [keys[n]];
    }
  }

  /** A stored list gives a key what the truncated list of its scores gives it. */
  lemma ListedSum(scores: map<string, real>, key: string)
    ensures EntrySum(TopSample(scores).top, key) == TopN.Listed(scores, key)
  {
    TopN.TopKeysCorrect(scores, scores.Keys, TopN.LIST_SIZE);
    PairsSum(scores, TopN.Top(scores, TopN.LIST_SIZE), key);
  }

  /** The scores of each minute. */
  function Minutes(def: MetricDef, es: seq<Event>, bs: seq<Time>): (ms: seq<map<string, real>>)
    ensures |ms| == |bs| && forall j :: 0 <= j < |bs| ==> ms[j] == ScoresOf(def, es, bs[j])
  {
    seq(|bs|, j requires 0 <= j < |bs| => ScoresOf(def, es, bs[j]))
  }

  /** The row of every minute is the group-by of the events, and the metric has one. */
  ghost predicate Holds(catalog: Catalog, es: seq<Event>, i: nat, rows: map<Time, Row>, bs: seq<Time>)
    requires i < |catalog|
  {
    && UniqueNames(catalog) && catalog[i].kind.TopCount?
    && !IsDerived(catalog[i].name) && !Internal(catalog[i].name)
    && forall j :: 0 <= j < |bs| ==> bs[j] in rows && rows[bs[j]] == GroupByRow(catalog, es, bs[j])
  }

  /** Minute by minute, the endpoint's sum is the sum of the truncated lists. */
  lemma {:induction false} SumsAgree(rows: map<Time, Row>, name: string, bs: seq<Time>, ms: seq<map<string, real>>,
                                     key: string)
    requires |ms| == |bs|
    requires forall j :: 0 <= j < |bs| ==> EntrySum(TopAt(rows, bs[j], name), key) == TopN.Listed(ms[j], key)
    ensures EntryTotal(rows, name, bs, key) == TopN.ListedTotal(ms, key)
  {
    if bs != [] {
      SumsAgree(rows, name, bs[..|bs| - 1], ms[..|ms| - 1], key);
    }
  }

  lemma EntriesAreListed(catalog: Catalog, es: seq<Event>, i: nat, rows: map<Time, Row>, bs: seq<Time>, key: string)
    requires i < |catalog| && Holds(catalog, es, i, rows, bs)
    ensures EntryTotal(rows, catalog[i].name, bs, key) == TopN.ListedTotal(Minutes(catalog[i], es, bs), key)
  {
    var name, ms := catalog[i].name, Minutes(catalog[i], es, bs);
    forall j | 0 <= j < |bs| ensures EntrySum(TopAt(rows, bs[j], name), key) == TopN.Listed(ms[j], key) {
      EntryIsListed(catalog, es, i, rows, bs[j], key);
    }
    SumsAgree(rows, name, bs, ms, key);
  }

  lemma EntryIsListed(catalog: Catalog, es: seq<Event>, i: nat, rows: map<Time, Row>, b: Time, key: string)
    requires i < |catalog| && UniqueNames(catalog) && catalog[i].kind.TopCount?
    requires !IsDerived(catalog[i].name) && !Internal(catalog[i].name)
    requires b in rows && rows[b] == GroupByRow(catalog, es, b)
    ensures EntrySum(TopAt(rows, b, catalog[i].name), key) == TopN.Listed(ScoresOf(catalog[i], es, b), key)
  {
    TopRowExact(catalog, es, i, b);
    ListedSum(ScoresOf(catalog[i], es, b), key);
  }

  // ---------------------------------------------------------- scores to events

  /** What the events of the given minutes weigh for a key. */
  ghost function WeightIn(def: MetricDef, es: seq<Event>, bs: seq<Time>, key: string): real
    requires def.kind.TopCount?
  {
    if es == [] then 0.0
    else
      var e := es[|es| - 1];
      WeightIn(def, es[..|es| - 1], bs, key) +
        if InSome(bs, e.time) && Takes(def, e.eventType) && TextIs(e, def.kind.keyField, key)
        then WeightOf(e, def.kind.weightField) else 0.0
  }

  /** The time lies in one of the minutes. */
  ghost predicate InSome(bs: seq<Time>, t: Time) {
    exists j :: 0 <= j < |bs| && MinuteHolds(bs[j], t)
  }

  /** A further minute takes the events that lie in it, and no event lies in two minutes. */
  lemma InOneMore(bs: seq<Time>, b: Time, t: Time)
    requires b !in bs
    ensures InSome(bs + [b], t) <==> InSome(bs, t) || MinuteHolds(b, t)
    ensures !(InSome(bs, t) && MinuteHolds(b, t))
  {
    assert (bs + [b])[|bs|] == b;
    if InSome(bs, t) {
      var j :| 0 <= j < |bs| && MinuteHolds(bs[j], t);
      assert (bs + [b])[j] == bs[j];
      BucketIsMinute(t, bs[j]);
      BucketIsMinute(t, b);
    }
  }

  lemma {:induction false} WeightOfOneMore(def: MetricDef, es: seq<Event>, bs: seq<Time>, b: Time, key: string)
    requires def.kind.TopCount? && b !in bs
    ensures WeightIn(def, es, bs + [b], key) == WeightIn(def, es, bs, key) + ScoreFor(def, es, b, key)
  {
    if es != [] {
      var e := es[|es| - 1];
      WeightOfOneMore(def, es[..|es| - 1], bs, b, key);
      InOneMore(bs, b, e.time);
      MatchesIff(def, e.eventType);
    }
  }

  lemma {:induction false} WeightOfNone(def: MetricDef, es: seq<Event>, key: string)
    requires def.kind.TopCount?
    ensures WeightIn(def, es, [], key) == 0.0
  {
    if es != [] {
      WeightOfNone(def, es[..|es| - 1], key);
    }
  }

  /** Summed over different minutes, the scores of a key are the weight of its events. */
  lemma {:induction false} TotalIsWeight(def: MetricDef, es: seq<Event>, bs: seq<Time>, key: string)
    requires def.kind.TopCount? && forall i, j :: 0 <= i < j < |bs| ==> bs[i] != bs[j]
    ensures TopN.Total(Minutes(def, es, bs), key) == WeightIn(def, es, bs, key)
  {
    if bs == [] {
      WeightOfNone(def, es, key);
    } else {
      var n := |bs| - 1;
      TotalIsWeight(def, es, bs[..n], key);
      assert Minutes(def, es, bs)[..n] == Minutes(def, es, bs[..n]);
      assert bs == bs[..n] + [bs[n]];
      WeightOfOneMore(def, es, bs[..n], bs[n], key);
      ScoresExact(def, es, bs[n], key);
    }
  }

  ghost predicate NoNegativeWeight(def: MetricDef, es: seq<Event>)
    requires def.kind.TopCount?
  {
    forall j :: 0 <= j < |es| ==> WeightOf(es[j], def.kind.weightField) >= 0.0
  }

  lemma {:induction false} ScoreNotNegative(def: MetricDef, es: seq<Event>, b: Time, key: string)
    requires def.kind.TopCount? && NoNegativeWeight(def, es)
    ensures ScoreFor(def, es, b, key) >= 0.0
  {
    if es != [] {
      assert forall j :: 0 <= j < |es| - 1 ==> es[..|es| - 1][j] == es[j];
      ScoreNotNegative(def, es[..|es| - 1], b, key);
    }
  }

  lemma MinutesNotNegative(def: MetricDef, es: seq<Event>, bs: seq<Time>)
    requires def.kind.TopCount? && NoNegativeWeight(def, es)
    ensures TopN.NonNegative(Minutes(def, es, bs))
  {
    var ms := Minutes(def, es, bs);
    forall j, key | 0 <= j < |ms| && key in ms[j] ensures ms[j][key] >= 0.0 {
      ScoresExact(def, es, bs[j], key);
      ScoreNotNegative(def, es, bs[j], key);
    }
  }

  // ------------------------------------------------------------- end to end

  /** After the shutdown flush the stored row of every minute with an accepted event is its group-by. */
  function FlushedRows(catalog: Catalog, lateness: int, idleAdvance: int, start: Time, steps: seq<Step>): map<Time, Row>
    requires Legal(catalog, Fresh(lateness, idleAdvance, start), steps)
    requires Legal(catalog, Fresh(lateness, idleAdvance, start), Stopped(catalog, lateness, idleAdvance, start, steps))
  {
    After(catalog, Fresh(lateness, idleAdvance, start), Stopped(catalog, lateness, idleAdvance, start, steps)).rows
  }

  /** The run with the forced flush at its end. */
  function Stopped(catalog: Catalog, lateness: int, idleAdvance: int, start: Time, steps: seq<Step>): seq<Step>
    requires Legal(catalog, Fresh(lateness, idleAdvance, start), steps)
  {
    steps + ForcedFlush(|Sorted(After(catalog, Fresh(lateness, idleAdvance, start), steps).open)|)
  }

  /** The bound on rows that hold the group-by. */
  lemma BoundOnRows(catalog: Catalog, es: seq<Event>, i: nat, rows: map<Time, Row>, bs: seq<Time>, key: string)
    requires i < |catalog| && Holds(catalog, es, i, rows, bs) && NoNegativeWeight(catalog[i], es)
    requires forall i, j :: 0 <= i < j < |bs| ==> bs[i] != bs[j]
    ensures
      var minutes := Minutes(catalog[i], es, bs);
      var answer, weight := EntryTotal(rows, catalog[i].name, bs, key), WeightIn(catalog[i], es, bs, key);
      && weight - TopN.GapTotal(minutes, key) <= answer <= weight
      && (answer == weight <==> !TopN.LosesSome(minutes, key))
  {
    EntriesAreListed(catalog, es, i, rows, bs, key);
    TotalIsWeight(catalog[i], es, bs, key);
    MinutesNotNegative(catalog[i], es, bs);
    TopN.TruncationBound(Minutes(catalog[i], es, bs), key);
    TopN.ExactIff(Minutes(catalog[i], es, bs), key);
  }

  /**
   For every run, whatever its clocks and flushes: over any minutes that accepted events, what `/top` sums for
   a key never exceeds the weight of the accepted events that name it, falls short by at most the smallest
   scores of the full lists that omit it, and is exact if and only if no minute omits it while it has a score.
   */
  lemma TopAnswer(catalog: Catalog, lateness: int, idleAdvance: int, start: Time, steps: seq<Step>,
                  i: nat, bs: seq<Time>, key: string)
    requires Legal(catalog, Fresh(lateness, idleAdvance, start), steps) && Prompt(idleAdvance, steps)
    requires UniqueNames(catalog) && i < |catalog| && catalog[i].kind.TopCount?
    requires !IsDerived(catalog[i].name) && !Internal(catalog[i].name)
    requires NoNegativeWeight(catalog[i], Accepted(lateness, Events(steps)))
    requires forall j :: 0 <= j < |bs| ==> HasBucket(Accepted(lateness, Events(steps)), bs[j])
    requires forall i, j :: 0 <= i < j < |bs| ==> bs[i] != bs[j]
    ensures Legal(catalog, Fresh(lateness, idleAdvance, start), Stopped(catalog, lateness, idleAdvance, start, steps))
    ensures
      var es := Accepted(lateness, Events(steps));
      var minutes := Minutes(catalog[i], es, bs);
      var rows := FlushedRows(catalog, lateness, idleAdvance, start, steps);
      var answer, weight := EntryTotal(rows, catalog[i].name, bs, key), WeightIn(catalog[i], es, bs, key);
      && weight - TopN.GapTotal(minutes, key) <= answer <= weight
      && (answer == weight <==> !TopN.LosesSome(minutes, key))
  {
    var es := Accepted(lateness, Events(steps));
    StoppedIsLegal(catalog, lateness, idleAdvance, start, steps);
    var rows := FlushedRows(catalog, lateness, idleAdvance, start, steps);
    forall j | 0 <= j < |bs| ensures bs[j] in rows && rows[bs[j]] == GroupByRow(catalog, es, bs[j]) {
      ShutdownRows(catalog, lateness, idleAdvance, start, steps, bs[j]);
    }
    BoundOnRows(catalog, es, i, rows, bs, key);
  }

  lemma StoppedIsLegal(catalog: Catalog, lateness: int, idleAdvance: int, start: Time, steps: seq<Step>)
    requires Legal(catalog, Fresh(lateness, idleAdvance, start), steps)
    ensures Legal(catalog, Fresh(lateness, idleAdvance, start), Stopped(catalog, lateness, idleAdvance, start, steps))
  {
    var s0 := Fresh(lateness, idleAdvance, start);
    var s := After(catalog, s0, steps);
    FlushProgress(catalog, s0, steps, s, Events(steps), |Sorted(s.open)|);
  }
}
