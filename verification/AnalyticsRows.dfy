/**
 What a minute's row holds for each kind of metric, read off the accepted events directly:
 the total of a field, the number of distinct values, the best-scored keys.
 */
module AnalyticsRows {
  import opened Prelude
  import opened EventTime
  import opened Metrics
  import opened Analytics
  import opened AnalyticsRuns
  import TopN

  function NumberOf(def: MetricDef, e: Event): Option<real>
    requires def.kind.Sum?
  {
    if def.kind.valueField in e.fields then e.fields[def.kind.valueField].number else None
  }

  /** The numbers that a sum metric's field has in the minute's events. */
  function Numbers(def: MetricDef, es: seq<Event>, bucket: Time): seq<real>
    requires def.kind.Sum?
  {
    if es == [] then []
    else
      var e := es[|es| - 1];
      Numbers(def, es[..|es| - 1], bucket) +
        if Hits(def, e, bucket) && NumberOf(def, e).Some? then [NumberOf(def, e).value] else []
  }

  function Total(xs: seq<real>): real {
    if xs == [] then 0.0 else Total(xs[..|xs| - 1]) + xs[|xs| - 1]
  }

  function Values(xs: seq<real>): seq<Delta> {
    seq(|xs|, i requires 0 <= i < |xs| => AddValue(xs[i]))
  }

  lemma {:induction false} SumDeltas(def: MetricDef, es: seq<Event>, bucket: Time)
    requires def.kind.Sum?
    ensures DefDeltas(def, es, bucket) == Values(Numbers(def, es, bucket))
  {
    if es != [] {
      SumDeltas(def, es[..|es| - 1], bucket);
    }
  }

  lemma {:induction false} ValuesAddUp(xs: seq<real>)
    ensures Summed(Values(xs)) == Total(xs) && Counted(Values(xs)) == |xs|
  {
    if xs != [] {
      var n := |xs| - 1;
      ValuesAddUp(xs[..n]);
      assert Values(xs)[..n] == Values(xs[..n]);
    }
  }

  // --------------------------------------------------------- stored and internal

  /** What a sample of the group-by becomes: a row of its own, part of a ratio, or hidden by a derived metric. */
  lemma StoredOrNot(catalog: Catalog, es: seq<Event>, bucket: Time, name: string)
    requires name in Names(catalog)
    ensures
      var row := GroupByRow(catalog, es, bucket);
      && (name in row <==> IsDerived(name) || !Internal(name))
      && (name in row && !IsDerived(name) ==> row[name] == GroupBySamples(catalog, es, bucket)[name])
  {
    ComposeAt(GroupBySamples(catalog, es, bucket), name);
  }

  /** The sample of one definition is read from its own updates. */
  lemma SampleIsDef(catalog: Catalog, es: seq<Event>, i: nat, bucket: Time)
    requires UniqueNames(catalog) && i < |catalog|
    ensures catalog[i].name in Names(catalog)
    ensures GroupBySamples(catalog, es, bucket)[catalog[i].name] ==
            SampleOf(catalog[i].kind, Fold(DefDeltas(catalog[i], es, bucket)))
  {
    FirstDefUnique(catalog, i);
    GroupByIsDef(catalog, es, i, bucket);
  }

  /** The sample of the definition, which is the row of its name when the name is stored. */
  ghost predicate RowIs(catalog: Catalog, es: seq<Event>, i: nat, bucket: Time, sample: Sample)
    requires i < |catalog|
  {
    var name, row := catalog[i].name, GroupByRow(catalog, es, bucket);
    && name in Names(catalog) && GroupBySamples(catalog, es, bucket)[name] == sample
    && (name in row <==> IsDerived(name) || !Internal(name))
    && (name in row && !IsDerived(name) ==> row[name] == sample)
  }

  lemma RowIsSample(catalog: Catalog, es: seq<Event>, i: nat, bucket: Time, sample: Sample)
    requires UniqueNames(catalog) && i < |catalog|
    requires sample == SampleOf(catalog[i].kind, Fold(DefDeltas(catalog[i], es, bucket)))
    ensures RowIs(catalog, es, i, bucket, sample)
  {
    SampleIsDef(catalog, es, i, bucket);
    StoredOrNot(catalog, es, bucket, catalog[i].name);
  }

  // ------------------------------------------------------------- each kind

  /** The positions of the events that lie in the minute and have a type the metric lists. */
  ghost function Falling(def: MetricDef, es: seq<Event>, b: Time): set<nat> {
    set i: nat | i < |es| && FallsIn(def, es[i], b)
  }

  ghost predicate FallsIn(def: MetricDef, e: Event, b: Time) {
    b % 60_000_000 == 0 && b <= e.time < b + 60_000_000 && Takes(def, e.eventType)
  }

  lemma {:induction false} FallingCount(def: MetricDef, es: seq<Event>, b: Time)
    ensures MatchCount(def, es, b) == |Falling(def, es, b)|
  {
    if es == [] {
      NoPositions(Falling(def, es, b));
    } else {
      var n := |es| - 1;
      FallingCount(def, es[..n], b);
      MatchesIff(def, es[n].eventType);
      FallingSnoc(def, es, b);
    }
  }

  lemma NoPositions(s: set<nat>)
    requires forall i :: i !in s
    ensures |s| == 0
  {
    if |s| != 0 {
      var i := Witness(s);
    }
  }

  lemma FallingSnoc(def: MetricDef, es: seq<Event>, b: Time)
    requires es != []
    ensures |Falling(def, es, b)| == |Falling(def, es[..|es| - 1], b)| + if FallsIn(def, es[|es| - 1], b) then 1 else 0
  {
    var n := |es| - 1;
    var front := es[..n];
    forall i: nat | i < n ensures i in Falling(def, es, b) <==> i in Falling(def, front, b) {
      assert front[i] == es[i];
    }
    OneMorePosition(Falling(def, es, b), Falling(def, front, b), n);
  }

  /** What hits a metric in a minute, in terms of the event's time and type alone. */
  lemma HitsIff(def: MetricDef, e: Event, b: Time)
    ensures Hits(def, e, b) <==> FallsIn(def, e, b)
  {
    MatchesIff(def, e.eventType);
  }

  /** A count metric's row is the number of accepted events of that minute and type. */
  lemma CountRowExact(catalog: Catalog, es: seq<Event>, i: nat, bucket: Time)
    requires UniqueNames(catalog) && i < |catalog| && catalog[i].kind.Count?
    ensures
      var n := |Falling(catalog[i], es, bucket)|;
      RowIs(catalog, es, i, bucket, Sample(n as real, n, []))
  {
    FallingCount(catalog[i], es, bucket);
    var n := MatchCount(catalog[i], es, bucket);
    CountDeltas(catalog[i], es, bucket);
    OnesCount(n);
    FoldFields(Ones(n));
    RowIsSample(catalog, es, i, bucket, Sample(n as real, n, []));
  }

  /** A sum metric's row is the total and the number of the field's numbers in that minute. */
  lemma SumRowExact(catalog: Catalog, es: seq<Event>, i: nat, bucket: Time)
    requires UniqueNames(catalog) && i < |catalog| && catalog[i].kind.Sum?
    ensures
      var xs := Numbers(catalog[i], es, bucket);
      RowIs(catalog, es, i, bucket, Sample(Total(xs), |xs|, []))
  {
    var xs := Numbers(catalog[i], es, bucket);
    SumDeltas(catalog[i], es, bucket);
    SumSample(catalog[i].kind, xs);
    RowIsSample(catalog, es, i, bucket, Sample(Total(xs), |xs|, []));
  }

  lemma SumSample(kind: Kind, xs: seq<real>)
    requires kind.Sum?
    ensures SampleOf(kind, Fold(Values(xs))) == Sample(Total(xs), |xs|, [])
  {
    FoldFields(Values(xs));
    ValuesAddUp(xs);
    if xs != [] {
      assert Values(xs)[0].AddValue?;
    }
  }

  /** The texts that a distinct metric's field has in the minute's events. */
  ghost predicate HasText(def: MetricDef, es: seq<Event>, bucket: Time, text: string)
    requires def.kind.Distinct?
  {
    exists j :: 0 <= j < |es| && Hits(def, es[j], bucket) && TextIs(es[j], def.kind.field, text)
  }

  predicate TextIs(e: Event, path: string, text: string) {
    path in e.fields && e.fields[path].text == text
  }

  lemma {:induction false} DistinctDeltas(def: MetricDef, es: seq<Event>, bucket: Time, text: string)
    requires def.kind.Distinct?
    ensures AddMember(text) in DefDeltas(def, es, bucket) <==> HasText(def, es, bucket, text)
  {
    if es != [] {
      var n := |es| - 1;
      var front := es[..n];
      DistinctDeltas(def, front, bucket, text);
      HasTextSnoc(def, es, bucket, text);
      assert AddMember(text) in DefDeltas(def, es, bucket) <==>
             AddMember(text) in DefDeltas(def, front, bucket)
             || (Hits(def, es[n], bucket) && TextIs(es[n], def.kind.field, text));
    }
  }

  lemma HasTextSnoc(def: MetricDef, es: seq<Event>, bucket: Time, text: string)
    requires def.kind.Distinct? && es != []
    ensures HasText(def, es, bucket, text) <==>
            HasText(def, es[..|es| - 1], bucket, text)
            || (Hits(def, es[|es| - 1], bucket) && TextIs(es[|es| - 1], def.kind.field, text))
  {
    var n := |es| - 1;
    var front := es[..n];
    if HasText(def, front, bucket, text) {
      var j :| 0 <= j < |front| && Hits(def, front[j], bucket) && TextIs(front[j], def.kind.field, text);
      assert Hits(def, es[j], bucket) && TextIs(es[j], def.kind.field, text);
    }
    if HasText(def, es, bucket, text) {
      var j :| 0 <= j < |es| && Hits(def, es[j], bucket) && TextIs(es[j], def.kind.field, text);
      assert j < n ==> Hits(def, front[j], bucket) && TextIs(front[j], def.kind.field, text);
    }
  }

  /** A distinct metric's stored row is the number of different texts of the field in that minute. */
  lemma DistinctRowExact(catalog: Catalog, es: seq<Event>, i: nat, bucket: Time, texts: set<string>)
    requires UniqueNames(catalog) && i < |catalog| && catalog[i].kind.Distinct?
    requires forall text :: text in texts <==> HasText(catalog[i], es, bucket, text)
    ensures RowIs(catalog, es, i, bucket, Sample(|texts| as real, |texts|, []))
  {
    var ds := DefDeltas(catalog[i], es, bucket);
    forall text ensures text in Fold(ds).members <==> text in texts {
      FoldMembers(ds, text);
      DistinctDeltas(catalog[i], es, bucket, text);
    }
    assert Fold(ds).members == texts;
    RowIsSample(catalog, es, i, bucket, Sample(|texts| as real, |texts|, []));
  }

  /** What an event adds to the score of a key. */
  function WeightFor(def: MetricDef, e: Event, bucket: Time, key: string): real
    requires def.kind.TopCount?
  {
    if Hits(def, e, bucket) && TextIs(e, def.kind.keyField, key) then WeightOf(e, def.kind.weightField) else 0.0
  }

  function ScoreFor(def: MetricDef, es: seq<Event>, bucket: Time, key: string): real
    requires def.kind.TopCount?
  {
    if es == [] then 0.0
    else ScoreFor(def, es[..|es| - 1], bucket, key) + WeightFor(def, es[|es| - 1], bucket, key)
  }

  lemma WeighedSnoc(ds: seq<Delta>, d: Delta, key: string)
    ensures Weighed(ds + [d], key) == Weighed(ds, key) + if d.AddScore? && d.key == key then d.weight else 0.0
  {
    assert (ds + [d])[..|ds|] == ds;
  }

  lemma {:induction false} TopDeltas(def: MetricDef, es: seq<Event>, bucket: Time, key: string)
    requires def.kind.TopCount?
    ensures Weighed(DefDeltas(def, es, bucket), key) == ScoreFor(def, es, bucket, key)
  {
    if es != [] {
      var e, ds := es[|es| - 1], DefDeltas(def, es[..|es| - 1], bucket);
      TopDeltas(def, es[..|es| - 1], bucket, key);
      TopDelta(def, e, bucket, key, ds);
    }
  }

  lemma TopDelta(def: MetricDef, e: Event, bucket: Time, key: string, ds: seq<Delta>)
    requires def.kind.TopCount?
    ensures Weighed(ds + Added(def, e, bucket), key) == Weighed(ds, key) + WeightFor(def, e, bucket, key)
  {
    if Hits(def, e, bucket) && DeltaOf(def, e).Some? {
      WeighedSnoc(ds, DeltaOf(def, e).value, key);
    } else {
      assert ds + Added(def, e, bucket) == ds;
    }
  }

  /** Some event of the minute and the metric names the key. */
  ghost predicate HasKey(def: MetricDef, es: seq<Event>, bucket: Time, key: string)
    requires def.kind.TopCount?
  {
    exists j :: 0 <= j < |es| && NamesKey(def, es[j], bucket, key)
  }

  predicate NamesKey(def: MetricDef, e: Event, bucket: Time, key: string)
    requires def.kind.TopCount?
  {
    Hits(def, e, bucket) && TextIs(e, def.kind.keyField, key)
  }

  ghost predicate Scored(ds: seq<Delta>, key: string) {
    exists i :: 0 <= i < |ds| && ds[i].AddScore? && ds[i].key == key
  }

  lemma ScoredSnoc(ds: seq<Delta>, d: Delta, key: string)
    ensures Scored(ds + [d], key) <==> Scored(ds, key) || (d.AddScore? && d.key == key)
  {
    var more := ds + [d];
    assert more[|ds|] == d;
    if Scored(ds, key) {
      var i :| 0 <= i < |ds| && ds[i].AddScore? && ds[i].key == key;
      assert more[i] == ds[i];
    }
  }

  lemma HasKeySnoc(def: MetricDef, es: seq<Event>, bucket: Time, key: string)
    requires def.kind.TopCount? && es != []
    ensures HasKey(def, es, bucket, key) <==>
            HasKey(def, es[..|es| - 1], bucket, key) || NamesKey(def, es[|es| - 1], bucket, key)
  {
    var n := |es| - 1;
    assert forall j :: 0 <= j < n ==> es[..n][j] == es[j];
  }

  lemma {:induction false} KeysNamed(def: MetricDef, es: seq<Event>, bucket: Time, key: string)
    requires def.kind.TopCount?
    ensures Scored(DefDeltas(def, es, bucket), key) <==> HasKey(def, es, bucket, key)
  {
    if es != [] {
      var e, ds := es[|es| - 1], DefDeltas(def, es[..|es| - 1], bucket);
      KeysNamed(def, es[..|es| - 1], bucket, key);
      HasKeySnoc(def, es, bucket, key);
      KeyAdded(def, e, bucket, key, ds);
    }
  }

  lemma KeyAdded(def: MetricDef, e: Event, bucket: Time, key: string, ds: seq<Delta>)
    requires def.kind.TopCount?
    ensures Scored(ds + Added(def, e, bucket), key) <==> Scored(ds, key) || NamesKey(def, e, bucket, key)
  {
    if Hits(def, e, bucket) && DeltaOf(def, e).Some? {
      ScoredSnoc(ds, DeltaOf(def, e).value, key);
    } else {
      assert ds + Added(def, e, bucket) == ds;
    }
  }

  /** The scores of a top metric's minute. */
  function ScoresOf(def: MetricDef, es: seq<Event>, bucket: Time): map<string, real> {
    Fold(DefDeltas(def, es, bucket)).scores
  }

  /** They hold exactly the keys that events name, each with the total weight. */
  lemma ScoresExact(def: MetricDef, es: seq<Event>, bucket: Time, key: string)
    requires def.kind.TopCount?
    ensures key in ScoresOf(def, es, bucket) <==> HasKey(def, es, bucket, key)
    ensures Get(ScoresOf(def, es, bucket), key) == ScoreFor(def, es, bucket, key)
  {
    var ds := DefDeltas(def, es, bucket);
    FoldScores(ds, key);
    KeysNamed(def, es, bucket, key);
    TopDeltas(def, es, bucket, key);
  }

  /** The sample stored for a minute's scores: the best keys, their number, and the sum of their scores. */
  function TopSample(scores: map<string, real>): Sample {
    var keys := TopN.Top(scores, TopN.LIST_SIZE);
    Sample(|keys| as real, Truncate(ScoreSum(scores, keys)), Pairs(scores, keys))
  }

  /** A top metric's row ranks the keys that events name by their total weight. */
  lemma TopRowExact(catalog: Catalog, es: seq<Event>, i: nat, bucket: Time)
    requires UniqueNames(catalog) && i < |catalog| && catalog[i].kind.TopCount?
    ensures
      var scores := ScoresOf(catalog[i], es, bucket);
      && RowIs(catalog, es, i, bucket, TopSample(scores))
      && TopSample(scores).value == (if |scores| <= TopN.LIST_SIZE then |scores| else TopN.LIST_SIZE) as real
      && (forall key :: key in scores <==> HasKey(catalog[i], es, bucket, key))
      && (forall key :: Get(scores, key) == ScoreFor(catalog[i], es, bucket, key))
  {
    var scores := ScoresOf(catalog[i], es, bucket);
    RowIsSample(catalog, es, i, bucket, TopSample(scores));
    forall key
      ensures key in scores <==> HasKey(catalog[i], es, bucket, key)
      ensures Get(scores, key) == ScoreFor(catalog[i], es, bucket, key)
    {
      ScoresExact(catalog[i], es, bucket, key);
    }
    TopN.TopKeysCorrect(scores, scores.Keys, TopN.LIST_SIZE);
  }

  // ------------------------------------------------------------ derived metrics

  /** The derived metrics, by name. */
  lemma DerivedNames(name: string)
    ensures IsDerived(name) <==>
            || name == "events_per_sec" || name == "payment_failure_rate" || name == "payment_success_rate"
            || name == "order_cancellation_rate" || name == "conversion_rate" || name == "avg_order_value"
  {
  }

  /** The names that are combined and not stored: those that end in ".num" or ".den". */
  lemma InternalNames(name: string)
    ensures Internal(name) <==> exists stem: string :: name == stem + ".num" || name == stem + ".den"
  {
    if Internal(name) {
      var n := |name| - 4;
      assert name == name[..n] + name[n..];
      if EndsWith(name, ".num") {
        assert name == name[..n] + ".num";
      } else {
        assert name == name[..n] + ".den";
      }
    }
    if stem: string :| name == stem + ".num" || name == stem + ".den" {
      assert name[|name| - 4..] == ".num" || name[|name| - 4..] == ".den";
    }
  }

  /** The per-second row is the number of the minute's events over sixty, and their number. */
  lemma PerSecondRowExact(catalog: Catalog, es: seq<Event>, i: nat, bucket: Time)
    requires UniqueNames(catalog) && i < |catalog| && catalog[i].kind.Count? && catalog[i].name == "events_total"
    ensures
      var n := |Falling(catalog[i], es, bucket)|;
      && "events_per_sec" in GroupByRow(catalog, es, bucket)
      && GroupByRow(catalog, es, bucket)["events_per_sec"] == Sample(n as real / 60.0, n, [])
  {
    AmountIs(catalog, es, i, bucket);
    PerSecondComposed(GroupBySamples(catalog, es, bucket), |Falling(catalog[i], es, bucket)|);
  }

  lemma PerSecondComposed(raw: Samples, n: nat)
    requires "events_total" in raw && raw["events_total"].value == n as real
    ensures "events_per_sec" in Compose(raw) && Compose(raw)["events_per_sec"] == Sample(n as real / 60.0, n, [])
  {
    ComposeAt(raw, "events_per_sec");
  }

  /** What a numerator amounts to: a number of events, or the total of a field. */
  ghost function Amount(def: MetricDef, es: seq<Event>, bucket: Time): real
    requires def.kind.Count? || def.kind.Sum?
  {
    if def.kind.Count? then |Falling(def, es, bucket)| as real else Total(Numbers(def, es, bucket))
  }

  lemma AmountIs(catalog: Catalog, es: seq<Event>, i: nat, bucket: Time)
    requires UniqueNames(catalog) && i < |catalog| && (catalog[i].kind.Count? || catalog[i].kind.Sum?)
    ensures
      var raw := GroupBySamples(catalog, es, bucket);
      catalog[i].name in raw && raw[catalog[i].name].value == Amount(catalog[i], es, bucket)
  {
    if catalog[i].kind.Count? {
      CountRowExact(catalog, es, i, bucket);
    } else {
      SumRowExact(catalog, es, i, bucket);
    }
  }

  /** A ratio's row is the numerator's amount over the number of the denominator's events, or zero without any. */
  lemma RatioRowExact(catalog: Catalog, es: seq<Event>, num: nat, den: nat, name: string, bucket: Time)
    requires UniqueNames(catalog) && num < |catalog| && den < |catalog| && name in RATIOS
    requires catalog[num].name == name + ".num" && (catalog[num].kind.Count? || catalog[num].kind.Sum?)
    requires catalog[den].name == name + ".den" && catalog[den].kind.Count?
    ensures
      var n, d := Amount(catalog[num], es, bucket), |Falling(catalog[den], es, bucket)|;
      && name in GroupByRow(catalog, es, bucket)
      && GroupByRow(catalog, es, bucket)[name] == Sample(if d > 0 then n / d as real else 0.0, d, [])
  {
    AmountIs(catalog, es, num, bucket);
    AmountIs(catalog, es, den, bucket);
    RatioComposed(GroupBySamples(catalog, es, bucket), name, Amount(catalog[num], es, bucket),
                  |Falling(catalog[den], es, bucket)|);
  }

  lemma RatioComposed(raw: Samples, name: string, n: real, d: nat)
    requires name in RATIOS && name + ".num" in raw && raw[name + ".num"].value == n
    requires name + ".den" in raw && raw[name + ".den"].value == d as real
    ensures name in Compose(raw)
    ensures Compose(raw)[name] == Sample(if d > 0 then n / d as real else 0.0, d, [])
  {
    ComposeAt(raw, name);
  }
}
