/**
 The metric catalog and the accumulators it feeds: which updates one event makes,
 and what a sequence of updates adds up to.
 */
module Metrics {
  import opened Prelude
  import opened EventTime
  import TopN

  /** A resolved field: its text, and its number if it is an int or a float. */
  datatype FieldValue = FieldValue(text: string, number: Option<real>)

  /** An event; `fields` is what `_resolve` finds for each dotted path. */
  datatype Event = Event(time: Time, eventType: string, region: Option<string>, fields: map<string, FieldValue>)

  datatype Kind =
    | Count
    | Sum(valueField: string)
    | Distinct(field: string)
    | TopCount(keyField: string, weightField: Option<string>)

  datatype MetricDef = MetricDef(name: string, kind: Kind, eventTypes: seq<string>, groupBy: seq<string>)

  type Catalog = seq<MetricDef>

  /** One update of one accumulator. */
  datatype Delta =
    | AddOne
    | AddValue(value: real)
    | AddMember(member: string)
    | AddScore(key: string, weight: real)

  datatype Contribution = Contribution(def: MetricDef, delta: Delta)

  // ------------------------------------------------------------- classify_event

  predicate Matches(def: MetricDef, eventType: string) {
    "*" in def.eventTypes || eventType in def.eventTypes
  }

  function Resolve(e: Event, path: string): Option<FieldValue> {
    if path in e.fields then Some(e.fields[path]) else None
  }

  function WeightOf(e: Event, path: Option<string>): real {
    if path.None? then 1.0
    else
      var w := Resolve(e, path.value);
      if w.Some? && w.value.number.Some? then w.value.number.value else 1.0
  }

  /** What an event that matches a definition adds to it, if anything. */
  function DeltaOf(def: MetricDef, e: Event): Option<Delta> {
    match def.kind
    case Count => Some(AddOne)
    case Sum(path) =>
      var v := Resolve(e, path);
      if v.Some? && v.value.number.Some? then Some(AddValue(v.value.number.value)) else None
    case Distinct(path) =>
      var v := Resolve(e, path);
      if v.Some? then Some(AddMember(v.value.text)) else None
    case TopCount(path, weight) =>
      var v := Resolve(e, path);
      if v.Some? then Some(AddScore(v.value.text, WeightOf(e, weight))) else None
  }

  /** The definition lists the event's type, or all types. */
  ghost predicate Takes(def: MetricDef, eventType: string) {
    exists i :: 0 <= i < |def.eventTypes| && (def.eventTypes[i] == "*" || def.eventTypes[i] == eventType)
  }

  lemma MatchesIff(def: MetricDef, eventType: string)
    ensures Matches(def, eventType) <==> Takes(def, eventType)
  {
  }

  /**
   What an event adds to a metric that takes it, field by field: one; the field's number; the field's text; or
   the key field's text with the weight field's number, one where there is none.
   */
  lemma DeltaMeans(def: MetricDef, e: Event)
    ensures def.kind.Count? ==> DeltaOf(def, e) == Some(AddOne)
    ensures def.kind.Sum? ==>
              forall x :: DeltaOf(def, e) == Some(AddValue(x)) <==>
                          def.kind.valueField in e.fields && e.fields[def.kind.valueField].number == Some(x)
    ensures def.kind.Distinct? ==>
              forall m :: DeltaOf(def, e) == Some(AddMember(m)) <==>
                          def.kind.field in e.fields && e.fields[def.kind.field].text == m
    ensures def.kind.TopCount? ==>
              forall k, x :: DeltaOf(def, e) == Some(AddScore(k, x)) <==>
                             def.kind.keyField in e.fields && e.fields[def.kind.keyField].text == k
                             && x == WeightOf(e, def.kind.weightField)
    ensures DeltaOf(def, e).Some? ==>
              match def.kind
              case Count => DeltaOf(def, e).value.AddOne?
              case Sum(_) => DeltaOf(def, e).value.AddValue?
              case Distinct(_) => DeltaOf(def, e).value.AddMember?
              case TopCount(_, _) => DeltaOf(def, e).value.AddScore?
  {
  }

  /** The weight is the number of the weight field where the metric has one and the event a number in it, else one. */
  lemma WeightMeans(e: Event, path: Option<string>, x: real)
    requires path.Some? && path.value in e.fields && e.fields[path.value].number == Some(x)
    ensures WeightOf(e, path) == x
    ensures WeightOf(e, None) == 1.0
    ensures forall other :: other !in e.fields || e.fields[other].number == None ==> WeightOf(e, Some(other)) == 1.0
  {
  }

  function ContributionOf(def: MetricDef, e: Event): seq<Contribution> {
    if !Matches(def, e.eventType) || DeltaOf(def, e).None? then []
    else [Contribution(def, DeltaOf(def, e).value)]
  }

  function Contributions(catalog: Catalog, e: Event): seq<Contribution> {
    if catalog == [] then []
    else Contributions(catalog[..|catalog| - 1], e) + ContributionOf(catalog[|catalog| - 1], e)
  }

  /** The loop of `classify_event`. */
  method ClassifyEvent(catalog: Catalog, e: Event) returns (out: seq<Contribution>)
    ensures out == Contributions(catalog, e)
  {
    out := [];
    for i := 0 to |catalog|
      invariant out == Contributions(catalog[..i], e)
    {
      assert catalog[..i + 1][..i] == catalog[..i];
      var def := catalog[i];
      if Matches(def, e.eventType) {
        var delta := DeltaOf(def, e);
        if delta.Some? {
          out := out + [Contribution(def, delta.value)];
        }
      }
    }
    assert catalog[..|catalog|] == catalog;
  }

  /** An event contributes to exactly the definitions that take it and whose fields resolve. */
  lemma {:induction false} ContributesIff(catalog: Catalog, e: Event, c: Contribution)
    ensures c in Contributions(catalog, e) <==>
            c.def in catalog && Takes(c.def, e.eventType) && DeltaOf(c.def, e) == Some(c.delta)
  {
    if catalog != [] {
      var n := |catalog| - 1;
      ContributesIff(catalog[..n], e, c);
      MatchesIff(catalog[n], e.eventType);
      assert catalog == catalog[..n] + [catalog[n]];
    }
  }

  // --------------------------------------------------------------- accumulators

  /** A hash, a set and a sorted set under one state key. */
  datatype Acc = Acc(fields: map<string, real>, members: set<string>, scores: map<string, real>)

  const EMPTY: Acc := Acc(map[], {}, map[])

  /** `HINCRBYFLOAT`, `ZINCRBY`. */
  function Incr(m: map<string, real>, k: string, amount: real): map<string, real> {
    m[k := Get(m, k) + amount]
  }

  function Update(acc: Acc, d: Delta): Acc {
    match d
    case AddOne => acc.(fields := Incr(acc.fields, "count", 1.0))
    case AddValue(v) => acc.(fields := Incr(Incr(acc.fields, "sum", v), "count", 1.0))
    case AddMember(m) => acc.(members := acc.members + {m})
    case AddScore(k, w) => acc.(scores := Incr(acc.scores, k, w))
  }

  function Fold(ds: seq<Delta>): Acc {
    if ds == [] then EMPTY else Update(Fold(ds[..|ds| - 1]), ds[|ds| - 1])
  }

  // ------------------------------------------ what the folded updates mean

  /** Updates that count an event. */
  function Counted(ds: seq<Delta>): nat {
    if ds == [] then 0
    else Counted(ds[..|ds| - 1]) + if ds[|ds| - 1].AddOne? || ds[|ds| - 1].AddValue? then 1 else 0
  }

  function Summed(ds: seq<Delta>): real {
    if ds == [] then 0.0
    else Summed(ds[..|ds| - 1]) + if ds[|ds| - 1].AddValue? then ds[|ds| - 1].value else 0.0
  }

  function Weighed(ds: seq<Delta>, k: string): real {
    if ds == [] then 0.0
    else
      var d := ds[|ds| - 1];
      Weighed(ds[..|ds| - 1], k) + if d.AddScore? && d.key == k then d.weight else 0.0
  }

  /** The hash holds the number of counted updates and the sum of the values. */
  lemma {:induction false} FoldFields(ds: seq<Delta>)
    ensures
      var fields := Fold(ds).fields;
      && Get(fields, "count") == Counted(ds) as real
      && Get(fields, "sum") == Summed(ds)
      && ("sum" in fields <==> exists i :: 0 <= i < |ds| && ds[i].AddValue?)
  {
    if ds != [] {
      var n := |ds| - 1;
      FoldFields(ds[..n]);
      assert forall i :: 0 <= i < n ==> ds[..n][i] == ds[i];
    }
  }

  /** The set holds exactly the members that were added. */
  lemma {:induction false} FoldMembers(ds: seq<Delta>, m: string)
    ensures m in Fold(ds).members <==> AddMember(m) in ds
  {
    if ds != [] {
      var n := |ds| - 1;
      FoldMembers(ds[..n], m);
      assert ds == ds[..n] + [ds[n]];
    }
  }

  /** The sorted set holds per key the total weight. */
  lemma {:induction false} FoldScores(ds: seq<Delta>, k: string)
    ensures Get(Fold(ds).scores, k) == Weighed(ds, k)
    ensures k in Fold(ds).scores <==> exists i :: 0 <= i < |ds| && ds[i].AddScore? && ds[i].key == k
  {
    if ds != [] {
      var n := |ds| - 1;
      FoldScores(ds[..n], k);
      assert forall i :: 0 <= i < n ==> ds[..n][i] == ds[i];
    }
  }

  // ----------------------------------------------------------- finalised samples

  datatype Sample = Sample(value: real, count: int, top: seq<(string, real)>)

  function ScoreSum(scores: map<string, real>, keys: seq<string>): real {
    if keys == [] then 0.0
    else ScoreSum(scores, keys[..|keys| - 1]) + Get(scores, keys[|keys| - 1])
  }

  function Pairs(scores: map<string, real>, keys: seq<string>): seq<(string, real)> {
    seq(|keys|, i requires 0 <= i < |keys| => (keys[i], Get(scores, keys[i])))
  }

  /** What `_finalize_bucket` reads out of an accumulator of the given kind. */
  function SampleOf(kind: Kind, acc: Acc): Sample {
    match kind
    case Distinct(_) => Sample(|acc.members| as real, |acc.members|, [])
    case TopCount(_, _) =>
      var keys := TopN.Top(acc.scores, TopN.LIST_SIZE);
      Sample(|keys| as real, Truncate(ScoreSum(acc.scores, keys)), Pairs(acc.scores, keys))
    case _ =>
      Sample(if "sum" in acc.fields then acc.fields["sum"] else Get(acc.fields, "count"),
             Truncate(Get(acc.fields, "count")), [])
  }

  // ------------------------------------------------------------ composed rows

  /** The samples of a minute by metric name. */
  type Samples = map<string, Sample>

  predicate EndsWith(s: string, suffix: string) {
    |s| >= |suffix| && s[|s| - |suffix|..] == suffix
  }

  /** Numerators and denominators are combined, not stored. */
  predicate Internal(name: string) {
    EndsWith(name, ".num") || EndsWith(name, ".den")
  }

  /** The metrics composed as numerator over denominator. */
  const RATIOS: seq<string> := ["payment_failure_rate", "payment_success_rate", "order_cancellation_rate",
                                "conversion_rate", "avg_order_value"]

  const PER_SECOND: string := "events_per_sec"

  function ValueIn(raw: Samples, name: string): real {
    if name in raw then raw[name].value else 0.0
  }

  function RatioOf(raw: Samples, name: string): Sample {
    var num, den := ValueIn(raw, name + ".num"), ValueIn(raw, name + ".den");
    Sample(if den > 0.0 then num / den else 0.0, Truncate(den), [])
  }

  function PerSecond(raw: Samples): Sample {
    Sample(ValueIn(raw, "events_total") / 60.0, Truncate(ValueIn(raw, "events_total")), [])
  }

  predicate IsDerived(name: string) {
    name == PER_SECOND || name in RATIOS
  }

  function DerivedOf(raw: Samples, name: string): Sample {
    if name == PER_SECOND then PerSecond(raw) else RatioOf(raw, name)
  }

  /** What `_compose_metrics` makes of the samples: the stored ones, and the derived ones in their place. */
  function Compose(raw: Samples): Samples {
    map name | name in raw.Keys + {PER_SECOND} + (set r | r in RATIOS) && (IsDerived(name) || !Internal(name))
      :: if IsDerived(name) then DerivedOf(raw, name) else raw[name]
  }

  lemma ComposeAt(raw: Samples, name: string)
    ensures name in Compose(raw) <==> IsDerived(name) || (name in raw && !Internal(name))
    ensures name in Compose(raw) ==> Compose(raw)[name] == if IsDerived(name) then DerivedOf(raw, name) else raw[name]
  {
  }

  /** The entry of a name once the ratios in `done` have been written. */
  function EntryOf(raw: Samples, done: seq<string>, name: string): Sample {
    if name in done then RatioOf(raw, name)
    else if name == PER_SECOND then PerSecond(raw)
    else if name in raw then raw[name]
    else Sample(0.0, 0, [])
  }

  /** `_compose_metrics`: one pass over the samples, one over the ratios. */
  method ComposeMetrics(raw: Samples) returns (out: Samples)
    ensures out == Compose(raw)
  {
    out := CopyStored(raw);
    out := out[PER_SECOND := PerSecond(raw)];
    out := AddRatios(raw, RATIOS, out);
    IsComposed(raw, out);
  }

  /** The entries written once the ratios in `done` have been. */
  ghost predicate Written(raw: Samples, done: seq<string>, out: Samples) {
    && (forall name :: name in out <==> (name in raw && !Internal(name)) || name == PER_SECOND || name in done)
    && (forall name :: name in out ==> out[name] == EntryOf(raw, done, name))
  }

  lemma IsComposed(raw: Samples, out: Samples)
    requires Written(raw, RATIOS, out)
    ensures out == Compose(raw)
  {
    assert PER_SECOND !in RATIOS;
    forall name
      ensures name in out <==> name in Compose(raw)
      ensures name in out ==> out[name] == Compose(raw)[name]
    {
      ComposeAt(raw, name);
    }
  }

  /** The second loop: numerator over denominator. */
  method AddRatios(raw: Samples, ratios: seq<string>, before: Samples) returns (out: Samples)
    requires Written(raw, [], before)
    ensures Written(raw, ratios, out)
  {
    out := before;
    for i := 0 to |ratios|
      invariant Written(raw, ratios[..i], out)
    {
      assert ratios[..i + 1] == ratios[..i] + [ratios[i]];
      out := out[ratios[i] := RatioOf(raw, ratios[i])];
    }
    assert ratios[..|ratios|] == ratios;
  }

  /** The first loop: numerators and denominators are skipped. */
  method CopyStored(raw: Samples) returns (out: Samples)
    ensures forall name :: name in out <==> name in raw && !Internal(name)
    ensures forall name :: name in out ==> out[name] == raw[name]
  {
    out := map[];
    var rest := raw.Keys;
    while rest != {}
      invariant rest <= raw.Keys
      invariant forall name :: name in out <==> name in raw && name !in rest && !Internal(name)
      invariant forall name :: name in out ==> out[name] == raw[name]
    {
      var name :| name in rest;
      if !Internal(name) {
        out := out[name := raw[name]];
      }
      rest := rest - {name};
    }
  }
}
