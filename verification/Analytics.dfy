/**
 Event-time analytics: a write-behind cache of per-minute accumulators that must
 agree with a plain group-by over the events that were not dropped.
 */
module Analytics {
  import opened Prelude
  import opened EventTime
  import opened Metrics

  const BUCKET: int := 60_000_000

  /** `_bucket_start`: the event time rounded down to the minute. */
  function BucketOf(t: Time): Time {
    (t / BUCKET) * BUCKET
  }

  /** The start `b` of a minute that holds the time `t`. */
  predicate MinuteHolds(b: Time, t: Time) {
    b % 60_000_000 == 0 && b <= t < b + 60_000_000
  }

  /** A time is in exactly one whole minute, and that is its bucket. */
  lemma BucketIsMinute(t: Time, b: Time)
    ensures MinuteHolds(b, t) <==> b == BucketOf(t)
  {
    var q := t / BUCKET;
    assert t == BUCKET * q + t % BUCKET && BucketOf(t) == BUCKET * q;
    if MinuteHolds(b, t) {
      assert b == BUCKET * (b / BUCKET);
    }
  }

  datatype Key = Key(metric: string, bucket: Time, group: string)
  type Store = map<Key, Acc>

  function AccAt(store: Store, key: Key): Acc {
    if key in store then store[key] else EMPTY
  }

  function RegionOf(e: Event): string {
    if e.region.None? || e.region.value == "" then "unknown" else e.region.value
  }

  function Groups(def: MetricDef, e: Event): seq<string> {
    if "region" in def.groupBy then ["_all", "region:" + RegionOf(e)] else ["_all"]
  }

  lemma GroupsDistinct(def: MetricDef, e: Event)
    ensures forall i, j :: 0 <= i < j < |Groups(def, e)| ==> Groups(def, e)[i] != Groups(def, e)[j]
  {
    assert "_all"[0] != ("region:" + RegionOf(e))[0];
  }

  // -------------------------------------------------------------- one event

  function Touch(store: Store, key: Key, d: Delta): Store {
    store[key := Update(AccAt(store, key), d)]
  }

  /** One contribution, added to the first `n` of its groups. */
  function AddTo(store: Store, bucket: Time, c: Contribution, groups: seq<string>): Store {
    if groups == [] then store
    else Touch(AddTo(store, bucket, c, groups[..|groups| - 1]),
               Key(c.def.name, bucket, groups[|groups| - 1]), c.delta)
  }

  function AddAll(store: Store, e: Event, cs: seq<Contribution>): Store {
    if cs == [] then store
    else
      var c := cs[|cs| - 1];
      AddTo(AddAll(store, e, cs[..|cs| - 1]), BucketOf(e.time), c, Groups(c.def, e))
  }

  function AddEvent(catalog: Catalog, store: Store, e: Event): Store {
    AddAll(store, e, Contributions(catalog, e))
  }

  function StoreOf(catalog: Catalog, es: seq<Event>): Store {
    if es == [] then map[] else AddEvent(catalog, StoreOf(catalog, es[..|es| - 1]), es[|es| - 1])
  }

  // ------------------------------------------------------ the plain group-by

  /** The group of a key takes the event: everything goes to "_all", and regional metrics to their region too. */
  predicate GroupTakes(def: MetricDef, e: Event, group: string) {
    || group == "_all"
    || ("region" in def.groupBy
        && group == "region:" + if e.region.Some? && e.region.value != "" then e.region.value else "unknown")
  }

  predicate Feeds(c: Contribution, e: Event, key: Key) {
    MinuteHolds(key.bucket, e.time) && key.metric == c.def.name && GroupTakes(c.def, e, key.group)
  }

  lemma FeedsIff(c: Contribution, e: Event, key: Key)
    ensures Feeds(c, e, key) <==>
            key.bucket == BucketOf(e.time) && key.metric == c.def.name && key.group in Groups(c.def, e)
  {
    BucketIsMinute(e.time, key.bucket);
  }

  function DeltasFrom(cs: seq<Contribution>, e: Event, key: Key): seq<Delta> {
    if cs == [] then []
    else DeltasFrom(cs[..|cs| - 1], e, key) + if Feeds(cs[|cs| - 1], e, key) then [cs[|cs| - 1].delta] else []
  }

  /** All updates of one metric, minute and group, in order: group by (metric, minute, group). */
  function GroupBy(catalog: Catalog, es: seq<Event>, key: Key): seq<Delta> {
    if es == [] then []
    else GroupBy(catalog, es[..|es| - 1], key) + DeltasFrom(Contributions(catalog, es[|es| - 1]), es[|es| - 1], key)
  }

  lemma FoldSnoc(ds: seq<Delta>, d: Delta)
    ensures Fold(ds + [d]) == Update(Fold(ds), d)
  {
    assert (ds + [d])[..|ds + [d]| - 1] == ds;
  }

  lemma {:induction false} AddToAt(store: Store, bucket: Time, c: Contribution, groups: seq<string>, key: Key)
    requires forall i, j :: 0 <= i < j < |groups| ==> groups[i] != groups[j]
    ensures AccAt(AddTo(store, bucket, c, groups), key) ==
              if key.bucket == bucket && key.metric == c.def.name && key.group in groups
              then Update(AccAt(store, key), c.delta) else AccAt(store, key)
  {
    if groups != [] {
      var n := |groups| - 1;
      AddToAt(store, bucket, c, groups[..n], key);
      assert groups == groups[..n] + [groups[n]];
      assert groups[n] !in groups[..n];
    }
  }

  /** An event updates each accumulator by exactly the deltas that the group-by gives it. */
  lemma {:induction false} AddAllAt(store: Store, e: Event, cs: seq<Contribution>, key: Key, ds: seq<Delta>)
    requires AccAt(store, key) == Fold(ds)
    ensures AccAt(AddAll(store, e, cs), key) == Fold(ds + DeltasFrom(cs, e, key))
  {
    if cs == [] {
      assert ds + [] == ds;
    } else {
      var n := |cs| - 1;
      AddAllAt(store, e, cs[..n], key, ds);
      GroupsDistinct(cs[n].def, e);
      AddToAt(AddAll(store, e, cs[..n]), BucketOf(e.time), cs[n], Groups(cs[n].def, e), key);
      FeedsIff(cs[n], e, key);
      var init := ds + DeltasFrom(cs[..n], e, key);
      FoldSnoc(init, cs[n].delta);
      if Feeds(cs[n], e, key) {
        assert ds + DeltasFrom(cs, e, key) == init + [cs[n].delta];
      } else {
        assert ds + DeltasFrom(cs, e, key) == init;
      }
    }
  }

  /** The incremental accumulators are the fold of the plain group-by. */
  lemma {:induction false} StoreIsGroupBy(catalog: Catalog, es: seq<Event>, key: Key)
    ensures AccAt(StoreOf(catalog, es), key) == Fold(GroupBy(catalog, es, key))
  {
    if es != [] {
      var n := |es| - 1;
      StoreIsGroupBy(catalog, es[..n], key);
      AddAllAt(StoreOf(catalog, es[..n]), es[n], Contributions(catalog, es[n]), key, GroupBy(catalog, es[..n], key));
    }
  }

  /** An event leaves the accumulators of every other minute alone. */
  lemma OtherBuckets(catalog: Catalog, store: Store, e: Event, key: Key)
    requires !MinuteHolds(key.bucket, e.time)
    ensures AccAt(AddEvent(catalog, store, e), key) == AccAt(store, key)
  {
    BucketIsMinute(e.time, key.bucket);
    OtherBucketsAll(store, e, Contributions(catalog, e), key);
  }

  lemma {:induction false} OtherBucketsAll(store: Store, e: Event, cs: seq<Contribution>, key: Key)
    requires key.bucket != BucketOf(e.time)
    ensures AccAt(AddAll(store, e, cs), key) == AccAt(store, key)
  {
    if cs != [] {
      var n := |cs| - 1;
      OtherBucketsAll(store, e, cs[..n], key);
      GroupsDistinct(cs[n].def, e);
      AddToAt(AddAll(store, e, cs[..n]), BucketOf(e.time), cs[n], Groups(cs[n].def, e), key);
    }
  }
}
