/**
 Draft and published versions of pipelines: create, update the draft, publish.
 Requests are served one after the other; a request that fails changes nothing.
 */
module Versions {
  import opened Prelude
  import opened Graphs
  import opened Pipelines
  import opened PipelineValidator

  datatype Status = Draft | Published | Disabled

  datatype Version = Version(status: Status, graph: Graph)

  /** The rows of one pipeline by version number, and the number of the row `active_version_id` names. */
  datatype Pipeline = Pipeline(name: string, versions: map<int, Version>, active: Option<int>)

  type Store = map<string, Pipeline>

  datatype Request =
    | Create(id: string, name: string, graph: Graph)
    | UpdateDraft(id: string, graph: Graph)
    | Publish(id: string, version: int)

  datatype Reply = Done(version: int) | NotFound | Conflict | Invalid | ServerError

  // ------------------------------------------------------------------- steps

  ghost predicate IsLatest(vs: map<int, Version>, k: int) {
    k in vs && forall j :: j in vs ==> j <= k
  }

  /** `None` when there is no version, otherwise the highest number. */
  ghost function Latest(vs: map<int, Version>): Option<int> {
    if exists k :: IsLatest(vs, k) then
      var k :| IsLatest(vs, k);
      Some(k)
    else None
  }

  ghost predicate NameTaken(store: Store, name: string) {
    exists id :: id in store && store[id].name == name
  }

  /** The version number a draft is written to: the latest draft's own, or the next one. */
  function DraftNumber(vs: map<int, Version>, latest: Option<int>): int {
    match latest
    case None => 1
    case Some(k) => if k in vs && vs[k].status == Draft then k else k + 1
  }

  /** Version `v` published and every other published version disabled. */
  function Promote(vs: map<int, Version>, v: int): map<int, Version> {
    map k | k in vs ::
      if k == v then vs[k].(status := Published)
      else if vs[k].status == Published then vs[k].(status := Disabled)
      else vs[k]
  }

  /** What each request answers. */
  ghost function Answer(store: Store, r: Request): Reply {
    match r
    case Create(id, name, g) => if NameTaken(store, name) then Conflict else if Raises(g) then ServerError else Done(1)
    case UpdateDraft(id, g) =>
      if id !in store then NotFound
      else if Raises(g) then ServerError
      else Done(DraftNumber(store[id].versions, Latest(store[id].versions)))
    case Publish(id, v) =>
      if id !in store || v !in store[id].versions then NotFound
      else if store[id].versions[v].status == Published then Conflict
      else if Raises(store[id].versions[v].graph) then ServerError
      else if !Sound(store[id].versions[v].graph) then Invalid
      else Done(v)
  }

  ghost function Apply(store: Store, r: Request): Store {
    if !Answer(store, r).Done? then store
    else
      match r
      case Create(id, name, g) => store[id := Pipeline(name, map[1 := Version(Draft, g)], None)]
      case UpdateDraft(id, g) =>
        var p := store[id];
        store[id := p.(versions := p.versions[Answer(store, r).version := Version(Draft, g)])]
      case Publish(id, v) =>
        var p := store[id];
        store[id := p.(versions := Promote(p.versions, v), active := Some(v))]
  }

  /** Ids are fresh: `Create` is only served with one no pipeline has. */
  ghost predicate Legal(store: Store, rs: seq<Request>)
    decreases |rs|
  {
    rs == [] || (var r := rs[|rs| - 1];
                 var front := rs[..|rs| - 1];
                 Legal(store, front) && (r.Create? ==> r.id !in After(store, front)))
  }

  ghost function After(store: Store, rs: seq<Request>): Store
    decreases |rs|
  {
    if rs == [] then store else Apply(After(store, rs[..|rs| - 1]), rs[|rs| - 1])
  }

  // --------------------------------------------------------------- invariants

  ghost predicate VersionsHold(vs: map<int, Version>, active: Option<int>) {
    && (forall k :: k in vs ==> (vs[k].status == Published <==> active == Some(k)))
    && (active.Some? ==> active.value in vs)
    && (forall k :: k in vs && vs[k].status == Draft ==> IsLatest(vs, k))
    && (forall k :: k in vs && vs[k].status != Draft ==> Sound(vs[k].graph))
    && (exists k :: IsLatest(vs, k) && k >= 1)
    && (forall k :: k in vs ==> k >= 1)
  }

  ghost predicate StoreHolds(store: Store) {
    forall id :: id in store ==> VersionsHold(store[id].versions, store[id].active)
  }

  /** What was published in `a` is still there in `b`, not a draft, with the same graph. */
  ghost predicate Keeps(a: map<int, Version>, b: map<int, Version>) {
    forall k :: k in a && a[k].status != Draft ==> k in b && b[k].status != Draft && b[k].graph == a[k].graph
  }

  ghost predicate StoreKeeps(a: Store, b: Store) {
    forall id :: id in a ==> id in b && a[id].name == b[id].name && Keeps(a[id].versions, b[id].versions)
  }

  lemma LatestIs(vs: map<int, Version>, k: int)
    requires IsLatest(vs, k)
    ensures Latest(vs) == Some(k)
  {
  }

  lemma DraftAt(vs: map<int, Version>, active: Option<int>, k: int, n: int, g: Graph)
    requires VersionsHold(vs, active) && IsLatest(vs, k) && k >= 1
    requires n == if vs[k].status == Draft then k else k + 1
    ensures VersionsHold(vs[n := Version(Draft, g)], active)
  {
    var vs' := vs[n := Version(Draft, g)];
    assert IsLatest(vs', n);
    forall j | j in vs' && vs'[j].status == Draft ensures j == n {
      assert j == n || IsLatest(vs, j);
    }
  }

  lemma DraftKeepsVersions(vs: map<int, Version>, active: Option<int>, g: Graph)
    requires VersionsHold(vs, active)
    ensures
      var vs' := vs[DraftNumber(vs, Latest(vs)) := Version(Draft, g)];
      VersionsHold(vs', active) && Keeps(vs, vs')
  {
    var k :| IsLatest(vs, k) && k >= 1;
    LatestIs(vs, k);
    DraftAt(vs, active, k, DraftNumber(vs, Latest(vs)), g);
  }

  lemma PublishKeepsVersions(vs: map<int, Version>, active: Option<int>, v: int)
    requires VersionsHold(vs, active) && v in vs && vs[v].status != Published && Sound(vs[v].graph)
    ensures VersionsHold(Promote(vs, v), Some(v)) && Keeps(vs, Promote(vs, v))
  {
    var vs' := Promote(vs, v);
    forall k | IsLatest(vs, k) ensures IsLatest(vs', k) {
      LatestKept(vs, vs', k);
    }
    forall j | j in vs'
      ensures vs'[j].graph == vs[j].graph && (vs'[j].status == Draft ==> vs[j].status == Draft && IsLatest(vs, j))
    {
      PromoteAt(vs, v, j);
    }
  }

  lemma LatestKept(vs: map<int, Version>, vs': map<int, Version>, k: int)
    requires IsLatest(vs, k) && vs'.Keys == vs.Keys
    ensures IsLatest(vs', k)
  {
    forall j | j in vs' ensures j <= k {
      assert j in vs;
    }
  }

  lemma PromoteAt(vs: map<int, Version>, v: int, j: int)
    requires j in vs
    ensures Promote(vs, v)[j].graph == vs[j].graph
    ensures Promote(vs, v)[j].status == Draft ==> vs[j].status == Draft
  {
  }

  lemma CreateHolds(g: Graph)
    ensures VersionsHold(map[1 := Version(Draft, g)], None)
  {
    assert IsLatest(map[1 := Version(Draft, g)], 1);
  }

  lemma PutHolds(store: Store, id: string, p: Pipeline)
    requires StoreHolds(store) && VersionsHold(p.versions, p.active)
    requires id in store ==> store[id].name == p.name && Keeps(store[id].versions, p.versions)
    ensures StoreHolds(store[id := p]) && StoreKeeps(store, store[id := p])
  {
  }

  lemma StepHolds(store: Store, r: Request)
    requires StoreHolds(store) && (r.Create? ==> r.id !in store)
    ensures StoreHolds(Apply(store, r)) && StoreKeeps(store, Apply(store, r))
  {
    if Answer(store, r).Done? {
      match r
      case Create(id, name, g) =>
        CreateHolds(g);
        PutHolds(store, id, Apply(store, r)[id]);
      case UpdateDraft(id, g) =>
        DraftKeepsVersions(store[id].versions, store[id].active, g);
        PutHolds(store, id, Apply(store, r)[id]);
      case Publish(id, v) =>
        PublishKeepsVersions(store[id].versions, store[id].active, v);
        PutHolds(store, id, Apply(store, r)[id]);
    }
  }

  /**
   After every run: at most one version of a pipeline is published and it is the active one, only
   the highest version can be a draft, and every version ever published has a graph that meets the
   publication rules.
   */
  lemma {:induction false} RunHolds(rs: seq<Request>)
    requires Legal(map[], rs)
    ensures StoreHolds(After(map[], rs))
  {
    if rs != [] {
      var front := rs[..|rs| - 1];
      RunHolds(front);
      StepHolds(After(map[], front), rs[|rs| - 1]);
    }
  }

  lemma OneActive(rs: seq<Request>, id: string, a: int, b: int)
    requires Legal(map[], rs) && id in After(map[], rs)
    requires a in After(map[], rs)[id].versions && b in After(map[], rs)[id].versions
    requires After(map[], rs)[id].versions[a].status == Published
    requires After(map[], rs)[id].versions[b].status == Published
    ensures a == b && After(map[], rs)[id].active == Some(a)
  {
    RunHolds(rs);
  }

  lemma KeepsFurther(a: Store, b: Store, c: Store)
    requires StoreKeeps(a, b) && StoreKeeps(b, c)
    ensures StoreKeeps(a, c)
  {
    forall id | id in a ensures id in c && a[id].name == c[id].name && Keeps(a[id].versions, c[id].versions) {
      assert Keeps(a[id].versions, b[id].versions) && Keeps(b[id].versions, c[id].versions);
    }
  }

  /** A version once published keeps its graph through everything that follows. */
  lemma {:induction false} PublishedIsImmutable(store: Store, rs: seq<Request>)
    requires StoreHolds(store) && Legal(store, rs)
    ensures StoreHolds(After(store, rs)) && StoreKeeps(store, After(store, rs))
  {
    if rs != [] {
      var front := rs[..|rs| - 1];
      PublishedIsImmutable(store, front);
      StepHolds(After(store, front), rs[|rs| - 1]);
      KeepsFurther(store, After(store, front), After(store, rs));
    }
  }

  /** Along every path of a graph that was ever published the stages advance. */
  lemma PublishedStagesAdvance(rs: seq<Request>, id: string, v: int, p: seq<Key>, i: nat, j: nat)
    requires Legal(map[], rs) && id in After(map[], rs) && v in After(map[], rs)[id].versions
    requires After(map[], rs)[id].versions[v].status != Draft
    requires IsPath(After(map[], rs)[id].versions[v].graph.edges, p) && i < j < |p|
    ensures
      var byKey := ByKey(After(map[], rs)[id].versions[v].graph.nodes);
      && StageOf(byKey, p[i]).Some? && StageOf(byKey, p[j]).Some?
      && Precedes(StageOf(byKey, p[i]).value, StageOf(byKey, p[j]).value)
    ensures |p| <= 7
  {
    RunHolds(rs);
    StagesAdvance(After(map[], rs)[id].versions[v].graph, p, i, j);
    PathsAreShort(After(map[], rs)[id].versions[v].graph, p);
  }

  /** Version numbers run from one up without a gap. */
  ghost predicate Contiguous(vs: map<int, Version>) {
    forall j, k :: k in vs && 1 <= j <= k ==> Numbered(vs, j)
  }

  ghost predicate Numbered(vs: map<int, Version>, j: int) {
    j in vs
  }

  ghost predicate StoreContiguous(store: Store) {
    forall id :: id in store ==> Contiguous(store[id].versions)
  }

  lemma StepContiguous(store: Store, r: Request)
    requires StoreHolds(store) && StoreContiguous(store)
    ensures StoreContiguous(Apply(store, r))
  {
    if Answer(store, r).Done? {
      match r
      case Create(id, name, g) =>
      case UpdateDraft(id, g) =>
        var vs := store[id].versions;
        assert VersionsHold(vs, store[id].active) && Contiguous(vs);
        var k :| IsLatest(vs, k) && k >= 1;
        LatestIs(vs, k);
        NextContiguous(vs, k, Answer(store, r).version, Version(Draft, g));
      case Publish(id, v) =>
        assert Contiguous(store[id].versions);
        SameNumbers(store[id].versions, Promote(store[id].versions, v));
    }
  }

  lemma NextContiguous(vs: map<int, Version>, k: int, n: int, row: Version)
    requires Contiguous(vs) && IsLatest(vs, k) && (n == k || n == k + 1)
    ensures Contiguous(vs[n := row])
  {
    var vs' := vs[n := row];
    forall i, j | j in vs' && 1 <= i <= j ensures Numbered(vs', i) {
      assert i <= k ==> Numbered(vs, i);
    }
  }

  lemma SameNumbers(vs: map<int, Version>, vs': map<int, Version>)
    requires Contiguous(vs) && vs'.Keys == vs.Keys
    ensures Contiguous(vs')
  {
    forall i, j | j in vs' && 1 <= i <= j ensures Numbered(vs', i) {
      assert j in vs && Numbered(vs, i);
    }
  }

  /** In every run the versions of a pipeline are numbered without a gap. */
  lemma {:induction false} NumbersHaveNoGap(rs: seq<Request>)
    requires Legal(map[], rs)
    ensures StoreContiguous(After(map[], rs))
  {
    if rs != [] {
      var front := rs[..|rs| - 1];
      NumbersHaveNoGap(front);
      RunHolds(front);
      StepContiguous(After(map[], front), rs[|rs| - 1]);
    }
  }

  /** Posting a draft that meets the rules and publishing the number answered makes exactly that graph active. */
  lemma DraftThenPublish(store: Store, id: string, g: Graph)
    requires StoreHolds(store) && id in store && Sound(g)
    ensures
      var r := Answer(store, UpdateDraft(id, g));
      var drafted := Apply(store, UpdateDraft(id, g));
      && r.Done? && Answer(drafted, Publish(id, r.version)) == r
      && var p := Apply(drafted, Publish(id, r.version))[id];
      p.active == Some(r.version) && r.version in p.versions && p.versions[r.version] == Version(Published, g)
  {
    SoundIsNamed(g);
    var r := Answer(store, UpdateDraft(id, g));
    var drafted := Apply(store, UpdateDraft(id, g));
    assert drafted[id].versions[r.version] == Version(Draft, g);
  }

  /** No two pipelines have the same name. */
  ghost predicate NamesDiffer(store: Store) {
    forall a, b :: a in store && b in store && a != b ==> store[a].name != store[b].name
  }

  lemma StepNames(store: Store, r: Request)
    requires NamesDiffer(store) && (r.Create? ==> r.id !in store)
    ensures NamesDiffer(Apply(store, r))
  {
    if r.Create? && Answer(store, r).Done? {
      forall id | id in store ensures store[id].name != r.name {
        assert !NameTaken(store, r.name);
      }
    }
  }

  /** In every run pipeline names are unique. */
  lemma {:induction false} NamesAreUnique(rs: seq<Request>)
    requires Legal(map[], rs)
    ensures NamesDiffer(After(map[], rs))
  {
    if rs != [] {
      var front := rs[..|rs| - 1];
      NamesAreUnique(front);
      StepNames(After(map[], front), rs[|rs| - 1]);
    }
  }

  /**
   Creation is refused exactly for a name in use or a graph on which the validator raises; otherwise the pipeline
   has one version, a draft with the posted graph, and nothing active.
   */
  lemma CreateIsExact(store: Store, id: string, name: string, g: Graph)
    requires id !in store
    ensures
      var r, store' := Answer(store, Create(id, name, g)), Apply(store, Create(id, name, g));
      && (r.Done? <==> !Raises(g) && forall other :: other in store ==> store[other].name != name)
      && (r.Done? ==> id in store' && store'[id] == Pipeline(name, map[1 := Version(Draft, g)], None))
      && (forall other :: other in store ==> other in store' && store'[other] == store[other])
  {
    assert NameTaken(store, name) <==> !(forall other :: other in store ==> store[other].name != name);
  }

  /**
   Publishing succeeds exactly for a version that exists, is not published, and whose graph meets the rules; then it
   is published and active, the version published before is disabled, and all else is as it was.
   */
  lemma PublishIsExact(store: Store, id: string, v: int)
    ensures
      var r, store' := Answer(store, Publish(id, v)), Apply(store, Publish(id, v));
      && (r.Done? <==> id in store && v in store[id].versions && store[id].versions[v].status != Published
                       && Sound(store[id].versions[v].graph))
      && (!r.Done? ==> store' == store)
      && store'.Keys == store.Keys && (forall other :: other in store && other != id ==> store'[other] == store[other])
      && (r.Done? ==> PublishedOnly(store[id], v, store'[id]))
  {
    if id in store && v in store[id].versions {
      SoundIsNamed(store[id].versions[v].graph);
    }
  }

  ghost predicate PublishedOnly(p: Pipeline, v: int, p': Pipeline) {
    && p'.name == p.name && p'.active == Some(v) && p'.versions.Keys == p.versions.Keys
    && forall k :: k in p.versions ==>
         && p'.versions[k].graph == p.versions[k].graph
         && (k == v ==> p'.versions[k].status == Published)
         && (k != v && p.versions[k].status == Published ==> p'.versions[k].status == Disabled)
         && (k != v && p.versions[k].status != Published ==> p'.versions[k].status == p.versions[k].status)
  }

  /**
   A draft update is refused exactly for a missing pipeline or a graph on which the validator raises; otherwise
   the draft, if the highest version is one, or else a next version, holds the posted graph, and all else is as it was.
   */
  lemma UpdateIsExact(store: Store, id: string, g: Graph, top: int)
    requires id in store ==> IsLatest(store[id].versions, top)
    ensures
      var r, store' := Answer(store, UpdateDraft(id, g)), Apply(store, UpdateDraft(id, g));
      && (r.Done? <==> id in store && !Raises(g))
      && (!r.Done? ==> store' == store)
      && (r.Done? ==>
            && r.version == (if store[id].versions[top].status == Draft then top else top + 1)
            && store' == store[id := store[id].(versions := store[id].versions[r.version := Version(Draft, g)])])
  {
    if id in store {
      LatestIs(store[id].versions, top);
    }
  }

  // --------------------------------------------------------------- handlers

  lemma {:induction false} LatestExists(ks: set<int>) returns (k: int)
    requires ks != {}
    ensures k in ks && forall j :: j in ks ==> j <= k
    decreases |ks|
  {
    var x := Witness(ks);
    var rest := ks - {x};
    if rest == {} {
      k := x;
      forall j | j in ks ensures j <= k {
        assert j == x || j in rest;
      }
    } else {
      var m := LatestExists(rest);
      k := if x <= m then m else x;
      assert forall j :: j in ks ==> j == x || j in rest;
    }
  }

  class PipelineApi {
    var store: Store

    constructor ()
      ensures store == map[]
    {
      store := map[];
    }

    /** `create_pipeline`; `id` is the new row's id. */
    method CreatePipeline(id: string, name: string, graph: Graph) returns (r: Reply)
      requires id !in store
      modifies this
      ensures r == Answer(old(store), Create(id, name, graph)) && store == Apply(old(store), Create(id, name, graph))
    {
      if exists other | other in store :: store[other].name == name {
        return Conflict;
      }
      var res := ValidateGraph(graph);
      if res.Raised? {
        return ServerError;
      }
      store := store[id := Pipeline(name, map[1 := Version(Draft, graph)], None)];
      r := Done(1);
    }

    /** The query for the row with the highest version number. */
    method LatestVersion(vs: map<int, Version>) returns (latest: Option<int>)
      ensures latest == Latest(vs)
    {
      if vs.Keys == {} {
        latest := None;
        assert !exists k :: IsLatest(vs, k);
      } else {
        ghost var w := LatestExists(vs.Keys);
        var k :| k in vs.Keys && forall j :: j in vs.Keys ==> j <= k;
        assert IsLatest(vs, k);
        LatestIs(vs, k);
        latest := Some(k);
      }
    }

    /** `update_draft`. */
    method Update(id: string, graph: Graph) returns (r: Reply)
      modifies this
      ensures r == Answer(old(store), UpdateDraft(id, graph)) && store == Apply(old(store), UpdateDraft(id, graph))
    {
      if id !in store {
        return NotFound;
      }
      var p := store[id];
      var latest := LatestVersion(p.versions);
      var number: int;
      if latest == None || (latest.value in p.versions && p.versions[latest.value].status != Draft) {
        number := if latest.Some? then latest.value + 1 else 1;
      } else {
        number := latest.value;
      }
      var res := ValidateGraph(graph);
      if res.Raised? {
        return ServerError;
      }
      store := store[id := p.(versions := p.versions[number := Version(Draft, graph)])];
      r := Done(number);
    }

    /** Mark `version` published, then disable the other published rows one by one. */
    method DisableOthers(rows: map<int, Version>, version: int) returns (vs: map<int, Version>)
      requires version in rows
      ensures vs == Promote(rows, version)
    {
      vs := rows[version := rows[version].(status := Published)];
      var others := set k | k in vs && k != version && vs[k].status == Published;
      while others != {}
        invariant vs.Keys == rows.Keys && others <= rows.Keys
        invariant forall k :: k in rows && k !in others ==> vs[k] == Promote(rows, version)[k]
        invariant forall k :: k in others ==> k != version && vs[k] == rows[k] && rows[k].status == Published
      {
        ghost var w := Witness(others);
        var o :| o in others;
        others := others - {o};
        vs := vs[o := vs[o].(status := Disabled)];
      }
    }

    /** `publish`. */
    method PublishVersion(id: string, version: int) returns (r: Reply)
      modifies this
      ensures r == Answer(old(store), Publish(id, version)) && store == Apply(old(store), Publish(id, version))
    {
      if id !in store || version !in store[id].versions {
        return NotFound;
      }
      var p := store[id];
      var v := p.versions[version];
      if v.status == Published {
        return Conflict;
      }
      var res := ValidateGraph(v.graph);
      if res.Raised? {
        return ServerError;
      }
      if !res.v.ok {
        return Invalid;
      }
      var vs := DisableOthers(p.versions, version);
      store := store[id := p.(versions := vs, active := Some(version))];
      r := Done(version);
    }
  }
}
