/**
 Validation of pipeline graphs: nodes with a stage and a configuration, edges
 between node keys. A graph is accepted exactly when it meets the publication rules.
 */
module Pipelines {
  import opened Prelude
  import opened Graphs

  datatype Stage = Source | Filter | Transform | Group | Window | Aggregate | Sink

  /** The canonical stage order. */
  const STAGES: seq<Stage> := [Source, Filter, Transform, Group, Window, Aggregate, Sink]

  /** `a` comes strictly before `b` in the canonical order. */
  ghost predicate Precedes(a: Stage, b: Stage) {
    exists i, j :: 0 <= i < j < |STAGES| && STAGES[i] == a && STAGES[j] == b
  }

  /** The rank is the position in the list. */
  lemma RankIsPosition(s: Stage)
    ensures Rank(s) < |STAGES| && STAGES[Rank(s)] == s
    ensures forall i :: 0 <= i < |STAGES| && STAGES[i] == s ==> i == Rank(s)
  {
  }

  lemma PrecedesIff(a: Stage, b: Stage)
    ensures Precedes(a, b) <==> Rank(a) < Rank(b)
  {
    RankIsPosition(a);
    RankIsPosition(b);
    if Rank(a) < Rank(b) {
      assert STAGES[Rank(a)] == a && STAGES[Rank(b)] == b;
    }
  }

  /** Position in the canonical stage order. */
  function Rank(s: Stage): nat {
    match s
    case Source => 0
    case Filter => 1
    case Transform => 2
    case Group => 3
    case Window => 4
    case Aggregate => 5
    case Sink => 6
  }

  /** A window length in a node's configuration: absent, well formed or malformed. */
  datatype Length = Absent | Parses | Malformed

  /** `stage` is `None` when the node's type is missing or not one of the seven. */
  datatype Node = Node(key: Key, stage: Option<Stage>, size: Length, slide: Length, kindKnown: bool)

  datatype Graph = Graph(nodes: seq<Node>, edges: seq<Edge>)

  datatype Problem =
    | DuplicateKeys
    | NoKey
    | InvalidType(key: Key)
    | MissingSize(key: Key)
    | BadLength(key: Key)
    | UnknownKind(key: Key)
    | UnknownNode(edge: Edge)
    | StageOrder(edge: Edge)
    | SourceCount(found: nat)
    | NoSink
    | CycleFound

  datatype Validation = Validation(ok: bool, errors: seq<Problem>, unreachable: set<Key>, order: seq<Key>)

  /** The validator can also raise: on an unnamed node's key, or when sorting it among names. */
  datatype Outcome = Raised | Checked(v: Validation)

  predicate Falsy(k: Key) {
    k == Missing || k == Named("")
  }

  // ------------------------------------------------------------ vocabulary

  function KeySet(nodes: seq<Node>): set<Key> {
    set i | 0 <= i < |nodes| :: nodes[i].key
  }

  /** `by_key`: named nodes only, the last one of a key wins. */
  function ByKey(nodes: seq<Node>): map<Key, Node> {
    if nodes == [] then map[]
    else
      var n := nodes[|nodes| - 1];
      var before := ByKey(nodes[..|nodes| - 1]);
      if Falsy(n.key) then before else before[n.key := n]
  }

  /** The keys of `by_key` in the order in which they were first inserted. */
  function Names(nodes: seq<Node>): seq<Key> {
    if nodes == [] then []
    else
      var n := nodes[|nodes| - 1];
      var front := nodes[..|nodes| - 1];
      Names(front) + if Falsy(n.key) || n.key in ByKey(front) then [] else [n.key]
  }

  function StageOf(byKey: map<Key, Node>, k: Key): Option<Stage> {
    if k in byKey then byKey[k].stage else None
  }

  /** The keys whose node has stage `st`. */
  function OfStage(names: seq<Key>, byKey: map<Key, Node>, st: Stage): seq<Key> {
    if names == [] then []
    else
      var n := |names| - 1;
      OfStage(names[..n], byKey, st) + if StageOf(byKey, names[n]) == Some(st) then [names[n]] else []
  }

  /** The edges whose two ends are keys of nodes. */
  function Known(es: seq<Edge>, keys: set<Key>): seq<Edge> {
    if es == [] then []
    else
      var e := es[|es| - 1];
      Known(es[..|es| - 1], keys) + if e.src in keys && e.dst in keys then [e] else []
  }

  // -------------------------------------------------------------- problems

  function LengthProblems(n: Node): seq<Problem> {
    (if n.size == Absent then [MissingSize(n.key)] else [])
    + (if n.size == Malformed || n.slide == Malformed then [BadLength(n.key)] else [])
  }

  function NodeProblems(n: Node): seq<Problem> {
    if Falsy(n.key) then [NoKey]
    else if n.stage == None then [InvalidType(n.key)]
    else if n.stage == Some(Window) then LengthProblems(n)
    else if n.stage == Some(Aggregate) && !n.kindKnown then [UnknownKind(n.key)]
    else []
  }

  function AllNodeProblems(nodes: seq<Node>): seq<Problem> {
    if nodes == [] then [] else AllNodeProblems(nodes[..|nodes| - 1]) + NodeProblems(nodes[|nodes| - 1])
  }

  function EdgeProblems(keys: set<Key>, byKey: map<Key, Node>, e: Edge): seq<Problem> {
    if e.src !in keys || e.dst !in keys then [UnknownNode(e)]
    else
      var ta, tb := StageOf(byKey, e.src), StageOf(byKey, e.dst);
      if ta.Some? && tb.Some? && Rank(tb.value) <= Rank(ta.value) then [StageOrder(e)] else []
  }

  function AllEdgeProblems(keys: set<Key>, byKey: map<Key, Node>, es: seq<Edge>): seq<Problem> {
    if es == [] then []
    else AllEdgeProblems(keys, byKey, es[..|es| - 1]) + EdgeProblems(keys, byKey, es[|es| - 1])
  }

  function DuplicateProblem(nodes: seq<Node>): seq<Problem> {
    if |nodes| != |KeySet(nodes)| then [DuplicateKeys] else []
  }

  function EndProblems(sources: seq<Key>, sinks: seq<Key>): seq<Problem> {
    (if |sources| != 1 then [SourceCount(|sources|)] else []) + (if sinks == [] then [NoSink] else [])
  }

  function SourcesOf(g: Graph): seq<Key> {
    OfStage(Names(g.nodes), ByKey(g.nodes), Source)
  }

  function SinksOf(g: Graph): seq<Key> {
    OfStage(Names(g.nodes), ByKey(g.nodes), Sink)
  }

  function KnownEdges(g: Graph): seq<Edge> {
    Known(g.edges, KeySet(g.nodes))
  }

  /** Everything reported about `g` except the cycle. */
  function LocalProblems(g: Graph): seq<Problem> {
    DuplicateProblem(g.nodes) + AllNodeProblems(g.nodes)
    + AllEdgeProblems(KeySet(g.nodes), ByKey(g.nodes), g.edges) + EndProblems(SourcesOf(g), SinksOf(g))
  }

  ghost function Problems(g: Graph): seq<Problem> {
    LocalProblems(g) + if HasCycle(KnownEdges(g)) then [CycleFound] else []
  }

  // ------------------------------------------------------------ publication rules

  predicate ConfigOk(n: Node) {
    && (n.stage == Some(Window) ==> n.size == Parses && n.slide != Malformed)
    && (n.stage == Some(Aggregate) ==> n.kindKnown)
  }

  ghost predicate EdgeAdvances(nodes: seq<Node>, e: Edge) {
    exists i, j :: 0 <= i < |nodes| && 0 <= j < |nodes| && Joins(nodes[i], nodes[j], e)
  }

  ghost predicate Joins(a: Node, b: Node, e: Edge) {
    && a.key == e.src && b.key == e.dst && a.stage.Some? && b.stage.Some?
    && Precedes(a.stage.value, b.stage.value)
  }

  predicate NodeOk(n: Node) {
    !Falsy(n.key) && n.stage.Some? && ConfigOk(n)
  }

  ghost predicate UniqueKeys(nodes: seq<Node>) {
    forall i, j :: 0 <= i < j < |nodes| ==> nodes[i].key != nodes[j].key
  }

  /** Exactly one node of stage `Source`. */
  ghost predicate OneSource(nodes: seq<Node>) {
    && (exists i :: 0 <= i < |nodes| && nodes[i].stage == Some(Source))
    && (forall i, j :: 0 <= i < j < |nodes| ==> !(nodes[i].stage == Some(Source) && nodes[j].stage == Some(Source)))
  }

  /** The rules a published graph must meet, read off the nodes and edges themselves. */
  ghost predicate Sound(g: Graph) {
    && UniqueKeys(g.nodes)
    && (forall i :: 0 <= i < |g.nodes| ==> NodeOk(g.nodes[i]))
    && (forall i :: 0 <= i < |g.edges| ==> EdgeAdvances(g.nodes, g.edges[i]))
    && OneSource(g.nodes)
    && (exists i :: 0 <= i < |g.nodes| && g.nodes[i].stage == Some(Sink))
  }

  // -------------------------------------------------------- facts about by_key

  lemma {:induction false} ByKeyHolds(nodes: seq<Node>)
    ensures forall k :: k in ByKey(nodes) <==> k in KeySet(nodes) && !Falsy(k)
    ensures forall k :: k in ByKey(nodes) ==> ByKey(nodes)[k] in nodes && ByKey(nodes)[k].key == k
  {
    if nodes != [] {
      var n := |nodes| - 1;
      ByKeyHolds(nodes[..n]);
      assert nodes == nodes[..n] + [nodes[n]];
      KeySetSnoc(nodes);
    }
  }

  lemma KeySetSnoc(nodes: seq<Node>)
    requires nodes != []
    ensures KeySet(nodes) == KeySet(nodes[..|nodes| - 1]) + {nodes[|nodes| - 1].key}
  {
    var n := |nodes| - 1;
    forall k | k in KeySet(nodes) ensures k in KeySet(nodes[..n]) + {nodes[n].key} {
      var i :| 0 <= i < |nodes| && nodes[i].key == k;
      assert i < n ==> nodes[..n][i].key == k;
    }
    forall k | k in KeySet(nodes[..n]) ensures k in KeySet(nodes) {
      var i :| 0 <= i < n && nodes[..n][i].key == k;
      assert nodes[i].key == k;
    }
  }

  lemma {:induction false} NamesHold(nodes: seq<Node>)
    ensures Distinct(Names(nodes)) && forall k :: k in Names(nodes) <==> k in ByKey(nodes)
  {
    if nodes != [] {
      NamesHold(nodes[..|nodes| - 1]);
    }
  }

  lemma {:induction false} OfStageHolds(names: seq<Key>, byKey: map<Key, Node>, st: Stage)
    ensures forall k :: k in OfStage(names, byKey, st) <==> k in names && StageOf(byKey, k) == Some(st)
    ensures Distinct(names) ==> Distinct(OfStage(names, byKey, st))
  {
    if names != [] {
      var n := |names| - 1;
      OfStageHolds(names[..n], byKey, st);
      assert names == names[..n] + [names[n]];
      assert Distinct(names) ==> Distinct(names[..n]) && names[n] !in names[..n];
    }
  }

  lemma {:induction false} UniqueCard(nodes: seq<Node>)
    ensures |KeySet(nodes)| <= |nodes|
    ensures |nodes| == |KeySet(nodes)| <==> UniqueKeys(nodes)
  {
    if nodes == [] {
      assert KeySet(nodes) == {};
    } else {
      var n := |nodes| - 1;
      UniqueCard(nodes[..n]);
      KeySetSnoc(nodes);
      if nodes[n].key in KeySet(nodes[..n]) {
        assert KeySet(nodes) == KeySet(nodes[..n]);
        var i :| 0 <= i < n && nodes[..n][i].key == nodes[n].key;
        assert nodes[i].key == nodes[n].key;
      } else {
        assert |KeySet(nodes)| == |KeySet(nodes[..n])| + 1;
        UniqueSnoc(nodes);
      }
    }
  }

  lemma UniqueSnoc(nodes: seq<Node>)
    requires nodes != [] && nodes[|nodes| - 1].key !in KeySet(nodes[..|nodes| - 1])
    ensures UniqueKeys(nodes) <==> UniqueKeys(nodes[..|nodes| - 1])
  {
    var front := nodes[..|nodes| - 1];
    forall i | 0 <= i < |front| ensures front[i].key != nodes[|nodes| - 1].key {
      assert front[i].key in KeySet(front);
    }
    assert forall i :: 0 <= i < |front| ==> front[i] == nodes[i];
  }

  /** With unique keys `by_key` finds each node under its own key. */
  lemma ByKeyFinds(nodes: seq<Node>, i: nat)
    requires UniqueKeys(nodes) && i < |nodes| && !Falsy(nodes[i].key)
    ensures nodes[i].key in ByKey(nodes) && ByKey(nodes)[nodes[i].key] == nodes[i]
  {
    ByKeyHolds(nodes);
    assert nodes[i].key in KeySet(nodes);
    var j :| 0 <= j < |nodes| && nodes[j] == ByKey(nodes)[nodes[i].key];
    if j != i {
      assert nodes[j].key == nodes[i].key;
    }
  }

  lemma {:induction false} KnownHolds(es: seq<Edge>, keys: set<Key>)
    ensures EdgesWithin(Known(es, keys), keys)
    ensures forall e :: e in Known(es, keys) <==> e in es && e.src in keys && e.dst in keys
  {
    if es != [] {
      KnownHolds(es[..|es| - 1], keys);
      assert es == es[..|es| - 1] + [es[|es| - 1]];
    }
  }

  lemma {:induction false} AllKnown(es: seq<Edge>, keys: set<Key>)
    requires EdgesWithin(es, keys)
    ensures Known(es, keys) == es
  {
    if es != [] {
      AllKnown(es[..|es| - 1], keys);
      assert es == es[..|es| - 1] + [es[|es| - 1]];
    }
  }

  // ------------------------------------------------- no problems means sound

  lemma {:induction false} NoNodeProblems(nodes: seq<Node>)
    ensures AllNodeProblems(nodes) == [] <==> forall i :: 0 <= i < |nodes| ==> NodeOk(nodes[i])
  {
    if nodes != [] {
      var n := |nodes| - 1;
      NoNodeProblems(nodes[..n]);
      assert forall i :: 0 <= i < n ==> nodes[..n][i] == nodes[i];
      assert NodeProblems(nodes[n]) == [] <==> NodeOk(nodes[n]);
    }
  }

  lemma {:induction false} NoEdgeProblems(keys: set<Key>, byKey: map<Key, Node>, es: seq<Edge>)
    ensures AllEdgeProblems(keys, byKey, es) == [] <==>
            forall i :: 0 <= i < |es| ==> EdgeProblems(keys, byKey, es[i]) == []
  {
    if es != [] {
      var n := |es| - 1;
      NoEdgeProblems(keys, byKey, es[..n]);
      assert forall i :: 0 <= i < n ==> es[..n][i] == es[i];
    }
  }

  ghost predicate NodesOk(nodes: seq<Node>) {
    UniqueKeys(nodes) && forall i :: 0 <= i < |nodes| ==> NodeOk(nodes[i])
  }

  lemma EdgeMeaningAt(nodes: seq<Node>, e: Edge, i: nat, j: nat)
    requires NodesOk(nodes) && i < |nodes| && j < |nodes| && nodes[i].key == e.src && nodes[j].key == e.dst
    ensures EdgeProblems(KeySet(nodes), ByKey(nodes), e) == [] <==> Joins(nodes[i], nodes[j], e)
  {
    assert NodeOk(nodes[i]) && NodeOk(nodes[j]);
    PrecedesIff(nodes[i].stage.value, nodes[j].stage.value);
    ByKeyFinds(nodes, i);
    ByKeyFinds(nodes, j);
    assert e.src in KeySet(nodes) && e.dst in KeySet(nodes);
  }

  lemma EdgeMeaning(nodes: seq<Node>, e: Edge)
    requires NodesOk(nodes)
    ensures EdgeProblems(KeySet(nodes), ByKey(nodes), e) == [] <==> EdgeAdvances(nodes, e)
  {
    if EdgeAdvances(nodes, e) {
      var i, j :| 0 <= i < |nodes| && 0 <= j < |nodes| && Joins(nodes[i], nodes[j], e);
      EdgeMeaningAt(nodes, e, i, j);
    } else if e.src in KeySet(nodes) && e.dst in KeySet(nodes) {
      var i :| 0 <= i < |nodes| && nodes[i].key == e.src;
      var j :| 0 <= j < |nodes| && nodes[j].key == e.dst;
      EdgeMeaningAt(nodes, e, i, j);
    }
  }

  lemma StageMeaning(nodes: seq<Node>, st: Stage)
    requires NodesOk(nodes)
    ensures
      var ks := OfStage(Names(nodes), ByKey(nodes), st);
      && Distinct(ks)
      && (forall k :: k in ks ==> exists i :: 0 <= i < |nodes| && nodes[i].key == k && nodes[i].stage == Some(st))
      && (forall i :: 0 <= i < |nodes| && nodes[i].stage == Some(st) ==> nodes[i].key in ks)
  {
    var ks := OfStage(Names(nodes), ByKey(nodes), st);
    NamesHold(nodes);
    OfStageHolds(Names(nodes), ByKey(nodes), st);
    ByKeyHolds(nodes);
    forall i | 0 <= i < |nodes| && nodes[i].stage == Some(st) ensures nodes[i].key in ks {
      assert NodeOk(nodes[i]);
      ByKeyFinds(nodes, i);
    }
  }

  lemma OnlyOne(ks: seq<Key>, k: Key)
    requires Distinct(ks) && k in ks && forall a :: 0 <= a < |ks| ==> ks[a] == k
    ensures |ks| == 1
  {
    DistinctCard(ks, {k});
  }

  lemma OneSourceListed(g: Graph)
    requires NodesOk(g.nodes) && OneSource(g.nodes)
    ensures |SourcesOf(g)| == 1
  {
    var ks := SourcesOf(g);
    StageMeaning(g.nodes, Source);
    var i :| 0 <= i < |g.nodes| && g.nodes[i].stage == Some(Source);
    forall a | 0 <= a < |ks| ensures ks[a] == g.nodes[i].key {
      assert ks[a] in ks;
      var j :| 0 <= j < |g.nodes| && g.nodes[j].key == ks[a] && g.nodes[j].stage == Some(Source);
      assert i == j;
    }
    OnlyOne(ks, g.nodes[i].key);
  }

  lemma SourceMeaning(g: Graph)
    requires NodesOk(g.nodes)
    ensures |SourcesOf(g)| == 1 <==> OneSource(g.nodes)
  {
    var ks := SourcesOf(g);
    if |ks| == 1 {
      StageMeaning(g.nodes, Source);
      assert ks[0] in ks;
      assert forall i :: 0 <= i < |g.nodes| && g.nodes[i].stage == Some(Source) ==> g.nodes[i].key == ks[0];
    }
    if OneSource(g.nodes) {
      OneSourceListed(g);
    }
  }

  lemma SinkMeaning(g: Graph)
    requires NodesOk(g.nodes)
    ensures SinksOf(g) != [] <==> exists i :: 0 <= i < |g.nodes| && g.nodes[i].stage == Some(Sink)
  {
    StageMeaning(g.nodes, Sink);
    if SinksOf(g) != [] {
      assert SinksOf(g)[0] in SinksOf(g);
    }
  }

  lemma LocalEmpty(g: Graph)
    ensures LocalProblems(g) == [] <==>
            && UniqueKeys(g.nodes) && AllNodeProblems(g.nodes) == []
            && AllEdgeProblems(KeySet(g.nodes), ByKey(g.nodes), g.edges) == []
            && |SourcesOf(g)| == 1 && SinksOf(g) != []
  {
    UniqueCard(g.nodes);
  }

  lemma EdgesMeaning(g: Graph)
    requires NodesOk(g.nodes)
    ensures AllEdgeProblems(KeySet(g.nodes), ByKey(g.nodes), g.edges) == [] <==>
            forall i :: 0 <= i < |g.edges| ==> EdgeAdvances(g.nodes, g.edges[i])
  {
    NoEdgeProblems(KeySet(g.nodes), ByKey(g.nodes), g.edges);
    forall i | 0 <= i < |g.edges|
      ensures EdgeProblems(KeySet(g.nodes), ByKey(g.nodes), g.edges[i]) == [] <==> EdgeAdvances(g.nodes, g.edges[i])
    {
      EdgeMeaning(g.nodes, g.edges[i]);
    }
  }

  /** Apart from the cycle, nothing is reported exactly when the publication rules hold. */
  lemma LocalMeaning(g: Graph)
    ensures LocalProblems(g) == [] <==> Sound(g)
  {
    LocalEmpty(g);
    NoNodeProblems(g.nodes);
    if NodesOk(g.nodes) {
      EdgesMeaning(g);
      SourceMeaning(g);
      SinkMeaning(g);
    }
  }

  lemma {:induction false} NodesReportNoCycle(nodes: seq<Node>)
    ensures CycleFound !in AllNodeProblems(nodes)
  {
    if nodes != [] {
      NodesReportNoCycle(nodes[..|nodes| - 1]);
      assert CycleFound !in NodeProblems(nodes[|nodes| - 1]);
    }
  }

  lemma {:induction false} EdgesReportNoCycle(keys: set<Key>, byKey: map<Key, Node>, es: seq<Edge>)
    ensures CycleFound !in AllEdgeProblems(keys, byKey, es)
  {
    if es != [] {
      EdgesReportNoCycle(keys, byKey, es[..|es| - 1]);
      assert CycleFound !in EdgeProblems(keys, byKey, es[|es| - 1]);
    }
  }

  /** The cycle is reported exactly when the edges between known nodes contain one. */
  lemma CycleReportedIff(g: Graph)
    ensures CycleFound in Problems(g) <==> HasCycle(KnownEdges(g))
  {
    NodesReportNoCycle(g.nodes);
    EdgesReportNoCycle(KeySet(g.nodes), ByKey(g.nodes), g.edges);
    assert CycleFound !in LocalProblems(g);
  }

  // ------------------------------------------------------- sound graphs

  ghost function RankOf(g: Graph, k: Key): int {
    var st := StageOf(ByKey(g.nodes), k);
    if st.Some? then Rank(st.value) else 0
  }

  lemma EdgeClimbs(g: Graph, a: Key, b: Key)
    requires Sound(g) && HasEdge(g.edges, a, b)
    ensures a in KeySet(g.nodes) && b in KeySet(g.nodes) && RankOf(g, a) < RankOf(g, b)
  {
    var n :| 0 <= n < |g.edges| && g.edges[n] == Edge(a, b);
    assert EdgeAdvances(g.nodes, g.edges[n]);
    var i, j :| 0 <= i < |g.nodes| && 0 <= j < |g.nodes| && Joins(g.nodes[i], g.nodes[j], g.edges[n]);
    assert NodeOk(g.nodes[i]) && NodeOk(g.nodes[j]);
    PrecedesIff(g.nodes[i].stage.value, g.nodes[j].stage.value);
    ByKeyFinds(g.nodes, i);
    ByKeyFinds(g.nodes, j);
  }

  /** Along every path of a sound graph the stage rank strictly increases. */
  lemma RanksIncrease(g: Graph, p: seq<Key>, i: nat, j: nat)
    requires Sound(g) && IsPath(g.edges, p) && i < j < |p|
    ensures RankOf(g, p[i]) + (j - i) <= RankOf(g, p[j])
  {
    var ranks := seq(|p|, k requires 0 <= k < |p| => RankOf(g, p[k]));
    forall k | 0 < k < |ranks| ensures ranks[k - 1] < ranks[k] {
      LastClimb(g, p, k);
    }
    Climbing(ranks, i, j);
  }

  lemma {:induction false} Climbing(ranks: seq<int>, i: nat, j: nat)
    requires i < j < |ranks| && forall k :: 0 < k < |ranks| ==> ranks[k - 1] < ranks[k]
    ensures ranks[i] + (j - i) <= ranks[j]
    decreases j
  {
    if i < j - 1 {
      Climbing(ranks, i, j - 1);
    }
  }

  lemma LastClimb(g: Graph, p: seq<Key>, j: nat)
    requires Sound(g) && IsPath(g.edges, p) && 1 <= j < |p|
    ensures RankOf(g, p[j - 1]) < RankOf(g, p[j])
  {
    assert HasEdge(g.edges, p[j - 1], p[j - 1 + 1]);
    EdgeClimbs(g, p[j - 1], p[j]);
  }

  /** In terms of the listed order: of two nodes on a path the earlier has the strictly earlier stage. */
  lemma StagesAdvance(g: Graph, p: seq<Key>, i: nat, j: nat)
    requires Sound(g) && IsPath(g.edges, p) && i < j < |p|
    ensures StageOf(ByKey(g.nodes), p[i]).Some? && StageOf(ByKey(g.nodes), p[j]).Some?
    ensures Precedes(StageOf(ByKey(g.nodes), p[i]).value, StageOf(ByKey(g.nodes), p[j]).value)
  {
    RanksIncrease(g, p, i, j);
    assert HasEdge(g.edges, p[i], p[i + 1]) && HasEdge(g.edges, p[j - 1], p[j - 1 + 1]);
    EdgeStages(g, p[i], p[i + 1]);
    EdgeStages(g, p[j - 1], p[j]);
    PrecedesIff(StageOf(ByKey(g.nodes), p[i]).value, StageOf(ByKey(g.nodes), p[j]).value);
  }

  lemma EdgeStages(g: Graph, a: Key, b: Key)
    requires Sound(g) && HasEdge(g.edges, a, b)
    ensures StageOf(ByKey(g.nodes), a).Some? && StageOf(ByKey(g.nodes), b).Some?
  {
    var n :| 0 <= n < |g.edges| && g.edges[n] == Edge(a, b);
    assert EdgeAdvances(g.nodes, g.edges[n]);
    var i, j :| 0 <= i < |g.nodes| && 0 <= j < |g.nodes| && Joins(g.nodes[i], g.nodes[j], g.edges[n]);
    assert NodeOk(g.nodes[i]) && NodeOk(g.nodes[j]);
    ByKeyFinds(g.nodes, i);
    ByKeyFinds(g.nodes, j);
  }

  /** So no path visits more than seven nodes, one per stage. */
  lemma PathsAreShort(g: Graph, p: seq<Key>)
    requires Sound(g) && IsPath(g.edges, p)
    ensures |p| <= 7
  {
    if |p| >= 2 {
      RanksIncrease(g, p, 0, |p| - 1);
    }
  }

  lemma SoundKnown(g: Graph)
    requires Sound(g)
    ensures EdgesWithin(g.edges, KeySet(g.nodes)) && KnownEdges(g) == g.edges
  {
    forall i | 0 <= i < |g.edges| ensures g.edges[i].src in KeySet(g.nodes) && g.edges[i].dst in KeySet(g.nodes) {
      EdgeClimbs(g, g.edges[i].src, g.edges[i].dst);
    }
    AllKnown(g.edges, KeySet(g.nodes));
  }

  lemma SoundAcyclic(g: Graph)
    requires Sound(g)
    ensures !HasCycle(KnownEdges(g))
  {
    SoundKnown(g);
    forall p | IsPath(g.edges, p) && |p| >= 2 ensures p[0] != p[|p| - 1] {
      RanksIncrease(g, p, 0, |p| - 1);
    }
  }

  /**
   Nothing is reported exactly when the publication rules hold. The rules do not mention
   cycles: a cycle is never the only problem, so the cycle test rejects no further graph.
   */
  lemma NoProblemsIffSound(g: Graph)
    ensures Problems(g) == [] <==> Sound(g)
    ensures HasCycle(KnownEdges(g)) ==> LocalProblems(g) != []
  {
    LocalMeaning(g);
    if Sound(g) {
      SoundAcyclic(g);
    }
  }

  /** Every node other than the source is the target of an edge. */
  ghost predicate NoOtherRoots(g: Graph) {
    forall i :: 0 <= i < |g.nodes| && g.nodes[i].stage != Some(Source) ==>
                  HasPred(g.edges, KeySet(g.nodes), g.nodes[i].key)
  }

  ghost predicate AllReached(g: Graph, source: Key) {
    forall k :: k in KeySet(g.nodes) ==> Reaches(g.edges, source, k)
  }

  lemma SourceNode(g: Graph, source: Key, i: nat)
    requires NodesOk(g.nodes) && SourcesOf(g) == [source] && i < |g.nodes|
    ensures g.nodes[i].key == source <==> g.nodes[i].stage == Some(Source)
  {
    StageMeaning(g.nodes, Source);
    assert source in SourcesOf(g);
    var j :| 0 <= j < |g.nodes| && g.nodes[j].key == source && g.nodes[j].stage == Some(Source);
    if i != j {
      assert g.nodes[i].key != g.nodes[j].key;
    }
  }

  lemma Predecessor(g: Graph, i: nat) returns (j: nat)
    requires Sound(g) && NoOtherRoots(g) && i < |g.nodes| && g.nodes[i].stage != Some(Source)
    ensures j < |g.nodes| && HasEdge(g.edges, g.nodes[j].key, g.nodes[i].key)
    ensures 0 <= RankOf(g, g.nodes[j].key) < RankOf(g, g.nodes[i].key)
  {
    assert HasPred(g.edges, KeySet(g.nodes), g.nodes[i].key);
    var a :| a in KeySet(g.nodes) && HasEdge(g.edges, a, g.nodes[i].key);
    EdgeClimbs(g, a, g.nodes[i].key);
    j :| 0 <= j < |g.nodes| && g.nodes[j].key == a;
  }

  lemma {:induction false} ReachedByRank(g: Graph, source: Key, i: nat)
    requires Sound(g) && NoOtherRoots(g) && SourcesOf(g) == [source] && i < |g.nodes|
    ensures Reaches(g.edges, source, g.nodes[i].key)
    decreases RankOf(g, g.nodes[i].key)
  {
    var k := g.nodes[i].key;
    SourceNode(g, source, i);
    if g.nodes[i].stage == Some(Source) {
      ReachesSelf(g.edges, k);
    } else {
      var j := Predecessor(g, i);
      ReachedByRank(g, source, j);
      ReachesNext(g.edges, source, g.nodes[j].key, k);
    }
  }

  lemma LastEdge(es: seq<Edge>, a: Key, b: Key) returns (c: Key)
    requires Reaches(es, a, b) && a != b
    ensures HasEdge(es, c, b)
  {
    var p :| IsPath(es, p) && p[0] == a && p[|p| - 1] == b;
    c := p[|p| - 2];
    assert HasEdge(es, p[|p| - 2], p[|p| - 2 + 1]);
  }

  /**
   A sound graph may leave nodes the source does not reach, although the rules' prose promises
   otherwise. It leaves none exactly when every node but the source has an incoming edge.
   */
  lemma AllReachedIff(g: Graph, source: Key)
    requires Sound(g) && SourcesOf(g) == [source]
    ensures AllReached(g, source) <==> NoOtherRoots(g)
  {
    if NoOtherRoots(g) {
      forall k | k in KeySet(g.nodes) ensures Reaches(g.edges, source, k) {
        var i :| 0 <= i < |g.nodes| && g.nodes[i].key == k;
        ReachedByRank(g, source, i);
      }
    }
    if AllReached(g, source) {
      forall i | 0 <= i < |g.nodes| && g.nodes[i].stage != Some(Source)
        ensures HasPred(g.edges, KeySet(g.nodes), g.nodes[i].key)
      {
        NodeReached(g, source, i);
      }
    }
  }

  lemma NodeReached(g: Graph, source: Key, i: nat)
    requires Sound(g) && SourcesOf(g) == [source] && AllReached(g, source)
    requires i < |g.nodes| && g.nodes[i].stage != Some(Source)
    ensures HasPred(g.edges, KeySet(g.nodes), g.nodes[i].key)
  {
    SourceNode(g, source, i);
    assert g.nodes[i].key in KeySet(g.nodes);
    var c := LastEdge(g.edges, source, g.nodes[i].key);
    EdgeClimbs(g, c, g.nodes[i].key);
  }

  /** Two nodes, a source and a sink, and no edge. */
  function Disconnected(): Graph {
    Graph([Node(Named("a"), Some(Source), Absent, Absent, false), Node(Named("b"), Some(Sink), Absent, Absent, false)],
          [])
  }

  lemma SoleSource(g: Graph, i: nat)
    requires Sound(g) && i < |g.nodes| && g.nodes[i].stage == Some(Source)
    ensures SourcesOf(g) == [g.nodes[i].key]
  {
    OneSourceListed(g);
    StageMeaning(g.nodes, Source);
    assert g.nodes[i].key in SourcesOf(g);
  }

  /** It is accepted, yet the source does not reach the sink. */
  lemma DisconnectedIsSound()
    ensures Sound(Disconnected()) && SourcesOf(Disconnected()) == [Named("a")]
    ensures !AllReached(Disconnected(), Named("a"))
  {
    var g := Disconnected();
    assert g.nodes[0].stage == Some(Source) && g.nodes[1].stage == Some(Sink);
    assert Sound(g);
    SoleSource(g, 0);
    AllReachedIff(g, Named("a"));
    assert !HasPred(g.edges, KeySet(g.nodes), g.nodes[1].key);
  }
}
