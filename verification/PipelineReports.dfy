/** What each error of the validator says about the graph: an error is reported exactly when its cause is there. */
module PipelineReports {
  import opened Prelude
  import opened Graphs
  import opened Pipelines

  // ------------------------------------------------------------------ nodes

  /** The node has a name. */
  predicate IsNamed(n: Node) {
    n.key != Missing && n.key != Key.Named("")
  }

  /** A window without a size, one with a malformed length, an aggregate of unknown kind. */
  predicate Unsized(n: Node) {
    IsNamed(n) && n.stage == Some(Window) && n.size == Absent
  }

  predicate Garbled(n: Node) {
    IsNamed(n) && n.stage == Some(Window) && (n.size == Malformed || n.slide == Malformed)
  }

  predicate KindUnknown(n: Node) {
    IsNamed(n) && n.stage == Some(Aggregate) && !n.kindKnown
  }

  /** What one node is to be reported for. */
  predicate Faulty(n: Node, p: Problem) {
    || (p == NoKey && !IsNamed(n))
    || (p == InvalidType(n.key) && IsNamed(n) && n.stage == None)
    || (p == MissingSize(n.key) && Unsized(n))
    || (p == BadLength(n.key) && Garbled(n))
    || (p == UnknownKind(n.key) && KindUnknown(n))
  }

  lemma NodeReport(n: Node, p: Problem)
    ensures p in NodeProblems(n) <==> Faulty(n, p)
  {
  }

  lemma {:induction false} NodeReports(nodes: seq<Node>, p: Problem)
    ensures p in AllNodeProblems(nodes) <==> exists i :: 0 <= i < |nodes| && Faulty(nodes[i], p)
  {
    if nodes != [] {
      var n := |nodes| - 1;
      NodeReports(nodes[..n], p);
      NodeReport(nodes[n], p);
      assert forall i :: 0 <= i < n ==> nodes[..n][i] == nodes[i];
    }
  }

  predicate AboutNode(p: Problem) {
    p.NoKey? || p.InvalidType? || p.MissingSize? || p.BadLength? || p.UnknownKind?
  }

  lemma {:induction false} EdgesReportEdges(keys: set<Key>, byKey: map<Key, Node>, es: seq<Edge>, p: Problem)
    requires p in AllEdgeProblems(keys, byKey, es)
    ensures p.UnknownNode? || p.StageOrder?
  {
    var n := |es| - 1;
    if p in AllEdgeProblems(keys, byKey, es[..n]) {
      EdgesReportEdges(keys, byKey, es[..n], p);
    } else {
      assert p in EdgeProblems(keys, byKey, es[n]);
    }
  }

  lemma InProblems(g: Graph, p: Problem)
    ensures p in Problems(g) <==>
            || p in DuplicateProblem(g.nodes) || p in AllNodeProblems(g.nodes)
            || p in AllEdgeProblems(KeySet(g.nodes), ByKey(g.nodes), g.edges)
            || p in EndProblems(SourcesOf(g), SinksOf(g)) || (p == CycleFound && HasCycle(KnownEdges(g)))
  {
  }

  lemma EndsReport(sources: seq<Key>, sinks: seq<Key>, p: Problem)
    requires p in EndProblems(sources, sinks)
    ensures p.SourceCount? || p.NoSink?
  {
  }

  /** The errors about nodes are exactly the faults of nodes. */
  lemma NodeErrorsExact(g: Graph, p: Problem)
    requires AboutNode(p)
    ensures p in Problems(g) <==> exists i :: 0 <= i < |g.nodes| && Faulty(g.nodes[i], p)
  {
    NodeReports(g.nodes, p);
    InProblems(g, p);
    if p in AllEdgeProblems(KeySet(g.nodes), ByKey(g.nodes), g.edges) {
      EdgesReportEdges(KeySet(g.nodes), ByKey(g.nodes), g.edges, p);
    }
    if p in EndProblems(SourcesOf(g), SinksOf(g)) {
      EndsReport(SourcesOf(g), SinksOf(g), p);
    }
  }

  // ------------------------------------------------------------------ edges

  lemma {:induction false} EdgeReports(keys: set<Key>, byKey: map<Key, Node>, es: seq<Edge>, p: Problem)
    ensures p in AllEdgeProblems(keys, byKey, es) <==>
            exists i :: 0 <= i < |es| && p in EdgeProblems(keys, byKey, es[i])
  {
    if es != [] {
      var n := |es| - 1;
      EdgeReports(keys, byKey, es[..n], p);
      assert forall i :: 0 <= i < n ==> es[..n][i] == es[i];
    }
  }

  lemma {:induction false} NodesReportNodes(nodes: seq<Node>, p: Problem)
    requires p in AllNodeProblems(nodes)
    ensures AboutNode(p)
  {
    NodeReports(nodes, p);
  }

  lemma EdgeErrors(g: Graph, p: Problem)
    requires p.UnknownNode? || p.StageOrder?
    ensures p in Problems(g) <==>
            exists i :: 0 <= i < |g.edges| && p in EdgeProblems(KeySet(g.nodes), ByKey(g.nodes), g.edges[i])
  {
    EdgeReports(KeySet(g.nodes), ByKey(g.nodes), g.edges, p);
    InProblems(g, p);
    if p in AllNodeProblems(g.nodes) {
      NodesReportNodes(g.nodes, p);
    }
    if p in EndProblems(SourcesOf(g), SinksOf(g)) {
      EndsReport(SourcesOf(g), SinksOf(g), p);
    }
  }

  /** Some node has the key. */
  ghost predicate HasNode(g: Graph, k: Key) {
    exists i :: 0 <= i < |g.nodes| && g.nodes[i].key == k
  }

  /** An edge is reported as unknown exactly when an end of it is no node's key. */
  lemma UnknownNodeExact(g: Graph, e: Edge)
    ensures UnknownNode(e) in Problems(g) <==> e in g.edges && !(HasNode(g, e.src) && HasNode(g, e.dst))
  {
    EdgeErrors(g, UnknownNode(e));
    KeysAreNodes(g, e.src);
    KeysAreNodes(g, e.dst);
    forall i | 0 <= i < |g.edges| && UnknownNode(e) in EdgeProblems(KeySet(g.nodes), ByKey(g.nodes), g.edges[i])
      ensures g.edges[i] == e
    {
    }
    if e in g.edges && !(HasNode(g, e.src) && HasNode(g, e.dst)) {
      var i :| 0 <= i < |g.edges| && g.edges[i] == e;
      assert UnknownNode(e) in EdgeProblems(KeySet(g.nodes), ByKey(g.nodes), g.edges[i]);
    }
  }

  lemma KeysAreNodes(g: Graph, k: Key)
    ensures k in KeySet(g.nodes) <==> HasNode(g, k)
  {
  }

  /**
   An edge between two named nodes of valid stages is reported for its order exactly when the target's stage does
   not come strictly later in the canonical list.
   */
  lemma StageOrderExact(g: Graph, e: Edge, i: nat, j: nat)
    requires UniqueKeys(g.nodes) && i < |g.nodes| && j < |g.nodes| && e in g.edges
    requires g.nodes[i].key == e.src && IsNamed(g.nodes[i]) && g.nodes[i].stage.Some?
    requires g.nodes[j].key == e.dst && IsNamed(g.nodes[j]) && g.nodes[j].stage.Some?
    ensures StageOrder(e) in Problems(g) <==> !Precedes(g.nodes[i].stage.value, g.nodes[j].stage.value)
  {
    var keys, byKey := KeySet(g.nodes), ByKey(g.nodes);
    EdgeErrors(g, StageOrder(e));
    ByKeyFinds(g.nodes, i);
    ByKeyFinds(g.nodes, j);
    assert e.src in keys && e.dst in keys;
    PrecedesIff(g.nodes[i].stage.value, g.nodes[j].stage.value);
    forall n | 0 <= n < |g.edges| && StageOrder(e) in EdgeProblems(keys, byKey, g.edges[n]) ensures g.edges[n] == e {
    }
    var n :| 0 <= n < |g.edges| && g.edges[n] == e;
    assert StageOrder(e) in EdgeProblems(keys, byKey, g.edges[n]) <==>
           !Precedes(g.nodes[i].stage.value, g.nodes[j].stage.value);
  }

  // ------------------------------------------------------------ whole graphs

  /** Repeated keys are reported exactly when two nodes share one. */
  lemma DuplicatesExact(g: Graph)
    ensures DuplicateKeys in Problems(g) <==> !UniqueKeys(g.nodes)
  {
    UniqueCard(g.nodes);
    InProblems(g, DuplicateKeys);
    if DuplicateKeys in EndProblems(SourcesOf(g), SinksOf(g)) {
      EndsReport(SourcesOf(g), SinksOf(g), DuplicateKeys);
    }
    if DuplicateKeys in AllNodeProblems(g.nodes) {
      NodesReportNodes(g.nodes, DuplicateKeys);
    }
    if DuplicateKeys in AllEdgeProblems(KeySet(g.nodes), ByKey(g.nodes), g.edges) {
      EdgesReportEdges(KeySet(g.nodes), ByKey(g.nodes), g.edges, DuplicateKeys);
    }
  }

  /** The pipeline that visits all seven stages once, in the canonical order. */
  function Canonical(): Graph {
    Graph([Step("source", Source), Step("filter", Filter), Step("transform", Transform), Step("group", Group),
           Step("window", Window), Step("aggregate", Aggregate), Step("sink", Sink)],
          [Flow("source", "filter"), Flow("filter", "transform"), Flow("transform", "group"), Flow("group", "window"),
           Flow("window", "aggregate"), Flow("aggregate", "sink")])
  }

  function Step(name: string, stage: Stage): Node {
    Node(Key.Named(name), Some(stage), Parses, Absent, true)
  }

  function Flow(a: string, b: string): Edge {
    Edge(Key.Named(a), Key.Named(b))
  }

  /** It is accepted. */
  lemma CanonicalIsSound()
    ensures Sound(Canonical())
  {
    var g := Canonical();
    forall i | 0 <= i < |g.edges| ensures EdgeAdvances(g.nodes, g.edges[i]) {
      CanonicalStep(i);
      assert Joins(g.nodes[i], g.nodes[i + 1], g.edges[i]);
    }
    CanonicalEnds(g.nodes);
    CanonicalKeys();
  }

  lemma CanonicalStep(i: nat)
    requires i < 6
    ensures |Canonical().nodes| == 7 && Joins(Canonical().nodes[i], Canonical().nodes[i + 1], Canonical().edges[i])
  {
    PrecedesIff(Canonical().nodes[i].stage.value, Canonical().nodes[i + 1].stage.value);
  }

  lemma CanonicalEnds(nodes: seq<Node>)
    requires nodes == Canonical().nodes
    ensures OneSource(nodes) && (exists i :: 0 <= i < |nodes| && nodes[i].stage == Some(Sink))
    ensures forall i :: 0 <= i < |nodes| ==> NodeOk(nodes[i])
  {
    assert nodes[0].stage == Some(Source) && nodes[6].stage == Some(Sink);
  }

  lemma CanonicalKeys()
    ensures UniqueKeys(Canonical().nodes)
  {
    var names := ["source", "filter", "transform", "group", "window", "aggregate", "sink"];
    assert forall i :: 0 <= i < 7 ==> Canonical().nodes[i].key == Key.Named(names[i]);
    assert names[0][0] == 's' && names[1][0] == 'f' && names[2][0] == 't' && names[3][0] == 'g';
    assert names[4][0] == 'w' && names[5][0] == 'a' && names[6][0] == 's' && names[0][1] == 'o' && names[6][1] == 'i';
  }
}
