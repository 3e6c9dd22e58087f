/** The validator as it runs: loops over nodes and edges, Kahn's sort, depth-first search. */
module PipelineValidator {
  import opened Prelude
  import opened Graphs
  import opened Pipelines

  /** An edge between known nodes one of which has no name: `by_key` has no entry for it. */
  ghost predicate TouchesUnnamed(es: seq<Edge>, keys: set<Key>) {
    exists i :: 0 <= i < |es| && BadEnd(es[i], keys)
  }

  predicate BadEnd(e: Edge, keys: set<Key>) {
    e.src in keys && e.dst in keys && (Falsy(e.src) || Falsy(e.dst))
  }

  /** The type and configuration checks of one named node. */
  method CheckNode(n: Node) returns (found: seq<Problem>)
    requires !Falsy(n.key)
    ensures found == NodeProblems(n)
  {
    found := [];
    if n.stage == None {
      found := [InvalidType(n.key)];
    }
    if n.stage == Some(Window) {
      if n.size == Absent {
        found := found + [MissingSize(n.key)];
      }
      if n.size == Malformed || n.slide == Malformed {
        found := found + [BadLength(n.key)];
      }
    }
    if n.stage == Some(Aggregate) && !n.kindKnown {
      found := found + [UnknownKind(n.key)];
    }
  }

  /** The first loop: one pass over the nodes. */
  method ScanNodes(nodes: seq<Node>) returns (errors: seq<Problem>, byKey: map<Key, Node>, names: seq<Key>)
    ensures errors == AllNodeProblems(nodes) && byKey == ByKey(nodes) && names == Names(nodes)
  {
    errors, byKey, names := [], map[], [];
    for i := 0 to |nodes|
      invariant errors == AllNodeProblems(nodes[..i]) && byKey == ByKey(nodes[..i]) && names == Names(nodes[..i])
    {
      var n := nodes[i];
      assert nodes[..i + 1][..i] == nodes[..i];
      if Falsy(n.key) {
        errors := errors + [NoKey];
      } else {
        if n.key !in byKey {
          names := names + [n.key];
        }
        byKey := byKey[n.key := n];
        var found := CheckNode(n);
        errors := errors + found;
      }
    }
    assert nodes[..|nodes|] == nodes;
  }

  /** What the edge loop has built after the edges `es`. */
  ghost predicate Built(es: seq<Edge>, keys: set<Key>, adj: map<Key, seq<Key>>, indeg: map<Key, int>) {
    && adj.Keys == keys && indeg.Keys == keys
    && (forall k :: k in keys ==> adj[k] == AdjOf(Known(es, keys), k) && indeg[k] == InCount(Known(es, keys), k, {}))
  }

  lemma BuildSkip(es: seq<Edge>, keys: set<Key>, e: Edge, adj: map<Key, seq<Key>>, indeg: map<Key, int>)
    requires Built(es, keys, adj, indeg) && !(e.src in keys && e.dst in keys)
    ensures Built(es + [e], keys, adj, indeg)
  {
    assert (es + [e])[..|es|] == es;
    assert Known(es + [e], keys) == Known(es, keys);
  }

  lemma BuildStep(es: seq<Edge>, keys: set<Key>, e: Edge, adj: map<Key, seq<Key>>, indeg: map<Key, int>)
    requires Built(es, keys, adj, indeg) && e.src in keys && e.dst in keys
    ensures Built(es + [e], keys, adj[e.src := adj[e.src] + [e.dst]], indeg[e.dst := indeg[e.dst] + 1])
  {
    assert (es + [e])[..|es|] == es;
    var known := Known(es, keys);
    assert Known(es + [e], keys) == known + [e];
    assert (known + [e])[..|known|] == known;
  }

  ghost predicate ScannedEdges(es: seq<Edge>, keys: set<Key>, byKey: map<Key, Node>,
                               errors: seq<Problem>, adj: map<Key, seq<Key>>, indeg: map<Key, int>) {
    errors == AllEdgeProblems(keys, byKey, es) && Built(es, keys, adj, indeg) && !TouchesUnnamed(es, keys)
  }

  lemma ScannedOne(es: seq<Edge>, keys: set<Key>, byKey: map<Key, Node>, e: Edge,
                   errors: seq<Problem>, adj: map<Key, seq<Key>>, indeg: map<Key, int>)
    requires errors == AllEdgeProblems(keys, byKey, es) + EdgeProblems(keys, byKey, e)
    requires Built(es + [e], keys, adj, indeg) && !TouchesUnnamed(es, keys) && !BadEnd(e, keys)
    ensures ScannedEdges(es + [e], keys, byKey, errors, adj, indeg)
  {
    assert (es + [e])[..|es|] == es;
  }

  /** Record one edge between known nodes. */
  method Link(ghost es: seq<Edge>, e: Edge, ghost keys: set<Key>, adj0: map<Key, seq<Key>>, indeg0: map<Key, int>)
    returns (adj: map<Key, seq<Key>>, indeg: map<Key, int>)
    requires Built(es, keys, adj0, indeg0) && e.src in keys && e.dst in keys
    ensures Built(es + [e], keys, adj, indeg)
  {
    BuildStep(es, keys, e, adj0, indeg0);
    adj := adj0[e.src := adj0[e.src] + [e.dst]];
    indeg := indeg0[e.dst := indeg0[e.dst] + 1];
  }

  /** Compare the stages of an edge's ends; the lookup raises when one has no name. */
  method CompareStages(e: Edge, ghost keys: set<Key>, byKey: map<Key, Node>) returns (raised: bool, found: seq<Problem>)
    requires e.src in keys && e.dst in keys && forall k :: k in byKey <==> k in keys && !Falsy(k)
    ensures raised <==> BadEnd(e, keys)
    ensures !raised ==> found == EdgeProblems(keys, byKey, e)
  {
    raised, found := false, [];
    if e.src !in byKey || e.dst !in byKey {
      raised := true;
      return;
    }
    var ta, tb := byKey[e.src].stage, byKey[e.dst].stage;
    if ta.Some? && tb.Some? && Rank(tb.value) <= Rank(ta.value) {
      found := [StageOrder(e)];
    }
  }

  /** One turn of the second loop. */
  method ScanEdge(ghost es: seq<Edge>, e: Edge, keys: set<Key>, byKey: map<Key, Node>,
                  errors0: seq<Problem>, adj0: map<Key, seq<Key>>, indeg0: map<Key, int>)
    returns (raised: bool, errors: seq<Problem>, adj: map<Key, seq<Key>>, indeg: map<Key, int>)
    requires forall k :: k in byKey <==> k in keys && !Falsy(k)
    requires ScannedEdges(es, keys, byKey, errors0, adj0, indeg0)
    ensures raised <==> BadEnd(e, keys)
    ensures !raised ==> ScannedEdges(es + [e], keys, byKey, errors, adj, indeg)
  {
    raised, errors, adj, indeg := false, errors0, adj0, indeg0;
    if e.src !in keys || e.dst !in keys {
      BuildSkip(es, keys, e, adj, indeg);
      errors := errors + [UnknownNode(e)];
    } else {
      adj, indeg := Link(es, e, keys, adj, indeg);
      var found;
      raised, found := CompareStages(e, keys, byKey);
      if raised {
        return;
      }
      errors := errors + found;
    }
    ScannedOne(es, keys, byKey, e, errors, adj, indeg);
  }

  /** The second loop: adjacency, in-degrees and edge problems; it raises at the first unnamed end. */
  method ScanEdges(es: seq<Edge>, keys: set<Key>, byKey: map<Key, Node>)
    returns (raised: bool, errors: seq<Problem>, adj: map<Key, seq<Key>>, indeg: map<Key, int>)
    requires forall k :: k in byKey <==> k in keys && !Falsy(k)
    ensures raised <==> TouchesUnnamed(es, keys)
    ensures !raised ==> ScannedEdges(es, keys, byKey, errors, adj, indeg)
  {
    raised, errors := false, [];
    adj := map k | k in keys :: [];
    indeg := map k | k in keys :: 0;
    for i := 0 to |es|
      invariant ScannedEdges(es[..i], keys, byKey, errors, adj, indeg)
    {
      assert es[..i + 1] == es[..i] + [es[i]];
      raised, errors, adj, indeg := ScanEdge(es[..i], es[i], keys, byKey, errors, adj, indeg);
      if raised {
        return;
      }
    }
    assert es[..|es|] == es;
  }

  /** A set's elements in whatever order it happens to be enumerated. */
  method Enumerate(keys: set<Key>) returns (ks: seq<Key>)
    ensures Distinct(ks) && forall k :: k in ks <==> k in keys
  {
    ks := [];
    var rest := keys;
    while rest != {}
      invariant Distinct(ks) && rest <= keys && forall k :: k in ks <==> k in keys - rest
    {
      var k :| k in rest;
      DistinctSnoc(ks, k);
      rest := rest - {k};
      ks := ks + [k];
    }
  }

  ghost predicate OrderHolds(g: Graph, order: seq<Key>) {
    && Topological(KnownEdges(g), order) && Elems(order) <= KeySet(g.nodes)
    && (!HasCycle(KnownEdges(g)) ==> Elems(order) == KeySet(g.nodes))
  }

  /** The warning's nodes: those the first source does not reach, if there is one and some node has no in-edge. */
  ghost function Unreached(g: Graph): set<Key> {
    if SourcesOf(g) != [] && HasRoot(KnownEdges(g), KeySet(g.nodes))
    then set k | k in KeySet(g.nodes) && !Reaches(KnownEdges(g), SourcesOf(g)[0], k)
    else {}
  }

  /** The inputs on which the validator raises: an unnamed end, or a missing key sorted among others. */
  ghost predicate Raises(g: Graph) {
    TouchesUnnamed(g.edges, KeySet(g.nodes)) || (Missing in Unreached(g) && |Unreached(g)| > 1)
  }

  /** Kahn's sort over the known edges, then the search from the first source. */
  method SortAndSearch(g: Graph, keys: set<Key>, sources: seq<Key>, adj: map<Key, seq<Key>>, indeg: map<Key, int>)
    returns (order: seq<Key>, unreachable: set<Key>)
    requires keys == KeySet(g.nodes) && Built(g.edges, keys, adj, indeg)
    requires sources == SourcesOf(g) && forall i :: 0 <= i < |sources| ==> sources[i] in keys
    ensures OrderHolds(g, order) && unreachable == Unreached(g)
    ensures |order| != |keys| <==> HasCycle(KnownEdges(g))
  {
    var keyOrder := Enumerate(keys);
    KnownHolds(g.edges, keys);
    order := Kahn(KnownEdges(g), keys, keyOrder, adj, indeg);
    unreachable := {};
    if sources != [] && order != [] {
      var seen := Reachable(sources[0], adj, KnownEdges(g), keys);
      unreachable := keys - seen;
    }
  }

  lemma SourcesAreKeys(g: Graph)
    ensures forall i :: 0 <= i < |SourcesOf(g)| ==> SourcesOf(g)[i] in KeySet(g.nodes)
  {
    ByKeyHolds(g.nodes);
    NamesHold(g.nodes);
    OfStageHolds(Names(g.nodes), ByKey(g.nodes), Source);
    forall i | 0 <= i < |SourcesOf(g)| ensures SourcesOf(g)[i] in KeySet(g.nodes) {
      assert SourcesOf(g)[i] in SourcesOf(g);
    }
  }

  /**
   `validate_graph`. It reports exactly the problems of `g`; accepts exactly the sound graphs;
   gives a topological order; and raises exactly on the inputs described above, none of them sound.
   */
  method ValidateGraph(g: Graph) returns (out: Outcome)
    ensures out.Raised? <==> Raises(g)
    ensures out.Checked? ==> out.v.errors == Problems(g) && OrderHolds(g, out.v.order)
    ensures out.Checked? ==> out.v.unreachable == Unreached(g)
    ensures out.Checked? && out.v.ok <==> Sound(g)
  {
    var keys := KeySet(g.nodes);
    var errors := if |g.nodes| != |keys| then [DuplicateKeys] else [];
    var nodeErrors, byKey, names := ScanNodes(g.nodes);
    ByKeyHolds(g.nodes);
    SoundIsNamed(g);
    var raised, edgeErrors, adj, indeg := ScanEdges(g.edges, keys, byKey);
    if raised {
      return Raised;
    }
    var sources := OfStage(names, byKey, Source);
    var sinks := OfStage(names, byKey, Sink);
    errors := errors + nodeErrors + edgeErrors + EndProblems(sources, sinks);
    assert errors == LocalProblems(g);
    SourcesAreKeys(g);
    var order, unreachable := SortAndSearch(g, keys, sources, adj, indeg);
    if |order| != |keys| {
      errors := errors + [CycleFound];
    }
    if Missing in unreachable && |unreachable| > 1 {
      return Raised;
    }
    NoProblemsIffSound(g);
    out := Checked(Validation(errors == [], errors, unreachable, order));
  }

  lemma SoundIsNamed(g: Graph)
    ensures Sound(g) ==> !Raises(g)
  {
    if Sound(g) {
      forall k | k in KeySet(g.nodes) ensures !Falsy(k) {
        var i :| 0 <= i < |g.nodes| && g.nodes[i].key == k;
        assert NodeOk(g.nodes[i]);
      }
    }
  }
}
