/**
 Directed graphs over node keys, with parallel edges: Kahn's topological sort
 and depth-first reachability, as the pipeline validator runs them.
 */
module Graphs {
  import opened Prelude

  /** The value of a node's `key`, or of an edge's `from` or `to`; it may be missing. */
  datatype Key = Missing | Named(name: string)

  datatype Edge = Edge(src: Key, dst: Key)

  // --------------------------------------------------------------- paths

  predicate HasEdge(es: seq<Edge>, a: Key, b: Key) {
    Edge(a, b) in es
  }

  /** A non-empty sequence of nodes, each with an edge to the next. */
  ghost predicate IsPath(es: seq<Edge>, p: seq<Key>) {
    |p| >= 1 && forall i :: 0 <= i < |p| - 1 ==> HasEdge(es, p[i], p[i + 1])
  }

  ghost predicate HasCycle(es: seq<Edge>) {
    exists p :: IsPath(es, p) && |p| >= 2 && p[0] == p[|p| - 1]
  }

  ghost predicate Reaches(es: seq<Edge>, a: Key, b: Key) {
    exists p :: IsPath(es, p) && p[0] == a && p[|p| - 1] == b
  }

  ghost predicate EdgesWithin(es: seq<Edge>, keys: set<Key>) {
    forall i :: 0 <= i < |es| ==> es[i].src in keys && es[i].dst in keys
  }

  /** No repetition, and every edge into a listed node comes from an earlier one. */
  ghost predicate Topological(es: seq<Edge>, order: seq<Key>) {
    && Distinct(order)
    && (forall i, a :: 0 <= i < |order| && HasEdge(es, a, order[i]) ==> a in order[..i])
  }

  /** Some node has no incoming edge. */
  ghost predicate HasRoot(es: seq<Edge>, keys: set<Key>) {
    exists k :: k in keys && forall a :: !HasEdge(es, a, k)
  }

  ghost predicate Distinct(xs: seq<Key>) {
    forall i, j :: 0 <= i < j < |xs| ==> xs[i] != xs[j]
  }

  // --------------------------------------------------------- counting edges

  /** In-edges of `k` whose source is not in `done`, counted with multiplicity. */
  function InCount(es: seq<Edge>, k: Key, done: set<Key>): nat {
    if es == [] then 0
    else
      var e := es[|es| - 1];
      InCount(es[..|es| - 1], k, done) + if e.dst == k && e.src !in done then 1 else 0
  }

  /** The successors of `n`, in edge order and with multiplicity. */
  function AdjOf(es: seq<Edge>, n: Key): seq<Key> {
    if es == [] then []
    else AdjOf(es[..|es| - 1], n) + if es[|es| - 1].src == n then [es[|es| - 1].dst] else []
  }

  function Occurs(xs: seq<Key>, k: Key): nat {
    if xs == [] then 0 else Occurs(xs[..|xs| - 1], k) + if xs[|xs| - 1] == k then 1 else 0
  }

  lemma {:induction false} OccursAppend(xs: seq<Key>, ys: seq<Key>, k: Key)
    ensures Occurs(xs + ys, k) == Occurs(xs, k) + Occurs(ys, k)
    decreases |ys|
  {
    if ys == [] {
      assert xs + ys == xs;
    } else {
      var n := |ys| - 1;
      OccursAppend(xs, ys[..n], k);
      assert (xs + ys)[..|xs + ys| - 1] == xs + ys[..n];
    }
  }

  /** Finishing a node removes exactly its out-edges from the counts. */
  lemma {:induction false} FinishNode(es: seq<Edge>, k: Key, done: set<Key>, n: Key)
    requires n !in done
    ensures InCount(es, k, done) == InCount(es, k, done + {n}) + Occurs(AdjOf(es, n), k)
  {
    if es != [] {
      var m := |es| - 1;
      FinishNode(es[..m], k, done, n);
      OccursAppend(AdjOf(es[..m], n), if es[m].src == n then [es[m].dst] else [], k);
    }
  }

  lemma {:induction false} InCountZero(es: seq<Edge>, k: Key, done: set<Key>)
    ensures InCount(es, k, done) == 0 <==> forall a :: HasEdge(es, a, k) ==> a in done
  {
    if es != [] {
      var n := |es| - 1;
      InCountZero(es[..n], k, done);
      assert es == es[..n] + [es[n]];
      assert forall a :: HasEdge(es, a, k) <==> HasEdge(es[..n], a, k) || Edge(a, k) == es[n];
    }
  }

  lemma {:induction false} AdjIn(es: seq<Edge>, n: Key, k: Key)
    ensures k in AdjOf(es, n) <==> HasEdge(es, n, k)
  {
    if es != [] {
      AdjIn(es[..|es| - 1], n, k);
      assert es == es[..|es| - 1] + [es[|es| - 1]];
    }
  }

  // ------------------------------------------------------------------- Kahn

  /** What holds of the counts, the queue and the order between two pops. */
  ghost predicate KahnInv(es: seq<Edge>, keys: set<Key>, local: map<Key, int>, queue: seq<Key>, order: seq<Key>) {
    && local.Keys == keys
    && (forall k :: k in keys ==> local[k] == InCount(es, k, Elems(order)))
    && QueueInv(keys, local, queue, order)
    && Topological(es, order)
  }

  /** Queue and order hold each node with count zero exactly once, and no other node. */
  ghost predicate QueueInv(keys: set<Key>, local: map<Key, int>, queue: seq<Key>, order: seq<Key>)
    requires local.Keys == keys
  {
    && Distinct(order + queue)
    && (forall k :: k in order + queue <==> k in keys && local[k] == 0)
  }

  function Elems(xs: seq<Key>): set<Key> {
    set x | x in xs
  }

  lemma ElemsSnoc(xs: seq<Key>, x: Key)
    ensures Elems(xs + [x]) == Elems(xs) + {x}
  {
  }

  /** While the successors of `node` are being decremented. */
  ghost predicate ScanInv(es: seq<Edge>, keys: set<Key>, done: set<Key>, adj: seq<Key>, j: nat,
                          local: map<Key, int>, queue: seq<Key>, order: seq<Key>) {
    && j <= |adj| && local.Keys == keys
    && (forall k :: k in keys ==> local[k] == InCount(es, k, done) - Occurs(adj[..j], k))
    && QueueInv(keys, local, queue, order)
  }

  lemma ScanStep(es: seq<Edge>, keys: set<Key>, done: set<Key>, adj: seq<Key>, j: nat,
                 local: map<Key, int>, queue: seq<Key>, order: seq<Key>)
    requires ScanInv(es, keys, done, adj, j, local, queue, order) && j < |adj| && adj[j] in keys
    requires forall k :: k in keys ==> InCount(es, k, done) >= Occurs(adj, k)
    ensures
      var local' := local[adj[j] := local[adj[j]] - 1];
      var queue' := if local'[adj[j]] == 0 then queue + [adj[j]] else queue;
      ScanInv(es, keys, done, adj, j + 1, local', queue', order)
  {
    var x := adj[j];
    assert adj[..j + 1][..j] == adj[..j];
    assert adj == adj[..j + 1] + adj[j + 1..];
    OccursAppend(adj[..j + 1], adj[j + 1..], x);
    var local' := local[x := local[x] - 1];
    var queue' := if local'[x] == 0 then queue + [x] else queue;
    assert local[x] > 0 && x !in order + queue;
    QueueStep(keys, local, queue, order, x);
  }

  lemma QueueStep(keys: set<Key>, local: map<Key, int>, queue: seq<Key>, order: seq<Key>, x: Key)
    requires local.Keys == keys && QueueInv(keys, local, queue, order) && x in keys && local[x] > 0
    ensures
      var local' := local[x := local[x] - 1];
      QueueInv(keys, local', if local'[x] == 0 then queue + [x] else queue, order)
  {
    assert x !in order + queue;
    assert order + (queue + [x]) == (order + queue) + [x];
    DistinctSnoc(order + queue, x);
  }

  lemma DistinctSnoc(xs: seq<Key>, x: Key)
    requires Distinct(xs) && x !in xs
    ensures Distinct(xs + [x])
  {
  }

  lemma DistinctMiddle(xs: seq<Key>, x: Key, ys: seq<Key>)
    requires Distinct(xs + ([x] + ys))
    ensures xs + ([x] + ys) == xs + [x] + ys && x !in xs
  {
    var all := xs + ([x] + ys);
    assert all[|xs|] == x;
    forall i | 0 <= i < |xs| ensures xs[i] != x {
      assert all[i] == xs[i];
    }
  }

  /** Popping a node whose count is zero keeps the order topological. */
  lemma PopKeepsTopological(es: seq<Edge>, order: seq<Key>, node: Key)
    requires Topological(es, order) && node !in order && InCount(es, node, Elems(order)) == 0
    ensures Topological(es, order + [node])
  {
    InCountZero(es, node, Elems(order));
    var next := order + [node];
    forall i, a | 0 <= i < |next| && HasEdge(es, a, next[i]) ensures a in next[..i] {
      if i < |order| {
        assert next[..i] == order[..i];
      } else {
        assert next[..i] == order;
        assert a in Elems(order);
      }
    }
  }

  /** The inner loop: decrement each successor, and enqueue those that reach zero. */
  method Scan(adj: seq<Key>, local0: map<Key, int>, queue0: seq<Key>,
              ghost es: seq<Edge>, ghost keys: set<Key>, ghost done: set<Key>, ghost order: seq<Key>)
    returns (local: map<Key, int>, queue: seq<Key>)
    requires ScanInv(es, keys, done, adj, 0, local0, queue0, order)
    requires forall k :: k in adj ==> k in keys
    requires forall k :: k in keys ==> InCount(es, k, done) >= Occurs(adj, k)
    ensures ScanInv(es, keys, done, adj, |adj|, local, queue, order)
  {
    local, queue := local0, queue0;
    for j := 0 to |adj|
      invariant ScanInv(es, keys, done, adj, j, local, queue, order)
    {
      ScanStep(es, keys, done, adj, j, local, queue, order);
      var nxt := adj[j];
      local := local[nxt := local[nxt] - 1];
      if local[nxt] == 0 {
        queue := queue + [nxt];
      }
    }
  }

  lemma ScanDone(es: seq<Edge>, keys: set<Key>, order: seq<Key>, node: Key,
                 local: map<Key, int>, queue: seq<Key>)
    requires node !in order && Topological(es, order + [node])
    requires ScanInv(es, keys, Elems(order), AdjOf(es, node), |AdjOf(es, node)|, local, queue, order + [node])
    ensures KahnInv(es, keys, local, queue, order + [node])
  {
    var adj := AdjOf(es, node);
    assert adj[..|adj|] == adj;
    ElemsSnoc(order, node);
    forall k | k in keys ensures local[k] == InCount(es, k, Elems(order + [node])) {
      FinishNode(es, k, Elems(order), node);
    }
  }

  /** The Kahn loop of `validate_graph`, for any order in which the key set is enumerated. */
  method Kahn(ghost es: seq<Edge>, keys: set<Key>, keyOrder: seq<Key>,
              adj: map<Key, seq<Key>>, indeg: map<Key, int>) returns (order: seq<Key>)
    requires EdgesWithin(es, keys) && Distinct(keyOrder) && forall k :: k in keyOrder <==> k in keys
    requires adj.Keys == keys && forall k :: k in keys ==> adj[k] == AdjOf(es, k)
    requires indeg.Keys == keys && forall k :: k in keys ==> indeg[k] == InCount(es, k, {})
    ensures Topological(es, order) && Elems(order) <= keys
    ensures |order| == |keys| <==> !HasCycle(es)
    ensures !HasCycle(es) ==> Elems(order) == keys
    ensures order != [] <==> HasRoot(es, keys)
  {
    order := [];
    var queue := Zeros(keyOrder, indeg);
    var local := indeg;
    KahnStart(es, keys, queue, indeg);
    while queue != []
      invariant KahnInv(es, keys, local, queue, order)
      decreases |keys| - |order|
    {
      var node := queue[0];
      ghost var before := order;
      ScanReady(es, keys, before, node, local, queue);
      queue := queue[1..];
      order := order + [node];
      local, queue := Scan(adj[node], local, queue, es, keys, Elems(before), order);
      ScanDone(es, keys, before, node, local, queue);
      KahnRoom(es, keys, local, queue, order);
    }
    KahnComplete(es, keys, local, order);
    KahnRoots(es, keys, local, order);
  }

  lemma KahnRoots(es: seq<Edge>, keys: set<Key>, local: map<Key, int>, order: seq<Key>)
    requires KahnInv(es, keys, local, [], order)
    ensures order != [] <==> HasRoot(es, keys)
  {
    assert order + [] == order;
    if order != [] {
      assert order[0] in order && order[..0] == [];
      assert order[0] in keys && forall a :: !HasEdge(es, a, order[0]);
    } else {
      forall k | k in keys ensures exists a :: HasEdge(es, a, k) {
        InCountZero(es, k, Elems(order));
      }
    }
  }

  lemma KahnStart(es: seq<Edge>, keys: set<Key>, queue: seq<Key>, indeg: map<Key, int>)
    requires indeg.Keys == keys && forall k :: k in keys ==> indeg[k] == InCount(es, k, {})
    requires Distinct(queue) && forall k :: k in queue <==> k in keys && indeg[k] == 0
    ensures KahnInv(es, keys, indeg, queue, [])
  {
    assert Elems([]) == {};
    assert [] + queue == queue;
  }

  /** The order never outgrows the keys. */
  lemma KahnRoom(es: seq<Edge>, keys: set<Key>, local: map<Key, int>, queue: seq<Key>, order: seq<Key>)
    requires KahnInv(es, keys, local, queue, order)
    ensures |order| <= |keys|
  {
    forall i | 0 <= i < |order| ensures order[i] in keys {
      assert order[i] in order + queue;
    }
    DistinctCard(order, keys);
  }

  lemma ScanReady(es: seq<Edge>, keys: set<Key>, order: seq<Key>, node: Key, local: map<Key, int>, queue: seq<Key>)
    requires EdgesWithin(es, keys) && KahnInv(es, keys, local, queue, order) && queue != [] && queue[0] == node
    ensures node !in order && node in keys && Topological(es, order + [node])
    ensures ScanInv(es, keys, Elems(order), AdjOf(es, node), 0, local, queue[1..], order + [node])
    ensures forall k :: k in AdjOf(es, node) ==> k in keys
    ensures forall k :: k in keys ==> InCount(es, k, Elems(order)) >= Occurs(AdjOf(es, node), k)
  {
    assert queue == [node] + queue[1..];
    DistinctMiddle(order, node, queue[1..]);
    assert node in order + queue;
    PopKeepsTopological(es, order, node);
    SuccessorsCounted(es, keys, Elems(order), node);
  }

  lemma SuccessorsCounted(es: seq<Edge>, keys: set<Key>, done: set<Key>, node: Key)
    requires EdgesWithin(es, keys) && node !in done
    ensures forall k :: k in AdjOf(es, node) ==> k in keys
    ensures forall k :: k in keys ==> InCount(es, k, done) >= Occurs(AdjOf(es, node), k)
  {
    var adj := AdjOf(es, node);
    forall k | k in adj ensures k in keys {
      AdjIn(es, node, k);
    }
    forall k | k in keys ensures InCount(es, k, done) >= Occurs(adj, k) {
      FinishNode(es, k, done, node);
    }
  }

  /** `[k for k in keyset if indeg.get(k, 0) == 0]`. */
  function Zeros(xs: seq<Key>, indeg: map<Key, int>): (r: seq<Key>)
    requires forall x :: x in xs ==> x in indeg
    ensures forall x :: x in r <==> x in xs && indeg[x] == 0
    ensures Distinct(xs) ==> Distinct(r)
  {
    if xs == [] then []
    else
      var n := |xs| - 1;
      assert xs == xs[..n] + [xs[n]];
      assert Distinct(xs) ==> xs[n] !in xs[..n] && Distinct(xs[..n]);
      Zeros(xs[..n], indeg) + if indeg[xs[n]] == 0 then [xs[n]] else []
  }

  // ------------------------------------------------------------ completeness

  lemma KahnComplete(es: seq<Edge>, keys: set<Key>, local: map<Key, int>, order: seq<Key>)
    requires EdgesWithin(es, keys) && KahnInv(es, keys, local, [], order)
    ensures Elems(order) <= keys
    ensures |order| == |keys| <==> !HasCycle(es)
    ensures !HasCycle(es) ==> Elems(order) == keys
  {
    assert order + [] == order;
    var rest := keys - Elems(order);
    ElemsCard(order);
    assert Elems(order) <= keys;
    if rest == {} {
      NothingLeft(Elems(order), keys);
      TopologicalAcyclic(es, keys, order);
    } else {
      Card(Elems(order), keys);
      forall k | k in rest ensures HasPred(es, rest, k) {
        InCountZero(es, k, Elems(order));
        var a :| HasEdge(es, a, k) && a !in Elems(order);
        assert a in rest;
      }
      EveryPredecessorCycle(es, rest);
    }
  }

  lemma {:induction false} ElemsCard(xs: seq<Key>)
    requires Distinct(xs)
    ensures |Elems(xs)| == |xs|
  {
    if xs != [] {
      var n := |xs| - 1;
      var front, x := xs[..n], xs[n];
      assert xs == front + [x];
      assert Distinct(front) && x !in front;
      ElemsCard(front);
      ElemsSnoc(front, x);
      assert |Elems(front) + {x}| == |Elems(front)| + 1;
    }
  }

  lemma NothingLeft(a: set<Key>, b: set<Key>)
    requires a <= b && b - a == {}
    ensures a == b
  {
    assert b == a + (b - a);
  }

  lemma Card(a: set<Key>, b: set<Key>)
    requires a <= b && b - a != {}
    ensures |a| < |b|
  {
    assert b == a + (b - a);
    assert |b| == |a| + |b - a|;
  }

  /** In a complete topological order the position increases along every path. */
  lemma {:induction false} PathForward(es: seq<Edge>, order: seq<Key>, p: seq<Key>, i: nat)
    requires Topological(es, order) && IsPath(es, p) && i < |order| && p[|p| - 1] == order[i]
    ensures |p| >= 2 ==> p[0] in order[..i]
    decreases |p|
  {
    if |p| >= 2 {
      var n := |p| - 1;
      assert HasEdge(es, p[n - 1], p[n]);
      var k :| 0 <= k < i && order[k] == p[n - 1];
      assert IsPath(es, p[..n]);
      PathForward(es, order, p[..n], k);
    }
  }

  lemma TopologicalAcyclic(es: seq<Edge>, keys: set<Key>, order: seq<Key>)
    requires EdgesWithin(es, keys) && Topological(es, order) && Elems(order) == keys
    ensures !HasCycle(es)
  {
    forall p | IsPath(es, p) && |p| >= 2 ensures p[0] != p[|p| - 1] {
      assert HasEdge(es, p[|p| - 2], p[|p| - 1]);
      assert p[|p| - 1] in Elems(order);
      var i :| 0 <= i < |order| && order[i] == p[|p| - 1];
      PathForward(es, order, p, i);
    }
  }

  ghost predicate HasPred(es: seq<Edge>, rest: set<Key>, k: Key) {
    exists a :: a in rest && HasEdge(es, a, k)
  }

  lemma PathCons(es: seq<Edge>, a: Key, q: seq<Key>)
    requires IsPath(es, q) && HasEdge(es, a, q[0])
    ensures IsPath(es, [a] + q)
  {
    var p := [a] + q;
    forall i | 0 <= i < |p| - 1 ensures HasEdge(es, p[i], p[i + 1]) {
      if i > 0 {
        assert HasEdge(es, q[i - 1], q[i - 1 + 1]);
      }
    }
  }

  lemma SubPath(es: seq<Edge>, p: seq<Key>, i: nat, j: nat)
    requires IsPath(es, p) && i < j <= |p|
    ensures IsPath(es, p[i..j])
  {
    forall k | 0 <= k < j - i - 1 ensures HasEdge(es, p[i..j][k], p[i..j][k + 1]) {
      assert HasEdge(es, p[i + k], p[i + k + 1]);
    }
  }

  /** Walking backwards inside a set that has a predecessor for each of its nodes. */
  lemma {:induction false} BackWalk(es: seq<Edge>, rest: set<Key>, n: nat) returns (p: seq<Key>)
    requires rest != {} && forall k :: k in rest ==> HasPred(es, rest, k)
    ensures IsPath(es, p) && |p| == n + 1 && forall i :: 0 <= i < |p| ==> p[i] in rest
  {
    if n == 0 {
      var k := Witness(rest);
      p := [k];
    } else {
      var q := BackWalk(es, rest, n - 1);
      assert HasPred(es, rest, q[0]);
      var a :| a in rest && HasEdge(es, a, q[0]);
      PathCons(es, a, q);
      p := [a] + q;
    }
  }

  /** A finite set in which every node has a predecessor contains a cycle. */
  lemma EveryPredecessorCycle(es: seq<Edge>, rest: set<Key>)
    requires rest != {} && forall k :: k in rest ==> HasPred(es, rest, k)
    ensures HasCycle(es)
  {
    var p := BackWalk(es, rest, |rest|);
    if Distinct(p) {
      DistinctCard(p, rest);
      assert false;
    }
    var i, j :| 0 <= i < j < |p| && p[i] == p[j];
    CloseCycle(es, p, i, j);
  }

  lemma CloseCycle(es: seq<Edge>, p: seq<Key>, i: nat, j: nat)
    requires IsPath(es, p) && i < j < |p| && p[i] == p[j]
    ensures HasCycle(es)
  {
    SubPath(es, p, i, j + 1);
    var c := p[i..j + 1];
    assert IsPath(es, c) && |c| >= 2 && c[0] == c[|c| - 1];
  }

  // ------------------------------------------------------------ reachability

  lemma PathSnoc(es: seq<Edge>, q: seq<Key>, b: Key)
    requires IsPath(es, q) && HasEdge(es, q[|q| - 1], b)
    ensures IsPath(es, q + [b])
  {
    var p := q + [b];
    forall i | 0 <= i < |p| - 1 ensures HasEdge(es, p[i], p[i + 1]) {
      if i < |q| - 1 {
        assert HasEdge(es, q[i], q[i + 1]);
      }
    }
  }

  lemma ReachesNext(es: seq<Edge>, a: Key, b: Key, c: Key)
    requires Reaches(es, a, b) && HasEdge(es, b, c)
    ensures Reaches(es, a, c)
  {
    var p :| IsPath(es, p) && p[0] == a && p[|p| - 1] == b;
    PathSnoc(es, p, c);
    var q := p + [c];
    assert IsPath(es, q) && q[0] == a && q[|q| - 1] == c;
  }

  lemma ReachesSelf(es: seq<Edge>, a: Key)
    ensures Reaches(es, a, a)
  {
    var p := [a];
    assert IsPath(es, p) && p[0] == a && p[|p| - 1] == a;
  }

  /** A set that holds the first node of a path and is closed under edges holds its last. */
  lemma {:induction false} ClosedHoldsPath(es: seq<Edge>, seen: set<Key>, p: seq<Key>)
    requires IsPath(es, p) && p[0] in seen
    requires forall a, b :: a in seen && HasEdge(es, a, b) ==> b in seen
    ensures p[|p| - 1] in seen
    decreases |p|
  {
    if |p| > 1 {
      assert HasEdge(es, p[0], p[1]);
      SubPath(es, p, 1, |p|);
      ClosedHoldsPath(es, seen, p[1..]);
    }
  }

  /** The depth-first search between two visits; `cur` is the node whose successors are being read. */
  ghost predicate SearchInv(es: seq<Edge>, keys: set<Key>, start: Key, seen: set<Key>, stack: seq<Key>) {
    && start in seen && seen <= keys
    && (forall k :: k in stack ==> k in seen)
    && (forall k :: k in seen ==> Reaches(es, start, k))
  }

  ghost predicate Closed(es: seq<Edge>, seen: set<Key>, open: set<Key>) {
    forall a, b :: a in seen && a !in open && HasEdge(es, a, b) ==> b in seen
  }

  ghost predicate SearchEnds(es: seq<Edge>, start: Key, seen: set<Key>) {
    forall k :: k in seen <==> Reaches(es, start, k)
  }

  lemma SearchDone(es: seq<Edge>, keys: set<Key>, start: Key, seen: set<Key>)
    requires SearchInv(es, keys, start, seen, []) && Closed(es, seen, {})
    ensures SearchEnds(es, start, seen)
  {
    forall k | Reaches(es, start, k) ensures k in seen {
      var p :| IsPath(es, p) && p[0] == start && p[|p| - 1] == k;
      ClosedHoldsPath(es, seen, p);
    }
  }

  ghost predicate VisitInv(es: seq<Edge>, keys: set<Key>, start: Key, cur: Key, adj: seq<Key>, j: nat,
                           seen: set<Key>, stack: seq<Key>) {
    && j <= |adj| && cur in seen
    && SearchInv(es, keys, start, seen, stack) && Closed(es, seen, Elems(stack) + {cur})
    && (forall k :: 0 <= k < j ==> adj[k] in seen)
  }

  /** Room left for the search: it shrinks with every pop, pushes included. */
  function Room(keys: set<Key>, seen: set<Key>, stack: seq<Key>): nat {
    2 * |keys - seen| + |stack|
  }

  /** The inner loop of `_reachable`: push the successors not seen yet. */
  method Visit(adj: seq<Key>, cur: Key, seen0: set<Key>, stack0: seq<Key>,
               ghost es: seq<Edge>, ghost keys: set<Key>, ghost start: Key)
    returns (seen: set<Key>, stack: seq<Key>)
    requires adj == AdjOf(es, cur) && EdgesWithin(es, keys) && VisitInv(es, keys, start, cur, adj, 0, seen0, stack0)
    ensures SearchInv(es, keys, start, seen, stack) && Closed(es, seen, Elems(stack))
    ensures Room(keys, seen, stack) <= Room(keys, seen0, stack0)
  {
    seen, stack := seen0, stack0;
    for j := 0 to |adj|
      invariant VisitInv(es, keys, start, cur, adj, j, seen, stack)
      invariant Room(keys, seen, stack) <= Room(keys, seen0, stack0)
    {
      var nxt := adj[j];
      if nxt !in seen {
        PushOne(es, keys, start, cur, adj, j, seen, stack);
        seen := seen + {nxt};
        stack := stack + [nxt];
      }
    }
    VisitDone(es, cur, seen, stack);
  }

  lemma PushOne(es: seq<Edge>, keys: set<Key>, start: Key, cur: Key, adj: seq<Key>, j: nat,
                seen: set<Key>, stack: seq<Key>)
    requires EdgesWithin(es, keys) && adj == AdjOf(es, cur) && VisitInv(es, keys, start, cur, adj, j, seen, stack)
    requires j < |adj| && adj[j] !in seen
    ensures VisitInv(es, keys, start, cur, adj, j + 1, seen + {adj[j]}, stack + [adj[j]])
    ensures Room(keys, seen + {adj[j]}, stack + [adj[j]]) < Room(keys, seen, stack)
  {
    var nxt := adj[j];
    AdjIn(es, cur, nxt);
    ReachesNext(es, start, cur, nxt);
    ElemsSnoc(stack, nxt);
    assert nxt in keys;
    assert keys - (seen + {nxt}) == (keys - seen) - {nxt};
  }

  lemma VisitDone(es: seq<Edge>, cur: Key, seen: set<Key>, stack: seq<Key>)
    requires Closed(es, seen, Elems(stack) + {cur}) && forall k :: k in AdjOf(es, cur) ==> k in seen
    ensures Closed(es, seen, Elems(stack))
  {
    forall a, b | a in seen && a !in Elems(stack) && HasEdge(es, a, b) ensures b in seen {
      if a == cur {
        AdjIn(es, cur, b);
      }
    }
  }

  /** `_reachable`: exactly the nodes some path from `start` ends in. */
  method Reachable(start: Key, adj: map<Key, seq<Key>>, ghost es: seq<Edge>, ghost keys: set<Key>)
    returns (seen: set<Key>)
    requires start in keys && EdgesWithin(es, keys)
    requires adj.Keys == keys && forall k :: k in keys ==> adj[k] == AdjOf(es, k)
    ensures SearchEnds(es, start, seen) && seen <= keys
  {
    seen := {start};
    var stack := [start];
    ReachesSelf(es, start);
    while stack != []
      invariant SearchInv(es, keys, start, seen, stack) && Closed(es, seen, Elems(stack))
      decreases Room(keys, seen, stack)
    {
      var cur := stack[|stack| - 1];
      PopOne(es, seen, stack);
      assert cur in stack;
      stack := stack[..|stack| - 1];
      seen, stack := Visit(adj[cur], cur, seen, stack, es, keys, start);
    }
    SearchDone(es, keys, start, seen);
  }

  lemma PopOne(es: seq<Edge>, seen: set<Key>, stack: seq<Key>)
    requires stack != [] && Closed(es, seen, Elems(stack))
    ensures Closed(es, seen, Elems(stack[..|stack| - 1]) + {stack[|stack| - 1]})
  {
    assert stack == stack[..|stack| - 1] + [stack[|stack| - 1]];
    ElemsSnoc(stack[..|stack| - 1], stack[|stack| - 1]);
  }
}
