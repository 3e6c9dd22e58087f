/**
 The event investigator's agent loop: the model calls read-only tools until it concludes,
 and the evidence references of its conclusion are checked against what the tools returned.
 */
module Grounding {
  import opened Prelude

  datatype Json = Null | Bool(b: bool) | Num(n: real) | Str(s: string) | Arr(items: seq<Json>) | Obj(fields: seq<Field>)
  datatype Field = Field(name: string, value: Json)

  // ------------------------------------------------------------ references

  /** The strings of a list. */
  function Strings(items: seq<Json>): seq<string> {
    if items == [] then []
    else
      var n := |items| - 1;
      Strings(items[..n]) + if items[n].Str? then [items[n].s] else []
  }

  /** What one field contributes itself, without descending. */
  function Named(f: Field): set<string> {
    if f.name == "ref" && f.value.Str? then {f.value.s}
    else if f.name == "evidence_refs" && f.value.Arr? then (set r | r in Strings(f.value.items))
    else {}
  }

  /** Fields whose value is walked. */
  predicate Descends(f: Field) {
    !(f.name == "ref" && f.value.Str?) && !(f.name == "evidence_refs" && f.value.Arr?)
  }

  /** The references a payload holds. */
  function Refs(x: Json): set<string>
    decreases x
  {
    match x
    case Arr(items) => set i, r | 0 <= i < |items| && r in Refs(items[i]) :: r
    case Obj(fields) => set i, r | 0 <= i < |fields| && r in FieldRefs(fields[i]) :: r
    case Null => {}
    case Bool(_) => {}
    case Num(_) => {}
    case Str(_) => {}
  }

  function FieldRefs(f: Field): set<string>
    decreases f
  {
    if Descends(f) then Refs(f.value) else Named(f)
  }

  /** At the end of the path is an object with a field that names `r`. */
  ghost predicate Cites(x: Json, path: seq<nat>, r: string)
    decreases path
  {
    if path == [] then
      x.Obj? && exists i :: 0 <= i < |x.fields| && r in Named(x.fields[i])
    else
      var i := path[0];
      match x
      case Arr(items) => i < |items| && Cites(items[i], path[1..], r)
      case Obj(fields) => i < |fields| && Descends(fields[i]) && Cites(fields[i].value, path[1..], r)
      case Null => false
      case Bool(_) => false
      case Num(_) => false
      case Str(_) => false
  }

  ghost predicate Holds(x: Json, r: string) {
    exists path :: Cites(x, path, r)
  }

  lemma HoldsBelow(x: Json, i: nat, child: Json, r: string)
    requires Holds(child, r)
    requires (x.Arr? && i < |x.items| && child == x.items[i])
             || (x.Obj? && i < |x.fields| && Descends(x.fields[i]) && child == x.fields[i].value)
    ensures Holds(x, r)
  {
    var path :| Cites(child, path, r);
    assert ([i] + path)[1..] == path;
    assert Cites(x, [i] + path, r);
  }

  /** The walk finds exactly the references that some path leads to. */
  lemma {:induction false} RefsAreHeld(x: Json, r: string)
    ensures r in Refs(x) ==> Holds(x, r)
    decreases x
  {
    if r in Refs(x) {
      if x.Arr? {
        var i :| 0 <= i < |x.items| && r in Refs(x.items[i]);
        RefsAreHeld(x.items[i], r);
        HoldsBelow(x, i, x.items[i], r);
      } else {
        var i :| 0 <= i < |x.fields| && r in FieldRefs(x.fields[i]);
        if Descends(x.fields[i]) {
          RefsAreHeld(x.fields[i].value, r);
          HoldsBelow(x, i, x.fields[i].value, r);
        } else {
          assert Cites(x, [], r);
        }
      }
    }
  }

  lemma {:induction false} HeldAreRefs(x: Json, path: seq<nat>, r: string)
    requires Cites(x, path, r)
    ensures r in Refs(x)
    decreases path
  {
    if path == [] {
      var i :| 0 <= i < |x.fields| && r in Named(x.fields[i]);
      assert r in FieldRefs(x.fields[i]);
    } else {
      if x.Arr? {
        HeldAreRefs(x.items[path[0]], path[1..], r);
      } else {
        HeldAreRefs(x.fields[path[0]].value, path[1..], r);
        assert r in FieldRefs(x.fields[path[0]]);
      }
    }
  }

  lemma RefsIff(x: Json, r: string)
    ensures r in Refs(x) <==> Holds(x, r)
  {
    RefsAreHeld(x, r);
    if Holds(x, r) {
      var path :| Cites(x, path, r);
      HeldAreRefs(x, path, r);
    }
  }

  /** `_extract_refs`: the walk, adding to a growing set. */
  method Walk(x: Json, before: set<string>) returns (out: set<string>)
    ensures out == before + Refs(x)
    decreases x
  {
    out := before;
    if x.Obj? {
      for i := 0 to |x.fields|
        invariant forall r :: r in out <==> r in before || exists j :: 0 <= j < i && r in FieldRefs(x.fields[j])
      {
        var f := x.fields[i];
        if f.name == "ref" && f.value.Str? {
          out := out + {f.value.s};
        } else if f.name == "evidence_refs" && f.value.Arr? {
          out := out + set r | r in Strings(f.value.items);
        } else {
          out := Walk(f.value, out);
        }
      }
    } else if x.Arr? {
      for i := 0 to |x.items|
        invariant forall r :: r in out <==> r in before || exists j :: 0 <= j < i && r in Refs(x.items[j])
      {
        out := Walk(x.items[i], out);
      }
    }
  }

  // ------------------------------------------------------------- the agent loop

  /** A requested tool, and what running it would give: a payload, or an error. */
  datatype Call = Call(tool: string, result: Option<Json>)

  /** A provider turn: it fails, or replies with tool calls, or else with a text that holds a conclusion or not. */
  datatype Response = ProviderError | Reply(calls: seq<Call>, conclusion: Option<Json>)

  datatype Output = Output(tool: string, ok: bool, payload: Json)

  datatype Status = Running | Concluded(raw: Json) | Failed

  /** `chats` provider calls so far, `outputs` of the tools executed, references collected from them. */
  datatype Agent = Agent(status: Status, chats: nat, outputs: seq<Output>, refs: set<string>)

  /** A tool off the allow-list, or one that fails, gives an error payload. */
  function Execute(allowed: set<string>, c: Call): Output {
    if c.tool in allowed && c.result.Some? then Output(c.tool, true, c.result.value)
    else Output(c.tool, false, Obj([Field("error", Str("failed"))]))
  }

  function ExecuteAll(allowed: set<string>, a: Agent, calls: seq<Call>): Agent {
    if calls == [] then a
    else
      var b := ExecuteAll(allowed, a, calls[..|calls| - 1]);
      var o := Execute(allowed, calls[|calls| - 1]);
      b.(outputs := b.outputs + [o], refs := b.refs + Refs(o.payload))
  }

  function Step(allowed: set<string>, budget: int, a: Agent, r: Response): Agent {
    var b := a.(chats := a.chats + 1);
    match r
    case ProviderError => b.(status := Failed)
    case Reply(calls, conclusion) =>
      if calls != [] then (if |b.outputs| >= budget then b else ExecuteAll(allowed, b, calls))
      else if conclusion.Some? then b.(status := Concluded(conclusion.value))
      else b
  }

  /** The loop after the given responses; it stops by itself after `budget + 3` of them. */
  function After(allowed: set<string>, budget: int, rs: seq<Response>): Agent {
    if rs == [] then Agent(Running, 0, [], {})
    else
      var a := After(allowed, budget, rs[..|rs| - 1]);
      if a.status == Running && a.chats < budget + 3 then Step(allowed, budget, a, rs[|rs| - 1]) else a
  }

  ghost predicate Collected(allowed: set<string>, a: Agent) {
    && (forall r :: r in a.refs ==> exists i :: 0 <= i < |a.outputs| && r in Refs(a.outputs[i].payload))
    && (forall i :: 0 <= i < |a.outputs| ==> a.outputs[i].ok || Refs(a.outputs[i].payload) == {})
    && (forall i :: 0 <= i < |a.outputs| ==> a.outputs[i].ok ==> a.outputs[i].tool in allowed)
  }

  lemma ExecuteOne(allowed: set<string>, a: Agent, c: Call)
    requires Collected(allowed, a)
    ensures
      var o := Execute(allowed, c);
      Collected(allowed, a.(outputs := a.outputs + [o], refs := a.refs + Refs(o.payload)))
  {
    var o := Execute(allowed, c);
    var b := a.(outputs := a.outputs + [o], refs := a.refs + Refs(o.payload));
    assert b.outputs[|a.outputs|] == o;
    forall r | r in b.refs ensures exists i :: 0 <= i < |b.outputs| && r in Refs(b.outputs[i].payload) {
      if r in a.refs {
        var i :| 0 <= i < |a.outputs| && r in Refs(a.outputs[i].payload);
        assert b.outputs[i] == a.outputs[i];
      } else {
        assert r in Refs(b.outputs[|a.outputs|].payload);
      }
    }
    ErrorHasNoRefs();
  }

  lemma ErrorHasNoRefs()
    ensures Refs(Obj([Field("error", Str("failed"))])) == {}
  {
    var f := Field("error", Str("failed"));
    assert FieldRefs(f) == {};
  }

  lemma {:induction false} ExecuteAllCollected(allowed: set<string>, a: Agent, calls: seq<Call>)
    requires Collected(allowed, a)
    ensures Collected(allowed, ExecuteAll(allowed, a, calls))
  {
    if calls != [] {
      ExecuteAllCollected(allowed, a, calls[..|calls| - 1]);
      ExecuteOne(allowed, ExecuteAll(allowed, a, calls[..|calls| - 1]), calls[|calls| - 1]);
    }
  }

  lemma {:induction false} ExecuteAllCounts(allowed: set<string>, a: Agent, calls: seq<Call>)
    ensures
      var b := ExecuteAll(allowed, a, calls);
      |b.outputs| == |a.outputs| + |calls| && b.chats == a.chats && b.status == a.status
  {
    if calls != [] {
      ExecuteAllCounts(allowed, a, calls[..|calls| - 1]);
    }
  }

  /** In every run each collected reference occurs in the output of an allow-listed tool that was executed. */
  lemma {:induction false} RunCollects(allowed: set<string>, budget: int, rs: seq<Response>)
    ensures Collected(allowed, After(allowed, budget, rs))
  {
    if rs != [] {
      var a := After(allowed, budget, rs[..|rs| - 1]);
      RunCollects(allowed, budget, rs[..|rs| - 1]);
      var r := rs[|rs| - 1];
      if r.Reply? {
        ExecuteAllCollected(allowed, a.(chats := a.chats + 1), r.calls);
      }
    }
  }

  /** The reply ends the run: an answer without tool calls that holds a conclusion. */
  predicate Concludes(r: Response) {
    r.Reply? && r.calls == [] && r.conclusion.Some?
  }

  /** The first `n` responses neither fail nor conclude. */
  predicate GoesOn(rs: seq<Response>, n: nat) {
    n <= |rs| && forall i :: 0 <= i < n ==> !rs[i].ProviderError? && !Concludes(rs[i])
  }

  lemma StepEnds(allowed: set<string>, budget: int, a: Agent, r: Response)
    requires a.status == Running
    ensures
      var b := Step(allowed, budget, a, r);
      && b.chats == a.chats + 1
      && (b.status == Failed <==> r.ProviderError?)
      && (b.status.Concluded? <==> Concludes(r))
      && (Concludes(r) ==> b.status == Concluded(r.conclusion.value) && b.outputs == a.outputs && b.refs == a.refs)
  {
    if r.Reply? {
      ExecuteAllCounts(allowed, a.(chats := a.chats + 1), r.calls);
    }
  }

  /** How many responses are read: up to the first that ends the run, and at most the budget plus three. */
  ghost predicate Ends(budget: int, rs: seq<Response>, a: Agent) {
    match a.status
    case Running => GoesOn(rs, a.chats) && (a.chats == |rs| || a.chats >= budget + 3)
    case Failed => 1 <= a.chats <= |rs| && GoesOn(rs, a.chats - 1) && rs[a.chats - 1].ProviderError?
    case Concluded(raw) =>
      && 1 <= a.chats <= |rs| && GoesOn(rs, a.chats - 1)
      && Concludes(rs[a.chats - 1]) && rs[a.chats - 1].conclusion == Some(raw)
  }

  /**
   In every run: it concludes with the first reply that holds a conclusion and no tool calls, and with what that reply
   says; it fails with the first provider error; and otherwise it goes on until the responses or the turns run out.
   */
  lemma {:induction false} RunEnds(allowed: set<string>, budget: int, rs: seq<Response>)
    ensures Ends(budget, rs, After(allowed, budget, rs))
  {
    if rs != [] {
      var n := |rs| - 1;
      var a := After(allowed, budget, rs[..n]);
      RunEnds(allowed, budget, rs[..n]);
      assert forall i :: 0 <= i < n ==> rs[..n][i] == rs[i];
      if a.status == Running && a.chats < budget + 3 {
        StepEnds(allowed, budget, a, rs[n]);
      }
    }
  }

  // ---------------------------------------------------------------- budgets

  ghost predicate AtMost(rs: seq<Response>, largest: nat) {
    forall i :: 0 <= i < |rs| && rs[i].Reply? ==> |rs[i].calls| <= largest
  }

  /** Provider calls stay within the budget plus three; tool calls within the budget, less one, plus one response. */
  lemma {:induction false} CallBounds(allowed: set<string>, budget: int, rs: seq<Response>, largest: nat)
    requires AtMost(rs, largest)
    ensures Bounded(budget, largest, After(allowed, budget, rs))
  {
    if rs != [] {
      CallBounds(allowed, budget, rs[..|rs| - 1], largest);
      StepBounds(allowed, budget, After(allowed, budget, rs[..|rs| - 1]), rs[|rs| - 1], largest);
    }
  }

  ghost predicate Bounded(budget: int, largest: nat, a: Agent) {
    && (a.chats == 0 || a.chats <= budget + 3)
    && (a.outputs == [] || |a.outputs| <= budget - 1 + largest)
    && (budget < 1 ==> a.outputs == [])
  }

  lemma StepBounds(allowed: set<string>, budget: int, a: Agent, r: Response, largest: nat)
    requires Bounded(budget, largest, a) && (r.Reply? ==> |r.calls| <= largest)
    ensures a.chats < budget + 3 ==> Bounded(budget, largest, Step(allowed, budget, a, r))
  {
    if r.Reply? {
      ExecuteAllCounts(allowed, a.(chats := a.chats + 1), r.calls);
    }
  }

  function Burst(n: nat): Response {
    Reply(seq(n, i => Call("t", None)), None)
  }

  /** The same single-call response `n` times. */
  function Singles(n: nat): (rs: seq<Response>)
    ensures |rs| == n && forall i :: 0 <= i < n ==> rs[i] == Burst(1)
  {
    seq(n, i => Burst(1))
  }

  lemma {:induction false} SinglesRun(allowed: set<string>, budget: int, n: nat)
    requires n <= budget
    ensures
      var a := After(allowed, budget, Singles(n));
      a.status == Running && a.chats == n && |a.outputs| == n
  {
    if n > 0 {
      SinglesRun(allowed, budget, n - 1);
      assert Singles(n)[..n - 1] == Singles(n - 1);
      var a := After(allowed, budget, Singles(n - 1));
      ExecuteAllCounts(allowed, a.(chats := a.chats + 1), Burst(1).calls);
    }
  }

  /** The bound is reached: the budget is tested once per response, not once per call. */
  lemma BoundIsReached(allowed: set<string>, budget: int, largest: nat) returns (rs: seq<Response>)
    requires budget >= 1 && largest >= 1
    ensures AtMost(rs, largest) && |After(allowed, budget, rs).outputs| == budget - 1 + largest
  {
    var front := Singles(budget - 1);
    rs := front + [Burst(largest)];
    SinglesRun(allowed, budget, budget - 1);
    BurstLast(allowed, budget, front, largest);
  }

  lemma BurstLast(allowed: set<string>, budget: int, front: seq<Response>, n: nat)
    requires
      var a := After(allowed, budget, front);
      a.status == Running && a.chats < budget + 3 && |a.outputs| < budget
    ensures |After(allowed, budget, front + [Burst(n)]).outputs| == |After(allowed, budget, front).outputs| + n
  {
    var rs := front + [Burst(n)];
    assert rs[..|rs| - 1] == front;
    var a := After(allowed, budget, front);
    ExecuteAllCounts(allowed, a.(chats := a.chats + 1), Burst(n).calls);
  }

  ghost predicate WithinBudget(budget: int, a: Agent) {
    a.outputs == [] || |a.outputs| <= budget
  }

  /** Tool calls never exceed the budget exactly when no response asks for more than one, or the budget allows none. */
  lemma BudgetKeptIff(allowed: set<string>, budget: int, largest: nat)
    ensures largest <= 1 || budget < 1 <==>
            forall rs | AtMost(rs, largest) :: WithinBudget(budget, After(allowed, budget, rs))
  {
    if largest <= 1 || budget < 1 {
      forall rs | AtMost(rs, largest) ensures WithinBudget(budget, After(allowed, budget, rs)) {
        CallBounds(allowed, budget, rs, largest);
      }
    } else {
      var rs := BoundIsReached(allowed, budget, largest);
      assert AtMost(rs, largest) && !WithinBudget(budget, After(allowed, budget, rs));
    }
  }

  // -------------------------------------------------------------- the conclusion

  /** `d.get(name)`; names do not repeat in a decoded object. */
  function Lookup(fields: seq<Field>, name: string): Option<Json> {
    if fields == [] then None
    else
      var f := fields[|fields| - 1];
      if f.name == name then Some(f.value) else Lookup(fields[..|fields| - 1], name)
  }

  function Names(fields: seq<Field>): seq<string> {
    if fields == [] then [] else Names(fields[..|fields| - 1]) + [fields[|fields| - 1].name]
  }

  /** The strings met when iterating over a value: a list's strings, an object's names, a string's characters. */
  function StringRefs(x: Option<Json>): Option<seq<string>> {
    match x
    case None => Some([])
    case Some(Arr(items)) => Some(Strings(items))
    case Some(Str(s)) => Some(seq(|s|, i requires 0 <= i < |s| => [s[i]]))
    case Some(Obj(fields)) => Some(Names(fields))
    case Some(Null) => None
    case Some(Bool(_)) => None
    case Some(Num(_)) => None
  }

  /** Missing, or a value that a comprehension can iterate over. */
  predicate Iterable(x: Option<Json>) {
    x.None? || x.value.Arr? || x.value.Str? || x.value.Obj?
  }

  /** A hypothesis's references; any of its three lists that cannot be iterated raises. */
  function HypothesisRefs(fields: seq<Field>): Option<seq<string>> {
    if Iterable(Lookup(fields, "supporting")) && Iterable(Lookup(fields, "contradicting"))
    then StringRefs(Lookup(fields, "evidence_refs"))
    else None
  }

  /** References the model gave for one statement, split into those met in tool outputs and the rest. */
  datatype Evidence = Evidence(kept: seq<string>, hallucinated: seq<string>)

  datatype Conclusion = Conclusion(hypotheses: seq<Evidence>, evidence: Evidence, confidence: real, rootCause: string)

  function Keep(refs: seq<string>, known: set<string>, wanted: bool): seq<string> {
    if refs == [] then []
    else
      var n := |refs| - 1;
      Keep(refs[..n], known, wanted) + if (refs[n] in known) == wanted then [refs[n]] else []
  }

  function Split(refs: seq<string>, known: set<string>): Evidence {
    Evidence(Keep(refs, known, true), Keep(refs, known, false))
  }

  lemma {:induction false} KeepHolds(refs: seq<string>, known: set<string>, wanted: bool)
    ensures forall r :: r in Keep(refs, known, wanted) <==> r in refs && ((r in known) == wanted)
  {
    if refs != [] {
      var n := |refs| - 1;
      KeepHolds(refs[..n], known, wanted);
      assert refs == refs[..n] + [refs[n]];
    }
  }

  /** Kept and hallucinated references partition what the model gave, repetitions included. */
  lemma {:induction false} SplitPartitions(refs: seq<string>, known: set<string>)
    ensures
      var e := Split(refs, known);
      multiset(e.kept) + multiset(e.hallucinated) == multiset(refs)
  {
    if refs != [] {
      var n := |refs| - 1;
      SplitPartitions(refs[..n], known);
      assert refs == refs[..n] + [refs[n]];
    }
  }

  /** The hypotheses' evidence; non-objects are skipped, and a value that cannot be iterated raises. */
  function Hypotheses(items: seq<Json>, known: set<string>): Option<seq<Evidence>> {
    if items == [] then Some([])
    else
      var n := |items| - 1;
      var front := Hypotheses(items[..n], known);
      if !items[n].Obj? then front
      else
        var refs := HypothesisRefs(items[n].fields);
        if front == None || refs == None then None else Some(front.value + [Split(refs.value, known)])
  }

  function Clamp(c: Option<real>): real {
    match c
    case None => 0.0
    case Some(v) => if v > 1.0 then 1.0 else if v < 0.0 then 0.0 else v
  }

  function Prefix(s: string, n: nat): string {
    if |s| <= n then s else s[..n]
  }

  /** How values are rendered as text and read as numbers. */
  datatype Reader = Reader(text: Json -> string, number: Json -> Option<real>)

  function Read(raw: seq<Field>, known: set<string>, reader: Reader): Option<Conclusion> {
    var listed := Lookup(raw, "hypotheses");
    var hyps := Hypotheses(if listed.Some? && listed.value.Arr? then listed.value.items else [], known);
    var refs := StringRefs(Lookup(raw, "evidence_refs"));
    if hyps == None || refs == None || !Iterable(Lookup(raw, "recommendations")) then None
    else
      var evidence := Split(refs.value, known);
      var given := Lookup(raw, "confidence");
      var conf := Clamp(if given.Some? then reader.number(given.value) else Some(0.0));
      var cause := Lookup(raw, "root_cause");
      var root := Prefix(if cause.Some? then reader.text(cause.value) else "inconclusive", 300);
      var capped := if evidence.kept == [] && root != "inconclusive" && conf > 0.2 then 0.2 else conf;
      Some(Conclusion(if hyps.value == [] then [Evidence([], [])] else hyps.value, evidence, capped, root))
  }

  ghost predicate EvidenceKnown(e: Evidence, known: set<string>) {
    (forall r :: r in e.kept ==> r in known) && (forall r :: r in e.hallucinated ==> r !in known)
  }

  ghost predicate AllKnown(es: seq<Evidence>, known: set<string>) {
    forall i :: 0 <= i < |es| ==> EvidenceKnown(es[i], known)
  }

  lemma SplitKnown(refs: seq<string>, known: set<string>)
    ensures EvidenceKnown(Split(refs, known), known)
  {
    KeepHolds(refs, known, true);
    KeepHolds(refs, known, false);
  }

  lemma {:induction false} HypothesesKnown(items: seq<Json>, known: set<string>)
    ensures Hypotheses(items, known).Some? ==> AllKnown(Hypotheses(items, known).value, known)
  {
    if items != [] {
      var n := |items| - 1;
      HypothesesKnown(items[..n], known);
      if items[n].Obj? {
        var refs := HypothesisRefs(items[n].fields);
        if refs.Some? {
          SplitKnown(refs.value, known);
        }
      }
    }
  }

  /** The hypotheses that are objects, each with the references it gives. */
  function Given(items: seq<Json>): seq<Option<seq<string>>> {
    if items == [] then []
    else
      var n := |items| - 1;
      Given(items[..n]) + if items[n].Obj? then [HypothesisRefs(items[n].fields)] else []
  }

  /** One evidence record per hypothesis, which together hold exactly its references. */
  ghost predicate Aligned(refs: seq<Option<seq<string>>>, es: seq<Evidence>) {
    && |es| == |refs|
    && forall i :: 0 <= i < |es| ==> refs[i].Some? && Partitions(es[i], refs[i].value)
  }

  ghost predicate Partitions(e: Evidence, refs: seq<string>) {
    multiset(e.kept) + multiset(e.hallucinated) == multiset(refs)
  }

  /** A hypothesis none of whose three lists is a number, a boolean or null. */
  predicate Readable(item: Json) {
    item.Obj? ==>
      && Iterable(Lookup(item.fields, "evidence_refs"))
      && Iterable(Lookup(item.fields, "supporting"))
      && Iterable(Lookup(item.fields, "contradicting"))
  }

  /** Reading the hypotheses fails exactly when one of them has a list that cannot be iterated. */
  lemma {:induction false} HypothesesFailIff(items: seq<Json>, known: set<string>)
    ensures Hypotheses(items, known).Some? <==> forall i :: 0 <= i < |items| ==> Readable(items[i])
  {
    if items != [] {
      var n := |items| - 1;
      HypothesesFailIff(items[..n], known);
      assert forall i :: 0 <= i < n ==> items[..n][i] == items[i];
    }
  }

  /** No hypothesis is dropped, invented or given another's references. */
  lemma {:induction false} HypothesesAligned(items: seq<Json>, known: set<string>)
    ensures Hypotheses(items, known).Some? ==> Aligned(Given(items), Hypotheses(items, known).value)
  {
    if items != [] {
      var n := |items| - 1;
      HypothesesAligned(items[..n], known);
      if items[n].Obj? {
        var refs := HypothesisRefs(items[n].fields);
        if refs.Some? {
          SplitPartitions(refs.value, known);
          assert Partitions(Split(refs.value, known), refs.value);
        }
      }
    }
  }

  /** What the checked conclusion guarantees, whatever the model wrote. */
  lemma ConclusionHolds(raw: seq<Field>, known: set<string>, reader: Reader)
    requires Read(raw, known, reader).Some?
    ensures
      var c := Read(raw, known, reader).value;
      && AllKnown(c.hypotheses, known) && EvidenceKnown(c.evidence, known)
      && 0.0 <= c.confidence <= 1.0
      && (c.evidence.kept == [] && c.rootCause != "inconclusive" ==> c.confidence <= 0.2)
      && c.hypotheses != [] && |c.rootCause| <= 300
  {
    var listed := Lookup(raw, "hypotheses");
    HypothesesKnown(if listed.Some? && listed.value.Arr? then listed.value.items else [], known);
    SplitKnown(StringRefs(Lookup(raw, "evidence_refs")).value, known);
  }

  /** The list that the raw conclusion gives under a name, empty where there is none. */
  function ItemsOf(raw: seq<Field>, name: string): seq<Json> {
    var x := Lookup(raw, name);
    if x.Some? && x.value.Arr? then x.value.items else []
  }

  /** The confidence given, as a number; zero where there is none. */
  function Given01(raw: seq<Field>, reader: Reader): real {
    var x := Lookup(raw, "confidence");
    var v := if x.Some? then reader.number(x.value) else None;
    if v.Some? then v.value else 0.0
  }

  /**
   The checked conclusion in terms of what the model wrote: its references partitioned; one record per hypothesis, or a
   single empty one; and the confidence given, brought into [0, 1], and to at most 0.2 where a cause is named
   without grounded evidence.
   */
  lemma ConclusionMeans(raw: seq<Field>, known: set<string>, reader: Reader)
    requires Read(raw, known, reader).Some?
    ensures
      var c := Read(raw, known, reader).value;
      var v := Given01(raw, reader);
      var bare := c.evidence.kept == [] && c.rootCause != "inconclusive";
      && StringRefs(Lookup(raw, "evidence_refs")).Some?
      && Partitions(c.evidence, StringRefs(Lookup(raw, "evidence_refs")).value)
      && (Given(ItemsOf(raw, "hypotheses")) != [] ==> Aligned(Given(ItemsOf(raw, "hypotheses")), c.hypotheses))
      && (Given(ItemsOf(raw, "hypotheses")) == [] ==> c.hypotheses == [Evidence([], [])])
      && (v <= 0.0 ==> c.confidence == 0.0)
      && (0.0 <= v <= (if bare then 0.2 else 1.0) ==> c.confidence == v)
      && (v > (if bare then 0.2 else 1.0) ==> c.confidence == if bare then 0.2 else 1.0)
  {
    var refs := StringRefs(Lookup(raw, "evidence_refs"));
    SplitPartitions(refs.value, known);
    HypothesesAligned(ItemsOf(raw, "hypotheses"), known);
  }

  /** The root cause is the one written, "inconclusive" where none is, cut after 300 characters. */
  lemma RootCauseMeans(raw: seq<Field>, known: set<string>, reader: Reader)
    requires Read(raw, known, reader).Some?
    ensures
      var c, x := Read(raw, known, reader).value, Lookup(raw, "root_cause");
      var full := if x.Some? then reader.text(x.value) else "inconclusive";
      c.rootCause <= full && (|c.rootCause| == 300 || c.rootCause == full)
  {
  }

  /** Reading fails exactly when some list that the checks iterate over cannot be iterated. */
  lemma ReadFailsIff(raw: seq<Field>, known: set<string>, reader: Reader)
    ensures Read(raw, known, reader).Some? <==>
            && Iterable(Lookup(raw, "evidence_refs")) && Iterable(Lookup(raw, "recommendations"))
            && forall i :: 0 <= i < |ItemsOf(raw, "hypotheses")| ==> Readable(ItemsOf(raw, "hypotheses")[i])
  {
    HypothesesFailIff(ItemsOf(raw, "hypotheses"), known);
  }

  ghost predicate InToolOutput(allowed: set<string>, a: Agent, r: string) {
    exists i :: 0 <= i < |a.outputs| && a.outputs[i].ok && a.outputs[i].tool in allowed
                && Holds(a.outputs[i].payload, r)
  }

  ghost predicate Grounded(allowed: set<string>, a: Agent, e: Evidence) {
    forall r :: r in e.kept ==> InToolOutput(allowed, a, r)
  }

  lemma KnownIsGrounded(allowed: set<string>, a: Agent, e: Evidence)
    requires Collected(allowed, a) && EvidenceKnown(e, a.refs)
    ensures Grounded(allowed, a, e)
  {
    forall r | r in e.kept ensures InToolOutput(allowed, a, r) {
      var i :| 0 <= i < |a.outputs| && r in Refs(a.outputs[i].payload);
      RefsIff(a.outputs[i].payload, r);
    }
  }

  /**
   Over whole runs: every reference kept in the conclusion or in a hypothesis occurs in the output
   of an allow-listed tool executed in that run.
   */
  lemma RunIsGrounded(allowed: set<string>, budget: int, rs: seq<Response>, raw: seq<Field>, reader: Reader)
    requires After(allowed, budget, rs).status == Concluded(Obj(raw))
    requires Read(raw, After(allowed, budget, rs).refs, reader).Some?
    ensures
      var a := After(allowed, budget, rs);
      var c := Read(raw, a.refs, reader).value;
      Grounded(allowed, a, c.evidence) && forall i :: 0 <= i < |c.hypotheses| ==> Grounded(allowed, a, c.hypotheses[i])
  {
    var a := After(allowed, budget, rs);
    var c := Read(raw, a.refs, reader).value;
    RunCollects(allowed, budget, rs);
    ConclusionHolds(raw, a.refs, reader);
    KnownIsGrounded(allowed, a, c.evidence);
    forall i | 0 <= i < |c.hypotheses| ensures Grounded(allowed, a, c.hypotheses[i]) {
      KnownIsGrounded(allowed, a, c.hypotheses[i]);
    }
  }

  // ------------------------------------------------------------------ the loop

  /** The inner loop over the calls of one response. */
  method RunTools(allowed: set<string>, a0: Agent, calls: seq<Call>) returns (a: Agent)
    ensures a == ExecuteAll(allowed, a0, calls)
  {
    a := a0;
    for i := 0 to |calls|
      invariant a == ExecuteAll(allowed, a0, calls[..i])
    {
      assert calls[..i + 1][..i] == calls[..i];
      var o := Execute(allowed, calls[i]);
      var refs := Walk(o.payload, a.refs);
      a := a.(outputs := a.outputs + [o], refs := refs);
    }
    assert calls[..|calls|] == calls;
  }

  /** `_agent_loop`, fed with the provider's responses. */
  method AgentLoop(allowed: set<string>, budget: int, rs: seq<Response>) returns (a: Agent)
    ensures a == After(allowed, budget, rs)
  {
    a := Agent(Running, 0, [], {});
    var i := 0;
    while i < |rs| && a.status == Running && a.chats < budget + 3
      invariant 0 <= i <= |rs| && a == After(allowed, budget, rs[..i])
    {
      assert rs[..i + 1][..i] == rs[..i];
      var r := rs[i];
      a := a.(chats := a.chats + 1);
      if r.ProviderError? {
        a := a.(status := Failed);
      } else if r.calls != [] {
        if |a.outputs| < budget {
          a := RunTools(allowed, a, r.calls);
        }
      } else if r.conclusion.Some? {
        a := a.(status := Concluded(r.conclusion.value));
      }
      i := i + 1;
    }
    Stopped(allowed, budget, rs, i);
  }

  lemma {:induction false} Stopped(allowed: set<string>, budget: int, rs: seq<Response>, i: nat)
    requires i <= |rs|
    requires || i == |rs|
             || After(allowed, budget, rs[..i]).status != Running
             || After(allowed, budget, rs[..i]).chats >= budget + 3
    ensures After(allowed, budget, rs) == After(allowed, budget, rs[..i])
    decreases |rs|
  {
    if i == |rs| {
      assert rs[..i] == rs;
    } else {
      var front := rs[..|rs| - 1];
      assert front[..i] == rs[..i];
      Stopped(allowed, budget, front, i);
    }
  }
}
