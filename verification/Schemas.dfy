/**
 Flat JSON object schemas: `type`, `required`, `properties` and `additionalProperties`,
 what payloads they accept, and the registry's backward-compatibility check.
 */
module Schemas {
  import opened Prelude

  /** JSON value kinds as far as `type` can tell them apart; integers are numbers. */
  datatype Kind = Null | Bool | Integer | Fraction | Text | List | Object

  datatype TypeName = NullType | BooleanType | IntegerType | NumberType | StringType | ArrayType | ObjectType

  /** `additionalProperties`: absent or true, false, or a schema with a type. */
  datatype Extra = Anything | Nothing | Typed(types: set<TypeName>)

  /** The empty type set stands for a missing `type` keyword. */
  datatype Schema = Schema(required: set<string>, props: map<string, set<TypeName>>, extra: Extra)

  type Payload = map<string, Kind>

  // ------------------------------------------------------------- validity

  predicate Admits(t: TypeName, v: Kind) {
    match t
    case NullType => v == Null
    case BooleanType => v == Bool
    case IntegerType => v == Integer
    case NumberType => v == Integer || v == Fraction
    case StringType => v == Text
    case ArrayType => v == List
    case ObjectType => v == Object
  }

  predicate TypeOk(types: set<TypeName>, v: Kind) {
    types == {} || exists t :: t in types && Admits(t, v)
  }

  predicate ExtraOk(extra: Extra, v: Kind) {
    match extra
    case Anything => true
    case Nothing => false
    case Typed(types) => TypeOk(types, v)
  }

  /** May the payload carry value kind `v` under `name`? */
  predicate Allows(s: Schema, name: string, v: Kind) {
    if name in s.props then TypeOk(s.props[name], v) else ExtraOk(s.extra, v)
  }

  ghost predicate Valid(s: Schema, p: Payload) {
    && (forall name :: name in s.required ==> name in p)
    && (forall name :: name in p ==> Allows(s, name, p[name]))
  }

  // ---------------------------------------------------------------- the check

  datatype Problem =
    | AddedRequired(names: set<string>)
    | RemovedWhileClosed(names: set<string>)
    | Narrowed(name: string)
    | Closed

  predicate Narrows(earlier: Schema, later: Schema, name: string) {
    && name in earlier.props && name in later.props
    && earlier.props[name] != {} && later.props[name] != {} && !(earlier.props[name] <= later.props[name])
  }

  predicate Passes(earlier: Schema, later: Schema) {
    && later.required <= earlier.required
    && (later.extra == Nothing ==> earlier.props.Keys <= later.props.Keys && earlier.extra == Nothing)
    && forall name | name in earlier.props :: !Narrows(earlier, later, name)
  }

  /** `check_backward_compatible`, for any order in which the common names are enumerated. */
  method CheckBackwardCompatible(earlier: Schema, later: Schema) returns (ok: bool, problems: seq<Problem>)
    ensures ok <==> Passes(earlier, later)
    ensures ok <==> problems == []
    ensures forall name :: Narrowed(name) in problems <==> Narrows(earlier, later, name)
    ensures forall names :: AddedRequired(names) in problems <==>
                              names == later.required - earlier.required && names != {}
    ensures Closed in problems <==> later.extra == Nothing && earlier.extra != Nothing
    ensures forall names :: RemovedWhileClosed(names) in problems <==>
                              names == earlier.props.Keys - later.props.Keys && names != {} && later.extra == Nothing
  {
    problems := [];
    var addedRequired := later.required - earlier.required;
    if addedRequired != {} {
      problems := problems + [AddedRequired(addedRequired)];
    }
    var removed := earlier.props.Keys - later.props.Keys;
    if removed != {} && later.extra == Nothing {
      problems := problems + [RemovedWhileClosed(removed)];
    }
    var narrowed := NarrowedNames(earlier, later);
    problems := problems + narrowed;
    if earlier.extra != Nothing && later.extra == Nothing {
      problems := problems + [Closed];
    }
    ok := problems == [];
    PassesIff(earlier, later, narrowed);
  }

  lemma PassesIff(earlier: Schema, later: Schema, narrowed: seq<Problem>)
    requires forall q :: q in narrowed <==> q.Narrowed? && Narrows(earlier, later, q.name)
    ensures Passes(earlier, later) <==>
            && later.required - earlier.required == {} && narrowed == []
            && (later.extra == Nothing ==> earlier.props.Keys - later.props.Keys == {} && earlier.extra == Nothing)
  {
    Without(later.required, earlier.required);
    Without(earlier.props.Keys, later.props.Keys);
    if narrowed == [] {
      forall name | name in earlier.props ensures !Narrows(earlier, later, name) {
        assert Narrowed(name) !in narrowed;
      }
    } else {
      assert narrowed[0] in narrowed;
    }
  }

  lemma Without(a: set<string>, b: set<string>)
    ensures a - b == {} <==> a <= b
  {
    if a - b == {} {
      assert a <= b + (a - b);
    }
  }

  /** The loop over the common names. */
  method NarrowedNames(earlier: Schema, later: Schema) returns (narrowed: seq<Problem>)
    ensures forall q :: q in narrowed <==> q.Narrowed? && Narrows(earlier, later, q.name)
  {
    narrowed := [];
    var rest := earlier.props.Keys * later.props.Keys;
    while rest != {}
      invariant rest <= earlier.props.Keys * later.props.Keys
      invariant forall q :: q in narrowed <==> q.Narrowed? && Narrows(earlier, later, q.name) && q.name !in rest
    {
      var name :| name in rest;
      var ot, nt := earlier.props[name], later.props[name];
      if ot != {} && nt != {} && !(ot <= nt) {
        narrowed := narrowed + [Narrowed(name)];
      }
      rest := rest - {name};
    }
  }

  // ------------------------------------------------------------ true compatibility

  /** Every payload the old schema accepts is accepted by the new one. */
  ghost predicate Compatible(earlier: Schema, later: Schema) {
    forall p :: Valid(earlier, p) ==> Valid(later, p)
  }

  /** Some value is allowed under every required name. */
  ghost predicate Satisfiable(s: Schema) {
    forall name :: name in s.required ==> exists v :: Allows(s, name, v)
  }

  ghost predicate Widens(earlier: Schema, later: Schema, name: string) {
    forall v :: Allows(earlier, name, v) ==> Allows(later, name, v)
  }

  ghost function SomeKind(s: Schema, name: string): Kind
    requires exists v :: Allows(s, name, v)
  {
    var v :| Allows(s, name, v);
    v
  }

  /** The required names and nothing else. */
  ghost function Minimal(s: Schema): Payload
    requires Satisfiable(s)
  {
    map name | name in s.required :: SomeKind(s, name)
  }

  lemma MinimalIsValid(s: Schema)
    requires Satisfiable(s)
    ensures Valid(s, Minimal(s))
  {
  }

  lemma WithValue(s: Schema, p: Payload, name: string, v: Kind)
    requires Valid(s, p) && Allows(s, name, v)
    ensures Valid(s, p[name := v])
  {
  }

  /** Compatibility is pointwise: no new requirement, and under every name at least the old kinds. */
  lemma CompatibleIff(earlier: Schema, later: Schema)
    requires Satisfiable(earlier)
    ensures Compatible(earlier, later) <==>
            later.required <= earlier.required && forall name :: Widens(earlier, later, name)
  {
    var p := Minimal(earlier);
    MinimalIsValid(earlier);
    if Compatible(earlier, later) {
      assert Valid(later, p);
      forall name, v | Allows(earlier, name, v) ensures Allows(later, name, v) {
        WithValue(earlier, p, name, v);
        assert Valid(later, p[name := v]);
        assert p[name := v][name] == v;
      }
    }
    if later.required <= earlier.required && forall name :: Widens(earlier, later, name) {
      forall q | Valid(earlier, q) ensures Valid(later, q) {
        ValidCarries(earlier, later, q);
      }
    }
  }

  lemma ValidCarries(earlier: Schema, later: Schema, p: Payload)
    requires Valid(earlier, p) && later.required <= earlier.required
    requires forall name :: name in p ==> Widens(earlier, later, name)
    ensures Valid(later, p)
  {
  }

  /** A schema accepts some payload exactly when each required name has an allowed value. */
  lemma SatisfiableIff(s: Schema)
    ensures Satisfiable(s) <==> exists p :: Valid(s, p)
  {
    if Satisfiable(s) {
      MinimalIsValid(s);
    }
  }

  // --------------------------------------------------- what the check overlooks

  ghost predicate TypesWiden(a: set<TypeName>, b: set<TypeName>) {
    forall v :: TypeOk(a, v) ==> TypeOk(b, v)
  }

  ghost predicate ExtraWidens(a: Extra, b: Extra) {
    forall v :: ExtraOk(a, v) ==> ExtraOk(b, v)
  }

  /**
   The cases the check lets through unexamined: a type put on a property that had none, a dropped
   property that now falls under `additionalProperties`, a new property whose name was free before,
   and a narrower `additionalProperties` schema.
   */
  ghost predicate NoGap(earlier: Schema, later: Schema) {
    && (forall name :: name in earlier.props && name in later.props && earlier.props[name] == {} ==>
                         TypesWiden({}, later.props[name]))
    && (forall name :: name in earlier.props && name !in later.props ==>
                         forall v :: TypeOk(earlier.props[name], v) ==> ExtraOk(later.extra, v))
    && (forall name :: name !in earlier.props && name in later.props ==>
                         forall v :: ExtraOk(earlier.extra, v) ==> TypeOk(later.props[name], v))
    && ExtraWidens(earlier.extra, later.extra)
  }

  lemma SubsetWidens(a: set<TypeName>, b: set<TypeName>)
    requires a != {} && (b == {} || a <= b)
    ensures TypesWiden(a, b)
  {
    forall v | TypeOk(a, v) ensures TypeOk(b, v) {
      var t :| t in a && Admits(t, v);
    }
  }

  lemma PassingWidens(earlier: Schema, later: Schema, name: string)
    requires Passes(earlier, later) && NoGap(earlier, later)
    ensures Widens(earlier, later, name)
  {
    if name in earlier.props && name in later.props {
      if earlier.props[name] != {} {
        assert !Narrows(earlier, later, name);
        SubsetWidens(earlier.props[name], later.props[name]);
      }
    }
  }

  /** There is always a name a finite schema does not declare. */
  lemma {:induction false} FreshName(names: set<string>) returns (name: string)
    ensures name !in names
    ensures forall other :: other in names ==> |other| < |name|
    decreases |names|
  {
    if names == {} {
      name := "x";
    } else {
      var one :| one in names;
      var rest := FreshName(names - {one});
      name := rest + one + "x";
      forall other | other in names ensures |other| < |name| {
        assert other == one || other in names - {one};
      }
    }
  }

  lemma WideningLeavesNoGap(earlier: Schema, later: Schema)
    requires forall name :: Widens(earlier, later, name)
    ensures NoGap(earlier, later)
  {
    var name := FreshName(earlier.props.Keys + later.props.Keys);
    assert Widens(earlier, later, name);
    assert forall v :: Allows(earlier, name, v) == ExtraOk(earlier.extra, v);
    assert forall v :: Allows(later, name, v) == ExtraOk(later.extra, v);
    forall name | name in earlier.props && name in later.props && earlier.props[name] == {}
      ensures TypesWiden({}, later.props[name])
    {
      assert Widens(earlier, later, name);
      forall v: Kind ensures TypeOk(later.props[name], v) {
        assert Allows(earlier, name, v);
      }
    }
    forall name, v | name in earlier.props && name !in later.props && TypeOk(earlier.props[name], v)
      ensures ExtraOk(later.extra, v)
    {
      assert Widens(earlier, later, name) && Allows(earlier, name, v);
    }
    forall name, v | name !in earlier.props && name in later.props && ExtraOk(earlier.extra, v)
      ensures TypeOk(later.props[name], v)
    {
      assert Widens(earlier, later, name) && Allows(earlier, name, v);
    }
  }

  /**
   The check is not sound on its own. Where it passes, every payload of the earlier schema stays valid
   exactly when none of the four overlooked cases occurs, or the earlier schema accepts nothing at all.
   */
  lemma SoundIffNoGap(earlier: Schema, later: Schema)
    requires Passes(earlier, later)
    ensures Compatible(earlier, later) <==> NoGap(earlier, later) || !Satisfiable(earlier)
  {
    if Satisfiable(earlier) {
      CompatibleIff(earlier, later);
      if NoGap(earlier, later) {
        forall name ensures Widens(earlier, later, name) {
          PassingWidens(earlier, later, name);
        }
      } else if forall name :: Widens(earlier, later, name) {
        WideningLeavesNoGap(earlier, later);
      }
    } else {
      SatisfiableIff(earlier);
    }
  }

  /** Putting a type on an untyped property passes the check and rejects payloads accepted before. */
  lemma TypeAddedUnnoticed() returns (earlier: Schema, later: Schema, p: Payload)
    ensures Passes(earlier, later) && Valid(earlier, p) && !Valid(later, p)
  {
    earlier := Schema({}, map["a" := {}], Anything);
    later := Schema({}, map["a" := {IntegerType}], Anything);
    p := map["a" := Text];
    assert "a" in p && !Allows(later, "a", p["a"]);
  }

  // ------------------------------------------------- what the check refuses

  /** `integer` is given up for `number`, which accepts it, and nothing else is given up. */
  predicate TradesInteger(a: set<TypeName>, b: set<TypeName>) {
    IntegerType in a && IntegerType !in b && NumberType in b && a - {IntegerType} <= b
  }

  /** A kind that the type admits and, but for integers, no other type does. */
  function Sample(t: TypeName): (v: Kind)
    ensures Admits(t, v)
    ensures forall u :: Admits(u, v) ==> u == t || (t == IntegerType && u == NumberType)
  {
    match t
    case NullType => Null
    case BooleanType => Bool
    case IntegerType => Integer
    case NumberType => Fraction
    case StringType => Text
    case ArrayType => List
    case ObjectType => Object
  }

  lemma SampleKept(a: set<TypeName>, b: set<TypeName>, t: TypeName)
    requires TypesWiden(a, b) && b != {} && t in a
    ensures t in b || (t == IntegerType && NumberType in b)
  {
    assert TypeOk(a, Sample(t));
    var u :| u in b && Admits(u, Sample(t));
  }

  lemma TradeWidens(a: set<TypeName>, b: set<TypeName>)
    requires a != {} && TradesInteger(a, b)
    ensures TypesWiden(a, b)
  {
    forall v | TypeOk(a, v) ensures TypeOk(b, v) {
      var t :| t in a && Admits(t, v);
      if t == IntegerType {
        assert Admits(NumberType, v);
      } else {
        assert t in a - {IntegerType};
      }
    }
  }

  /** Among type lists, more kinds are accepted by a larger list or by the one trade, and in no other way. */
  lemma TypesWidenIff(a: set<TypeName>, b: set<TypeName>)
    requires a != {} && b != {}
    ensures TypesWiden(a, b) <==> a <= b || TradesInteger(a, b)
  {
    if TypesWiden(a, b) {
      forall t | t in a ensures t in b || (t == IntegerType && NumberType in b) {
        SampleKept(a, b, t);
      }
    } else if a <= b {
      SubsetWidens(a, b);
    } else if TradesInteger(a, b) {
      TradeWidens(a, b);
    }
  }

  /** Every type list accepts some kind. */
  lemma AcceptsSome(a: set<TypeName>) returns (v: Kind)
    ensures TypeOk(a, v)
  {
    if a == {} {
      v := Null;
    } else {
      var t :| t in a;
      v := Sample(t);
    }
  }

  /** A compatible change closes the schema only if it was closed before and drops no property. */
  lemma ClosingIsNoFalseAlarm(earlier: Schema, later: Schema)
    requires later.extra == Nothing && forall name :: Widens(earlier, later, name)
    ensures earlier.extra == Nothing && earlier.props.Keys <= later.props.Keys
  {
    var name := FreshName(earlier.props.Keys + later.props.Keys);
    assert Widens(earlier, later, name);
    assert forall v :: !Allows(later, name, v);
    if earlier.extra.Typed? {
      var v := AcceptsSome(earlier.extra.types);
      assert Allows(earlier, name, v);
    } else if earlier.extra.Anything? {
      assert Allows(earlier, name, Null);
    }
    forall k | k in earlier.props ensures k in later.props {
      if k !in later.props {
        assert Widens(earlier, later, k);
        var v := AcceptsSome(earlier.props[k]);
        assert Allows(earlier, k, v);
      }
    }
  }

  /** A type list that trades `integer` for `number` somewhere. */
  ghost predicate TradesSomewhere(earlier: Schema, later: Schema) {
    exists name :: name in earlier.props && name in later.props && TradesInteger(earlier.props[name], later.props[name])
  }

  /**
   The check is not complete either. A change that keeps every old payload valid is refused exactly when
   some property trades `integer` for `number`; the check's three other complaints are never false alarms.
   */
  lemma RefusedIffTrade(earlier: Schema, later: Schema)
    requires Satisfiable(earlier) && Compatible(earlier, later)
    ensures !Passes(earlier, later) <==> TradesSomewhere(earlier, later)
  {
    CompatibleIff(earlier, later);
    if later.extra == Nothing {
      ClosingIsNoFalseAlarm(earlier, later);
    }
    forall name | name in earlier.props && name in later.props
      ensures Narrows(earlier, later, name) <==> TradesInteger(earlier.props[name], later.props[name])
    {
      NarrowsIffTrades(earlier, later, name);
    }
  }

  lemma NarrowsIffTrades(earlier: Schema, later: Schema, name: string)
    requires name in earlier.props && name in later.props && Widens(earlier, later, name)
    ensures Narrows(earlier, later, name) <==> TradesInteger(earlier.props[name], later.props[name])
  {
    var a, b := earlier.props[name], later.props[name];
    forall v | TypeOk(a, v) ensures TypeOk(b, v) {
      assert Allows(earlier, name, v);
    }
    if a != {} && b != {} {
      TypesWidenIff(a, b);
    }
  }

  /** For instance: `integer` to `number` accepts more, and is refused. */
  lemma WideningRefused() returns (earlier: Schema, later: Schema)
    ensures !Passes(earlier, later) && Compatible(earlier, later)
  {
    earlier := Schema({}, map["a" := {IntegerType}], Anything);
    later := Schema({}, map["a" := {NumberType}], Anything);
    assert TradesInteger(earlier.props["a"], later.props["a"]);
    TradeWidens(earlier.props["a"], later.props["a"]);
    CompatibleIff(earlier, later);
    RefusedIffTrade(earlier, later);
  }

  // ------------------------------------------------------------------- chains

  /** A step drops no property and no type, and types no property that had none. */
  ghost predicate Gentle(earlier: Schema, later: Schema) {
    forall name :: name in earlier.props ==>
                     name in later.props && (earlier.props[name] == {} <==> later.props[name] == {})
  }

  ghost predicate Chain(vs: seq<Schema>) {
    forall i :: 0 <= i < |vs| - 1 ==> Passes(vs[i], vs[i + 1]) && Gentle(vs[i], vs[i + 1])
  }

  /** Every type the first schema knows is still known, with at least the same kinds. */
  ghost predicate Extends(a: Schema, b: Schema) {
    && b.required <= a.required
    && forall name :: name in a.props ==> name in b.props && TypesWiden(a.props[name], b.props[name])
  }

  lemma GentleExtends(a: Schema, b: Schema)
    requires Passes(a, b) && Gentle(a, b)
    ensures Extends(a, b)
  {
    forall name | name in a.props ensures name in b.props && TypesWiden(a.props[name], b.props[name]) {
      if a.props[name] != {} {
        assert !Narrows(a, b, name);
        SubsetWidens(a.props[name], b.props[name]);
      }
    }
  }

  lemma ExtendsTransitive(a: Schema, b: Schema, c: Schema)
    requires Extends(a, b) && Extends(b, c)
    ensures Extends(a, c)
  {
    forall name | name in a.props ensures name in c.props && TypesWiden(a.props[name], c.props[name]) {
      assert TypesWiden(a.props[name], b.props[name]) && TypesWiden(b.props[name], c.props[name]);
    }
  }

  lemma {:induction false} ChainExtends(vs: seq<Schema>, i: nat, j: nat)
    requires Chain(vs) && i <= j < |vs|
    ensures Extends(vs[i], vs[j])
    decreases j
  {
    if i < j {
      ChainExtends(vs, i, j - 1);
      assert Passes(vs[j - 1], vs[j - 1 + 1]);
      GentleExtends(vs[j - 1], vs[j]);
      ExtendsTransitive(vs[i], vs[j - 1], vs[j]);
    }
  }

  /**
   Along a chain of passing, gentle steps, a payload valid under one version that carries only
   properties this version declares is valid under every later version.
   */
  lemma ChainSoundness(vs: seq<Schema>, i: nat, j: nat, p: Payload)
    requires Chain(vs) && i <= j < |vs| && Valid(vs[i], p) && p.Keys <= vs[i].props.Keys
    ensures Valid(vs[j], p)
  {
    ChainExtends(vs, i, j);
    forall name | name in p ensures Allows(vs[j], name, p[name]) {
      assert name in vs[i].props && Allows(vs[i], name, p[name]);
    }
  }

  /** Without gentleness a chain of passing steps forgets: drop a type, then put another. */
  lemma ForgetfulChain() returns (a: Schema, b: Schema, c: Schema, p: Payload)
    ensures Passes(a, b) && Passes(b, c) && p.Keys <= a.props.Keys && Valid(a, p) && !Valid(c, p)
  {
    a := Schema({}, map["a" := {StringType}], Anything);
    b := Schema({}, map["a" := {}], Anything);
    c := Schema({}, map["a" := {IntegerType}], Anything);
    p := map["a" := Text];
    assert StringType in a.props["a"] && Admits(StringType, Text);
    assert "a" in p && !Allows(c, "a", p["a"]);
  }
}
