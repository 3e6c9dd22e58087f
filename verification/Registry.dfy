/**
 The schema registry for one event type: versions are added after the compatibility check,
 and at most one of them is active. Version `n` is row `n - 1`.
 */
module Registry {
  import opened Prelude
  import opened Schemas

  datatype Mode = Backward | Unchecked

  datatype Row = Row(schema: Schema, isActive: bool)

  datatype Entry = Entry(mode: Mode, rows: seq<Row>, active: Option<nat>)

  datatype Request =
    | Create(schema: Schema, mode: Mode)
    | Register(schema: Schema, activate: bool, force: bool)
    | SetActive(version: int, active: bool)

  datatype Reply = Done | AlreadyExists | NotRegistered | Incompatible | NoSuchVersion

  /** Only version `keep` active. */
  function KeepOnly(rows: seq<Row>, keep: nat): (r: seq<Row>)
    ensures |r| == |rows| && forall i :: 0 <= i < |r| ==> r[i] == rows[i].(isActive := i + 1 == keep)
  {
    seq(|rows|, i requires 0 <= i < |rows| => rows[i].(isActive := i + 1 == keep))
  }

  function Answer(state: Option<Entry>, r: Request): Reply {
    match r
    case Create(_, _) => if state.Some? then AlreadyExists else Done
    case Register(schema, _, force) =>
      if state == None then NotRegistered
      else
        var e := state.value;
        if e.rows != [] && e.mode == Backward && !force && !Passes(e.rows[|e.rows| - 1].schema, schema)
        then Incompatible else Done
    case SetActive(version, _) =>
      if state == None then NotRegistered else if 1 <= version <= |state.value.rows| then Done else NoSuchVersion
  }

  function Apply(state: Option<Entry>, r: Request): Option<Entry> {
    if Answer(state, r) != Done then state
    else
      match r
      case Create(schema, mode) => Some(Entry(mode, [Row(schema, true)], Some(1)))
      case Register(schema, activate, _) =>
        var e := state.value;
        var rows := e.rows + [Row(schema, activate)];
        if activate then Some(Entry(e.mode, KeepOnly(rows, |rows|), Some(|rows|))) else Some(e.(rows := rows))
      case SetActive(version, active) =>
        var e := state.value;
        if active then Some(Entry(e.mode, KeepOnly(e.rows, version), Some(version)))
        else
          Some(Entry(e.mode, e.rows[version - 1 := e.rows[version - 1].(isActive := false)],
                     if e.active == Some(version) then None else e.active))
  }

  function After(rs: seq<Request>): Option<Entry> {
    if rs == [] then None else Apply(After(rs[..|rs| - 1]), rs[|rs| - 1])
  }

  // --------------------------------------------------------------- invariants

  /** The active flag is on exactly the row that the active version names. */
  ghost predicate EntryHolds(e: Entry) {
    && e.rows != []
    && (forall i :: 0 <= i < |e.rows| ==> (e.rows[i].isActive <==> e.active == Some(i + 1)))
    && (e.active.Some? ==> 1 <= e.active.value <= |e.rows|)
  }

  ghost predicate Holds(state: Option<Entry>) {
    state.Some? ==> EntryHolds(state.value)
  }

  lemma StepHolds(state: Option<Entry>, r: Request)
    requires Holds(state)
    ensures Holds(Apply(state, r))
  {
    if Answer(state, r) == Done && !r.Create? {
      var e, e' := state.value, Apply(state, r).value;
      forall i | 0 <= i < |e'.rows| ensures e'.rows[i].isActive <==> e'.active == Some(i + 1) {
        assert i < |e.rows| ==> (e.rows[i].isActive <==> e.active == Some(i + 1));
      }
    }
  }

  /** After every run of requests the flags and the active version agree. */
  lemma {:induction false} ActiveAgrees(rs: seq<Request>)
    ensures Holds(After(rs))
  {
    if rs != [] {
      ActiveAgrees(rs[..|rs| - 1]);
      StepHolds(After(rs[..|rs| - 1]), rs[|rs| - 1]);
    }
  }

  ghost predicate Unforced(rs: seq<Request>) {
    forall i :: 0 <= i < |rs| && rs[i].Register? ==> !rs[i].force
  }

  ghost predicate PassingRows(rows: seq<Row>) {
    forall i :: 0 <= i < |rows| - 1 ==> Passes(rows[i].schema, rows[i + 1].schema)
  }

  ghost predicate Checked(state: Option<Entry>) {
    state.Some? && state.value.mode == Backward ==> PassingRows(state.value.rows)
  }

  lemma StepChecked(state: Option<Entry>, r: Request)
    requires Checked(state) && (r.Register? ==> !r.force)
    ensures Checked(Apply(state, r))
  {
    if Answer(state, r) == Done && !r.Create? && state.value.mode == Backward {
      var e, e' := state.value, Apply(state, r).value;
      forall i | 0 <= i < |e'.rows| - 1 ensures Passes(e'.rows[i].schema, e'.rows[i + 1].schema) {
        if i < |e.rows| - 1 {
          assert Passes(e.rows[i].schema, e.rows[i + 1].schema);
          assert e'.rows[i].schema == e.rows[i].schema && e'.rows[i + 1].schema == e.rows[i + 1].schema;
        }
      }
    }
  }

  /** Without force, each version passes the check against the one before it. */
  lemma {:induction false} VersionsPass(rs: seq<Request>)
    requires Unforced(rs)
    ensures Checked(After(rs))
  {
    if rs != [] {
      VersionsPass(rs[..|rs| - 1]);
      StepChecked(After(rs[..|rs| - 1]), rs[|rs| - 1]);
    }
  }

  function SchemasOf(rows: seq<Row>): (r: seq<Schema>)
    ensures |r| == |rows| && forall i :: 0 <= i < |r| ==> r[i] == rows[i].schema
  {
    seq(|rows|, i requires 0 <= i < |rows| => rows[i].schema)
  }

  ghost predicate GentleRows(rows: seq<Row>) {
    forall i :: 0 <= i < |rows| - 1 ==> Gentle(rows[i].schema, rows[i + 1].schema)
  }

  /**
   Over every unforced run in backward mode whose versions neither drop a property or its type nor
   type an untyped one: a payload valid under version `n`, carrying only what version `n` declares,
   is valid under the active version whenever that is `n` or later.
   */
  lemma PayloadsStayValid(rs: seq<Request>, n: nat, p: Payload)
    requires Unforced(rs) && After(rs).Some? && After(rs).value.mode == Backward && GentleRows(After(rs).value.rows)
    requires 1 <= n <= |After(rs).value.rows| && After(rs).value.active.Some? && n <= After(rs).value.active.value
    requires Valid(After(rs).value.rows[n - 1].schema, p) && p.Keys <= After(rs).value.rows[n - 1].schema.props.Keys
    ensures After(rs).value.active.value <= |After(rs).value.rows|
    ensures Valid(After(rs).value.rows[After(rs).value.active.value - 1].schema, p)
  {
    var e := After(rs).value;
    ActiveAgrees(rs);
    VersionsPass(rs);
    var vs := SchemasOf(e.rows);
    ChainOf(e.rows);
    ChainSoundness(vs, n - 1, e.active.value - 1, p);
  }

  lemma ChainOf(rows: seq<Row>)
    requires PassingRows(rows) && GentleRows(rows)
    ensures Chain(SchemasOf(rows))
  {
    var vs := SchemasOf(rows);
    forall i | 0 <= i < |vs| - 1 ensures Passes(vs[i], vs[i + 1]) && Gentle(vs[i], vs[i + 1]) {
      assert Passes(rows[i].schema, rows[i + 1].schema) && Gentle(rows[i].schema, rows[i + 1].schema);
    }
  }

  /** A registration that is accepted appends exactly the posted schema and changes no earlier one. */
  lemma RegistrationAppends(state: Option<Entry>, schema: Schema, activate: bool, force: bool)
    requires state.Some? && Answer(state, Register(schema, activate, force)) == Done
    ensures
      var e, e' := state.value, Apply(state, Register(schema, activate, force)).value;
      && SchemasOf(e'.rows) == SchemasOf(e.rows) + [schema]
      && e'.active == if activate then Some(|e'.rows|) else e.active
  {
    var e, e' := state.value, Apply(state, Register(schema, activate, force)).value;
    assert |e'.rows| == |e.rows| + 1;
    forall i | 0 <= i < |e'.rows| ensures SchemasOf(e'.rows)[i] == (SchemasOf(e.rows) + [schema])[i] {
      assert e'.rows[i].schema == (e.rows + [Row(schema, activate)])[i].schema;
    }
  }

  /** Activation makes exactly the requested version active, whatever was active before. */
  lemma ActivationIsExact(state: Option<Entry>, version: int)
    requires state.Some? && 1 <= version <= |state.value.rows|
    ensures
      var e, e' := state.value, Apply(state, SetActive(version, true)).value;
      && Answer(state, SetActive(version, true)) == Done && |e'.rows| == |e.rows| && e'.active == Some(version)
      && forall i :: 0 <= i < |e'.rows| ==> (e'.rows[i].isActive <==> i + 1 == version)
  {
  }

  /** Deactivation switches off that version, and leaves none active if it was the active one. */
  lemma DeactivationIsExact(state: Option<Entry>, version: int)
    requires state.Some? && EntryHolds(state.value) && 1 <= version <= |state.value.rows|
    ensures
      var e, e' := state.value, Apply(state, SetActive(version, false)).value;
      && Answer(state, SetActive(version, false)) == Done && |e'.rows| == |e.rows|
      && (e.active == Some(version) ==> e'.active == None && forall i :: 0 <= i < |e'.rows| ==> !e'.rows[i].isActive)
      && (e.active != Some(version) ==> e' == e)
  {
    var e, e' := state.value, Apply(state, SetActive(version, false)).value;
    assert e.rows[version - 1].isActive <==> e.active == Some(version - 1 + 1);
    if e.active != Some(version) {
      assert e'.rows == e.rows;
    }
  }

  /**
   A registration is accepted exactly when the event type is registered and, in backward mode and without force, the
   schema passes the check against the latest version.
   */
  lemma RegistrationAccepted(state: Option<Entry>, schema: Schema, activate: bool, force: bool)
    requires Holds(state)
    ensures Answer(state, Register(schema, activate, force)) == Done <==>
            && state.Some?
            && (force || state.value.mode == Unchecked
                || Passes(state.value.rows[|state.value.rows| - 1].schema, schema))
    ensures Answer(state, Register(schema, activate, force)) != Done ==>
              Apply(state, Register(schema, activate, force)) == state
  {
  }

  /** Activation never changes a schema. */
  lemma ActivationKeepsSchemas(state: Option<Entry>, version: int, active: bool)
    requires state.Some?
    ensures Apply(state, SetActive(version, active)).Some?
    ensures SchemasOf(Apply(state, SetActive(version, active)).value.rows) == SchemasOf(state.value.rows)
  {
  }

  // ----------------------------------------------------------------- the service

  class SchemaRegistry {
    var state: Option<Entry>

    constructor ()
      ensures state == None
    {
      state := None;
    }

    /** `create_schema`. */
    method CreateSchema(schema: Schema, mode: Mode) returns (r: Reply)
      modifies this
      ensures r == Answer(old(state), Create(schema, mode)) && state == Apply(old(state), Create(schema, mode))
    {
      if state.Some? {
        return AlreadyExists;
      }
      state := Some(Entry(mode, [Row(schema, true)], Some(1)));
      r := Done;
    }

    /** `_deactivate_others`: row by row. */
    method DeactivateOthers(rows: seq<Row>, keep: nat) returns (out: seq<Row>)
      ensures out == KeepOnly(rows, keep)
    {
      out := [];
      for i := 0 to |rows|
        invariant out == KeepOnly(rows, keep)[..i]
      {
        out := out + [rows[i].(isActive := i + 1 == keep)];
      }
    }

    /** `register_version`. */
    method RegisterVersion(schema: Schema, activate: bool, force: bool) returns (r: Reply)
      modifies this
      ensures r == Answer(old(state), Register(schema, activate, force))
      ensures state == Apply(old(state), Register(schema, activate, force))
    {
      if state == None {
        return NotRegistered;
      }
      var e := state.value;
      if e.rows != [] && e.mode == Backward && !force {
        var ok, _ := CheckBackwardCompatible(e.rows[|e.rows| - 1].schema, schema);
        if !ok {
          return Incompatible;
        }
      }
      var rows := e.rows + [Row(schema, activate)];
      e := e.(rows := rows);
      if activate {
        rows := DeactivateOthers(rows, |rows|);
        e := e.(rows := rows, active := Some(|rows|));
      }
      state := Some(e);
      r := Done;
    }

    /** `set_version_active`. */
    method SetVersionActive(version: int, active: bool) returns (r: Reply)
      modifies this
      ensures r == Answer(old(state), SetActive(version, active))
      ensures state == Apply(old(state), SetActive(version, active))
    {
      if state == None {
        return NotRegistered;
      }
      var e := state.value;
      if version < 1 || version > |e.rows| {
        return NoSuchVersion;
      }
      var rows := e.rows[version - 1 := e.rows[version - 1].(isActive := active)];
      if active {
        rows := DeactivateOthers(rows, version);
        assert rows == KeepOnly(e.rows, version);
        e := e.(rows := rows, active := Some(version));
      } else {
        e := e.(rows := rows, active := if e.active == Some(version) then None else e.active);
      }
      state := Some(e);
      r := Done;
    }
  }
}
