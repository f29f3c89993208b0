/** Well-typed plans encode without type errors, unless a value of the wrong kind is given for an
    alias of a field that is already written. The encoder binds such a value to the target before
    the member list of the alias, with its own tag, and an expression may then meet it.

    An alias whose target comes later in the same list does no harm: nothing reads the target
    before its field, and the field rebinds it. So the invariant is about the symbols that the
    dependency validator counts as available. The encoder binds the tags of the given values, so
    the claim is about kinds of value. */
module EncodeTyped {
  import opened Outcome
  import opened Bytes
  import opened Expr
  import opened Plan
  import opened Decode
  import opened Encode
  import opened Typing
  import opened TypingSound
  import opened Dependencies
  import opened DependenciesSound

  // ----- what an expression may see -----

  /** The available part of an environment. */
  function Seen(env: Env, available: set<SymbolId>): Env {
    map s | s in env && (s in available || IsBuiltin(s)) :: env[s]
  }

  predicate SeenTyped(p: Program, env: Env, available: set<SymbolId>) {
    WellTyped(p, false, Seen(env, available))
  }

  /** The setting of every lemma here. */
  predicate Setting(p: Program, y: Sink, env: Env, available: set<SymbolId>) {
    && TypedProgram(p, false) && y.c.plan == p.m && Accepted(p.m)
    && ModuleValues(p.m) <= available && SeenTyped(p, env, available)
  }

  lemma SeesAll(m: Module, f: FloatUnit, e: Expr, env: Env, available: set<SymbolId>)
    requires Accepted(m) && ModuleValues(m) <= available && ExprAllowed(m, e, available)
    ensures var seen := Seen(env, available);
            Eval(f, e, env) == Eval(f, e, seen) && EvalSize(f, e, env) == EvalSize(f, e, seen) && EvalBool(f, e, env) == EvalBool(f, e, seen)
  {
    forall s | s in Symbols(e) ensures s in available || IsBuiltin(s) {
      assert SymbolAllowed(m, s, available);
    }
    EvalAgrees(f, e, env, Seen(env, available));
  }

  lemma {:induction false} ExtentsSeen(c: Context, dims: seq<Dim>, env: Env, count: nat, available: set<SymbolId>)
    requires Accepted(c.plan) && ModuleValues(c.plan) <= available && DimsAllowed(c.plan, dims, available)
    ensures Extents(c, dims, env, count) == Extents(c, dims, Seen(env, available), count)
    decreases |dims|
  {
    hide Seen, Accepted, ModuleValues, Eval;
    if dims != [] && !dims[0].Remaining? {
      assert dims[0] in dims;
      SeesAll(c.plan, c.fp, dims[0].e, env, available);
      var n := EvalSize(c.fp, dims[0].e, env);
      if n.Ok? {
        ExtentsSeen(c, dims[1..], env, Times(count, n.value), available);
      }
    }
  }

  lemma {:induction false} RequirementsSeen(c: Context, reqs: seq<Expr>, env: Env, available: set<SymbolId>)
    requires Accepted(c.plan) && ModuleValues(c.plan) <= available && forall e :: e in reqs ==> ExprAllowed(c.plan, e, available)
    ensures CheckRequirements(c.fp, reqs, env) == CheckRequirements(c.fp, reqs, Seen(env, available))
  {
    hide Seen, Accepted, ModuleValues, Eval, ExprAllowed;
    if reqs != [] {
      SeesAll(c.plan, c.fp, reqs[0], env, available);
      RequirementsSeen(c, reqs[1..], env, available);
    }
  }

  lemma SeenLess(p: Program, env: Env, more: set<SymbolId>, less: set<SymbolId>)
    requires SeenTyped(p, env, more) && less <= more
    ensures SeenTyped(p, env, less)
  {
    forall s | s in Seen(env, less) && !TypeOf(p, Id(s)).Invalid? ensures Carries(false, TypeOf(p, Id(s)), Seen(env, less)[s]) {
      assert s in Seen(env, more);
    }
  }

  /** A binding that makes its symbol available. */
  lemma SeenBind(p: Program, env: Env, available: set<SymbolId>, s: SymbolId, v: Scalar)
    requires SeenTyped(p, env, available) && (!TypeOf(p, Id(s)).Invalid? ==> Carries(false, TypeOf(p, Id(s)), v))
    ensures SeenTyped(p, env[s := v], available + {s})
  {
    hide WellTyped, TypeOf;
    assert Seen(env[s := v], available + {s}) == Seen(env, available)[s := v];
    BindTyped(p, false, Seen(env, available), s, v);
  }

  /** The size properties are builtins. */
  lemma SeenBuiltin(p: Program, env: Env, available: set<SymbolId>, s: SymbolId, v: Scalar)
    requires SeenTyped(p, env, available) && IsBuiltin(s) && v.U?
    ensures SeenTyped(p, env[s := v], available)
  {
    assert Seen(env[s := v], available) == Seen(env, available)[s := v];
    BindTyped(p, false, Seen(env, available), s, v);
  }

  lemma SeenSizes(p: Program, s: Struct, env: Env, available: set<SymbolId>)
    requires SeenTyped(p, env, available)
    ensures SeenTyped(p, WithSizes(s, env), available)
  {
    hide SeenTyped;
    SeenBuiltin(p, env, available, MIN_SIZE_IN_BYTES, U(s.minSize));
    var e1 := env[MIN_SIZE_IN_BYTES := U(s.minSize)];
    if s.size.Some? {
      SeenBuiltin(p, e1, available, SIZE_IN_BYTES, U(s.size.value));
    }
    var e2 := if s.size.Some? then e1[SIZE_IN_BYTES := U(s.size.value)] else e1;
    if s.maxSize.Some? {
      SeenBuiltin(p, e2, available, MAX_SIZE_IN_BYTES, U(s.maxSize.value));
    }
  }

  // ----- what is given for aliases -----

  /** The value that the aliases of `target` in a member list end up binding to it. */
  function LastGiven(ops: seq<Op>, o: Fields, target: SymbolId): Option<Scalar> {
    if ops == [] then None
    else
      var later := LastGiven(ops[1..], o, target);
      if later.Some? then later
      else if ops[0].Alias? && ops[0].target == target && ops[0].name in o && o[ops[0].name].Num? then Some(o[ops[0].name].s)
      else None
  }

  lemma {:induction false} BindingIsLast(c: Context, ops: seq<Op>, o: Fields, env: Env)
    requires BindAliases(c, ops, o, env).Ok?
    ensures var after := BindAliases(c, ops, o, env).value;
            forall t {:trigger LastGiven(ops, o, t)} ::
              && (t in after <==> t in env || LastGiven(ops, o, t).Some?)
              && (t in after ==> after[t] == if LastGiven(ops, o, t).Some? then LastGiven(ops, o, t).value else env[t])
  {
    hide SameNumber;
    if ops != [] {
      var a := ops[0];
      var next := if a.Alias? && a.name in o then env[a.target := o[a.name].s] else env;
      BindingIsLast(c, ops[1..], o, next);
      assert BindAliases(c, ops, o, env) == BindAliases(c, ops[1..], o, next);
      forall t
        ensures var after := BindAliases(c, ops, o, env).value;
                && (t in after <==> t in env || LastGiven(ops, o, t).Some?)
                && (t in after ==> after[t] == if LastGiven(ops, o, t).Some? then LastGiven(ops, o, t).value else env[t])
      {
        assert LastGiven(ops[1..], o, t).Some? || LastGiven(ops[1..], o, t).None?;
      }
    }
  }

  /** What a target is bound to before the alias at `i`. */
  function BoundBefore(ops: seq<Op>, o: Fields, env: Env, i: nat, target: SymbolId): Option<Scalar>
    requires i <= |ops|
  {
    if LastGiven(ops[..i], o, target).Some? then LastGiven(ops[..i], o, target)
    else if target in env then Some(env[target])
    else None
  }

  /** The value given for the alias at `i` is a number for a field, and the same number as the one that
      is given for the field by its own name and the one that it is bound to before. */
  predicate Consistent(c: Context, ops: seq<Op>, o: Fields, env: Env, i: nat)
    requires i < |ops| && ops[i].Alias? && ops[i].name in o
  {
    var a, v, before := ops[i], o[ops[i].name], BoundBefore(ops, o, env, i, ops[i].target);
    && a.target in c.plan.kinds && c.plan.kinds[a.target].FieldKind? && v.Num?
    && (a.targetName in o ==> SameNumber(c.fp, Runtime(o[a.targetName]), v.s))
    && (before.Some? ==> SameNumber(c.fp, before.value, v.s))
  }

  /** The aliases of a list are bound exactly when each value given for one is consistent with what is
      given and bound before it. */
  lemma {:induction false} BindingSucceedsWhen(c: Context, ops: seq<Op>, o: Fields, env: Env)
    ensures BindAliases(c, ops, o, env).Ok?
            <==> forall i :: 0 <= i < |ops| && ops[i].Alias? && ops[i].name in o ==> Consistent(c, ops, o, env, i)
    ensures BindAliases(c, ops, o, env).Fail? ==> BindAliases(c, ops, o, env).error == ValueMismatch
  {
    hide SameNumber;
    if ops != [] {
      var a := ops[0];
      var given := a.Alias? && a.name in o;
      assert given ==> BoundBefore(ops, o, env, 0, a.target) == if a.target in env then Some(env[a.target]) else None;
      if !given || Consistent(c, ops, o, env, 0) {
        var next := if given then env[a.target := o[a.name].s] else env;
        BindingSucceedsWhen(c, ops[1..], o, next);
        assert BindAliases(c, ops, o, env) == BindAliases(c, ops[1..], o, next);
        forall i | 0 <= i < |ops[1..]| && ops[1..][i].Alias? && ops[1..][i].name in o
          ensures Consistent(c, ops[1..], o, next, i) <==> Consistent(c, ops, o, env, i + 1)
        {
          LaterBinding(ops, o, env, next, i, ops[i + 1].target);
        }
        ShiftedIndices(c, ops, o, env, next);
      }
    }
  }

  lemma LaterBinding(ops: seq<Op>, o: Fields, env: Env, next: Env, i: nat, target: SymbolId)
    requires ops != [] && i < |ops[1..]|
    requires next == if ops[0].Alias? && ops[0].name in o && o[ops[0].name].Num? then env[ops[0].target := o[ops[0].name].s] else env
    ensures BoundBefore(ops[1..], o, next, i, target) == BoundBefore(ops, o, env, i + 1, target)
  {
    assert ops[..i + 1][1..] == ops[1..][..i];
    assert ops[..i + 1][0] == ops[0];
  }

  lemma ShiftedIndices(c: Context, ops: seq<Op>, o: Fields, env: Env, next: Env)
    requires ops != [] && (ops[0].Alias? && ops[0].name in o ==> Consistent(c, ops, o, env, 0))
    requires forall i :: 0 <= i < |ops[1..]| && ops[1..][i].Alias? && ops[1..][i].name in o ==>
               (Consistent(c, ops[1..], o, next, i) <==> Consistent(c, ops, o, env, i + 1))
    ensures (forall i :: 0 <= i < |ops| && ops[i].Alias? && ops[i].name in o ==> Consistent(c, ops, o, env, i))
            <==> (forall i :: 0 <= i < |ops[1..]| && ops[1..][i].Alias? && ops[1..][i].name in o ==> Consistent(c, ops[1..], o, next, i))
  {
    hide Consistent;
    if forall i :: 0 <= i < |ops[1..]| && ops[1..][i].Alias? && ops[1..][i].name in o ==> Consistent(c, ops[1..], o, next, i) {
      forall i | 0 <= i < |ops| && ops[i].Alias? && ops[i].name in o ensures Consistent(c, ops, o, env, i) {
        if i > 0 {
          assert ops[1..][i - 1] == ops[i];
          assert Consistent(c, ops[1..], o, next, i - 1);
        }
      }
    }
    if forall i :: 0 <= i < |ops| && ops[i].Alias? && ops[i].name in o ==> Consistent(c, ops, o, env, i) {
      forall i | 0 <= i < |ops[1..]| && ops[1..][i].Alias? && ops[1..][i].name in o ensures Consistent(c, ops[1..], o, next, i) {
        assert ops[1..][i] == ops[i + 1];
        assert Consistent(c, ops, o, env, i + 1);
      }
    }
  }

  /** A value of the kind that its symbol has, if it has one. */
  predicate Suits(p: Program, s: SymbolId, v: Scalar) {
    !TypeOf(p, Id(s)).Invalid? ==> Carries(false, TypeOf(p, Id(s)), v)
  }

  /** Binding the aliases of a list keeps an environment well-typed exactly when, for every target,
      the last value given for an alias of it is of its kind. */
  lemma BindingKeepsTypes(p: Program, c: Context, ops: seq<Op>, o: Fields, env: Env)
    requires WellTyped(p, false, env) && BindAliases(c, ops, o, env).Ok?
    ensures WellTyped(p, false, BindAliases(c, ops, o, env).value)
            <==> forall t {:trigger LastGiven(ops, o, t)} :: LastGiven(ops, o, t).Some? ==> Suits(p, t, LastGiven(ops, o, t).value)
  {
    BindingIsLast(c, ops, o, env);
    var after := BindAliases(c, ops, o, env).value;
    if forall t {:trigger LastGiven(ops, o, t)} :: LastGiven(ops, o, t).Some? ==> Suits(p, t, LastGiven(ops, o, t).value) {
      forall s | s in after && !TypeOf(p, Id(s)).Invalid? ensures Carries(false, TypeOf(p, Id(s)), after[s]) {
        assert LastGiven(ops, o, s).Some? ==> Suits(p, s, LastGiven(ops, o, s).value);
      }
    } else {
      var t :| LastGiven(ops, o, t).Some? && !Suits(p, t, LastGiven(ops, o, t).value);
      assert after[t] == LastGiven(ops, o, t).value;
      assert t in after && !TypeOf(p, Id(t)).Invalid? && !Carries(false, TypeOf(p, Id(t)), after[t]);
      assert !WellTyped(p, false, after);
    }
  }

  /** What is given for aliases in one member list suits the targets that are available before it. */
  ghost predicate ListSuits(p: Program, ops: seq<Op>, available: set<SymbolId>, o: Fields) {
    forall t {:trigger LastGiven(ops, o, t)} :: (t in available || IsBuiltin(t)) && LastGiven(ops, o, t).Some? ==> Suits(p, t, LastGiven(ops, o, t).value)
  }

  /** The same for the available symbols. Values given for targets that are declared later in the
      list, as a plan usually has it, do not matter. */
  lemma BindingKeepsSeenTypes(p: Program, c: Context, ops: seq<Op>, o: Fields, env: Env, available: set<SymbolId>)
    requires SeenTyped(p, env, available) && BindAliases(c, ops, o, env).Ok?
    ensures SeenTyped(p, BindAliases(c, ops, o, env).value, available) <==> ListSuits(p, ops, available, o)
  {
    BindingIsLast(c, ops, o, env);
    var after := BindAliases(c, ops, o, env).value;
    var seen := Seen(after, available);
    if ListSuits(p, ops, available, o) {
      forall s | s in seen && !TypeOf(p, Id(s)).Invalid? ensures Carries(false, TypeOf(p, Id(s)), seen[s]) {
        assert LastGiven(ops, o, s).Some? ==> Suits(p, s, LastGiven(ops, o, s).value);
        if LastGiven(ops, o, s).None? {
          assert s in Seen(env, available);
        }
      }
    } else {
      var t :| (t in available || IsBuiltin(t)) && LastGiven(ops, o, t).Some? && !Suits(p, t, LastGiven(ops, o, t).value);
      assert t in seen && !TypeOf(p, Id(t)).Invalid?;
    }
  }

  // ----- the whole of a given value -----

  ghost predicate SuitsBase(p: Program, base: Base, v: Value)
    decreases v, 1, 0
  {
    base.Named? && base.id in p.m.structs && v.Obj? ==> SuitsMembers(p, p.m.structs[base.id].members, ModuleValues(p.m), v)
  }

  ghost predicate SuitsDims(p: Program, base: Base, dims: seq<Dim>, v: Value)
    decreases v, 2, 0
  {
    if dims == [] then SuitsBase(p, base, v)
    else v.Arr? ==> forall i :: 0 <= i < |v.items| ==> SuitsDims(p, base, dims[1..], v.items[i])
  }

  ghost predicate SuitsType(p: Program, t: Type, v: Value)
    decreases v, 3, 0
  {
    if t.IsTerminated() then v.Arr? ==> forall i :: 0 <= i < |v.items| ==> SuitsBase(p, t.base, v.items[i])
    else SuitsDims(p, t.base, t.dims, v)
  }

  ghost predicate SuitsBranch(p: Program, b: Branch, available: set<SymbolId>, v: Value)
    requires v.Obj?
    decreases v, 0, b, 0
  {
    match b
    case Typed(t) => "value" in v.fields ==> SuitsType(p, t, v.fields["value"])
    case Listed(members) => SuitsMembers(p, members, available, v)
  }

  ghost predicate SuitsOp(p: Program, op: Op, available: set<SymbolId>, v: Value)
    requires v.Obj?
    decreases v, 0, op, 0
  {
    match op
    case Field(_, name, ty, _, _, _) => name in v.fields ==> SuitsType(p, ty, v.fields[name])
    case At(_, _, members) => SuitsMembers(p, members, available, v)
    case Block(_, _, members) => SuitsMembers(p, members, available, v)
    case Conditional(_, thenMembers, elseMembers) =>
      SuitsMembers(p, thenMembers, available, v) && SuitsMembers(p, elseMembers, available, v)
    case Variant(name, _, cases, default) =>
      name in v.fields && v.fields[name].Obj? ==>
        && (forall i :: 0 <= i < |cases| ==> SuitsBranch(p, cases[i].body, available, v.fields[name]))
        && (default.Some? ==> SuitsBranch(p, default.value, available, v.fields[name]))
    case _ => true
  }

  ghost predicate SuitsOps(p: Program, ops: seq<Op>, available: set<SymbolId>, v: Value)
    requires v.Obj?
    decreases v, 0, ops, 0
  {
    ops == [] ||
    (SuitsOp(p, ops[0], available, v) &&
     (var next := MemberAllowed(p.m, ops[0], available); next.Some? ==> SuitsOps(p, ops[1..], next.value, v)))
  }

  /** In every member list that the value reaches, what is given for aliases suits the targets that
      are available before the list. */
  ghost predicate SuitsMembers(p: Program, ops: seq<Op>, available: set<SymbolId>, v: Value)
    requires v.Obj?
    decreases v, 0, ops, 1
  {
    ListSuits(p, ops, available, v.fields) && SuitsOps(p, ops, available, v)
  }

  lemma NumberSuits(p: Program, t: Type, v: Value)
    requires v.Num?
    ensures SuitsType(p, t, v)
  {
    assert SuitsDims(p, t.base, t.dims, v);
  }

  // ----- runs -----

  predicate SaneBatch(p: Program, r: Result<Batch>, available: set<SymbolId>) {
    if r.Ok? then SeenTyped(p, r.value.env, available) else !IsTypeError(r.error)
  }

  lemma SaneLess(p: Program, r: Result<Batch>, more: set<SymbolId>, less: set<SymbolId>)
    requires SaneBatch(p, r, more) && less <= more
    ensures SaneBatch(p, r, less)
  {
    if r.Ok? {
      SeenLess(p, r.value.env, more, less);
    }
  }

  lemma {:induction false} GroupSane(p: Program, y: Sink, fs: seq<BitsField>, o: Fields, env: Env, available: set<SymbolId>)
    requires TotalBits(fs) <= 64 && SeenTyped(p, env, available) && DeclaresGroup(p, false, fs)
    ensures var r := WriteBitsFields(y, fs, o, env);
            if r.Ok? then SeenTyped(p, r.value.1, available + GroupSymbols(fs)) else !IsTypeError(r.error)
  {
    hide Pow2, Shift, Matches, SeenTyped;
    if fs == [] {
      assert available + GroupSymbols(fs) == available;
    } else {
      var f := fs[0];
      if f.name in o && AsU64(o[f.name]).Some? {
        var u := U(AsU64(o[f.name]).value);
        AlwaysInteger(p.m, p.decls[f.symbol].ty, {});
        SeenBind(p, env, available, f.symbol, u);
        GroupSane(p, y, fs[1..], o, env[f.symbol := u], available + {f.symbol});
        assert available + {f.symbol} + GroupSymbols(fs[1..]) == available + GroupSymbols(fs);
      }
    }
  }

  /** A given value that can be written as a scalar type is of its kind. */
  lemma GivenIsTyped(p: Program, y: Sink, room: Room, t: Type, v: Value, bound: Option<u64>, env: Env, pen: Pen, depth: nat)
    requires DeclaredModule(p, false) && y.c.plan == p.m
    requires WriteType(y, room, t, v, bound, env, pen, depth).Ok? && !TypeOfType(p.m, t, {}).Invalid?
    ensures Carries(false, TypeOfType(p.m, t, {}), Runtime(v))
  {
    hide WriteStruct, WriteSequenceForm, WriteTerminatedBytes, WriteText, WriteElems, Put, Pack, Pow2, Grows;
    assert t.dims == [] && !t.base.IsText();
    assert !t.IsTerminated();
    assert WriteType(y, room, t, v, bound, env, pen, depth) == WriteBase(y, room, t.base, v, env, pen, depth);
  }

  lemma LeafSane(y: Sink, room: Room, it: IntType, base: Base, v: Value, env: Env, pen: Pen)
    ensures Sane(WriteInt(y, room, it, v, pen)) && Sane(WriteText(y, room, base, [], v, None, env, pen))
  {
    hide Put, Pack, Pow2, Grows;
    var n := it.width.Count();
    if AsI64(v).Some? { PutSane(room, pen, Pack(AsI64(v).value % TWO_64, n, pen.order)); }
    if AsU64(v).Some? { PutSane(room, pen, Pack(AsU64(v).value, n, pen.order)); }
    if TextBytes(base, v).Ok? { PutSane(room, pen, TextBytes(base, v).value); }
  }

  lemma PutSane(room: Room, pen: Pen, b: seq<byte>)
    ensures Put(room, pen, b).Fail? ==> Put(room, pen, b).error == BeyondLimit
  {
  }

  lemma {:induction false} BaseSane(p: Program, y: Sink, room: Room, base: Base, v: Value, env: Env, pen: Pen, depth: nat, available: set<SymbolId>)
    requires Setting(p, y, env, available) && SuitsBase(p, base, v)
    ensures Sane(WriteBase(y, room, base, v, env, pen, depth))
    decreases depth, 0, 0, 0
  {
    hide WriteMembers, WriteInt, WriteText, SeenTyped, Grows, Accepted, MembersAllowed;
    LeafSane(y, room, if base.Primitive? then base.it else if base.Named? && base.id in y.c.plan.enums then y.c.plan.enums[base.id] else IntType(false, W1),
             base, v, env, pen);
    if base.Named? && base.id in y.c.plan.structs && depth > 0 && v.Obj? {
      StructSane(p, y, room, base.id, v, env, pen, depth - 1, available);
    }
  }

  /** A struct starts with the module values only. */
  lemma {:induction false} StructSane(p: Program, y: Sink, room: Room, id: SymbolId, v: Value, env: Env, pen: Pen, depth: nat, available: set<SymbolId>)
    requires Setting(p, y, env, available) && id in p.m.structs && v.Obj? && SuitsBase(p, Named(id), v)
    ensures Sane(WriteStruct(y, room, p.m.structs[id], v.fields, env, pen, depth))
    decreases depth, 2
  {
    hide WriteMembers, SeenTyped, Grows, ModuleValues;
    var s := p.m.structs[id];
    var start := ModuleValues(p.m);
    assert TypedStruct(p, false, s) && StructAllowed(p.m, s);
    SeenLess(p, env, available, start);
    SeenSizes(p, s, env, start);
    MembersSane(p, y, room, s.members, v, WithSizes(s, env), pen.(order := s.order), depth, start);
    var b := WriteMembers(y, room, s.members, v.fields, WithSizes(s, env), pen.(order := s.order), depth);
    if b.Ok? {
      RequirementsHold(p, y.c, s, b.value.env);
    }
  }

  lemma RequirementsHold(p: Program, c: Context, s: Struct, env: Env)
    requires Accepted(p.m) && c.plan == p.m && TypedStruct(p, false, s) && StructAllowed(p.m, s)
    requires SeenTyped(p, env, MembersAllowed(p.m, s.members, ModuleValues(p.m)).value)
    ensures Sane(CheckRequirements(c.fp, s.requirements, env))
  {
    hide Accepted, Eval;
    var after := MembersAllowed(p.m, s.members, ModuleValues(p.m)).value;
    RequirementsSeen(c, s.requirements, env, after);
    RequirementsSane(p, false, c.fp, s.requirements, Seen(env, after));
  }

  lemma {:induction false} DimsSane(p: Program, y: Sink, room: Room, base: Base, dims: seq<Dim>, v: Value, env: Env, pen: Pen, depth: nat, available: set<SymbolId>)
    requires Setting(p, y, env, available) && TypedDims(p, dims) && DimsAllowed(p.m, dims, available) && SuitsDims(p, base, dims, v)
    ensures Sane(WriteDims(y, room, base, dims, v, env, pen, depth))
    decreases depth, 0, 2 * |dims| + 1, 0
  {
    hide WriteBase, WriteElems, Extents, Product, Grows, Seen, WellTyped, Accepted, ModuleValues, SuitsBase, TypedProgram;
    if dims == [] {
      BaseSane(p, y, room, base, v, env, pen, depth, available);
    } else {
      ExtentsSeen(y.c, dims, env, 1, available);
      ExtentsSane(p, false, y.c, dims, Seen(env, available), 1);
      if v.Arr? {
        ElemsSane(p, y, room, base, dims[1..], v.items, env, pen, depth, available);
      }
    }
  }

  lemma {:induction false} ElemsSane(p: Program, y: Sink, room: Room, base: Base, dims: seq<Dim>, vs: seq<Value>, env: Env, pen: Pen, depth: nat, available: set<SymbolId>)
    requires Setting(p, y, env, available) && TypedDims(p, dims) && DimsAllowed(p.m, dims, available)
    requires forall i :: 0 <= i < |vs| ==> SuitsDims(p, base, dims, vs[i])
    ensures Sane(WriteElems(y, room, base, dims, vs, env, pen, depth))
    decreases depth, 0, 2 * |dims| + 2, |vs|
  {
    hide WriteDims, Grows, Setting, TypedDims, DimsAllowed, SuitsDims;
    if vs != [] {
      DimsSane(p, y, room, base, dims, vs[0], env, pen, depth, available);
      var first := WriteDims(y, room, base, dims, vs[0], env, pen, depth);
      if first.Ok? {
        ElemsSane(p, y, room, base, dims, vs[1..], env, first.value.pen, depth, available);
      }
    }
  }

  lemma {:induction false} SeqSane(p: Program, y: Sink, room: Room, t: Type, vs: seq<Value>, start: nat, bound: Option<u64>, env: Env, pen: Pen, depth: nat, available: set<SymbolId>)
    requires Setting(p, y, env, available) && t.maxPayload.Some?
    requires forall i :: 0 <= i < |vs| ==> SuitsBase(p, t.base, vs[i])
    ensures Sane(WriteSeq(y, room, t, vs, start, bound, env, pen, depth))
    decreases depth, 0, 1, |vs|
  {
    hide WriteBase, LooksTerminated, Setting, Grows, SuitsBase;
    if vs != [] {
      BaseSane(p, y, room, t.base, vs[0], env, pen, depth, available);
      var first := WriteBase(y, room, t.base, vs[0], env, pen, depth);
      if first.Ok? {
        SeqSane(p, y, room, t, vs[1..], start, bound, env, first.value.pen, depth, available);
      }
    }
  }

  lemma {:induction false} TerminatedSane(p: Program, y: Sink, room: Room, t: Type, v: Value, bound: Option<u64>, env: Env, pen: Pen, depth: nat, available: set<SymbolId>)
    requires Setting(p, y, env, available) && t.IsTerminated() && SuitsType(p, t, v)
    ensures Sane(WriteTerminated(y, room, t, v, bound, env, pen, depth))
    decreases depth, 0, 2, 1
  {
    hide WriteSeq, Setting, Grows, SuitsBase, SuitsDims;
    if t.maxPayload.Some? && v.Arr? {
      SeqSane(p, y, Room(room.limit, InSequence), t, v.items, pen.p, bound, env, pen, depth, available);
    }
  }

  lemma TextSane(p: Program, y: Sink, room: Room, base: Base, dims: seq<Dim>, v: Value, bound: Option<u64>, env: Env, pen: Pen, available: set<SymbolId>)
    requires Setting(p, y, env, available) && TypedDims(p, dims) && DimsAllowed(p.m, dims, available)
    ensures Sane(WriteText(y, room, base, dims, v, bound, env, pen))
  {
    hide Eval, Grows, Seen, WellTyped, Accepted, ModuleValues, TypedProgram;
    if dims != [] && !dims[0].Remaining? {
      assert dims[0] in dims;
      SeesAll(p.m, y.c.fp, dims[0].e, env, available);
      SizeSane(p, false, y.c, None, dims[0].e, Seen(env, available));
    }
  }

  lemma {:induction false} TypeSane(p: Program, y: Sink, room: Room, t: Type, v: Value, bound: Option<u64>, env: Env, pen: Pen, depth: nat, available: set<SymbolId>)
    requires Setting(p, y, env, available) && TypedDims(p, t.dims) && DimsAllowed(p.m, t.dims, available) && SuitsType(p, t, v)
    ensures Sane(WriteType(y, room, t, v, bound, env, pen, depth))
    decreases depth, 0, 2 * |t.dims| + 3, 0
  {
    hide WriteTerminated, WriteText, WriteDims, Grows, Setting, SuitsDims, SuitsBase;
    if t.IsTerminated() {
      TerminatedSane(p, y, room, t, v, bound, env, pen, depth, available);
    } else if t.base.IsText() {
      TextSane(p, y, room, t.base, t.dims, v, bound, env, pen, available);
    } else {
      DimsSane(p, y, room, t.base, t.dims, v, env, pen, depth, available);
    }
  }

  lemma {:induction false} BranchSane(p: Program, y: Sink, room: Room, b: Branch, v: Value, env: Env, pen: Pen, depth: nat, available: set<SymbolId>)
    requires Setting(p, y, env, available) && TypedBranch(p, false, b) && BranchAllowed(p.m, b, available)
    requires v.Obj? && SuitsBranch(p, b, available, v)
    ensures SaneBatch(p, WriteBranch(y, room, b, v.fields, env, pen, depth), available)
    decreases depth, 1, b, 0
  {
    hide WriteType, WriteMembers, SeenTyped, TypedProgram, Grows, SuitsType, SuitsMembers, Accepted, DimsAllowed, TypedDims, MembersAllowed;
    match b
    case Typed(t) =>
      if "value" in v.fields {
        TypeSane(p, y, room, t, v.fields["value"], None, env, pen, depth, available);
      }
    case Listed(members) =>
      MembersSane(p, y, room, members, v, env, pen, depth, available);
      SaneLess(p, WriteMembers(y, room, members, v.fields, env, pen, depth), MembersAllowed(p.m, members, available).value, available);
  }

  lemma {:induction false} AtSane(p: Program, y: Sink, room: Room, op: Op, v: Value, env: Env, pen: Pen, depth: nat, available: set<SymbolId>)
    requires op.At? && Setting(p, y, env, available) && TypedOp(p, false, op) && MemberAllowed(p.m, op, available).Some?
    requires v.Obj? && SuitsOp(p, op, available, v)
    ensures SaneBatch(p, WriteAt(y, room, op, v.fields, env, pen, depth), MemberAllowed(p.m, op, available).value)
    decreases depth, 1, op, 0
  {
    hide WriteMembers, TypedProgram, Eval, EvalSize, Grows, SuitsMembers, Accepted, ModuleValues, Seen, WellTyped;
    if pen.p <= U64_MAX {
      var inner := env[NEXT := U(pen.p)];
      SeenBuiltin(p, env, available, NEXT, U(pen.p));
      SeesAll(p.m, y.c.fp, op.offset, inner, available);
      SizeSane(p, false, y.c, op.staticOffset, op.offset, Seen(inner, available));
      var off := SizeOf(y.c, op.staticOffset, op.offset, inner);
      if off.Ok? {
        var d := if off.value > |pen.d| then pen.d + Zeros(off.value - |pen.d|) else pen.d;
        MembersSane(p, y, room, op.members, v, env, Ink(d, off.value, pen.order), depth, available);
      }
    }
  }

  lemma {:induction false} BlockSane(p: Program, y: Sink, room: Room, op: Op, v: Value, env: Env, pen: Pen, depth: nat, available: set<SymbolId>)
    requires op.Block? && Setting(p, y, env, available) && TypedOp(p, false, op) && MemberAllowed(p.m, op, available).Some?
    requires v.Obj? && SuitsOp(p, op, available, v)
    ensures SaneBatch(p, WriteBlock(y, room, op, v.fields, env, pen, depth), MemberAllowed(p.m, op, available).value)
    decreases depth, 1, op, 0
  {
    hide WriteMembers, TypedProgram, Eval, EvalSize, TypeOf, Fill, Grows, SuitsMembers, Accepted, ModuleValues, Seen, WellTyped;
    SeesAll(p.m, y.c.fp, op.size, env, available);
    SizeSane(p, false, y.c, op.staticSize, op.size, Seen(env, available));
    var n := SizeOf(y.c, op.staticSize, op.size, env);
    if n.Ok? {
      MembersSane(p, y, Room(pen.p + n.value, InBlock), op.members, v, env, pen, depth, available);
    }
  }

  lemma {:induction false} VariantSane(p: Program, y: Sink, room: Room, op: Op, v: Value, env: Env, pen: Pen, depth: nat, available: set<SymbolId>)
    requires op.Variant? && Setting(p, y, env, available) && TypedOp(p, false, op) && MemberAllowed(p.m, op, available).Some?
    requires v.Obj? && SuitsOp(p, op, available, v)
    ensures SaneBatch(p, WriteVariant(y, room, op, v.fields, env, pen, depth), available)
    decreases depth, 1, op, 0
  {
    hide WriteBranch, TypedProgram, Eval, Grows, SuitsBranch, Accepted, ModuleValues, Seen, WellTyped;
    SeesAll(p.m, y.c.fp, op.discriminator, env, available);
    EvalTyped(p, y.c.fp, false, op.discriminator, Seen(env, available), {});
    var tag := Eval(y.c.fp, op.discriminator, env);
    if tag.Ok? && op.name in v.fields && v.fields[op.name].Obj? {
      match ChooseCase(y.c.fp, op.cases, tag.value) {
        case Some(i) => BranchSane(p, y, room, op.cases[i].body, v.fields[op.name], env, pen, depth, available);
        case None => if op.default.Some? { BranchSane(p, y, room, op.default.value, v.fields[op.name], env, pen, depth, available); }
      }
    }
  }

  lemma {:induction false} FieldSane(p: Program, y: Sink, room: Room, op: Op, v: Value, env: Env, pen: Pen, depth: nat, available: set<SymbolId>)
    requires op.Field? && Setting(p, y, env, available) && TypedOp(p, false, op) && MemberAllowed(p.m, op, available).Some?
    requires v.Obj? && SuitsOp(p, op, available, v)
    ensures SaneBatch(p, WriteField(y, room, op, v.fields, env, pen, depth), available + {op.symbol})
    decreases depth, 1, op, 0
  {
    hide WriteType, SeenTyped, Matches, TypeOf, Grows, Accepted, TypedProgram, TypedDims, DimsAllowed;
    var given := FieldInput(op, v.fields, env);
    if given.Ok? {
      var start := pen.(order := op.order);
      if op.name !in v.fields { NumberSuits(p, op.ty, given.value); }
      TypeSane(p, y, room, op.ty, given.value, op.staticLength, env, start, depth, available);
      if WriteType(y, room, op.ty, given.value, op.staticLength, env, start, depth).Ok? {
        FieldIsTyped(p, y, room, op, given.value, env, start, depth, available);
      }
    }
  }

  lemma FieldIsTyped(p: Program, y: Sink, room: Room, op: Op, v: Value, env: Env, pen: Pen, depth: nat, available: set<SymbolId>)
    requires op.Field? && Setting(p, y, env, available) && TypedOp(p, false, op)
    requires WriteType(y, room, op.ty, v, op.staticLength, env, pen, depth).Ok?
    ensures SeenTyped(p, env[op.symbol := Runtime(v)], available + {op.symbol})
  {
    hide WriteType, SeenTyped, Grows, Accepted;
    if !TypeOfType(p.m, op.ty, {}).Invalid? {
      GivenIsTyped(p, y, room, op.ty, v, op.staticLength, env, pen, depth);
    }
    SeenBind(p, env, available, op.symbol, Runtime(v));
  }

  /** A virtual field or an alias is bound to a value of its type. */
  lemma BindingSane(p: Program, y: Sink, room: Room, op: Op, o: Fields, env: Env, pen: Pen, depth: nat, available: set<SymbolId>)
    requires (op.Virtual? || op.Alias?) && Setting(p, y, env, available) && TypedOp(p, false, op) && MemberAllowed(p.m, op, available).Some?
    ensures SaneBatch(p, WriteMember(y, room, op, o, env, pen, depth), available + {op.symbol})
  {
    hide WriteField, WriteBits, WriteAt, WriteBlock, WriteVariant, WriteMembers, TypedProgram, Eval, Grows, Accepted, ModuleValues;
    if op.Virtual? {
      SeesAll(p.m, y.c.fp, op.e, env, available);
      EvalTyped(p, y.c.fp, false, op.e, Seen(env, available), {});
      DeclaredType(p, op.symbol, op.e);
      if Eval(y.c.fp, op.e, env).Ok? {
        SeenBind(p, env, available, op.symbol, Eval(y.c.fp, op.e, env).value);
      }
    } else if op.target in env {
      DeclaredType(p, op.symbol, Id(op.target));
      assert op.target in Seen(env, available);
      SeenBind(p, env, available, op.symbol, env[op.target]);
    }
  }

  lemma {:induction false} ConditionalSane(p: Program, y: Sink, room: Room, op: Op, v: Value, env: Env, pen: Pen, depth: nat, available: set<SymbolId>)
    requires op.Conditional? && Setting(p, y, env, available) && TypedOp(p, false, op) && MemberAllowed(p.m, op, available).Some?
    requires v.Obj? && SuitsOp(p, op, available, v)
    ensures SaneBatch(p, WriteMember(y, room, op, v.fields, env, pen, depth), available)
    decreases depth, 1, op, 0
  {
    hide WriteField, WriteBits, WriteAt, WriteBlock, WriteVariant, WriteMembers, SeenTyped, TypedProgram, Eval, Grows, SuitsMembers, Accepted, ModuleValues;
    SeesAll(p.m, y.c.fp, op.condition, env, available);
    ConditionSane(p, y.c.fp, op.condition, env, available);
    var chosen := EvalBool(y.c.fp, op.condition, env);
    if chosen.Ok? {
      var members := if chosen.value then op.thenMembers else op.elseMembers;
      MembersSane(p, y, room, members, v, env, pen, depth, available);
      SaneLess(p, WriteMembers(y, room, members, v.fields, env, pen, depth), MembersAllowed(p.m, members, available).value, available);
    }
  }

  lemma ConditionSane(p: Program, f: FloatUnit, e: Expr, env: Env, available: set<SymbolId>)
    requires SeenTyped(p, env, available) && TypeOf(p, e).Boolean? && Eval(f, e, env) == Eval(f, e, Seen(env, available))
    ensures Sane(EvalBool(f, e, env))
  {
    EvalTyped(p, f, false, e, Seen(env, available), {});
  }

  lemma {:induction false} MemberSane(p: Program, y: Sink, room: Room, op: Op, v: Value, env: Env, pen: Pen, depth: nat, available: set<SymbolId>)
    requires Setting(p, y, env, available) && TypedOp(p, false, op) && MemberAllowed(p.m, op, available).Some?
    requires v.Obj? && SuitsOp(p, op, available, v)
    ensures SaneBatch(p, WriteMember(y, room, op, v.fields, env, pen, depth), MemberAllowed(p.m, op, available).value)
    decreases depth, 1, op, 1
  {
    hide WriteField, WriteBitsFields, WriteAt, WriteBlock, WriteVariant, WriteMembers, Seen, WellTyped, TypedProgram, Eval, EvalSize, Grows, SuitsMembers, SuitsBranch, Accepted, ModuleValues;
    match op
    case Field(_, _, _, _, _, _) => FieldSane(p, y, room, op, v, env, pen, depth, available);
    case Bits(group) => GroupSane(p, y, group, v.fields, env, available);
    case Align(e, known) =>
      SeesAll(p.m, y.c.fp, e, env, available);
      SizeSane(p, false, y.c, known, e, Seen(env, available));
    case At(_, _, _) => AtSane(p, y, room, op, v, env, pen, depth, available);
    case Block(_, _, _) => BlockSane(p, y, room, op, v, env, pen, depth, available);
    case Conditional(_, _, _) => ConditionalSane(p, y, room, op, v, env, pen, depth, available);
    case Variant(_, _, _, _) => VariantSane(p, y, room, op, v, env, pen, depth, available);
    case _ => BindingSane(p, y, room, op, v.fields, env, pen, depth, available);
  }

  lemma {:induction false} OpsSane(p: Program, y: Sink, room: Room, ops: seq<Op>, v: Value, env: Env, pen: Pen, depth: nat, available: set<SymbolId>)
    requires Setting(p, y, env, available) && TypedOps(p, false, ops) && MembersAllowed(p.m, ops, available).Some?
    requires v.Obj? && SuitsOps(p, ops, available, v)
    ensures SaneBatch(p, WriteOps(y, room, ops, v.fields, env, pen, depth), MembersAllowed(p.m, ops, available).value)
    decreases depth, 1, ops, 0
  {
    hide WriteMember, SeenTyped, TypedProgram, TypedOp, SuitsOp, Grows, Accepted, ModuleValues, MemberAllowed;
    if ops != [] {
      MemberSane(p, y, room, ops[0], v, env, pen, depth, available);
      var b := WriteMember(y, room, ops[0], v.fields, env, pen, depth);
      if b.Ok? {
        OpsSane(p, y, room, ops[1..], v, b.value.env, b.value.pen, depth, MemberAllowed(p.m, ops[0], available).value);
      }
    }
  }

  lemma {:induction false} BindingFails(c: Context, ops: seq<Op>, o: Fields, env: Env)
    ensures Sane(BindAliases(c, ops, o, env))
  {
    hide SameNumber;
    if ops != [] {
      var a := ops[0];
      if a.Alias? && a.name in o && o[a.name].Num? {
        BindingFails(c, ops[1..], o, env[a.target := o[a.name].s]);
      }
      BindingFails(c, ops[1..], o, env);
    }
  }

  lemma {:induction false} MembersSane(p: Program, y: Sink, room: Room, ops: seq<Op>, v: Value, env: Env, pen: Pen, depth: nat, available: set<SymbolId>)
    requires Setting(p, y, env, available) && TypedOps(p, false, ops) && MembersAllowed(p.m, ops, available).Some?
    requires v.Obj? && SuitsMembers(p, ops, available, v)
    ensures SaneBatch(p, WriteMembers(y, room, ops, v.fields, env, pen, depth), MembersAllowed(p.m, ops, available).value)
    decreases depth, 1, ops, 1
  {
    hide WriteOps, SeenTyped, TypedOps, TypedProgram, SuitsOps, ListSuits, BindAliases, Grows, Accepted, ModuleValues, MembersAllowed;
    BindingFails(y.c, ops, v.fields, env);
    var bound := BindAliases(y.c, ops, v.fields, env);
    if bound.Ok? {
      BindingKeepsSeenTypes(p, y.c, ops, v.fields, env, available);
      OpsSane(p, y, room, ops, v, bound.value, pen, depth, available);
    }
  }

  /** The main theorem: an encode of a well-typed program that the dependency validator accepts meets
      no type error, if what the value gives for aliases suits the targets that are available before
      the member list of the alias. */
  lemma EncodeIsTyped(p: Program, y: Sink, id: SymbolId, v: Value, parameters: Env)
    requires TypedProgram(p, false) && y.c.plan == p.m && Accepted(p.m) && SuitsBase(p, Named(id), v)
    ensures Sane(EncodeStruct(y, id, v, parameters))
  {
    hide WriteBase, Grows, SuitsBase, Accepted;
    var env := InitialEnv(p.m, parameters);
    if id in p.m.structs && env.Ok? {
      InitialTyped(p, false, parameters);
      var seen := Seen(env.value, ModuleValues(p.m));
      forall s | s in seen && !TypeOf(p, Id(s)).Invalid? ensures Carries(false, TypeOf(p, Id(s)), seen[s]) {
        assert s in env.value;
      }
      BaseSane(p, y, Room(U64_MAX, Root), Named(id), v, env.value, Ink([], 0, Little), y.c.options.maxRecursionDepth, ModuleValues(p.m));
    }
  }

  // ----- plans for which every value will do -----

  predicate LocalBranch(m: Module, b: Branch, available: set<SymbolId>)
    decreases b, 0
  {
    match b
    case Typed(_) => true
    case Listed(members) => LocalMembers(m, members, available)
  }

  predicate LocalOp(m: Module, op: Op, available: set<SymbolId>)
    decreases op, 0
  {
    match op
    case At(_, _, members) => LocalMembers(m, members, available)
    case Block(_, _, members) => LocalMembers(m, members, available)
    case Conditional(_, thenMembers, elseMembers) => LocalMembers(m, thenMembers, available) && LocalMembers(m, elseMembers, available)
    case Variant(_, _, cases, default) =>
      && (forall i :: 0 <= i < |cases| ==> LocalBranch(m, cases[i].body, available))
      && (default.Some? ==> LocalBranch(m, default.value, available))
    case _ => true
  }

  predicate LocalOps(m: Module, ops: seq<Op>, available: set<SymbolId>)
    decreases ops, 0
  {
    ops == [] ||
    (LocalOp(m, ops[0], available) &&
     (var next := MemberAllowed(m, ops[0], available); next.Some? ==> LocalOps(m, ops[1..], next.value)))
  }

  /** No target of an alias is available before the member list of the alias. */
  predicate LocalMembers(m: Module, ops: seq<Op>, available: set<SymbolId>)
    decreases ops, 1
  {
    && (forall i :: 0 <= i < |ops| && ops[i].Alias? ==> ops[i].target !in available && !IsBuiltin(ops[i].target))
    && LocalOps(m, ops, available)
  }

  predicate LocalAliases(m: Module) {
    forall id {:trigger m.structs[id]} :: id in m.structs ==> LocalMembers(m, m.structs[id].members, ModuleValues(m))
  }

  lemma {:induction false} GivenForTarget(ops: seq<Op>, o: Fields, target: SymbolId)
    requires LastGiven(ops, o, target).Some?
    ensures exists i :: 0 <= i < |ops| && ops[i].Alias? && ops[i].target == target
  {
    if LastGiven(ops[1..], o, target).Some? {
      GivenForTarget(ops[1..], o, target);
      var i :| 0 <= i < |ops[1..]| && ops[1..][i].Alias? && ops[1..][i].target == target;
      assert ops[i + 1] == ops[1..][i];
    } else {
      assert ops[0].Alias? && ops[0].target == target;
    }
  }

  lemma {:induction false} LocalSuitsBase(p: Program, base: Base, v: Value)
    requires LocalAliases(p.m)
    ensures SuitsBase(p, base, v)
    decreases v, 1, 0
  {
    hide ModuleValues, LocalMembers;
    if base.Named? && base.id in p.m.structs && v.Obj? {
      LocalSuitsMembers(p, p.m.structs[base.id].members, ModuleValues(p.m), v);
    }
  }

  lemma {:induction false} LocalSuitsDims(p: Program, base: Base, dims: seq<Dim>, v: Value)
    requires LocalAliases(p.m)
    ensures SuitsDims(p, base, dims, v)
    decreases v, 2, 0
  {
    hide LocalAliases, SuitsBase;
    if dims == [] {
      LocalSuitsBase(p, base, v);
    } else if v.Arr? {
      forall i | 0 <= i < |v.items| ensures SuitsDims(p, base, dims[1..], v.items[i]) {
        LocalSuitsDims(p, base, dims[1..], v.items[i]);
      }
    }
  }

  lemma {:induction false} LocalSuitsType(p: Program, t: Type, v: Value)
    requires LocalAliases(p.m)
    ensures SuitsType(p, t, v)
    decreases v, 3, 0
  {
    hide LocalAliases, SuitsBase, SuitsDims;
    LocalSuitsDims(p, t.base, t.dims, v);
    if v.Arr? {
      forall i | 0 <= i < |v.items| ensures SuitsBase(p, t.base, v.items[i]) {
        LocalSuitsBase(p, t.base, v.items[i]);
      }
    }
  }

  lemma {:induction false} LocalSuitsBranch(p: Program, b: Branch, available: set<SymbolId>, v: Value)
    requires v.Obj? && LocalAliases(p.m) && LocalBranch(p.m, b, available)
    ensures SuitsBranch(p, b, available, v)
    decreases v, 0, b, 0
  {
    hide LocalAliases, SuitsType, SuitsMembers, LocalMembers;
    match b
    case Typed(t) => if "value" in v.fields { LocalSuitsType(p, t, v.fields["value"]); }
    case Listed(members) => LocalSuitsMembers(p, members, available, v);
  }

  lemma {:induction false} LocalSuitsOp(p: Program, op: Op, available: set<SymbolId>, v: Value)
    requires v.Obj? && LocalAliases(p.m) && LocalOp(p.m, op, available)
    ensures SuitsOp(p, op, available, v)
    decreases v, 0, op, 0
  {
    hide LocalAliases, SuitsType, SuitsMembers, LocalMembers, SuitsBranch, LocalBranch;
    match op
    case Field(_, name, ty, _, _, _) => if name in v.fields { LocalSuitsType(p, ty, v.fields[name]); }
    case At(_, _, members) => LocalSuitsMembers(p, members, available, v);
    case Block(_, _, members) => LocalSuitsMembers(p, members, available, v);
    case Conditional(_, thenMembers, elseMembers) =>
      LocalSuitsMembers(p, thenMembers, available, v);
      LocalSuitsMembers(p, elseMembers, available, v);
    case Variant(name, _, cases, default) =>
      if name in v.fields && v.fields[name].Obj? {
        forall i | 0 <= i < |cases| ensures SuitsBranch(p, cases[i].body, available, v.fields[name]) {
          LocalSuitsBranch(p, cases[i].body, available, v.fields[name]);
        }
        if default.Some? { LocalSuitsBranch(p, default.value, available, v.fields[name]); }
      }
    case _ =>
  }

  lemma {:induction false} LocalSuitsOps(p: Program, ops: seq<Op>, available: set<SymbolId>, v: Value)
    requires v.Obj? && LocalAliases(p.m) && LocalOps(p.m, ops, available)
    ensures SuitsOps(p, ops, available, v)
    decreases v, 0, ops, 0
  {
    hide LocalAliases, SuitsOp, LocalOp, MemberAllowed;
    if ops != [] {
      LocalSuitsOp(p, ops[0], available, v);
      var next := MemberAllowed(p.m, ops[0], available);
      if next.Some? {
        LocalSuitsOps(p, ops[1..], next.value, v);
      }
    }
  }

  lemma {:induction false} LocalSuitsMembers(p: Program, ops: seq<Op>, available: set<SymbolId>, v: Value)
    requires v.Obj? && LocalAliases(p.m) && LocalMembers(p.m, ops, available)
    ensures SuitsMembers(p, ops, available, v)
    decreases v, 0, ops, 1
  {
    hide LocalAliases, LocalOps, SuitsOps;
    if !ListSuits(p, ops, available, v.fields) {
      var t :| (t in available || IsBuiltin(t)) && LastGiven(ops, v.fields, t).Some?;
      GivenForTarget(ops, v.fields, t);
      assert false;
    }
    LocalSuitsOps(p, ops, available, v);
  }

  /** When every alias names a field of its own member list, or of a list inside it, whatever value
      is given encodes without type errors. */
  lemma LocalAliasesAreTyped(p: Program, y: Sink, id: SymbolId, v: Value, parameters: Env)
    requires TypedProgram(p, false) && y.c.plan == p.m && Accepted(p.m) && LocalAliases(p.m)
    ensures Sane(EncodeStruct(y, id, v, parameters))
  {
    LocalSuitsBase(p, Named(id), v);
    EncodeIsTyped(p, y, id, v, parameters);
  }
}
