/** Well-typed plans decode without type errors. The tags that the decoder binds are the ones the
    analysis assumes, so no expression of a run meets an operand of the wrong kind, no size is
    other than an integer and no condition other than a boolean.

    With `exact` the claim is about the tags themselves. Two kinds of declaration break it: an
    item of an unsigned enum written as a decimal literal is bound as a signed integer, and a bits
    field of a signed type is bound as an unsigned one. Without `exact` both are admitted, and the
    kinds of value are still right. */
module TypingSound {
  import opened Outcome
  import opened Bytes
  import opened Expr
  import opened Plan
  import opened Decode
  import opened Typing

  // ----- what plan validation checks -----

  predicate TypedDims(p: Program, dims: seq<Dim>)
    decreases |dims|
  {
    dims == [] || ((dims[0].Remaining? || TypeOf(p, dims[0].e).IsInteger()) && TypedDims(p, dims[1..]))
  }

  predicate TypedBranch(p: Program, exact: bool, b: Branch)
    decreases b
  {
    match b
    case Typed(t) => TypedDims(p, t.dims)
    case Listed(members) => TypedOps(p, exact, members)
  }

  predicate DeclaresGroup(p: Program, exact: bool, g: seq<BitsField>) {
    forall f :: f in g ==>
      && f.symbol in p.decls && p.decls[f.symbol].ValueDecl? && !IsBuiltin(f.symbol)
      && (exact ==> !TypeOfType(p.m, p.decls[f.symbol].ty, {}).IntegerSigned?)
  }

  predicate Declares(p: Program, s: SymbolId, d: Decl) {
    !IsBuiltin(s) && s in p.decls && p.decls[s] == d
  }

  /** The expressions of a member have the types that `validatePlanExpressionTypes` asks for, and
      the member is what its SymbolId declares. */
  predicate TypedOp(p: Program, exact: bool, op: Op)
    decreases op
  {
    match op
    case Field(s, _, ty, _, _, _) => Declares(p, s, ValueDecl(ty)) && TypedDims(p, ty.dims)
    case Virtual(s, _, e) => Declares(p, s, VirtualDecl(e)) && !TypeOf(p, e).Invalid?
    case Alias(s, _, target, _) => Declares(p, s, AliasDecl(target))
    case Bits(group) => DeclaresGroup(p, exact, group)
    case Align(e, _) => TypeOf(p, e).IsInteger()
    case At(e, _, members) => TypeOf(p, e).IsInteger() && TypedOps(p, exact, members)
    case Block(e, _, members) => TypeOf(p, e).IsInteger() && TypedOps(p, exact, members)
    case Conditional(e, thenMembers, elseMembers) =>
      TypeOf(p, e).Boolean? && TypedOps(p, exact, thenMembers) && TypedOps(p, exact, elseMembers)
    case Variant(_, e, cases, default) =>
      && TypeOf(p, e).IsInteger()
      && (forall i :: 0 <= i < |cases| ==> TypedBranch(p, exact, cases[i].body))
      && (default.Some? ==> TypedBranch(p, exact, default.value))
  }

  predicate TypedOps(p: Program, exact: bool, ops: seq<Op>)
    decreases ops
  {
    ops == [] || (TypedOp(p, exact, ops[0]) && TypedOps(p, exact, ops[1..]))
  }

  predicate TypedStruct(p: Program, exact: bool, s: Struct) {
    TypedOps(p, exact, s.members) && forall e :: e in s.requirements ==> TypeOf(p, e).Boolean?
  }

  /** Type identities are unique, and module values are what they are declared to be. */
  predicate DeclaredModule(p: Program, exact: bool) {
    && (forall s {:trigger p.m.enums[s]} :: s in p.m.enums ==> s !in p.m.structs && s !in p.m.aliases)
    && (forall s {:trigger p.m.aliases[s]} :: s in p.m.aliases ==> s !in p.m.structs && s !in p.m.enums)
    && (forall s {:trigger p.m.parameters[s]} :: s in p.m.parameters ==> Declares(p, s, ParameterDecl(p.m.parameters[s])))
    && (forall s {:trigger p.m.values[s]} :: s in p.m.values ==>
          && !IsBuiltin(s) && s in p.decls
          && (p.decls[s].ConstantDecl?
              || (p.decls[s].EnumItemDecl? && Carries(exact, IntegerType(p.decls[s].it), p.m.values[s]))))
  }

  predicate TypedProgram(p: Program, exact: bool) {
    DeclaredModule(p, exact) && forall id {:trigger TypedStruct(p, exact, p.m.structs[id])} :: id in p.m.structs ==> TypedStruct(p, exact, p.m.structs[id])
  }

  // ----- what a run keeps -----

  predicate IsTypeError(e: Error) {
    e.OperandType? || e.SizeNotInteger? || e.ConditionNotBoolean?
  }

  predicate Sane<T>(r: Result<T>) {
    r.Fail? ==> !IsTypeError(r.error)
  }

  predicate SaneGroup(p: Program, exact: bool, r: Result<Group>) {
    if r.Ok? then WellTyped(p, exact, r.value.env) else !IsTypeError(r.error)
  }

  lemma SizeSane(p: Program, exact: bool, c: Context, known: Option<u64>, e: Expr, env: Env)
    requires WellTyped(p, exact, env) && TypeOf(p, e).IsInteger()
    ensures Sane(EvalSize(c.fp, e, env)) && Sane(SizeOf(c, known, e, env))
  {
    EvalTyped(p, c.fp, exact, e, env, {});
  }

  lemma {:induction false} ExtentsSane(p: Program, exact: bool, c: Context, dims: seq<Dim>, env: Env, count: nat)
    requires WellTyped(p, exact, env) && TypedDims(p, dims)
    ensures Sane(Extents(c, dims, env, count))
    decreases |dims|
  {
    if dims != [] && !dims[0].Remaining? {
      SizeSane(p, exact, c, None, dims[0].e, env);
      var n := EvalSize(c.fp, dims[0].e, env);
      if n.Ok? {
        ExtentsSane(p, exact, c, dims[1..], env, Times(count, n.value));
      }
    }
  }

  lemma {:induction false} RequirementsSane(p: Program, exact: bool, f: FloatUnit, reqs: seq<Expr>, env: Env)
    requires WellTyped(p, exact, env) && forall e :: e in reqs ==> TypeOf(p, e).Boolean?
    ensures Sane(CheckRequirements(f, reqs, env))
  {
    if reqs != [] {
      assert TypeOf(p, reqs[0]).Boolean?;
      EvalTyped(p, f, exact, reqs[0], env, {});
      RequirementsSane(p, exact, f, reqs[1..], env);
    }
  }

  /** Binding a symbol to a value of its type. */
  lemma BindTyped(p: Program, exact: bool, env: Env, s: SymbolId, v: Scalar)
    requires WellTyped(p, exact, env)
    requires !TypeOf(p, Id(s)).Invalid? ==> Carries(exact, TypeOf(p, Id(s)), v)
    ensures WellTyped(p, exact, env[s := v])
  {
  }

  lemma SizesTyped(p: Program, exact: bool, s: Struct, env: Env)
    requires WellTyped(p, exact, env)
    ensures WellTyped(p, exact, WithSizes(s, env))
  {
  }

  lemma {:induction false} BitsFieldsTyped(p: Program, exact: bool, x: Source, fs: seq<BitsField>, container: nat, env: Env)
    requires TotalBits(fs) <= 64 && WellTyped(p, exact, env) && DeclaresGroup(p, exact, fs)
    ensures var r := ReadBitsFields(x, fs, container, env);
            if r.Ok? then WellTyped(p, exact, r.value.0) else !IsTypeError(r.error)
  {
    if fs != [] {
      var f := fs[0];
      var v := BitsOf(container, TotalBits(fs[1..]), f.bits);
      AlwaysInteger(p.m, p.decls[f.symbol].ty, {});
      BindTyped(p, exact, env, f.symbol, U(v));
      BitsFieldsTyped(p, exact, x, fs[1..], container, env[f.symbol := U(v)]);
    }
  }

  lemma {:induction false} AlwaysInteger(m: Module, t: Type, visiting: set<SymbolId>)
    ensures TypeOfType(m, t, visiting).IsInteger() || TypeOfType(m, t, visiting).Invalid?
    decreases m.aliases.Keys - visiting
  {
    if t.base.Named? && t.base.id in m.aliases && t.base.id !in visiting {
      AlwaysInteger(m, m.aliases[t.base.id], visiting + {t.base.id});
    }
  }

  /** A scalar that was read has the tag of its type. */
  lemma ScalarTyped(p: Program, exact: bool, x: Source, w: Window, t: Type, bound: Option<u64>, env: Env, at: Cursor, depth: nat)
    requires DeclaredModule(p, exact) && x.c.plan == p.m
    requires ReadType(x, w, t, bound, env, at, depth).Ok? && !TypeOfType(p.m, t, {}).Invalid?
    ensures Carries(exact, TypeOfType(p.m, t, {}), Runtime(ReadType(x, w, t, bound, env, at, depth).value.v))
  {
    hide ReadStruct, ReadSequenceForm, ReadElems;
    assert !t.IsTerminated() && !t.base.IsText() && t.dims == [];
    assert ReadType(x, w, t, bound, env, at, depth) == ReadBase(x, w, t.base, env, at, depth);
  }

  lemma {:induction false} BaseSane(p: Program, exact: bool, x: Source, w: Window, base: Base, env: Env, at: Cursor, depth: nat)
    requires TypedProgram(p, exact) && x.c.plan == p.m && WellTyped(p, exact, env)
    ensures Sane(ReadBase(x, w, base, env, at, depth))
    decreases depth, 0, 0, 0
  {
    hide ReadMembers, WellTyped;
    if base.Named? && base.id in x.c.plan.structs && depth > 0 {
      var s := x.c.plan.structs[base.id];
      assert TypedStruct(p, exact, s);
      SizesTyped(p, exact, s, env);
      MembersSane(p, exact, x, w, s.members, WithSizes(s, env), Cursor(at.pos, s.order), depth - 1);
      var g := ReadMembers(x, w, s.members, WithSizes(s, env), Cursor(at.pos, s.order), depth - 1);
      if g.Ok? {
        RequirementsSane(p, exact, x.c.fp, s.requirements, g.value.env);
      }
    }
  }

  lemma {:induction false} DimsSane(p: Program, exact: bool, x: Source, w: Window, base: Base, dims: seq<Dim>, env: Env, at: Cursor, depth: nat)
    requires TypedProgram(p, exact) && x.c.plan == p.m && WellTyped(p, exact, env) && TypedDims(p, dims)
    ensures Sane(ReadDims(x, w, base, dims, env, at, depth))
    decreases depth, 0, 2 * |dims| + 1, 0
  {
    hide ReadBase, ReadElems;
    if dims == [] {
      BaseSane(p, exact, x, w, base, env, at, depth);
    } else {
      ExtentsSane(p, exact, x.c, dims, env, 1);
      if ArrayExtents(x.c, dims, env).Ok? {
        ElemsSane(p, exact, x, w, base, dims[1..], ArrayExtents(x.c, dims, env).value[0], env, at, depth);
      }
    }
  }

  lemma {:induction false} ElemsSane(p: Program, exact: bool, x: Source, w: Window, base: Base, dims: seq<Dim>, n: nat, env: Env, at: Cursor, depth: nat)
    requires TypedProgram(p, exact) && x.c.plan == p.m && WellTyped(p, exact, env) && TypedDims(p, dims)
    ensures Sane(ReadElems(x, w, base, dims, n, env, at, depth))
    decreases depth, 0, 2 * |dims| + 2, n
  {
    hide ReadDims, TypedProgram, WellTyped, TypedDims;
    if n > 0 {
      DimsSane(p, exact, x, w, base, dims, env, at, depth);
      var first := ReadDims(x, w, base, dims, env, at, depth);
      if first.Ok? {
        ElemsSane(p, exact, x, w, base, dims, n - 1, env, first.value.at, depth);
      }
    }
  }

  lemma {:induction false} SeqSane(p: Program, exact: bool, x: Source, w: Window, t: Type, last: nat, env: Env, at: Cursor, depth: nat)
    requires TypedProgram(p, exact) && x.c.plan == p.m && WellTyped(p, exact, env)
    ensures Sane(ReadSeq(x, w, t, last, env, at, depth))
    decreases depth, 0, 1, if at.pos <= last then last - at.pos else 0
  {
    hide ReadBase;
    if at.pos < last {
      BaseSane(p, exact, x, w, t.base, env, at, depth);
      var first := ReadBase(x, w, t.base, env, at, depth);
      if first.Ok? && at.pos < first.value.at.pos <= last {
        SeqSane(p, exact, x, w, t, last, env, first.value.at, depth);
      }
    }
  }

  lemma {:induction false} SequenceFormSane(p: Program, exact: bool, x: Source, w: Window, t: Type, env: Env, at: Cursor, depth: nat)
    requires TypedProgram(p, exact) && x.c.plan == p.m && WellTyped(p, exact, env) && t.maxPayload.Some?
    ensures Sane(ReadSequenceForm(x, w, t, env, at, depth))
    decreases depth, 0, 2, 0
  {
    if at.pos <= w.limit {
      SeqSane(p, exact, x, ScanWindow(w, t, at.pos), t, at.pos + t.maxPayload.value, env, at, depth);
    }
  }

  lemma {:induction false} TerminatedSane(p: Program, exact: bool, x: Source, w: Window, t: Type, env: Env, at: Cursor, depth: nat)
    requires TypedProgram(p, exact) && x.c.plan == p.m && WellTyped(p, exact, env)
    ensures Sane(ReadTerminated(x, w, t, env, at, depth))
    decreases depth, 0, 2, 1
  {
    if t.maxPayload.Some? {
      SequenceFormSane(p, exact, x, w, t, env, at, depth);
    }
  }

  lemma TextSane(p: Program, exact: bool, x: Source, w: Window, t: Type, bound: Option<u64>, env: Env, at: Cursor)
    requires WellTyped(p, exact, env) && TypedDims(p, t.dims)
    ensures Sane(ReadText(x, w, t, bound, env, at))
  {
    if t.dims != [] && !t.dims[0].Remaining? {
      SizeSane(p, exact, x.c, None, t.dims[0].e, env);
    }
  }

  lemma {:induction false} TypeSane(p: Program, exact: bool, x: Source, w: Window, t: Type, bound: Option<u64>, env: Env, at: Cursor, depth: nat)
    requires TypedProgram(p, exact) && x.c.plan == p.m && WellTyped(p, exact, env) && TypedDims(p, t.dims)
    ensures Sane(ReadType(x, w, t, bound, env, at, depth))
    decreases depth, 0, 2 * |t.dims| + 3, 0
  {
    if t.IsTerminated() {
      TerminatedSane(p, exact, x, w, t, env, at, depth);
    } else if t.base.IsText() {
      TextSane(p, exact, x, w, t, bound, env, at);
    } else {
      DimsSane(p, exact, x, w, t.base, t.dims, env, at, depth);
    }
  }

  lemma {:induction false} BranchSane(p: Program, exact: bool, x: Source, w: Window, b: Branch, env: Env, at: Cursor, depth: nat)
    requires TypedProgram(p, exact) && x.c.plan == p.m && WellTyped(p, exact, env) && TypedBranch(p, exact, b)
    ensures SaneGroup(p, exact, ReadBranch(x, w, b, env, at, depth))
    decreases depth, 1, b, 0
  {
    match b
    case Typed(t) => TypeSane(p, exact, x, w, t, None, env, at, depth);
    case Listed(members) => MembersSane(p, exact, x, w, members, env, at, depth);
  }

  lemma {:induction false} AtSane(p: Program, exact: bool, x: Source, w: Window, op: Op, env: Env, at: Cursor, depth: nat)
    requires op.At? && TypedProgram(p, exact) && x.c.plan == p.m && WellTyped(p, exact, env) && TypedOp(p, exact, op)
    ensures SaneGroup(p, exact, ReadAt(x, w, op, env, at, depth))
    decreases depth, 1, op, 0
  {
    if at.pos <= U64_MAX {
      var inner := env[NEXT := U(at.pos)];
      BindTyped(p, exact, env, NEXT, U(at.pos));
      SizeSane(p, exact, x.c, op.staticOffset, op.offset, inner);
      var off := SizeOf(x.c, op.staticOffset, op.offset, inner);
      if off.Ok? {
        MembersSane(p, exact, x, w, op.members, env, Cursor(off.value, at.order), depth);
      }
    }
  }

  lemma {:induction false} BlockSane(p: Program, exact: bool, x: Source, w: Window, op: Op, env: Env, at: Cursor, depth: nat)
    requires op.Block? && TypedProgram(p, exact) && x.c.plan == p.m && WellTyped(p, exact, env) && TypedOp(p, exact, op)
    ensures SaneGroup(p, exact, ReadBlock(x, w, op, env, at, depth))
    decreases depth, 1, op, 0
  {
    hide ReadBlock, ReadMembers, Eval, EvalSize, TypedProgram, WellTyped, TypeOf;
    BlockOutcome(x, w, op, env, at, depth);
    SizeSane(p, exact, x.c, op.staticSize, op.size, env);
    var n := SizeOf(x.c, op.staticSize, op.size, env);
    if n.Ok? {
      MembersSane(p, exact, x, Within(at.pos + n.value, w), op.members, env, at, depth);
    }
  }

  lemma {:induction false} VariantSane(p: Program, exact: bool, x: Source, w: Window, op: Op, env: Env, at: Cursor, depth: nat)
    requires op.Variant? && TypedProgram(p, exact) && x.c.plan == p.m && WellTyped(p, exact, env) && TypedOp(p, exact, op)
    ensures SaneGroup(p, exact, ReadVariant(x, w, op, env, at, depth))
    decreases depth, 1, op, 0
  {
    hide ReadBranch, Eval;
    EvalTyped(p, x.c.fp, exact, op.discriminator, env, {});
    var tag := Eval(x.c.fp, op.discriminator, env);
    if tag.Ok? {
      match ChooseCase(x.c.fp, op.cases, tag.value) {
        case Some(i) => BranchSane(p, exact, x, w, op.cases[i].body, env, at, depth);
        case None => if op.default.Some? { BranchSane(p, exact, x, w, op.default.value, env, at, depth); }
      }
    }
  }

  lemma {:induction false} FieldSane(p: Program, exact: bool, x: Source, w: Window, op: Op, env: Env, at: Cursor, depth: nat)
    requires op.Field? && TypedProgram(p, exact) && x.c.plan == p.m && WellTyped(p, exact, env) && TypedOp(p, exact, op)
    ensures SaneGroup(p, exact, ReadField(x, w, op, env, at, depth))
    decreases depth, 1, op, 0
  {
    hide ReadType, Eval;
    var start := Cursor(at.pos, op.order);
    TypeSane(p, exact, x, w, op.ty, op.staticLength, env, start, depth);
    var got := ReadType(x, w, op.ty, op.staticLength, env, start, depth);
    if got.Ok? {
      if !TypeOfType(p.m, op.ty, {}).Invalid? {
        ScalarTyped(p, exact, x, w, op.ty, op.staticLength, env, start, depth);
      }
      BindTyped(p, exact, env, op.symbol, Runtime(got.value.v));
    }
  }

  /** A virtual field is bound to a value of its type by type soundness itself, an alias by the
      invariant at its target. */
  lemma BindingSane(p: Program, exact: bool, x: Source, w: Window, op: Op, env: Env, at: Cursor, depth: nat)
    requires (op.Virtual? || op.Alias?) && WellTyped(p, exact, env) && TypedOp(p, exact, op)
    ensures SaneGroup(p, exact, ReadMember(x, w, op, env, at, depth))
  {
    if op.Virtual? {
      EvalTyped(p, x.c.fp, exact, op.e, env, {});
      DeclaredType(p, op.symbol, op.e);
      if Eval(x.c.fp, op.e, env).Ok? {
        BindTyped(p, exact, env, op.symbol, Eval(x.c.fp, op.e, env).value);
      }
    } else {
      DeclaredType(p, op.symbol, Id(op.target));
      if op.target in env {
        BindTyped(p, exact, env, op.symbol, env[op.target]);
      }
    }
  }

  lemma {:induction false} MemberSane(p: Program, exact: bool, x: Source, w: Window, op: Op, env: Env, at: Cursor, depth: nat)
    requires TypedProgram(p, exact) && x.c.plan == p.m && WellTyped(p, exact, env) && TypedOp(p, exact, op)
    ensures SaneGroup(p, exact, ReadMember(x, w, op, env, at, depth))
    decreases depth, 1, op, 1
  {
    hide ReadField, ReadBits, ReadAt, ReadBlock, ReadVariant, ReadMembers, Eval;
    match op
    case Field(_, _, _, _, _, _) => FieldSane(p, exact, x, w, op, env, at, depth);
    case Bits(group) => BitsSane(p, exact, x, w, group, env, at);
    case Align(e, known) => SizeSane(p, exact, x.c, known, e, env);
    case At(_, _, _) => AtSane(p, exact, x, w, op, env, at, depth);
    case Block(_, _, _) => BlockSane(p, exact, x, w, op, env, at, depth);
    case Conditional(e, thenMembers, elseMembers) =>
      EvalTyped(p, x.c.fp, exact, e, env, {});
      MembersSane(p, exact, x, w, thenMembers, env, at, depth);
      MembersSane(p, exact, x, w, elseMembers, env, at, depth);
    case Variant(_, _, _, _) => VariantSane(p, exact, x, w, op, env, at, depth);
    case _ => BindingSane(p, exact, x, w, op, env, at, depth);
  }

  lemma DeclaredType(p: Program, s: SymbolId, e: Expr)
    requires !IsBuiltin(s) && s in p.decls
    requires p.decls[s] == VirtualDecl(e) || (e.Id? && p.decls[s] == AliasDecl(e.symbol))
    ensures !TypeOf(p, Id(s)).Invalid? ==> TypeOf(p, Id(s)) == TypeOf(p, e)
  {
    if !TypeOf(p, Id(s)).Invalid? {
      VisitingMonotone(p, e, {}, {} + {s});
    }
  }

  lemma BitsSane(p: Program, exact: bool, x: Source, w: Window, g: BitsGroup, env: Env, at: Cursor)
    requires WellTyped(p, exact, env) && DeclaresGroup(p, exact, g)
    ensures SaneGroup(p, exact, ReadBits(x, w, g, env, at))
  {
    var b := Take(x, w, at, StorageBytes(g));
    if b.Ok? {
      BitsFieldsTyped(p, exact, x, g, Unpadded(Unpack(b.value, at.order), PaddingBits(g)), env);
    }
  }

  lemma {:induction false} MembersSane(p: Program, exact: bool, x: Source, w: Window, ops: seq<Op>, env: Env, at: Cursor, depth: nat)
    requires TypedProgram(p, exact) && x.c.plan == p.m && WellTyped(p, exact, env) && TypedOps(p, exact, ops)
    ensures SaneGroup(p, exact, ReadMembers(x, w, ops, env, at, depth))
    decreases depth, 1, ops, 0
  {
    if ops != [] {
      MemberSane(p, exact, x, w, ops[0], env, at, depth);
      var g := ReadMember(x, w, ops[0], env, at, depth);
      if g.Ok? {
        MembersSane(p, exact, x, w, ops[1..], g.value.env, g.value.at, depth);
      }
    }
  }

  lemma InitialTyped(p: Program, exact: bool, parameters: Env)
    requires DeclaredModule(p, exact) && InitialEnv(p.m, parameters).Ok?
    ensures WellTyped(p, exact, InitialEnv(p.m, parameters).value)
  {
    var env := InitialEnv(p.m, parameters).value;
    forall s | s in env && !TypeOf(p, Id(s)).Invalid? ensures Carries(exact, TypeOf(p, Id(s)), env[s]) {
      if s !in p.m.values {
        assert ParameterFits(p.m.parameters[s], parameters[s]);
      }
    }
  }

  /** The main theorem: a decode of a well-typed program meets no type error, on any input. */
  lemma DecodeIsTyped(p: Program, exact: bool, x: Source, id: SymbolId, parameters: Env)
    requires TypedProgram(p, exact) && x.c.plan == p.m
    ensures Sane(DecodeStruct(x, id, parameters))
  {
    var env := InitialEnv(p.m, parameters);
    if id in p.m.structs && env.Ok? {
      InitialTyped(p, exact, parameters);
      BaseSane(p, exact, x, Whole(|x.d|), Named(id), env.value, Cursor(0, Little), x.c.options.maxRecursionDepth);
    }
  }

  /** The exact claim fails for enum items: `= 1` in an unsigned enum is bound as a signed one, so
      an expression typed unsigned gives a negative value. */
  lemma EnumItemsBreakExactTags(m: Module, f: FloatUnit, item: SymbolId)
    requires !IsBuiltin(item)
    ensures var p := Program(m, map[item := EnumItemDecl(IntType(false, W4))]);
            var env: Env := map[item := I(1)];
            var e := Bin(Sub, Id(item), Lit(IntLiteral(2, false)));
            && WellTyped(p, false, env) && !WellTyped(p, true, env)
            && TypeOf(p, e) == IntegerUnsigned && Eval(f, e, env) == Ok(I(-1))
  {
    var p := Program(m, map[item := EnumItemDecl(IntType(false, W4))]);
    var env: Env := map[item := I(1)];
    var e := Bin(Sub, Id(item), Lit(IntLiteral(2, false)));
    assert TypeOf(p, Id(item)) == IntegerUnsigned && TypeOf(p, e.right) == IntegerSigned;
    assert ResolvedType(p, e, {}) == TypeOfBinary(Sub, ResolvedType(p, e.left, {}), ResolvedType(p, e.right, {}));
    assert TypeOf(p, e) == TypeOfBinary(Sub, TypeOf(p, Id(item)), IntegerSigned);
    assert Eval(f, Id(item), env) == Ok(I(1)) && Eval(f, Lit(IntLiteral(2, false)), env) == Ok(I(2));
  }

  /** An item carries the tag of its enum exactly when its expression has the type of the enum. For a
      literal that is the signedness of its notation. */
  lemma ItemCarriesWhen(p: Program, f: FloatUnit, it: IntType, e: Expr, env: Env)
    requires WellTyped(p, true, env) && !TypeOf(p, e).Invalid? && Eval(f, e, env).Ok?
    ensures Carries(true, IntegerType(it), Eval(f, e, env).value) <==> TypeOf(p, e) == IntegerType(it)
    ensures e.Lit? && TypeOf(p, e).IsInteger() ==> (TypeOf(p, e).IntegerSigned? <==> !e.literal.hex && e.literal.n <= I64_MAX)
  {
    EvalTyped(p, f, true, e, env, {});
  }

  /** A bits field carries the tag of its declared type exactly when that type is unsigned. */
  lemma BitsFieldCarriesWhen(p: Program, x: Source, f: BitsField, container: nat, env: Env)
    requires f.bits <= 64 && f.symbol in p.decls && p.decls[f.symbol].ValueDecl? && !IsBuiltin(f.symbol)
    requires !TypeOf(p, Id(f.symbol)).Invalid? && ReadBitsFields(x, [f], container, env).Ok?
    ensures var after := ReadBitsFields(x, [f], container, env).value.0;
            && f.symbol in after
            && (Carries(true, TypeOf(p, Id(f.symbol)), after[f.symbol]) <==> TypeOf(p, Id(f.symbol)).IntegerUnsigned?)
  {
    hide BitsOf;
    AlwaysInteger(p.m, p.decls[f.symbol].ty, {});
    var none: seq<BitsField> := [];
    assert [f][1..] == none && TotalBits(none) == 0;
    var v := BitsOf(container, 0, f.bits);
    assert ReadBitsFields(x, none, container, env[f.symbol := U(v)]) == Ok((env[f.symbol := U(v)], map[]));
  }

  /** So a signed one of value 1 is typed signed and bound unsigned: subtracting two from it is
      typed signed and fails. */
  lemma SignedBitsBreakExactTags(m: Module, f: FloatUnit, s: SymbolId)
    requires !IsBuiltin(s)
    ensures var p := Program(m, map[s := ValueDecl(Type(Primitive(IntType(true, W1)), [], [], None))]);
            var env: Env := map[s := U(1)];
            var e := Bin(Sub, Id(s), Lit(IntLiteral(2, false)));
            && WellTyped(p, false, env) && !WellTyped(p, true, env)
            && TypeOf(p, e) == IntegerSigned && Eval(f, e, env) == Fail(Overflow)
  {
    var p := Program(m, map[s := ValueDecl(Type(Primitive(IntType(true, W1)), [], [], None))]);
    var env: Env := map[s := U(1)];
    var e := Bin(Sub, Id(s), Lit(IntLiteral(2, false)));
    assert TypeOf(p, Id(s)) == IntegerSigned && TypeOf(p, e.right) == IntegerSigned;
    assert ResolvedType(p, e, {}) == TypeOfBinary(Sub, ResolvedType(p, e.left, {}), ResolvedType(p, e.right, {}));
    assert Eval(f, Id(s), env) == Ok(U(1)) && Eval(f, Lit(IntLiteral(2, false)), env) == Ok(I(2));
  }

  /** An accepted expression is refused as a literal, in some environment of its types, only when its
      type is a string; and then it has no value in any. */
  lemma StringsHaveNoValue(p: Program, f: FloatUnit, exact: bool, e: Expr, env: Env)
    requires WellTyped(p, exact, env) && !TypeOf(p, e).Invalid?
    ensures TypeOf(p, e).StringType? ==> Eval(f, e, env).Fail?
    ensures Eval(f, e, env) == Fail(BadLiteral) ==> TypeOf(p, e).StringType?
  {
    EvalTyped(p, f, exact, e, env, {});
  }

  /** A string literal as a virtual field passes the checks, and no run gets past it. */
  lemma StringVirtualIsAccepted(m: Module, exact: bool, x: Source, w: Window, s: SymbolId, name: Name, env: Env, at: Cursor, depth: nat)
    requires !IsBuiltin(s)
    ensures var op := Virtual(s, name, Lit(StringLiteral));
            && TypedOp(Program(m, map[s := VirtualDecl(Lit(StringLiteral))]), exact, op)
            && ReadMember(x, w, op, env, at, depth) == Fail(BadLiteral)
  {
    hide ReadField, ReadBits, ReadAlign, ReadAt, ReadBlock, ReadVariant, ReadMembers;
    assert Eval(x.c.fp, Lit(StringLiteral), env) == Fail(BadLiteral);
  }
}
