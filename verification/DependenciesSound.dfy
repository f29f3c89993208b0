/** A plan that the dependency validator accepts never meets an unbound symbol: whatever the
    input, no decode and no encode evaluates an identifier that is not in the environment, and
    no alias finds its target missing. The size builtins are left out of the claim, because they
    are bound only where a size is known. */
module DependenciesSound {
  import opened Outcome
  import opened Bytes
  import opened Expr
  import opened Plan
  import opened Decode
  import opened Encode
  import opened Dependencies

  predicate IsUnbound(e: Error) {
    (e.MissingSymbol? && !IsBuiltin(e.symbol)) || e.AliasUnavailable?
  }

  predicate Bound<T>(r: Result<T>) {
    r.Fail? ==> !IsUnbound(r.error)
  }

  predicate Accepted(m: Module) {
    Coherent(m) && PlanAllowed(m)
  }

  /** The environment binds all that the validator counts as available. */
  predicate Ready(m: Module, available: set<SymbolId>, env: Env) {
    ModuleValues(m) <= available <= env.Keys
  }

  lemma EvalBound(c: Context, e: Expr, available: set<SymbolId>, env: Env)
    requires Accepted(c.plan) && Ready(c.plan, available, env) && ExprAllowed(c.plan, e, available)
    ensures Bound(Eval(c.fp, e, env)) && Bound(EvalSize(c.fp, e, env)) && Bound(EvalBool(c.fp, e, env))
  {
    EvalMisses(c.fp, e, env);
  }

  lemma SizeBound(c: Context, known: Option<u64>, e: Expr, available: set<SymbolId>, env: Env)
    requires Accepted(c.plan) && Ready(c.plan, available, env) && ExprAllowed(c.plan, e, available)
    ensures Bound(SizeOf(c, known, e, env))
  {
    EvalBound(c, e, available, env);
  }

  lemma {:induction false} ExtentsBound(c: Context, dims: seq<Dim>, available: set<SymbolId>, env: Env, count: nat)
    requires Accepted(c.plan) && Ready(c.plan, available, env) && DimsAllowed(c.plan, dims, available)
    ensures Bound(Extents(c, dims, env, count))
    decreases |dims|
  {
    if dims != [] && !dims[0].Remaining? {
      EvalBound(c, dims[0].e, available, env);
      var n := EvalSize(c.fp, dims[0].e, env);
      if n.Ok? {
        ExtentsBound(c, dims[1..], available, env, Times(count, n.value));
      }
    }
  }

  lemma {:induction false} RequirementsBound(c: Context, reqs: seq<Expr>, available: set<SymbolId>, env: Env)
    requires Accepted(c.plan) && Ready(c.plan, available, env)
    requires forall e :: e in reqs ==> ExprAllowed(c.plan, e, available)
    ensures Bound(CheckRequirements(c.fp, reqs, env))
  {
    if reqs != [] {
      EvalBound(c, reqs[0], available, env);
      RequirementsBound(c, reqs[1..], available, env);
    }
  }

  // ----- decode -----

  predicate Extends(r: Result<Group>, available: set<SymbolId>) {
    Bound(r) && (r.Ok? ==> available <= r.value.env.Keys)
  }

  lemma {:induction false} ReadBitsFieldsBind(x: Source, fs: seq<BitsField>, container: nat, env: Env)
    requires TotalBits(fs) <= 64
    ensures var r := ReadBitsFields(x, fs, container, env);
            Bound(r) && (r.Ok? ==> env.Keys + GroupSymbols(fs) <= r.value.0.Keys)
  {
    if fs != [] {
      var f := fs[0];
      ReadBitsFieldsBind(x, fs[1..], container, env[f.symbol := U(BitsOf(container, TotalBits(fs[1..]), f.bits))]);
    }
  }

  lemma {:induction false} ReadBaseBound(x: Source, w: Window, base: Base, env: Env, at: Cursor, depth: nat)
    requires Accepted(x.c.plan) && ModuleValues(x.c.plan) <= env.Keys
    ensures Bound(ReadBase(x, w, base, env, at, depth))
    decreases depth, 0, 0, 0
  {
    hide ReadMembers, Eval;
    if base.Named? && base.id in x.c.plan.structs && depth > 0 {
      var s := x.c.plan.structs[base.id];
      assert StructAllowed(x.c.plan, s);
      var after := MembersAllowed(x.c.plan, s.members, ModuleValues(x.c.plan)).value;
      ReadMembersBound(x, w, s.members, WithSizes(s, env), Cursor(at.pos, s.order), depth - 1, ModuleValues(x.c.plan));
      var g := ReadMembers(x, w, s.members, WithSizes(s, env), Cursor(at.pos, s.order), depth - 1);
      if g.Ok? {
        RequirementsBound(x.c, s.requirements, after, g.value.env);
      }
    }
  }

  lemma {:induction false} ReadDimsBound(x: Source, w: Window, base: Base, dims: seq<Dim>, env: Env, at: Cursor, depth: nat, available: set<SymbolId>)
    requires Accepted(x.c.plan) && Ready(x.c.plan, available, env) && DimsAllowed(x.c.plan, dims, available)
    ensures Bound(ReadDims(x, w, base, dims, env, at, depth))
    decreases depth, 0, 2 * |dims| + 1, 0
  {
    if dims == [] {
      ReadBaseBound(x, w, base, env, at, depth);
    } else {
      ExtentsBound(x.c, dims, available, env, 1);
      if ArrayExtents(x.c, dims, env).Ok? {
        ReadElemsBound(x, w, base, dims[1..], ArrayExtents(x.c, dims, env).value[0], env, at, depth, available);
      }
    }
  }

  lemma {:induction false} ReadElemsBound(x: Source, w: Window, base: Base, dims: seq<Dim>, n: nat, env: Env, at: Cursor, depth: nat, available: set<SymbolId>)
    requires Accepted(x.c.plan) && Ready(x.c.plan, available, env) && DimsAllowed(x.c.plan, dims, available)
    ensures Bound(ReadElems(x, w, base, dims, n, env, at, depth))
    decreases depth, 0, 2 * |dims| + 2, n
  {
    if n > 0 {
      ReadDimsBound(x, w, base, dims, env, at, depth, available);
      var first := ReadDims(x, w, base, dims, env, at, depth);
      if first.Ok? {
        ReadElemsBound(x, w, base, dims, n - 1, env, first.value.at, depth, available);
      }
    }
  }

  lemma {:induction false} ReadSeqBound(x: Source, w: Window, t: Type, last: nat, env: Env, at: Cursor, depth: nat)
    requires Accepted(x.c.plan) && ModuleValues(x.c.plan) <= env.Keys
    ensures Bound(ReadSeq(x, w, t, last, env, at, depth))
    decreases depth, 0, 1, if at.pos <= last then last - at.pos else 0
  {
    hide ReadBase, Accepted, ModuleValues;
    if at.pos < last {
      ReadBaseBound(x, w, t.base, env, at, depth);
      var first := ReadBase(x, w, t.base, env, at, depth);
      if first.Ok? && at.pos < first.value.at.pos <= last {
        ReadSeqBound(x, w, t, last, env, first.value.at, depth);
      }
    }
  }

  lemma {:induction false} ReadSequenceFormBound(x: Source, w: Window, t: Type, env: Env, at: Cursor, depth: nat)
    requires Accepted(x.c.plan) && ModuleValues(x.c.plan) <= env.Keys && t.maxPayload.Some?
    ensures Bound(ReadSequenceForm(x, w, t, env, at, depth))
    decreases depth, 0, 2, 0
  {
    if at.pos <= w.limit {
      ReadSeqBound(x, ScanWindow(w, t, at.pos), t, at.pos + t.maxPayload.value, env, at, depth);
    }
  }

  lemma {:induction false} ReadTypeBound(x: Source, w: Window, t: Type, bound: Option<u64>, env: Env, at: Cursor, depth: nat, available: set<SymbolId>)
    requires Accepted(x.c.plan) && Ready(x.c.plan, available, env) && DimsAllowed(x.c.plan, t.dims, available)
    ensures Bound(ReadType(x, w, t, bound, env, at, depth))
    decreases depth, 0, 2 * |t.dims| + 3, 0
  {
    hide ReadDims, Eval, Accepted, ModuleValues;
    if t.IsTerminated() {
      assert ReadType(x, w, t, bound, env, at, depth) == ReadTerminated(x, w, t, env, at, depth);
      if t.maxPayload.Some? {
        ReadSequenceFormBound(x, w, t, env, at, depth);
      }
    } else if t.base.IsText() {
      if t.dims != [] && !t.dims[0].Remaining? {
        EvalBound(x.c, t.dims[0].e, available, env);
      }
    } else {
      ReadDimsBound(x, w, t.base, t.dims, env, at, depth, available);
    }
  }

  lemma {:induction false} ReadBranchBound(x: Source, w: Window, b: Branch, env: Env, at: Cursor, depth: nat, available: set<SymbolId>)
    requires Accepted(x.c.plan) && Ready(x.c.plan, available, env) && BranchAllowed(x.c.plan, b, available)
    ensures Extends(ReadBranch(x, w, b, env, at, depth), available)
    decreases depth, 1, b, 0
  {
    match b
    case Typed(t) => ReadTypeBound(x, w, t, None, env, at, depth, available);
    case Listed(members) => ReadMembersBound(x, w, members, env, at, depth, available);
  }

  /** The members inside `at`. */
  lemma {:induction false} ReadAtBound(x: Source, w: Window, op: Op, env: Env, at: Cursor, depth: nat, available: set<SymbolId>)
    requires op.At?
    requires Accepted(x.c.plan) && Ready(x.c.plan, available, env) && MemberAllowed(x.c.plan, op, available).Some?
    ensures Extends(ReadAt(x, w, op, env, at, depth), MemberAllowed(x.c.plan, op, available).value)
    decreases depth, 1, op, 0
  {
    hide ReadMembers, Eval, EvalSize, Accepted, ModuleValues, IsBuiltin;
    if at.pos <= U64_MAX {
      var inner := env[NEXT := U(at.pos)];
      SizeBound(x.c, op.staticOffset, op.offset, available, inner);
      var off := SizeOf(x.c, op.staticOffset, op.offset, inner);
      if off.Ok? {
        ReadMembersBound(x, w, op.members, env, Cursor(off.value, at.order), depth, available);
      }
    }
  }

  /** The members inside a block. */
  lemma {:induction false} ReadBlockBound(x: Source, w: Window, op: Op, env: Env, at: Cursor, depth: nat, available: set<SymbolId>)
    requires op.Block?
    requires Accepted(x.c.plan) && Ready(x.c.plan, available, env) && MemberAllowed(x.c.plan, op, available).Some?
    ensures Extends(ReadBlock(x, w, op, env, at, depth), MemberAllowed(x.c.plan, op, available).value)
    decreases depth, 1, op, 0
  {
    hide ReadBlock, ReadMembers, Eval, EvalSize, Accepted, ModuleValues, IsBuiltin;
    BlockOutcome(x, w, op, env, at, depth);
    SizeBound(x.c, op.staticSize, op.size, available, env);
    var n := SizeOf(x.c, op.staticSize, op.size, env);
    if n.Ok? {
      ReadMembersBound(x, Within(at.pos + n.value, w), op.members, env, at, depth, available);
    }
  }

  /** The members that a condition or a discriminator chooses. */
  lemma {:induction false} ReadChosenBound(x: Source, w: Window, op: Op, env: Env, at: Cursor, depth: nat, available: set<SymbolId>)
    requires op.Conditional? || op.Variant?
    requires Accepted(x.c.plan) && Ready(x.c.plan, available, env) && MemberAllowed(x.c.plan, op, available).Some?
    ensures Extends(ReadMember(x, w, op, env, at, depth), MemberAllowed(x.c.plan, op, available).value)
    decreases depth, 1, op, 0
  {
    hide ReadMembers, ReadBranch, Eval, Accepted, ModuleValues, IsBuiltin;
    match op
    case Conditional(e, thenMembers, elseMembers) =>
      EvalBound(x.c, e, available, env);
      ReadMembersBound(x, w, thenMembers, env, at, depth, available);
      ReadMembersBound(x, w, elseMembers, env, at, depth, available);
    case Variant(_, e, cases, default) =>
      EvalBound(x.c, e, available, env);
      if Eval(x.c.fp, e, env).Ok? {
        match ChooseCase(x.c.fp, cases, Eval(x.c.fp, e, env).value) {
          case Some(i) => ReadBranchBound(x, w, cases[i].body, env, at, depth, available);
          case None => if default.Some? { ReadBranchBound(x, w, default.value, env, at, depth, available); }
        }
      }
  }

  lemma {:induction false} ReadMemberBound(x: Source, w: Window, op: Op, env: Env, at: Cursor, depth: nat, available: set<SymbolId>)
    requires Accepted(x.c.plan) && Ready(x.c.plan, available, env) && MemberAllowed(x.c.plan, op, available).Some?
    ensures Extends(ReadMember(x, w, op, env, at, depth), MemberAllowed(x.c.plan, op, available).value)
    decreases depth, 1, op, 1
  {
    hide ReadAt, ReadBlock, ReadVariant, ReadMembers, ReadBits, ReadType, Eval, EvalSize, Accepted, ModuleValues, IsBuiltin;
    match op
    case Field(_, _, _, _, _, _) => ReadTypeBound(x, w, op.ty, op.staticLength, env, Cursor(at.pos, op.order), depth, available);
    case Virtual(_, _, e) => EvalBound(x.c, e, available, env);
    case Alias(_, _, _, _) =>
    case Bits(group) => ReadBitsBound(x, w, group, env, at);
    case Align(e, known) => SizeBound(x.c, known, e, available, env);
    case At(_, _, _) => ReadAtBound(x, w, op, env, at, depth, available);
    case Block(_, _, _) => ReadBlockBound(x, w, op, env, at, depth, available);
    case _ => ReadChosenBound(x, w, op, env, at, depth, available);
  }

  lemma ReadBitsBound(x: Source, w: Window, g: BitsGroup, env: Env, at: Cursor)
    ensures Extends(ReadBits(x, w, g, env, at), env.Keys + GroupSymbols(g))
  {
    var b := Take(x, w, at, StorageBytes(g));
    if b.Ok? {
      ReadBitsFieldsBind(x, g, Unpadded(Unpack(b.value, at.order), PaddingBits(g)), env);
    }
  }

  lemma {:induction false} ReadMembersBound(x: Source, w: Window, ops: seq<Op>, env: Env, at: Cursor, depth: nat, available: set<SymbolId>)
    requires Accepted(x.c.plan) && Ready(x.c.plan, available, env) && MembersAllowed(x.c.plan, ops, available).Some?
    ensures Extends(ReadMembers(x, w, ops, env, at, depth), MembersAllowed(x.c.plan, ops, available).value)
    decreases depth, 1, ops, 0
  {
    if ops != [] {
      ReadMemberBound(x, w, ops[0], env, at, depth, available);
      var g := ReadMember(x, w, ops[0], env, at, depth);
      if g.Ok? {
        ReadMembersBound(x, w, ops[1..], g.value.env, g.value.at, depth, MemberAllowed(x.c.plan, ops[0], available).value);
      }
    }
  }

  /** The main theorem for the decoder. */
  lemma DecodeFindsEverySymbol(x: Source, id: SymbolId, parameters: Env)
    requires Accepted(x.c.plan)
    ensures Bound(DecodeStruct(x, id, parameters))
  {
    var env := InitialEnv(x.c.plan, parameters);
    if id in x.c.plan.structs && env.Ok? {
      ReadBaseBound(x, Whole(|x.d|), Named(id), env.value, Cursor(0, Little), x.c.options.maxRecursionDepth);
    }
  }

  // ----- encode -----

  predicate ExtendsBatch(r: Result<Batch>, available: set<SymbolId>) {
    Bound(r) && (r.Ok? ==> available <= r.value.env.Keys)
  }

  lemma {:induction false} BindAliasesBound(c: Context, ops: seq<Op>, o: Fields, env: Env)
    ensures var r := BindAliases(c, ops, o, env);
            Bound(r) && (r.Ok? ==> env.Keys <= r.value.Keys)
  {
    if ops != [] {
      var a := ops[0];
      if a.Alias? && a.name in o && o[a.name].Num? {
        BindAliasesBound(c, ops[1..], o, env[a.target := o[a.name].s]);
      }
      BindAliasesBound(c, ops[1..], o, env);
    }
  }

  lemma {:induction false} WriteBitsFieldsBind(y: Sink, fs: seq<BitsField>, o: Fields, env: Env)
    requires TotalBits(fs) <= 64
    ensures var r := WriteBitsFields(y, fs, o, env);
            Bound(r) && (r.Ok? ==> env.Keys + GroupSymbols(fs) <= r.value.1.Keys)
  {
    if fs != [] && fs[0].name in o && AsU64(o[fs[0].name]).Some? {
      WriteBitsFieldsBind(y, fs[1..], o, env[fs[0].symbol := U(AsU64(o[fs[0].name]).value)]);
    }
  }

  lemma {:induction false} WriteBaseBound(y: Sink, room: Room, base: Base, v: Value, env: Env, pen: Pen, depth: nat)
    requires Accepted(y.c.plan) && ModuleValues(y.c.plan) <= env.Keys
    ensures Bound(WriteBase(y, room, base, v, env, pen, depth))
    decreases depth, 0, 0, 0
  {
    hide WriteMembers, Grows, Eval;
    if base.Named? && base.id in y.c.plan.structs && depth > 0 && v.Obj? {
      var s := y.c.plan.structs[base.id];
      assert StructAllowed(y.c.plan, s);
      var after := MembersAllowed(y.c.plan, s.members, ModuleValues(y.c.plan)).value;
      WriteMembersBound(y, room, s.members, v.fields, WithSizes(s, env), pen.(order := s.order), depth - 1, ModuleValues(y.c.plan));
      var b := WriteMembers(y, room, s.members, v.fields, WithSizes(s, env), pen.(order := s.order), depth - 1);
      if b.Ok? {
        RequirementsBound(y.c, s.requirements, after, b.value.env);
      }
    }
  }

  lemma {:induction false} WriteDimsBound(y: Sink, room: Room, base: Base, dims: seq<Dim>, v: Value, env: Env, pen: Pen, depth: nat, available: set<SymbolId>)
    requires Accepted(y.c.plan) && Ready(y.c.plan, available, env) && DimsAllowed(y.c.plan, dims, available)
    ensures Bound(WriteDims(y, room, base, dims, v, env, pen, depth))
    decreases depth, 0, 2 * |dims| + 1, 0
  {
    if dims == [] {
      WriteBaseBound(y, room, base, v, env, pen, depth);
    } else {
      ExtentsBound(y.c, dims, available, env, 1);
      if v.Arr? {
        WriteElemsBound(y, room, base, dims[1..], v.items, env, pen, depth, available);
      }
    }
  }

  lemma {:induction false} WriteElemsBound(y: Sink, room: Room, base: Base, dims: seq<Dim>, vs: seq<Value>, env: Env, pen: Pen, depth: nat, available: set<SymbolId>)
    requires Accepted(y.c.plan) && Ready(y.c.plan, available, env) && DimsAllowed(y.c.plan, dims, available)
    ensures Bound(WriteElems(y, room, base, dims, vs, env, pen, depth))
    decreases depth, 0, 2 * |dims| + 2, |vs|
  {
    if vs != [] {
      WriteDimsBound(y, room, base, dims, vs[0], env, pen, depth, available);
      var first := WriteDims(y, room, base, dims, vs[0], env, pen, depth);
      if first.Ok? {
        WriteElemsBound(y, room, base, dims, vs[1..], env, first.value.pen, depth, available);
      }
    }
  }

  lemma {:induction false} WriteSeqBound(y: Sink, room: Room, t: Type, vs: seq<Value>, start: nat, bound: Option<u64>, env: Env, pen: Pen, depth: nat)
    requires Accepted(y.c.plan) && ModuleValues(y.c.plan) <= env.Keys && t.maxPayload.Some?
    ensures Bound(WriteSeq(y, room, t, vs, start, bound, env, pen, depth))
    decreases depth, 0, 1, |vs|
  {
    hide WriteBase, Accepted, ModuleValues, Grows;
    if vs != [] {
      WriteBaseBound(y, room, t.base, vs[0], env, pen, depth);
      var first := WriteBase(y, room, t.base, vs[0], env, pen, depth);
      if first.Ok? {
        WriteSeqBound(y, room, t, vs[1..], start, bound, env, first.value.pen, depth);
      }
    }
  }

  lemma {:induction false} WriteSequenceFormBound(y: Sink, room: Room, t: Type, v: Value, bound: Option<u64>, env: Env, pen: Pen, depth: nat)
    requires Accepted(y.c.plan) && ModuleValues(y.c.plan) <= env.Keys && t.maxPayload.Some?
    ensures Bound(WriteSequenceForm(y, room, t, v, bound, env, pen, depth))
    decreases depth, 0, 2, 0
  {
    if v.Arr? {
      WriteSeqBound(y, Room(room.limit, InSequence), t, v.items, pen.p, bound, env, pen, depth);
    }
  }

  lemma {:induction false} WriteTypeBound(y: Sink, room: Room, t: Type, v: Value, bound: Option<u64>, env: Env, pen: Pen, depth: nat, available: set<SymbolId>)
    requires Accepted(y.c.plan) && Ready(y.c.plan, available, env) && DimsAllowed(y.c.plan, t.dims, available)
    ensures Bound(WriteType(y, room, t, v, bound, env, pen, depth))
    decreases depth, 0, 2 * |t.dims| + 3, 0
  {
    hide WriteDims, Eval, Grows, Accepted, ModuleValues;
    if t.IsTerminated() {
      assert WriteType(y, room, t, v, bound, env, pen, depth) == WriteTerminated(y, room, t, v, bound, env, pen, depth);
      if t.maxPayload.Some? {
        WriteSequenceFormBound(y, room, t, v, bound, env, pen, depth);
      }
    } else if t.base.IsText() {
      if t.dims != [] && t.dims[0].Fixed? {
        EvalBound(y.c, t.dims[0].e, available, env);
      }
    } else {
      WriteDimsBound(y, room, t.base, t.dims, v, env, pen, depth, available);
    }
  }

  lemma {:induction false} WriteBranchBound(y: Sink, room: Room, body: Branch, o: Fields, env: Env, pen: Pen, depth: nat, available: set<SymbolId>)
    requires Accepted(y.c.plan) && Ready(y.c.plan, available, env) && BranchAllowed(y.c.plan, body, available)
    ensures ExtendsBatch(WriteBranch(y, room, body, o, env, pen, depth), available)
    decreases depth, 1, body, 0
  {
    match body
    case Typed(t) =>
      if "value" in o {
        WriteTypeBound(y, room, t, o["value"], None, env, pen, depth, available);
      }
    case Listed(members) => WriteMembersBound(y, room, members, o, env, pen, depth, available);
  }

  lemma {:induction false} WriteAtBound(y: Sink, room: Room, op: Op, o: Fields, env: Env, pen: Pen, depth: nat, available: set<SymbolId>)
    requires op.At?
    requires Accepted(y.c.plan) && Ready(y.c.plan, available, env) && MemberAllowed(y.c.plan, op, available).Some?
    ensures ExtendsBatch(WriteAt(y, room, op, o, env, pen, depth), MemberAllowed(y.c.plan, op, available).value)
    decreases depth, 1, op, 0
  {
    hide WriteMembers, Eval, EvalSize, Grows, Accepted, ModuleValues, IsBuiltin;
    if pen.p <= U64_MAX {
      var inner := env[NEXT := U(pen.p)];
      SizeBound(y.c, op.staticOffset, op.offset, available, inner);
      var off := SizeOf(y.c, op.staticOffset, op.offset, inner);
      if off.Ok? {
        var d := if off.value > |pen.d| then pen.d + Zeros(off.value - |pen.d|) else pen.d;
        WriteMembersBound(y, room, op.members, o, env, Ink(d, off.value, pen.order), depth, available);
      }
    }
  }

  lemma {:induction false} WriteBlockBound(y: Sink, room: Room, op: Op, o: Fields, env: Env, pen: Pen, depth: nat, available: set<SymbolId>)
    requires op.Block?
    requires Accepted(y.c.plan) && Ready(y.c.plan, available, env) && MemberAllowed(y.c.plan, op, available).Some?
    ensures ExtendsBatch(WriteBlock(y, room, op, o, env, pen, depth), MemberAllowed(y.c.plan, op, available).value)
    decreases depth, 1, op, 0
  {
    hide WriteMembers, Eval, EvalSize, Fill, Grows, Accepted, ModuleValues, IsBuiltin;
    SizeBound(y.c, op.staticSize, op.size, available, env);
    var n := SizeOf(y.c, op.staticSize, op.size, env);
    if n.Ok? {
      WriteMembersBound(y, Room(pen.p + n.value, InBlock), op.members, o, env, pen, depth, available);
    }
  }

  lemma {:induction false} WriteChosenBound(y: Sink, room: Room, op: Op, o: Fields, env: Env, pen: Pen, depth: nat, available: set<SymbolId>)
    requires op.Conditional? || op.Variant?
    requires Accepted(y.c.plan) && Ready(y.c.plan, available, env) && MemberAllowed(y.c.plan, op, available).Some?
    ensures ExtendsBatch(WriteMember(y, room, op, o, env, pen, depth), MemberAllowed(y.c.plan, op, available).value)
    decreases depth, 1, op, 0
  {
    hide WriteMembers, WriteBranch, Eval, Grows, Accepted, ModuleValues, IsBuiltin;
    match op
    case Conditional(e, thenMembers, elseMembers) =>
      EvalBound(y.c, e, available, env);
      WriteMembersBound(y, room, thenMembers, o, env, pen, depth, available);
      WriteMembersBound(y, room, elseMembers, o, env, pen, depth, available);
    case Variant(name, e, cases, default) =>
      EvalBound(y.c, e, available, env);
      if name in o && o[name].Obj? && Eval(y.c.fp, e, env).Ok? {
        match ChooseCase(y.c.fp, cases, Eval(y.c.fp, e, env).value) {
          case Some(i) => WriteBranchBound(y, room, cases[i].body, o[name].fields, env, pen, depth, available);
          case None => if default.Some? { WriteBranchBound(y, room, default.value, o[name].fields, env, pen, depth, available); }
        }
      }
  }

  lemma {:induction false} WriteMemberBound(y: Sink, room: Room, op: Op, o: Fields, env: Env, pen: Pen, depth: nat, available: set<SymbolId>)
    requires Accepted(y.c.plan) && Ready(y.c.plan, available, env) && MemberAllowed(y.c.plan, op, available).Some?
    ensures ExtendsBatch(WriteMember(y, room, op, o, env, pen, depth), MemberAllowed(y.c.plan, op, available).value)
    decreases depth, 1, op, 1
  {
    hide WriteAt, WriteBlock, WriteVariant, WriteMembers, WriteType, WriteBitsFields, Eval, EvalSize, Accepted, ModuleValues, IsBuiltin, Grows;
    match op
    case Field(_, _, _, _, _, _) =>
      if FieldInput(op, o, env).Ok? {
        WriteTypeBound(y, room, op.ty, FieldInput(op, o, env).value, op.staticLength, env, pen.(order := op.order), depth, available);
      }
    case Virtual(_, _, e) => EvalBound(y.c, e, available, env);
    case Alias(_, _, _, _) =>
    case Bits(group) => WriteBitsFieldsBind(y, group, o, env);
    case Align(e, known) => SizeBound(y.c, known, e, available, env);
    case At(_, _, _) => WriteAtBound(y, room, op, o, env, pen, depth, available);
    case Block(_, _, _) => WriteBlockBound(y, room, op, o, env, pen, depth, available);
    case _ => WriteChosenBound(y, room, op, o, env, pen, depth, available);
  }

  lemma {:induction false} WriteOpsBound(y: Sink, room: Room, ops: seq<Op>, o: Fields, env: Env, pen: Pen, depth: nat, available: set<SymbolId>)
    requires Accepted(y.c.plan) && Ready(y.c.plan, available, env) && MembersAllowed(y.c.plan, ops, available).Some?
    ensures ExtendsBatch(WriteOps(y, room, ops, o, env, pen, depth), MembersAllowed(y.c.plan, ops, available).value)
    decreases depth, 1, ops, 0
  {
    if ops != [] {
      WriteMemberBound(y, room, ops[0], o, env, pen, depth, available);
      var b := WriteMember(y, room, ops[0], o, env, pen, depth);
      if b.Ok? {
        WriteOpsBound(y, room, ops[1..], o, b.value.env, b.value.pen, depth, MemberAllowed(y.c.plan, ops[0], available).value);
      }
    }
  }

  lemma {:induction false} WriteMembersBound(y: Sink, room: Room, ops: seq<Op>, o: Fields, env: Env, pen: Pen, depth: nat, available: set<SymbolId>)
    requires Accepted(y.c.plan) && Ready(y.c.plan, available, env) && MembersAllowed(y.c.plan, ops, available).Some?
    ensures ExtendsBatch(WriteMembers(y, room, ops, o, env, pen, depth), MembersAllowed(y.c.plan, ops, available).value)
    decreases depth, 1, ops, 1
  {
    BindAliasesBound(y.c, ops, o, env);
    if BindAliases(y.c, ops, o, env).Ok? {
      WriteOpsBound(y, room, ops, o, BindAliases(y.c, ops, o, env).value, pen, depth, available);
    }
  }

  /** The main theorem for the encoder. */
  lemma EncodeFindsEverySymbol(y: Sink, id: SymbolId, v: Value, parameters: Env)
    requires Accepted(y.c.plan)
    ensures Bound(EncodeStruct(y, id, v, parameters))
  {
    var env := InitialEnv(y.c.plan, parameters);
    if id in y.c.plan.structs && env.Ok? {
      WriteBaseBound(y, Room(U64_MAX, Root), Named(id), v, env.value, Ink([], 0, Little), y.c.options.maxRecursionDepth);
    }
  }
}
