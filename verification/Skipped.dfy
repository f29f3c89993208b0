/** Decode, then encode, without strict mode: on plans of a fragment the only tests that strict mode
    adds to a decode are about the input. A plain decode makes them exactly when the bits and bytes
    that it skips are zero, a block without slack is read to its end, and each static length is
    the number of bytes that its field took. */
module Skipped {
  import opened Outcome
  import opened Bytes
  import opened Expr
  import opened Plan
  import opened Terminator
  import opened Decode
  import opened Encode
  import opened Strict
  import opened Reproduce
  import opened Steady

  // ----- the fragment -----

  predicate TidyBranch(b: Branch, o: Option<Order>, ids: set<SymbolId>)
    decreases b
  {
    match b
    case Typed(t) => t.base.Named? ==> t.base.id in ids
    case Listed(members) => TidyOps(members, o, ids)
  }

  predicate TidyOp(op: Op, o: Option<Order>, ids: set<SymbolId>)
    decreases op
  {
    match op
    case Field(_, _, ty, order, _, _) => InOrder(order, o) && (ty.base.Named? ==> ty.base.id in ids)
    case Virtual(_, _, _) => true
    case Alias(_, _, _, _) => false
    case Bits(group) => SteadyGroup(group, o)
    case Align(_, _) => true
    case At(_, _, _) => false
    case Block(_, _, members) => TidyOps(members, o, ids)
    case Conditional(_, thenMembers, elseMembers) => TidyOps(thenMembers, o, ids) && TidyOps(elseMembers, o, ids)
    case Variant(_, _, cases, default) =>
      && (forall i :: 0 <= i < |cases| ==> TidyBranch(cases[i].body, o, ids))
      && (default.Some? ==> TidyBranch(default.value, o, ids))
  }

  predicate TidyOps(ops: seq<Op>, o: Option<Order>, ids: set<SymbolId>)
    decreases ops
  {
    ops == [] || (TidyOp(ops[0], o, ids) && Names(ops[0]) !! NamesOf(ops[1..]) && TidyOps(ops[1..], o, ids))
  }

  /** The structs of `ids` have distinct member names, no aliases, no `at`, and the byte order `o` or
      bits groups of one byte each, and they use no other structs. Types are as they are. */
  predicate TidyPlan(m: Module, o: Option<Order>, ids: set<SymbolId>) {
    forall id :: id in ids && id in m.structs ==> InOrder(m.structs[id].order, o) && TidyOps(m.structs[id].members, o, ids)
  }

  // ----- what a decode skips -----

  predicate CleanGroup(x: Source, w: Window, g: BitsGroup, at: Cursor) {
    var b := Take(x, w, at, StorageBytes(g));
    b.Ok? ==> PaddingIsZero(Unpack(b.value, at.order), PaddingBits(g))
  }

  predicate CleanAlign(x: Source, w: Window, e: Expr, known: Option<u64>, env: Env, at: Cursor) {
    var r := ReadAlign(x, w, e, known, env, at);
    r.Ok? && at.pos <= r.value.at.pos <= |x.d| ==> AllZero(x.d, at.pos, r.value.at.pos)
  }

  predicate CleanBase(x: Source, w: Window, base: Base, env: Env, at: Cursor, depth: nat)
    decreases depth, 0, 0, 0
  {
    base.Named? && base.id in x.c.plan.structs && depth > 0 ==>
      var s := x.c.plan.structs[base.id];
      CleanMembers(x, w, s.members, WithSizes(s, env), Cursor(at.pos, s.order), depth - 1)
  }

  predicate CleanDims(x: Source, w: Window, base: Base, dims: seq<Dim>, env: Env, at: Cursor, depth: nat)
    decreases depth, 0, 2 * |dims| + 1, 0
  {
    if dims == [] then CleanBase(x, w, base, env, at, depth)
    else
      var ns := ArrayExtents(x.c, dims, env);
      ns.Ok? ==> CleanElems(x, w, base, dims[1..], ns.value[0], env, at, depth)
  }

  predicate CleanElems(x: Source, w: Window, base: Base, dims: seq<Dim>, n: nat, env: Env, at: Cursor, depth: nat)
    decreases depth, 0, 2 * |dims| + 2, n
  {
    n == 0 ||
    (CleanDims(x, w, base, dims, env, at, depth) &&
     (var first := ReadDims(x, w, base, dims, env, at, depth);
      first.Ok? ==> CleanElems(x, w, base, dims, n - 1, env, first.value.at, depth)))
  }

  predicate CleanSeq(x: Source, w: Window, t: Type, last: nat, env: Env, at: Cursor, depth: nat)
    decreases depth, 0, 1, if at.pos <= last then last - at.pos else 0
  {
    var turn := SeqTurn(x, w, t, last, env, at, depth);
    turn.Ok? && turn.value.Some? ==>
      CleanBase(x, w, t.base, env, at, depth) && CleanSeq(x, w, t, last, env, turn.value.value.at, depth)
  }

  predicate CleanType(x: Source, w: Window, t: Type, env: Env, at: Cursor, depth: nat)
    decreases depth, 0, 2 * |t.dims| + 3, 0
  {
    if t.IsTerminated() then
      t.IsSequenceForm() && t.maxPayload.Some? && at.pos <= w.limit ==>
        CleanSeq(x, ScanWindow(w, t, at.pos), t, at.pos + t.maxPayload.value, env, at, depth)
    else t.base.IsText() || CleanDims(x, w, t.base, t.dims, env, at, depth)
  }

  predicate CleanField(x: Source, w: Window, op: Op, env: Env, at: Cursor, depth: nat)
    requires op.Field?
    decreases depth, 1, op, 0
  {
    var r := ReadType(x, w, op.ty, op.staticLength, env, Cursor(at.pos, op.order), depth);
    && CleanType(x, w, op.ty, env, Cursor(at.pos, op.order), depth)
    && (r.Ok? && op.staticLength.Some? ==> r.value.at.pos == at.pos + op.staticLength.value)
  }

  predicate CleanBlock(x: Source, w: Window, op: Op, env: Env, at: Cursor, depth: nat)
    requires op.Block?
    decreases depth, 1, op, 0
  {
    var n := SizeOf(x.c, op.staticSize, op.size, env);
    n.Ok? && at.pos + n.value <= w.limit ==>
      var end := at.pos + n.value;
      var g := ReadMembers(x, Within(end, w), op.members, env, at, depth);
      && CleanMembers(x, Within(end, w), op.members, env, at, depth)
      && (g.Ok? && g.value.at.pos <= end <= |x.d| ==>
            AllZero(x.d, g.value.at.pos, end) && (x.c.options.allowTrailingBlockBytes || g.value.at.pos == end))
  }

  predicate CleanBranch(x: Source, w: Window, b: Branch, env: Env, at: Cursor, depth: nat)
    decreases depth, 1, b, 0
  {
    match b
    case Typed(t) => CleanType(x, w, t, env, at, depth)
    case Listed(members) => CleanMembers(x, w, members, env, at, depth)
  }

  predicate CleanMember(x: Source, w: Window, op: Op, env: Env, at: Cursor, depth: nat)
    decreases depth, 1, op, 1
  {
    match op
    case Field(_, _, _, _, _, _) => CleanField(x, w, op, env, at, depth)
    case Bits(group) => CleanGroup(x, w, group, at)
    case Align(e, known) => CleanAlign(x, w, e, known, env, at)
    case Block(_, _, _) => CleanBlock(x, w, op, env, at, depth)
    case Conditional(e, thenMembers, elseMembers) =>
      var b := EvalBool(x.c.fp, e, env);
      b.Ok? ==> CleanMembers(x, w, if b.value then thenMembers else elseMembers, env, at, depth)
    case Variant(_, e, cases, default) =>
      var tag := Eval(x.c.fp, e, env);
      tag.Ok? ==>
        (match ChooseCase(x.c.fp, cases, tag.value)
         case Some(i) => CleanBranch(x, w, cases[i].body, env, at, depth)
         case None => default.Some? ==> CleanBranch(x, w, default.value, env, at, depth))
    case _ => true
  }

  /** In a run over these members the skipped bits and bytes are zero, and so on. */
  predicate CleanMembers(x: Source, w: Window, ops: seq<Op>, env: Env, at: Cursor, depth: nat)
    decreases depth, 1, ops, 0
  {
    ops == [] ||
    (CleanMember(x, w, ops[0], env, at, depth) &&
     (var g := ReadMember(x, w, ops[0], env, at, depth);
      g.Ok? ==> CleanMembers(x, w, ops[1..], g.value.env, g.value.at, depth)))
  }

  predicate CleanDecode(x: Source, id: SymbolId, parameters: Env) {
    var env := InitialEnv(x.c.plan, parameters);
    env.Ok? ==> CleanBase(x, Whole(|x.d|), Named(id), env.value, Cursor(0, Little), x.c.options.maxRecursionDepth)
  }

  // ----- names -----

  lemma {:induction false} GroupReadsItsNames(x: Source, fs: seq<BitsField>, container: nat, env: Env)
    requires TotalBits(fs) <= 64 && ReadBitsFields(x, fs, container, env).Ok?
    ensures ReadBitsFields(x, fs, container, env).value.1.Keys == GroupNames(fs)
  {
    hide BitsOf;
    if fs != [] {
      GroupReadsItsNames(x, fs[1..], container, env[fs[0].symbol := U(BitsOf(container, TotalBits(fs[1..]), fs[0].bits))]);
    }
  }

  lemma {:induction false} MemberReadsItsNames(x: Source, w: Window, op: Op, env: Env, at: Cursor, depth: nat)
    requires ReadMember(x, w, op, env, at, depth).Ok?
    ensures ReadMember(x, w, op, env, at, depth).value.fields.Keys <= Names(op)
    decreases op, 0
  {
    hide ReadType, ReadMembers, ReadBranch, ReadBitsFields, Eval, EvalSize, AlignUp, AllZero, NamesOf;
    match op
    case Bits(group) =>
      var raw := Unpack(Take(x, w, at, StorageBytes(group)).value, at.order);
      GroupReadsItsNames(x, group, Unpadded(raw, PaddingBits(group)), env);
    case At(e, known, members) =>
      var off := SizeOf(x.c, known, e, env[NEXT := U(at.pos)]).value;
      MembersReadTheirNames(x, w, members, env, Cursor(off, at.order), depth);
    case Block(e, known, members) =>
      MembersReadTheirNames(x, Within(at.pos + SizeOf(x.c, known, e, env).value, w), members, env, at, depth);
    case Conditional(e, thenMembers, elseMembers) =>
      MembersReadTheirNames(x, w, if EvalBool(x.c.fp, e, env).value then thenMembers else elseMembers, env, at, depth);
    case _ =>
  }

  lemma {:induction false} MembersReadTheirNames(x: Source, w: Window, ops: seq<Op>, env: Env, at: Cursor, depth: nat)
    requires ReadMembers(x, w, ops, env, at, depth).Ok?
    ensures ReadMembers(x, w, ops, env, at, depth).value.fields.Keys <= NamesOf(ops)
    decreases ops, 0
  {
    hide ReadMember, Names;
    if ops != [] {
      MemberReadsItsNames(x, w, ops[0], env, at, depth);
      var g := ReadMember(x, w, ops[0], env, at, depth).value;
      MembersReadTheirNames(x, w, ops[1..], g.env, g.at, depth);
    }
  }

  // ----- a clean run is a strict run -----

  /** The setting of every lemma here. */
  predicate Beside(x: Source, w: Window, at: Cursor, o: Option<Order>, ids: set<SymbolId>) {
    !x.strict && TidyPlan(x.c.plan, o, ids) && InOrder(at.order, o) && at.pos <= w.limit <= |x.d|
  }

  function Strictly(x: Source): Source {
    x.(strict := true)
  }

  /** A result that strict mode gives as well exactly when `clean` holds. */
  predicate Same<T(==)>(plain: Result<T>, strict: Result<T>, clean: bool) {
    if clean then strict == plain else strict.Fail?
  }

  lemma {:induction false} FieldsAreStrict(x: Source, fs: seq<BitsField>, container: nat, env: Env, o: Order)
    requires !x.strict && TotalBits(fs) <= 64 && OneOrder(fs, o) && ReadBitsFields(x, fs, container, env).Ok?
    ensures ReadBitsFields(Strictly(x), fs, container, env) == ReadBitsFields(x, fs, container, env)
  {
    hide BitsOf, GroupNames;
    if fs != [] {
      var next := env[fs[0].symbol := U(BitsOf(container, TotalBits(fs[1..]), fs[0].bits))];
      FieldsAreStrict(x, fs[1..], container, next, o);
      GroupReadsItsNames(x, fs[1..], container, next);
      NotAmong(fs[1..], fs[0].name);
    }
  }

  lemma GroupWhen(x: Source, w: Window, group: BitsGroup, env: Env, at: Cursor, o: Option<Order>, ids: set<SymbolId>)
    requires Beside(x, w, at, o, ids) && SteadyGroup(group, o) && ReadBits(x, w, group, env, at).Ok?
    ensures Same(ReadBits(x, w, group, env, at), ReadBits(Strictly(x), w, group, env, at), CleanGroup(x, w, group, at))
    ensures InOrder(ReadBits(x, w, group, env, at).value.at.order, o)
  {
    hide ReadBitsFields, Unpadded, PaddingIsZero, TidyPlan;
    var raw := Unpack(Take(x, w, at, StorageBytes(group)).value, at.order);
    GroupOrder(group, group[0].order);
    assert Take(Strictly(x), w, at, StorageBytes(group)) == Take(x, w, at, StorageBytes(group));
    FieldsAreStrict(x, group, Unpadded(raw, PaddingBits(group)), env, group[0].order);
  }

  lemma {:induction false} BaseWhen(x: Source, w: Window, base: Base, env: Env, at: Cursor, depth: nat, o: Option<Order>, ids: set<SymbolId>)
    requires Beside(x, w, at, o, ids) && (base.Named? ==> base.id in ids) && ReadBase(x, w, base, env, at, depth).Ok?
    ensures Same(ReadBase(x, w, base, env, at, depth), ReadBase(Strictly(x), w, base, env, at, depth), CleanBase(x, w, base, env, at, depth))
    ensures InOrder(ReadBase(x, w, base, env, at, depth).value.at.order, o)
    decreases depth, 0, 0, 0
  {
    hide ReadMembers, CleanMembers, TidyOps, WithSizes;
    if base.Named? && base.id in x.c.plan.structs {
      var s := x.c.plan.structs[base.id];
      assert ReadStruct(x, w, s, env, at, depth - 1).Ok?;
      MembersWhen(x, w, s.members, WithSizes(s, env), Cursor(at.pos, s.order), depth - 1, o, ids);
    }
  }

  lemma {:induction false} DimsWhen(x: Source, w: Window, base: Base, dims: seq<Dim>, env: Env, at: Cursor, depth: nat, o: Option<Order>, ids: set<SymbolId>)
    requires Beside(x, w, at, o, ids) && (base.Named? ==> base.id in ids) && ReadDims(x, w, base, dims, env, at, depth).Ok?
    ensures Same(ReadDims(x, w, base, dims, env, at, depth), ReadDims(Strictly(x), w, base, dims, env, at, depth), CleanDims(x, w, base, dims, env, at, depth))
    ensures InOrder(ReadDims(x, w, base, dims, env, at, depth).value.at.order, o)
    decreases depth, 0, 2 * |dims| + 1, 0
  {
    hide ReadBase, ReadElems, CleanBase, CleanElems, TidyPlan, Extents, Product;
    if dims == [] {
      BaseWhen(x, w, base, env, at, depth, o, ids);
    } else {
      ElemsWhen(x, w, base, dims[1..], ArrayExtents(x.c, dims, env).value[0], env, at, depth, o, ids);
    }
  }

  lemma {:induction false} ElemsWhen(x: Source, w: Window, base: Base, dims: seq<Dim>, n: nat, env: Env, at: Cursor, depth: nat, o: Option<Order>, ids: set<SymbolId>)
    requires Beside(x, w, at, o, ids) && (base.Named? ==> base.id in ids) && ReadElems(x, w, base, dims, n, env, at, depth).Ok?
    ensures Same(ReadElems(x, w, base, dims, n, env, at, depth), ReadElems(Strictly(x), w, base, dims, n, env, at, depth), CleanElems(x, w, base, dims, n, env, at, depth))
    ensures InOrder(ReadElems(x, w, base, dims, n, env, at, depth).value.at.order, o)
    decreases depth, 0, 2 * |dims| + 2, n
  {
    hide ReadDims, CleanDims, TidyPlan;
    if n > 0 {
      var first := ReadDims(x, w, base, dims, env, at, depth).value;
      DimsWhen(x, w, base, dims, env, at, depth, o, ids);
      ElemsWhen(x, w, base, dims, n - 1, env, first.at, depth, o, ids);
    }
  }

  lemma {:induction false} SeqWhen(x: Source, w: Window, t: Type, last: nat, env: Env, at: Cursor, depth: nat, o: Option<Order>, ids: set<SymbolId>)
    requires Beside(x, w, at, o, ids) && (t.base.Named? ==> t.base.id in ids) && ReadSeq(x, w, t, last, env, at, depth).Ok?
    ensures Same(ReadSeq(x, w, t, last, env, at, depth), ReadSeq(Strictly(x), w, t, last, env, at, depth), CleanSeq(x, w, t, last, env, at, depth))
    ensures InOrder(ReadSeq(x, w, t, last, env, at, depth).value.at.order, o)
    decreases depth, 0, 1, if at.pos <= last then last - at.pos else 0
  {
    hide ReadBase, CleanBase, TidyPlan;
    if SeqTurn(x, w, t, last, env, at, depth).value.Some? {
      var first := ReadBase(x, w, t.base, env, at, depth).value;
      BaseWhen(x, w, t.base, env, at, depth, o, ids);
      SeqWhen(x, w, t, last, env, first.at, depth, o, ids);
    }
  }

  lemma {:induction false} TerminatedWhen(x: Source, w: Window, t: Type, env: Env, at: Cursor, depth: nat, o: Option<Order>, ids: set<SymbolId>)
    requires Beside(x, w, at, o, ids) && t.IsTerminated() && (t.base.Named? ==> t.base.id in ids) && ReadTerminated(x, w, t, env, at, depth).Ok?
    ensures Same(ReadTerminated(x, w, t, env, at, depth), ReadTerminated(Strictly(x), w, t, env, at, depth), CleanType(x, w, t, env, at, depth))
    ensures InOrder(ReadTerminated(x, w, t, env, at, depth).value.at.order, o)
    decreases depth, 0, 2, 1
  {
    hide ReadSeq, CleanSeq, TidyPlan, First;
    if !t.IsByteForm() {
      assert ReadSequenceForm(x, w, t, env, at, depth).Ok?;
      assert ReadSequenceForm(Strictly(x), w, t, env, at, depth) == ReadTerminated(Strictly(x), w, t, env, at, depth);
      SeqWhen(x, ScanWindow(w, t, at.pos), t, at.pos + t.maxPayload.value, env, at, depth, o, ids);
    }
  }

  lemma {:induction false} TypeWhen(x: Source, w: Window, t: Type, bound: Option<u64>, env: Env, at: Cursor, depth: nat, o: Option<Order>, ids: set<SymbolId>)
    requires Beside(x, w, at, o, ids) && (t.base.Named? ==> t.base.id in ids) && ReadType(x, w, t, bound, env, at, depth).Ok?
    ensures Same(ReadType(x, w, t, bound, env, at, depth), ReadType(Strictly(x), w, t, bound, env, at, depth), CleanType(x, w, t, env, at, depth))
    ensures InOrder(ReadType(x, w, t, bound, env, at, depth).value.at.order, o)
    decreases depth, 0, 2 * |t.dims| + 3, 0
  {
    hide ReadTerminated, ReadDims, CleanDims, CleanSeq, TidyPlan;
    if t.IsTerminated() {
      TerminatedWhen(x, w, t, env, at, depth, o, ids);
    } else if t.base.IsText() {
      PlainReadText(Strictly(x), w, t, bound, env, at);
      assert PlainSource(Strictly(x)) == x;
    } else {
      DimsWhen(x, w, t.base, t.dims, env, at, depth, o, ids);
    }
  }

  lemma {:induction false} FieldWhen(x: Source, w: Window, op: Op, env: Env, at: Cursor, depth: nat, o: Option<Order>, ids: set<SymbolId>)
    requires Beside(x, w, at, o, ids) && op.Field? && TidyOp(op, o, ids) && ReadField(x, w, op, env, at, depth).Ok?
    ensures Same(ReadField(x, w, op, env, at, depth), ReadField(Strictly(x), w, op, env, at, depth), CleanField(x, w, op, env, at, depth))
    ensures InOrder(ReadField(x, w, op, env, at, depth).value.at.order, o)
    decreases depth, 1, op, 0
  {
    hide ReadType, CleanType, TidyPlan, Matches;
    TypeWhen(x, w, op.ty, op.staticLength, env, Cursor(at.pos, op.order), depth, o, ids);
  }

  lemma {:induction false} BlockWhen(x: Source, w: Window, op: Op, env: Env, at: Cursor, depth: nat, o: Option<Order>, ids: set<SymbolId>)
    requires Beside(x, w, at, o, ids) && op.Block? && TidyOp(op, o, ids) && ReadBlock(x, w, op, env, at, depth).Ok?
    ensures Same(ReadBlock(x, w, op, env, at, depth), ReadBlock(Strictly(x), w, op, env, at, depth), CleanBlock(x, w, op, env, at, depth))
    ensures InOrder(ReadBlock(x, w, op, env, at, depth).value.at.order, o)
    decreases depth, 1, op, 0
  {
    hide ReadMembers, CleanMembers, TidyPlan, TidyOps, AllZero, Eval, EvalSize;
    var end := at.pos + SizeOf(x.c, op.staticSize, op.size, env).value;
    MembersWhen(x, Within(end, w), op.members, env, at, depth, o, ids);
  }

  lemma {:induction false} BranchWhen(x: Source, w: Window, b: Branch, env: Env, at: Cursor, depth: nat, o: Option<Order>, ids: set<SymbolId>)
    requires Beside(x, w, at, o, ids) && TidyBranch(b, o, ids) && ReadBranch(x, w, b, env, at, depth).Ok?
    ensures Same(ReadBranch(x, w, b, env, at, depth), ReadBranch(Strictly(x), w, b, env, at, depth), CleanBranch(x, w, b, env, at, depth))
    ensures InOrder(ReadBranch(x, w, b, env, at, depth).value.at.order, o)
    decreases depth, 1, b, 0
  {
    hide ReadType, ReadMembers, CleanType, CleanMembers, TidyPlan, TidyOps;
    match b
    case Typed(t) => TypeWhen(x, w, t, None, env, at, depth, o, ids);
    case Listed(members) => MembersWhen(x, w, members, env, at, depth, o, ids);
  }

  lemma {:induction false} MemberWhen(x: Source, w: Window, op: Op, env: Env, at: Cursor, depth: nat, o: Option<Order>, ids: set<SymbolId>)
    requires Beside(x, w, at, o, ids) && TidyOp(op, o, ids) && ReadMember(x, w, op, env, at, depth).Ok?
    ensures Same(ReadMember(x, w, op, env, at, depth), ReadMember(Strictly(x), w, op, env, at, depth), CleanMember(x, w, op, env, at, depth))
    ensures InOrder(ReadMember(x, w, op, env, at, depth).value.at.order, o)
    decreases depth, 1, op, 1
  {
    hide ReadField, ReadBits, ReadBlock, ReadBranch, ReadMembers, CleanField, CleanGroup, CleanBlock, CleanBranch, CleanMembers, TidyPlan, TidyOps, TidyBranch, AllZero, Eval;
    match op
    case Field(_, _, _, _, _, _) => FieldWhen(x, w, op, env, at, depth, o, ids);
    case Bits(group) => GroupWhen(x, w, group, env, at, o, ids);
    case Block(_, _, _) => BlockWhen(x, w, op, env, at, depth, o, ids);
    case Conditional(e, thenMembers, elseMembers) =>
      MembersWhen(x, w, if EvalBool(x.c.fp, e, env).value then thenMembers else elseMembers, env, at, depth, o, ids);
    case Variant(_, e, cases, default) =>
      assert ReadVariant(x, w, op, env, at, depth).Ok?;
      assert ReadMember(Strictly(x), w, op, env, at, depth) == ReadVariant(Strictly(x), w, op, env, at, depth);
      match ChooseCase(x.c.fp, cases, Eval(x.c.fp, e, env).value) {
        case Some(i) => BranchWhen(x, w, cases[i].body, env, at, depth, o, ids);
        case None => BranchWhen(x, w, default.value, env, at, depth, o, ids);
      }
    case _ =>
  }

  lemma {:induction false} MembersWhen(x: Source, w: Window, ops: seq<Op>, env: Env, at: Cursor, depth: nat, o: Option<Order>, ids: set<SymbolId>)
    requires Beside(x, w, at, o, ids) && TidyOps(ops, o, ids) && ReadMembers(x, w, ops, env, at, depth).Ok?
    ensures Same(ReadMembers(x, w, ops, env, at, depth), ReadMembers(Strictly(x), w, ops, env, at, depth), CleanMembers(x, w, ops, env, at, depth))
    ensures InOrder(ReadMembers(x, w, ops, env, at, depth).value.at.order, o)
    decreases depth, 1, ops, 0
  {
    hide ReadMember, CleanMember, TidyPlan, TidyOp, Names, NamesOf;
    if ops != [] {
      var g := ReadMember(x, w, ops[0], env, at, depth).value;
      MemberWhen(x, w, ops[0], env, at, depth, o, ids);
      MembersWhen(x, w, ops[1..], g.env, g.at, depth, o, ids);
      MemberReadsItsNames(x, w, ops[0], env, at, depth);
      MembersReadTheirNames(x, w, ops[1..], g.env, g.at, depth);
    }
  }

  /** On a plan of the fragment a plain decode makes the tests of strict mode exactly when its run is
      clean. */
  lemma StrictWhenClean(c: Context, id: SymbolId, d: seq<byte>, parameters: Env, o: Option<Order>, ids: set<SymbolId>)
    requires id in ids && TidyPlan(c.plan, o, ids) && DecodeStruct(Source(c, d, false), id, parameters).Ok?
    ensures Same(DecodeStruct(Source(c, d, false), id, parameters), DecodeStruct(Source(c, d, true), id, parameters),
                 CleanDecode(Source(c, d, false), id, parameters))
  {
    hide ReadMembers, CleanMembers, TidyOps;
    var x := Source(c, d, false);
    var s := c.plan.structs[id];
    var env := InitialEnv(c.plan, parameters).value;
    var depth := c.options.maxRecursionDepth;
    assert Strictly(x) == Source(c, d, true);
    assert ReadStruct(x, Whole(|d|), s, env, Cursor(0, Little), depth - 1) == DecodeStruct(x, id, parameters);
    assert ReadStruct(Strictly(x), Whole(|d|), s, env, Cursor(0, Little), depth - 1) == DecodeStruct(Strictly(x), id, parameters);
    assert CleanDecode(x, id, parameters) == CleanMembers(x, Whole(|d|), s.members, WithSizes(s, env), Cursor(0, s.order), depth - 1);
    MembersWhen(x, Whole(|d|), s.members, WithSizes(s, env), Cursor(0, s.order), depth - 1, o, ids);
  }

  /** Decode, then encode, is the identity on the consumed bytes of every clean decode: the tests are
      about the input alone, and strict mode does not occur. */
  lemma CleanDecodeThenEncode(c: Context, id: SymbolId, d: seq<byte>, parameters: Env, o: Option<Order>, ids: set<SymbolId>)
    requires |d| <= U64_MAX && id in ids && TidyPlan(c.plan, o, ids)
    requires DecodeStruct(Source(c, d, false), id, parameters).Ok? && CleanDecode(Source(c, d, false), id, parameters)
    ensures var r := DecodeStruct(Source(c, d, false), id, parameters).value;
            EncodeStruct(Sink(c, false), id, r.v, parameters) == Ok(Written(Ink(d[..r.at.pos], r.at.pos, r.at.order), r.v))
  {
    hide DecodeStruct, CleanDecode, EncodeStruct, TidyPlan;
    StrictWhenClean(c, id, d, parameters, o, ids);
    DecodeThenEncode(c, id, d, parameters);
  }
}
