/** Strictness only refuses: where a strict run succeeds, the codec as it is gives the same. */
module Strict {
  import opened Outcome
  import opened Bytes
  import opened Expr
  import opened Plan
  import opened Decode
  import opened Encode

  function Plain(y: Sink): Sink {
    y.(strict := false)
  }

  function PlainSource(x: Source): Source {
    x.(strict := false)
  }

  // ----- encoder -----

  lemma {:induction false} PlainWriteBitsFields(y: Sink, fs: seq<BitsField>, o: Fields, env: Env)
    requires TotalBits(fs) <= 64
    requires WriteBitsFields(y, fs, o, env).Ok?
    ensures WriteBitsFields(Plain(y), fs, o, env) == WriteBitsFields(y, fs, o, env)
  {
    if fs != [] {
      PlainWriteBitsFields(y, fs[1..], o, env[fs[0].symbol := U(AsU64(o[fs[0].name]).value)]);
    }
  }

  lemma {:induction false} PlainWriteBase(y: Sink, room: Room, base: Base, v: Value, env: Env, pen: Pen, depth: nat)
    requires WriteBase(y, room, base, v, env, pen, depth).Ok?
    ensures WriteBase(Plain(y), room, base, v, env, pen, depth) == WriteBase(y, room, base, v, env, pen, depth)
    decreases depth, 0, 0, 0
  {
    if base.Named? && base.id in y.c.plan.structs {
      var s := y.c.plan.structs[base.id];
      PlainWriteMembers(y, room, s.members, v.fields, WithSizes(s, env), pen.(order := s.order), depth - 1);
    }
  }

  lemma {:induction false} PlainWriteDims(y: Sink, room: Room, base: Base, dims: seq<Dim>, v: Value, env: Env, pen: Pen, depth: nat)
    requires WriteDims(y, room, base, dims, v, env, pen, depth).Ok?
    ensures WriteDims(Plain(y), room, base, dims, v, env, pen, depth) == WriteDims(y, room, base, dims, v, env, pen, depth)
    decreases depth, 0, 2 * |dims| + 1, 0
  {
    if dims == [] {
      PlainWriteBase(y, room, base, v, env, pen, depth);
    } else {
      PlainWriteElems(y, room, base, dims[1..], v.items, env, pen, depth);
    }
  }

  lemma {:induction false} PlainWriteElems(y: Sink, room: Room, base: Base, dims: seq<Dim>, vs: seq<Value>, env: Env, pen: Pen, depth: nat)
    requires WriteElems(y, room, base, dims, vs, env, pen, depth).Ok?
    ensures WriteElems(Plain(y), room, base, dims, vs, env, pen, depth) == WriteElems(y, room, base, dims, vs, env, pen, depth)
    decreases depth, 0, 2 * |dims| + 2, |vs|
  {
    if vs != [] {
      PlainWriteDims(y, room, base, dims, vs[0], env, pen, depth);
      var first := WriteDims(y, room, base, dims, vs[0], env, pen, depth).value;
      PlainWriteElems(y, room, base, dims, vs[1..], env, first.pen, depth);
    }
  }

  lemma {:induction false} PlainWriteSeq(y: Sink, room: Room, t: Type, vs: seq<Value>, start: nat, bound: Option<u64>, env: Env, pen: Pen, depth: nat)
    requires t.maxPayload.Some?
    requires WriteSeq(y, room, t, vs, start, bound, env, pen, depth).Ok?
    ensures WriteSeq(Plain(y), room, t, vs, start, bound, env, pen, depth) == WriteSeq(y, room, t, vs, start, bound, env, pen, depth)
    decreases depth, 0, 1, |vs|
  {
    if vs != [] {
      PlainWriteBase(y, room, t.base, vs[0], env, pen, depth);
      var first := WriteBase(y, room, t.base, vs[0], env, pen, depth).value;
      PlainWriteSeq(y, room, t, vs[1..], start, bound, env, first.pen, depth);
    }
  }

  lemma {:induction false} PlainWriteTerminated(y: Sink, room: Room, t: Type, v: Value, bound: Option<u64>, env: Env, pen: Pen, depth: nat)
    requires WriteTerminated(y, room, t, v, bound, env, pen, depth).Ok?
    ensures WriteTerminated(Plain(y), room, t, v, bound, env, pen, depth) == WriteTerminated(y, room, t, v, bound, env, pen, depth)
    decreases depth, 0, 2, 1
  {
    if !t.IsByteForm() {
      PlainWriteSequenceForm(y, room, t, v, bound, env, pen, depth);
    }
  }

  lemma {:induction false} PlainWriteSequenceForm(y: Sink, room: Room, t: Type, v: Value, bound: Option<u64>, env: Env, pen: Pen, depth: nat)
    requires t.maxPayload.Some?
    requires WriteSequenceForm(y, room, t, v, bound, env, pen, depth).Ok?
    ensures WriteSequenceForm(Plain(y), room, t, v, bound, env, pen, depth) == WriteSequenceForm(y, room, t, v, bound, env, pen, depth)
    decreases depth, 0, 2, 0
  {
    PlainWriteSeq(y, Room(room.limit, InSequence), t, v.items, pen.p, bound, env, pen, depth);
  }

  lemma {:induction false} PlainWriteType(y: Sink, room: Room, t: Type, v: Value, bound: Option<u64>, env: Env, pen: Pen, depth: nat)
    requires WriteType(y, room, t, v, bound, env, pen, depth).Ok?
    ensures WriteType(Plain(y), room, t, v, bound, env, pen, depth) == WriteType(y, room, t, v, bound, env, pen, depth)
    decreases depth, 0, 2 * |t.dims| + 3, 0
  {
    if t.IsTerminated() {
      PlainWriteTerminated(y, room, t, v, bound, env, pen, depth);
    } else if !t.base.IsText() {
      PlainWriteDims(y, room, t.base, t.dims, v, env, pen, depth);
    }
  }

  lemma {:induction false} PlainWriteBranch(y: Sink, room: Room, body: Branch, o: Fields, env: Env, pen: Pen, depth: nat)
    requires WriteBranch(y, room, body, o, env, pen, depth).Ok?
    ensures WriteBranch(Plain(y), room, body, o, env, pen, depth) == WriteBranch(y, room, body, o, env, pen, depth)
    decreases depth, 1, body, 0
  {
    match body
    case Typed(t) => PlainWriteType(y, room, t, o["value"], None, env, pen, depth);
    case Listed(members) => PlainWriteMembers(y, room, members, o, env, pen, depth);
  }

  lemma {:induction false} PlainWriteMember(y: Sink, room: Room, op: Op, o: Fields, env: Env, pen: Pen, depth: nat)
    requires WriteMember(y, room, op, o, env, pen, depth).Ok?
    ensures WriteMember(Plain(y), room, op, o, env, pen, depth) == WriteMember(y, room, op, o, env, pen, depth)
    decreases depth, 1, op, 1
  {
    match op
    case Field(_, _, _, _, _, _) => PlainWriteField(y, room, op, o, env, pen, depth);
    case Bits(group) => PlainWriteBitsFields(y, group, o, env);
    case At(_, _, _) => PlainWriteAt(y, room, op, o, env, pen, depth);
    case Block(_, _, _) => PlainWriteBlock(y, room, op, o, env, pen, depth);
    case Conditional(condition, thenMembers, elseMembers) =>
      PlainWriteMembers(y, room, if EvalBool(y.c.fp, condition, env).value then thenMembers else elseMembers, o, env, pen, depth);
    case Variant(_, _, _, _) => PlainWriteVariant(y, room, op, o, env, pen, depth);
    case _ =>
  }

  lemma {:induction false} PlainWriteField(y: Sink, room: Room, op: Op, o: Fields, env: Env, pen: Pen, depth: nat)
    requires op.Field?
    requires WriteField(y, room, op, o, env, pen, depth).Ok?
    ensures WriteField(Plain(y), room, op, o, env, pen, depth) == WriteField(y, room, op, o, env, pen, depth)
    decreases depth, 1, op, 0
  {
    PlainWriteType(y, room, op.ty, FieldInput(op, o, env).value, op.staticLength, env, pen.(order := op.order), depth);
  }

  lemma {:induction false} PlainWriteBlock(y: Sink, room: Room, op: Op, o: Fields, env: Env, pen: Pen, depth: nat)
    requires op.Block?
    requires WriteBlock(y, room, op, o, env, pen, depth).Ok?
    ensures WriteBlock(Plain(y), room, op, o, env, pen, depth) == WriteBlock(y, room, op, o, env, pen, depth)
    decreases depth, 1, op, 0
  {
    var end := pen.p + SizeOf(y.c, op.staticSize, op.size, env).value;
    PlainWriteMembers(y, Room(end, InBlock), op.members, o, env, pen, depth);
  }

  lemma {:induction false} PlainWriteAt(y: Sink, room: Room, op: Op, o: Fields, env: Env, pen: Pen, depth: nat)
    requires op.At?
    requires WriteAt(y, room, op, o, env, pen, depth).Ok?
    ensures WriteAt(Plain(y), room, op, o, env, pen, depth) == WriteAt(y, room, op, o, env, pen, depth)
  {
    assert Plain(y) == y;
  }

  lemma {:induction false} PlainWriteVariant(y: Sink, room: Room, op: Op, o: Fields, env: Env, pen: Pen, depth: nat)
    requires op.Variant?
    requires WriteVariant(y, room, op, o, env, pen, depth).Ok?
    ensures WriteVariant(Plain(y), room, op, o, env, pen, depth) == WriteVariant(y, room, op, o, env, pen, depth)
    decreases depth, 1, op, 0
  {
    match ChooseCase(y.c.fp, op.cases, Eval(y.c.fp, op.discriminator, env).value)
    case Some(i) => PlainWriteBranch(y, room, op.cases[i].body, o[op.name].fields, env, pen, depth);
    case None => PlainWriteBranch(y, room, op.default.value, o[op.name].fields, env, pen, depth);
  }

  lemma {:induction false} PlainWriteOps(y: Sink, room: Room, ops: seq<Op>, o: Fields, env: Env, pen: Pen, depth: nat)
    requires WriteOps(y, room, ops, o, env, pen, depth).Ok?
    ensures WriteOps(Plain(y), room, ops, o, env, pen, depth) == WriteOps(y, room, ops, o, env, pen, depth)
    decreases depth, 1, ops, 0
  {
    if ops != [] {
      PlainWriteMember(y, room, ops[0], o, env, pen, depth);
      var b := WriteMember(y, room, ops[0], o, env, pen, depth).value;
      PlainWriteOps(y, room, ops[1..], o, b.env, b.pen, depth);
    }
  }

  lemma {:induction false} PlainWriteMembers(y: Sink, room: Room, ops: seq<Op>, o: Fields, env: Env, pen: Pen, depth: nat)
    requires WriteMembers(y, room, ops, o, env, pen, depth).Ok?
    ensures WriteMembers(Plain(y), room, ops, o, env, pen, depth) == WriteMembers(y, room, ops, o, env, pen, depth)
    decreases depth, 1, ops, 1
  {
    PlainWriteOps(y, room, ops, o, BindAliases(y.c, ops, o, env).value, pen, depth);
  }

  // ----- decoder -----

  lemma {:induction false} PlainReadBitsFields(x: Source, fs: seq<BitsField>, container: nat, env: Env)
    requires TotalBits(fs) <= 64
    requires ReadBitsFields(x, fs, container, env).Ok?
    ensures ReadBitsFields(PlainSource(x), fs, container, env) == ReadBitsFields(x, fs, container, env)
  {
    if fs != [] {
      var v := BitsOf(container, TotalBits(fs[1..]), fs[0].bits);
      PlainReadBitsFields(x, fs[1..], container, env[fs[0].symbol := U(v)]);
    }
  }

  lemma {:induction false} PlainReadBase(x: Source, w: Window, base: Base, env: Env, at: Cursor, depth: nat)
    requires ReadBase(x, w, base, env, at, depth).Ok?
    ensures ReadBase(PlainSource(x), w, base, env, at, depth) == ReadBase(x, w, base, env, at, depth)
    decreases depth, 0, 0, 0
  {
    if base.Named? && base.id in x.c.plan.structs {
      var s := x.c.plan.structs[base.id];
      PlainReadMembers(x, w, s.members, WithSizes(s, env), Cursor(at.pos, s.order), depth - 1);
    }
  }

  lemma {:induction false} PlainReadDims(x: Source, w: Window, base: Base, dims: seq<Dim>, env: Env, at: Cursor, depth: nat)
    requires ReadDims(x, w, base, dims, env, at, depth).Ok?
    ensures ReadDims(PlainSource(x), w, base, dims, env, at, depth) == ReadDims(x, w, base, dims, env, at, depth)
    decreases depth, 0, 2 * |dims| + 1, 0
  {
    if dims == [] {
      PlainReadBase(x, w, base, env, at, depth);
    } else {
      PlainReadElems(x, w, base, dims[1..], ArrayExtents(x.c, dims, env).value[0], env, at, depth);
    }
  }

  lemma {:induction false} PlainReadElems(x: Source, w: Window, base: Base, dims: seq<Dim>, n: nat, env: Env, at: Cursor, depth: nat)
    requires ReadElems(x, w, base, dims, n, env, at, depth).Ok?
    ensures ReadElems(PlainSource(x), w, base, dims, n, env, at, depth) == ReadElems(x, w, base, dims, n, env, at, depth)
    decreases depth, 0, 2 * |dims| + 2, n
  {
    if n > 0 {
      PlainReadDims(x, w, base, dims, env, at, depth);
      PlainReadElems(x, w, base, dims, n - 1, env, ReadDims(x, w, base, dims, env, at, depth).value.at, depth);
    }
  }

  lemma {:induction false} PlainReadSeq(x: Source, w: Window, t: Type, last: nat, env: Env, at: Cursor, depth: nat)
    requires ReadSeq(x, w, t, last, env, at, depth).Ok?
    ensures ReadSeq(PlainSource(x), w, t, last, env, at, depth) == ReadSeq(x, w, t, last, env, at, depth)
    decreases depth, 0, 1, if at.pos <= last then last - at.pos else 0
  {
    if at.pos + |t.terminator| <= w.limit && x.d[at.pos..at.pos + |t.terminator|] == t.terminator {
    } else {
      PlainReadBase(x, w, t.base, env, at, depth);
      PlainReadSeq(x, w, t, last, env, ReadBase(x, w, t.base, env, at, depth).value.at, depth);
    }
  }

  lemma {:induction false} PlainReadTerminated(x: Source, w: Window, t: Type, env: Env, at: Cursor, depth: nat)
    requires ReadTerminated(x, w, t, env, at, depth).Ok?
    ensures ReadTerminated(PlainSource(x), w, t, env, at, depth) == ReadTerminated(x, w, t, env, at, depth)
    decreases depth, 0, 2, 1
  {
    hide ReadSeq;
    if !t.IsByteForm() {
      PlainReadSequenceForm(x, w, t, env, at, depth);
    }
  }

  lemma {:induction false} PlainReadSequenceForm(x: Source, w: Window, t: Type, env: Env, at: Cursor, depth: nat)
    requires t.maxPayload.Some?
    requires ReadSequenceForm(x, w, t, env, at, depth).Ok?
    ensures ReadSequenceForm(PlainSource(x), w, t, env, at, depth) == ReadSequenceForm(x, w, t, env, at, depth)
    decreases depth, 0, 2, 0
  {
    PlainReadSeq(x, ScanWindow(w, t, at.pos), t, at.pos + t.maxPayload.value, env, at, depth);
  }

  lemma PlainReadText(x: Source, w: Window, t: Type, bound: Option<u64>, env: Env, at: Cursor)
    ensures ReadText(PlainSource(x), w, t, bound, env, at) == ReadText(x, w, t, bound, env, at)
  {
    assert TextLength(PlainSource(x), w, t.dims, bound, env, at) == TextLength(x, w, t.dims, bound, env, at);
  }

  lemma {:induction false} PlainReadType(x: Source, w: Window, t: Type, bound: Option<u64>, env: Env, at: Cursor, depth: nat)
    requires ReadType(x, w, t, bound, env, at, depth).Ok?
    ensures ReadType(PlainSource(x), w, t, bound, env, at, depth) == ReadType(x, w, t, bound, env, at, depth)
    decreases depth, 0, 2 * |t.dims| + 3, 0
  {
    hide ReadText, ReadTerminated, ReadDims;
    if t.IsTerminated() {
      PlainReadTerminated(x, w, t, env, at, depth);
    } else if t.base.IsText() {
      PlainReadText(x, w, t, bound, env, at);
    } else {
      PlainReadDims(x, w, t.base, t.dims, env, at, depth);
    }
  }

  lemma {:induction false} PlainReadBranch(x: Source, w: Window, b: Branch, env: Env, at: Cursor, depth: nat)
    requires ReadBranch(x, w, b, env, at, depth).Ok?
    ensures ReadBranch(PlainSource(x), w, b, env, at, depth) == ReadBranch(x, w, b, env, at, depth)
    decreases depth, 1, b, 0
  {
    match b
    case Typed(t) => PlainReadType(x, w, t, None, env, at, depth);
    case Listed(members) => PlainReadMembers(x, w, members, env, at, depth);
  }

  lemma {:induction false} PlainReadMember(x: Source, w: Window, op: Op, env: Env, at: Cursor, depth: nat)
    requires ReadMember(x, w, op, env, at, depth).Ok?
    ensures ReadMember(PlainSource(x), w, op, env, at, depth) == ReadMember(x, w, op, env, at, depth)
    decreases depth, 1, op, 1
  {
    match op
    case Field(_, _, ty, order, bound, _) => PlainReadType(x, w, ty, bound, env, Cursor(at.pos, order), depth);
    case Bits(group) => PlainReadBits(x, w, group, env, at);
    case At(_, _, _) => assert PlainSource(x) == x;
    case Block(_, _, _) => PlainReadBlock(x, w, op, env, at, depth);
    case Conditional(condition, thenMembers, elseMembers) =>
      PlainReadMembers(x, w, if EvalBool(x.c.fp, condition, env).value then thenMembers else elseMembers, env, at, depth);
    case Variant(_, _, _, _) => PlainReadVariant(x, w, op, env, at, depth);
    case _ =>
  }

  lemma {:induction false} PlainReadBits(x: Source, w: Window, group: BitsGroup, env: Env, at: Cursor)
    requires ReadBits(x, w, group, env, at).Ok?
    ensures ReadBits(PlainSource(x), w, group, env, at) == ReadBits(x, w, group, env, at)
  {
    var raw := Unpack(Take(x, w, at, StorageBytes(group)).value, at.order);
    PlainReadBitsFields(x, group, Unpadded(raw, PaddingBits(group)), env);
  }

  lemma {:induction false} PlainReadBlock(x: Source, w: Window, op: Op, env: Env, at: Cursor, depth: nat)
    requires op.Block?
    requires ReadBlock(x, w, op, env, at, depth).Ok?
    ensures ReadBlock(PlainSource(x), w, op, env, at, depth) == ReadBlock(x, w, op, env, at, depth)
    decreases depth, 1, op, 0
  {
    var end := at.pos + SizeOf(x.c, op.staticSize, op.size, env).value;
    PlainReadMembers(x, Within(end, w), op.members, env, at, depth);
  }

  lemma {:induction false} PlainReadVariant(x: Source, w: Window, op: Op, env: Env, at: Cursor, depth: nat)
    requires op.Variant?
    requires ReadVariant(x, w, op, env, at, depth).Ok?
    ensures ReadVariant(PlainSource(x), w, op, env, at, depth) == ReadVariant(x, w, op, env, at, depth)
    decreases depth, 1, op, 0
  {
    match ChooseCase(x.c.fp, op.cases, Eval(x.c.fp, op.discriminator, env).value)
    case Some(i) => PlainReadBranch(x, w, op.cases[i].body, env, at, depth);
    case None => PlainReadBranch(x, w, op.default.value, env, at, depth);
  }

  lemma {:induction false} PlainReadMembers(x: Source, w: Window, ops: seq<Op>, env: Env, at: Cursor, depth: nat)
    requires ReadMembers(x, w, ops, env, at, depth).Ok?
    ensures ReadMembers(PlainSource(x), w, ops, env, at, depth) == ReadMembers(x, w, ops, env, at, depth)
    decreases depth, 1, ops, 0
  {
    if ops != [] {
      PlainReadMember(x, w, ops[0], env, at, depth);
      var g := ReadMember(x, w, ops[0], env, at, depth).value;
      PlainReadMembers(x, w, ops[1..], g.env, g.at, depth);
    }
  }
}
