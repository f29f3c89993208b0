/** Encode, then decode: what a strict encode writes, the decoder reads back. */
module RoundTrip {
  import opened Outcome
  import opened Bytes
  import opened Expr
  import opened Plan
  import opened Terminator
  import opened Decode
  import opened Encode
  import opened BitPacking
  import opened Strict
  import L = Logical
  import P = Prunes

  /** The limits of a reader that stands where the writer stood. */
  ghost predicate Faces(room: Room, x: Source, w: Window) {
    && w.limit <= |x.d|
    && (room.zone == Root ==> w == Whole(|x.d|))
    && (room.zone == InBlock ==> w.limit == room.limit)
  }

  /** The setting of every lemma here: the run from `pen` to `after` was strict, and the input
      of the reader starts with its output. */
  ghost predicate Replays(y: Sink, room: Room, pen: Pen, after: Pen, x: Source, w: Window) {
    && y.strict && !x.strict && x.c == y.c
    && AtEnd(room, pen)
    && Faces(room, x, w)
    && after.p <= w.limit
    && after.d <= x.d
  }

  function Where(pen: Pen): Cursor {
    Cursor(pen.p, pen.order)
  }

  lemma TakeWritten(room: Room, pen: Pen, after: Pen, b: seq<byte>, x: Source, w: Window)
    requires AtEnd(room, pen) && Put(room, pen, b) == Ok(after)
    requires after.p <= w.limit <= |x.d| && after.d <= x.d
    ensures forall order :: Take(x, w, Cursor(pen.p, order), |b|) == Ok(b)
  {
    assert x.d[pen.p..pen.p + |b|] == after.d[pen.p..pen.p + |b|] == b;
  }

  /** The low bytes of a two's complement give the integer back. */
  lemma SignedReadBack(i: i64, n: nat)
    requires 1 <= n <= 8 && i + Pow2(8 * n - 1) >= 0 && i < Pow2(8 * n - 1)
    ensures (i % TWO_64) % Pow2(8 * n) < Pow2(8 * n) && SignExtend((i % TWO_64) % Pow2(8 * n), n) == i
  {
    Pow2At64();
    Pow2Add(8 * n, 64 - 8 * n);
    assert Pow2(8 * n) == 2 * Pow2(8 * n - 1);
    LowPart(i, Pow2(8 * n), Pow2(64 - 8 * n));
  }

  lemma IntReadBack(y: Sink, room: Room, t: IntType, v: Value, pen: Pen, x: Source, w: Window)
    requires WriteInt(y, room, t, v, pen).Ok?
    requires Replays(y, room, pen, WriteInt(y, room, t, v, pen).value.pen, x, w)
    ensures ReadInt(x, w, t, Where(pen)) == Ok(Item(Where(WriteInt(y, room, t, v, pen).value.pen), v))
  {
    var n := t.width.Count();
    var after := WriteInt(y, room, t, v, pen).value.pen;
    var low: nat := if t.signed then v.s.i % TWO_64 else v.s.u;
    TakeWritten(room, pen, after, Pack(low, n, pen.order), x, w);
    UnpackPack(low, n, pen.order);
    if t.signed {
      SignedReadBack(v.s.i, n);
    } else {
      SmallMod(low, Pow2(8 * n));
    }
  }

  lemma TextReadBack(y: Sink, room: Room, t: Type, v: Value, bound: Option<u64>, env: Env, pen: Pen, x: Source, w: Window)
    requires WriteText(y, room, t.base, t.dims, v, bound, env, pen).Ok?
    requires Replays(y, room, pen, WriteText(y, room, t.base, t.dims, v, bound, env, pen).value.pen, x, w)
    ensures ReadText(x, w, t, bound, env, Where(pen)) == Ok(Item(Where(WriteText(y, room, t.base, t.dims, v, bound, env, pen).value.pen), v))
  {
    var after := WriteText(y, room, t.base, t.dims, v, bound, env, pen).value.pen;
    TakeWritten(room, pen, after, TextBytes(t.base, v).value, x, w);
  }

  /** A reader that faces written terminated bytes scans over them first. */
  lemma ScanOfWritten(room: Room, pen: Pen, after: Pen, payload: seq<byte>, t: seq<byte>, max: u64, x: Source, w: Window)
    requires AtEnd(room, pen) && Put(room, pen, payload + t) == Ok(after) && |payload| <= max
    requires after.p <= w.limit <= |x.d| && after.d <= x.d
    ensures payload + t <= ScanBytes(x, w, Where(pen), t, max)
  {
    TakeWritten(room, pen, after, payload + t, x, w);
    assert ScanBytes(x, w, Where(pen), t, max)[..|payload + t|] == x.d[pen.p..pen.p + |payload + t|];
  }

  lemma TerminatedBytesReadBack(y: Sink, room: Room, t: seq<byte>, max: u64, v: Value, bound: Option<u64>, pen: Pen, x: Source, w: Window)
    requires t != [] && WriteTerminatedBytes(y, room, t, max, v, bound, pen).Ok?
    requires Replays(y, room, pen, WriteTerminatedBytes(y, room, t, max, v, bound, pen).value.pen, x, w)
    ensures ReadTerminatedBytes(x, w, t, max, Where(pen)) == Ok(Item(Where(WriteTerminatedBytes(y, room, t, max, v, bound, pen).value.pen), v))
  {
    var after := WriteTerminatedBytes(y, room, t, max, v, bound, pen).value.pen;
    ScanOfWritten(room, pen, after, v.bytes, t, max, x, w);
    FoundInScan(v.bytes, t, ScanBytes(x, w, Where(pen), t, max));
  }

  lemma BitsReadBack(y: Sink, room: Room, g: BitsGroup, o: Fields, env: Env, pen: Pen, x: Source, w: Window)
    requires WriteBits(y, room, g, o, env, pen).Ok?
    requires Replays(y, room, pen, WriteBits(y, room, g, o, env, pen).value.pen, x, w)
    ensures var b := WriteBits(y, room, g, o, env, pen).value;
            ReadBits(x, w, g, env, Where(pen)) == Ok(Group(Where(b.pen), b.env, b.fields))
  {
    var b := WriteBits(y, room, g, o, env, pen).value;
    var (k, env', fields) := WriteBitsFields(y, g, o, env).value;
    var n := StorageBytes(g);
    var packed := Pack(Padded(k, PaddingBits(g)), n, g[0].order);
    TakeWritten(room, pen.(order := g[0].order), b.pen, packed, x, w);
    GroupReadBack(y, x, g, o, env, g[0].order, pen.order);
  }

  lemma AlignReadBack(y: Sink, room: Room, e: Expr, known: Option<u64>, env: Env, pen: Pen, x: Source, w: Window)
    requires WriteAlign(y, room, e, known, env, pen).Ok?
    requires Replays(y, room, pen, WriteAlign(y, room, e, known, env, pen).value.pen, x, w)
    ensures var b := WriteAlign(y, room, e, known, env, pen).value;
            ReadAlign(x, w, e, known, env, Where(pen)) == Ok(Group(Where(b.pen), b.env, b.fields))
  {
  }

  // ----- types -----

  lemma {:induction false} BaseReadBack(y: Sink, room: Room, base: Base, v: Value, env: Env, pen: Pen, depth: nat, x: Source, w: Window)
    requires !base.IsText()
    requires WriteBase(y, room, base, v, env, pen, depth).Ok?
    requires Replays(y, room, pen, WriteBase(y, room, base, v, env, pen, depth).value.pen, x, w)
    ensures var r := WriteBase(y, room, base, v, env, pen, depth).value;
            ReadBase(x, w, base, env, Where(pen), depth) == Ok(Item(Where(r.pen), r.v))
    decreases depth, 0, 0, 0
  {
    match base
    case Primitive(it) => IntReadBack(y, room, it, v, pen, x, w);
    case Named(id) =>
      if id in y.c.plan.structs {
        var s := y.c.plan.structs[id];
        MembersReadBack(y, room, s.members, v.fields, WithSizes(s, env), pen.(order := s.order), depth - 1, x, w);
      } else {
        IntReadBack(y, room, y.c.plan.enums[id], v, pen, x, w);
      }
  }

  lemma {:induction false} DimsReadBack(y: Sink, room: Room, base: Base, dims: seq<Dim>, v: Value, env: Env, pen: Pen, depth: nat, x: Source, w: Window)
    requires !base.IsText()
    requires WriteDims(y, room, base, dims, v, env, pen, depth).Ok?
    requires Replays(y, room, pen, WriteDims(y, room, base, dims, v, env, pen, depth).value.pen, x, w)
    ensures var r := WriteDims(y, room, base, dims, v, env, pen, depth).value;
            ReadDims(x, w, base, dims, env, Where(pen), depth) == Ok(Item(Where(r.pen), r.v))
    decreases depth, 0, 2 * |dims| + 1, 0
  {
    hide WriteBase, ReadBase, WriteElems, ReadElems;
    if dims == [] {
      BaseReadBack(y, room, base, v, env, pen, depth, x, w);
    } else {
      ElemsReadBack(y, room, base, dims[1..], v.items, env, pen, depth, x, w);
    }
  }

  lemma {:induction false} ElemsReadBack(y: Sink, room: Room, base: Base, dims: seq<Dim>, vs: seq<Value>, env: Env, pen: Pen, depth: nat, x: Source, w: Window)
    requires !base.IsText()
    requires WriteElems(y, room, base, dims, vs, env, pen, depth).Ok?
    requires Replays(y, room, pen, WriteElems(y, room, base, dims, vs, env, pen, depth).value.pen, x, w)
    ensures var r := WriteElems(y, room, base, dims, vs, env, pen, depth).value;
            ReadElems(x, w, base, dims, |vs|, env, Where(pen), depth) == Ok(Items(Where(r.pen), r.vs))
    decreases depth, 0, 2 * |dims| + 2, |vs|
  {
    hide WriteDims, ReadDims;
    if vs != [] {
      var first := WriteDims(y, room, base, dims, vs[0], env, pen, depth).value;
      DimsReadBack(y, room, base, dims, vs[0], env, pen, depth, x, w);
      ElemsReadBack(y, room, base, dims, vs[1..], env, first.pen, depth, x, w);
    }
  }

  /** One turn of the element loop that reads an element. */
  lemma TurnReadsOn(x: Source, w: Window, t: Type, last: nat, env: Env, at: Cursor, depth: nat, first: Item, rest: Items)
    requires at.pos <= w.limit <= |x.d| && (w.Within? ==> w.outside.limit == |x.d|)
    requires !LooksTerminated(x.d, at.pos, t.terminator) && at.pos < first.at.pos <= last
    requires ReadBase(x, w, t.base, env, at, depth) == Ok(first) && ReadSeq(x, w, t, last, env, first.at, depth) == Ok(rest)
    ensures ReadSeq(x, w, t, last, env, at, depth) == Ok(Items(rest.at, [first.v] + rest.vs))
  {
    hide ReadBase;
  }

  /** What does not look like the terminator in a prefix with room for it does not in the whole. */
  lemma StaysClear(d: seq<byte>, whole: seq<byte>, from: nat, t: seq<byte>)
    requires d <= whole && from + |t| <= |d| && !LooksTerminated(d, from, t)
    ensures !LooksTerminated(whole, from, t)
  {
    PrefixSlice(d, whole, from, |t|);
  }

  lemma TerminatorReadBack(y: Sink, room: Room, t: Type, start: nat, bound: Option<u64>, env: Env, pen: Pen, depth: nat, x: Source, w: Window)
    requires t.maxPayload.Some? && WriteSeq(y, room, t, [], start, bound, env, pen, depth).Ok?
    requires Replays(y, room, pen, WriteSeq(y, room, t, [], start, bound, env, pen, depth).value.pen, x, w)
    requires w.Within? && w.outside.limit == |x.d|
    ensures var r := WriteSeq(y, room, t, [], start, bound, env, pen, depth).value;
            ReadSeq(x, w, t, start + t.maxPayload.value, env, Where(pen), depth) == Ok(Items(Where(r.pen), r.vs))
  {
    hide WriteBase, ReadBase, Overlay;
    TakeWritten(room, pen, WriteSeq(y, room, t, [], start, bound, env, pen, depth).value.pen, t.terminator, x, w);
    assert Take(x, w, Where(pen), |t.terminator|) == Ok(t.terminator);
  }

  lemma {:induction false} SeqReadBack(y: Sink, room: Room, t: Type, vs: seq<Value>, start: nat, bound: Option<u64>, env: Env, pen: Pen, depth: nat, x: Source, w: Window)
    requires t.maxPayload.Some? && t.terminator != []
    requires WriteSeq(y, room, t, vs, start, bound, env, pen, depth).Ok?
    requires Replays(y, room, pen, WriteSeq(y, room, t, vs, start, bound, env, pen, depth).value.pen, x, w)
    requires w.Within? && w.outside.limit == |x.d|
    requires room.zone == InSequence && start <= pen.p
    ensures var r := WriteSeq(y, room, t, vs, start, bound, env, pen, depth).value;
            ReadSeq(x, w, t, start + t.maxPayload.value, env, Where(pen), depth) == Ok(Items(Where(r.pen), r.vs))
    decreases depth, 0, 1, |vs|
  {
    hide WriteBase, ReadBase, SameShape, First, Put, Overlay, LooksTerminated;
    var r := WriteSeq(y, room, t, vs, start, bound, env, pen, depth).value;
    if vs == [] {
      TerminatorReadBack(y, room, t, start, bound, env, pen, depth, x, w);
    } else {
      var first := WriteBase(y, room, t.base, vs[0], env, pen, depth).value;
      StaysClear(r.pen.d, x.d, pen.p, t.terminator);
      TextIsRefused(y, room, t.base, vs[0], env, pen, depth);
      BaseReadBack(y, room, t.base, vs[0], env, pen, depth, x, w);
      SeqReadBack(y, room, t, vs[1..], start, bound, env, first.pen, depth, x, w);
      var rest := WriteSeq(y, room, t, vs[1..], start, bound, env, first.pen, depth).value;
      TurnReadsOn(x, w, t, start + t.maxPayload.value, env, Where(pen), depth, Item(Where(first.pen), first.v), Items(Where(rest.pen), rest.vs));
    }
  }

  lemma PrefixSlice(d: seq<byte>, whole: seq<byte>, from: nat, n: nat)
    requires d <= whole && from + n <= |d|
    ensures whole[from..from + n] == d[from..from + n]
  {
  }

  /** A byte string without a length is not an element. */
  lemma TextIsRefused(y: Sink, room: Room, base: Base, v: Value, env: Env, pen: Pen, depth: nat)
    requires y.strict && WriteBase(y, room, base, v, env, pen, depth).Ok?
    ensures !base.IsText()
  {
  }

  lemma {:induction false} TerminatedReadBack(y: Sink, room: Room, t: Type, v: Value, bound: Option<u64>, env: Env, pen: Pen, depth: nat, x: Source, w: Window)
    requires t.IsTerminated()
    requires WriteTerminated(y, room, t, v, bound, env, pen, depth).Ok?
    requires Replays(y, room, pen, WriteTerminated(y, room, t, v, bound, env, pen, depth).value.pen, x, w)
    ensures var r := WriteTerminated(y, room, t, v, bound, env, pen, depth).value;
            ReadTerminated(x, w, t, env, Where(pen), depth) == Ok(Item(Where(r.pen), r.v))
    decreases depth, 0, 2, 1
  {
    if t.IsByteForm() {
      TerminatedBytesReadBack(y, room, t.terminator, t.maxPayload.value, v, bound, pen, x, w);
    } else {
      SequenceFormReadBack(y, room, t, v, bound, env, pen, depth, x, w);
    }
  }

  lemma {:induction false} SequenceFormReadBack(y: Sink, room: Room, t: Type, v: Value, bound: Option<u64>, env: Env, pen: Pen, depth: nat, x: Source, w: Window)
    requires t.maxPayload.Some? && t.terminator != []
    requires WriteSequenceForm(y, room, t, v, bound, env, pen, depth).Ok?
    requires Replays(y, room, pen, WriteSequenceForm(y, room, t, v, bound, env, pen, depth).value.pen, x, w)
    ensures var r := WriteSequenceForm(y, room, t, v, bound, env, pen, depth).value;
            ReadSequenceForm(x, w, t, env, Where(pen), depth) == Ok(Item(Where(r.pen), r.v))
    decreases depth, 0, 2, 0
  {
    hide WriteSeq, ReadSeq;
    var got := WriteSeq(y, Room(room.limit, InSequence), t, v.items, pen.p, bound, env, pen, depth).value;
    assert WriteSequenceForm(y, room, t, v, bound, env, pen, depth) == Ok(Written(got.pen, Arr(got.vs)));
    SeqInWindow(y, room, t, v.items, bound, env, pen, depth, got, x, w);
    FormOfSeq(x, w, t, env, Where(pen), depth, Items(Where(got.pen), got.vs));
  }

  lemma FormOfSeq(x: Source, w: Window, t: Type, env: Env, at: Cursor, depth: nat, got: Items)
    requires t.maxPayload.Some? && at.pos <= w.limit
    requires ReadSeq(x, ScanWindow(w, t, at.pos), t, at.pos + t.maxPayload.value, env, at, depth) == Ok(got)
    ensures ReadSequenceForm(x, w, t, env, at, depth) == Ok(Item(got.at, Arr(got.vs)))
  {
  }

  lemma {:induction false} SeqInWindow(y: Sink, room: Room, t: Type, vs: seq<Value>, bound: Option<u64>, env: Env, pen: Pen, depth: nat, got: WrittenAll, x: Source, w: Window)
    requires t.maxPayload.Some? && t.terminator != [] && room.zone == Root
    requires WriteSeq(y, Room(room.limit, InSequence), t, vs, pen.p, bound, env, pen, depth) == Ok(got)
    requires Replays(y, room, pen, got.pen, x, w)
    ensures ReadSeq(x, ScanWindow(w, t, pen.p), t, pen.p + t.maxPayload.value, env, Where(pen), depth) == Ok(Items(Where(got.pen), got.vs))
    decreases depth, 0, 1, |vs| + 1
  {
    hide WriteSeq, ReadSeq;
    var inside := Room(room.limit, InSequence);
    SeqEnd(y, inside, t, vs, pen.p, bound, env, pen, depth);
    InnerReplays(y, room, t, pen, got.pen, x, w);
    SeqReadBack(y, inside, t, vs, pen.p, bound, env, pen, depth, x, ScanWindow(w, t, pen.p));
  }

  /** The limit that the reader pushes for a sequence is not in the way. */
  lemma InnerReplays(y: Sink, room: Room, t: Type, pen: Pen, after: Pen, x: Source, w: Window)
    requires t.maxPayload.Some? && room.zone == Root && pen.p <= after.p <= pen.p + t.maxPayload.value + |t.terminator|
    requires Replays(y, room, pen, after, x, w)
    ensures Replays(y, Room(room.limit, InSequence), pen, after, x, ScanWindow(w, t, pen.p))
    ensures ScanWindow(w, t, pen.p).outside.limit == |x.d|
  {
  }

  lemma {:induction false} TypeReadBack(y: Sink, room: Room, t: Type, v: Value, bound: Option<u64>, env: Env, pen: Pen, depth: nat, x: Source, w: Window)
    requires WriteType(y, room, t, v, bound, env, pen, depth).Ok?
    requires Replays(y, room, pen, WriteType(y, room, t, v, bound, env, pen, depth).value.pen, x, w)
    ensures var r := WriteType(y, room, t, v, bound, env, pen, depth).value;
            ReadType(x, w, t, bound, env, Where(pen), depth) == Ok(Item(Where(r.pen), r.v))
    decreases depth, 0, 2 * |t.dims| + 3, 0
  {
    if t.IsTerminated() {
      TerminatedReadBack(y, room, t, v, bound, env, pen, depth, x, w);
    } else if t.base.IsText() {
      TextReadBack(y, room, t, v, bound, env, pen, x, w);
    } else {
      DimsReadBack(y, room, t.base, t.dims, v, env, pen, depth, x, w);
    }
  }

  // ----- operations -----

  lemma {:induction false} FieldReadBack(y: Sink, room: Room, op: Op, o: Fields, env: Env, pen: Pen, depth: nat, x: Source, w: Window)
    requires op.Field? && WriteField(y, room, op, o, env, pen, depth).Ok?
    requires Replays(y, room, pen, WriteField(y, room, op, o, env, pen, depth).value.pen, x, w)
    ensures var b := WriteField(y, room, op, o, env, pen, depth).value;
            ReadField(x, w, op, env, Where(pen), depth) == Ok(Group(Where(b.pen), b.env, b.fields))
    decreases depth, 1, op, 0
  {
    TypeReadBack(y, room, op.ty, o[op.name], op.staticLength, env, pen.(order := op.order), depth, x, w);
  }

  lemma {:induction false} BlockReadBack(y: Sink, room: Room, op: Op, o: Fields, env: Env, pen: Pen, depth: nat, x: Source, w: Window)
    requires op.Block? && WriteBlock(y, room, op, o, env, pen, depth).Ok?
    requires Replays(y, room, pen, WriteBlock(y, room, op, o, env, pen, depth).value.pen, x, w)
    ensures var b := WriteBlock(y, room, op, o, env, pen, depth).value;
            ReadBlock(x, w, op, env, Where(pen), depth) == Ok(Group(Where(b.pen), b.env, b.fields))
    decreases depth, 1, op, 0
  {
    hide WriteMembers, ReadMembers, Eval, EvalSize;
    var end := pen.p + SizeOf(y.c, op.staticSize, op.size, env).value;
    MembersReadBack(y, Room(end, InBlock), op.members, o, env, pen, depth, x, Within(end, w));
  }

  lemma {:induction false} VariantReadBack(y: Sink, room: Room, op: Op, o: Fields, env: Env, pen: Pen, depth: nat, x: Source, w: Window)
    requires op.Variant? && WriteVariant(y, room, op, o, env, pen, depth).Ok?
    requires Replays(y, room, pen, WriteVariant(y, room, op, o, env, pen, depth).value.pen, x, w)
    ensures var b := WriteVariant(y, room, op, o, env, pen, depth).value;
            ReadVariant(x, w, op, env, Where(pen), depth) == Ok(Group(Where(b.pen), b.env, b.fields))
    decreases depth, 1, op, 0
  {
    match ChooseCase(y.c.fp, op.cases, Eval(y.c.fp, op.discriminator, env).value)
    case Some(i) => BranchReadBack(y, room, op.cases[i].body, o[op.name].fields, env, pen, depth, x, w);
    case None => BranchReadBack(y, room, op.default.value, o[op.name].fields, env, pen, depth, x, w);
  }

  lemma {:induction false} BranchReadBack(y: Sink, room: Room, body: Branch, o: Fields, env: Env, pen: Pen, depth: nat, x: Source, w: Window)
    requires WriteBranch(y, room, body, o, env, pen, depth).Ok?
    requires Replays(y, room, pen, WriteBranch(y, room, body, o, env, pen, depth).value.pen, x, w)
    ensures var b := WriteBranch(y, room, body, o, env, pen, depth).value;
            ReadBranch(x, w, body, env, Where(pen), depth) == Ok(Group(Where(b.pen), b.env, b.fields))
    decreases depth, 1, body, 0
  {
    match body
    case Typed(t) => TypeReadBack(y, room, t, o["value"], None, env, pen, depth, x, w);
    case Listed(members) => MembersReadBack(y, room, members, o, env, pen, depth, x, w);
  }

  lemma {:induction false} MemberReadBack(y: Sink, room: Room, op: Op, o: Fields, env: Env, pen: Pen, depth: nat, x: Source, w: Window)
    requires WriteMember(y, room, op, o, env, pen, depth).Ok?
    requires Replays(y, room, pen, WriteMember(y, room, op, o, env, pen, depth).value.pen, x, w)
    ensures var b := WriteMember(y, room, op, o, env, pen, depth).value;
            ReadMember(x, w, op, env, Where(pen), depth) == Ok(Group(Where(b.pen), b.env, b.fields))
    decreases depth, 1, op, 1
  {
    match op
    case Field(_, _, _, _, _, _) => FieldReadBack(y, room, op, o, env, pen, depth, x, w);
    case Bits(group) => BitsReadBack(y, room, group, o, env, pen, x, w);
    case Align(e, known) => AlignReadBack(y, room, e, known, env, pen, x, w);
    case Block(_, _, _) => BlockReadBack(y, room, op, o, env, pen, depth, x, w);
    case Conditional(condition, thenMembers, elseMembers) =>
      MembersReadBack(y, room, if EvalBool(y.c.fp, condition, env).value then thenMembers else elseMembers, o, env, pen, depth, x, w);
    case Variant(_, _, _, _) => VariantReadBack(y, room, op, o, env, pen, depth, x, w);
    case _ =>
  }

  lemma {:induction false} OpsReadBack(y: Sink, room: Room, ops: seq<Op>, o: Fields, env: Env, pen: Pen, depth: nat, x: Source, w: Window)
    requires WriteOps(y, room, ops, o, env, pen, depth).Ok?
    requires Replays(y, room, pen, WriteOps(y, room, ops, o, env, pen, depth).value.pen, x, w)
    ensures var b := WriteOps(y, room, ops, o, env, pen, depth).value;
            ReadMembers(x, w, ops, env, Where(pen), depth) == Ok(Group(Where(b.pen), b.env, b.fields))
    decreases depth, 1, ops, 0
  {
    if ops != [] {
      var b := WriteMember(y, room, ops[0], o, env, pen, depth).value;
      MemberReadBack(y, room, ops[0], o, env, pen, depth, x, w);
      OpsReadBack(y, room, ops[1..], o, b.env, b.pen, depth, x, w);
    }
  }

  /** A strict run meets no alias, so there is none to bind. */
  lemma {:induction false} NoAliasBound(y: Sink, room: Room, ops: seq<Op>, o: Fields, env: Env, env': Env, pen: Pen, depth: nat)
    requires y.strict && WriteOps(y, room, ops, o, env', pen, depth).Ok?
    ensures BindAliases(y.c, ops, o, env) == Ok(env)
  {
    if ops != [] {
      var b := WriteMember(y, room, ops[0], o, env', pen, depth).value;
      NoAliasBound(y, room, ops[1..], o, env, b.env, b.pen, depth);
    }
  }

  lemma {:induction false} MembersReadBack(y: Sink, room: Room, ops: seq<Op>, o: Fields, env: Env, pen: Pen, depth: nat, x: Source, w: Window)
    requires WriteMembers(y, room, ops, o, env, pen, depth).Ok?
    requires Replays(y, room, pen, WriteMembers(y, room, ops, o, env, pen, depth).value.pen, x, w)
    ensures var b := WriteMembers(y, room, ops, o, env, pen, depth).value;
            ReadMembers(x, w, ops, env, Where(pen), depth) == Ok(Group(Where(b.pen), b.env, b.fields))
    decreases depth, 1, ops, 1
  {
    NoAliasBound(y, room, ops, o, env, BindAliases(y.c, ops, o, env).value, pen, depth);
    OpsReadBack(y, room, ops, o, env, pen, depth, x, w);
  }

  /** What a strict encode writes, the decoder returns: the value that the description reports. */
  lemma StrictRoundTrip(c: Context, id: SymbolId, v: Value, parameters: Env, rest: seq<byte>)
    requires EncodeStruct(Sink(c, true), id, v, parameters).Ok?
    ensures var r := EncodeStruct(Sink(c, true), id, v, parameters).value;
            && EncodeStruct(Sink(c, false), id, v, parameters) == Ok(r)
            && r.pen.p == |r.pen.d|
            && DecodeStruct(Source(c, r.pen.d + rest, false), id, parameters) == Ok(Item(Cursor(|r.pen.d|, r.pen.order), r.v))
  {
    var y := Sink(c, true);
    var env := InitialEnv(c.plan, parameters).value;
    var room := Room(U64_MAX, Root);
    var pen: Pen := Ink([], 0, Little);
    var r := EncodeStruct(y, id, v, parameters).value;
    var x := Source(c, r.pen.d + rest, false);
    PlainWriteBase(y, room, Named(id), v, env, pen, c.options.maxRecursionDepth);
    assert Plain(y) == Sink(c, false);
    BaseReadBack(y, room, Named(id), v, env, pen, c.options.maxRecursionDepth, x, Whole(|x.d|));
  }

  /** The main theorem of this direction. If the strict encode of `v` succeeds, then the encoder
      as it is gives the same output, and the decoder, on that output followed by any bytes,
      consumes exactly the output and returns the logical value of `v`. That is `v` itself, leaf
      by leaf, without the entries that no member names and with the virtual fields. */
  lemma EncodeThenDecode(c: Context, id: SymbolId, v: Value, parameters: Env, rest: seq<byte>, computed: set<Name>)
    requires EncodeStruct(Sink(c, true), id, v, parameters).Ok? && P.HasVirtuals(c.plan, computed)
    ensures var out := EncodeStruct(Sink(c, true), id, v, parameters).value.pen;
            var w := L.LogicalValue(c, id, v, parameters);
            && w.Some? && P.Prunes(v, w.value, computed)
            && EncodeStruct(Sink(c, false), id, v, parameters) == Ok(Written(out, w.value))
            && DecodeStruct(Source(c, out.d + rest, false), id, parameters) == Ok(Item(Cursor(|out.d|, out.order), w.value))
  {
    hide WriteBase, P.Prunes;
    var env := InitialEnv(c.plan, parameters).value;
    StrictRoundTrip(c, id, v, parameters, rest);
    L.EncodeWritesLogicalValue(Sink(c, true), id, v, parameters);
    P.BasePrunes(Sink(c, true), Room(U64_MAX, Root), Named(id), v, env, Ink([], 0, Little), c.options.maxRecursionDepth, computed);
  }
}
