/** Decode, then encode: what a strict decode consumed, the encoder writes again. */
module Reproduce {
  import opened Outcome
  import opened Bytes
  import opened Expr
  import opened Plan
  import opened Terminator
  import opened Decode
  import opened Encode
  import opened BitPacking
  import opened Strict

  /** The pen of an encoder that has written exactly the bytes before the cursor. */
  function Behind(x: Source, at: Cursor): (pen: Pen)
    requires at.pos <= |x.d|
  {
    Ink(x.d[..at.pos], at.pos, at.order)
  }

  /** The setting of every lemma here. */
  ghost predicate Follows(x: Source, w: Window, at: Cursor, y: Sink, room: Room) {
    && x.strict && !y.strict && x.c == y.c
    && at.pos <= w.limit <= |x.d|
    && w.limit <= room.limit
  }

  lemma PutTaken(x: Source, w: Window, at: Cursor, n: nat, y: Sink, room: Room)
    requires Follows(x, w, at, y, room) && at.pos + n <= w.limit
    ensures forall order :: Put(room, Behind(x, Cursor(at.pos, order)), x.d[at.pos..at.pos + n])
                              == Ok(Behind(x, Cursor(at.pos + n, order)))
  {
    assert x.d[..at.pos + n] == x.d[..at.pos] + x.d[at.pos..at.pos + n];
  }

  lemma IntRewrite(x: Source, w: Window, t: IntType, at: Cursor, y: Sink, room: Room)
    requires Follows(x, w, at, y, room) && ReadInt(x, w, t, at).Ok?
    ensures var r := ReadInt(x, w, t, at).value;
            WriteInt(y, room, t, r.v, Behind(x, at)) == Ok(Written(Behind(x, r.at), r.v))
  {
    var n := t.width.Count();
    var b := x.d[at.pos..at.pos + n];
    var u := Unpack(b, at.order);
    UnpackBound(b, at.order);
    PutTaken(x, w, at, n, y, room);
    PackUnpack(b, at.order);
    if t.signed {
      SignedRewrite(u, n);
      UnpackPack(SignExtend(u, n) % TWO_64, n, at.order);
      PackUnpack(Pack(SignExtend(u, n) % TWO_64, n, at.order), at.order);
    }
  }

  /** Two's complement of a sign-extended value has the same low bytes. */
  lemma SignedRewrite(u: nat, n: nat)
    requires 1 <= n <= 8 && u < Pow2(8 * n)
    ensures (SignExtend(u, n) % TWO_64) % Pow2(8 * n) == u
    ensures SignExtend(u, n) + Pow2(8 * n - 1) >= 0 && SignExtend(u, n) < Pow2(8 * n - 1)
  {
    Pow2At64();
    Pow2Add(8 * n, 64 - 8 * n);
    assert Pow2(8 * n) == 2 * Pow2(8 * n - 1);
    LowPart(SignExtend(u, n), Pow2(8 * n), Pow2(64 - 8 * n));
  }

  lemma TextRewrite(x: Source, w: Window, t: Type, bound: Option<u64>, env: Env, at: Cursor, y: Sink, room: Room)
    requires t.base.IsText()
    requires Follows(x, w, at, y, room) && ReadText(x, w, t, bound, env, at).Ok?
    requires bound.Some? ==> ReadText(x, w, t, bound, env, at).value.at.pos <= at.pos + bound.value
    ensures var r := ReadText(x, w, t, bound, env, at).value;
            WriteText(y, room, t.base, t.dims, r.v, bound, env, Behind(x, at)) == Ok(Written(Behind(x, r.at), r.v))
  {
    PutTaken(x, w, at, TextLength(x, w, t.dims, bound, env, at).value, y, room);
  }

  lemma SplitScan(d: seq<byte>, p: nat, n: nat, j: nat, t: seq<byte>)
    requires p + n <= |d| && OccursAt(d[p..p + n], t, j)
    ensures d[p..p + n][..j] + t == d[p..p + (j + |t|)]
  {
  }

  lemma TerminatedBytesRewrite(x: Source, w: Window, t: seq<byte>, max: u64, bound: Option<u64>, at: Cursor, y: Sink, room: Room)
    requires t != []
    requires Follows(x, w, at, y, room) && ReadTerminatedBytes(x, w, t, max, at).Ok?
    requires bound.Some? ==> ReadTerminatedBytes(x, w, t, max, at).value.at.pos <= at.pos + bound.value
    ensures var r := ReadTerminatedBytes(x, w, t, max, at).value;
            WriteTerminatedBytes(y, room, t, max, r.v, bound, Behind(x, at)) == Ok(Written(Behind(x, r.at), r.v))
  {
    var s := ScanBytes(x, w, at, t, max);
    var j := First(s, t).value;
    PayloadIsClean(s, t);
    SplitScan(x.d, at.pos, |s|, j, t);
    assert |s[..j]| <= max && s[..j] + t == x.d[at.pos..at.pos + (j + |t|)];
    PutTaken(x, w, at, j + |t|, y, room);
  }

  /** A container with zero padding is the padded form of its upper bits. */
  lemma PaddedAgain(raw: nat, total: nat, padding: nat)
    requires PaddingIsZero(raw, padding) && raw < Pow2(total + padding)
    ensures Unpadded(raw, padding) < Pow2(total) && Padded(Unpadded(raw, padding), padding) == raw
    ensures Unpadded(raw, padding) % Pow2(total) == Unpadded(raw, padding)
  {
    Pow2Add(total, padding);
    WholeQuotient(raw, Pow2(padding), Pow2(total));
    ShiftIsProduct(Unpadded(raw, padding), padding);
    SmallMod(Unpadded(raw, padding), Pow2(total));
  }

  lemma BitsRewrite(x: Source, w: Window, g: BitsGroup, env: Env, at: Cursor, y: Sink, room: Room, o: Fields)
    requires Follows(x, w, at, y, room) && ReadBits(x, w, g, env, at).Ok?
    requires Agrees(o, ReadBits(x, w, g, env, at).value.fields)
    ensures var r := ReadBits(x, w, g, env, at).value;
            WriteBits(y, room, g, o, env, Behind(x, at)) == Ok(Batch(Behind(x, r.at), r.env, r.fields))
  {
    hide Pow2, Unpadded, PaddingIsZero, ReadBitsFields, WriteBitsFields, Overlay;
    var n := StorageBytes(g);
    var b := x.d[at.pos..at.pos + n];
    var raw := Unpack(b, at.order);
    if n == 1 {
      OneByteOrder(b, at.order, g[0].order);
    }
    UnpackBound(b, at.order);
    PaddedAgain(raw, TotalBits(g), PaddingBits(g));
    BitsFieldsRewrite(x, y, g, Unpadded(raw, PaddingBits(g)), env, o);
    PackUnpack(b, g[0].order);
    PutTaken(x, w, at, n, y, room);
  }

  lemma WholeQuotient(v: nat, unit: nat, t: nat)
    requires unit > 0 && v % unit == 0 && v < t * unit
    ensures v / unit < t && (v / unit) * unit == v
  {
    assert v == unit * (v / unit);
    if v / unit >= t {
      MulMonotone(unit, t, v / unit);
    }
  }

  lemma AlignRewrite(x: Source, w: Window, e: Expr, known: Option<u64>, env: Env, at: Cursor, y: Sink, room: Room)
    requires Follows(x, w, at, y, room) && ReadAlign(x, w, e, known, env, at).Ok?
    ensures var r := ReadAlign(x, w, e, known, env, at).value;
            WriteAlign(y, room, e, known, env, Behind(x, at)) == Ok(Batch(Behind(x, r.at), r.env, r.fields))
  {
    var p := ReadAlign(x, w, e, known, env, at).value.at.pos;
    assert x.d[at.pos..at.pos + (p - at.pos)] == Zeros(p - at.pos);
    PutTaken(x, w, at, p - at.pos, y, room);
  }

  // ----- types -----

  lemma {:induction false} BaseRewrite(x: Source, w: Window, base: Base, env: Env, at: Cursor, depth: nat, y: Sink, room: Room)
    requires Follows(x, w, at, y, room) && ReadBase(x, w, base, env, at, depth).Ok?
    ensures var r := ReadBase(x, w, base, env, at, depth).value;
            WriteBase(y, room, base, r.v, env, Behind(x, at), depth) == Ok(Written(Behind(x, r.at), r.v))
    decreases depth, 0, 0, 0
  {
    match base
    case Primitive(it) => IntRewrite(x, w, it, at, y, room);
    case Named(id) =>
      if id in x.c.plan.structs {
        var s := x.c.plan.structs[id];
        var start := Cursor(at.pos, s.order);
        var g := ReadMembers(x, w, s.members, WithSizes(s, env), start, depth - 1).value;
        MembersRewrite(x, w, s.members, WithSizes(s, env), start, depth - 1, y, room, g.fields);
      } else {
        IntRewrite(x, w, x.c.plan.enums[id], at, y, room);
      }
    case _ =>
  }

  lemma {:induction false} DimsRewrite(x: Source, w: Window, base: Base, dims: seq<Dim>, env: Env, at: Cursor, depth: nat, y: Sink, room: Room)
    requires Follows(x, w, at, y, room) && ReadDims(x, w, base, dims, env, at, depth).Ok?
    ensures var r := ReadDims(x, w, base, dims, env, at, depth).value;
            WriteDims(y, room, base, dims, r.v, env, Behind(x, at), depth) == Ok(Written(Behind(x, r.at), r.v))
    decreases depth, 0, 2 * |dims| + 1, 0
  {
    if dims == [] {
      BaseRewrite(x, w, base, env, at, depth, y, room);
    } else {
      ElemsRewrite(x, w, base, dims[1..], ArrayExtents(x.c, dims, env).value[0], env, at, depth, y, room);
    }
  }

  lemma {:induction false} ElemsRewrite(x: Source, w: Window, base: Base, dims: seq<Dim>, n: nat, env: Env, at: Cursor, depth: nat, y: Sink, room: Room)
    requires Follows(x, w, at, y, room) && ReadElems(x, w, base, dims, n, env, at, depth).Ok?
    ensures var r := ReadElems(x, w, base, dims, n, env, at, depth).value;
            |r.vs| == n && WriteElems(y, room, base, dims, r.vs, env, Behind(x, at), depth) == Ok(WrittenAll(Behind(x, r.at), r.vs))
    decreases depth, 0, 2 * |dims| + 2, n
  {
    if n > 0 {
      var first := ReadDims(x, w, base, dims, env, at, depth).value;
      DimsRewrite(x, w, base, dims, env, at, depth, y, room);
      ElemsRewrite(x, w, base, dims, n - 1, env, first.at, depth, y, room);
    }
  }

  lemma TerminatorRewrite(x: Source, w: Window, t: Type, start: nat, bound: Option<u64>, env: Env, at: Cursor, depth: nat, y: Sink, room: Room)
    requires t.maxPayload.Some? && Follows(x, w, at, y, room)
    requires at.pos + |t.terminator| <= w.limit && x.d[at.pos..at.pos + |t.terminator|] == t.terminator
    requires (bound.Some? ==> at.pos + |t.terminator| <= start + bound.value)
    ensures WriteSeq(y, room, t, [], start, bound, env, Behind(x, at), depth) == Ok(WrittenAll(Behind(x, Skip(at, |t.terminator|)), []))
  {
    hide WriteBase, Overlay;
    PutTaken(x, w, at, |t.terminator|, y, room);
  }

  lemma {:induction false} SeqRewrite(x: Source, w: Window, t: Type, start: nat, bound: Option<u64>, env: Env, at: Cursor, depth: nat, y: Sink, room: Room)
    requires t.maxPayload.Some?
    requires Follows(x, w, at, y, room) && ReadSeq(x, w, t, start + t.maxPayload.value, env, at, depth).Ok?
    requires bound.Some? ==> ReadSeq(x, w, t, start + t.maxPayload.value, env, at, depth).value.at.pos <= start + bound.value
    ensures var r := ReadSeq(x, w, t, start + t.maxPayload.value, env, at, depth).value;
            WriteSeq(y, room, t, r.vs, start, bound, env, Behind(x, at), depth) == Ok(WrittenAll(Behind(x, r.at), r.vs))
    decreases depth, 0, 1, if at.pos <= start + t.maxPayload.value then start + t.maxPayload.value - at.pos else 0
  {
    hide WriteBase, ReadBase;
    var last := start + t.maxPayload.value;
    var n := |t.terminator|;
    if at.pos + n <= w.limit && x.d[at.pos..at.pos + n] == t.terminator {
      TerminatorRewrite(x, w, t, start, bound, env, at, depth, y, room);
    } else {
      var first := ReadBase(x, w, t.base, env, at, depth).value;
      BaseRewrite(x, w, t.base, env, at, depth, y, room);
      SeqRewrite(x, w, t, start, bound, env, first.at, depth, y, room);
    }
  }

  lemma {:induction false} TerminatedRewrite(x: Source, w: Window, t: Type, bound: Option<u64>, env: Env, at: Cursor, depth: nat, y: Sink, room: Room)
    requires t.IsTerminated()
    requires Follows(x, w, at, y, room) && ReadTerminated(x, w, t, env, at, depth).Ok?
    requires bound.Some? ==> ReadTerminated(x, w, t, env, at, depth).value.at.pos <= at.pos + bound.value
    ensures var r := ReadTerminated(x, w, t, env, at, depth).value;
            WriteTerminated(y, room, t, r.v, bound, env, Behind(x, at), depth) == Ok(Written(Behind(x, r.at), r.v))
    decreases depth, 0, 2, 1
  {
    if t.IsByteForm() {
      TerminatedBytesRewrite(x, w, t.terminator, t.maxPayload.value, bound, at, y, room);
    } else {
      SequenceFormRewrite(x, w, t, bound, env, at, depth, y, room);
    }
  }

  lemma {:induction false} SequenceFormRewrite(x: Source, w: Window, t: Type, bound: Option<u64>, env: Env, at: Cursor, depth: nat, y: Sink, room: Room)
    requires t.maxPayload.Some?
    requires Follows(x, w, at, y, room) && ReadSequenceForm(x, w, t, env, at, depth).Ok?
    requires bound.Some? ==> ReadSequenceForm(x, w, t, env, at, depth).value.at.pos <= at.pos + bound.value
    ensures var r := ReadSequenceForm(x, w, t, env, at, depth).value;
            WriteSequenceForm(y, room, t, r.v, bound, env, Behind(x, at), depth) == Ok(Written(Behind(x, r.at), r.v))
    decreases depth, 0, 2, 0
  {
    SeqRewrite(x, ScanWindow(w, t, at.pos), t, at.pos, bound, env, at, depth, y, Room(room.limit, InSequence));
  }

  lemma {:induction false} TypeRewrite(x: Source, w: Window, t: Type, bound: Option<u64>, env: Env, at: Cursor, depth: nat, y: Sink, room: Room)
    requires Follows(x, w, at, y, room) && ReadType(x, w, t, bound, env, at, depth).Ok?
    requires bound.Some? ==> ReadType(x, w, t, bound, env, at, depth).value.at.pos <= at.pos + bound.value
    ensures var r := ReadType(x, w, t, bound, env, at, depth).value;
            WriteType(y, room, t, r.v, bound, env, Behind(x, at), depth) == Ok(Written(Behind(x, r.at), r.v))
    decreases depth, 0, 2 * |t.dims| + 3, 0
  {
    if t.IsTerminated() {
      TerminatedRewrite(x, w, t, bound, env, at, depth, y, room);
    } else if t.base.IsText() {
      TextRewrite(x, w, t, bound, env, at, y, room);
    } else {
      DimsRewrite(x, w, t.base, t.dims, env, at, depth, y, room);
    }
  }

  // ----- operations -----

  lemma {:induction false} FieldRewrite(x: Source, w: Window, op: Op, env: Env, at: Cursor, depth: nat, y: Sink, room: Room, o: Fields)
    requires op.Field?
    requires Follows(x, w, at, y, room) && ReadField(x, w, op, env, at, depth).Ok?
    requires Agrees(o, ReadField(x, w, op, env, at, depth).value.fields)
    ensures var r := ReadField(x, w, op, env, at, depth).value;
            WriteField(y, room, op, o, env, Behind(x, at), depth) == Ok(Batch(Behind(x, r.at), r.env, r.fields))
    decreases depth, 1, op, 0
  {
    var start := Cursor(at.pos, op.order);
    var got := ReadType(x, w, op.ty, op.staticLength, env, start, depth).value;
    assert o[op.name] == got.v;
    TypeRewrite(x, w, op.ty, op.staticLength, env, start, depth, y, room);
  }

  lemma {:induction false} BlockRewrite(x: Source, w: Window, op: Op, env: Env, at: Cursor, depth: nat, y: Sink, room: Room, o: Fields)
    requires op.Block?
    requires Follows(x, w, at, y, room) && ReadBlock(x, w, op, env, at, depth).Ok?
    requires Agrees(o, ReadBlock(x, w, op, env, at, depth).value.fields)
    ensures var r := ReadBlock(x, w, op, env, at, depth).value;
            WriteBlock(y, room, op, o, env, Behind(x, at), depth) == Ok(Batch(Behind(x, r.at), r.env, r.fields))
    decreases depth, 1, op, 0
  {
    hide WriteMembers, ReadMembers, SizeOf;
    var end := at.pos + SizeOf(x.c, op.staticSize, op.size, env).value;
    var g := ReadMembers(x, Within(end, w), op.members, env, at, depth).value;
    MembersRewrite(x, Within(end, w), op.members, env, at, depth, y, Room(end, InBlock), o);
    assert x.d[g.at.pos..g.at.pos + (end - g.at.pos)] == Zeros(end - g.at.pos);
    PutTaken(x, Within(end, w), g.at, end - g.at.pos, y, Room(end, InBlock));
  }

  lemma {:induction false} VariantRewrite(x: Source, w: Window, op: Op, env: Env, at: Cursor, depth: nat, y: Sink, room: Room, o: Fields)
    requires op.Variant?
    requires Follows(x, w, at, y, room) && ReadVariant(x, w, op, env, at, depth).Ok?
    requires Agrees(o, ReadVariant(x, w, op, env, at, depth).value.fields)
    ensures var r := ReadVariant(x, w, op, env, at, depth).value;
            WriteVariant(y, room, op, o, env, Behind(x, at), depth) == Ok(Batch(Behind(x, r.at), r.env, r.fields))
    decreases depth, 1, op, 0
  {
    assert op.name in ReadVariant(x, w, op, env, at, depth).value.fields;
    match ChooseCase(x.c.fp, op.cases, Eval(x.c.fp, op.discriminator, env).value)
    case Some(i) => BranchRewrite(x, w, op.cases[i].body, env, at, depth, y, room);
    case None => BranchRewrite(x, w, op.default.value, env, at, depth, y, room);
  }

  lemma {:induction false} BranchRewrite(x: Source, w: Window, b: Branch, env: Env, at: Cursor, depth: nat, y: Sink, room: Room)
    requires Follows(x, w, at, y, room) && ReadBranch(x, w, b, env, at, depth).Ok?
    ensures var r := ReadBranch(x, w, b, env, at, depth).value;
            WriteBranch(y, room, b, r.fields, env, Behind(x, at), depth) == Ok(Batch(Behind(x, r.at), r.env, r.fields))
    decreases depth, 1, b, 0
  {
    match b
    case Typed(t) => TypeRewrite(x, w, t, None, env, at, depth, y, room);
    case Listed(members) =>
      MembersRewrite(x, w, members, env, at, depth, y, room, ReadMembers(x, w, members, env, at, depth).value.fields);
  }

  lemma {:induction false} MemberRewrite(x: Source, w: Window, op: Op, env: Env, at: Cursor, depth: nat, y: Sink, room: Room, o: Fields)
    requires Follows(x, w, at, y, room) && ReadMember(x, w, op, env, at, depth).Ok?
    requires Agrees(o, ReadMember(x, w, op, env, at, depth).value.fields)
    ensures var r := ReadMember(x, w, op, env, at, depth).value;
            WriteMember(y, room, op, o, env, Behind(x, at), depth) == Ok(Batch(Behind(x, r.at), r.env, r.fields))
    decreases depth, 1, op, 1
  {
    match op
    case Field(_, _, _, _, _, _) => FieldRewrite(x, w, op, env, at, depth, y, room, o);
    case Bits(group) => BitsRewrite(x, w, group, env, at, y, room, o);
    case Align(e, known) => AlignRewrite(x, w, e, known, env, at, y, room);
    case Block(_, _, _) => BlockRewrite(x, w, op, env, at, depth, y, room, o);
    case Conditional(condition, thenMembers, elseMembers) =>
      MembersRewrite(x, w, if EvalBool(x.c.fp, condition, env).value then thenMembers else elseMembers, env, at, depth, y, room, o);
    case Variant(_, _, _, _) => VariantRewrite(x, w, op, env, at, depth, y, room, o);
    case _ =>
  }

  lemma {:induction false} OpsRewrite(x: Source, w: Window, ops: seq<Op>, env: Env, at: Cursor, depth: nat, y: Sink, room: Room, o: Fields)
    requires Follows(x, w, at, y, room) && ReadMembers(x, w, ops, env, at, depth).Ok?
    requires Agrees(o, ReadMembers(x, w, ops, env, at, depth).value.fields)
    ensures var r := ReadMembers(x, w, ops, env, at, depth).value;
            WriteOps(y, room, ops, o, env, Behind(x, at), depth) == Ok(Batch(Behind(x, r.at), r.env, r.fields))
    decreases depth, 1, ops, 0
  {
    if ops != [] {
      var g := ReadMember(x, w, ops[0], env, at, depth).value;
      var h := ReadMembers(x, w, ops[1..], g.env, g.at, depth).value;
      assert Agrees(o, g.fields + h.fields) && g.fields.Keys !! h.fields.Keys;
      assert Agrees(o, g.fields) && Agrees(o, h.fields);
      MemberRewrite(x, w, ops[0], env, at, depth, y, room, o);
      OpsRewrite(x, w, ops[1..], g.env, g.at, depth, y, room, o);
    }
  }

  lemma {:induction false} NoAliasRead(x: Source, w: Window, ops: seq<Op>, env: Env, at: Cursor, depth: nat, o: Fields, env': Env)
    requires x.strict && ReadMembers(x, w, ops, env, at, depth).Ok?
    ensures BindAliases(x.c, ops, o, env') == Ok(env')
  {
    if ops != [] {
      var g := ReadMember(x, w, ops[0], env, at, depth).value;
      NoAliasRead(x, w, ops[1..], g.env, g.at, depth, o, env');
    }
  }

  lemma {:induction false} MembersRewrite(x: Source, w: Window, ops: seq<Op>, env: Env, at: Cursor, depth: nat, y: Sink, room: Room, o: Fields)
    requires Follows(x, w, at, y, room) && ReadMembers(x, w, ops, env, at, depth).Ok?
    requires Agrees(o, ReadMembers(x, w, ops, env, at, depth).value.fields)
    ensures var r := ReadMembers(x, w, ops, env, at, depth).value;
            WriteMembers(y, room, ops, o, env, Behind(x, at), depth) == Ok(Batch(Behind(x, r.at), r.env, r.fields))
    decreases depth, 1, ops, 1
  {
    NoAliasRead(x, w, ops, env, at, depth, o, env);
    OpsRewrite(x, w, ops, env, at, depth, y, room, o);
  }

  /** The main theorem of this direction. If the strict decode of `d` succeeds, then the decoder
      as it is gives the same value, and the encoder writes the consumed bytes again. */
  lemma DecodeThenEncode(c: Context, id: SymbolId, d: seq<byte>, parameters: Env)
    requires |d| <= U64_MAX
    requires DecodeStruct(Source(c, d, true), id, parameters).Ok?
    ensures var r := DecodeStruct(Source(c, d, true), id, parameters).value;
            && DecodeStruct(Source(c, d, false), id, parameters) == Ok(r)
            && EncodeStruct(Sink(c, false), id, r.v, parameters)
                 == Ok(Written(Ink(d[..r.at.pos], r.at.pos, r.at.order), r.v))
  {
    var x := Source(c, d, true);
    var env := InitialEnv(c.plan, parameters).value;
    var depth := c.options.maxRecursionDepth;
    PlainReadBase(x, Whole(|d|), Named(id), env, Cursor(0, Little), depth);
    assert PlainSource(x) == Source(c, d, false);
    BaseRewrite(x, Whole(|d|), Named(id), env, Cursor(0, Little), depth, Sink(c, false), Room(U64_MAX, Root));
    assert d[..0] == [];
  }
}
