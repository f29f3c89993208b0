/** Without `align` and `at` an encode does not depend on where it happens: moved behind other
    bytes, it gives the same bytes, values and environment, or the same failure. */
module PositionFree {
  import opened Outcome
  import opened Bytes
  import opened Expr
  import opened Plan
  import opened Terminator
  import opened Decode
  import opened Encode

  predicate MovableType(t: Type, ids: set<SymbolId>) {
    t.base.Named? ==> t.base.id in ids
  }

  predicate MovableBranch(b: Branch, ids: set<SymbolId>)
    decreases b
  {
    match b
    case Typed(t) => MovableType(t, ids)
    case Listed(members) => MovableOps(members, ids)
  }

  predicate MovableOp(op: Op, ids: set<SymbolId>)
    decreases op
  {
    match op
    case Field(_, _, ty, _, _, _) => MovableType(ty, ids)
    case Align(_, _) => false
    case At(_, _, _) => false
    case Block(_, _, members) => MovableOps(members, ids)
    case Conditional(_, thenMembers, elseMembers) => MovableOps(thenMembers, ids) && MovableOps(elseMembers, ids)
    case Variant(_, _, cases, default) =>
      && (forall i :: 0 <= i < |cases| ==> MovableBranch(cases[i].body, ids))
      && (default.Some? ==> MovableBranch(default.value, ids))
    case _ => true
  }

  predicate MovableOps(ops: seq<Op>, ids: set<SymbolId>)
    decreases ops
  {
    ops == [] || (MovableOp(ops[0], ids) && MovableOps(ops[1..], ids))
  }

  /** `ids` names structs without `align` and `at`, which use no other structs. */
  predicate Movable(m: Module, ids: set<SymbolId>) {
    forall id :: id in ids && id in m.structs ==> MovableOps(m.structs[id].members, ids)
  }

  // ----- moving -----

  /** The same output behind the bytes `pre`. */
  function Behind(pre: seq<byte>, pen: Pen): (r: Pen) {
    Ink(pre + pen.d, |pre| + pen.p, pen.order)
  }

  function Further(pre: seq<byte>, room: Room): Room {
    Room(|pre| + room.limit, room.zone)
  }

  function MovedPen(pre: seq<byte>, r: Result<Pen>): Result<Pen> {
    if r.Fail? then Fail(r.error) else Ok(Behind(pre, r.value))
  }

  function Moved(pre: seq<byte>, r: Result<Written>): Result<Written> {
    if r.Fail? then Fail(r.error) else Ok(Written(Behind(pre, r.value.pen), r.value.v))
  }

  function MovedAll(pre: seq<byte>, r: Result<WrittenAll>): Result<WrittenAll> {
    if r.Fail? then Fail(r.error) else Ok(WrittenAll(Behind(pre, r.value.pen), r.value.vs))
  }

  function MovedBatch(pre: seq<byte>, r: Result<Batch>): Result<Batch> {
    if r.Fail? then Fail(r.error) else Ok(Batch(Behind(pre, r.value.pen), r.value.env, r.value.fields))
  }

  lemma PutMoves(pre: seq<byte>, room: Room, pen: Pen, b: seq<byte>)
    ensures Put(Further(pre, room), Behind(pre, pen), b) == MovedPen(pre, Put(room, pen, b))
  {
    var d, p := pen.d, pen.p;
    assert (pre + d)[..|pre| + p] == pre + d[..p];
    if p + |b| <= |d| {
      assert (pre + d)[|pre| + p + |b|..] == d[p + |b|..];
      assert Overlay(pre + d, |pre| + p, b) == pre + Overlay(d, p, b);
    } else {
      assert Overlay(pre + d, |pre| + p, b) == pre + Overlay(d, p, b);
    }
  }

  lemma ZerosMove(pre: seq<byte>, room: Room, pen: Pen, n: nat)
    ensures PutZeros(Further(pre, room), Behind(pre, pen), n) == MovedPen(pre, PutZeros(room, pen, n))
  {
    hide Overlay;
    var moved := Fill(pre + pen.d, |pre| + pen.p, n);
    assert moved == pre + Fill(pen.d, pen.p, n);
  }

  lemma IntMoves(pre: seq<byte>, y: Sink, room: Room, t: IntType, v: Value, pen: Pen)
    ensures WriteInt(y, Further(pre, room), t, v, Behind(pre, pen)) == Moved(pre, WriteInt(y, room, t, v, pen))
  {
    var n := t.width.Count();
    if t.signed {
      if AsI64(v).Some? {
        PutMoves(pre, room, pen, Pack(AsI64(v).value % TWO_64, n, pen.order));
      }
    } else if AsU64(v).Some? {
      PutMoves(pre, room, pen, Pack(AsU64(v).value, n, pen.order));
    }
  }

  lemma TextMoves(pre: seq<byte>, y: Sink, room: Room, base: Base, dims: seq<Dim>, v: Value, bound: Option<u64>, env: Env, pen: Pen)
    ensures WriteText(y, Further(pre, room), base, dims, v, bound, env, Behind(pre, pen))
              == Moved(pre, WriteText(y, room, base, dims, v, bound, env, pen))
  {
    if TextBytes(base, v).Ok? {
      PutMoves(pre, room, pen, TextBytes(base, v).value);
    }
  }

  lemma TerminatedBytesMove(pre: seq<byte>, y: Sink, room: Room, t: seq<byte>, max: u64, v: Value, bound: Option<u64>, pen: Pen)
    ensures WriteTerminatedBytes(y, Further(pre, room), t, max, v, bound, Behind(pre, pen))
              == Moved(pre, WriteTerminatedBytes(y, room, t, max, v, bound, pen))
  {
    if v.Blob? {
      PutMoves(pre, room, pen, v.bytes + t);
    }
  }

  lemma BitsMove(pre: seq<byte>, y: Sink, room: Room, g: BitsGroup, o: Fields, env: Env, pen: Pen)
    ensures WriteBits(y, Further(pre, room), g, o, env, Behind(pre, pen)) == MovedBatch(pre, WriteBits(y, room, g, o, env, pen))
  {
    var order := g[0].order;
    var got := WriteBitsFields(y, g, o, env);
    if got.Ok? {
      PutMoves(pre, room, pen.(order := order), Pack(Padded(got.value.0, PaddingBits(g)), StorageBytes(g), order));
    }
  }

  // ----- types -----

  lemma {:induction false} BaseMoves(pre: seq<byte>, y: Sink, room: Room, base: Base, v: Value, env: Env, pen: Pen, depth: nat, ids: set<SymbolId>)
    requires Movable(y.c.plan, ids) && (base.Named? ==> base.id in ids)
    ensures WriteBase(y, Further(pre, room), base, v, env, Behind(pre, pen), depth)
              == Moved(pre, WriteBase(y, room, base, v, env, pen, depth))
    decreases depth, 0, 0, 0
  {
    match base
    case Primitive(it) => IntMoves(pre, y, room, it, v, pen);
    case Named(id) =>
      if id in y.c.plan.structs {
        if v.Obj? && depth > 0 {
          var s := y.c.plan.structs[id];
          MembersMove(pre, y, room, s.members, v.fields, WithSizes(s, env), pen.(order := s.order), depth - 1, ids);
        }
      } else if id in y.c.plan.enums {
        IntMoves(pre, y, room, y.c.plan.enums[id], v, pen);
      }
    case _ => TextMoves(pre, y, room, base, [], v, None, env, pen);
  }

  lemma {:induction false} DimsMove(pre: seq<byte>, y: Sink, room: Room, base: Base, dims: seq<Dim>, v: Value, env: Env, pen: Pen, depth: nat, ids: set<SymbolId>)
    requires Movable(y.c.plan, ids) && (base.Named? ==> base.id in ids)
    ensures WriteDims(y, Further(pre, room), base, dims, v, env, Behind(pre, pen), depth)
              == Moved(pre, WriteDims(y, room, base, dims, v, env, pen, depth))
    decreases depth, 0, 2 * |dims| + 1, 0
  {
    hide WriteBase, WriteElems, Grows;
    if dims == [] {
      BaseMoves(pre, y, room, base, v, env, pen, depth, ids);
    } else if v.Arr? {
      ElemsMove(pre, y, room, base, dims[1..], v.items, env, pen, depth, ids);
    }
  }

  lemma {:induction false} ElemsMove(pre: seq<byte>, y: Sink, room: Room, base: Base, dims: seq<Dim>, vs: seq<Value>, env: Env, pen: Pen, depth: nat, ids: set<SymbolId>)
    requires Movable(y.c.plan, ids) && (base.Named? ==> base.id in ids)
    ensures WriteElems(y, Further(pre, room), base, dims, vs, env, Behind(pre, pen), depth)
              == MovedAll(pre, WriteElems(y, room, base, dims, vs, env, pen, depth))
    decreases depth, 0, 2 * |dims| + 2, |vs|
  {
    if vs != [] {
      DimsMove(pre, y, room, base, dims, vs[0], env, pen, depth, ids);
      var first := WriteDims(y, room, base, dims, vs[0], env, pen, depth);
      if first.Ok? {
        ElemsMove(pre, y, room, base, dims, vs[1..], env, first.value.pen, depth, ids);
      }
    }
  }

  lemma LooksMove(pre: seq<byte>, d: seq<byte>, from: nat, t: seq<byte>)
    ensures LooksTerminated(pre + d, |pre| + from, t) == LooksTerminated(d, from, t)
  {
    if from + |t| <= |d| {
      assert (pre + d)[|pre| + from..|pre| + from + |t|] == d[from..from + |t|];
    }
  }

  lemma {:induction false} SeqMoves(pre: seq<byte>, y: Sink, room: Room, t: Type, vs: seq<Value>, start: nat, bound: Option<u64>, env: Env, pen: Pen, depth: nat, ids: set<SymbolId>)
    requires Movable(y.c.plan, ids) && MovableType(t, ids) && t.maxPayload.Some?
    ensures WriteSeq(y, Further(pre, room), t, vs, |pre| + start, bound, env, Behind(pre, pen), depth)
              == MovedAll(pre, WriteSeq(y, room, t, vs, start, bound, env, pen, depth))
    decreases depth, 0, 1, |vs|
  {
    hide WriteBase, Put, Overlay, LooksTerminated, Grows;
    if vs == [] {
      PutMoves(pre, room, pen, t.terminator);
    } else {
      BaseMoves(pre, y, room, t.base, vs[0], env, pen, depth, ids);
      var first := WriteBase(y, room, t.base, vs[0], env, pen, depth);
      if first.Ok? {
        SeqMoves(pre, y, room, t, vs[1..], start, bound, env, first.value.pen, depth, ids);
        var rest := WriteSeq(y, room, t, vs[1..], start, bound, env, first.value.pen, depth);
        if rest.Ok? {
          LooksMove(pre, rest.value.pen.d, pen.p, t.terminator);
        }
      }
    }
  }

  lemma {:induction false} SequenceFormMoves(pre: seq<byte>, y: Sink, room: Room, t: Type, v: Value, bound: Option<u64>, env: Env, pen: Pen, depth: nat, ids: set<SymbolId>)
    requires Movable(y.c.plan, ids) && MovableType(t, ids) && t.maxPayload.Some?
    ensures WriteSequenceForm(y, Further(pre, room), t, v, bound, env, Behind(pre, pen), depth)
              == Moved(pre, WriteSequenceForm(y, room, t, v, bound, env, pen, depth))
    decreases depth, 0, 2, 0
  {
    hide WriteSeq;
    if v.Arr? {
      SeqMoves(pre, y, Room(room.limit, InSequence), t, v.items, pen.p, bound, env, pen, depth, ids);
    }
  }

  lemma {:induction false} TerminatedMoves(pre: seq<byte>, y: Sink, room: Room, t: Type, v: Value, bound: Option<u64>, env: Env, pen: Pen, depth: nat, ids: set<SymbolId>)
    requires Movable(y.c.plan, ids) && MovableType(t, ids)
    ensures WriteTerminated(y, Further(pre, room), t, v, bound, env, Behind(pre, pen), depth)
              == Moved(pre, WriteTerminated(y, room, t, v, bound, env, pen, depth))
    decreases depth, 0, 2, 1
  {
    if t.maxPayload.Some? {
      if t.IsByteForm() {
        TerminatedBytesMove(pre, y, room, t.terminator, t.maxPayload.value, v, bound, pen);
      } else {
        SequenceFormMoves(pre, y, room, t, v, bound, env, pen, depth, ids);
      }
    }
  }

  lemma {:induction false} TypeMoves(pre: seq<byte>, y: Sink, room: Room, t: Type, v: Value, bound: Option<u64>, env: Env, pen: Pen, depth: nat, ids: set<SymbolId>)
    requires Movable(y.c.plan, ids) && MovableType(t, ids)
    ensures WriteType(y, Further(pre, room), t, v, bound, env, Behind(pre, pen), depth)
              == Moved(pre, WriteType(y, room, t, v, bound, env, pen, depth))
    decreases depth, 0, 2 * |t.dims| + 3, 0
  {
    if t.IsTerminated() {
      TerminatedMoves(pre, y, room, t, v, bound, env, pen, depth, ids);
    } else if t.base.IsText() {
      TextMoves(pre, y, room, t.base, t.dims, v, bound, env, pen);
    } else {
      DimsMove(pre, y, room, t.base, t.dims, v, env, pen, depth, ids);
    }
  }

  // ----- operations -----

  lemma {:induction false} BranchMoves(pre: seq<byte>, y: Sink, room: Room, body: Branch, o: Fields, env: Env, pen: Pen, depth: nat, ids: set<SymbolId>)
    requires Movable(y.c.plan, ids) && MovableBranch(body, ids)
    ensures WriteBranch(y, Further(pre, room), body, o, env, Behind(pre, pen), depth)
              == MovedBatch(pre, WriteBranch(y, room, body, o, env, pen, depth))
    decreases depth, 1, body, 0
  {
    match body
    case Typed(t) =>
      if "value" in o {
        TypeMoves(pre, y, room, t, o["value"], None, env, pen, depth, ids);
      }
    case Listed(members) => MembersMove(pre, y, room, members, o, env, pen, depth, ids);
  }

  lemma {:induction false} FieldMoves(pre: seq<byte>, y: Sink, room: Room, op: Op, o: Fields, env: Env, pen: Pen, depth: nat, ids: set<SymbolId>)
    requires Movable(y.c.plan, ids) && op.Field? && MovableOp(op, ids)
    ensures WriteField(y, Further(pre, room), op, o, env, Behind(pre, pen), depth)
              == MovedBatch(pre, WriteField(y, room, op, o, env, pen, depth))
    decreases depth, 1, op, 0
  {
    if FieldInput(op, o, env).Ok? {
      TypeMoves(pre, y, room, op.ty, FieldInput(op, o, env).value, op.staticLength, env, pen.(order := op.order), depth, ids);
    }
  }

  lemma {:induction false} BlockMoves(pre: seq<byte>, y: Sink, room: Room, op: Op, o: Fields, env: Env, pen: Pen, depth: nat, ids: set<SymbolId>)
    requires Movable(y.c.plan, ids) && op.Block? && MovableOp(op, ids)
    ensures WriteBlock(y, Further(pre, room), op, o, env, Behind(pre, pen), depth)
              == MovedBatch(pre, WriteBlock(y, room, op, o, env, pen, depth))
    decreases depth, 1, op, 0
  {
    hide WriteMembers, SizeOf, Fill, Grows, Movable, MovableOps, Overlay;
    var n := SizeOf(y.c, op.staticSize, op.size, env);
    if n.Ok? {
      var inner := Room(pen.p + n.value, InBlock);
      MembersMove(pre, y, inner, op.members, o, env, pen, depth, ids);
      var b := WriteMembers(y, inner, op.members, o, env, pen, depth);
      if b.Ok? && b.value.pen.p <= inner.limit {
        ZerosMove(pre, inner, b.value.pen, inner.limit - b.value.pen.p);
      }
    }
  }

  lemma {:induction false} VariantMoves(pre: seq<byte>, y: Sink, room: Room, op: Op, o: Fields, env: Env, pen: Pen, depth: nat, ids: set<SymbolId>)
    requires Movable(y.c.plan, ids) && op.Variant? && MovableOp(op, ids)
    ensures WriteVariant(y, Further(pre, room), op, o, env, Behind(pre, pen), depth)
              == MovedBatch(pre, WriteVariant(y, room, op, o, env, pen, depth))
    decreases depth, 1, op, 0
  {
    if op.name in o && o[op.name].Obj? && Eval(y.c.fp, op.discriminator, env).Ok? {
      match ChooseCase(y.c.fp, op.cases, Eval(y.c.fp, op.discriminator, env).value) {
        case Some(i) => BranchMoves(pre, y, room, op.cases[i].body, o[op.name].fields, env, pen, depth, ids);
        case None => if op.default.Some? { BranchMoves(pre, y, room, op.default.value, o[op.name].fields, env, pen, depth, ids); }
      }
    }
  }

  lemma {:induction false} MemberMoves(pre: seq<byte>, y: Sink, room: Room, op: Op, o: Fields, env: Env, pen: Pen, depth: nat, ids: set<SymbolId>)
    requires Movable(y.c.plan, ids) && MovableOp(op, ids)
    ensures WriteMember(y, Further(pre, room), op, o, env, Behind(pre, pen), depth)
              == MovedBatch(pre, WriteMember(y, room, op, o, env, pen, depth))
    decreases depth, 1, op, 1
  {
    match op
    case Field(_, _, _, _, _, _) => FieldMoves(pre, y, room, op, o, env, pen, depth, ids);
    case Bits(group) => BitsMove(pre, y, room, group, o, env, pen);
    case Block(_, _, _) => BlockMoves(pre, y, room, op, o, env, pen, depth, ids);
    case Conditional(_, thenMembers, elseMembers) =>
      MembersMove(pre, y, room, thenMembers, o, env, pen, depth, ids);
      MembersMove(pre, y, room, elseMembers, o, env, pen, depth, ids);
    case Variant(_, _, _, _) => VariantMoves(pre, y, room, op, o, env, pen, depth, ids);
    case _ =>
  }

  lemma {:induction false} OpsMove(pre: seq<byte>, y: Sink, room: Room, ops: seq<Op>, o: Fields, env: Env, pen: Pen, depth: nat, ids: set<SymbolId>)
    requires Movable(y.c.plan, ids) && MovableOps(ops, ids)
    ensures WriteOps(y, Further(pre, room), ops, o, env, Behind(pre, pen), depth)
              == MovedBatch(pre, WriteOps(y, room, ops, o, env, pen, depth))
    decreases depth, 1, ops, 0
  {
    if ops != [] {
      MemberMoves(pre, y, room, ops[0], o, env, pen, depth, ids);
      var b := WriteMember(y, room, ops[0], o, env, pen, depth);
      if b.Ok? {
        OpsMove(pre, y, room, ops[1..], o, b.value.env, b.value.pen, depth, ids);
      }
    }
  }

  lemma {:induction false} MembersMove(pre: seq<byte>, y: Sink, room: Room, ops: seq<Op>, o: Fields, env: Env, pen: Pen, depth: nat, ids: set<SymbolId>)
    requires Movable(y.c.plan, ids) && MovableOps(ops, ids)
    ensures WriteMembers(y, Further(pre, room), ops, o, env, Behind(pre, pen), depth)
              == MovedBatch(pre, WriteMembers(y, room, ops, o, env, pen, depth))
    decreases depth, 1, ops, 1
  {
    if BindAliases(y.c, ops, o, env).Ok? {
      OpsMove(pre, y, room, ops, o, BindAliases(y.c, ops, o, env).value, pen, depth, ids);
    }
  }
}
