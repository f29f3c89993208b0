/** The round trip without strict mode: for plans of a fragment that can be recognized statically,
    and for canonical values, a successful encode as it is already makes all the tests that strict
    mode adds. */
module Canonical {
  import opened Outcome
  import opened Bytes
  import opened Expr
  import opened Plan
  import opened Terminator
  import opened Decode
  import opened Encode
  import opened Strict
  import opened RoundTrip
  import opened Conditions
  import opened Logical
  import opened Steady

  // ----- the entries of a run -----

  lemma AgreesParts(o: Fields, a: Fields, b: Fields)
    requires Agrees(o, a + b) && a.Keys !! b.Keys
    ensures Agrees(o, a) && Agrees(o, b)
  {
    forall n | n in a ensures n in o && o[n] == a[n] {
      assert n in a + b && (a + b)[n] == a[n];
    }
    forall n | n in b ensures n in o && o[n] == b[n] {
      assert n in a + b && (a + b)[n] == b[n];
    }
  }

  lemma {:induction false} GroupWritesItsNames(y: Sink, fs: seq<BitsField>, o: Fields, env: Env)
    requires TotalBits(fs) <= 64 && WriteBitsFields(y, fs, o, env).Ok?
    ensures WriteBitsFields(y, fs, o, env).value.2.Keys == GroupNames(fs)
  {
    if fs != [] {
      GroupWritesItsNames(y, fs[1..], o, env[fs[0].symbol := U(AsU64(o[fs[0].name]).value)]);
    }
  }

  lemma {:induction false} MemberWritesItsNames(y: Sink, room: Room, op: Op, o: Fields, env: Env, pen: Pen, depth: nat)
    requires WriteMember(y, room, op, o, env, pen, depth).Ok?
    ensures WriteMember(y, room, op, o, env, pen, depth).value.fields.Keys <= Names(op)
    decreases op, 0
  {
    hide Eval, Put, PutZeros, Fill, Grows, BindAliases, Padded, AlignUp;
    match op
    case Bits(group) => GroupWritesItsNames(y, group, o, env);
    case At(e, known, members) =>
      assert WriteAt(y, room, op, o, env, pen, depth).Ok?;
      var off := SizeOf(y.c, known, e, env[NEXT := U(pen.p)]).value;
      var d := if off > |pen.d| then pen.d + Zeros(off - |pen.d|) else pen.d;
      assert WriteMembers(y, room, members, o, env, Ink(d, off, pen.order), depth).Ok?;
      OpsWriteTheirNames(y, room, members, o, BindAliases(y.c, members, o, env).value, Ink(d, off, pen.order), depth);
    case Block(e, known, members) =>
      assert WriteBlock(y, room, op, o, env, pen, depth).Ok?;
      var end := pen.p + SizeOf(y.c, known, e, env).value;
      assert WriteMembers(y, Room(end, InBlock), members, o, env, pen, depth).Ok?;
      OpsWriteTheirNames(y, Room(end, InBlock), members, o, BindAliases(y.c, members, o, env).value, pen, depth);
    case Conditional(e, thenMembers, elseMembers) =>
      var chosen := if EvalBool(y.c.fp, e, env).value then thenMembers else elseMembers;
      OpsWriteTheirNames(y, room, chosen, o, BindAliases(y.c, chosen, o, env).value, pen, depth);
    case _ =>
  }

  lemma {:induction false} OpsWriteTheirNames(y: Sink, room: Room, ops: seq<Op>, o: Fields, env: Env, pen: Pen, depth: nat)
    requires WriteOps(y, room, ops, o, env, pen, depth).Ok?
    ensures WriteOps(y, room, ops, o, env, pen, depth).value.fields.Keys <= NamesOf(ops)
    decreases ops, 0
  {
    if ops != [] {
      MemberWritesItsNames(y, room, ops[0], o, env, pen, depth);
      var b := WriteMember(y, room, ops[0], o, env, pen, depth).value;
      OpsWriteTheirNames(y, room, ops[1..], o, b.env, b.pen, depth);
    }
  }

  // ----- a canonical run is a strict run -----

  /** The decoder allocates at most so many bytes for one byte string. */
  predicate TextsFit(v: Value, max: nat)
    decreases v
  {
    match v
    case Text(t) => |t| <= max
    case Blob(b) => |b| <= max
    case Obj(fields) => forall n :: n in fields ==> TextsFit(fields[n], max)
    case Arr(items) => forall i :: 0 <= i < |items| ==> TextsFit(items[i], max)
    case _ => true
  }

  predicate EntriesFit(f: Fields, max: nat) {
    forall n :: n in f ==> TextsFit(f[n], max)
  }

  lemma IntIsStrict(c: Context, room: Room, t: IntType, v: Value, pen: Pen)
    requires WriteInt(Sink(c, false), room, t, v, pen).Ok? && WriteInt(Sink(c, false), room, t, v, pen).value.v == v
    ensures WriteInt(Sink(c, true), room, t, v, pen) == WriteInt(Sink(c, false), room, t, v, pen)
  {
  }

  /** A result at its place: no limit outside, or the end of the block. */
  predicate Holds(place: Place, room: Room, after: Pen) {
    match place
    case AtRoot => room.zone == Root
    case Inside => true
    case Filling => room.zone == InBlock && after.p == room.limit
  }

  lemma TextIsStrict(c: Context, room: Room, t: Type, v: Value, bound: Option<u64>, env: Env, pen: Pen, g: Fragment, place: Place)
    requires SteadyText(t.dims, g, place, bound.Some?) && ReadableText(c, t, v, env)
    requires WriteText(Sink(c, false), room, t.base, t.dims, v, bound, env, pen).Ok?
    requires var after := WriteText(Sink(c, false), room, t.base, t.dims, v, bound, env, pen).value.pen;
             Holds(place, room, after) && (bound.Some? ==> after.p == pen.p + bound.value)
    requires TextsFit(v, c.options.maxAllocationBytes)
    ensures WriteText(Sink(c, true), room, t.base, t.dims, v, bound, env, pen) == WriteText(Sink(c, false), room, t.base, t.dims, v, bound, env, pen)
  {
    hide Eval, Grows;
    var after := WriteText(Sink(c, false), room, t.base, t.dims, v, bound, env, pen).value.pen;
    var n := |TextBytes(t.base, v).value|;
    assert after.p == pen.p + n;
    assert n <= c.options.maxAllocationBytes;
    assert LengthAgrees(Sink(c, true), room, t.dims, bound, env, n, pen.p + n);
  }

  lemma PayloadIsStrict(c: Context, room: Room, t: Type, v: Value, bound: Option<u64>, pen: Pen, g: Fragment, place: Place)
    requires t.IsTerminated() && t.IsByteForm() && t.maxPayload.Some? && SteadyTerminated(t, g, place)
    requires WriteTerminatedBytes(Sink(c, false), room, t.terminator, t.maxPayload.value, v, bound, pen).Ok?
    ensures WriteTerminatedBytes(Sink(c, true), room, t.terminator, t.maxPayload.value, v, bound, pen)
         == WriteTerminatedBytes(Sink(c, false), room, t.terminator, t.maxPayload.value, v, bound, pen)
    ensures WriteTerminatedBytes(Sink(c, false), room, t.terminator, t.maxPayload.value, v, bound, pen).value.pen.order == pen.order
  {
    PayloadsReadBack(t.terminator, t.maxPayload.value);
    assert IsAccepted(t.terminator, t.maxPayload.value, v.bytes);
  }

  lemma {:induction false} BitsFieldsAreStrict(c: Context, fs: seq<BitsField>, o: Fields, env: Env, order: Order)
    requires TotalBits(fs) <= 64 && OneOrder(fs, order)
    requires WriteBitsFields(Sink(c, false), fs, o, env).Ok?
    requires Agrees(o, WriteBitsFields(Sink(c, false), fs, o, env).value.2)
    ensures WriteBitsFields(Sink(c, true), fs, o, env) == WriteBitsFields(Sink(c, false), fs, o, env)
  {
    hide Pow2, Shift, GroupNames;
    if fs != [] {
      var f := fs[0];
      var u := AsU64(o[f.name]).value;
      var rest := WriteBitsFields(Sink(c, false), fs[1..], o, env[f.symbol := U(u)]).value;
      GroupWritesItsNames(Sink(c, false), fs[1..], o, env[f.symbol := U(u)]);
      NotAmong(fs[1..], f.name);
      AgreesParts(o, map[f.name := Num(U(u))], rest.2);
      BitsFieldsAreStrict(c, fs[1..], o, env[f.symbol := U(u)], order);
      assert f.name in map[f.name := Num(U(u))];
    }
  }

  lemma GroupAgrees(c: Context, room: Room, g: BitsGroup, o: Fields, env: Env, pen: Pen)
    requires WriteBits(Sink(c, false), room, g, o, env, pen).Ok? && Agrees(o, WriteBits(Sink(c, false), room, g, o, env, pen).value.fields)
    ensures WriteBitsFields(Sink(c, false), g, o, env).Ok? && Agrees(o, WriteBitsFields(Sink(c, false), g, o, env).value.2)
  {
  }

  lemma BitsAreStrict(c: Context, room: Room, group: BitsGroup, o: Fields, env: Env, pen: Pen, g: Fragment)
    requires SteadyGroup(group, g.order) && InOrder(pen.order, g.order)
    requires WriteBits(Sink(c, false), room, group, o, env, pen).Ok? && Agrees(o, WriteBits(Sink(c, false), room, group, o, env, pen).value.fields)
    ensures WriteBits(Sink(c, true), room, group, o, env, pen) == WriteBits(Sink(c, false), room, group, o, env, pen)
    ensures InOrder(WriteBits(Sink(c, false), room, group, o, env, pen).value.pen.order, g.order)
  {
    hide WriteBitsFields, Agrees, Pack, Padded, Put;
    GroupOrder(group, group[0].order);
    GroupAgrees(c, room, group, o, env, pen);
    BitsFieldsAreStrict(c, group, o, env, group[0].order);
  }

  // ----- elements that cannot look like the terminator -----

  lemma IntIsLead(c: Context, room: Room, it: IntType, v: Value, pen: Pen)
    requires AtEnd(room, pen) && WriteInt(Sink(c, true), room, it, v, pen).Ok?
    ensures IntBytes(it, v, pen.order).Some?
    ensures WriteInt(Sink(c, true), room, it, v, pen).value.pen.d == pen.d + IntBytes(it, v, pen.order).value
  {
    hide Pack, Pow2;
  }

  /** What an element begins with stands where it was written. */
  lemma {:induction false} LeadIsWritten(c: Context, room: Room, base: Base, v: Value, env: Env, pen: Pen, depth: nat)
    requires AtEnd(room, pen) && WriteBase(Sink(c, true), room, base, v, env, pen, depth).Ok?
    requires Lead(c, base, v, pen.order, depth).Some?
    ensures pen.d + Lead(c, base, v, pen.order, depth).value <= WriteBase(Sink(c, true), room, base, v, env, pen, depth).value.pen.d
    decreases depth, 0
  {
    hide WriteMembers, WriteText, IntBytes, WriteInt;
    match base
    case Primitive(it) => IntIsLead(c, room, it, v, pen);
    case Named(id) =>
      if id in c.plan.structs {
        var s := c.plan.structs[id];
        assert WriteStruct(Sink(c, true), room, s, v.fields, env, pen, depth - 1).Ok?;
        LeadOfStruct(c, room, s, v, WithSizes(s, env), pen.(order := s.order), depth - 1);
      } else {
        IntIsLead(c, room, c.plan.enums[id], v, pen);
      }
    case _ =>
  }

  lemma {:induction false} LeadOfStruct(c: Context, room: Room, s: Struct, v: Value, env: Env, pen: Pen, depth: nat)
    requires v.Obj? && s.members != [] && s.members[0].Field? && s.members[0].name in v.fields
    requires s.members[0].ty.dims == [] && !s.members[0].ty.IsTerminated()
    requires AtEnd(room, pen) && WriteMembers(Sink(c, true), room, s.members, v.fields, env, pen, depth).Ok?
    requires Lead(c, s.members[0].ty.base, v.fields[s.members[0].name], s.members[0].order, depth).Some?
    ensures pen.d + Lead(c, s.members[0].ty.base, v.fields[s.members[0].name], s.members[0].order, depth).value
            <= WriteMembers(Sink(c, true), room, s.members, v.fields, env, pen, depth).value.pen.d
    decreases depth, 1
  {
    hide WriteBase, WriteText, WriteDims, Matches, BindAliases;
    var y, op := Sink(c, true), s.members[0];
    var bound := BindAliases(c, s.members, v.fields, env).value;
    var start := pen.(order := op.order);
    var first := WriteMember(y, room, op, v.fields, bound, pen, depth).value;
    assert WriteField(y, room, op, v.fields, bound, pen, depth).Ok?;
    assert WriteType(y, room, op.ty, v.fields[op.name], op.staticLength, bound, start, depth).Ok?;
    assert !op.ty.base.IsText();
    assert WriteDims(y, room, op.ty.base, [], v.fields[op.name], bound, start, depth).Ok?;
    ScalarStep(y, room, op.ty.base, v.fields[op.name], bound, start, depth);
    LeadIsWritten(c, room, op.ty.base, v.fields[op.name], bound, start, depth);
    assert first.pen.d <= WriteOps(y, room, s.members, v.fields, bound, pen, depth).value.pen.d;
  }

  lemma ScalarStep(y: Sink, room: Room, base: Base, v: Value, env: Env, pen: Pen, depth: nat)
    ensures WriteDims(y, room, base, [], v, env, pen, depth) == WriteBase(y, room, base, v, env, pen, depth)
  {
  }

  /** Behind an element that avoids the terminator, its boundary does not look like it. */
  lemma BoundaryIsClear(d: seq<byte>, p: nat, lead: seq<byte>, t: seq<byte>, before: seq<byte>)
    requires p == |before| && before + lead <= d && |t| <= |lead| && lead[..|t|] != t
    ensures !LooksTerminated(d, p, t)
  {
    assert (before + lead)[p..p + |t|] == lead[..|t|];
    assert d[p..p + |t|] == (before + lead)[p..p + |t|];
  }

  /** The pen in the byte order of the sequence, unless its elements set their own. */
  predicate Orderly(c: Context, base: Base, order: Option<Order>, pen: Pen) {
    (base.Named? && base.id in c.plan.structs) || order.None? || pen.order == order.value
  }

  lemma LeadInAnyOrder(c: Context, base: Base, v: Value, a: Order, b: Order, depth: nat)
    requires base.Named? && base.id in c.plan.structs
    ensures Lead(c, base, v, a, depth) == Lead(c, base, v, b, depth)
  {
  }

  lemma AvoidsHere(c: Context, base: Base, v: Value, pen: Pen, depth: nat, t: seq<byte>, order: Option<Order>)
    requires Orderly(c, base, order, pen) && Avoids(c, base, v, t, order, depth)
    ensures AvoidsIn(c, base, v, t, pen.order, depth)
  {
    hide Lead;
    if order.Some? && order.value != pen.order {
      LeadInAnyOrder(c, base, v, pen.order, order.value, depth);
      assert AvoidsIn(c, base, v, t, order.value, depth) by {
        assert order.value == Little || order.value == Big;
      }
    } else {
      assert pen.order == Little || pen.order == Big;
    }
  }

  lemma ElementIsClear(c: Context, room: Room, base: Base, v: Value, env: Env, pen: Pen, depth: nat, t: seq<byte>, order: Option<Order>)
    requires t != [] && AtEnd(room, pen) && Orderly(c, base, order, pen) && Avoids(c, base, v, t, order, depth)
    requires WriteBase(Sink(c, true), room, base, v, env, pen, depth).Ok?
    ensures var after := WriteBase(Sink(c, true), room, base, v, env, pen, depth).value.pen;
            && after.p > pen.p && Orderly(c, base, order, after)
            && forall d :: after.d <= d ==> !LooksTerminated(d, pen.p, t)
  {
    hide Lead, LooksTerminated, Avoids;
    var after := WriteBase(Sink(c, true), room, base, v, env, pen, depth).value.pen;
    AvoidsHere(c, base, v, pen, depth, t, order);
    var lead := Lead(c, base, v, pen.order, depth).value;
    LeadIsWritten(c, room, base, v, env, pen, depth);
    forall d | after.d <= d ensures !LooksTerminated(d, pen.p, t) {
      BoundaryIsClear(d, pen.p, lead, t, pen.d);
    }
    if !(base.Named? && base.id in c.plan.structs) {
      ScalarKeepsOrder(c, room, base, v, env, pen, depth);
    }
  }

  lemma ScalarKeepsOrder(c: Context, room: Room, base: Base, v: Value, env: Env, pen: Pen, depth: nat)
    requires WriteBase(Sink(c, true), room, base, v, env, pen, depth).Ok? && !(base.Named? && base.id in c.plan.structs)
    ensures WriteBase(Sink(c, true), room, base, v, env, pen, depth).value.pen.order == pen.order
  {
    hide WriteStruct, Pack, Pow2;
  }

  // ----- a run of the fragment is a strict run -----

  /** The setting of every lemma here. */
  predicate Standing(c: Context, room: Room, pen: Pen, g: Fragment) {
    SteadyPlan(c, g) && AtEnd(room, pen) && InOrder(pen.order, g.order)
  }

  lemma {:induction false} BaseIsStrict(c: Context, room: Room, base: Base, v: Value, env: Env, pen: Pen, depth: nat, g: Fragment, place: Place)
    requires Standing(c, room, pen, g) && !base.IsText() && NamedAt(base, g, place) && ReadableBase(c, base, v, env, depth)
    requires WriteBase(Sink(c, false), room, base, v, env, pen, depth).Ok?
    requires WriteBase(Sink(c, false), room, base, v, env, pen, depth).value.v == v
    requires Holds(place, room, WriteBase(Sink(c, false), room, base, v, env, pen, depth).value.pen)
    requires TextsFit(v, c.options.maxAllocationBytes)
    ensures WriteBase(Sink(c, true), room, base, v, env, pen, depth) == WriteBase(Sink(c, false), room, base, v, env, pen, depth)
    ensures InOrder(WriteBase(Sink(c, false), room, base, v, env, pen, depth).value.pen.order, g.order)
    decreases depth, 0, 0, 0
  {
    hide WriteMembers, WriteInt, SteadyOps, ReadableOps, CheckRequirements;
    match base
    case Primitive(it) => ScalarIsStrict(c, room, it, v, pen);
    case Named(id) =>
      if id in c.plan.structs {
        var s := c.plan.structs[id];
        assert WriteStruct(Sink(c, false), room, s, v.fields, env, pen, depth - 1).Ok?;
        MembersAreStrict(c, room, s.members, v.fields, WithSizes(s, env), pen.(order := s.order), depth - 1, g, g.places[id]);
      } else {
        ScalarIsStrict(c, room, c.plan.enums[id], v, pen);
      }
  }

  lemma ScalarIsStrict(c: Context, room: Room, t: IntType, v: Value, pen: Pen)
    requires WriteInt(Sink(c, false), room, t, v, pen).Ok? && WriteInt(Sink(c, false), room, t, v, pen).value.v == v
    ensures WriteInt(Sink(c, true), room, t, v, pen) == WriteInt(Sink(c, false), room, t, v, pen)
    ensures WriteInt(Sink(c, true), room, t, v, pen).value.pen.order == pen.order
  {
    IntIsStrict(c, room, t, v, pen);
  }

  lemma {:induction false} DimsAreStrict(c: Context, room: Room, base: Base, dims: seq<Dim>, v: Value, env: Env, pen: Pen, depth: nat, g: Fragment, place: Place)
    requires Standing(c, room, pen, g) && !base.IsText() && NamedAt(base, g, if dims == [] then place else Before(place))
    requires ReadableDims(c, base, dims, v, env, depth)
    requires WriteDims(Sink(c, false), room, base, dims, v, env, pen, depth).Ok?
    requires WriteDims(Sink(c, false), room, base, dims, v, env, pen, depth).value.v == v
    requires Holds(place, room, WriteDims(Sink(c, false), room, base, dims, v, env, pen, depth).value.pen)
    requires TextsFit(v, c.options.maxAllocationBytes)
    ensures WriteDims(Sink(c, true), room, base, dims, v, env, pen, depth) == WriteDims(Sink(c, false), room, base, dims, v, env, pen, depth)
    ensures InOrder(WriteDims(Sink(c, false), room, base, dims, v, env, pen, depth).value.pen.order, g.order)
    decreases depth, 0, 2 * |dims| + 1, 0
  {
    hide WriteBase, WriteElems, ReadableBase, SteadyPlan, Extents, Product;
    if dims == [] {
      BaseIsStrict(c, room, base, v, env, pen, depth, g, place);
    } else {
      ElemsAreStrict(c, room, base, dims[1..], v.items, env, pen, depth, g, Before(place));
    }
  }

  lemma {:induction false} ElemsAreStrict(c: Context, room: Room, base: Base, dims: seq<Dim>, vs: seq<Value>, env: Env, pen: Pen, depth: nat, g: Fragment, place: Place)
    requires Standing(c, room, pen, g) && !base.IsText() && !place.Filling? && NamedAt(base, g, place)
    requires forall i :: 0 <= i < |vs| ==> ReadableDims(c, base, dims, vs[i], env, depth)
    requires WriteElems(Sink(c, false), room, base, dims, vs, env, pen, depth).Ok?
    requires WriteElems(Sink(c, false), room, base, dims, vs, env, pen, depth).value.vs == vs
    requires Holds(place, room, pen)
    requires forall i :: 0 <= i < |vs| ==> TextsFit(vs[i], c.options.maxAllocationBytes)
    ensures WriteElems(Sink(c, true), room, base, dims, vs, env, pen, depth) == WriteElems(Sink(c, false), room, base, dims, vs, env, pen, depth)
    ensures InOrder(WriteElems(Sink(c, false), room, base, dims, vs, env, pen, depth).value.pen.order, g.order)
    decreases depth, 0, 2 * |dims| + 2, |vs|
  {
    hide WriteDims, ReadableDims, SteadyPlan, NamedAt, TextsFit;
    if vs != [] {
      var first := WriteDims(Sink(c, false), room, base, dims, vs[0], env, pen, depth).value;
      var rest := WriteElems(Sink(c, false), room, base, dims, vs[1..], env, first.pen, depth).value;
      assert vs == [first.v] + rest.vs;
      DimsAreStrict(c, room, base, dims, vs[0], env, pen, depth, g, place);
      ElemsAreStrict(c, room, base, dims, vs[1..], env, first.pen, depth, g, place);
    }
  }

  lemma {:induction false} SeqIsStrict(c: Context, room: Room, t: Type, vs: seq<Value>, start: nat, bound: Option<u64>, env: Env, pen: Pen, depth: nat, g: Fragment, order: Option<Order>)
    requires Standing(c, room, pen, g) && t.maxPayload.Some? && t.IsTerminated() && NamedAt(t.base, g, Inside) && Orderly(c, t.base, order, pen)
    requires forall i :: 0 <= i < |vs| ==> ReadableBase(c, t.base, vs[i], env, depth) && Avoids(c, t.base, vs[i], t.terminator, order, depth)
    requires WriteSeq(Sink(c, false), room, t, vs, start, bound, env, pen, depth).Ok?
    requires WriteSeq(Sink(c, false), room, t, vs, start, bound, env, pen, depth).value.vs == vs
    requires forall i :: 0 <= i < |vs| ==> TextsFit(vs[i], c.options.maxAllocationBytes)
    ensures WriteSeq(Sink(c, true), room, t, vs, start, bound, env, pen, depth) == WriteSeq(Sink(c, false), room, t, vs, start, bound, env, pen, depth)
    ensures InOrder(WriteSeq(Sink(c, false), room, t, vs, start, bound, env, pen, depth).value.pen.order, g.order)
    decreases depth, 0, 1, |vs|
  {
    hide WriteBase, ReadableBase, SteadyPlan, NamedAt, TextsFit, Avoids, LooksTerminated, Orderly;
    if vs != [] {
      var first := WriteBase(Sink(c, false), room, t.base, vs[0], env, pen, depth).value;
      var rest := WriteSeq(Sink(c, false), room, t, vs[1..], start, bound, env, first.pen, depth).value;
      assert vs == [first.v] + rest.vs;
      LeadIsScalar(c, t.base, vs[0], t.terminator, order, depth);
      BaseIsStrict(c, room, t.base, vs[0], env, pen, depth, g, Inside);
      ElementIsClear(c, room, t.base, vs[0], env, pen, depth, t.terminator, order);
      SeqIsStrict(c, room, t, vs[1..], start, bound, env, first.pen, depth, g, order);
    }
  }

  lemma LeadIsScalar(c: Context, base: Base, v: Value, t: seq<byte>, order: Option<Order>, depth: nat)
    requires Avoids(c, base, v, t, order, depth)
    ensures !base.IsText()
  {
  }

  lemma {:induction false} TerminatedIsStrict(c: Context, room: Room, t: Type, v: Value, bound: Option<u64>, env: Env, pen: Pen, depth: nat, g: Fragment, place: Place, order: Option<Order>)
    requires Standing(c, room, pen, g) && t.IsTerminated() && SteadyType(t, g, place, bound.Some?) && ReadableType(c, t, v, env, order, depth)
    requires order.Some? ==> pen.order == order.value
    requires WriteTerminated(Sink(c, false), room, t, v, bound, env, pen, depth).Ok?
    requires WriteTerminated(Sink(c, false), room, t, v, bound, env, pen, depth).value.v == v
    requires Holds(place, room, WriteTerminated(Sink(c, false), room, t, v, bound, env, pen, depth).value.pen)
    requires TextsFit(v, c.options.maxAllocationBytes)
    ensures WriteTerminated(Sink(c, true), room, t, v, bound, env, pen, depth) == WriteTerminated(Sink(c, false), room, t, v, bound, env, pen, depth)
    ensures InOrder(WriteTerminated(Sink(c, false), room, t, v, bound, env, pen, depth).value.pen.order, g.order)
    decreases depth, 0, 2, 1
  {
    hide WriteSeq, WriteTerminatedBytes, ReadableBase, SteadyPlan, NamedAt, Avoids;
    if t.IsByteForm() {
      PayloadIsStrict(c, room, t, v, bound, pen, g, place);
    } else {
      assert WriteSequenceForm(Sink(c, false), room, t, v, bound, env, pen, depth).Ok?;
      SeqIsStrict(c, Room(room.limit, InSequence), t, v.items, pen.p, bound, env, pen, depth, g, order);
    }
  }

  lemma {:induction false} TypeIsStrict(c: Context, room: Room, t: Type, v: Value, bound: Option<u64>, env: Env, pen: Pen, depth: nat, g: Fragment, place: Place, order: Option<Order>)
    requires Standing(c, room, pen, g) && SteadyType(t, g, place, bound.Some?) && ReadableType(c, t, v, env, order, depth)
    requires order.Some? ==> pen.order == order.value
    requires WriteType(Sink(c, false), room, t, v, bound, env, pen, depth).Ok?
    requires WriteType(Sink(c, false), room, t, v, bound, env, pen, depth).value.v == v
    requires var after := WriteType(Sink(c, false), room, t, v, bound, env, pen, depth).value.pen;
             Holds(place, room, after) && (bound.Some? ==> after.p == pen.p + bound.value)
    requires TextsFit(v, c.options.maxAllocationBytes)
    ensures WriteType(Sink(c, true), room, t, v, bound, env, pen, depth) == WriteType(Sink(c, false), room, t, v, bound, env, pen, depth)
    ensures InOrder(WriteType(Sink(c, false), room, t, v, bound, env, pen, depth).value.pen.order, g.order)
    decreases depth, 0, 2 * |t.dims| + 3, 0
  {
    hide WriteTerminated, WriteDims, ReadableDims, SteadyPlan, NamedAt, TextsFit;
    if t.IsTerminated() {
      TerminatedIsStrict(c, room, t, v, bound, env, pen, depth, g, place, order);
    } else if t.base.IsText() {
      TextIsStrict(c, room, t, v, bound, env, pen, g, place);
    } else {
      DimsAreStrict(c, room, t.base, t.dims, v, env, pen, depth, g, place);
    }
  }

  lemma {:induction false} BranchIsStrict(c: Context, room: Room, body: Branch, f: Fields, env: Env, pen: Pen, depth: nat, g: Fragment, place: Place)
    requires Standing(c, room, pen, g) && SteadyBranch(body, g, place) && ReadableBranch(c, body, f, env, depth)
    requires WriteBranch(Sink(c, false), room, body, f, env, pen, depth).Ok?
    requires Agrees(f, WriteBranch(Sink(c, false), room, body, f, env, pen, depth).value.fields)
    requires Holds(place, room, WriteBranch(Sink(c, false), room, body, f, env, pen, depth).value.pen)
    requires EntriesFit(f, c.options.maxAllocationBytes)
    ensures WriteBranch(Sink(c, true), room, body, f, env, pen, depth) == WriteBranch(Sink(c, false), room, body, f, env, pen, depth)
    ensures InOrder(WriteBranch(Sink(c, false), room, body, f, env, pen, depth).value.pen.order, g.order)
    decreases depth, 1, body, 0
  {
    hide WriteType, WriteMembers, ReadableType, ReadableOps, SteadyPlan, SteadyType, SteadyOps, TextsFit;
    match body
    case Typed(t) =>
      assert "value" in WriteBranch(Sink(c, false), room, body, f, env, pen, depth).value.fields;
      TypeIsStrict(c, room, t, f["value"], None, env, pen, depth, g, place, None);
    case Listed(members) => MembersAreStrict(c, room, members, f, env, pen, depth, g, place);
  }

  lemma {:induction false} FieldIsStrict(c: Context, room: Room, op: Op, f: Fields, env: Env, pen: Pen, depth: nat, g: Fragment, place: Place)
    requires Standing(c, room, pen, g) && op.Field? && SteadyOp(op, g, place) && ReadableOp(c, op, f, env, depth)
    requires WriteField(Sink(c, false), room, op, f, env, pen, depth).Ok?
    requires Agrees(f, WriteField(Sink(c, false), room, op, f, env, pen, depth).value.fields)
    requires Holds(place, room, WriteField(Sink(c, false), room, op, f, env, pen, depth).value.pen)
    requires EntriesFit(f, c.options.maxAllocationBytes)
    ensures WriteField(Sink(c, true), room, op, f, env, pen, depth) == WriteField(Sink(c, false), room, op, f, env, pen, depth)
    ensures InOrder(WriteField(Sink(c, false), room, op, f, env, pen, depth).value.pen.order, g.order)
    decreases depth, 1, op, 0
  {
    hide WriteType, ReadableType, SteadyPlan, SteadyType, TextsFit, Matches;
    assert op.name in WriteField(Sink(c, false), room, op, f, env, pen, depth).value.fields;
    TypeIsStrict(c, room, op.ty, f[op.name], op.staticLength, env, pen.(order := op.order), depth, g, place, Some(op.order));
  }

  lemma {:induction false} VariantIsStrict(c: Context, room: Room, op: Op, f: Fields, env: Env, pen: Pen, depth: nat, g: Fragment, place: Place)
    requires Standing(c, room, pen, g) && op.Variant? && SteadyOp(op, g, place) && ReadableOp(c, op, f, env, depth)
    requires WriteVariant(Sink(c, false), room, op, f, env, pen, depth).Ok?
    requires Agrees(f, WriteVariant(Sink(c, false), room, op, f, env, pen, depth).value.fields)
    requires Holds(place, room, WriteVariant(Sink(c, false), room, op, f, env, pen, depth).value.pen)
    requires EntriesFit(f, c.options.maxAllocationBytes)
    ensures WriteVariant(Sink(c, true), room, op, f, env, pen, depth) == WriteVariant(Sink(c, false), room, op, f, env, pen, depth)
    ensures InOrder(WriteVariant(Sink(c, false), room, op, f, env, pen, depth).value.pen.order, g.order)
    decreases depth, 1, op, 0
  {
    hide WriteBranch, ReadableBranch, SteadyPlan, SteadyBranch, Eval;
    assert op.name in WriteVariant(Sink(c, false), room, op, f, env, pen, depth).value.fields;
    match ChooseCase(c.fp, op.cases, Eval(c.fp, op.discriminator, env).value)
    case Some(i) => BranchIsStrict(c, room, op.cases[i].body, f[op.name].fields, env, pen, depth, g, place);
    case None => BranchIsStrict(c, room, op.default.value, f[op.name].fields, env, pen, depth, g, place);
  }

  lemma {:induction false} BlockIsStrict(c: Context, room: Room, op: Op, f: Fields, env: Env, pen: Pen, depth: nat, g: Fragment, place: Place)
    requires Standing(c, room, pen, g) && op.Block? && SteadyOp(op, g, place) && ReadableOp(c, op, f, env, depth)
    requires WriteBlock(Sink(c, false), room, op, f, env, pen, depth).Ok?
    requires Agrees(f, WriteBlock(Sink(c, false), room, op, f, env, pen, depth).value.fields)
    requires EntriesFit(f, c.options.maxAllocationBytes)
    ensures WriteBlock(Sink(c, true), room, op, f, env, pen, depth) == WriteBlock(Sink(c, false), room, op, f, env, pen, depth)
    ensures InOrder(WriteBlock(Sink(c, false), room, op, f, env, pen, depth).value.pen.order, g.order)
    decreases depth, 1, op, 0
  {
    hide WriteMembers, Eval, EvalSize, Fill, Agrees, ReadableOps, SteadyOps;
    var end := pen.p + SizeOf(c, op.staticSize, op.size, env).value;
    MembersAreStrict(c, Room(end, InBlock), op.members, f, env, pen, depth, g, if g.exact then Filling else Inside);
  }

  lemma {:induction false} MemberIsStrict(c: Context, room: Room, op: Op, f: Fields, env: Env, pen: Pen, depth: nat, g: Fragment, place: Place)
    requires Standing(c, room, pen, g) && SteadyOp(op, g, place) && ReadableOp(c, op, f, env, depth)
    requires WriteMember(Sink(c, false), room, op, f, env, pen, depth).Ok?
    requires Agrees(f, WriteMember(Sink(c, false), room, op, f, env, pen, depth).value.fields)
    requires Holds(place, room, WriteMember(Sink(c, false), room, op, f, env, pen, depth).value.pen)
    requires EntriesFit(f, c.options.maxAllocationBytes)
    ensures WriteMember(Sink(c, true), room, op, f, env, pen, depth) == WriteMember(Sink(c, false), room, op, f, env, pen, depth)
    ensures InOrder(WriteMember(Sink(c, false), room, op, f, env, pen, depth).value.pen.order, g.order)
    decreases depth, 1, op, 1
  {
    hide WriteField, WriteBits, WriteBlock, WriteVariant, WriteMembers, Grows, Fill, SteadyPlan, SteadyOps, SteadyBranch, SteadyType, ReadableOps, ReadableType, ReadableBranch, Agrees, EntriesFit, Eval;
    match op
    case Field(_, _, _, _, _, _) => FieldIsStrict(c, room, op, f, env, pen, depth, g, place);
    case Bits(group) => BitsAreStrict(c, room, group, f, env, pen, g);
    case Block(_, _, _) => BlockIsStrict(c, room, op, f, env, pen, depth, g, place);
    case Conditional(e, thenMembers, elseMembers) =>
      MembersAreStrict(c, room, if EvalBool(c.fp, e, env).value then thenMembers else elseMembers, f, env, pen, depth, g, place);
    case Variant(_, _, _, _) => VariantIsStrict(c, room, op, f, env, pen, depth, g, place);
    case _ =>
  }

  lemma {:induction false} OpsAreStrict(c: Context, room: Room, ops: seq<Op>, f: Fields, env: Env, pen: Pen, depth: nat, g: Fragment, place: Place)
    requires Standing(c, room, pen, g) && SteadyOps(ops, g, place) && ReadableOps(c, ops, f, env, depth)
    requires WriteOps(Sink(c, false), room, ops, f, env, pen, depth).Ok?
    requires Agrees(f, WriteOps(Sink(c, false), room, ops, f, env, pen, depth).value.fields)
    requires Holds(place, room, WriteOps(Sink(c, false), room, ops, f, env, pen, depth).value.pen)
    requires EntriesFit(f, c.options.maxAllocationBytes)
    ensures WriteOps(Sink(c, true), room, ops, f, env, pen, depth) == WriteOps(Sink(c, false), room, ops, f, env, pen, depth)
    ensures InOrder(WriteOps(Sink(c, false), room, ops, f, env, pen, depth).value.pen.order, g.order)
    decreases depth, 1, ops, 0
  {
    hide WriteMember, LogicalOp, SteadyPlan, SteadyOp, ReadableOp, Agrees, EntriesFit, Names, NamesOf;
    if ops != [] {
      var y := Sink(c, false);
      var b := WriteMember(y, room, ops[0], f, env, pen, depth).value;
      var rest := WriteOps(y, room, ops[1..], f, b.env, b.pen, depth).value;
      MemberWritesItsNames(y, room, ops[0], f, env, pen, depth);
      OpsWriteTheirNames(y, room, ops[1..], f, b.env, b.pen, depth);
      AgreesParts(f, b.fields, rest.fields);
      MemberIsLogical(y, room, ops[0], f, env, pen, depth);
      MemberIsStrict(c, room, ops[0], f, env, pen, depth, g, FirstPlace(ops, place));
      OpsAreStrict(c, room, ops[1..], f, b.env, b.pen, depth, g, place);
    }
  }

  lemma {:induction false} NoAliases(c: Context, ops: seq<Op>, f: Fields, env: Env, g: Fragment, place: Place)
    requires SteadyOps(ops, g, place)
    ensures BindAliases(c, ops, f, env) == Ok(env)
  {
    if ops != [] {
      NoAliases(c, ops[1..], f, env, g, place);
    }
  }

  lemma {:induction false} MembersAreStrict(c: Context, room: Room, ops: seq<Op>, f: Fields, env: Env, pen: Pen, depth: nat, g: Fragment, place: Place)
    requires Standing(c, room, pen, g) && SteadyOps(ops, g, place) && ReadableOps(c, ops, f, env, depth)
    requires WriteMembers(Sink(c, false), room, ops, f, env, pen, depth).Ok?
    requires Agrees(f, WriteMembers(Sink(c, false), room, ops, f, env, pen, depth).value.fields)
    requires Holds(place, room, WriteMembers(Sink(c, false), room, ops, f, env, pen, depth).value.pen)
    requires EntriesFit(f, c.options.maxAllocationBytes)
    ensures WriteMembers(Sink(c, true), room, ops, f, env, pen, depth) == WriteMembers(Sink(c, false), room, ops, f, env, pen, depth)
    ensures InOrder(WriteMembers(Sink(c, false), room, ops, f, env, pen, depth).value.pen.order, g.order)
    decreases depth, 1, ops, 1
  {
    hide WriteOps, BindAliases, SteadyPlan, SteadyOps, ReadableOps, Agrees, EntriesFit;
    NoAliases(c, ops, f, env, g, place);
    OpsAreStrict(c, room, ops, f, env, pen, depth, g, place);
  }

  // ----- the round trip -----

  /** Encode, then decode, is the identity on every value that is its own logical value and that is
      readable, for every plan of the fragment: if the encode succeeds, the decode of its output,
      followed by any bytes, consumes exactly the output and returns the value. */
  lemma CanonicalRoundTrip(c: Context, id: SymbolId, v: Value, parameters: Env, rest: seq<byte>, g: Fragment)
    requires id in c.plan.structs && NamedAt(Named(id), g, AtRoot) && SteadyPlan(c, g) && Readable(c, id, v, parameters)
    requires LogicalValue(c, id, v, parameters) == Some(v) && TextsFit(v, c.options.maxAllocationBytes)
    requires EncodeStruct(Sink(c, false), id, v, parameters).Ok?
    ensures var out := EncodeStruct(Sink(c, false), id, v, parameters).value.pen;
            DecodeStruct(Source(c, out.d + rest, false), id, parameters) == Ok(Item(Cursor(|out.d|, out.order), v))
  {
    hide WriteMembers, SteadyPlan, SteadyOps, ReadableOps, LogicalBase, DecodeStruct, TextsFit, WriteInt;
    var env := InitialEnv(c.plan, parameters).value;
    var room := Room(U64_MAX, Root);
    var pen: Pen := Ink([], 0, if g.order.Some? then g.order.value else Little);
    var depth := c.options.maxRecursionDepth;
    EncodeWritesLogicalValue(Sink(c, false), id, v, parameters);
    StructSetsOrder(Sink(c, false), room, id, v, env, pen.order, depth);
    StructSetsOrder(Sink(c, true), room, id, v, env, pen.order, depth);
    BaseIsStrict(c, room, Named(id), v, env, pen, depth, g, AtRoot);
    assert EncodeStruct(Sink(c, true), id, v, parameters) == EncodeStruct(Sink(c, false), id, v, parameters);
    StrictRoundTrip(c, id, v, parameters, rest);
  }

  lemma StructSetsOrder(y: Sink, room: Room, id: SymbolId, v: Value, env: Env, order: Order, depth: nat)
    requires id in y.c.plan.structs
    ensures WriteBase(y, room, Named(id), v, env, Ink([], 0, Little), depth) == WriteBase(y, room, Named(id), v, env, Ink([], 0, order), depth)
  {
    hide WriteMembers;
    var a: Pen := Ink([], 0, Little);
    var b: Pen := Ink([], 0, order);
    var s := y.c.plan.structs[id];
    assert a.(order := s.order) == b.(order := s.order);
  }

  // ----- plans that leave nothing to the value -----

  lemma {:induction false} PlainBase(c: Context, base: Base, v: Value, env: Env, depth: nat, g: Fragment, place: Place)
    requires g.plain && SteadyPlan(c, g) && NamedAt(base, g, place)
    ensures ReadableBase(c, base, v, env, depth)
    decreases depth, 0, 0, 0
  {
    hide ReadableOps, SteadyOps, WithSizes;
    if base.Named? && base.id in c.plan.structs && v.Obj? && depth > 0 {
      PlainOps(c, c.plan.structs[base.id].members, v.fields, WithSizes(c.plan.structs[base.id], env), depth - 1, g, g.places[base.id]);
    }
  }

  lemma {:induction false} PlainDims(c: Context, base: Base, dims: seq<Dim>, v: Value, env: Env, depth: nat, g: Fragment, place: Place)
    requires g.plain && SteadyPlan(c, g) && NamedAt(base, g, place)
    ensures ReadableDims(c, base, dims, v, env, depth)
    decreases depth, 0, 1, |dims|
  {
    hide ReadableBase, SteadyPlan, NamedAt;
    if dims == [] {
      PlainBase(c, base, v, env, depth, g, place);
    } else if v.Arr? {
      forall i | 0 <= i < |v.items| ensures ReadableDims(c, base, dims[1..], v.items[i], env, depth) {
        PlainDims(c, base, dims[1..], v.items[i], env, depth, g, place);
      }
    }
  }

  /** A terminated type that the encoder writes at all is one of the two forms. */
  lemma {:induction false} PlainType(c: Context, t: Type, v: Value, env: Env, order: Option<Order>, depth: nat, g: Fragment, place: Place, bounded: bool)
    requires g.plain && SteadyPlan(c, g) && SteadyType(t, g, place, bounded)
    ensures ReadableType(c, t, v, env, order, depth)
    decreases depth, 0, 2, 0
  {
    hide ReadableDims, SteadyPlan, NamedAt;
    if !t.IsTerminated() && !t.base.IsText() {
      PlainDims(c, t.base, t.dims, v, env, depth, g, if t.dims == [] then place else Before(place));
    }
  }

  lemma {:induction false} PlainBranch(c: Context, b: Branch, o: Fields, env: Env, depth: nat, g: Fragment, place: Place)
    requires g.plain && SteadyPlan(c, g) && SteadyBranch(b, g, place)
    ensures ReadableBranch(c, b, o, env, depth)
    decreases depth, 1, b
  {
    hide ReadableType, ReadableOps, SteadyPlan, SteadyType, SteadyOps;
    match b
    case Typed(t) => if "value" in o { PlainType(c, t, o["value"], env, None, depth, g, place, false); }
    case Listed(members) => PlainOps(c, members, o, env, depth, g, place);
  }

  lemma {:induction false} PlainOp(c: Context, op: Op, o: Fields, env: Env, depth: nat, g: Fragment, place: Place)
    requires g.plain && SteadyPlan(c, g) && SteadyOp(op, g, place)
    ensures ReadableOp(c, op, o, env, depth)
    decreases depth, 1, op
  {
    hide ReadableType, ReadableOps, ReadableBranch, SteadyPlan, SteadyType, SteadyOps, SteadyBranch, Eval;
    match op
    case Field(_, name, ty, order, known, _) => if name in o { PlainType(c, ty, o[name], env, Some(order), depth, g, place, known.Some?); }
    case Block(_, _, members) => PlainOps(c, members, o, env, depth, g, if g.exact then Filling else Inside);
    case Conditional(e, thenMembers, elseMembers) =>
      PlainOps(c, thenMembers, o, env, depth, g, place);
      PlainOps(c, elseMembers, o, env, depth, g, place);
    case Variant(name, e, cases, default) =>
      var tag := Eval(c.fp, e, env);
      if name in o && o[name].Obj? && tag.Ok? {
        match ChooseCase(c.fp, cases, tag.value) {
          case Some(i) => PlainBranch(c, cases[i].body, o[name].fields, env, depth, g, place);
          case None => if default.Some? { PlainBranch(c, default.value, o[name].fields, env, depth, g, place); }
        }
      }
    case _ =>
  }

  /** In a plain fragment every value is readable. */
  lemma {:induction false} PlainOps(c: Context, ops: seq<Op>, o: Fields, env: Env, depth: nat, g: Fragment, place: Place)
    requires g.plain && SteadyPlan(c, g) && SteadyOps(ops, g, place)
    ensures ReadableOps(c, ops, o, env, depth)
    decreases depth, 1, ops
  {
    hide ReadableOp, SteadyPlan, SteadyOp, LogicalOp, Names, NamesOf;
    if ops != [] {
      PlainOp(c, ops[0], o, env, depth, g, FirstPlace(ops, place));
      var first := LogicalOp(c, ops[0], o, env, depth);
      if first.Some? {
        PlainOps(c, ops[1..], o, first.value.0, depth, g, place);
      }
    }
  }

  // ----- canonical values of plain data -----

  predicate Tagged(it: IntType, v: Value) {
    v.Num? && (if it.signed then v.s.I? else v.s.U?)
  }

  /** A value in the form that a decode would give it, by the plan alone: every object has exactly
      the entries that the members of its struct name, and numbers carry the tags of their types.
      Virtual fields, conditions and variants, whose entries depend on a run, are not admitted. */
  predicate CanonicalBase(m: Module, base: Base, v: Value)
    decreases v, 1
  {
    match base
    case Primitive(it) => Tagged(it, v)
    case Named(id) =>
      if id in m.structs then
        v.Obj? && v.fields.Keys == NamesOf(m.structs[id].members) && CanonicalOps(m, m.structs[id].members, v)
      else id in m.enums ==> Tagged(m.enums[id], v)
    case _ => true
  }

  predicate CanonicalDims(m: Module, base: Base, dims: seq<Dim>, v: Value)
    decreases v, 2
  {
    if dims == [] then CanonicalBase(m, base, v)
    else v.Arr? && forall i :: 0 <= i < |v.items| ==> CanonicalDims(m, base, dims[1..], v.items[i])
  }

  predicate CanonicalType(m: Module, t: Type, v: Value)
    decreases v, 3
  {
    if t.IsTerminated() then
      t.IsByteForm() || (v.Arr? && forall i :: 0 <= i < |v.items| ==> CanonicalBase(m, t.base, v.items[i]))
    else t.base.IsText() || CanonicalDims(m, t.base, t.dims, v)
  }

  predicate CanonicalOp(m: Module, op: Op, v: Value)
    requires v.Obj?
    decreases v, 0, op
  {
    match op
    case Field(_, name, ty, _, _, _) => name in v.fields && CanonicalType(m, ty, v.fields[name])
    case Bits(group) => forall f :: f in group ==> f.name in v.fields && v.fields[f.name].Num? && v.fields[f.name].s.U?
    case Align(_, _) => true
    case Block(_, _, members) => CanonicalOps(m, members, v)
    case _ => false
  }

  predicate CanonicalOps(m: Module, ops: seq<Op>, v: Value)
    requires v.Obj?
    decreases v, 0, ops
  {
    ops == [] || (CanonicalOp(m, ops[0], v) && CanonicalOps(m, ops[1..], v))
  }

  lemma {:induction false} BaseIsItsOwn(c: Context, base: Base, v: Value, env: Env, depth: nat)
    requires CanonicalBase(c.plan, base, v) && LogicalBase(c, base, v, env, depth).Some?
    ensures LogicalBase(c, base, v, env, depth) == Some(v)
    decreases v, 1
  {
    hide LogicalMembers, CanonicalOps, NamesOf, Agrees;
    if base.Named? && base.id in c.plan.structs {
      var s := c.plan.structs[base.id];
      MembersAreTheirOwn(c, s.members, v, WithSizes(s, env), depth - 1);
      AgreesAll(v.fields, LogicalMembers(c, s.members, v.fields, WithSizes(s, env), depth - 1).value.1);
    }
  }

  lemma AgreesAll(o: Fields, written: Fields)
    requires Agrees(o, written) && o.Keys == written.Keys
    ensures o == written
  {
  }

  lemma {:induction false} DimsAreTheirOwn(c: Context, base: Base, dims: seq<Dim>, v: Value, env: Env, depth: nat)
    requires CanonicalDims(c.plan, base, dims, v) && LogicalDims(c, base, dims, v, env, depth).Some?
    ensures LogicalDims(c, base, dims, v, env, depth) == Some(v)
    decreases v, 2, 0
  {
    hide LogicalBase, CanonicalBase, LogicalElems;
    if dims == [] {
      BaseIsItsOwn(c, base, v, env, depth);
    } else {
      ElemsAreTheirOwn(c, base, dims[1..], v, 0, env, depth);
      assert v.items[0..] == v.items;
    }
  }

  lemma {:induction false} ElemsAreTheirOwn(c: Context, base: Base, dims: seq<Dim>, v: Value, from: nat, env: Env, depth: nat)
    requires v.Arr? && from <= |v.items| && forall i :: 0 <= i < |v.items| ==> CanonicalDims(c.plan, base, dims, v.items[i])
    requires LogicalElems(c, base, dims, v.items[from..], env, depth).Some?
    ensures LogicalElems(c, base, dims, v.items[from..], env, depth) == Some(v.items[from..])
    decreases v, 1, |v.items| - from
  {
    hide LogicalDims, CanonicalDims;
    var vs := v.items[from..];
    if vs != [] {
      assert vs[0] == v.items[from] && vs[1..] == v.items[from + 1..] && vs == [vs[0]] + vs[1..];
      DimsAreTheirOwn(c, base, dims, v.items[from], env, depth);
      ElemsAreTheirOwn(c, base, dims, v, from + 1, env, depth);
    }
  }

  lemma {:induction false} TypeIsItsOwn(c: Context, t: Type, v: Value, env: Env, depth: nat)
    requires CanonicalType(c.plan, t, v) && LogicalType(c, t, v, env, depth).Some?
    ensures LogicalType(c, t, v, env, depth) == Some(v)
    decreases v, 3
  {
    hide LogicalDims, LogicalElems, CanonicalBase;
    if t.IsTerminated() {
      if !t.IsByteForm() {
        forall i | 0 <= i < |v.items| ensures CanonicalDims(c.plan, t.base, [], v.items[i]) { }
        assert v.items[0..] == v.items;
        ElemsAreTheirOwn(c, t.base, [], v, 0, env, depth);
      }
    } else if !t.base.IsText() {
      DimsAreTheirOwn(c, t.base, t.dims, v, env, depth);
    }
  }

  lemma {:induction false} GroupIsItsOwn(fs: seq<BitsField>, o: Fields, env: Env)
    requires forall f :: f in fs ==> f.name in o && o[f.name].Num? && o[f.name].s.U?
    requires LogicalGroup(fs, o, env).Some?
    ensures Agrees(o, LogicalGroup(fs, o, env).value.1) && LogicalGroup(fs, o, env).value.1.Keys == GroupNames(fs)
  {
    if fs != [] {
      GroupIsItsOwn(fs[1..], o, env[fs[0].symbol := o[fs[0].name].s]);
    }
  }

  lemma {:induction false} OpIsItsOwn(c: Context, op: Op, v: Value, env: Env, depth: nat)
    requires v.Obj? && CanonicalOp(c.plan, op, v) && LogicalOp(c, op, v.fields, env, depth).Some?
    ensures Agrees(v.fields, LogicalOp(c, op, v.fields, env, depth).value.1)
    ensures LogicalOp(c, op, v.fields, env, depth).value.1.Keys == Names(op)
    decreases v, 0, op, 0
  {
    hide LogicalType, LogicalMembers, LogicalGroup, CanonicalType, CanonicalOps;
    match op
    case Field(_, name, ty, _, _, _) => TypeIsItsOwn(c, ty, v.fields[name], env, depth);
    case Bits(group) => GroupIsItsOwn(group, v.fields, env);
    case Block(_, _, members) => MembersAreTheirOwn(c, members, v, env, depth);
    case _ =>
  }

  lemma AgreesUnion(o: Fields, a: Fields, b: Fields)
    requires Agrees(o, a) && Agrees(o, b)
    ensures Agrees(o, a + b)
  {
  }

  lemma {:induction false} OpsAreTheirOwn(c: Context, ops: seq<Op>, v: Value, env: Env, depth: nat)
    requires v.Obj? && CanonicalOps(c.plan, ops, v) && LogicalOps(c, ops, v.fields, env, depth).Some?
    ensures Agrees(v.fields, LogicalOps(c, ops, v.fields, env, depth).value.1)
    ensures LogicalOps(c, ops, v.fields, env, depth).value.1.Keys == NamesOf(ops)
    decreases v, 0, ops, 0
  {
    hide LogicalOp, CanonicalOp, Names, Agrees;
    if ops == [] {
      assert Agrees(v.fields, map[]) by { AgreesNothing(v.fields); }
    } else {
      var first := LogicalOp(c, ops[0], v.fields, env, depth).value;
      OpIsItsOwn(c, ops[0], v, env, depth);
      OpsAreTheirOwn(c, ops[1..], v, first.0, depth);
      AgreesUnion(v.fields, first.1, LogicalOps(c, ops[1..], v.fields, first.0, depth).value.1);
    }
  }

  lemma AgreesNothing(o: Fields)
    ensures Agrees(o, map[])
  {
  }

  lemma {:induction false} NoAliasesInData(c: Context, ops: seq<Op>, v: Value, env: Env)
    requires v.Obj? && CanonicalOps(c.plan, ops, v)
    ensures BindAliases(c, ops, v.fields, env) == Ok(env)
  {
    if ops != [] {
      NoAliasesInData(c, ops[1..], v, env);
    }
  }

  lemma {:induction false} MembersAreTheirOwn(c: Context, ops: seq<Op>, v: Value, env: Env, depth: nat)
    requires v.Obj? && CanonicalOps(c.plan, ops, v) && LogicalMembers(c, ops, v.fields, env, depth).Some?
    ensures Agrees(v.fields, LogicalMembers(c, ops, v.fields, env, depth).value.1)
    ensures LogicalMembers(c, ops, v.fields, env, depth).value.1.Keys == NamesOf(ops)
    decreases v, 0, ops, 1
  {
    hide LogicalOps, CanonicalOps, NamesOf, Agrees;
    NoAliasesInData(c, ops, v, env);
    OpsAreTheirOwn(c, ops, v, env, depth);
  }

  // ----- the round trip of plain data -----

  /** For plain data in a plain fragment nothing is asked of a run: the value is checked against the
      plan alone. */
  lemma DataRoundTrip(c: Context, id: SymbolId, v: Value, parameters: Env, rest: seq<byte>, g: Fragment)
    requires id in c.plan.structs && NamedAt(Named(id), g, AtRoot) && SteadyPlan(c, g) && g.plain
    requires CanonicalBase(c.plan, Named(id), v) && TextsFit(v, c.options.maxAllocationBytes)
    requires EncodeStruct(Sink(c, false), id, v, parameters).Ok?
    ensures var out := EncodeStruct(Sink(c, false), id, v, parameters).value.pen;
            DecodeStruct(Source(c, out.d + rest, false), id, parameters) == Ok(Item(Cursor(|out.d|, out.order), v))
  {
    hide EncodeStruct, LogicalBase, CanonicalBase, ReadableBase, SteadyPlan, TextsFit;
    EncodeWritesLogicalValue(Sink(c, false), id, v, parameters);
    var env := InitialEnv(c.plan, parameters).value;
    BaseIsItsOwn(c, Named(id), v, env, c.options.maxRecursionDepth);
    PlainBase(c, Named(id), v, env, c.options.maxRecursionDepth, g, AtRoot);
    CanonicalRoundTrip(c, id, v, parameters, rest, g);
  }
}
