/** What a strict encode keeps of a value: everything but entries that no member names, and nothing
    new but virtual fields. */
module Prunes {
  import opened Outcome
  import opened Bytes
  import opened Expr
  import opened Plan
  import opened Decode
  import opened Encode

  /** `w` is `v` with entries of objects left out and entries with a name in `computed` put in:
      leaves are equal, arrays have the same length, and every other entry comes from `v`. */
  predicate Prunes(v: Value, w: Value, computed: set<Name>)
    decreases w
  {
    match w
    case Obj(fields) =>
      v.Obj? && forall n :: n in fields ==> n in computed || (n in v.fields && Prunes(v.fields[n], fields[n], computed))
    case Arr(items) => v.Arr? && |v.items| == |items| && forall i :: 0 <= i < |items| ==> Prunes(v.items[i], items[i], computed)
    case _ => v == w
  }

  predicate PrunesFields(o: Fields, fields: Fields, computed: set<Name>) {
    forall n :: n in fields ==> n in computed || (n in o && Prunes(o[n], fields[n], computed))
  }

  function VirtualsOfBranch(b: Branch): set<Name>
    decreases b
  {
    if b.Listed? then Virtuals(b.members) else {}
  }

  /** The names of the virtual fields of a member list. */
  function VirtualsOf(op: Op): set<Name>
    decreases op
  {
    match op
    case Virtual(_, name, _) => {name}
    case At(_, _, members) => Virtuals(members)
    case Block(_, _, members) => Virtuals(members)
    case Conditional(_, thenMembers, elseMembers) => Virtuals(thenMembers) + Virtuals(elseMembers)
    case Variant(_, _, cases, default) =>
      (set i, n | 0 <= i < |cases| && n in VirtualsOfBranch(cases[i].body) :: n)
      + (if default.Some? then VirtualsOfBranch(default.value) else {})
    case _ => {}
  }

  function Virtuals(ops: seq<Op>): set<Name>
    decreases ops
  {
    if ops == [] then {} else VirtualsOf(ops[0]) + Virtuals(ops[1..])
  }

  /** `computed` has the names of all virtual fields of a plan. */
  predicate HasVirtuals(m: Module, computed: set<Name>) {
    forall id :: id in m.structs ==> Virtuals(m.structs[id].members) <= computed
  }

  lemma {:induction false} PrunesItself(v: Value, computed: set<Name>)
    ensures Prunes(v, v, computed)
    decreases v
  {
    match v
    case Obj(fields) =>
      forall n | n in fields ensures Prunes(fields[n], fields[n], computed) {
        PrunesItself(fields[n], computed);
      }
    case Arr(items) =>
      forall i | 0 <= i < |items| ensures Prunes(items[i], items[i], computed) {
        PrunesItself(items[i], computed);
      }
    case _ =>
  }

  lemma PrunesBoth(o: Fields, a: Fields, b: Fields, computed: set<Name>)
    requires PrunesFields(o, a, computed) && PrunesFields(o, b, computed)
    ensures PrunesFields(o, a + b, computed)
  {
    hide Prunes;
    forall n | n in a + b ensures n in computed || (n in o && Prunes(o[n], (a + b)[n], computed)) {
      assert (a + b)[n] == if n in b then b[n] else a[n];
    }
  }

  lemma PrunesOne(o: Fields, n: Name, w: Value, computed: set<Name>)
    requires n in computed || (n in o && Prunes(o[n], w, computed))
    ensures PrunesFields(o, map[n := w], computed)
  {
    hide Prunes;
  }

  lemma {:induction false} GroupPrunes(y: Sink, fs: seq<BitsField>, o: Fields, env: Env, computed: set<Name>)
    requires y.strict && TotalBits(fs) <= 64 && WriteBitsFields(y, fs, o, env).Ok?
    ensures PrunesFields(o, WriteBitsFields(y, fs, o, env).value.2, computed)
  {
    hide Pow2, Shift, Prunes, PrunesFields;
    if fs == [] {
      assert PrunesFields(o, map[], computed) by { NothingPrunes(o, computed); }
    } else {
      var u := U(AsU64(o[fs[0].name]).value);
      GroupPrunes(y, fs[1..], o, env[fs[0].symbol := u], computed);
      PrunesItself(Num(u), computed);
      PrunesOne(o, fs[0].name, Num(u), computed);
      PrunesBoth(o, map[fs[0].name := Num(u)], WriteBitsFields(y, fs[1..], o, env[fs[0].symbol := u]).value.2, computed);
    }
  }

  lemma NothingPrunes(o: Fields, computed: set<Name>)
    ensures PrunesFields(o, map[], computed)
  {
  }

  lemma {:induction false} BasePrunes(y: Sink, room: Room, base: Base, v: Value, env: Env, pen: Pen, depth: nat, computed: set<Name>)
    requires y.strict && HasVirtuals(y.c.plan, computed) && WriteBase(y, room, base, v, env, pen, depth).Ok?
    ensures Prunes(v, WriteBase(y, room, base, v, env, pen, depth).value.v, computed)
    decreases depth, 0, 0, 0
  {
    hide WriteMembers, Put, Pow2;
    if base.Named? && base.id in y.c.plan.structs {
      var s := y.c.plan.structs[base.id];
      MembersPrune(y, room, s.members, v.fields, WithSizes(s, env), pen.(order := s.order), depth - 1, computed);
    } else {
      PrunesItself(v, computed);
    }
  }

  lemma {:induction false} DimsPrune(y: Sink, room: Room, base: Base, dims: seq<Dim>, v: Value, env: Env, pen: Pen, depth: nat, computed: set<Name>)
    requires y.strict && HasVirtuals(y.c.plan, computed) && WriteDims(y, room, base, dims, v, env, pen, depth).Ok?
    ensures Prunes(v, WriteDims(y, room, base, dims, v, env, pen, depth).value.v, computed)
    decreases depth, 0, 2 * |dims| + 1, 0
  {
    hide WriteBase, WriteElems, Grows, HasVirtuals;
    if dims == [] {
      BasePrunes(y, room, base, v, env, pen, depth, computed);
    } else {
      ElemsPrune(y, room, base, dims[1..], v.items, env, pen, depth, computed);
    }
  }

  lemma {:induction false} ElemsPrune(y: Sink, room: Room, base: Base, dims: seq<Dim>, vs: seq<Value>, env: Env, pen: Pen, depth: nat, computed: set<Name>)
    requires y.strict && HasVirtuals(y.c.plan, computed) && WriteElems(y, room, base, dims, vs, env, pen, depth).Ok?
    ensures var ws := WriteElems(y, room, base, dims, vs, env, pen, depth).value.vs;
            |ws| == |vs| && forall i :: 0 <= i < |vs| ==> Prunes(vs[i], ws[i], computed)
    decreases depth, 0, 2 * |dims| + 2, |vs|
  {
    hide WriteDims, Grows, HasVirtuals, Prunes;
    if vs != [] {
      DimsPrune(y, room, base, dims, vs[0], env, pen, depth, computed);
      ElemsPrune(y, room, base, dims, vs[1..], env, WriteDims(y, room, base, dims, vs[0], env, pen, depth).value.pen, depth, computed);
    }
  }

  lemma {:induction false} SeqPrunes(y: Sink, room: Room, t: Type, vs: seq<Value>, start: nat, bound: Option<u64>, env: Env, pen: Pen, depth: nat, computed: set<Name>)
    requires y.strict && HasVirtuals(y.c.plan, computed) && t.maxPayload.Some? && WriteSeq(y, room, t, vs, start, bound, env, pen, depth).Ok?
    ensures var ws := WriteSeq(y, room, t, vs, start, bound, env, pen, depth).value.vs;
            |ws| == |vs| && forall i :: 0 <= i < |vs| ==> Prunes(vs[i], ws[i], computed)
    decreases depth, 0, 1, |vs|
  {
    hide WriteBase, LooksTerminated, Grows, HasVirtuals, Prunes;
    if vs != [] {
      BasePrunes(y, room, t.base, vs[0], env, pen, depth, computed);
      SeqPrunes(y, room, t, vs[1..], start, bound, env, WriteBase(y, room, t.base, vs[0], env, pen, depth).value.pen, depth, computed);
    }
  }

  lemma {:induction false} SequenceFormPrunes(y: Sink, room: Room, t: Type, v: Value, bound: Option<u64>, env: Env, pen: Pen, depth: nat, computed: set<Name>)
    requires y.strict && HasVirtuals(y.c.plan, computed)
    requires t.maxPayload.Some? && WriteSequenceForm(y, room, t, v, bound, env, pen, depth).Ok?
    ensures Prunes(v, WriteSequenceForm(y, room, t, v, bound, env, pen, depth).value.v, computed)
    decreases depth, 0, 2, 0
  {
    hide WriteSeq, Grows, HasVirtuals;
    SeqPrunes(y, Room(room.limit, InSequence), t, v.items, pen.p, bound, env, pen, depth, computed);
  }

  lemma {:induction false} TypePrunes(y: Sink, room: Room, t: Type, v: Value, bound: Option<u64>, env: Env, pen: Pen, depth: nat, computed: set<Name>)
    requires y.strict && HasVirtuals(y.c.plan, computed) && WriteType(y, room, t, v, bound, env, pen, depth).Ok?
    ensures Prunes(v, WriteType(y, room, t, v, bound, env, pen, depth).value.v, computed)
    decreases depth, 0, 2 * |t.dims| + 3, 0
  {
    hide WriteDims, WriteSequenceForm, WriteTerminatedBytes, WriteText, Grows, HasVirtuals, Prunes;
    if t.IsTerminated() {
      assert WriteType(y, room, t, v, bound, env, pen, depth) == WriteTerminated(y, room, t, v, bound, env, pen, depth);
      if t.IsByteForm() {
        PrunesItself(v, computed);
      } else {
        SequenceFormPrunes(y, room, t, v, bound, env, pen, depth, computed);
      }
    } else if t.base.IsText() {
      PrunesItself(v, computed);
    } else {
      DimsPrune(y, room, t.base, t.dims, v, env, pen, depth, computed);
    }
  }

  lemma {:induction false} BranchPrunes(y: Sink, room: Room, body: Branch, o: Fields, env: Env, pen: Pen, depth: nat, computed: set<Name>)
    requires y.strict && HasVirtuals(y.c.plan, computed) && VirtualsOfBranch(body) <= computed
    requires WriteBranch(y, room, body, o, env, pen, depth).Ok?
    ensures PrunesFields(o, WriteBranch(y, room, body, o, env, pen, depth).value.fields, computed)
    decreases depth, 1, body, 0
  {
    hide WriteType, WriteMembers, Grows, HasVirtuals, Prunes, PrunesFields;
    match body
    case Typed(t) =>
      TypePrunes(y, room, t, o["value"], None, env, pen, depth, computed);
      PrunesOne(o, "value", WriteType(y, room, t, o["value"], None, env, pen, depth).value.v, computed);
    case Listed(members) => MembersPrune(y, room, members, o, env, pen, depth, computed);
  }

  lemma {:induction false} VariantPrunes(y: Sink, room: Room, op: Op, o: Fields, env: Env, pen: Pen, depth: nat, computed: set<Name>)
    requires op.Variant? && y.strict && HasVirtuals(y.c.plan, computed) && VirtualsOf(op) <= computed
    requires WriteVariant(y, room, op, o, env, pen, depth).Ok?
    ensures PrunesFields(o, WriteVariant(y, room, op, o, env, pen, depth).value.fields, computed)
    decreases depth, 1, op, 0
  {
    hide WriteBranch, Eval, Grows, HasVirtuals;
    var inner := o[op.name].fields;
    var b: Batch;
    match ChooseCase(y.c.fp, op.cases, Eval(y.c.fp, op.discriminator, env).value) {
      case Some(i) =>
        forall n | n in VirtualsOfBranch(op.cases[i].body) ensures n in VirtualsOf(op) { }
        BranchPrunes(y, room, op.cases[i].body, inner, env, pen, depth, computed);
        b := WriteBranch(y, room, op.cases[i].body, inner, env, pen, depth).value;
      case None =>
        BranchPrunes(y, room, op.default.value, inner, env, pen, depth, computed);
        b := WriteBranch(y, room, op.default.value, inner, env, pen, depth).value;
    }
    assert Prunes(o[op.name], Obj(b.fields), computed);
    PrunesOne(o, op.name, Obj(b.fields), computed);
  }

  lemma {:induction false} FieldPrunes(y: Sink, room: Room, op: Op, o: Fields, env: Env, pen: Pen, depth: nat, computed: set<Name>)
    requires op.Field? && y.strict && HasVirtuals(y.c.plan, computed) && WriteField(y, room, op, o, env, pen, depth).Ok?
    ensures PrunesFields(o, WriteField(y, room, op, o, env, pen, depth).value.fields, computed)
    decreases depth, 1, op, 0
  {
    hide WriteType, Matches, Grows, HasVirtuals, Prunes, PrunesFields;
    TypePrunes(y, room, op.ty, o[op.name], op.staticLength, env, pen.(order := op.order), depth, computed);
    PrunesOne(o, op.name, WriteType(y, room, op.ty, o[op.name], op.staticLength, env, pen.(order := op.order), depth).value.v, computed);
  }

  lemma {:induction false} MemberPrunes(y: Sink, room: Room, op: Op, o: Fields, env: Env, pen: Pen, depth: nat, computed: set<Name>)
    requires y.strict && HasVirtuals(y.c.plan, computed) && VirtualsOf(op) <= computed && WriteMember(y, room, op, o, env, pen, depth).Ok?
    ensures PrunesFields(o, WriteMember(y, room, op, o, env, pen, depth).value.fields, computed)
    decreases depth, 1, op, 1
  {
    hide WriteField, WriteMembers, WriteVariant, WriteBitsFields, Put, PutZeros, Eval, Grows, HasVirtuals, Prunes, PrunesFields;
    match op
    case Field(_, _, _, _, _, _) => FieldPrunes(y, room, op, o, env, pen, depth, computed);
    case Virtual(_, name, e) => PrunesOne(o, name, Num(Eval(y.c.fp, e, env).value), computed);
    case Bits(group) => GroupPrunes(y, group, o, env, computed);
    case Align(_, _) => NothingPrunes(o, computed);
    case Block(e, known, members) =>
      MembersPrune(y, Room(pen.p + SizeOf(y.c, known, e, env).value, InBlock), members, o, env, pen, depth, computed);
    case Conditional(e, thenMembers, elseMembers) =>
      MembersPrune(y, room, if EvalBool(y.c.fp, e, env).value then thenMembers else elseMembers, o, env, pen, depth, computed);
    case Variant(_, _, _, _) => VariantPrunes(y, room, op, o, env, pen, depth, computed);
    case _ =>
  }

  lemma {:induction false} OpsPrune(y: Sink, room: Room, ops: seq<Op>, o: Fields, env: Env, pen: Pen, depth: nat, computed: set<Name>)
    requires y.strict && HasVirtuals(y.c.plan, computed) && Virtuals(ops) <= computed && WriteOps(y, room, ops, o, env, pen, depth).Ok?
    ensures PrunesFields(o, WriteOps(y, room, ops, o, env, pen, depth).value.fields, computed)
    decreases depth, 1, ops, 0
  {
    hide WriteMember, Grows, HasVirtuals, Prunes, PrunesFields;
    if ops == [] {
      NothingPrunes(o, computed);
    } else {
      MemberPrunes(y, room, ops[0], o, env, pen, depth, computed);
      var b := WriteMember(y, room, ops[0], o, env, pen, depth).value;
      OpsPrune(y, room, ops[1..], o, b.env, b.pen, depth, computed);
      PrunesBoth(o, b.fields, WriteOps(y, room, ops[1..], o, b.env, b.pen, depth).value.fields, computed);
    }
  }

  lemma {:induction false} MembersPrune(y: Sink, room: Room, ops: seq<Op>, o: Fields, env: Env, pen: Pen, depth: nat, computed: set<Name>)
    requires y.strict && HasVirtuals(y.c.plan, computed) && Virtuals(ops) <= computed && WriteMembers(y, room, ops, o, env, pen, depth).Ok?
    ensures PrunesFields(o, WriteMembers(y, room, ops, o, env, pen, depth).value.fields, computed)
    decreases depth, 1, ops, 1
  {
    hide WriteOps, BindAliases, Grows, HasVirtuals, PrunesFields;
    OpsPrune(y, room, ops, o, BindAliases(y.c, ops, o, env).value, pen, depth, computed);
  }
}
