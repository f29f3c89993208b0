/** The logical value that a plan makes of a given one, without bytes, positions or limits: numbers
    take the tags of their types, virtual fields and aliases are computed, and entries that no
    member in force names are left out. Every encode writes exactly this value. */
module Logical {
  import opened Outcome
  import opened Bytes
  import opened Expr
  import opened Plan
  import opened Decode
  import opened Encode

  type Entries = (Env, Fields)

  function LogicalInt(it: IntType, v: Value): Option<Value> {
    if it.signed then
      (if AsI64(v).Some? then Some(Num(I(AsI64(v).value))) else None)
    else
      (if AsU64(v).Some? then Some(Num(U(AsU64(v).value))) else None)
  }

  function LogicalBase(c: Context, base: Base, v: Value, env: Env, depth: nat): Option<Value>
    decreases depth, 0, 0, 0
  {
    match base
    case Primitive(it) => LogicalInt(it, v)
    case Named(id) =>
      if id in c.plan.structs then
        if v.Obj? && depth > 0 then LogicalStruct(c, c.plan.structs[id], v.fields, env, depth - 1) else None
      else if id in c.plan.enums then LogicalInt(c.plan.enums[id], v)
      else None
    case _ => Some(v)
  }

  function LogicalStruct(c: Context, s: Struct, o: Fields, env: Env, depth: nat): Option<Value>
    decreases depth, 2
  {
    var m := LogicalMembers(c, s.members, o, WithSizes(s, env), depth);
    if m.None? then None else Some(Obj(m.value.1))
  }

  function LogicalDims(c: Context, base: Base, dims: seq<Dim>, v: Value, env: Env, depth: nat): Option<Value>
    decreases depth, 0, 2 * |dims| + 1, 0
  {
    if dims == [] then LogicalBase(c, base, v, env, depth)
    else if !v.Arr? then None
    else
      var ws := LogicalElems(c, base, dims[1..], v.items, env, depth);
      if ws.None? then None else Some(Arr(ws.value))
  }

  function LogicalElems(c: Context, base: Base, dims: seq<Dim>, vs: seq<Value>, env: Env, depth: nat): (r: Option<seq<Value>>)
    ensures r.Some? ==> |r.value| == |vs|
    decreases depth, 0, 2 * |dims| + 2, |vs|
  {
    if vs == [] then Some([])
    else
      var first := LogicalDims(c, base, dims, vs[0], env, depth);
      var rest := LogicalElems(c, base, dims, vs[1..], env, depth);
      if first.None? || rest.None? then None else Some([first.value] + rest.value)
  }

  function LogicalType(c: Context, t: Type, v: Value, env: Env, depth: nat): Option<Value>
    decreases depth, 0, 2 * |t.dims| + 3, 0
  {
    if t.IsTerminated() then
      if t.IsByteForm() then Some(v)
      else if !v.Arr? then None
      else
        var ws := LogicalElems(c, t.base, [], v.items, env, depth);
        if ws.None? then None else Some(Arr(ws.value))
    else if t.base.IsText() then Some(v)
    else LogicalDims(c, t.base, t.dims, v, env, depth)
  }

  function LogicalGroup(fs: seq<BitsField>, o: Fields, env: Env): Option<Entries> {
    if fs == [] then Some((env, map[]))
    else if fs[0].name !in o || AsU64(o[fs[0].name]).None? then None
    else
      var u := U(AsU64(o[fs[0].name]).value);
      var rest := LogicalGroup(fs[1..], o, env[fs[0].symbol := u]);
      if rest.None? then None else Some((rest.value.0, map[fs[0].name := Num(u)] + rest.value.1))
  }

  function LogicalBranch(c: Context, b: Branch, o: Fields, env: Env, depth: nat): Option<Entries>
    decreases depth, 1, b, 0
  {
    match b
    case Typed(t) =>
      if "value" !in o then None
      else
        var w := LogicalType(c, t, o["value"], env, depth);
        if w.None? then None else Some((env, map["value" := w.value]))
    case Listed(members) => LogicalMembers(c, members, o, env, depth)
  }

  function LogicalVariant(c: Context, op: Op, o: Fields, env: Env, depth: nat): Option<Entries>
    requires op.Variant?
    decreases depth, 1, op, 0
  {
    if op.name !in o || !o[op.name].Obj? then None
    else
      var tag := Eval(c.fp, op.discriminator, env);
      if tag.Fail? then None
      else
        var chosen := ChooseCase(c.fp, op.cases, tag.value);
        if chosen.None? && op.default.None? then None
        else
          var b := if chosen.Some? then LogicalBranch(c, op.cases[chosen.value].body, o[op.name].fields, env, depth)
                   else LogicalBranch(c, op.default.value, o[op.name].fields, env, depth);
          if b.None? then None else Some((b.value.0, map[op.name := Obj(b.value.1)]))
  }

  function LogicalOp(c: Context, op: Op, o: Fields, env: Env, depth: nat): Option<Entries>
    decreases depth, 1, op, 1
  {
    match op
    case Field(_, _, _, _, _, _) =>
      var v := FieldInput(op, o, env);
      if v.Fail? then None
      else
        var w := LogicalType(c, op.ty, v.value, env, depth);
        if w.None? then None else Some((env[op.symbol := Runtime(v.value)], map[op.name := w.value]))
    case Virtual(symbol, name, e) =>
      var s := Eval(c.fp, e, env);
      if s.Fail? then None else Some((env[symbol := s.value], map[name := Num(s.value)]))
    case Alias(symbol, name, target, _) =>
      if target !in env then None else Some((env[symbol := env[target]], map[name := Num(env[target])]))
    case Bits(group) => LogicalGroup(group, o, env)
    case Align(_, _) => Some((env, map[]))
    case At(_, _, members) => LogicalMembers(c, members, o, env, depth)
    case Block(_, _, members) => LogicalMembers(c, members, o, env, depth)
    case Conditional(condition, thenMembers, elseMembers) =>
      var b := EvalBool(c.fp, condition, env);
      if b.Fail? then None else LogicalMembers(c, if b.value then thenMembers else elseMembers, o, env, depth)
    case Variant(_, _, _, _) => LogicalVariant(c, op, o, env, depth)
  }

  function LogicalOps(c: Context, ops: seq<Op>, o: Fields, env: Env, depth: nat): Option<Entries>
    decreases depth, 1, ops, 0
  {
    if ops == [] then Some((env, map[]))
    else
      var first := LogicalOp(c, ops[0], o, env, depth);
      if first.None? then None
      else
        var rest := LogicalOps(c, ops[1..], o, first.value.0, depth);
        if rest.None? then None else Some((rest.value.0, first.value.1 + rest.value.1))
  }

  function LogicalMembers(c: Context, ops: seq<Op>, o: Fields, env: Env, depth: nat): Option<Entries>
    decreases depth, 1, ops, 1
  {
    var bound := BindAliases(c, ops, o, env);
    if bound.Fail? then None else LogicalOps(c, ops, o, bound.value, depth)
  }

  /** The logical value of `v` as a struct `id`, with the given parameters. */
  function LogicalValue(c: Context, id: SymbolId, v: Value, parameters: Env): Option<Value> {
    var env := InitialEnv(c.plan, parameters);
    if env.Fail? then None else LogicalBase(c, Named(id), v, env.value, c.options.maxRecursionDepth)
  }

  // ----- what is written is the logical value -----

  lemma {:induction false} GroupIsLogical(y: Sink, fs: seq<BitsField>, o: Fields, env: Env)
    requires TotalBits(fs) <= 64 && WriteBitsFields(y, fs, o, env).Ok?
    ensures var (_, env', fields) := WriteBitsFields(y, fs, o, env).value;
            LogicalGroup(fs, o, env) == Some((env', fields))
  {
    hide Pow2, Shift;
    if fs != [] {
      GroupIsLogical(y, fs[1..], o, env[fs[0].symbol := U(AsU64(o[fs[0].name]).value)]);
    }
  }

  lemma {:induction false} BaseIsLogical(y: Sink, room: Room, base: Base, v: Value, env: Env, pen: Pen, depth: nat)
    requires WriteBase(y, room, base, v, env, pen, depth).Ok?
    ensures LogicalBase(y.c, base, v, env, depth) == Some(WriteBase(y, room, base, v, env, pen, depth).value.v)
    decreases depth, 0, 0, 0
  {
    hide WriteMembers, LogicalMembers, Put, Pow2, Grows;
    if base.Named? && base.id in y.c.plan.structs {
      var s := y.c.plan.structs[base.id];
      MembersAreLogical(y, room, s.members, v.fields, WithSizes(s, env), pen.(order := s.order), depth - 1);
    }
  }

  lemma {:induction false} DimsAreLogical(y: Sink, room: Room, base: Base, dims: seq<Dim>, v: Value, env: Env, pen: Pen, depth: nat)
    requires WriteDims(y, room, base, dims, v, env, pen, depth).Ok?
    ensures LogicalDims(y.c, base, dims, v, env, depth) == Some(WriteDims(y, room, base, dims, v, env, pen, depth).value.v)
    decreases depth, 0, 2 * |dims| + 1, 0
  {
    hide WriteBase, WriteElems, LogicalBase, LogicalElems, Grows;
    if dims == [] {
      BaseIsLogical(y, room, base, v, env, pen, depth);
    } else {
      ElemsAreLogical(y, room, base, dims[1..], v.items, env, pen, depth);
    }
  }

  lemma {:induction false} ElemsAreLogical(y: Sink, room: Room, base: Base, dims: seq<Dim>, vs: seq<Value>, env: Env, pen: Pen, depth: nat)
    requires WriteElems(y, room, base, dims, vs, env, pen, depth).Ok?
    ensures LogicalElems(y.c, base, dims, vs, env, depth) == Some(WriteElems(y, room, base, dims, vs, env, pen, depth).value.vs)
    decreases depth, 0, 2 * |dims| + 2, |vs|
  {
    hide WriteDims, LogicalDims, Grows;
    if vs != [] {
      DimsAreLogical(y, room, base, dims, vs[0], env, pen, depth);
      ElemsAreLogical(y, room, base, dims, vs[1..], env, WriteDims(y, room, base, dims, vs[0], env, pen, depth).value.pen, depth);
    }
  }

  lemma {:induction false} SeqIsLogical(y: Sink, room: Room, t: Type, vs: seq<Value>, start: nat, bound: Option<u64>, env: Env, pen: Pen, depth: nat)
    requires t.maxPayload.Some? && WriteSeq(y, room, t, vs, start, bound, env, pen, depth).Ok?
    ensures LogicalElems(y.c, t.base, [], vs, env, depth) == Some(WriteSeq(y, room, t, vs, start, bound, env, pen, depth).value.vs)
    decreases depth, 0, 1, |vs|
  {
    hide WriteBase, LogicalBase, LooksTerminated, Grows;
    if vs != [] {
      BaseIsLogical(y, room, t.base, vs[0], env, pen, depth);
      assert LogicalDims(y.c, t.base, [], vs[0], env, depth) == LogicalBase(y.c, t.base, vs[0], env, depth);
      SeqIsLogical(y, room, t, vs[1..], start, bound, env, WriteBase(y, room, t.base, vs[0], env, pen, depth).value.pen, depth);
    }
  }

  lemma {:induction false} SequenceFormIsLogical(y: Sink, room: Room, t: Type, v: Value, bound: Option<u64>, env: Env, pen: Pen, depth: nat)
    requires t.maxPayload.Some? && WriteSequenceForm(y, room, t, v, bound, env, pen, depth).Ok?
    ensures v.Arr? && WriteSequenceForm(y, room, t, v, bound, env, pen, depth).value.v.Arr?
    ensures LogicalElems(y.c, t.base, [], v.items, env, depth) == Some(WriteSequenceForm(y, room, t, v, bound, env, pen, depth).value.v.items)
    decreases depth, 0, 2, 0
  {
    hide WriteSeq, LogicalElems, Grows;
    SeqIsLogical(y, Room(room.limit, InSequence), t, v.items, pen.p, bound, env, pen, depth);
  }

  lemma {:induction false} TypeIsLogical(y: Sink, room: Room, t: Type, v: Value, bound: Option<u64>, env: Env, pen: Pen, depth: nat)
    requires WriteType(y, room, t, v, bound, env, pen, depth).Ok?
    ensures LogicalType(y.c, t, v, env, depth) == Some(WriteType(y, room, t, v, bound, env, pen, depth).value.v)
    decreases depth, 0, 2 * |t.dims| + 3, 0
  {
    hide WriteDims, WriteSequenceForm, WriteTerminatedBytes, WriteText, LogicalDims, LogicalElems, Grows;
    if t.IsTerminated() {
      assert WriteType(y, room, t, v, bound, env, pen, depth) == WriteTerminated(y, room, t, v, bound, env, pen, depth);
      if !t.IsByteForm() {
        SequenceFormIsLogical(y, room, t, v, bound, env, pen, depth);
      }
    } else if !t.base.IsText() {
      DimsAreLogical(y, room, t.base, t.dims, v, env, pen, depth);
    }
  }

  /** The environment and the entries that an encode of a member list reports. */
  predicate Reports(said: Option<Entries>, b: Batch) {
    said == Some((b.env, b.fields))
  }

  lemma {:induction false} BranchIsLogical(y: Sink, room: Room, body: Branch, o: Fields, env: Env, pen: Pen, depth: nat)
    requires WriteBranch(y, room, body, o, env, pen, depth).Ok?
    ensures Reports(LogicalBranch(y.c, body, o, env, depth), WriteBranch(y, room, body, o, env, pen, depth).value)
    decreases depth, 1, body, 0
  {
    hide WriteType, WriteMembers, LogicalType, LogicalMembers, Grows;
    match body
    case Typed(t) => TypeIsLogical(y, room, t, o["value"], None, env, pen, depth);
    case Listed(members) => MembersAreLogical(y, room, members, o, env, pen, depth);
  }

  lemma {:induction false} VariantIsLogical(y: Sink, room: Room, op: Op, o: Fields, env: Env, pen: Pen, depth: nat)
    requires op.Variant? && WriteVariant(y, room, op, o, env, pen, depth).Ok?
    ensures Reports(LogicalVariant(y.c, op, o, env, depth), WriteVariant(y, room, op, o, env, pen, depth).value)
    decreases depth, 1, op, 0
  {
    hide WriteBranch, LogicalBranch, Eval, Grows;
    match ChooseCase(y.c.fp, op.cases, Eval(y.c.fp, op.discriminator, env).value)
    case Some(i) => BranchIsLogical(y, room, op.cases[i].body, o[op.name].fields, env, pen, depth);
    case None => BranchIsLogical(y, room, op.default.value, o[op.name].fields, env, pen, depth);
  }

  lemma {:induction false} FieldIsLogical(y: Sink, room: Room, op: Op, o: Fields, env: Env, pen: Pen, depth: nat)
    requires op.Field? && WriteField(y, room, op, o, env, pen, depth).Ok?
    ensures Reports(LogicalOp(y.c, op, o, env, depth), WriteField(y, room, op, o, env, pen, depth).value)
    decreases depth, 1, op, 0
  {
    hide WriteType, LogicalType, Matches, Grows;
    TypeIsLogical(y, room, op.ty, FieldInput(op, o, env).value, op.staticLength, env, pen.(order := op.order), depth);
  }

  lemma {:induction false} MemberIsLogical(y: Sink, room: Room, op: Op, o: Fields, env: Env, pen: Pen, depth: nat)
    requires WriteMember(y, room, op, o, env, pen, depth).Ok?
    ensures Reports(LogicalOp(y.c, op, o, env, depth), WriteMember(y, room, op, o, env, pen, depth).value)
    decreases depth, 1, op, 1
  {
    hide WriteField, WriteMembers, WriteVariant, WriteBitsFields, LogicalMembers, LogicalVariant, LogicalGroup, Put, PutZeros, Eval, Grows;
    match op
    case Field(_, _, _, _, _, _) => FieldIsLogical(y, room, op, o, env, pen, depth);
    case Bits(group) => GroupIsLogical(y, group, o, env);
    case At(e, known, members) =>
      var off := SizeOf(y.c, known, e, env[NEXT := U(pen.p)]).value;
      var d := if off > |pen.d| then pen.d + Zeros(off - |pen.d|) else pen.d;
      MembersAreLogical(y, room, members, o, env, Ink(d, off, pen.order), depth);
    case Block(e, known, members) =>
      MembersAreLogical(y, Room(pen.p + SizeOf(y.c, known, e, env).value, InBlock), members, o, env, pen, depth);
    case Conditional(e, thenMembers, elseMembers) =>
      MembersAreLogical(y, room, if EvalBool(y.c.fp, e, env).value then thenMembers else elseMembers, o, env, pen, depth);
    case Variant(_, _, _, _) => VariantIsLogical(y, room, op, o, env, pen, depth);
    case _ =>
  }

  lemma {:induction false} OpsAreLogical(y: Sink, room: Room, ops: seq<Op>, o: Fields, env: Env, pen: Pen, depth: nat)
    requires WriteOps(y, room, ops, o, env, pen, depth).Ok?
    ensures Reports(LogicalOps(y.c, ops, o, env, depth), WriteOps(y, room, ops, o, env, pen, depth).value)
    decreases depth, 1, ops, 0
  {
    hide WriteMember, LogicalOp, Grows;
    if ops != [] {
      MemberIsLogical(y, room, ops[0], o, env, pen, depth);
      var b := WriteMember(y, room, ops[0], o, env, pen, depth).value;
      OpsAreLogical(y, room, ops[1..], o, b.env, b.pen, depth);
    }
  }

  lemma {:induction false} MembersAreLogical(y: Sink, room: Room, ops: seq<Op>, o: Fields, env: Env, pen: Pen, depth: nat)
    requires WriteMembers(y, room, ops, o, env, pen, depth).Ok?
    ensures Reports(LogicalMembers(y.c, ops, o, env, depth), WriteMembers(y, room, ops, o, env, pen, depth).value)
    decreases depth, 1, ops, 1
  {
    hide WriteOps, LogicalOps, BindAliases, Grows;
    OpsAreLogical(y, room, ops, o, BindAliases(y.c, ops, o, env).value, pen, depth);
  }

  /** For every plan and value, strict or not: the value that an encode writes is the logical value
      of what it was given. */
  lemma EncodeWritesLogicalValue(y: Sink, id: SymbolId, v: Value, parameters: Env)
    requires EncodeStruct(y, id, v, parameters).Ok?
    ensures LogicalValue(y.c, id, v, parameters) == Some(EncodeStruct(y, id, v, parameters).value.v)
  {
    hide WriteBase, LogicalBase;
    var env := InitialEnv(y.c.plan, parameters).value;
    BaseIsLogical(y, Room(U64_MAX, Root), Named(id), v, env, Ink([], 0, Little), y.c.options.maxRecursionDepth);
  }
}
