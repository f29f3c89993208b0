/** What the encoder computes, as functions of the logical value.

    `Sink.strict` adds tests that the C++ encoder does not make: the decoder will find the same
    lengths, byte order, limits and element boundaries again. With `strict` off the functions
    describe the encoder as it is. Beside the output every function gives the value that it
    wrote, with the computed virtual fields and without the entries that no member names. */
module Encode {
  import opened Outcome
  import opened Bytes
  import opened Expr
  import opened Plan
  import opened Terminator
  import opened Decode

  datatype Sink = Sink(c: Context, strict: bool)

  /** What stands around the write position: no limit that the reader will also have pushed, a
      block, or a terminated sequence, whose reading limit the writer does not have. */
  datatype Zone = Root | InBlock | InSequence

  datatype Room = Room(limit: nat, zone: Zone)

  /** The output, the write position inside it and the byte order. */
  datatype Ink = Ink(d: seq<byte>, p: nat, order: Order)

  type Pen = k: Ink | k.p <= |k.d| witness Ink([], 0, Little)

  datatype Written = Written(pen: Pen, v: Value)
  datatype WrittenAll = WrittenAll(pen: Pen, vs: seq<Value>)
  datatype Batch = Batch(pen: Pen, env: Env, fields: Fields)

  function Overlay(d: seq<byte>, p: nat, b: seq<byte>): (r: seq<byte>)
    requires p <= |d|
    ensures |r| == if p + |b| <= |d| then |d| else p + |b|
    ensures p == |d| ==> r == d + b
  {
    d[..p] + b + (if p + |b| <= |d| then d[p + |b|..] else [])
  }

  function Put(room: Room, pen: Pen, b: seq<byte>): (r: Result<Pen>)
    ensures r.Ok? ==> r.value.p == pen.p + |b| <= room.limit && r.value.order == pen.order
    ensures r.Ok? ==> r.value.d == Overlay(pen.d, pen.p, b)
  {
    if pen.p + |b| > room.limit then Fail(BeyondLimit)
    else Ok(Ink(Overlay(pen.d, pen.p, b), pen.p + |b|, pen.order))
  }

  function Zeros(n: nat): (z: seq<byte>)
    ensures |z| == n && forall i :: 0 <= i < n ==> z[i] == 0
  {
    seq(n, _ => 0)
  }

  /** `writeZeros`: where the zeros fit they replace what is there. Where the output has to grow it
      grows by zeros only, and what already stands behind the position is kept. */
  function Fill(d: seq<byte>, p: nat, n: nat): (r: seq<byte>)
    requires p <= |d|
    ensures |r| == if p + n <= |d| then |d| else p + n
    ensures forall i :: 0 <= i < |r| ==>
      r[i] == if i < |d| && (i < p || i >= p + n || p + n > |d|) then d[i] else 0
    ensures p == |d| ==> r == d + Zeros(n)
  {
    if p + n <= |d| then Overlay(d, p, Zeros(n)) else d + Zeros(p + n - |d|)
  }

  function PutZeros(room: Room, pen: Pen, n: nat): (r: Result<Pen>)
    ensures r.Ok? ==> r.value.p == pen.p + n <= room.limit && r.value.order == pen.order
    ensures r.Ok? ==> r.value.d == Fill(pen.d, pen.p, n)
    ensures pen.p == |pen.d| ==> r == Put(room, pen, Zeros(n))
  {
    if pen.p + n > room.limit then Fail(BeyondLimit)
    else Ok(Ink(Fill(pen.d, pen.p, n), pen.p + n, pen.order))
  }

  /** A pen that writes at the end of its output. */
  predicate AtEnd(room: Room, pen: Pen) {
    pen.p == |pen.d| <= room.limit
  }

  /** The output never shrinks, it does not grow past the limit, and in strict mode it only
      grows at its end. */
  ghost predicate Grows(y: Sink, room: Room, pen: Pen, after: Pen) {
    && pen.p <= after.p
    && |pen.d| <= |after.d|
    && (|after.d| <= |pen.d| || |after.d| <= room.limit)
    && (y.strict && AtEnd(room, pen) ==> AtEnd(room, after) && pen.d <= after.d)
  }

  /** A written value is the given one up to the entries of objects. */
  predicate SameShape(v: Value, w: Value) {
    if v.Obj? then w.Obj? else if v.Arr? then w.Arr? else v == w
  }

  // ----- scalars and text -----

  function AsU64(v: Value): (r: Option<u64>)
    ensures r.Some? <==> v.Num? && v.s.IsInteger() && 0 <= v.s.Int() <= U64_MAX
    ensures r.Some? ==> r.value == v.s.Int()
  {
    if v.Num? && v.s.U? then Some(v.s.u)
    else if v.Num? && v.s.I? && v.s.i >= 0 then Some(v.s.i)
    else None
  }

  function AsI64(v: Value): (r: Option<i64>)
    ensures r.Some? <==> v.Num? && v.s.IsInteger() && I64_MIN <= v.s.Int() <= I64_MAX
    ensures r.Some? ==> r.value == v.s.Int()
  {
    if v.Num? && v.s.I? then Some(v.s.i)
    else if v.Num? && v.s.U? && v.s.u <= I64_MAX then Some(v.s.u)
    else None
  }

  function WriteInt(y: Sink, room: Room, t: IntType, v: Value, pen: Pen): (r: Result<Written>)
    ensures r.Ok? ==> Grows(y, room, pen, r.value.pen) && (y.strict ==> r.value.v == v)
  {
    var n := t.width.Count();
    if t.signed then
      match AsI64(v)
      case None => Fail(ValueMismatch)
      case Some(i) =>
        if !(i + Pow2(8 * n - 1) >= 0 && i < Pow2(8 * n - 1)) then Fail(ValueMismatch)
        else if y.strict && v != Num(I(i)) then Fail(NotStrict)
        else
          var after :- Put(room, pen, Pack(i % TWO_64, n, pen.order));
          Ok(Written(after, Num(I(i))))
    else
      match AsU64(v)
      case None => Fail(ValueMismatch)
      case Some(u) =>
        if u >= Pow2(8 * n) then Fail(ValueMismatch)
        else if y.strict && v != Num(U(u)) then Fail(NotStrict)
        else
          var after :- Put(room, pen, Pack(u, n, pen.order));
          Ok(Written(after, Num(U(u))))
  }

  function TextBytes(base: Base, v: Value): (r: Result<seq<byte>>)
    ensures r.Ok? ==> v == MakeText(base, r.value)
  {
    if base.BytesBase? && v.Blob? then Ok(v.bytes)
    else if base.StringBase? && v.Text? then Ok(v.text)
    else Fail(ValueMismatch)
  }

  /** The decoder will take exactly these `n` bytes. */
  predicate LengthAgrees(y: Sink, room: Room, dims: seq<Dim>, bound: Option<u64>, env: Env, n: nat, end: nat) {
    && n <= y.c.options.maxAllocationBytes
    && (if dims != [] && dims[0].Remaining? then room.zone == InBlock && end == room.limit
        else if dims != [] then EvalSize(y.c.fp, dims[0].e, env) == Ok(n)
        else bound.Some? && bound.value == n)
  }

  /** Only a `Fixed` extent and the static length of a field are compared with the value. */
  function WriteText(y: Sink, room: Room, base: Base, dims: seq<Dim>, v: Value, bound: Option<u64>, env: Env, pen: Pen): (r: Result<Written>)
    ensures r.Ok? ==> Grows(y, room, pen, r.value.pen) && r.value.v == v
  {
    var wanted :- (if dims != [] && dims[0].Fixed? then
                     var n :- EvalSize(y.c.fp, dims[0].e, env);
                     Ok(Some(n))
                   else Ok(None));
    var b :- TextBytes(base, v);
    if wanted.Some? && wanted.value != |b| then Fail(ValueMismatch)
    else if bound.Some? && |b| > bound.value then Fail(ValueMismatch)
    else if y.strict && !LengthAgrees(y, room, dims, bound, env, |b|, pen.p + |b|) then Fail(NotStrict)
    else
      var after :- Put(room, pen, b);
      Ok(Written(after, v))
  }

  function WriteTerminatedBytes(y: Sink, room: Room, t: seq<byte>, max: u64, v: Value, bound: Option<u64>, pen: Pen): (r: Result<Written>)
    ensures r.Ok? ==> Grows(y, room, pen, r.value.pen) && r.value.v == v
  {
    if !v.Blob? then Fail(ValueMismatch)
    else if |v.bytes| > max then Fail(LimitExceeded)
    else if First(v.bytes, t).Some? then Fail(ValueMismatch)
    else if bound.Some? && |v.bytes| + |t| > bound.value then Fail(ValueMismatch)
    else if y.strict && !(max + |t| <= U64_MAX && First(v.bytes + t, t) == Some(|v.bytes|)) then Fail(NotStrict)
    else
      var after :- Put(room, pen, v.bytes + t);
      Ok(Written(after, v))
  }

  // ----- bits -----

  /** The container that `Writer::bit` builds, first field in the most significant bits. */
  function WriteBitsFields(y: Sink, fs: seq<BitsField>, o: Fields, env: Env): (r: Result<(nat, Env, Fields)>)
    requires TotalBits(fs) <= 64
  {
    if fs == [] then Ok((0, env, map[]))
    else
      var f := fs[0];
      if f.name !in o then Fail(MissingField)
      else match AsU64(o[f.name])
           case None => Fail(ValueMismatch)
           case Some(u) =>
             if !Matches(f.assertion, Num(U(u))) then Fail(AssertionMismatch)
             else if u >= Pow2(f.bits) then Fail(ValueMismatch)
             else if y.strict && o[f.name] != Num(U(u)) then Fail(NotStrict)
             else
               var rest :- WriteBitsFields(y, fs[1..], o, env[f.symbol := U(u)]);
               Ok((Shift(u, TotalBits(fs[1..])) + rest.0, rest.1, map[f.name := Num(U(u))] + rest.2))
  }

  /** The container with its padding. */
  function Padded(container: nat, padding: nat): nat {
    Shift(container, padding)
  }

  function WriteBits(y: Sink, room: Room, g: BitsGroup, o: Fields, env: Env, pen: Pen): (r: Result<Batch>)
    ensures r.Ok? ==> Grows(y, room, pen, r.value.pen)
  {
    var n := StorageBytes(g);
    var order := g[0].order;
    if y.strict && !((n == 1 || pen.order == order) && order == LastOrder(g)) then Fail(NotStrict)
    else
      var got :- WriteBitsFields(y, g, o, env);
      var after :- Put(room, pen.(order := order), Pack(Padded(got.0, PaddingBits(g)), n, order));
      Ok(Batch(after, got.1, got.2))
  }

  function WriteAlign(y: Sink, room: Room, e: Expr, known: Option<u64>, env: Env, pen: Pen): (r: Result<Batch>)
    ensures r.Ok? ==> Grows(y, room, pen, r.value.pen)
  {
    var a :- SizeOf(y.c, known, e, env);
    if a == 0 then Fail(ZeroAlignment)
    else
      var after :- PutZeros(room, pen, AlignUp(pen.p, a) - pen.p);
      Ok(Batch(after, env, map[]))
  }

  // ----- aliases -----

  /** `bindAliases`: a value given for an alias becomes the value of its target. */
  function BindAliases(c: Context, ops: seq<Op>, o: Fields, env: Env): (r: Result<Env>) {
    if ops == [] then Ok(env)
    else if !ops[0].Alias? || ops[0].name !in o then BindAliases(c, ops[1..], o, env)
    else
      var a := ops[0];
      if a.target !in c.plan.kinds || !c.plan.kinds[a.target].FieldKind? then Fail(ValueMismatch)
      else if !o[a.name].Num? then Fail(ValueMismatch)
      else
        var v := o[a.name].s;
        if a.targetName in o && !SameNumber(c.fp, Runtime(o[a.targetName]), v) then Fail(ValueMismatch)
        else if a.target in env && !SameNumber(c.fp, env[a.target], v) then Fail(ValueMismatch)
        else BindAliases(c, ops[1..], o, env[a.target := v])
  }

  // ----- types -----

  function WriteBase(y: Sink, room: Room, base: Base, v: Value, env: Env, pen: Pen, depth: nat): (r: Result<Written>)
    ensures r.Ok? ==> Grows(y, room, pen, r.value.pen) && (y.strict ==> SameShape(v, r.value.v))
    decreases depth, 0, 0, 0
  {
    match base
    case Primitive(it) => WriteInt(y, room, it, v, pen)
    case Named(id) =>
      if id in y.c.plan.structs then
        if !v.Obj? then Fail(ValueMismatch)
        else if depth == 0 then Fail(TooDeep)
        else WriteStruct(y, room, y.c.plan.structs[id], v.fields, env, pen, depth - 1)
      else if id in y.c.plan.enums then WriteInt(y, room, y.c.plan.enums[id], v, pen)
      else Fail(InvalidType)
    case _ => WriteText(y, room, base, [], v, None, env, pen)
  }

  function WriteStruct(y: Sink, room: Room, s: Struct, o: Fields, env: Env, pen: Pen, depth: nat): (r: Result<Written>)
    ensures r.Ok? ==> Grows(y, room, pen, r.value.pen) && r.value.v.Obj?
    decreases depth, 2
  {
    var b :- WriteMembers(y, room, s.members, o, WithSizes(s, env), pen.(order := s.order), depth);
    var _ :- CheckRequirements(y.c.fp, s.requirements, b.env);
    Ok(Written(b.pen, Obj(b.fields)))
  }

  function WriteDims(y: Sink, room: Room, base: Base, dims: seq<Dim>, v: Value, env: Env, pen: Pen, depth: nat): (r: Result<Written>)
    ensures r.Ok? ==> Grows(y, room, pen, r.value.pen) && (y.strict ==> SameShape(v, r.value.v))
    decreases depth, 0, 2 * |dims| + 1, 0
  {
    if dims == [] then WriteBase(y, room, base, v, env, pen, depth)
    else
      var ns :- ArrayExtents(y.c, dims, env);
      if !v.Arr? || |v.items| != ns[0] then Fail(ValueMismatch)
      else
        var got :- WriteElems(y, room, base, dims[1..], v.items, env, pen, depth);
        Ok(Written(got.pen, Arr(got.vs)))
  }

  function WriteElems(y: Sink, room: Room, base: Base, dims: seq<Dim>, vs: seq<Value>, env: Env, pen: Pen, depth: nat): (r: Result<WrittenAll>)
    ensures r.Ok? ==> Grows(y, room, pen, r.value.pen)
    decreases depth, 0, 2 * |dims| + 2, |vs|
  {
    if vs == [] then Ok(WrittenAll(pen, []))
    else
      var first :- WriteDims(y, room, base, dims, vs[0], env, pen, depth);
      var rest :- WriteElems(y, room, base, dims, vs[1..], env, first.pen, depth);
      Ok(WrittenAll(rest.pen, [first.v] + rest.vs))
  }

  /** The bytes that a reader at `from` would compare with the terminator. */
  predicate LooksTerminated(d: seq<byte>, from: nat, t: seq<byte>) {
    from + |t| <= |d| && d[from..from + |t|] == t
  }

  /** The elements and the terminator after them. In strict mode an element takes at least one
      byte, and the output at its boundary does not look like the terminator. */
  function WriteSeq(y: Sink, room: Room, t: Type, vs: seq<Value>, start: nat, bound: Option<u64>, env: Env, pen: Pen, depth: nat): (r: Result<WrittenAll>)
    requires t.maxPayload.Some?
    ensures r.Ok? ==> Grows(y, room, pen, r.value.pen) && pen.p + |t.terminator| <= r.value.pen.p
    decreases depth, 0, 1, |vs|
  {
    if vs == [] then
      if bound.Some? && pen.p - start + |t.terminator| > bound.value then Fail(ValueMismatch)
      else
        var after :- Put(room, pen, t.terminator);
        Ok(WrittenAll(after, []))
    else
      var first :- WriteBase(y, room, t.base, vs[0], env, pen, depth);
      if first.pen.p > start + t.maxPayload.value then Fail(LimitExceeded)
      else
        var rest :- WriteSeq(y, room, t, vs[1..], start, bound, env, first.pen, depth);
        if y.strict && !(first.pen.p > pen.p && !LooksTerminated(rest.pen.d, pen.p, t.terminator)) then Fail(NotStrict)
        else Ok(WrittenAll(rest.pen, [first.v] + rest.vs))
  }

  /** A sequence takes at most its largest payload and the terminator. */
  lemma {:induction false} SeqEnd(y: Sink, room: Room, t: Type, vs: seq<Value>, start: nat, bound: Option<u64>, env: Env, pen: Pen, depth: nat)
    requires t.maxPayload.Some? && WriteSeq(y, room, t, vs, start, bound, env, pen, depth).Ok?
    requires pen.p <= start + t.maxPayload.value
    ensures WriteSeq(y, room, t, vs, start, bound, env, pen, depth).value.pen.p <= start + t.maxPayload.value + |t.terminator|
    decreases |vs|
  {
    if vs != [] {
      SeqEnd(y, room, t, vs[1..], start, bound, env, WriteBase(y, room, t.base, vs[0], env, pen, depth).value.pen, depth);
    }
  }

  function WriteSequenceForm(y: Sink, room: Room, t: Type, v: Value, bound: Option<u64>, env: Env, pen: Pen, depth: nat): (r: Result<Written>)
    requires t.maxPayload.Some?
    ensures r.Ok? ==> Grows(y, room, pen, r.value.pen) && (y.strict ==> SameShape(v, r.value.v))
    decreases depth, 0, 2, 0
  {
    if !v.Arr? then Fail(ValueMismatch)
    else if y.strict && !(room.zone == Root && t.maxPayload.value + |t.terminator| <= U64_MAX) then Fail(NotStrict)
    else
      var got :- WriteSeq(y, Room(room.limit, InSequence), t, v.items, pen.p, bound, env, pen, depth);
      Ok(Written(got.pen, Arr(got.vs)))
  }

  function WriteTerminated(y: Sink, room: Room, t: Type, v: Value, bound: Option<u64>, env: Env, pen: Pen, depth: nat): (r: Result<Written>)
    ensures r.Ok? ==> Grows(y, room, pen, r.value.pen) && (y.strict ==> SameShape(v, r.value.v))
    decreases depth, 0, 2, 1
  {
    if t.maxPayload.None? || !(t.IsByteForm() || t.IsSequenceForm()) then Fail(InvalidType)
    else if t.IsByteForm() then WriteTerminatedBytes(y, room, t.terminator, t.maxPayload.value, v, bound, pen)
    else WriteSequenceForm(y, room, t, v, bound, env, pen, depth)
  }

  function WriteType(y: Sink, room: Room, t: Type, v: Value, bound: Option<u64>, env: Env, pen: Pen, depth: nat): (r: Result<Written>)
    ensures r.Ok? ==> Grows(y, room, pen, r.value.pen) && (y.strict ==> SameShape(v, r.value.v))
    decreases depth, 0, 2 * |t.dims| + 3, 0
  {
    if t.IsTerminated() then WriteTerminated(y, room, t, v, bound, env, pen, depth)
    else if t.base.IsText() then WriteText(y, room, t.base, t.dims, v, bound, env, pen)
    else WriteDims(y, room, t.base, t.dims, v, env, pen, depth)
  }

  // ----- operations -----

  /** A field that the object does not name is written from the environment when an alias, or
      an enclosing struct, has bound its symbol. */
  function FieldInput(op: Op, o: Fields, env: Env): (r: Result<Value>)
    requires op.Field?
  {
    if op.name in o then Ok(o[op.name])
    else if op.symbol in env then Ok(Num(env[op.symbol]))
    else Fail(MissingField)
  }

  function WriteField(y: Sink, room: Room, op: Op, o: Fields, env: Env, pen: Pen, depth: nat): (r: Result<Batch>)
    requires op.Field?
    ensures r.Ok? ==> Grows(y, room, pen, r.value.pen)
    decreases depth, 1, op, 0
  {
    var v :- FieldInput(op, o, env);
    if y.strict && op.name !in o then Fail(NotStrict)
    else if !Matches(op.assertion, v) then Fail(AssertionMismatch)
    else
      var got :- WriteType(y, room, op.ty, v, op.staticLength, env, pen.(order := op.order), depth);
      if op.staticLength.Some? && got.pen.p != pen.p + op.staticLength.value then Fail(ValueMismatch)
      else Ok(Batch(got.pen, env[op.symbol := Runtime(v)], map[op.name := got.v]))
  }

  function WriteAt(y: Sink, room: Room, op: Op, o: Fields, env: Env, pen: Pen, depth: nat): (r: Result<Batch>)
    requires op.At?
    ensures r.Ok? ==> Grows(y, room, pen, r.value.pen)
    decreases depth, 1, op, 0
  {
    if y.strict then Fail(NotStrict)
    else if pen.p > U64_MAX then Fail(BeyondLimit)
    else
      var off :- SizeOf(y.c, op.staticOffset, op.offset, env[NEXT := U(pen.p)]);
      if off > room.limit then Fail(BeyondLimit)
      else
        var d := if off > |pen.d| then pen.d + Zeros(off - |pen.d|) else pen.d;
        var b :- WriteMembers(y, room, op.members, o, env, Ink(d, off, pen.order), depth);
        Ok(Batch(Ink(b.pen.d, pen.p, b.pen.order), b.env, b.fields))
  }

  function WriteBlock(y: Sink, room: Room, op: Op, o: Fields, env: Env, pen: Pen, depth: nat): (r: Result<Batch>)
    requires op.Block?
    ensures r.Ok? ==> Grows(y, room, pen, r.value.pen)
    decreases depth, 1, op, 0
  {
    var n :- SizeOf(y.c, op.staticSize, op.size, env);
    var end := pen.p + n;
    if end > room.limit then Fail(BeyondLimit)
    else
      var b :- WriteMembers(y, Room(end, InBlock), op.members, o, env, pen, depth);
      if b.pen.p > end then Fail(BeyondLimit)
      else if b.pen.p < end && !y.c.options.allowTrailingBlockBytes then Fail(ValueMismatch)
      else
        var after := PutZeros(Room(end, InBlock), b.pen, end - b.pen.p).value;
        Ok(Batch(after, b.env, b.fields))
  }

  function WriteVariant(y: Sink, room: Room, op: Op, o: Fields, env: Env, pen: Pen, depth: nat): (r: Result<Batch>)
    requires op.Variant?
    ensures r.Ok? ==> Grows(y, room, pen, r.value.pen)
    decreases depth, 1, op, 0
  {
    if op.name !in o then Fail(MissingField)
    else if !o[op.name].Obj? then Fail(ValueMismatch)
    else
      var tag :- Eval(y.c.fp, op.discriminator, env);
      match ChooseCase(y.c.fp, op.cases, tag)
      case Some(i) =>
        var b :- WriteBranch(y, room, op.cases[i].body, o[op.name].fields, env, pen, depth);
        Ok(Batch(b.pen, b.env, map[op.name := Obj(b.fields)]))
      case None =>
        if op.default.None? then Fail(NoVariantCase)
        else
          var b :- WriteBranch(y, room, op.default.value, o[op.name].fields, env, pen, depth);
          Ok(Batch(b.pen, b.env, map[op.name := Obj(b.fields)]))
  }

  function WriteBranch(y: Sink, room: Room, body: Branch, o: Fields, env: Env, pen: Pen, depth: nat): (r: Result<Batch>)
    ensures r.Ok? ==> Grows(y, room, pen, r.value.pen)
    decreases depth, 1, body, 0
  {
    match body
    case Typed(t) =>
      if "value" !in o then Fail(MissingField)
      else
        var got :- WriteType(y, room, t, o["value"], None, env, pen, depth);
        Ok(Batch(got.pen, env, map["value" := got.v]))
    case Listed(members) => WriteMembers(y, room, members, o, env, pen, depth)
  }

  function WriteMember(y: Sink, room: Room, op: Op, o: Fields, env: Env, pen: Pen, depth: nat): (r: Result<Batch>)
    ensures r.Ok? ==> Grows(y, room, pen, r.value.pen)
    decreases depth, 1, op, 1
  {
    match op
    case Field(_, _, _, _, _, _) => WriteField(y, room, op, o, env, pen, depth)
    case Virtual(symbol, name, e) =>
      var v :- Eval(y.c.fp, e, env);
      Ok(Batch(pen, env[symbol := v], map[name := Num(v)]))
    case Alias(symbol, name, target, _) =>
      if y.strict then Fail(NotStrict)
      else if target !in env then Fail(AliasUnavailable)
      else Ok(Batch(pen, env[symbol := env[target]], map[name := Num(env[target])]))
    case Bits(group) => WriteBits(y, room, group, o, env, pen)
    case Align(e, known) => WriteAlign(y, room, e, known, env, pen)
    case At(_, _, _) => WriteAt(y, room, op, o, env, pen, depth)
    case Block(_, _, _) => WriteBlock(y, room, op, o, env, pen, depth)
    case Conditional(condition, thenMembers, elseMembers) =>
      var b :- EvalBool(y.c.fp, condition, env);
      WriteMembers(y, room, if b then thenMembers else elseMembers, o, env, pen, depth)
    case Variant(_, _, _, _) => WriteVariant(y, room, op, o, env, pen, depth)
  }

  function WriteOps(y: Sink, room: Room, ops: seq<Op>, o: Fields, env: Env, pen: Pen, depth: nat): (r: Result<Batch>)
    ensures r.Ok? ==> Grows(y, room, pen, r.value.pen)
    decreases depth, 1, ops, 0
  {
    if ops == [] then Ok(Batch(pen, env, map[]))
    else
      var b :- WriteMember(y, room, ops[0], o, env, pen, depth);
      var rest :- WriteOps(y, room, ops[1..], o, b.env, b.pen, depth);
      Ok(Batch(rest.pen, rest.env, b.fields + rest.fields))
  }

  function WriteMembers(y: Sink, room: Room, ops: seq<Op>, o: Fields, env: Env, pen: Pen, depth: nat): (r: Result<Batch>)
    ensures r.Ok? ==> Grows(y, room, pen, r.value.pen)
    decreases depth, 1, ops, 1
  {
    var bound :- BindAliases(y.c, ops, o, env);
    WriteOps(y, room, ops, o, bound, pen, depth)
  }

  /** A whole encode of the struct `id`: the output and the value that it holds. */
  function EncodeStruct(y: Sink, id: SymbolId, v: Value, parameters: Env): (r: Result<Written>) {
    if id !in y.c.plan.structs then Fail(InvalidType)
    else
      var env :- InitialEnv(y.c.plan, parameters);
      WriteBase(y, Room(U64_MAX, Root), Named(id), v, env, Ink([], 0, Little), y.c.options.maxRecursionDepth)
  }
}
