/** What the decoder computes, as functions of the input bytes.

    `Source.strict` adds tests that the C++ decoder does not make: the skipped bits and bytes
    are zero, and the encoder will see the same names, byte order and lengths again. With
    `strict` off the functions describe the decoder as it is. */
module Decode {
  import opened Outcome
  import opened Bytes
  import opened Expr
  import opened Plan
  import opened Terminator

  datatype Source = Source(c: Context, d: seq<byte>, strict: bool)

  /** Position and byte order of the reader. */
  datatype Cursor = Cursor(pos: nat, order: Order)

  /** The active limit and the limits that enclose it. */
  datatype Window = Whole(limit: nat) | Within(limit: nat, outside: Window)

  datatype Item = Item(at: Cursor, v: Value)
  datatype Items = Items(at: Cursor, vs: seq<Value>)
  datatype Group = Group(at: Cursor, env: Env, fields: Fields)

  function Skip(at: Cursor, n: nat): Cursor {
    Cursor(at.pos + n, at.order)
  }

  function Take(x: Source, w: Window, at: Cursor, n: nat): (r: Result<seq<byte>>)
    ensures r.Ok? ==> |r.value| == n
  {
    if at.pos + n <= w.limit <= |x.d| then Ok(x.d[at.pos..at.pos + n]) else Fail(BeyondLimit)
  }

  predicate AllZero(d: seq<byte>, from: nat, to: nat) {
    from <= to <= |d| && forall i :: from <= i < to ==> d[i] == 0
  }

  /** Two's complement of `n` bytes. */
  function SignExtend(u: nat, n: nat): (i: i64)
    requires 1 <= n <= 8 && u < Pow2(8 * n)
    ensures i == if u < Pow2(8 * n - 1) then u else u - Pow2(8 * n)
  {
    Pow2At64();
    Pow2Monotone(8 * n, 64);
    assert Pow2(8 * n) == 2 * Pow2(8 * n - 1);
    if u < Pow2(8 * n - 1) then u else u - Pow2(8 * n)
  }

  function ReadInt(x: Source, w: Window, t: IntType, at: Cursor): (r: Result<Item>)
    ensures r.Ok? ==> r.value.at == Skip(at, t.width.Count()) && r.value.at.pos <= w.limit
  {
    var n := t.width.Count();
    var b :- Take(x, w, at, n);
    UnpackBound(b, at.order);
    var u := Unpack(b, at.order);
    Ok(Item(Skip(at, n), Num(if t.signed then I(SignExtend(u, n)) else U(u))))
  }

  /** The number of bytes of a `bytes` or `string` value. */
  function TextLength(x: Source, w: Window, dims: seq<Dim>, bound: Option<u64>, env: Env, at: Cursor): (r: Result<nat>) {
    var n :- (if dims != [] && dims[0].Remaining? then
                if at.pos <= w.limit then Ok(w.limit - at.pos) else Fail(BeyondLimit)
              else if dims != [] then
                var n :- EvalSize(x.c.fp, dims[0].e, env);
                Ok(n as nat)
              else if bound.Some? then Ok(bound.value)
              else Fail(InvalidType));
    if n > x.c.options.maxAllocationBytes then Fail(LimitExceeded) else Ok(n)
  }

  function MakeText(base: Base, b: seq<byte>): Value {
    if base.BytesBase? then Blob(b) else Text(b)
  }

  function ReadText(x: Source, w: Window, t: Type, bound: Option<u64>, env: Env, at: Cursor): (r: Result<Item>)
    ensures r.Ok? && at.pos <= w.limit ==> at.pos <= r.value.at.pos <= w.limit
  {
    var n :- TextLength(x, w, t.dims, bound, env, at);
    var b :- Take(x, w, at, n);
    Ok(Item(Skip(at, n), MakeText(t.base, b)))
  }

  function Min(a: nat, b: nat): nat {
    if a <= b then a else b
  }

  /** The bytes among which the terminator may end. */
  function ScanBytes(x: Source, w: Window, at: Cursor, t: seq<byte>, max: u64): seq<byte>
    requires at.pos <= w.limit <= |x.d|
  {
    x.d[at.pos..at.pos + Min(max + |t|, w.limit - at.pos)]
  }

  function ReadTerminatedBytes(x: Source, w: Window, t: seq<byte>, max: u64, at: Cursor): (r: Result<Item>)
    ensures r.Ok? && at.pos <= w.limit ==> at.pos <= r.value.at.pos <= w.limit
  {
    if !(at.pos <= w.limit <= |x.d|) then Fail(BeyondLimit)
    else
      var s := ScanBytes(x, w, at, t, max);
      match First(s, t)
      case None => Fail(NoTerminator)
      case Some(j) => Ok(Item(Skip(at, j + |t|), Blob(s[..j])))
  }

  // ----- bits -----

  /** `width` bits of a container that stand above its `below` lowest bits. */
  function BitsOf(container: nat, below: nat, width: nat): (v: nat)
    ensures width <= 64 ==> v <= U64_MAX
  {
    WidthFits(width);
    QuotientBound(container, Pow2(below));
    (container / Pow2(below)) % Pow2(width)
  }

  lemma WidthFits(width: nat)
    ensures width <= 64 ==> Pow2(width) <= TWO_64
  {
    if width <= 64 {
      Pow2Monotone(width, 64);
      Pow2At64();
    }
  }

  /** The container without its padding. */
  function Unpadded(raw: nat, padding: nat): nat {
    QuotientBound(raw, Pow2(padding));
    raw / Pow2(padding)
  }

  predicate PaddingIsZero(raw: nat, padding: nat) {
    raw % Pow2(padding) == 0
  }

  /** The fields of a bits group, most significant first, from the `rem` low bits of a container. */
  function ReadBitsFields(x: Source, fs: seq<BitsField>, container: nat, env: Env): (r: Result<(Env, Fields)>)
    requires TotalBits(fs) <= 64
  {
    if fs == [] then Ok((env, map[]))
    else
      var f := fs[0];
      var v := BitsOf(container, TotalBits(fs[1..]), f.bits);
      if !Matches(f.assertion, Num(U(v))) then Fail(AssertionMismatch)
      else
        var rest :- ReadBitsFields(x, fs[1..], container, env[f.symbol := U(v)]);
        if x.strict && f.name in rest.1 then Fail(NotStrict)
        else Ok((rest.0, map[f.name := Num(U(v))] + rest.1))
  }

  function LastOrder(g: seq<BitsField>): Order
    requires g != []
  {
    g[|g| - 1].order
  }

  /** The container is read in the order in force; the order of the fields comes after it. */
  function ReadBits(x: Source, w: Window, g: BitsGroup, env: Env, at: Cursor): (r: Result<Group>) {
    var n := StorageBytes(g);
    var b :- Take(x, w, at, n);
    var raw := Unpack(b, at.order);
    if x.strict && !((n == 1 || at.order == g[0].order) && g[0].order == LastOrder(g) && PaddingIsZero(raw, PaddingBits(g)))
    then Fail(NotStrict)
    else
      var got :- ReadBitsFields(x, g, Unpadded(raw, PaddingBits(g)), env);
      Ok(Group(Cursor(at.pos + n, LastOrder(g)), got.0, got.1))
  }

  // ----- alignment -----

  function AlignUp(p: nat, a: nat): (q: nat)
    requires a > 0
    ensures p <= q < p + a && q % a == 0
  {
    assert p == a * (p / a) + p % a;
    assert a * (p / a + 1) == a * (p / a) + a;
    MultipleMod(p / a, a);
    MultipleMod(p / a + 1, a);
    if p % a == 0 then p else p + (a - p % a)
  }

  lemma MultipleMod(k: nat, a: nat)
    requires a > 0
    ensures (a * k) % a == 0
  {
    MulMonotone(a, 0, k);
    DivUnique(a * k, a, k, 0);
  }

  function SizeOf(c: Context, known: Option<u64>, e: Expr, env: Env): (r: Result<u64>) {
    if known.Some? then Ok(known.value) else EvalSize(c.fp, e, env)
  }

  function ReadAlign(x: Source, w: Window, e: Expr, known: Option<u64>, env: Env, at: Cursor): (r: Result<Group>) {
    var a :- SizeOf(x.c, known, e, env);
    if a == 0 then Fail(ZeroAlignment)
    else
      var p := AlignUp(at.pos, a);
      if p > w.limit then Fail(BeyondLimit)
      else if x.strict && !AllZero(x.d, at.pos, p) then Fail(NotStrict)
      else Ok(Group(Cursor(p, at.order), env, map[]))
  }

  function CheckRequirements(f: FloatUnit, reqs: seq<Expr>, env: Env): (r: Result<bool>) {
    if reqs == [] then Ok(true)
    else
      var v :- Eval(f, reqs[0], env);
      if v != B(true) then Fail(RequirementFailed) else CheckRequirements(f, reqs[1..], env)
  }

  // ----- types -----

  function ReadBase(x: Source, w: Window, base: Base, env: Env, at: Cursor, depth: nat): (r: Result<Item>)
    ensures r.Ok? && at.pos <= w.limit ==> at.pos <= r.value.at.pos <= w.limit
    decreases depth, 0, 0, 0
  {
    match base
    case Primitive(it) => ReadInt(x, w, it, at)
    case Named(id) =>
      if id in x.c.plan.structs then
        if depth == 0 then Fail(TooDeep) else ReadStruct(x, w, x.c.plan.structs[id], env, at, depth - 1)
      else if id in x.c.plan.enums then ReadInt(x, w, x.c.plan.enums[id], at)
      else Fail(InvalidType)
    case _ => Fail(InvalidType)
  }

  function ReadStruct(x: Source, w: Window, s: Struct, env: Env, at: Cursor, depth: nat): (r: Result<Item>)
    ensures r.Ok? && at.pos <= w.limit ==> at.pos <= r.value.at.pos <= w.limit
    decreases depth, 2
  {
    var g :- ReadMembers(x, w, s.members, WithSizes(s, env), Cursor(at.pos, s.order), depth);
    var _ :- CheckRequirements(x.c.fp, s.requirements, g.env);
    Ok(Item(g.at, Obj(g.fields)))
  }

  /** Nested arrays, outermost extent first. */
  function ReadDims(x: Source, w: Window, base: Base, dims: seq<Dim>, env: Env, at: Cursor, depth: nat): (r: Result<Item>)
    ensures r.Ok? && at.pos <= w.limit ==> at.pos <= r.value.at.pos <= w.limit
    decreases depth, 0, 2 * |dims| + 1, 0
  {
    if dims == [] then ReadBase(x, w, base, env, at, depth)
    else
      var ns :- ArrayExtents(x.c, dims, env);
      var got :- ReadElems(x, w, base, dims[1..], ns[0], env, at, depth);
      Ok(Item(got.at, Arr(got.vs)))
  }

  function ReadElems(x: Source, w: Window, base: Base, dims: seq<Dim>, n: nat, env: Env, at: Cursor, depth: nat): (r: Result<Items>)
    ensures r.Ok? && at.pos <= w.limit ==> at.pos <= r.value.at.pos <= w.limit
    decreases depth, 0, 2 * |dims| + 2, n
  {
    if n == 0 then Ok(Items(at, []))
    else
      var first :- ReadDims(x, w, base, dims, env, at, depth);
      var rest :- ReadElems(x, w, base, dims, n - 1, env, first.at, depth);
      Ok(Items(rest.at, [first.v] + rest.vs))
  }

  /** Elements until the terminator stands at an element boundary. `last` is the end of the
      largest payload. The probe restores a snapshot, which `Reader::restore` refuses unless the
      innermost enclosing limit is the whole input. An element of no bytes leaves the loop where
      it was: the C++ loop does not end, which is `NoProgress` here. */
  function ReadSeq(x: Source, w: Window, t: Type, last: nat, env: Env, at: Cursor, depth: nat): (r: Result<Items>)
    ensures r.Ok? && at.pos <= w.limit ==> at.pos <= r.value.at.pos <= w.limit
    decreases depth, 0, 1, if at.pos <= last then last - at.pos else 0
  {
    if !(at.pos <= w.limit <= |x.d|) then Fail(BeyondLimit)
    else if at.pos + |t.terminator| <= w.limit && w.Within? && w.outside.limit != |x.d| then Fail(BadSnapshot)
    else if at.pos + |t.terminator| <= w.limit && x.d[at.pos..at.pos + |t.terminator|] == t.terminator then
      Ok(Items(Skip(at, |t.terminator|), []))
    else if at.pos >= last then Fail(NoTerminator)
    else
      var first :- ReadBase(x, w, t.base, env, at, depth);
      if first.at.pos > last then Fail(LimitExceeded)
      else if first.at.pos <= at.pos then Fail(NoProgress)
      else
        var rest :- ReadSeq(x, w, t, last, env, first.at, depth);
        Ok(Items(rest.at, [first.v] + rest.vs))
  }

  /** One turn of that loop: stop at the terminator, or read an element. */
  function SeqTurn(x: Source, w: Window, t: Type, last: nat, env: Env, at: Cursor, depth: nat): Result<Option<Item>> {
    if !(at.pos <= w.limit <= |x.d|) then Fail(BeyondLimit)
    else if at.pos + |t.terminator| <= w.limit && w.Within? && w.outside.limit != |x.d| then Fail(BadSnapshot)
    else if at.pos + |t.terminator| <= w.limit && x.d[at.pos..at.pos + |t.terminator|] == t.terminator then Ok(None)
    else if at.pos >= last then Fail(NoTerminator)
    else
      var first :- ReadBase(x, w, t.base, env, at, depth);
      if first.at.pos > last then Fail(LimitExceeded)
      else if first.at.pos <= at.pos then Fail(NoProgress)
      else Ok(Some(first))
  }

  /** The limits inside an element form: its largest extent, or what is left. */
  function ScanWindow(w: Window, t: Type, pos: nat): (inner: Window)
    requires t.maxPayload.Some? && pos <= w.limit
    ensures inner.Within? && inner.outside == w && pos <= inner.limit <= w.limit
  {
    Within(pos + Min(t.maxPayload.value + |t.terminator|, w.limit - pos), w)
  }

  /** The element form: the scan is bounded by a limit of its own. */
  function ReadSequenceForm(x: Source, w: Window, t: Type, env: Env, at: Cursor, depth: nat): (r: Result<Item>)
    requires t.maxPayload.Some?
    ensures r.Ok? && at.pos <= w.limit ==> at.pos <= r.value.at.pos <= w.limit
    decreases depth, 0, 2, 0
  {
    if at.pos > w.limit then Fail(BeyondLimit)
    else
      var got :- ReadSeq(x, ScanWindow(w, t, at.pos), t, at.pos + t.maxPayload.value, env, at, depth);
      Ok(Item(got.at, Arr(got.vs)))
  }

  function ReadTerminated(x: Source, w: Window, t: Type, env: Env, at: Cursor, depth: nat): (r: Result<Item>)
    ensures r.Ok? && at.pos <= w.limit ==> at.pos <= r.value.at.pos <= w.limit
    decreases depth, 0, 2, 1
  {
    if t.maxPayload.None? || !(t.IsByteForm() || t.IsSequenceForm()) then Fail(InvalidType)
    else if t.maxPayload.value + |t.terminator| > U64_MAX then Fail(LimitExceeded)
    else if t.IsByteForm() then ReadTerminatedBytes(x, w, t.terminator, t.maxPayload.value, at)
    else ReadSequenceForm(x, w, t, env, at, depth)
  }

  function ReadType(x: Source, w: Window, t: Type, bound: Option<u64>, env: Env, at: Cursor, depth: nat): (r: Result<Item>)
    ensures r.Ok? && at.pos <= w.limit ==> at.pos <= r.value.at.pos <= w.limit
    decreases depth, 0, 2 * |t.dims| + 3, 0
  {
    if t.IsTerminated() then ReadTerminated(x, w, t, env, at, depth)
    else if t.base.IsText() then ReadText(x, w, t, bound, env, at)
    else ReadDims(x, w, t.base, t.dims, env, at, depth)
  }

  // ----- operations -----

  function ReadField(x: Source, w: Window, op: Op, env: Env, at: Cursor, depth: nat): (r: Result<Group>)
    requires op.Field?
    ensures r.Ok? && at.pos <= w.limit ==> at.pos <= r.value.at.pos <= w.limit
    decreases depth, 1, op, 0
  {
    var got :- ReadType(x, w, op.ty, op.staticLength, env, Cursor(at.pos, op.order), depth);
    if !Matches(op.assertion, got.v) then Fail(AssertionMismatch)
    else if x.strict && op.staticLength.Some? && got.at.pos != at.pos + op.staticLength.value then Fail(NotStrict)
    else Ok(Group(got.at, env[op.symbol := Runtime(got.v)], map[op.name := got.v]))
  }

  function ReadAt(x: Source, w: Window, op: Op, env: Env, at: Cursor, depth: nat): (r: Result<Group>)
    requires op.At?
    ensures r.Ok? && at.pos <= w.limit ==> at.pos <= r.value.at.pos <= w.limit
    decreases depth, 1, op, 0
  {
    if x.strict then Fail(NotStrict)
    else if at.pos > U64_MAX then Fail(BeyondLimit)
    else
      var off :- SizeOf(x.c, op.staticOffset, op.offset, env[NEXT := U(at.pos)]);
      if off > w.limit then Fail(BeyondLimit)
      else
        var g :- ReadMembers(x, w, op.members, env, Cursor(off, at.order), depth);
        Ok(Group(Cursor(at.pos, g.at.order), g.env, g.fields))
  }

  function ReadBlock(x: Source, w: Window, op: Op, env: Env, at: Cursor, depth: nat): (r: Result<Group>)
    requires op.Block?
    ensures r.Ok? && at.pos <= w.limit ==> at.pos <= r.value.at.pos <= w.limit
    decreases depth, 1, op, 0
  {
    var n :- SizeOf(x.c, op.staticSize, op.size, env);
    var end := at.pos + n;
    if end > w.limit then Fail(BeyondLimit)
    else
      var g :- ReadMembers(x, Within(end, w), op.members, env, at, depth);
      if g.at.pos > end then Fail(BeyondLimit)
      else if x.strict && !(AllZero(x.d, g.at.pos, end) && (x.c.options.allowTrailingBlockBytes || g.at.pos == end))
      then Fail(NotStrict)
      else Ok(Group(Cursor(end, g.at.order), g.env, g.fields))
  }

  function ReadVariant(x: Source, w: Window, op: Op, env: Env, at: Cursor, depth: nat): (r: Result<Group>)
    requires op.Variant?
    ensures r.Ok? && at.pos <= w.limit ==> at.pos <= r.value.at.pos <= w.limit
    decreases depth, 1, op, 0
  {
    var tag :- Eval(x.c.fp, op.discriminator, env);
    match ChooseCase(x.c.fp, op.cases, tag)
    case Some(i) =>
      var g :- ReadBranch(x, w, op.cases[i].body, env, at, depth);
      Ok(Group(g.at, g.env, map[op.name := Obj(g.fields)]))
    case None =>
      if op.default.None? then Fail(NoVariantCase)
      else
        var g :- ReadBranch(x, w, op.default.value, env, at, depth);
        Ok(Group(g.at, g.env, map[op.name := Obj(g.fields)]))
  }

  function ReadBranch(x: Source, w: Window, b: Branch, env: Env, at: Cursor, depth: nat): (r: Result<Group>)
    ensures r.Ok? && at.pos <= w.limit ==> at.pos <= r.value.at.pos <= w.limit
    decreases depth, 1, b, 0
  {
    match b
    case Typed(t) =>
      var got :- ReadType(x, w, t, None, env, at, depth);
      Ok(Group(got.at, env, map["value" := got.v]))
    case Listed(members) => ReadMembers(x, w, members, env, at, depth)
  }

  function ReadMember(x: Source, w: Window, op: Op, env: Env, at: Cursor, depth: nat): (r: Result<Group>)
    ensures r.Ok? && at.pos <= w.limit ==> at.pos <= r.value.at.pos <= w.limit
    decreases depth, 1, op, 1
  {
    match op
    case Field(_, _, _, _, _, _) => ReadField(x, w, op, env, at, depth)
    case Virtual(symbol, name, e) =>
      var v :- Eval(x.c.fp, e, env);
      Ok(Group(at, env[symbol := v], map[name := Num(v)]))
    case Alias(symbol, name, target, _) =>
      if x.strict then Fail(NotStrict)
      else if target !in env then Fail(AliasUnavailable)
      else Ok(Group(at, env[symbol := env[target]], map[name := Num(env[target])]))
    case Bits(group) => ReadBits(x, w, group, env, at)
    case Align(e, known) => ReadAlign(x, w, e, known, env, at)
    case At(_, _, _) => ReadAt(x, w, op, env, at, depth)
    case Block(_, _, _) => ReadBlock(x, w, op, env, at, depth)
    case Conditional(condition, thenMembers, elseMembers) =>
      var b :- EvalBool(x.c.fp, condition, env);
      ReadMembers(x, w, if b then thenMembers else elseMembers, env, at, depth)
    case Variant(_, _, _, _) => ReadVariant(x, w, op, env, at, depth)
  }

  function ReadMembers(x: Source, w: Window, ops: seq<Op>, env: Env, at: Cursor, depth: nat): (r: Result<Group>)
    ensures r.Ok? && at.pos <= w.limit ==> at.pos <= r.value.at.pos <= w.limit
    decreases depth, 1, ops, 0
  {
    if ops == [] then Ok(Group(at, env, map[]))
    else
      var g :- ReadMember(x, w, ops[0], env, at, depth);
      var h :- ReadMembers(x, w, ops[1..], g.env, g.at, depth);
      if x.strict && !(g.fields.Keys !! h.fields.Keys) then Fail(NotStrict)
      else Ok(Group(h.at, h.env, g.fields + h.fields))
  }

  /** What a block can come to: it is refused, or it ends as its members do. */
  lemma BlockOutcome(x: Source, w: Window, op: Op, env: Env, at: Cursor, depth: nat)
    requires op.Block?
    ensures var n := SizeOf(x.c, op.staticSize, op.size, env);
            var r := ReadBlock(x, w, op, env, at, depth);
            if n.Fail? then r == Fail(n.error)
            else
              var g := ReadMembers(x, Within(at.pos + n.value, w), op.members, env, at, depth);
              || r == Fail(BeyondLimit) || r == Fail(NotStrict)
              || (if g.Fail? then r == Fail(g.error) else r.Ok? && r.value.env == g.value.env)
  {
    hide ReadMembers, AllZero, Eval, EvalSize;
  }

  /** A whole decode of the struct `id`. */
  function DecodeStruct(x: Source, id: SymbolId, parameters: Env): (r: Result<Item>)
    ensures r.Ok? ==> r.value.at.pos <= |x.d|
  {
    if id !in x.c.plan.structs then Fail(InvalidType)
    else
      var env :- InitialEnv(x.c.plan, parameters);
      ReadBase(x, Whole(|x.d|), Named(id), env, Cursor(0, Little), x.c.options.maxRecursionDepth)
  }
}
