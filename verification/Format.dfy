/** What the bytes of an input mean under a plan, without a reader: where a value of a type lies, and
    how the members of a list follow one another. Numbers are positional sums, sizes are the
    mathematical values of their expressions, a branch is the one whose condition or tag holds.

    The decoder finds exactly this: it returns a value and an end exactly when the value lies in the
    input up to that end (`FormatComplete.DecodesWhatLies`), so it fails exactly when nothing lies there. */
module Format {
  import opened Outcome
  import opened Bytes
  import opened Expr
  import opened Plan
  import opened Decode

  // ----- numbers, sizes and choices -----

  /** The number that the bytes write in a positional system of base 256. */
  function Digits(b: seq<byte>, order: Order): nat {
    if b == [] then 0
    else
      var n := |b| - 1;
      if order == Big then 256 * Digits(b[..n], order) + b[n] else Digits(b[..n], order) + Pow2(8 * n) * b[n]
  }

  /** An integer in the bytes from `at` to `to`; a signed one as two's complement. */
  predicate IntLies(d: seq<byte>, limit: nat, it: IntType, at: Cursor, to: Cursor, v: Value) {
    var n := it.width.Count();
    && at.pos + n <= limit <= |d| && to == Cursor(at.pos + n, at.order) && v.Num?
    && (var u := Digits(d[at.pos..at.pos + n], at.order);
        if it.signed then v.s.I? && v.s.i == (if u < Pow2(8 * n - 1) then u else u - Pow2(8 * n))
        else v.s.U? && v.s.u == u)
  }

  /** The expression is an integer of the mathematical value `n`. */
  predicate Amounts(f: FloatUnit, e: Expr, env: Env, n: nat) {
    var v := Eval(f, e, env);
    v.Ok? && v.value.IsInteger() && v.value.Int() == n
  }

  predicate IsSize(c: Context, known: Option<u64>, e: Expr, env: Env, n: nat) {
    if known.Some? then n == known.value else Amounts(c.fp, e, env, n)
  }

  predicate Satisfies(a: Assertion, v: Value) {
    && (a.AssertInteger? ==> v.Num? && v.s.IsInteger() && v.s.Int() == a.n)
    && (a.AssertText? ==> v in {Text(a.text), Blob(a.text)})
  }

  /** The tag of no case before `i` is the discriminator. */
  predicate NoneIs(f: FloatUnit, cases: seq<Case>, i: nat, tag: Scalar) {
    i <= |cases| && forall j :: 0 <= j < i ==> !SameNumber(f, cases[j].tag, tag)
  }

  /** The size properties of a struct inside it. */
  predicate Sized(s: Struct, env: Env, inner: Env) {
    && inner.Keys == env.Keys + {MIN_SIZE_IN_BYTES} + (if s.size.Some? then {SIZE_IN_BYTES} else {})
                     + (if s.maxSize.Some? then {MAX_SIZE_IN_BYTES} else {})
    && forall x :: x in inner ==>
         inner[x] == if x == MIN_SIZE_IN_BYTES then U(s.minSize)
                     else if x == SIZE_IN_BYTES && s.size.Some? then U(s.size.value)
                     else if x == MAX_SIZE_IN_BYTES && s.maxSize.Some? then U(s.maxSize.value)
                     else env[x]
  }

  predicate Required(f: FloatUnit, reqs: seq<Expr>, env: Env) {
    forall e :: e in reqs ==> Eval(f, e, env) == Ok(B(true))
  }

  // ----- bytes and bits -----

  predicate TextLies(c: Context, d: seq<byte>, limit: nat, t: Type, bound: Option<u64>, env: Env, at: Cursor, to: Cursor, v: Value) {
    && at.pos <= to.pos <= limit <= |d| && to.order == at.order
    && (var n := to.pos - at.pos;
        n <= c.options.maxAllocationBytes &&
        if t.dims == [] then bound.Some? && n == bound.value
        else if t.dims[0].Remaining? then to.pos == limit
        else Amounts(c.fp, t.dims[0].e, env, n))
    && v == if t.base.BytesBase? then Blob(d[at.pos..to.pos]) else Text(d[at.pos..to.pos])
  }

  /** The terminator stands at `p` and ends within the limit. */
  predicate EndsAt(d: seq<byte>, limit: nat, t: seq<byte>, p: nat) {
    p + |t| <= limit <= |d| && d[p..p + |t|] == t
  }

  predicate TerminatedLies(d: seq<byte>, limit: nat, t: seq<byte>, max: nat, at: Cursor, to: Cursor, v: Value) {
    && at.pos + |t| <= to.pos <= limit <= |d| && to.order == at.order
    && (var end := to.pos - |t|;
        && end - at.pos <= max && EndsAt(d, limit, t, end)
        && (forall p :: at.pos <= p < end ==> !EndsAt(d, limit, t, p))
        && v == Blob(d[at.pos..end]))
  }

  /** Bits fields from the most significant bit of a container on, of which `top` bits are left. */
  ghost predicate BitsLie(fs: seq<BitsField>, container: nat, top: int, env: Env, after: Env, fields: Fields)
    decreases |fs|
  {
    if fs == [] then after == env && fields == map[]
    else
      var f := fs[0];
      f.bits <= top && f.bits <= 64 &&
      var v := BitsFrom(container, top - f.bits, f.bits);
      && Satisfies(f.assertion, Num(U(v)))
      && exists rest: Fields :: BitsLie(fs[1..], container, top - f.bits, env[f.symbol := U(v)], after, rest)
           && fields == map[f.name := Num(U(v))] + rest
  }

  /** The bits of a number from `low` on. */
  function BitsFrom(n: nat, low: nat, width: nat): (v: u64)
    requires width <= 64
  {
    WidthFits(width);
    (n / Pow2(low)) % Pow2(width)
  }

  ghost predicate GroupLies(d: seq<byte>, limit: nat, g: BitsGroup, env: Env, at: Cursor, to: Cursor, after: Env, fields: Fields) {
    var n := StorageBytes(g);
    && at.pos + n <= limit <= |d| && to == Cursor(at.pos + n, g[|g| - 1].order)
    && BitsLie(g, Digits(d[at.pos..at.pos + n], at.order), 8 * n, env, after, fields)
  }

  // ----- types -----

  ghost predicate BaseLies(c: Context, d: seq<byte>, limit: nat, base: Base, env: Env, at: Cursor, to: Cursor, v: Value, depth: nat)
    decreases depth, 0, 0, 0
  {
    match base
    case Primitive(it) => IntLies(d, limit, it, at, to, v)
    case Named(id) =>
      if id in c.plan.structs then depth > 0 && v.Obj? && StructLies(c, d, limit, c.plan.structs[id], env, at, to, v.fields, depth - 1)
      else id in c.plan.enums && IntLies(d, limit, c.plan.enums[id], at, to, v)
    case _ => false
  }

  ghost predicate StructLies(c: Context, d: seq<byte>, limit: nat, s: Struct, env: Env, at: Cursor, to: Cursor, fields: Fields, depth: nat)
    decreases depth, 2
  {
    exists inner: Env, after: Env ::
      && Sized(s, env, inner) && MembersLie(c, d, limit, s.members, inner, Cursor(at.pos, s.order), to, after, fields, depth)
      && Required(c.fp, s.requirements, after)
  }

  /** As many items as the first extent says, each of the remaining extents. */
  ghost predicate DimsLie(c: Context, d: seq<byte>, limit: nat, base: Base, dims: seq<Dim>, env: Env, at: Cursor, to: Cursor, v: Value, depth: nat)
    decreases depth, 0, 2 * |dims| + 1, 0
  {
    if dims == [] then BaseLies(c, d, limit, base, env, at, to, v, depth)
    else
      && v.Arr? && Amount(c, dims, env, |v.items|)
      && ElemsLie(c, d, limit, base, dims[1..], env, at, to, v.items, depth)
  }

  /** The extents are numbers within the limits of the options, and the first one is `n`. */
  ghost predicate Amount(c: Context, dims: seq<Dim>, env: Env, n: nat)
    requires dims != []
  {
    exists ns: seq<u64> :: |ns| == |dims| && ns[0] == n && AreExtents(c.fp, dims, env, ns) && Allowed(c.options, ns)
  }

  predicate AreExtents(f: FloatUnit, dims: seq<Dim>, env: Env, ns: seq<u64>)
    requires |ns| == |dims|
  {
    forall i :: 0 <= i < |dims| ==> !dims[i].Remaining? && Amounts(f, dims[i].e, env, ns[i])
  }

  /** Each extent and each product of the outermost ones is within the element limit, and the number of
      all items within the limit on values. */
  predicate Allowed(o: Options, ns: seq<u64>) {
    && (forall i :: 0 <= i < |ns| ==> ns[i] <= o.maxArrayElements && Product(ns[..i + 1]) <= o.maxArrayElements)
    && Product(ns) <= o.maxArrayValues
  }

  ghost predicate ElemsLie(c: Context, d: seq<byte>, limit: nat, base: Base, dims: seq<Dim>, env: Env, at: Cursor, to: Cursor, vs: seq<Value>, depth: nat)
    decreases depth, 0, 2 * |dims| + 2, |vs|
  {
    if vs == [] then to == at
    else exists mid: Cursor :: DimsLie(c, d, limit, base, dims, env, at, mid, vs[0], depth) && ElemsLie(c, d, limit, base, dims, env, mid, to, vs[1..], depth)
  }

  /** Elements, none of which starts where the terminator stands, and the terminator. They end by
      `last`, and each moves on. */
  ghost predicate SeqLies(c: Context, d: seq<byte>, limit: nat, base: Base, t: seq<byte>, last: nat, env: Env, at: Cursor, to: Cursor, vs: seq<Value>, depth: nat)
    decreases depth, 0, 1, |vs|
  {
    if vs == [] then EndsAt(d, limit, t, at.pos) && to == Cursor(at.pos + |t|, at.order)
    else
      && !EndsAt(d, limit, t, at.pos)
      && exists mid: Cursor ::
           && BaseLies(c, d, limit, base, env, at, mid, vs[0], depth) && at.pos < mid.pos <= last
           && SeqLies(c, d, limit, base, t, last, env, mid, to, vs[1..], depth)
  }

  /** The probe for a terminator goes back to a snapshot, which the reader refuses inside the limit of a
      block: elements up to a terminator lie only where the limit is the end of the input. */
  ghost predicate TypeLies(c: Context, d: seq<byte>, limit: nat, t: Type, bound: Option<u64>, env: Env, at: Cursor, to: Cursor, v: Value, depth: nat)
    decreases depth, 0, 2 * |t.dims| + 3, 0
  {
    if t.terminator != [] then
      t.maxPayload.Some? && t.maxPayload.value + |t.terminator| <= U64_MAX &&
      (var max := t.maxPayload.value;
       if t.base.BytesBase? && t.dims == [] then TerminatedLies(d, limit, t.terminator, max, at, to, v)
       else
         && |t.dims| == 1 && t.dims[0].Remaining? && v.Arr? && at.pos <= limit == |d|
         && SeqLies(c, d, if at.pos + max + |t.terminator| <= limit then at.pos + max + |t.terminator| else limit, t.base, t.terminator, at.pos + max, env, at, to, v.items, depth))
    else if t.base.BytesBase? || t.base.StringBase? then TextLies(c, d, limit, t, bound, env, at, to, v)
    else DimsLie(c, d, limit, t.base, t.dims, env, at, to, v, depth)
  }

  // ----- members -----

  ghost predicate BranchLies(c: Context, d: seq<byte>, limit: nat, b: Branch, env: Env, at: Cursor, to: Cursor, after: Env, fields: Fields, depth: nat)
    decreases depth, 1, b, 0
  {
    match b
    case Typed(t) => after == env && exists v: Value :: TypeLies(c, d, limit, t, None, env, at, to, v, depth) && fields == map["value" := v]
    case Listed(members) => MembersLie(c, d, limit, members, env, at, to, after, fields, depth)
  }

  /** A member between two cursors, with the environment after it and the entries it gives. */
  ghost predicate MemberLies(c: Context, d: seq<byte>, limit: nat, op: Op, env: Env, at: Cursor, to: Cursor, after: Env, fields: Fields, depth: nat)
    decreases depth, 1, op, 1
  {
    match op
    case Field(symbol, name, ty, order, known, assertion) =>
      exists v: Value ::
        && TypeLies(c, d, limit, ty, known, env, Cursor(at.pos, order), to, v, depth) && Satisfies(assertion, v)
        && fields == map[name := v] && after == env[symbol := if v.Num? then v.s else I(0)]
    case Virtual(symbol, name, e) =>
      exists s: Scalar :: Eval(c.fp, e, env) == Ok(s) && to == at && fields == map[name := Num(s)] && after == env[symbol := s]
    case Alias(symbol, name, target, _) =>
      target in env && to == at && fields == map[name := Num(env[target])] && after == env[symbol := env[target]]
    case Bits(group) => GroupLies(d, limit, group, env, at, to, after, fields)
    case Align(e, known) =>
      && after == env && fields == map[] && to.order == at.order
      && exists a: nat :: IsSize(c, known, e, env, a) && a > 0 && to.pos % a == 0 && at.pos <= to.pos < at.pos + a && to.pos <= limit
    case At(e, known, members) =>
      exists off: u64, end: Cursor ::
        && at.pos <= U64_MAX && IsSize(c, known, e, env[NEXT := U(at.pos)], off) && off <= limit
        && MembersLie(c, d, limit, members, env, Cursor(off, at.order), end, after, fields, depth)
        && to == Cursor(at.pos, end.order)
    case Block(e, known, members) =>
      exists n: u64, end: Cursor ::
        && IsSize(c, known, e, env, n) && end.pos <= at.pos + n <= limit
        && MembersLie(c, d, at.pos + n, members, env, at, end, after, fields, depth)
        && to == Cursor(at.pos + n, end.order)
    case Conditional(e, thenMembers, elseMembers) =>
      || (Eval(c.fp, e, env) == Ok(B(true)) && MembersLie(c, d, limit, thenMembers, env, at, to, after, fields, depth))
      || (Eval(c.fp, e, env) == Ok(B(false)) && MembersLie(c, d, limit, elseMembers, env, at, to, after, fields, depth))
    case Variant(name, e, cases, default) =>
      exists tag: Scalar, inner: Fields ::
        && Eval(c.fp, e, env) == Ok(tag) && fields == map[name := Obj(inner)]
        && ((exists i :: 0 <= i < |cases| && NoneIs(c.fp, cases, i, tag) && SameNumber(c.fp, cases[i].tag, tag)
               && BranchLies(c, d, limit, cases[i].body, env, at, to, after, inner, depth))
            || (NoneIs(c.fp, cases, |cases|, tag) && default.Some? && BranchLies(c, d, limit, default.value, env, at, to, after, inner, depth)))
  }

  /** Members one after the other. A later entry takes the place of an earlier one of its name. */
  ghost predicate MembersLie(c: Context, d: seq<byte>, limit: nat, ops: seq<Op>, env: Env, at: Cursor, to: Cursor, after: Env, fields: Fields, depth: nat)
    decreases depth, 1, ops, 0
  {
    if ops == [] then to == at && after == env && fields == map[]
    else exists mid: Cursor, between: Env, first: Fields, rest: Fields ::
      && MemberLies(c, d, limit, ops[0], env, at, mid, between, first, depth)
      && MembersLie(c, d, limit, ops[1..], between, mid, to, after, rest, depth)
      && fields == first + rest
  }

  /** A value of the struct `id` at the start of the input, with the given parameters. */
  ghost predicate Lies(c: Context, d: seq<byte>, id: SymbolId, parameters: Env, to: Cursor, v: Value) {
    && id in c.plan.structs && Given(c.plan, parameters)
    && BaseLies(c, d, |d|, Named(id), parameters + c.plan.values, Cursor(0, Little), to, v, c.options.maxRecursionDepth)
  }

  /** Exactly the declared parameters, each of its type. */
  predicate Given(m: Module, parameters: Env) {
    && parameters.Keys == m.parameters.Keys
    && forall p :: p in m.parameters ==>
         match m.parameters[p]
         case FloatParameter => parameters[p].D?
         case IntParameter(it) =>
           var n := 8 * it.width.Count();
           if it.signed then parameters[p].I? && parameters[p].i + Pow2(n - 1) >= 0 && parameters[p].i < Pow2(n - 1)
           else parameters[p].U? && parameters[p].u < Pow2(n)
  }
}
