/** The other direction: of an input in which a value lies the decoder returns that value. So a value
    that lies in an input is the only one. */
module FormatComplete {
  import opened Outcome
  import opened Bytes
  import opened Expr
  import opened Plan
  import opened Terminator
  import opened Decode
  import opened Format
  import opened FormatRead
  import Checks

  // ----- scalars -----

  lemma IntIsFound(x: Source, w: Window, it: IntType, at: Cursor, to: Cursor, v: Value)
    requires IntLies(x.d, w.limit, it, at, to, v)
    ensures ReadInt(x, w, it, at) == Ok(Item(to, v))
  {
    hide Pow2, Digits, Unpack;
    var b := x.d[at.pos..at.pos + it.width.Count()];
    UnpackBound(b, at.order);
    UnpackIsDigits(b, at.order);
  }

  lemma AmountIsSize(f: FloatUnit, e: Expr, env: Env, n: nat)
    requires Amounts(f, e, env, n)
    ensures EvalSize(f, e, env).Ok? && EvalSize(f, e, env).value == n
  {
  }

  lemma SizeIsFound(c: Context, known: Option<u64>, e: Expr, env: Env, n: nat)
    requires IsSize(c, known, e, env, n)
    ensures SizeOf(c, known, e, env).Ok? && SizeOf(c, known, e, env).value == n
  {
    if known.None? {
      AmountIsSize(c.fp, e, env, n);
    }
  }

  lemma TextIsFound(x: Source, w: Window, t: Type, bound: Option<u64>, env: Env, at: Cursor, to: Cursor, v: Value)
    requires t.base.IsText() && TextLies(x.c, x.d, w.limit, t, bound, env, at, to, v)
    ensures ReadText(x, w, t, bound, env, at) == Ok(Item(to, v))
  {
    if t.dims != [] && !t.dims[0].Remaining? {
      AmountIsSize(x.c.fp, t.dims[0].e, env, to.pos - at.pos);
    }
  }

  lemma PayloadIsFound(x: Source, w: Window, t: seq<byte>, max: u64, at: Cursor, to: Cursor, v: Value)
    requires t != [] && TerminatedLies(x.d, w.limit, t, max, at, to, v)
    ensures ReadTerminatedBytes(x, w, t, max, at) == Ok(Item(to, v))
  {
    hide EndsAt, OccursAt;
    var n := Min(max + |t|, w.limit - at.pos);
    var s := x.d[at.pos..at.pos + n];
    assert s == ScanBytes(x, w, at, t, max);
    var k := to.pos - |t| - at.pos;
    ScanSees(x.d, w.limit, at.pos, n, t, k);
    assert OccursAt(s, t, k);
    var first := First(s, t);
    FoundWithin(s, t);
    var j := first.value;
    ScanSees(x.d, w.limit, at.pos, n, t, j);
    assert EndsAt(x.d, w.limit, t, at.pos + j);
    assert j == k;
    SliceOfSlice(x.d, at.pos, n, 0, k);
  }

  // ----- bits and alignment -----

  lemma {:induction false} BitsAreFound(x: Source, fs: seq<BitsField>, raw: nat, padding: nat, env: Env, after: Env, fields: Fields)
    requires !x.strict && TotalBits(fs) <= 64 && BitsLie(fs, raw, padding + TotalBits(fs), env, after, fields)
    ensures ReadBitsFields(x, fs, Unpadded(raw, padding), env) == Ok((after, fields))
  {
    hide BitsFrom, BitsOf, Unpadded, Pow2;
    if fs != [] {
      var f := fs[0];
      BitsOfStorage(raw, padding, TotalBits(fs[1..]), f.bits);
      var v := BitsFrom(raw, padding + TotalBits(fs[1..]), f.bits);
      var rest: Fields :| BitsLie(fs[1..], raw, padding + TotalBits(fs[1..]), env[f.symbol := U(v)], after, rest)
        && fields == map[f.name := Num(U(v))] + rest;
      BitsAreFound(x, fs[1..], raw, padding, env[f.symbol := U(v)], after, rest);
      assert Matches(f.assertion, Num(U(v)));
    }
  }

  lemma GroupIsFound(x: Source, w: Window, g: BitsGroup, env: Env, at: Cursor, to: Cursor, after: Env, fields: Fields)
    requires !x.strict && GroupLies(x.d, w.limit, g, env, at, to, after, fields)
    ensures ReadBits(x, w, g, env, at) == Ok(Group(to, after, fields))
  {
    hide Digits, Unpack, ReadBitsFields, BitsLie, Unpadded, PaddingIsZero;
    var b := x.d[at.pos..at.pos + StorageBytes(g)];
    UnpackIsDigits(b, at.order);
    BitsAreFound(x, g, Unpack(b, at.order), PaddingBits(g), env, after, fields);
  }

  /** There is one multiple in every stretch of one alignment. */
  lemma OneMultiple(p: nat, q: nat, a: nat)
    requires a > 0 && q % a == 0 && p <= q < p + a
    ensures q == AlignUp(p, a)
  {
    hide AlignUp;
    var z := AlignUp(p, a);
    var i, j := q / a, z / a;
    assert q == a * i && z == a * j;
    assert a * (i + 1) == a * i + a && a * (j + 1) == a * j + a;
    if i < j {
      MulMonotone(a, i + 1, j);
    } else if j < i {
      MulMonotone(a, j + 1, i);
    }
  }

  // ----- types -----

  lemma ExtentsAreFound(c: Context, dims: seq<Dim>, env: Env, ns: seq<u64>)
    requires |ns| == |dims| && AreExtents(c.fp, dims, env, ns) && Allowed(c.options, ns)
    ensures ArrayExtents(c, dims, env) == Ok(ns)
  {
    hide ArrayExtents, EvalSize, Amounts, Checks.WithinLimit, Allowed, Product;
    AllowedIsWithin(c.options, ns);
    forall i | 0 <= i < |dims| ensures EvalSize(c.fp, dims[i].e, env) == Ok(ns[i]) {
      AmountIsSize(c.fp, dims[i].e, env, ns[i]);
    }
    Checks.ExtentsWhen(c, dims, env, ns);
  }

  lemma SizesAreFound(s: Struct, env: Env, inner: Env)
    requires Sized(s, env, inner)
    ensures inner == WithSizes(s, env)
  {
    SizesAreBound(s, env);
    var w := WithSizes(s, env);
    assert w.Keys == inner.Keys;
    forall x | x in inner ensures x in w && w[x] == inner[x] { }
  }

  lemma {:induction false} RequirementsPass(f: FloatUnit, reqs: seq<Expr>, env: Env)
    requires Required(f, reqs, env)
    ensures CheckRequirements(f, reqs, env) == Ok(true)
  {
    hide Eval;
    if reqs != [] {
      assert reqs[0] in reqs;
      RequirementsPass(f, reqs[1..], env);
    }
  }

  lemma {:induction false} BaseIsFound(x: Source, w: Window, base: Base, env: Env, at: Cursor, to: Cursor, v: Value, depth: nat)
    requires !x.strict && at.pos <= w.limit <= |x.d| && BaseLies(x.c, x.d, w.limit, base, env, at, to, v, depth)
    ensures ReadBase(x, w, base, env, at, depth) == Ok(Item(to, v))
    decreases depth, 0, 0, 0
  {
    hide ReadStruct, StructLies, ReadInt, IntLies;
    match base
    case Primitive(it) => IntIsFound(x, w, it, at, to, v);
    case Named(id) =>
      if id in x.c.plan.structs {
        StructIsFound(x, w, x.c.plan.structs[id], env, at, to, v, depth - 1);
      } else {
        IntIsFound(x, w, x.c.plan.enums[id], at, to, v);
      }
    case _ =>
  }

  lemma {:induction false} StructIsFound(x: Source, w: Window, s: Struct, env: Env, at: Cursor, to: Cursor, v: Value, depth: nat)
    requires !x.strict && at.pos <= w.limit <= |x.d| && v.Obj? && StructLies(x.c, x.d, w.limit, s, env, at, to, v.fields, depth)
    ensures ReadStruct(x, w, s, env, at, depth) == Ok(Item(to, v))
    decreases depth, 2
  {
    hide ReadMembers, MembersLie, WithSizes, Sized, Required, CheckRequirements;
    var inner: Env, after: Env :|
      && Sized(s, env, inner) && MembersLie(x.c, x.d, w.limit, s.members, inner, Cursor(at.pos, s.order), to, after, v.fields, depth)
      && Required(x.c.fp, s.requirements, after);
    SizesAreFound(s, env, inner);
    MembersAreFound(x, w, s.members, inner, Cursor(at.pos, s.order), to, after, v.fields, depth);
    RequirementsPass(x.c.fp, s.requirements, after);
  }

  lemma {:induction false} DimsAreFound(x: Source, w: Window, base: Base, dims: seq<Dim>, env: Env, at: Cursor, to: Cursor, v: Value, depth: nat)
    requires !x.strict && at.pos <= w.limit <= |x.d| && DimsLie(x.c, x.d, w.limit, base, dims, env, at, to, v, depth)
    ensures ReadDims(x, w, base, dims, env, at, depth) == Ok(Item(to, v))
    decreases depth, 0, 2 * |dims| + 1, 0
  {
    hide ReadBase, ReadElems, BaseLies, ElemsLie, AreExtents, Allowed, ArrayExtents;
    if dims == [] {
      BaseIsFound(x, w, base, env, at, to, v, depth);
    } else {
      var ns: seq<u64> :| |ns| == |dims| && ns[0] == |v.items| && AreExtents(x.c.fp, dims, env, ns) && Allowed(x.c.options, ns);
      ExtentsAreFound(x.c, dims, env, ns);
      ElemsAreFound(x, w, base, dims[1..], env, at, to, v.items, depth);
    }
  }

  lemma {:induction false} ElemsAreFound(x: Source, w: Window, base: Base, dims: seq<Dim>, env: Env, at: Cursor, to: Cursor, vs: seq<Value>, depth: nat)
    requires !x.strict && at.pos <= w.limit <= |x.d| && ElemsLie(x.c, x.d, w.limit, base, dims, env, at, to, vs, depth)
    ensures ReadElems(x, w, base, dims, |vs|, env, at, depth) == Ok(Items(to, vs))
    decreases depth, 0, 2 * |dims| + 2, |vs|
  {
    hide ReadDims, DimsLie;
    if vs != [] {
      var mid: Cursor :| DimsLie(x.c, x.d, w.limit, base, dims, env, at, mid, vs[0], depth)
        && ElemsLie(x.c, x.d, w.limit, base, dims, env, mid, to, vs[1..], depth);
      DimsAreFound(x, w, base, dims, env, at, mid, vs[0], depth);
      if ReadDims(x, w, base, dims, env, at, depth).Ok? {
        ElemsAreFound(x, w, base, dims, env, mid, to, vs[1..], depth);
        assert vs == [vs[0]] + vs[1..];
      }
    }
  }

  lemma TurnIsFound(x: Source, w: Window, t: Type, last: nat, env: Env, at: Cursor, depth: nat, first: Item, rest: Items)
    requires at.pos <= w.limit <= |x.d| && (w.Within? ==> w.outside.limit == |x.d|) && !EndsAt(x.d, w.limit, t.terminator, at.pos) && at.pos < first.at.pos <= last
    requires ReadBase(x, w, t.base, env, at, depth) == Ok(first) && ReadSeq(x, w, t, last, env, first.at, depth) == Ok(rest)
    ensures ReadSeq(x, w, t, last, env, at, depth) == Ok(Items(rest.at, [first.v] + rest.vs))
  {
    hide ReadBase;
  }

  lemma {:induction false} SeqIsFound(x: Source, w: Window, t: Type, last: nat, env: Env, at: Cursor, to: Cursor, vs: seq<Value>, depth: nat)
    requires !x.strict && at.pos <= w.limit <= |x.d| && (w.Within? ==> w.outside.limit == |x.d|) && SeqLies(x.c, x.d, w.limit, t.base, t.terminator, last, env, at, to, vs, depth)
    ensures ReadSeq(x, w, t, last, env, at, depth) == Ok(Items(to, vs))
    decreases depth, 0, 1, |vs|
  {
    hide ReadBase, BaseLies;
    if vs != [] {
      var mid: Cursor :| BaseLies(x.c, x.d, w.limit, t.base, env, at, mid, vs[0], depth) && at.pos < mid.pos <= last
        && SeqLies(x.c, x.d, w.limit, t.base, t.terminator, last, env, mid, to, vs[1..], depth);
      BaseIsFound(x, w, t.base, env, at, mid, vs[0], depth);
      if ReadBase(x, w, t.base, env, at, depth).Ok? {
        SeqIsFound(x, w, t, last, env, mid, to, vs[1..], depth);
        assert vs == [vs[0]] + vs[1..];
        TurnIsFound(x, w, t, last, env, at, depth, Item(mid, vs[0]), Items(to, vs[1..]));
      }
    }
  }

  lemma {:induction false} TypeIsFound(x: Source, w: Window, t: Type, bound: Option<u64>, env: Env, at: Cursor, to: Cursor, v: Value, depth: nat)
    requires !x.strict && at.pos <= w.limit <= |x.d| && TypeLies(x.c, x.d, w.limit, t, bound, env, at, to, v, depth)
    ensures ReadType(x, w, t, bound, env, at, depth) == Ok(Item(to, v))
    decreases depth, 0, 2 * |t.dims| + 3, 0
  {
    hide ReadSeq, ReadDims, ReadText, ReadTerminatedBytes, SeqLies, DimsLie, TextLies, TerminatedLies;
    if t.IsTerminated() {
      assert ReadType(x, w, t, bound, env, at, depth) == ReadTerminated(x, w, t, env, at, depth);
      if t.IsByteForm() {
        PayloadIsFound(x, w, t.terminator, t.maxPayload.value, at, to, v);
      } else {
        assert ReadTerminated(x, w, t, env, at, depth) == ReadSequenceForm(x, w, t, env, at, depth);
        SeqIsFound(x, ScanWindow(w, t, at.pos), t, at.pos + t.maxPayload.value, env, at, to, v.items, depth);
      }
    } else if t.base.IsText() {
      TextIsFound(x, w, t, bound, env, at, to, v);
    } else {
      DimsAreFound(x, w, t.base, t.dims, env, at, to, v, depth);
    }
  }

  // ----- members -----

  lemma {:induction false} BranchIsFound(x: Source, w: Window, b: Branch, env: Env, at: Cursor, to: Cursor, after: Env, fields: Fields, depth: nat)
    requires !x.strict && at.pos <= w.limit <= |x.d| && BranchLies(x.c, x.d, w.limit, b, env, at, to, after, fields, depth)
    ensures ReadBranch(x, w, b, env, at, depth) == Ok(Group(to, after, fields))
    decreases depth, 1, b, 0
  {
    hide ReadType, ReadMembers, TypeLies, MembersLie;
    match b
    case Typed(t) =>
      var v: Value :| TypeLies(x.c, x.d, w.limit, t, None, env, at, to, v, depth) && fields == map["value" := v];
      TypeIsFound(x, w, t, None, env, at, to, v, depth);
    case Listed(members) => MembersAreFound(x, w, members, env, at, to, after, fields, depth);
  }

  lemma {:induction false} FieldIsFound(x: Source, w: Window, op: Op, env: Env, at: Cursor, to: Cursor, after: Env, fields: Fields, depth: nat)
    requires !x.strict && op.Field? && at.pos <= w.limit <= |x.d| && MemberLies(x.c, x.d, w.limit, op, env, at, to, after, fields, depth)
    ensures ReadField(x, w, op, env, at, depth) == Ok(Group(to, after, fields))
    decreases depth, 1, op, 0
  {
    hide ReadType, TypeLies;
    var start := Cursor(at.pos, op.order);
    var v: Value :| TypeLies(x.c, x.d, w.limit, op.ty, op.staticLength, env, start, to, v, depth) && Satisfies(op.assertion, v)
      && fields == map[op.name := v] && after == env[op.symbol := if v.Num? then v.s else I(0)];
    TypeIsFound(x, w, op.ty, op.staticLength, env, start, to, v, depth);
    assert Matches(op.assertion, v);
  }

  lemma {:induction false} AtIsFound(x: Source, w: Window, op: Op, env: Env, at: Cursor, to: Cursor, after: Env, fields: Fields, depth: nat)
    requires !x.strict && op.At? && at.pos <= w.limit <= |x.d| && MemberLies(x.c, x.d, w.limit, op, env, at, to, after, fields, depth)
    ensures ReadAt(x, w, op, env, at, depth) == Ok(Group(to, after, fields))
    decreases depth, 1, op, 0
  {
    hide ReadMembers, MembersLie, SizeOf, IsSize;
    var off: u64, end: Cursor :|
      && at.pos <= U64_MAX && IsSize(x.c, op.staticOffset, op.offset, env[NEXT := U(at.pos)], off) && off <= w.limit
      && MembersLie(x.c, x.d, w.limit, op.members, env, Cursor(off, at.order), end, after, fields, depth)
      && to == Cursor(at.pos, end.order);
    SizeIsFound(x.c, op.staticOffset, op.offset, env[NEXT := U(at.pos)], off);
    MembersAreFound(x, w, op.members, env, Cursor(off, at.order), end, after, fields, depth);
  }

  lemma {:induction false} BlockIsFound(x: Source, w: Window, op: Op, env: Env, at: Cursor, to: Cursor, after: Env, fields: Fields, depth: nat)
    requires !x.strict && op.Block? && at.pos <= w.limit <= |x.d| && MemberLies(x.c, x.d, w.limit, op, env, at, to, after, fields, depth)
    ensures ReadBlock(x, w, op, env, at, depth) == Ok(Group(to, after, fields))
    decreases depth, 1, op, 0
  {
    hide ReadMembers, MembersLie, SizeOf, IsSize, AllZero;
    var n: u64, end: Cursor :|
      && IsSize(x.c, op.staticSize, op.size, env, n) && end.pos <= at.pos + n <= w.limit
      && MembersLie(x.c, x.d, at.pos + n, op.members, env, at, end, after, fields, depth)
      && to == Cursor(at.pos + n, end.order);
    SizeIsFound(x.c, op.staticSize, op.size, env, n);
    MembersAreFound(x, Within(at.pos + n, w), op.members, env, at, end, after, fields, depth);
  }

  lemma CaseIsFound(f: FloatUnit, cases: seq<Case>, tag: Scalar, i: nat)
    requires i < |cases| && NoneIs(f, cases, i, tag) && SameNumber(f, cases[i].tag, tag)
    ensures ChooseCase(f, cases, tag) == Some(i)
  {
    assert ChooseCase(f, cases, tag).Some?;
  }

  lemma {:induction false} VariantIsFound(x: Source, w: Window, op: Op, env: Env, at: Cursor, to: Cursor, after: Env, fields: Fields, depth: nat)
    requires !x.strict && op.Variant? && at.pos <= w.limit <= |x.d| && MemberLies(x.c, x.d, w.limit, op, env, at, to, after, fields, depth)
    ensures ReadVariant(x, w, op, env, at, depth) == Ok(Group(to, after, fields))
    decreases depth, 1, op, 0
  {
    hide ReadBranch, BranchLies, Eval, SameNumber, NoneIs;
    var tag := Eval(x.c.fp, op.discriminator, env).value;
    var inner := fields[op.name].fields;
    if i :| 0 <= i < |op.cases| && NoneIs(x.c.fp, op.cases, i, tag) && SameNumber(x.c.fp, op.cases[i].tag, tag)
            && BranchLies(x.c, x.d, w.limit, op.cases[i].body, env, at, to, after, inner, depth) {
      CaseIsFound(x.c.fp, op.cases, tag, i);
      BranchIsFound(x, w, op.cases[i].body, env, at, to, after, inner, depth);
    } else {
      NoCaseIsFound(x.c.fp, op.cases, tag);
      BranchIsFound(x, w, op.default.value, env, at, to, after, inner, depth);
    }
  }

  lemma NoCaseIsFound(f: FloatUnit, cases: seq<Case>, tag: Scalar)
    requires NoneIs(f, cases, |cases|, tag)
    ensures ChooseCase(f, cases, tag) == None
  {
  }

  lemma AlignIsFound(x: Source, w: Window, e: Expr, known: Option<u64>, env: Env, at: Cursor, to: Cursor, after: Env, fields: Fields, depth: nat)
    requires !x.strict && at.pos <= w.limit <= |x.d| && MemberLies(x.c, x.d, w.limit, Align(e, known), env, at, to, after, fields, depth)
    ensures ReadAlign(x, w, e, known, env, at) == Ok(Group(to, after, fields))
  {
    hide SizeOf, IsSize, AllZero, AlignUp;
    var a: nat :| IsSize(x.c, known, e, env, a) && a > 0 && to.pos % a == 0 && at.pos <= to.pos < at.pos + a && to.pos <= w.limit;
    SizeIsFound(x.c, known, e, env, a);
    OneMultiple(at.pos, to.pos, a);
  }

  lemma {:induction false} MemberIsFound(x: Source, w: Window, op: Op, env: Env, at: Cursor, to: Cursor, after: Env, fields: Fields, depth: nat)
    requires !x.strict && at.pos <= w.limit <= |x.d| && MemberLies(x.c, x.d, w.limit, op, env, at, to, after, fields, depth)
    ensures ReadMember(x, w, op, env, at, depth) == Ok(Group(to, after, fields))
    decreases depth, 1, op, 1
  {
    hide ReadField, ReadBits, ReadAlign, ReadAt, ReadBlock, ReadVariant, ReadMembers, TypeLies, GroupLies, BranchLies, MembersLie, Eval;
    match op
    case Field(_, _, _, _, _, _) => FieldIsFound(x, w, op, env, at, to, after, fields, depth);
    case Bits(group) => GroupIsFound(x, w, group, env, at, to, after, fields);
    case Align(e, known) => AlignIsFound(x, w, e, known, env, at, to, after, fields, depth);
    case At(_, _, _) => AtIsFound(x, w, op, env, at, to, after, fields, depth);
    case Block(_, _, _) => BlockIsFound(x, w, op, env, at, to, after, fields, depth);
    case Conditional(e, thenMembers, elseMembers) =>
      MembersAreFound(x, w, if Eval(x.c.fp, e, env) == Ok(B(true)) then thenMembers else elseMembers, env, at, to, after, fields, depth);
    case Variant(_, _, _, _) => VariantIsFound(x, w, op, env, at, to, after, fields, depth);
    case _ =>
  }

  lemma {:induction false} MembersAreFound(x: Source, w: Window, ops: seq<Op>, env: Env, at: Cursor, to: Cursor, after: Env, fields: Fields, depth: nat)
    requires !x.strict && at.pos <= w.limit <= |x.d| && MembersLie(x.c, x.d, w.limit, ops, env, at, to, after, fields, depth)
    ensures ReadMembers(x, w, ops, env, at, depth) == Ok(Group(to, after, fields))
    decreases depth, 1, ops, 0
  {
    hide ReadMember, MemberLies;
    if ops != [] {
      var mid: Cursor, between: Env, first: Fields, rest: Fields :|
        && MemberLies(x.c, x.d, w.limit, ops[0], env, at, mid, between, first, depth)
        && MembersLie(x.c, x.d, w.limit, ops[1..], between, mid, to, after, rest, depth)
        && fields == first + rest;
      MemberIsFound(x, w, ops[0], env, at, mid, between, first, depth);
      if ReadMember(x, w, ops[0], env, at, depth).Ok? {
        MembersAreFound(x, w, ops[1..], between, mid, to, after, rest, depth);
      }
    }
  }

  lemma GivenIsInitial(m: Module, parameters: Env)
    requires Given(m, parameters)
    ensures InitialEnv(m, parameters) == Ok(parameters + m.values)
  {
    forall p | p in m.parameters ensures ParameterFits(m.parameters[p], parameters[p]) { }
  }

  /** The main theorem: of an input in which a value lies the decoder returns the value and its end. */
  lemma LyingIsRead(c: Context, d: seq<byte>, id: SymbolId, parameters: Env, to: Cursor, v: Value)
    requires Lies(c, d, id, parameters, to, v)
    ensures DecodeStruct(Source(c, d, false), id, parameters) == Ok(Item(to, v))
  {
    hide ReadBase, BaseLies, Given, InitialEnv;
    GivenIsInitial(c.plan, parameters);
    BaseIsFound(Source(c, d, false), Whole(|d|), Named(id), parameters + c.plan.values, Cursor(0, Little), to, v, c.options.maxRecursionDepth);
  }

  /** Together: the decoder returns a value and an end exactly when the value lies up to that end. */
  lemma DecodesWhatLies(c: Context, d: seq<byte>, id: SymbolId, parameters: Env, to: Cursor, v: Value)
    ensures DecodeStruct(Source(c, d, false), id, parameters) == Ok(Item(to, v)) <==> Lies(c, d, id, parameters, to, v)
  {
    hide DecodeStruct, Lies;
    if DecodeStruct(Source(c, d, false), id, parameters) == Ok(Item(to, v)) {
      DecodeLies(Source(c, d, false), id, parameters);
    }
    if Lies(c, d, id, parameters, to, v) {
      LyingIsRead(c, d, id, parameters, to, v);
    }
  }
}
