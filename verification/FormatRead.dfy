/** What the decoder returns lies in its input: every successful decode gives a value, a position and
    an environment that the format assigns to the bytes. */
module FormatRead {
  import opened Outcome
  import opened Bytes
  import opened Expr
  import opened Plan
  import opened Terminator
  import opened Decode
  import opened Format
  import Checks

  // ----- numbers -----

  lemma {:induction false} LittleAppend(b: seq<byte>, last: byte)
    ensures LittleValue(b + [last]) == LittleValue(b) + Pow2(8 * |b|) * last
  {
    if b == [] {
      assert LittleValue([last]) == last + 256 * LittleValue([]);
    } else {
      LittleAppend(b[1..], last);
      assert (b + [last])[1..] == b[1..] + [last];
      Pow2Add(8, 8 * |b[1..]|);
      assert Pow2(8) == 256;
      MulAssociative(256, Pow2(8 * |b[1..]|), last);
      var tail := Pow2(8 * |b[1..]|) * last;
      assert 256 * (LittleValue(b[1..]) + tail) == 256 * LittleValue(b[1..]) + 256 * tail;
    }
  }

  /** The loops over bytes compute the positional number. */
  lemma {:induction false} UnpackIsDigits(b: seq<byte>, order: Order)
    ensures Unpack(b, order) == Digits(b, order)
  {
    if b != [] {
      var n := |b| - 1;
      UnpackIsDigits(b[..n], order);
      assert b == b[..n] + [b[n]];
      if order == Big {
        assert Reverse(b) == [b[n]] + Reverse(b[..n]);
        assert Reverse(b)[1..] == Reverse(b[..n]);
      } else {
        LittleAppend(b[..n], b[n]);
      }
    }
  }

  /** And what is packed is the positional number, cut to the packed width. */
  lemma PackIsDigits(v: nat, n: nat, order: Order)
    ensures Digits(Pack(v, n, order), order) == v % Pow2(8 * n)
  {
    UnpackIsDigits(Pack(v, n, order), order);
    UnpackPack(v, n, order);
  }

  lemma IntIsRead(x: Source, w: Window, it: IntType, at: Cursor)
    requires ReadInt(x, w, it, at).Ok?
    ensures IntLies(x.d, w.limit, it, at, ReadInt(x, w, it, at).value.at, ReadInt(x, w, it, at).value.v)
  {
    hide Pow2, Digits, Unpack;
    var b := x.d[at.pos..at.pos + it.width.Count()];
    UnpackBound(b, at.order);
    UnpackIsDigits(b, at.order);
  }

  lemma SizeIsRead(c: Context, known: Option<u64>, e: Expr, env: Env)
    requires SizeOf(c, known, e, env).Ok?
    ensures IsSize(c, known, e, env, SizeOf(c, known, e, env).value)
  {
  }

  lemma ExtentAmounts(f: FloatUnit, e: Expr, env: Env)
    requires EvalSize(f, e, env).Ok?
    ensures Amounts(f, e, env, EvalSize(f, e, env).value)
  {
  }

  lemma TextIsRead(x: Source, w: Window, t: Type, bound: Option<u64>, env: Env, at: Cursor)
    requires at.pos <= w.limit <= |x.d| && t.base.IsText() && ReadText(x, w, t, bound, env, at).Ok?
    ensures TextLies(x.c, x.d, w.limit, t, bound, env, at, ReadText(x, w, t, bound, env, at).value.at, ReadText(x, w, t, bound, env, at).value.v)
  {
    if t.dims != [] && !t.dims[0].Remaining? {
      ExtentAmounts(x.c.fp, t.dims[0].e, env);
    }
  }

  lemma SliceOfSlice(d: seq<byte>, p: nat, n: nat, i: nat, k: nat)
    requires p + n <= |d| && i + k <= n
    ensures d[p..p + n][i..i + k] == d[p + i..p + i + k]
  {
    var a, b := d[p..p + n][i..i + k], d[p + i..p + i + k];
    assert |a| == |b| == k;
    forall m | 0 <= m < k ensures a[m] == b[m] {
      assert a[m] == d[p..p + n][i + m] == d[p + i + m];
    }
  }

  /** What the scan sees at an index stands in the input there. */
  lemma ScanSees(d: seq<byte>, limit: nat, p: nat, n: nat, t: seq<byte>, j: nat)
    requires p + n <= limit <= |d| && j + |t| <= n
    ensures OccursAt(d[p..p + n], t, j) <==> EndsAt(d, limit, t, p + j)
  {
    SliceOfSlice(d, p, n, j, |t|);
  }

  lemma PayloadIsRead(x: Source, w: Window, t: seq<byte>, max: u64, at: Cursor)
    requires at.pos <= w.limit <= |x.d| && t != [] && ReadTerminatedBytes(x, w, t, max, at).Ok?
    ensures var r := ReadTerminatedBytes(x, w, t, max, at).value; TerminatedLies(x.d, w.limit, t, max, at, r.at, r.v)
  {
    hide EndsAt, OccursAt;
    var n := Min(max + |t|, w.limit - at.pos);
    var s := x.d[at.pos..at.pos + n];
    assert s == ScanBytes(x, w, at, t, max);
    var j := First(s, t).value;
    FoundWithin(s, t);
    ScanSees(x.d, w.limit, at.pos, n, t, j);
    SliceOfSlice(x.d, at.pos, n, 0, j);
    forall p | at.pos <= p < at.pos + j ensures !EndsAt(x.d, w.limit, t, p) {
      assert !OccursAt(s, t, p - at.pos);
      ScanSees(x.d, w.limit, at.pos, n, t, p - at.pos);
    }
  }

  lemma FoundWithin(s: seq<byte>, t: seq<byte>)
    requires First(s, t).Some?
    ensures First(s, t).value + |t| <= |s|
  {
    assert OccursAt(s, t, First(s, t).value);
  }

  // ----- bits -----

  /** Bits of the unpadded container are bits of the storage. */
  lemma BitsOfStorage(raw: nat, padding: nat, below: nat, width: nat)
    requires width <= 64
    ensures BitsOf(Unpadded(raw, padding), below, width) == BitsFrom(raw, padding + below, width)
  {
    Pow2Add(padding, below);
    DivTwice(raw, Pow2(padding), Pow2(below));
  }

  lemma DivTwice(n: nat, a: nat, b: nat)
    requires a > 0 && b > 0
    ensures a * b > 0 && (n / a) / b == n / (a * b)
  {
    MulMonotone(a, 1, b);
    var q := n / a;
    var r := q / b;
    assert n == a * q + n % a && q == b * r + q % b;
    assert a * q == a * (b * r) + a * (q % b);
    MulAssociative(a, b, r);
    MulMonotone(a, q % b + 1, b);
    assert a * (q % b + 1) == a * (q % b) + a;
    DivUnique(n, a * b, r, a * (q % b) + n % a);
  }

  lemma {:induction false} BitsAreRead(x: Source, fs: seq<BitsField>, raw: nat, padding: nat, env: Env)
    requires TotalBits(fs) <= 64 && ReadBitsFields(x, fs, Unpadded(raw, padding), env).Ok?
    ensures var r := ReadBitsFields(x, fs, Unpadded(raw, padding), env).value;
            BitsLie(fs, raw, padding + TotalBits(fs), env, r.0, r.1)
  {
    hide BitsFrom, BitsOf, Unpadded, Pow2;
    if fs != [] {
      var f := fs[0];
      var u := Unpadded(raw, padding);
      BitsOfStorage(raw, padding, TotalBits(fs[1..]), f.bits);
      var v := BitsOf(u, TotalBits(fs[1..]), f.bits);
      BitsAreRead(x, fs[1..], raw, padding, env[f.symbol := U(v)]);
      var rest := ReadBitsFields(x, fs[1..], u, env[f.symbol := U(v)]).value;
      assert Matches(f.assertion, Num(U(v))) && Satisfies(f.assertion, Num(U(v)));
      assert BitsLie(fs[1..], raw, padding + TotalBits(fs) - f.bits, env[f.symbol := U(v)], rest.0, rest.1);
    }
  }

  lemma GroupIsRead(x: Source, w: Window, g: BitsGroup, env: Env, at: Cursor)
    requires at.pos <= w.limit <= |x.d| && ReadBits(x, w, g, env, at).Ok?
    ensures var r := ReadBits(x, w, g, env, at).value; GroupLies(x.d, w.limit, g, env, at, r.at, r.env, r.fields)
  {
    hide Digits, Unpack, ReadBitsFields, BitsLie, Unpadded, PaddingIsZero;
    var b := x.d[at.pos..at.pos + StorageBytes(g)];
    var raw := Unpack(b, at.order);
    UnpackIsDigits(b, at.order);
    BitsAreRead(x, g, raw, PaddingBits(g), env);
  }

  // ----- types -----

  lemma AllowedIsWithin(o: Options, ns: seq<u64>)
    ensures Allowed(o, ns) <==> Checks.WithinLimit(o.maxArrayElements, 1, ns) && Product(ns) <= o.maxArrayValues
  {
    hide Product;
    forall i | 0 <= i < |ns| ensures Checks.Running(1, ns, i) == Product(ns[..i + 1]) { }
    if Checks.WithinLimit(o.maxArrayElements, 1, ns) {
      forall i {:trigger ns[..i + 1]} | 0 <= i < |ns| ensures ns[i] <= o.maxArrayElements && Product(ns[..i + 1]) <= o.maxArrayElements {
        assert Checks.Running(1, ns, i) <= o.maxArrayElements;
      }
    }
  }

  lemma ExtentsAmount(c: Context, dims: seq<Dim>, env: Env)
    requires ArrayExtents(c, dims, env).Ok?
    ensures AreExtents(c.fp, dims, env, ArrayExtents(c, dims, env).value) && Allowed(c.options, ArrayExtents(c, dims, env).value)
  {
    hide ArrayExtents, EvalSize, Amounts, Checks.WithinLimit, Allowed, Product;
    var ns := ArrayExtents(c, dims, env).value;
    Checks.ExtentsWhen(c, dims, env, ns);
    AllowedIsWithin(c.options, ns);
    forall i | 0 <= i < |dims| ensures !dims[i].Remaining? && Amounts(c.fp, dims[i].e, env, ns[i]) {
      ExtentAmounts(c.fp, dims[i].e, env);
    }
  }

  lemma SizesAreBound(s: Struct, env: Env)
    ensures Sized(s, env, WithSizes(s, env))
  {
  }

  lemma {:induction false} RequirementsHold(f: FloatUnit, reqs: seq<Expr>, env: Env)
    requires CheckRequirements(f, reqs, env).Ok?
    ensures Required(f, reqs, env)
  {
    hide Eval;
    if reqs != [] {
      RequirementsHold(f, reqs[1..], env);
      forall e | e in reqs ensures Eval(f, e, env) == Ok(B(true)) {
        assert e == reqs[0] || e in reqs[1..];
      }
    }
  }

  lemma {:induction false} BaseIsRead(x: Source, w: Window, base: Base, env: Env, at: Cursor, depth: nat)
    requires at.pos <= w.limit <= |x.d| && ReadBase(x, w, base, env, at, depth).Ok?
    ensures var r := ReadBase(x, w, base, env, at, depth).value; BaseLies(x.c, x.d, w.limit, base, env, at, r.at, r.v, depth)
    decreases depth, 0, 0, 0
  {
    hide ReadStruct, StructLies, ReadInt, IntLies;
    match base
    case Primitive(it) => IntIsRead(x, w, it, at);
    case Named(id) =>
      if id in x.c.plan.structs {
        StructIsRead(x, w, x.c.plan.structs[id], env, at, depth - 1);
      } else {
        IntIsRead(x, w, x.c.plan.enums[id], at);
      }
    case _ =>
  }

  lemma {:induction false} StructIsRead(x: Source, w: Window, s: Struct, env: Env, at: Cursor, depth: nat)
    requires at.pos <= w.limit <= |x.d| && ReadStruct(x, w, s, env, at, depth).Ok?
    ensures var r := ReadStruct(x, w, s, env, at, depth).value; r.v.Obj? && StructLies(x.c, x.d, w.limit, s, env, at, r.at, r.v.fields, depth)
    decreases depth, 2
  {
    hide ReadMembers, MembersLie, WithSizes, Sized, Required, CheckRequirements;
    var inner := WithSizes(s, env);
    var g := ReadMembers(x, w, s.members, inner, Cursor(at.pos, s.order), depth).value;
    SizesAreBound(s, env);
    MembersAreRead(x, w, s.members, inner, Cursor(at.pos, s.order), depth);
    RequirementsHold(x.c.fp, s.requirements, g.env);
  }

  lemma {:induction false} DimsAreRead(x: Source, w: Window, base: Base, dims: seq<Dim>, env: Env, at: Cursor, depth: nat)
    requires at.pos <= w.limit <= |x.d| && ReadDims(x, w, base, dims, env, at, depth).Ok?
    ensures var r := ReadDims(x, w, base, dims, env, at, depth).value; DimsLie(x.c, x.d, w.limit, base, dims, env, at, r.at, r.v, depth)
    decreases depth, 0, 2 * |dims| + 1, 0
  {
    hide ReadBase, ReadElems, BaseLies, ElemsLie, AreExtents, Allowed, ArrayExtents;
    if dims == [] {
      BaseIsRead(x, w, base, env, at, depth);
    } else {
      var ns := ArrayExtents(x.c, dims, env).value;
      ExtentsAmount(x.c, dims, env);
      ElemsAreRead(x, w, base, dims[1..], ns[0], env, at, depth);
    }
  }

  lemma {:induction false} ElemsAreRead(x: Source, w: Window, base: Base, dims: seq<Dim>, n: nat, env: Env, at: Cursor, depth: nat)
    requires at.pos <= w.limit <= |x.d| && ReadElems(x, w, base, dims, n, env, at, depth).Ok?
    ensures var r := ReadElems(x, w, base, dims, n, env, at, depth).value; |r.vs| == n && ElemsLie(x.c, x.d, w.limit, base, dims, env, at, r.at, r.vs, depth)
    decreases depth, 0, 2 * |dims| + 2, n
  {
    hide ReadDims, DimsLie;
    if n > 0 {
      var first := ReadDims(x, w, base, dims, env, at, depth).value;
      var rest := ReadElems(x, w, base, dims, n - 1, env, first.at, depth).value;
      DimsAreRead(x, w, base, dims, env, at, depth);
      ElemsAreRead(x, w, base, dims, n - 1, env, first.at, depth);
      assert ([first.v] + rest.vs)[1..] == rest.vs;
    }
  }

  lemma {:induction false} SeqIsRead(x: Source, w: Window, t: Type, last: nat, env: Env, at: Cursor, depth: nat)
    requires at.pos <= w.limit <= |x.d| && ReadSeq(x, w, t, last, env, at, depth).Ok?
    ensures var r := ReadSeq(x, w, t, last, env, at, depth).value; SeqLies(x.c, x.d, w.limit, t.base, t.terminator, last, env, at, r.at, r.vs, depth)
    decreases depth, 0, 1, if at.pos <= last then last - at.pos else 0
  {
    hide ReadBase, BaseLies;
    if EndsAt(x.d, w.limit, t.terminator, at.pos) {
    } else {
      var first := ReadBase(x, w, t.base, env, at, depth).value;
      var rest := ReadSeq(x, w, t, last, env, first.at, depth).value;
      BaseIsRead(x, w, t.base, env, at, depth);
      SeqIsRead(x, w, t, last, env, first.at, depth);
      assert ([first.v] + rest.vs)[1..] == rest.vs;
    }
  }

  lemma {:induction false} SnapshotNeedsTheWhole(x: Source, w: Window, t: Type, last: nat, env: Env, at: Cursor, depth: nat)
    requires w.Within? && at.pos <= w.limit <= |x.d| && ReadSeq(x, w, t, last, env, at, depth).Ok?
    ensures w.outside.limit == |x.d|
    decreases if at.pos <= last then last - at.pos else 0
  {
    hide ReadBase;
    if at.pos + |t.terminator| > w.limit {
      SnapshotNeedsTheWhole(x, w, t, last, env, ReadBase(x, w, t.base, env, at, depth).value.at, depth);
    }
  }

  lemma {:induction false} TypeIsRead(x: Source, w: Window, t: Type, bound: Option<u64>, env: Env, at: Cursor, depth: nat)
    requires at.pos <= w.limit <= |x.d| && ReadType(x, w, t, bound, env, at, depth).Ok?
    ensures var r := ReadType(x, w, t, bound, env, at, depth).value; TypeLies(x.c, x.d, w.limit, t, bound, env, at, r.at, r.v, depth)
    decreases depth, 0, 2 * |t.dims| + 3, 0
  {
    hide ReadSeq, ReadDims, ReadText, ReadTerminatedBytes, SeqLies, DimsLie, TextLies, TerminatedLies;
    if t.IsTerminated() {
      assert ReadTerminated(x, w, t, env, at, depth).Ok?;
      if t.IsByteForm() {
        PayloadIsRead(x, w, t.terminator, t.maxPayload.value, at);
      } else {
        assert ReadSequenceForm(x, w, t, env, at, depth).Ok?;
        SnapshotNeedsTheWhole(x, ScanWindow(w, t, at.pos), t, at.pos + t.maxPayload.value, env, at, depth);
        SeqIsRead(x, ScanWindow(w, t, at.pos), t, at.pos + t.maxPayload.value, env, at, depth);
      }
    } else if t.base.IsText() {
      TextIsRead(x, w, t, bound, env, at);
    } else {
      DimsAreRead(x, w, t.base, t.dims, env, at, depth);
    }
  }

  /** A byte string or an array with an extent takes as many bytes or items as the mathematical value
      of the extent, and an array as many in each of its dimensions. */
  lemma ExtentIsTaken(x: Source, w: Window, t: Type, bound: Option<u64>, env: Env, at: Cursor, depth: nat)
    requires at.pos <= w.limit <= |x.d| && t.terminator == [] && t.dims != [] && !t.dims[0].Remaining?
    requires ReadType(x, w, t, bound, env, at, depth).Ok?
    ensures var r := ReadType(x, w, t, bound, env, at, depth).value;
            if t.base.BytesBase? then r.v.Blob? && Amounts(x.c.fp, t.dims[0].e, env, |r.v.bytes|) && r.at.pos == at.pos + |r.v.bytes|
            else if t.base.StringBase? then r.v.Text? && Amounts(x.c.fp, t.dims[0].e, env, |r.v.text|) && r.at.pos == at.pos + |r.v.text|
            else Counted(x.c.fp, t.dims, env, r.v)
  {
    hide ReadType, DimsLie, Counted;
    TypeIsRead(x, w, t, bound, env, at, depth);
    var r := ReadType(x, w, t, bound, env, at, depth).value;
    if !t.base.BytesBase? && !t.base.StringBase? {
      LyingIsCounted(x.c, x.d, w.limit, t.base, t.dims, env, at, r.at, r.v, depth);
    }
  }

  /** An array of as many items as the first extent says, each an array of the remaining extents. */
  predicate Counted(f: FloatUnit, dims: seq<Dim>, env: Env, v: Value)
    decreases |dims|
  {
    dims == [] || (v.Arr? && !dims[0].Remaining? && Amounts(f, dims[0].e, env, |v.items|) && forall item :: item in v.items ==> Counted(f, dims[1..], env, item))
  }

  lemma {:induction false} LyingIsCounted(c: Context, d: seq<byte>, limit: nat, base: Base, dims: seq<Dim>, env: Env, at: Cursor, to: Cursor, v: Value, depth: nat)
    requires DimsLie(c, d, limit, base, dims, env, at, to, v, depth)
    ensures Counted(c.fp, dims, env, v)
    decreases |dims|, 0
  {
    if dims != [] {
      LyingAreCounted(c, d, limit, base, dims[1..], env, at, to, v.items, depth);
    }
  }

  lemma {:induction false} LyingAreCounted(c: Context, d: seq<byte>, limit: nat, base: Base, dims: seq<Dim>, env: Env, at: Cursor, to: Cursor, vs: seq<Value>, depth: nat)
    requires ElemsLie(c, d, limit, base, dims, env, at, to, vs, depth)
    ensures forall v :: v in vs ==> Counted(c.fp, dims, env, v)
    decreases |dims|, 1, |vs|
  {
    hide BaseLies, Counted;
    if vs != [] {
      var mid: Cursor :| DimsLie(c, d, limit, base, dims, env, at, mid, vs[0], depth) && ElemsLie(c, d, limit, base, dims, env, mid, to, vs[1..], depth);
      LyingIsCounted(c, d, limit, base, dims, env, at, mid, vs[0], depth);
      LyingAreCounted(c, d, limit, base, dims, env, mid, to, vs[1..], depth);
      forall v | v in vs ensures Counted(c.fp, dims, env, v) {
        assert v == vs[0] || v in vs[1..];
      }
    }
  }

  // ----- members -----

  lemma {:induction false} BranchIsRead(x: Source, w: Window, b: Branch, env: Env, at: Cursor, depth: nat)
    requires at.pos <= w.limit <= |x.d| && ReadBranch(x, w, b, env, at, depth).Ok?
    ensures var r := ReadBranch(x, w, b, env, at, depth).value; BranchLies(x.c, x.d, w.limit, b, env, at, r.at, r.env, r.fields, depth)
    decreases depth, 1, b, 0
  {
    hide ReadType, ReadMembers, TypeLies, MembersLie;
    match b
    case Typed(t) => TypeIsRead(x, w, t, None, env, at, depth);
    case Listed(members) => MembersAreRead(x, w, members, env, at, depth);
  }

  lemma {:induction false} FieldIsRead(x: Source, w: Window, op: Op, env: Env, at: Cursor, depth: nat)
    requires op.Field? && at.pos <= w.limit <= |x.d| && ReadField(x, w, op, env, at, depth).Ok?
    ensures var r := ReadField(x, w, op, env, at, depth).value; MemberLies(x.c, x.d, w.limit, op, env, at, r.at, r.env, r.fields, depth)
    decreases depth, 1, op, 0
  {
    hide ReadType, TypeLies;
    var start := Cursor(at.pos, op.order);
    var got := ReadType(x, w, op.ty, op.staticLength, env, start, depth).value;
    TypeIsRead(x, w, op.ty, op.staticLength, env, start, depth);
    assert Satisfies(op.assertion, got.v);
  }

  lemma {:induction false} AtIsRead(x: Source, w: Window, op: Op, env: Env, at: Cursor, depth: nat)
    requires op.At? && at.pos <= w.limit <= |x.d| && ReadAt(x, w, op, env, at, depth).Ok?
    ensures var r := ReadAt(x, w, op, env, at, depth).value; MemberLies(x.c, x.d, w.limit, op, env, at, r.at, r.env, r.fields, depth)
    decreases depth, 1, op, 0
  {
    hide ReadMembers, MembersLie, SizeOf, IsSize;
    var inner := env[NEXT := U(at.pos)];
    var off := SizeOf(x.c, op.staticOffset, op.offset, inner).value;
    SizeIsRead(x.c, op.staticOffset, op.offset, inner);
    MembersAreRead(x, w, op.members, env, Cursor(off, at.order), depth);
    var g := ReadMembers(x, w, op.members, env, Cursor(off, at.order), depth).value;
    assert MembersLie(x.c, x.d, w.limit, op.members, env, Cursor(off, at.order), g.at, g.env, g.fields, depth);
  }

  lemma {:induction false} BlockIsRead(x: Source, w: Window, op: Op, env: Env, at: Cursor, depth: nat)
    requires op.Block? && at.pos <= w.limit <= |x.d| && ReadBlock(x, w, op, env, at, depth).Ok?
    ensures var r := ReadBlock(x, w, op, env, at, depth).value; MemberLies(x.c, x.d, w.limit, op, env, at, r.at, r.env, r.fields, depth)
    decreases depth, 1, op, 0
  {
    hide ReadMembers, MembersLie, SizeOf, IsSize, AllZero;
    var n := SizeOf(x.c, op.staticSize, op.size, env).value;
    SizeIsRead(x.c, op.staticSize, op.size, env);
    MembersAreRead(x, Within(at.pos + n, w), op.members, env, at, depth);
    var g := ReadMembers(x, Within(at.pos + n, w), op.members, env, at, depth).value;
    assert MembersLie(x.c, x.d, at.pos + n, op.members, env, at, g.at, g.env, g.fields, depth);
  }

  lemma {:induction false} VariantIsRead(x: Source, w: Window, op: Op, env: Env, at: Cursor, depth: nat)
    requires op.Variant? && at.pos <= w.limit <= |x.d| && ReadVariant(x, w, op, env, at, depth).Ok?
    ensures var r := ReadVariant(x, w, op, env, at, depth).value; MemberLies(x.c, x.d, w.limit, op, env, at, r.at, r.env, r.fields, depth)
    decreases depth, 1, op, 0
  {
    hide ReadBranch, BranchLies, Eval, SameNumber;
    var tag := Eval(x.c.fp, op.discriminator, env).value;
    match ChooseCase(x.c.fp, op.cases, tag)
    case Some(i) =>
      BranchIsRead(x, w, op.cases[i].body, env, at, depth);
      assert NoneIs(x.c.fp, op.cases, i, tag);
    case None =>
      BranchIsRead(x, w, op.default.value, env, at, depth);
      assert NoneIs(x.c.fp, op.cases, |op.cases|, tag);
  }

  lemma AlignIsRead(x: Source, w: Window, e: Expr, known: Option<u64>, env: Env, at: Cursor, depth: nat)
    requires at.pos <= w.limit <= |x.d| && ReadAlign(x, w, e, known, env, at).Ok?
    ensures var r := ReadAlign(x, w, e, known, env, at).value; MemberLies(x.c, x.d, w.limit, Align(e, known), env, at, r.at, r.env, r.fields, depth)
  {
    hide SizeOf, IsSize, AllZero;
    SizeIsRead(x.c, known, e, env);
    var a := SizeOf(x.c, known, e, env).value;
    assert IsSize(x.c, known, e, env, a);
  }

  lemma {:induction false} MemberIsRead(x: Source, w: Window, op: Op, env: Env, at: Cursor, depth: nat)
    requires at.pos <= w.limit <= |x.d| && ReadMember(x, w, op, env, at, depth).Ok?
    ensures var r := ReadMember(x, w, op, env, at, depth).value; MemberLies(x.c, x.d, w.limit, op, env, at, r.at, r.env, r.fields, depth)
    decreases depth, 1, op, 1
  {
    hide ReadField, ReadBits, ReadAlign, ReadAt, ReadBlock, ReadVariant, ReadMembers, TypeLies, GroupLies, BranchLies, MembersLie, Eval;
    match op
    case Field(_, _, _, _, _, _) => FieldIsRead(x, w, op, env, at, depth);
    case Bits(group) => GroupIsRead(x, w, group, env, at);
    case Align(e, known) => AlignIsRead(x, w, e, known, env, at, depth);
    case At(_, _, _) => AtIsRead(x, w, op, env, at, depth);
    case Block(_, _, _) => BlockIsRead(x, w, op, env, at, depth);
    case Conditional(e, thenMembers, elseMembers) =>
      MembersAreRead(x, w, if EvalBool(x.c.fp, e, env).value then thenMembers else elseMembers, env, at, depth);
    case Variant(_, _, _, _) => VariantIsRead(x, w, op, env, at, depth);
    case _ =>
  }

  lemma {:induction false} MembersAreRead(x: Source, w: Window, ops: seq<Op>, env: Env, at: Cursor, depth: nat)
    requires at.pos <= w.limit <= |x.d| && ReadMembers(x, w, ops, env, at, depth).Ok?
    ensures var r := ReadMembers(x, w, ops, env, at, depth).value; MembersLie(x.c, x.d, w.limit, ops, env, at, r.at, r.env, r.fields, depth)
    decreases depth, 1, ops, 0
  {
    hide ReadMember, MemberLies;
    if ops != [] {
      var g := ReadMember(x, w, ops[0], env, at, depth).value;
      MemberIsRead(x, w, ops[0], env, at, depth);
      MembersAreRead(x, w, ops[1..], g.env, g.at, depth);
    }
  }

  lemma ParametersAreGiven(m: Module, parameters: Env)
    requires InitialEnv(m, parameters).Ok?
    ensures Given(m, parameters) && InitialEnv(m, parameters).value == parameters + m.values
  {
    forall p | p in m.parameters ensures ParameterFits(m.parameters[p], parameters[p]) { }
  }

  /** The main theorem: what a successful decode returns lies in the input. */
  lemma DecodeLies(x: Source, id: SymbolId, parameters: Env)
    requires DecodeStruct(x, id, parameters).Ok?
    ensures var r := DecodeStruct(x, id, parameters).value; Lies(x.c, x.d, id, parameters, r.at, r.v)
  {
    hide ReadBase, BaseLies, Given, InitialEnv;
    ParametersAreGiven(x.c.plan, parameters);
    BaseIsRead(x, Whole(|x.d|), Named(id), parameters + x.c.plan.values, Cursor(0, Little), x.c.options.maxRecursionDepth);
  }
}
