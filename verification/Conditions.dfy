/** Where the encoder and the decoder disagree, and exactly when. */
module Conditions {
  import opened Outcome
  import opened Bytes
  import opened Expr
  import opened Plan
  import opened Terminator
  import opened Decode
  import opened Encode
  import opened Bounds
  import opened Arrays
  import opened ArrayEncoding
  import opened RoundTrip
  import opened BitPacking
  import opened Strict
  import BoundsSound
  import opened Grid
  import BoundsDecode

  // ----- terminators -----

  /** A proper border of `t`: its first `k` bytes are also its last. */
  predicate IsBorder(t: seq<byte>, k: nat) {
    0 < k < |t| && t[..k] == t[|t| - k..]
  }

  /** The encoder rejects a payload that contains the whole terminator, and no other. */
  predicate IsAccepted(t: seq<byte>, max: nat, payload: seq<byte>) {
    |payload| <= max && First(payload, t).None?
  }

  predicate HasReachableBorder(t: seq<byte>, max: nat) {
    exists k :: 0 < k < |t| && IsBorder(t, k) && |t| - k <= max
  }

  /** A terminator found before its place overlaps it, and the overlap is a border. */
  lemma EarlyFindIsBorder(t: seq<byte>, max: nat, payload: seq<byte>)
    requires t != [] && IsAccepted(t, max, payload) && First(payload + t, t) != Some(|payload|)
    ensures HasReachableBorder(t, max)
  {
    var s := payload + t;
    var n := |payload|;
    assert s[n..n + |t|] == t;
    assert OccursAt(s, t, n);
    var j := First(s, t).value;
    assert j < n;
    if j + |t| <= n {
      assert payload[j..j + |t|] == s[j..j + |t|];
      assert OccursAt(payload, t, j);
    } else {
      var k := j + |t| - n;
      assert t[..k] == s[n..n + k];
      assert t[|t| - k..] == s[j..j + |t|][|t| - k..] == s[n..n + k];
      assert IsBorder(t, k);
    }
  }

  /** The payload that completes a border into a terminator is accepted and found too early. */
  lemma BorderIsFoundEarly(t: seq<byte>, k: nat)
    requires IsBorder(t, k)
    ensures First(t[..|t| - k], t).None? && First(t[..|t| - k] + t, t) == Some(0)
  {
    var payload := t[..|t| - k];
    var s := payload + t;
    assert s[..|t|] == payload + t[..k] == t;
    assert OccursAt(s, t, 0);
  }

  /** All accepted payloads read back exactly when the terminator has no proper border that a
      payload within the limit can complete. */
  lemma PayloadsReadBack(t: seq<byte>, max: nat)
    requires t != []
    ensures (forall payload :: IsAccepted(t, max, payload) ==> First(payload + t, t) == Some(|payload|))
            <==> !HasReachableBorder(t, max)
  {
    if HasReachableBorder(t, max) {
      var k :| 0 < k < |t| && IsBorder(t, k) && |t| - k <= max;
      BorderIsFoundEarly(t, k);
      assert IsAccepted(t, max, t[..|t| - k]);
    } else {
      forall payload | IsAccepted(t, max, payload) ensures First(payload + t, t) == Some(|payload|) {
        if First(payload + t, t) != Some(|payload|) {
          EarlyFindIsBorder(t, max, payload);
        }
      }
    }
  }

  /** In the codecs: what an encode of terminated bytes wrote reads back as the payload, with the
      reader where the writer stood, exactly when the terminator is first found at its end. */
  lemma TerminatedBytesReadBackWhen(c: Context, room: Room, t: seq<byte>, max: u64, payload: seq<byte>, pen: Pen, after: Pen, x: Source, w: Window)
    requires t != [] && AtEnd(room, pen)
    requires WriteTerminatedBytes(Sink(c, false), room, t, max, Blob(payload), None, pen) == Ok(Written(after, Blob(payload)))
    requires after.p <= w.limit <= |x.d| && after.d <= x.d
    ensures (ReadTerminatedBytes(x, w, t, max, Where(pen)) == Ok(Item(Where(after), Blob(payload))))
            <==> (First(payload + t, t) == Some(|payload|))
  {
    ScanOfWritten(room, pen, after, payload, t, max, x, w);
    FoundInScan(payload, t, ScanBytes(x, w, Where(pen), t, max));
  }

  // ----- the byte order of bits groups -----

  lemma {:induction false} ZeroBytes(n: nat, i: nat)
    requires i < n
    ensures LittleBytes(0, n)[i] == 0
  {
    if i > 0 {
      ZeroBytes(n - 1, i - 1);
    }
  }

  /** The low byte on top: what the other order makes of a number below 256 is even after the
      padding is gone, and not one. */
  lemma LowByteMoves(n: nat, padding: nat, o: Order, o': Order)
    requires n >= 2 && o != o' && padding < 8
    ensures Unpadded(Unpack(Pack(Padded(1, padding), n, o), o'), padding) != 1
  {
    Pow2Monotone(padding, 7);
    assert Pow2(7) == 128;
    ShiftIsProduct(1, padding);
    var u := Padded(1, padding);
    assert u == Pow2(padding) <= 128;
    var low := LittleBytes(u, n);
    assert u / 256 == 0;
    ZeroBytes(n - 1, n - 2);
    assert low[n - 1] == LittleBytes(0, n - 1)[n - 2] == 0;
    var r := Reverse(low);
    assert r[0] == 0;
    assert LittleValue(r) == 256 * LittleValue(r[1..]);
    EvenQuotient(LittleValue(r[1..]), padding);
  }

  lemma EvenQuotient(m: nat, padding: nat)
    requires padding < 8
    ensures Unpadded(256 * m, padding) % 2 == 0
  {
    Pow2Add(padding, 8 - padding);
    assert Pow2(8) == 256 && Pow2(8 - padding) == 2 * Pow2(7 - padding);
    var half := Pow2(7 - padding) * m;
    MulAssociative(Pow2(padding), Pow2(8 - padding), m);
    assert 256 * m == Pow2(padding) * (Pow2(8 - padding) * m);
    MulAssociative(2, Pow2(7 - padding), m);
    assert Pow2(8 - padding) * m == 2 * half;
    DivUnique(256 * m, Pow2(padding), 2 * half, 0);
  }

  /** The encoder packs the padded container of a bits group in the order
      of the group, the decoder unpacks it in the order that was in force before the group: all
      containers survive exactly when the two are equal or the group is stored in one byte. */
  lemma GroupSurvives(g: BitsGroup, o: Order, o': Order)
    ensures (forall k: nat :: k < Pow2(TotalBits(g)) ==>
               Unpadded(Unpack(Pack(Padded(k, PaddingBits(g)), StorageBytes(g), o), o'), PaddingBits(g)) == k)
            <==> o == o' || StorageBytes(g) == 1
  {
    GroupHasBits(g);
    if o == o' || StorageBytes(g) == 1 {
      forall k: nat | k < Pow2(TotalBits(g))
        ensures Unpadded(Unpack(Pack(Padded(k, PaddingBits(g)), StorageBytes(g), o), o'), PaddingBits(g)) == k
      {
        ContainerReadBack(k, g, o, o');
      }
    } else {
      hide Pack, Unpack, Padded, Unpadded;
      Pow2Monotone(1, TotalBits(g));
      assert Pow2(1) == 2;
      LowByteMoves(StorageBytes(g), PaddingBits(g), o, o');
    }
  }

  lemma GroupHasBits(g: BitsGroup)
    ensures TotalBits(g) >= 1 && StorageBytes(g) >= 1
  {
    assert g[0] in g;
  }

  // ----- static lengths -----

  /** The static length of a field counts elements, and the encoder compares it with bytes. An
      array of fixed-size elements whose extents are all static, and which can be written, is
      accepted exactly when it is empty or its elements take one byte each. */
  lemma StaticLengthCountsElements(c: Context, room: Room, op: Op, o: Fields, env: Env, pen: Pen, depth: nat, ids: set<SymbolId>, k: u64, ns: seq<u64>)
    requires op.Field? && FixedElement(c, op.ty.base, ids, k) && !op.ty.IsTerminated() && op.ty.dims != []
    requires IsShape(c, op.ty.dims, env, ns) && op.staticLength.Some? && op.staticLength.value == Product(ns)
    requires AtEnd(room, pen) && FieldInput(op, o, env).Ok? && Matches(op.assertion, FieldInput(op, o, env).value)
    requires WriteType(Sink(c, false), room, op.ty, FieldInput(op, o, env).value, op.staticLength, env, pen.(order := op.order), depth).Ok?
    ensures var r := WriteField(Sink(c, false), room, op, o, env, pen, depth);
            if Product(ns) == 0 || k == 1 then r.Ok? else r == Fail(ValueMismatch)
  {
    hide WriteDims, Matches, Grows, Product, FieldInput;
    var y := Sink(c, false);
    var v := FieldInput(op, o, env).value;
    var at := pen.(order := op.order);
    var t := op.ty;
    assert WriteType(y, room, t, v, op.staticLength, env, at, depth) == WriteDims(y, room, t.base, t.dims, v, env, at, depth);
    DimsAppend(y, room, t.base, t.dims, ns, v, env, at, depth, ids, k, op.order);
    SizeIsProduct(ns, k);
    OnlyOne(Product(ns), k);
  }

  lemma OnlyOne(n: nat, k: nat)
    ensures Times(n, k) == n <==> n == 0 || k == 1
  {
    if n > 0 && k > 1 {
      MulMonotone(n, 2, k);
    }
  }

  // ----- lengths of byte strings -----

  /** The length that the decoder will take: what is left of the active limit, the first extent, or
      the static length of the field. */
  predicate Takes(c: Context, dims: seq<Dim>, bound: Option<u64>, env: Env, left: nat, n: nat) {
    if dims != [] && dims[0].Remaining? then left == n
    else if dims != [] then EvalSize(c.fp, dims[0].e, env) == Ok(n)
    else bound.Some? && bound.value == n
  }

  /** The encoder as it is compares a byte string with a `Fixed` extent only. What it wrote reads back
      exactly when the decoder takes as many bytes, and may allocate them. For `bytes[*]` that means
      that the block, or the input, is filled. */
  lemma TextReadsBackWhen(c: Context, room: Room, t: Type, v: Value, bound: Option<u64>, env: Env, pen: Pen, after: Pen, depth: nat, x: Source, w: Window)
    requires t.base.IsText() && !t.IsTerminated() && TextBytes(t.base, v).Ok? && AtEnd(room, pen) && x.c == c
    requires WriteType(Sink(c, false), room, t, v, bound, env, pen, depth) == Ok(Written(after, v))
    requires after.p <= w.limit <= |x.d| && after.d <= x.d
    ensures var n := |TextBytes(t.base, v).value|;
            ReadType(x, w, t, bound, env, Where(pen), depth) == Ok(Item(Where(after), v))
            <==> n <= c.options.maxAllocationBytes && Takes(c, t.dims, bound, env, w.limit - pen.p, n)
  {
    hide Overlay, Grows, Eval;
    var b := TextBytes(t.base, v).value;
    assert WriteType(Sink(c, false), room, t, v, bound, env, pen, depth) == WriteText(Sink(c, false), room, t.base, t.dims, v, bound, env, pen);
    assert ReadType(x, w, t, bound, env, Where(pen), depth) == ReadText(x, w, t, bound, env, Where(pen));
    TakeWritten(room, pen, after, b, x, w);
  }

  /** In particular for a dynamic extent. */
  lemma DynamicLengthReadsBackWhen(c: Context, room: Room, base: Base, e: Expr, v: Value, bound: Option<u64>, env: Env, pen: Pen, after: Pen, depth: nat, x: Source, w: Window)
    requires base.IsText() && TextBytes(base, v).Ok? && AtEnd(room, pen) && x.c == c
    requires var t := Type(base, [Dynamic(e)], [], None);
             WriteType(Sink(c, false), room, t, v, bound, env, pen, depth) == Ok(Written(after, v))
    requires after.p <= w.limit <= |x.d| && after.d <= x.d
    ensures var t := Type(base, [Dynamic(e)], [], None);
            var n := |TextBytes(base, v).value|;
            ReadType(x, w, t, bound, env, Where(pen), depth) == Ok(Item(Where(after), v))
            <==> n <= c.options.maxAllocationBytes && EvalSize(c.fp, e, env) == Ok(n)
  {
    hide WriteType, ReadType, EvalSize, Grows;
    TextReadsBackWhen(c, room, Type(base, [Dynamic(e)], [], None), v, bound, env, pen, after, depth, x, w);
  }

  // ----- alignment inside nested lists -----

  /** The bounds analysis lays a nested list out from 0 and the run writes it from where it stands.
      Written from a multiple of every alignment in it, the list takes a number of bytes within its
      bounds. */
  lemma NestedListWithinBounds(y: Sink, room: Room, ops: seq<Op>, o: Fields, env: Env, pen: Pen, depth: nat, grid: Grid, visiting: set<SymbolId>)
    requires PlanOnGrid(y.c, grid) && OpsOnGrid(y.c, ops, grid, pen.p, pen.p)
    requires SequenceRange(y.c, ops, StartAt(0), visiting).Ok? && WriteMembers(y, room, ops, o, env, pen, depth).Ok?
    ensures var s := SequenceRange(y.c, ops, StartAt(0), visiting).value;
            BoundsSound.Contains(Range(s.extentMin, s.extentMax), WriteMembers(y, room, ops, o, env, pen, depth).value.pen.p - pen.p)
  {
    hide WriteMembers, SequenceRange, OpsOnGrid, PlanOnGrid, Multiple;
    FactorMultiple(pen.p, pen.p, 1);
    BoundsSound.MembersFit(y, room, ops, o, env, pen, depth, grid, pen.p, pen.p, visiting, StartAt(0), pen.p);
  }

  /** Alignments beside members whose structs may start anywhere. */
  predicate AlignedList(c: Context, ops: seq<Op>, ids: set<SymbolId>) {
    forall i :: 0 <= i < |ops| ==> ops[i].Align? || OpOnGrid(c, ops[i], Ones(ids), 1, 1)
  }

  predicate AlignsDivide(ops: seq<Op>, p: nat) {
    forall i :: 0 <= i < |ops| && ops[i].Align? && ops[i].staticAlignment.Some? ==> Multiple(p, ops[i].staticAlignment.value)
  }

  /** Every member of a list of fixed size, and the end of it, stands as far from `origin` as the
      analysis lays it out. */
  predicate Stands(y: Sink, room: Room, ops: seq<Op>, o: Fields, env: Env, pen: Pen, depth: nat, origin: nat, laid: u64)
    requires FixedMembers(y.c, ops, laid, {}).Some?
    decreases |ops|
  {
    && pen.p == origin + laid
    && (ops != [] ==>
          var b := WriteMember(y, room, ops[0], o, env, pen, depth);
          b.Ok? && Stands(y, room, ops[1..], o, b.value.env, b.value.pen, depth, origin, Next(y.c, ops[0], laid, ops[1..])))
  }

  /** Where the analysis lays out what follows the first member. */
  function Next(c: Context, op: Op, laid: u64, rest: seq<Op>): (next: u64)
    requires FixedMembers(c, [op] + rest, laid, {}).Some?
    ensures FixedMembers(c, rest, next, {}) == FixedMembers(c, [op] + rest, laid, {})
    ensures Step(c, op, StartAt(laid), {}) == Ok(StartAt(next)) && !op.At?
  {
    assert ([op] + rest)[1..] == rest;
    match op
    case Alias(_, _, _, _) => laid
    case Field(_, _, ty, _, _, _) =>
      FixedSizeIsExact(c, ty, {});
      laid + FixedSize(c, ty, {}).value
    case Bits(group) => laid + StorageBytes(group)
    case Align(_, known) => AlignUp(laid, known.value)
  }

  /** One member of the list, written from where the analysis lays it out. */
  lemma MemberStands(y: Sink, room: Room, op: Op, o: Fields, env: Env, pen: Pen, depth: nat, ids: set<SymbolId>, origin: nat, laid: u64, next: u64)
    requires PlanOnGrid(y.c, Ones(ids)) && (op.Align? || OpOnGrid(y.c, op, Ones(ids), 1, 1)) && !op.At?
    requires Step(y.c, op, StartAt(laid), {}) == Ok(StartAt(next)) && pen.p == origin + laid
    requires WriteMember(y, room, op, o, env, pen, depth).Ok?
    ensures WriteMember(y, room, op, o, env, pen, depth).value.pen.p == origin + next <==> AlignsDivide([op], origin)
  {
    hide WriteField, WriteBits, WriteAt, WriteBlock, WriteVariant, WriteMembers, PlanOnGrid, MemberRange, OpOnGrid, Fill;
    if op.Align? {
      AlignShift(origin, laid, op.staticAlignment.value);
      assert [op][0] == op;
    } else {
      FactorMultiple(pen.p, 1, pen.p);
      BoundsSound.MemberFits(y, room, op, o, env, pen, depth, Ones(ids), 1, 1, {});
    }
  }

  /** A list of fixed size stands as it is laid out exactly when it starts at a multiple of every
      alignment in it: one alignment that does not divide the start displaces what follows it,
      whatever extent it is reached at. */
  lemma {:induction false} ListStands(y: Sink, room: Room, ops: seq<Op>, o: Fields, env: Env, pen: Pen, depth: nat, ids: set<SymbolId>, origin: nat, laid: u64)
    requires PlanOnGrid(y.c, Ones(ids)) && AlignedList(y.c, ops, ids) && FixedMembers(y.c, ops, laid, {}).Some?
    requires pen.p == origin + laid && WriteOps(y, room, ops, o, env, pen, depth).Ok?
    ensures Stands(y, room, ops, o, env, pen, depth, origin, laid) <==> AlignsDivide(ops, origin)
    decreases |ops|
  {
    hide WriteMember, PlanOnGrid, OpOnGrid, FixedMembers, Multiple, Step;
    if ops != [] {
      assert ops == [ops[0]] + ops[1..];
      var next := Next(y.c, ops[0], laid, ops[1..]);
      var b := WriteMember(y, room, ops[0], o, env, pen, depth).value;
      MemberStands(y, room, ops[0], o, env, pen, depth, ids, origin, laid, next);
      DivideSplit(ops, origin);
      if b.pen.p == origin + next {
        ListStands(y, room, ops[1..], o, b.env, b.pen, depth, ids, origin, next);
      }
    }
  }

  lemma DivideSplit(ops: seq<Op>, p: nat)
    requires ops != []
    ensures AlignsDivide(ops, p) <==> AlignsDivide([ops[0]], p) && AlignsDivide(ops[1..], p)
  {
    hide Multiple;
    assert [ops[0]][0] == ops[0];
    assert forall i :: 0 < i < |ops| ==> ops[i] == ops[1..][i - 1];
    assert forall i :: 0 <= i < |ops[1..]| ==> ops[1..][i] == ops[i + 1];
  }

  // ----- element boundaries -----

  /** Each element alone passes the tests of strict mode and takes at least one byte. */
  predicate StrictElements(c: Context, room: Room, t: Type, vs: seq<Value>, env: Env, pen: Pen, depth: nat)
    decreases |vs|
  {
    vs == [] ||
    (var first := WriteBase(Sink(c, true), room, t.base, vs[0], env, pen, depth);
     first.Ok? && first.value.pen.p > pen.p && StrictElements(c, room, t, vs[1..], env, first.value.pen, depth))
  }

  /** The positions at which the elements start. */
  function Boundaries(c: Context, room: Room, t: Type, vs: seq<Value>, env: Env, pen: Pen, depth: nat): seq<nat>
    requires StrictElements(c, room, t, vs, env, pen, depth)
    decreases |vs|
  {
    if vs == [] then []
    else [pen.p] + Boundaries(c, room, t, vs[1..], env, WriteBase(Sink(c, true), room, t.base, vs[0], env, pen, depth).value.pen, depth)
  }

  predicate AllClear(d: seq<byte>, t: seq<byte>, ps: seq<nat>) {
    forall p :: p in ps ==> !LooksTerminated(d, p, t)
  }

  lemma ClearStep(d: seq<byte>, t: seq<byte>, p: nat, ps: seq<nat>)
    ensures AllClear(d, t, [p] + ps) <==> !LooksTerminated(d, p, t) && AllClear(d, t, ps)
  {
    assert p in [p] + ps;
    forall q | q in ps ensures q in [p] + ps { }
  }

  /** One step of an encode of such elements as it is. */
  lemma ElementStep(c: Context, room: Room, t: Type, vs: seq<Value>, start: nat, bound: Option<u64>, env: Env, pen: Pen, depth: nat) returns (first: Written, rest: WrittenAll)
    requires t.maxPayload.Some? && vs != [] && StrictElements(c, room, t, vs, env, pen, depth) && AtEnd(room, pen)
    requires WriteSeq(Sink(c, false), room, t, vs, start, bound, env, pen, depth).Ok?
    ensures WriteBase(Sink(c, true), room, t.base, vs[0], env, pen, depth) == Ok(first)
    ensures AtEnd(room, first.pen) && pen.d <= first.pen.d && pen.p < first.pen.p <= start + t.maxPayload.value
    ensures WriteSeq(Sink(c, false), room, t, vs[1..], start, bound, env, first.pen, depth) == Ok(rest)
    ensures WriteSeq(Sink(c, false), room, t, vs, start, bound, env, pen, depth) == Ok(WrittenAll(rest.pen, [first.v] + rest.vs))
  {
    hide WriteBase;
    first := WriteBase(Sink(c, true), room, t.base, vs[0], env, pen, depth).value;
    PlainWriteBase(Sink(c, true), room, t.base, vs[0], env, pen, depth);
    assert Plain(Sink(c, true)) == Sink(c, false);
    rest := WriteSeq(Sink(c, false), room, t, vs[1..], start, bound, env, first.pen, depth).value;
  }

  lemma {:induction false} SeqAppends(c: Context, room: Room, t: Type, vs: seq<Value>, start: nat, bound: Option<u64>, env: Env, pen: Pen, depth: nat)
    requires t.maxPayload.Some? && StrictElements(c, room, t, vs, env, pen, depth) && AtEnd(room, pen)
    requires WriteSeq(Sink(c, false), room, t, vs, start, bound, env, pen, depth).Ok?
    ensures var after := WriteSeq(Sink(c, false), room, t, vs, start, bound, env, pen, depth).value.pen;
            AtEnd(room, after) && pen.d <= after.d && pen.p + |t.terminator| <= after.p
    decreases |vs|
  {
    hide WriteBase;
    if vs != [] {
      var first, rest := ElementStep(c, room, t, vs, start, bound, env, pen, depth);
      SeqAppends(c, room, t, vs[1..], start, bound, env, first.pen, depth);
    }
  }

  /** Elements that read back one by one read back as a sequence exactly when no element boundary of
      the output looks like the terminator. The reader stops at the first that does. */
  lemma {:induction false} SeqReadsBackWhen(c: Context, room: Room, t: Type, vs: seq<Value>, start: nat, bound: Option<u64>, env: Env, pen: Pen, depth: nat, x: Source, w: Window)
    requires t.maxPayload.Some? && t.terminator != [] && StrictElements(c, room, t, vs, env, pen, depth)
    requires WriteSeq(Sink(c, false), room, t, vs, start, bound, env, pen, depth).Ok?
    requires AtEnd(room, pen) && room.zone == InSequence && start <= pen.p
    requires x.c == c && !x.strict && w.Within? && w.outside.limit == |x.d|
    requires var after := WriteSeq(Sink(c, false), room, t, vs, start, bound, env, pen, depth).value.pen;
             after.p <= w.limit <= |x.d| && after.d <= x.d
    ensures var r := WriteSeq(Sink(c, false), room, t, vs, start, bound, env, pen, depth).value;
            ReadSeq(x, w, t, start + t.maxPayload.value, env, Where(pen), depth) == Ok(Items(Where(r.pen), r.vs))
            <==> AllClear(r.pen.d, t.terminator, Boundaries(c, room, t, vs, env, pen, depth))
    decreases |vs|
  {
    hide WriteBase, ReadBase, ReadSeq, WriteSeq, Put, Overlay, AllClear, Grows;
    var r := WriteSeq(Sink(c, false), room, t, vs, start, bound, env, pen, depth).value;
    var n := |t.terminator|;
    if vs == [] {
      NoElements(c, room, t, start, bound, env, pen, depth, x, w);
      NoneToClear(r.pen.d, t.terminator);
    } else {
      var first, rest := ElementStep(c, room, t, vs, start, bound, env, pen, depth);
      SeqAppends(c, room, t, vs[1..], start, bound, env, first.pen, depth);
      PrefixSlice(r.pen.d, x.d, pen.p, n);
      ClearStep(r.pen.d, t.terminator, pen.p, Boundaries(c, room, t, vs[1..], env, first.pen, depth));
      TextIsRefused(Sink(c, true), room, t.base, vs[0], env, pen, depth);
      BaseReadBack(Sink(c, true), room, t.base, vs[0], env, pen, depth, x, w);
      SeqReadsBackWhen(c, room, t, vs[1..], start, bound, env, first.pen, depth, x, w);
      if LooksTerminated(r.pen.d, pen.p, t.terminator) {
        StopsAtOnce(x, w, t, start + t.maxPayload.value, env, Where(pen), depth);
      } else {
        ElementThenRest(x, w, t, start + t.maxPayload.value, env, Where(pen), depth, Item(Where(first.pen), first.v), Items(Where(r.pen), rest.vs));
      }
    }
  }

  /** Only the terminator. */
  lemma NoElements(c: Context, room: Room, t: Type, start: nat, bound: Option<u64>, env: Env, pen: Pen, depth: nat, x: Source, w: Window)
    requires t.maxPayload.Some? && WriteSeq(Sink(c, false), room, t, [], start, bound, env, pen, depth).Ok? && AtEnd(room, pen)
    requires w.Within? && w.outside.limit == |x.d|
    requires var after := WriteSeq(Sink(c, false), room, t, [], start, bound, env, pen, depth).value.pen;
             after.p <= w.limit <= |x.d| && after.d <= x.d
    ensures var r := WriteSeq(Sink(c, false), room, t, [], start, bound, env, pen, depth).value;
            ReadSeq(x, w, t, start + t.maxPayload.value, env, Where(pen), depth) == Ok(Items(Where(r.pen), r.vs))
  {
    hide ReadBase, WriteBase;
    TakeWritten(room, pen, WriteSeq(Sink(c, false), room, t, [], start, bound, env, pen, depth).value.pen, t.terminator, x, w);
  }

  lemma StopsAtOnce(x: Source, w: Window, t: Type, last: nat, env: Env, at: Cursor, depth: nat)
    requires at.pos + |t.terminator| <= w.limit <= |x.d| && w.Within? && w.outside.limit == |x.d|
    requires x.d[at.pos..at.pos + |t.terminator|] == t.terminator
    ensures ReadSeq(x, w, t, last, env, at, depth) == Ok(Items(Skip(at, |t.terminator|), []))
  {
  }

  lemma NoneToClear(d: seq<byte>, t: seq<byte>)
    ensures AllClear(d, t, [])
  {
  }

  /** A turn that reads an element: the sequence is as expected exactly when its rest is. */
  lemma ElementThenRest(x: Source, w: Window, t: Type, last: nat, env: Env, at: Cursor, depth: nat, first: Item, rest: Items)
    requires at.pos + |t.terminator| <= w.limit <= |x.d| && w.Within? && w.outside.limit == |x.d|
    requires x.d[at.pos..at.pos + |t.terminator|] != t.terminator
    requires ReadBase(x, w, t.base, env, at, depth) == Ok(first) && at.pos < first.at.pos <= last
    ensures ReadSeq(x, w, t, last, env, at, depth) == Ok(Items(rest.at, [first.v] + rest.vs))
            <==> ReadSeq(x, w, t, last, env, first.at, depth) == Ok(rest)
  {
    hide ReadBase;
    var got := ReadSeq(x, w, t, last, env, first.at, depth);
    if got.Ok? {
      assert ([first.v] + got.value.vs)[1..] == got.value.vs && ([first.v] + rest.vs)[1..] == rest.vs;
    }
  }

  /** The whole element form, with the limit that the reader pushes for it. */
  lemma SequenceReadsBackWhen(c: Context, room: Room, t: Type, v: Value, bound: Option<u64>, env: Env, pen: Pen, depth: nat, x: Source)
    requires t.maxPayload.Some? && t.terminator != [] && v.Arr? && AtEnd(room, pen) && x.c == c && !x.strict
    requires StrictElements(c, Room(room.limit, InSequence), t, v.items, env, pen, depth)
    requires WriteSequenceForm(Sink(c, false), room, t, v, bound, env, pen, depth).Ok?
    requires WriteSequenceForm(Sink(c, false), room, t, v, bound, env, pen, depth).value.pen.d <= x.d
    ensures var r := WriteSequenceForm(Sink(c, false), room, t, v, bound, env, pen, depth).value;
            ReadSequenceForm(x, Whole(|x.d|), t, env, Where(pen), depth) == Ok(Item(Where(r.pen), r.v))
            <==> AllClear(r.pen.d, t.terminator, Boundaries(c, Room(room.limit, InSequence), t, v.items, env, pen, depth))
  {
    hide WriteSeq, ReadSeq, StrictElements, AllClear, Grows;
    var inside := Room(room.limit, InSequence);
    var w := Whole(|x.d|);
    SeqAppends(c, inside, t, v.items, pen.p, bound, env, pen, depth);
    SeqEnd(Sink(c, false), inside, t, v.items, pen.p, bound, env, pen, depth);
    SeqReadsBackWhen(c, inside, t, v.items, pen.p, bound, env, pen, depth, x, ScanWindow(w, t, pen.p));
  }

  // ----- progress in element sequences -----

  /** A turn that reads an element of a fixed size, within the payload, stands still exactly when
      the size is zero. The loop of the decoder does not test for it and does not end then. */
  lemma TurnStallsWhenEmpty(x: Source, w: Window, t: Type, last: nat, env: Env, at: Cursor, depth: nat, ids: set<SymbolId>, k: u64)
    requires FixedElement(x.c, t.base, ids, k) && at.pos <= w.limit <= |x.d|
    requires at.pos + |t.terminator| <= w.limit ==>
      x.d[at.pos..at.pos + |t.terminator|] != t.terminator && (w.Within? ==> w.outside.limit == |x.d|)
    requires at.pos < last && at.pos + k <= last && ReadBase(x, w, t.base, env, at, depth).Ok?
    ensures SeqTurn(x, w, t, last, env, at, depth) == Fail(NoProgress) <==> k == 0
    ensures k == 0 ==> ReadSeq(x, w, t, last, env, at, depth) == Fail(NoProgress)
  {
    hide ReadBase;
    ElementTakes(x, w, t.base, env, at, depth, ids, k);
  }

  lemma ElementTakes(x: Source, w: Window, base: Base, env: Env, at: Cursor, depth: nat, ids: set<SymbolId>, k: u64)
    requires FixedElement(x.c, base, ids, k) && at.pos <= w.limit && ReadBase(x, w, base, env, at, depth).Ok?
    ensures ReadBase(x, w, base, env, at, depth).value.at.pos == at.pos + k
  {
    hide ReadBase, BaseRange, FixedBase;
    FixedBaseIsExact(x.c, base, {});
    BoundsDecode.BaseTakes(x, w, base, env, at, depth, Ones(ids), 1, {});
  }

  /** A sequence whose elements take at least one byte by their bounds always moves on. */
  lemma ElementsAdvance(x: Source, w: Window, base: Base, env: Env, at: Cursor, depth: nat, grid: Grid, g: nat)
    requires at.pos <= w.limit && PlanOnGrid(x.c, grid) && BaseOnGrid(x.c.plan, base, grid, g) && Multiple(at.pos, g)
    requires BaseRange(x.c, base, {}).Ok? && BaseRange(x.c, base, {}).value.min >= 1
    requires ReadBase(x, w, base, env, at, depth).Ok?
    ensures ReadBase(x, w, base, env, at, depth).value.at.pos > at.pos
  {
    BoundsDecode.BaseTakes(x, w, base, env, at, depth, grid, g, {});
  }
}
