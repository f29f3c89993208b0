/** What an encode leaves in its output, against the format and for the parts that strict mode does not
    know, `at` regions and fields that are given by an alias; and exactly what the encoder accepts. */
module EncodeFormat {
  import opened Outcome
  import opened Bytes
  import opened Expr
  import opened Plan
  import opened Terminator
  import opened Decode
  import opened Encode
  import opened Strict
  import opened RoundTrip
  import BitPacking
  import Format
  import FormatRead
  import FormatComplete
  import Logical
  import Prunes

  /** In what a strict encode writes, followed by any bytes, the logical value lies, and by
      `FormatComplete` no other value does. */
  lemma EncodedLies(c: Context, id: SymbolId, v: Value, parameters: Env, rest: seq<byte>)
    requires EncodeStruct(Sink(c, true), id, v, parameters).Ok?
    ensures var out := EncodeStruct(Sink(c, true), id, v, parameters).value.pen;
            var w := Logical.LogicalValue(c, id, v, parameters);
            && w.Some? && Format.Lies(c, out.d + rest, id, parameters, Cursor(|out.d|, out.order), w.value)
            && forall to, u :: Format.Lies(c, out.d + rest, id, parameters, to, u) ==> to == Cursor(|out.d|, out.order) && u == w.value
  {
    hide EncodeStruct, DecodeStruct, Format.Lies, Logical.LogicalValue;
    StrictRoundTrip(c, id, v, parameters, rest);
    Logical.EncodeWritesLogicalValue(Sink(c, true), id, v, parameters);
    var out := EncodeStruct(Sink(c, true), id, v, parameters).value.pen;
    var x := Source(c, out.d + rest, false);
    FormatRead.DecodeLies(x, id, parameters);
    forall to, u | Format.Lies(c, out.d + rest, id, parameters, to, u)
      ensures to == Cursor(|out.d|, out.order) && u == Logical.LogicalValue(c, id, v, parameters).value
    {
      FormatComplete.LyingIsRead(c, out.d + rest, id, parameters, to, u);
    }
  }

  /** An `at` region that is written at or behind the end of the output reads back: the decoder, where
      the encoder stood, goes to the region, returns its entries, and comes back. What stood before
      the region is kept, and the gap is filled by zeros. */
  lemma RegionReadsBack(c: Context, room: Room, op: Op, o: Fields, env: Env, pen: Pen, depth: nat, x: Source, w: Window, off: u64)
    requires op.At? && x.c == c && !x.strict && Faces(room, x, w) && pen.p <= U64_MAX
    requires SizeOf(c, op.staticOffset, op.offset, env[NEXT := U(pen.p)]) == Ok(off) && |pen.d| <= off <= room.limit && off <= w.limit
    requires WriteMembers(Sink(c, true), room, op.members, o, env, Ink(pen.d + Zeros(off - |pen.d|), off, pen.order), depth).Ok?
    requires var inner := WriteMembers(Sink(c, true), room, op.members, o, env, Ink(pen.d + Zeros(off - |pen.d|), off, pen.order), depth).value.pen;
             inner.p <= w.limit && inner.d <= x.d
    ensures var r := WriteMember(Sink(c, false), room, op, o, env, pen, depth);
            && r.Ok? && r.value.pen.p == pen.p && pen.d + Zeros(off - |pen.d|) <= r.value.pen.d
            && ReadMember(x, w, op, env, Where(pen), depth) == Ok(Group(Where(r.value.pen), r.value.env, r.value.fields))
  {
    hide WriteMembers, ReadMembers, Eval, Overlay;
    var start: Pen := Ink(pen.d + Zeros(off - |pen.d|), off, pen.order);
    PlainWriteMembers(Sink(c, true), room, op.members, o, env, start, depth);
    assert Plain(Sink(c, true)) == Sink(c, false);
    MembersReadBack(Sink(c, true), room, op.members, o, env, start, depth, x, w);
    assert pen.d + Zeros(0) == pen.d;
    assert WriteMember(Sink(c, false), room, op, o, env, pen, depth) == WriteAt(Sink(c, false), room, op, o, env, pen, depth);
    assert ReadMember(x, w, op, env, Where(pen), depth) == ReadAt(x, w, op, env, Where(pen), depth);
  }

  /** A number given for an alias of a field is written like the same number given for the field: the
      encoder binds it to the symbol of the field and takes the field from there. */
  lemma AliasGivesField(y: Sink, room: Room, op: Op, o: Fields, s: Scalar, env: Env, pen: Pen, depth: nat)
    requires !y.strict && op.Field? && op.name !in o && op.symbol in env && env[op.symbol] == s
    ensures WriteField(y, room, op, o, env, pen, depth) == WriteField(y, room, op, o[op.name := Num(s)], env, pen, depth)
  {
    hide WriteType, Matches;
  }

  // ----- what the encoder accepts -----

  /** An integer of either tag is accepted exactly when it is in the range of the type and the bytes
      fit. They are then the positional number, in two's complement, in the byte order in force. */
  lemma IntIsWritten(y: Sink, room: Room, t: IntType, v: Value, pen: Pen)
    requires !y.strict
    ensures var n := t.width.Count();
            var inRange := v.Num? && v.s.IsInteger()
                           && if t.signed then v.s.Int() + Pow2(8 * n - 1) >= 0 && v.s.Int() < Pow2(8 * n - 1) else 0 <= v.s.Int() < Pow2(8 * n);
            var r := WriteInt(y, room, t, v, pen);
            && (!inRange ==> r == Fail(ValueMismatch))
            && (inRange && pen.p + n > room.limit ==> r == Fail(BeyondLimit))
            && (inRange && pen.p + n <= room.limit ==>
                  && r.Ok? && r.value.pen.p == pen.p + n && r.value.pen.order == pen.order
                  && r.value.v == Num(if t.signed then I(v.s.Int()) else U(v.s.Int()))
                  && exists b :: |b| == n && r.value.pen.d == Overlay(pen.d, pen.p, b) && Format.Digits(b, pen.order) == v.s.Int() % Pow2(8 * n))
  {
    hide Overlay, Format.Digits, Pack;
    var n := t.width.Count();
    RangeOfWidth(n);
    if v.Num? && v.s.IsInteger() {
      if t.signed && AsI64(v).Some? {
        FormatRead.PackIsDigits(v.s.Int() % TWO_64, n, pen.order);
        ModOfWidth(v.s.Int(), n);
      } else if !t.signed && AsU64(v).Some? {
        FormatRead.PackIsDigits(v.s.Int(), n, pen.order);
      }
    }
  }

  lemma RangeOfWidth(n: nat)
    requires 1 <= n <= 8
    ensures Pow2(8 * n) <= U64_MAX + 1 && Pow2(8 * n - 1) <= I64_MAX + 1
  {
    Pow2Monotone(8 * n, 64);
    Pow2Monotone(8 * n - 1, 63);
    Pow2At64();
    assert Pow2(64) == 2 * Pow2(63);
  }

  lemma ModOfWidth(i: int, n: nat)
    requires 1 <= n <= 8
    ensures (i % TWO_64) % Pow2(8 * n) == i % Pow2(8 * n)
  {
    Pow2Add(8 * n, 64 - 8 * n);
    Pow2At64();
    ModOfMod(i, Pow2(8 * n), Pow2(64 - 8 * n));
  }

  /** A byte string is accepted exactly when it is of the base type, has a `Fixed` extent that is its
      length if it has one, is no longer than the static length, and fits; its bytes are then written as
      they are. */
  lemma TextIsWritten(y: Sink, room: Room, base: Base, dims: seq<Dim>, v: Value, bound: Option<u64>, env: Env, pen: Pen)
    requires !y.strict && base.IsText()
    ensures var r := WriteText(y, room, base, dims, v, bound, env, pen);
            r.Ok? <==>
              && ((v.Blob? && base.BytesBase?) || (v.Text? && base.StringBase?))
              && var b := if v.Blob? then v.bytes else v.text;
                 && (dims != [] && dims[0].Fixed? ==> Format.Amounts(y.c.fp, dims[0].e, env, |b|))
                 && (bound.Some? ==> |b| <= bound.value) && pen.p + |b| <= room.limit
    ensures var r := WriteText(y, room, base, dims, v, bound, env, pen);
            r.Ok? ==> r.value.v == v && r.value.pen.order == pen.order
                      && r.value.pen.d == Overlay(pen.d, pen.p, if v.Blob? then v.bytes else v.text)
  {
    hide Overlay;
    if dims != [] && dims[0].Fixed? && EvalSize(y.c.fp, dims[0].e, env).Ok? {
      FormatRead.ExtentAmounts(y.c.fp, dims[0].e, env);
    }
    if dims != [] && dims[0].Fixed? && v.Blob? && Format.Amounts(y.c.fp, dims[0].e, env, |v.bytes|) {
      FormatComplete.AmountIsSize(y.c.fp, dims[0].e, env, |v.bytes|);
    }
    if dims != [] && dims[0].Fixed? && v.Text? && Format.Amounts(y.c.fp, dims[0].e, env, |v.text|) {
      FormatComplete.AmountIsSize(y.c.fp, dims[0].e, env, |v.text|);
    }
  }

  /** Terminated bytes are accepted exactly when they are no longer than the maximum, hold no
      terminator, and fit with it. */
  lemma PayloadIsWritten(y: Sink, room: Room, t: seq<byte>, max: u64, v: Value, bound: Option<u64>, pen: Pen)
    requires !y.strict && t != []
    ensures var r := WriteTerminatedBytes(y, room, t, max, v, bound, pen);
            && (r.Ok? <==>
                  && v.Blob? && |v.bytes| <= max && (forall j :: 0 <= j <= |v.bytes| - |t| ==> !OccursAt(v.bytes, t, j))
                  && (bound.Some? ==> |v.bytes| + |t| <= bound.value) && pen.p + |v.bytes| + |t| <= room.limit)
            && (r.Ok? ==> r.value.v == v && r.value.pen.order == pen.order && r.value.pen.d == Overlay(pen.d, pen.p, v.bytes + t))
  {
    hide Overlay;
    if v.Blob? {
      assert First(v.bytes, t).Some? ==> OccursAt(v.bytes, t, First(v.bytes, t).value);
    }
  }

  /** An array is accepted only with as many items as the mathematical value of its first extent. */
  lemma ArrayIsWritten(y: Sink, room: Room, base: Base, dims: seq<Dim>, v: Value, env: Env, pen: Pen, depth: nat)
    requires dims != [] && ArrayExtents(y.c, dims, env).Ok?
    ensures WriteDims(y, room, base, dims, v, env, pen, depth).Ok? <==>
              && v.Arr? && Format.Amounts(y.c.fp, dims[0].e, env, |v.items|)
              && WriteElems(y, room, base, dims[1..], v.items, env, pen, depth).Ok?
    ensures !(v.Arr? && Format.Amounts(y.c.fp, dims[0].e, env, |v.items|)) ==> WriteDims(y, room, base, dims, v, env, pen, depth) == Fail(ValueMismatch)
  {
    hide WriteElems, Grows;
    var ns := ArrayExtents(y.c, dims, env).value;
    FormatRead.ExtentsAmount(y.c, dims, env);
    assert Format.Amounts(y.c.fp, dims[0].e, env, ns[0]);
  }

  /** Elements written one after the other from the first pen to the last. */
  ghost predicate IsRun(y: Sink, room: Room, base: Base, vs: seq<Value>, env: Env, depth: nat, pens: seq<Pen>, ws: seq<Value>) {
    && |pens| == |vs| + 1 && |ws| == |vs|
    && forall i :: 0 <= i < |vs| ==> WriteBase(y, room, base, vs[i], env, pens[i], depth) == Ok(Written(pens[i + 1], ws[i]))
  }

  /** Each element ends within the largest payload, and the terminator has room behind the last. */
  predicate MayEnd(room: Room, t: Type, start: nat, bound: Option<u64>, pens: seq<Pen>)
    requires pens != [] && t.maxPayload.Some?
  {
    var end := pens[|pens| - 1].p;
    && (forall i :: 1 <= i < |pens| ==> pens[i].p <= start + t.maxPayload.value)
    && end + |t.terminator| <= room.limit && (bound.Some? ==> end - start + |t.terminator| <= bound.value)
  }

  /** A terminated sequence is accepted exactly when its elements can be written one after the other,
      each ends within the largest payload, and the terminator has room behind them. */
  lemma {:induction false} SequenceIsWritten(y: Sink, room: Room, t: Type, vs: seq<Value>, start: nat, bound: Option<u64>, env: Env, pen: Pen, depth: nat)
    requires !y.strict && t.maxPayload.Some?
    ensures WriteSeq(y, room, t, vs, start, bound, env, pen, depth).Ok? <==>
              exists pens: seq<Pen>, ws: seq<Value> :: IsRun(y, room, t.base, vs, env, depth, pens, ws) && pens[0] == pen && MayEnd(room, t, start, bound, pens)
    ensures forall pens: seq<Pen>, ws: seq<Value> :: IsRun(y, room, t.base, vs, env, depth, pens, ws) && pens[0] == pen && MayEnd(room, t, start, bound, pens) ==>
              WriteSeq(y, room, t, vs, start, bound, env, pen, depth) == Ok(WrittenAll(Put(room, pens[|vs|], t.terminator).value, ws))
    decreases |vs|
  {
    forall pens: seq<Pen>, ws: seq<Value> | IsRun(y, room, t.base, vs, env, depth, pens, ws) && pens[0] == pen && MayEnd(room, t, start, bound, pens)
      ensures WriteSeq(y, room, t, vs, start, bound, env, pen, depth) == Ok(WrittenAll(Put(room, pens[|vs|], t.terminator).value, ws))
    {
      ElementsAreWritten(y, room, t, vs, start, bound, env, pen, depth, pens, ws);
    }
    if WriteSeq(y, room, t, vs, start, bound, env, pen, depth).Ok? {
      WrittenIsRun(y, room, t, vs, start, bound, env, pen, depth);
    }
  }

  lemma {:induction false} ElementsAreWritten(y: Sink, room: Room, t: Type, vs: seq<Value>, start: nat, bound: Option<u64>, env: Env, pen: Pen, depth: nat, pens: seq<Pen>, ws: seq<Value>)
    requires !y.strict && t.maxPayload.Some?
    requires IsRun(y, room, t.base, vs, env, depth, pens, ws) && pens[0] == pen && MayEnd(room, t, start, bound, pens)
    ensures WriteSeq(y, room, t, vs, start, bound, env, pen, depth) == Ok(WrittenAll(Put(room, pens[|vs|], t.terminator).value, ws))
    decreases |vs|
  {
    hide WriteBase, Overlay, Grows;
    if vs == [] {
      assert ws == [];
    } else {
      ElementsAreWritten(y, room, t, vs[1..], start, bound, env, pens[1], depth, pens[1..], ws[1..]);
      assert ws == [ws[0]] + ws[1..];
    }
  }

  lemma {:induction false} WrittenIsRun(y: Sink, room: Room, t: Type, vs: seq<Value>, start: nat, bound: Option<u64>, env: Env, pen: Pen, depth: nat)
    requires !y.strict && t.maxPayload.Some? && WriteSeq(y, room, t, vs, start, bound, env, pen, depth).Ok?
    ensures exists pens: seq<Pen>, ws: seq<Value> :: IsRun(y, room, t.base, vs, env, depth, pens, ws) && pens[0] == pen && MayEnd(room, t, start, bound, pens)
    decreases |vs|
  {
    hide WriteBase, Overlay, Grows;
    if vs == [] {
      assert IsRun(y, room, t.base, vs, env, depth, [pen], []) && MayEnd(room, t, start, bound, [pen]);
    } else {
      var first := WriteBase(y, room, t.base, vs[0], env, pen, depth).value;
      WrittenIsRun(y, room, t, vs[1..], start, bound, env, first.pen, depth);
      var rest: seq<Pen>, ws: seq<Value> :| IsRun(y, room, t.base, vs[1..], env, depth, rest, ws) && rest[0] == first.pen && MayEnd(room, t, start, bound, rest);
      var pens := [pen] + rest;
      forall i | 0 <= i < |vs| ensures WriteBase(y, room, t.base, vs[i], env, pens[i], depth) == Ok(Written(pens[i + 1], ([first.v] + ws)[i])) {
        if i > 0 { assert vs[i] == vs[1..][i - 1]; }
      }
      assert pens[|pens| - 1] == rest[|rest| - 1];
      assert IsRun(y, room, t.base, vs, env, depth, pens, [first.v] + ws) && MayEnd(room, t, start, bound, pens);
    }
  }

  /** A field is accepted exactly when it is given, by its own name or bound before, satisfies its
      assertion, can be written, and takes its static length. */
  lemma FieldIsWritten(y: Sink, room: Room, op: Op, o: Fields, env: Env, pen: Pen, depth: nat)
    requires !y.strict && op.Field?
    ensures op.name !in o && op.symbol !in env ==> WriteField(y, room, op, o, env, pen, depth) == Fail(MissingField)
    ensures op.name in o || op.symbol in env ==>
              var v := if op.name in o then o[op.name] else Num(env[op.symbol]);
              var w := WriteType(y, room, op.ty, v, op.staticLength, env, pen.(order := op.order), depth);
              var r := WriteField(y, room, op, o, env, pen, depth);
              && (!Format.Satisfies(op.assertion, v) ==> r == Fail(AssertionMismatch))
              && (r.Ok? <==> Format.Satisfies(op.assertion, v) && w.Ok? && (op.staticLength.Some? ==> w.value.pen.p == pen.p + op.staticLength.value))
              && (r.Ok? ==> r.value == Batch(w.value.pen, env[op.symbol := if v.Num? then v.s else I(0)], map[op.name := w.value.v]))
  {
    hide WriteType, Grows;
    var v := if op.name in o then o[op.name] else if op.symbol in env then Num(env[op.symbol]) else Null;
    assert Matches(op.assertion, v) <==> Format.Satisfies(op.assertion, v);
  }

  /** A conditional is written as the list that its condition selects. */
  lemma ConditionalIsWritten(y: Sink, room: Room, op: Op, o: Fields, env: Env, pen: Pen, depth: nat)
    requires op.Conditional?
    ensures Eval(y.c.fp, op.condition, env) == Ok(B(true)) ==>
              WriteMember(y, room, op, o, env, pen, depth) == WriteMembers(y, room, op.thenMembers, o, env, pen, depth)
    ensures Eval(y.c.fp, op.condition, env) == Ok(B(false)) ==>
              WriteMember(y, room, op, o, env, pen, depth) == WriteMembers(y, room, op.elseMembers, o, env, pen, depth)
    ensures Eval(y.c.fp, op.condition, env).Ok? && !Eval(y.c.fp, op.condition, env).value.B? ==>
              WriteMember(y, room, op, o, env, pen, depth) == Fail(ConditionNotBoolean)
  {
    hide WriteMembers, Grows;
  }

  /** Each field is given by an integer that its bits hold and its assertion allows. */
  predicate FieldsFit(fs: seq<BitsField>, o: Fields) {
    forall f :: f in fs ==>
      && f.name in o && o[f.name].Num? && o[f.name].s.IsInteger() && 0 <= o[f.name].s.Int() < Pow2(f.bits)
      && Format.Satisfies(f.assertion, o[f.name])
  }

  /** The entries are those of the object, up to the tags of the integers. */
  predicate Means(fields: Fields, o: Fields) {
    forall n :: n in fields ==>
      n in o && o[n].Num? && o[n].s.IsInteger() && fields[n].Num? && fields[n].s.U? && fields[n].s.u == o[n].s.Int()
  }

  lemma {:induction false} FieldsAreTaken(y: Sink, fs: seq<BitsField>, o: Fields, env: Env)
    requires !y.strict && TotalBits(fs) <= 64
    ensures WriteBitsFields(y, fs, o, env).Ok? <==> FieldsFit(fs, o)
    ensures WriteBitsFields(y, fs, o, env).Ok? ==> Means(WriteBitsFields(y, fs, o, env).value.2, o)
  {
    hide Shift, Pow2;
    if fs != [] {
      var f := fs[0];
      assert FieldsFit(fs, o) <==> FieldsFit([f], o) && FieldsFit(fs[1..], o) by {
        assert fs == [f] + fs[1..];
      }
      assert f in [f];
      if f.name in o && AsU64(o[f.name]).Some? {
        FieldsAreTaken(y, fs[1..], o, env[f.symbol := U(AsU64(o[f.name]).value)]);
      }
    }
  }

  /** A bits group is accepted exactly when each field is given by a fitting integer and the container
      fits; then its storage, in the order of the group and with zeros below the fields, holds these
      integers from the most significant bit on. */
  lemma GroupIsWritten(y: Sink, room: Room, g: BitsGroup, o: Fields, env: Env, pen: Pen)
    requires !y.strict
    ensures var r := WriteBits(y, room, g, o, env, pen);
            var n := StorageBytes(g);
            && (r.Ok? <==> FieldsFit(g, o) && pen.p + n <= room.limit)
            && (r.Ok? ==>
                  && r.value.pen.p == pen.p + n && r.value.pen.order == g[0].order && Means(r.value.fields, o)
                  && exists b: seq<byte> ::
                       && |b| == n && r.value.pen.d == Overlay(pen.d, pen.p, b)
                       && Format.BitsLie(g, Format.Digits(b, g[0].order), 8 * n, env, r.value.env, r.value.fields)
                       && Format.Digits(b, g[0].order) % Pow2(PaddingBits(g)) == 0)
  {
    hide Overlay, Grows, Pack, Padded, WriteBitsFields, Format.BitsLie, FieldsFit;
    FieldsAreTaken(y, g, o, env);
    var r := WriteBits(y, room, g, o, env, pen);
    if r.Ok? {
      var got := WriteBitsFields(y, g, o, env).value;
      var b := Pack(Padded(got.0, PaddingBits(g)), StorageBytes(g), g[0].order);
      GroupLiesPacked(y, g, o, env);
      assert |b| == StorageBytes(g) && r.value.pen.d == Overlay(pen.d, pen.p, b);
    }
  }

  lemma GroupLiesPacked(y: Sink, g: BitsGroup, o: Fields, env: Env)
    requires !y.strict && WriteBitsFields(y, g, o, env).Ok?
    ensures var got := WriteBitsFields(y, g, o, env).value;
            var raw := Format.Digits(Pack(Padded(got.0, PaddingBits(g)), StorageBytes(g), g[0].order), g[0].order);
            && Format.BitsLie(g, raw, 8 * StorageBytes(g), env, got.1, got.2)
            && raw % Pow2(PaddingBits(g)) == 0
  {
    hide Pack, Unpack, Padded, Unpadded, WriteBitsFields, ReadBitsFields, Format.BitsLie, Format.Digits;
    var got := WriteBitsFields(y, g, o, env).value;
    var b := Pack(Padded(got.0, PaddingBits(g)), StorageBytes(g), g[0].order);
    BitPacking.PackedBound(y, g, o, env);
    BitPacking.ContainerThroughBytes(got.0, g, g[0].order);
    BitPacking.SmallMod(got.0, Pow2(TotalBits(g)));
    BitPacking.BitsFieldsReadBack(y, Source(y.c, [], false), g, o, env, got.0);
    FormatRead.UnpackIsDigits(b, g[0].order);
    FormatRead.BitsAreRead(Source(y.c, [], false), g, Unpack(b, g[0].order), PaddingBits(g), env);
    PaddingStays(got.0, g);
  }

  lemma PaddingStays(k: nat, g: BitsGroup)
    requires k < Pow2(TotalBits(g))
    ensures Unpack(Pack(Padded(k, PaddingBits(g)), StorageBytes(g), g[0].order), g[0].order) % Pow2(PaddingBits(g)) == 0
  {
    hide Pack, Unpack;
    var unit := Pow2(PaddingBits(g));
    ShiftIsProduct(k, PaddingBits(g));
    Pow2Add(TotalBits(g), PaddingBits(g));
    UnpackPack(k * unit, StorageBytes(g), g[0].order);
    Scaled(k, unit, Pow2(TotalBits(g)));
    BitPacking.SmallMod(k * unit, Pow2(8 * StorageBytes(g)));
    assert k * unit == unit * k;
    MultipleMod(k, unit);
  }

  /** A variant is written as the first case whose tag is the discriminator, or else as its default. */
  lemma VariantIsWritten(y: Sink, room: Room, op: Op, o: Fields, env: Env, pen: Pen, depth: nat, tag: Scalar)
    requires op.Variant? && op.name in o && o[op.name].Obj? && Eval(y.c.fp, op.discriminator, env) == Ok(tag)
    ensures forall i :: 0 <= i < |op.cases| && Format.NoneIs(y.c.fp, op.cases, i, tag) && SameNumber(y.c.fp, op.cases[i].tag, tag) ==>
              IsWrittenAs(y, room, op, op.cases[i].body, o, env, pen, depth)
    ensures Format.NoneIs(y.c.fp, op.cases, |op.cases|, tag) && op.default.Some? ==>
              IsWrittenAs(y, room, op, op.default.value, o, env, pen, depth)
    ensures Format.NoneIs(y.c.fp, op.cases, |op.cases|, tag) && op.default.None? ==>
              WriteVariant(y, room, op, o, env, pen, depth) == Fail(NoVariantCase)
  {
    hide WriteBranch, Grows, SameNumber, Format.NoneIs;
    forall i | 0 <= i < |op.cases| && Format.NoneIs(y.c.fp, op.cases, i, tag) && SameNumber(y.c.fp, op.cases[i].tag, tag)
      ensures IsWrittenAs(y, room, op, op.cases[i].body, o, env, pen, depth)
    {
      FormatComplete.CaseIsFound(y.c.fp, op.cases, tag, i);
    }
    if Format.NoneIs(y.c.fp, op.cases, |op.cases|, tag) {
      FormatComplete.NoCaseIsFound(y.c.fp, op.cases, tag);
    }
  }

  predicate IsWrittenAs(y: Sink, room: Room, op: Op, body: Branch, o: Fields, env: Env, pen: Pen, depth: nat)
    requires op.Variant? && op.name in o && o[op.name].Obj?
  {
    var b := WriteBranch(y, room, body, o[op.name].fields, env, pen, depth);
    WriteVariant(y, room, op, o, env, pen, depth) ==
      if b.Fail? then Fail(b.error) else Ok(Batch(b.value.pen, b.value.env, map[op.name := Obj(b.value.fields)]))
  }

  /** A block is accepted exactly when its size is known and within the limit, its members can be
      written inside it, and they fill it unless slack is allowed; it ends at its size. */
  lemma BlockIsWritten(y: Sink, room: Room, op: Op, o: Fields, env: Env, pen: Pen, depth: nat, n: u64)
    requires !y.strict && op.Block? && Format.IsSize(y.c, op.staticSize, op.size, env, n)
    ensures var end := pen.p + n;
            var b := WriteMembers(y, Room(end, InBlock), op.members, o, env, pen, depth);
            var r := WriteBlock(y, room, op, o, env, pen, depth);
            && (r.Ok? <==> end <= room.limit && b.Ok? && b.value.pen.p <= end && (b.value.pen.p == end || y.c.options.allowTrailingBlockBytes))
            && (r.Ok? ==> r.value.pen.p == end && r.value.env == b.value.env && r.value.fields == b.value.fields)
  {
    hide WriteMembers, Grows, Fill, Format.IsSize;
    FormatComplete.SizeIsFound(y.c, op.staticSize, op.size, env, n);
  }

  /** The output with zeros behind it, so that it reaches `n`. */
  predicate IsStretched(d: seq<byte>, s: seq<byte>, n: nat) {
    && d <= s && |s| == (if |d| < n then n else |d|)
    && forall i :: |d| <= i < |s| ==> s[i] == 0
  }

  /** An `at` region is written at its offset, in front of the end of the output or behind it, over what
      stands there, and the position stays where it was. */
  lemma RegionIsWritten(y: Sink, room: Room, op: Op, o: Fields, env: Env, pen: Pen, depth: nat, off: u64, start: Pen)
    requires !y.strict && op.At? && pen.p <= U64_MAX && Format.IsSize(y.c, op.staticOffset, op.offset, env[NEXT := U(pen.p)], off)
    requires start.p == off && start.order == pen.order && IsStretched(pen.d, start.d, off)
    ensures var b := WriteMembers(y, room, op.members, o, env, start, depth);
            var r := WriteAt(y, room, op, o, env, pen, depth);
            && (r.Ok? <==> off <= room.limit && b.Ok?)
            && (r.Ok? ==> r.value == Batch(Ink(b.value.pen.d, pen.p, b.value.pen.order), b.value.env, b.value.fields))
  {
    hide WriteMembers, Grows, Format.IsSize;
    FormatComplete.SizeIsFound(y.c, op.staticOffset, op.offset, env[NEXT := U(pen.p)], off);
    assert start.d == if off > |pen.d| then pen.d + Zeros(off - |pen.d|) else pen.d;
  }

  /** A struct is accepted exactly when its members can be written and every requirement is true after
      them. */
  lemma StructIsWritten(y: Sink, room: Room, s: Struct, o: Fields, env: Env, inner: Env, pen: Pen, depth: nat)
    requires Format.Sized(s, env, inner)
    ensures var b := WriteMembers(y, room, s.members, o, inner, pen.(order := s.order), depth);
            var r := WriteStruct(y, room, s, o, env, pen, depth);
            && (r.Ok? <==> b.Ok? && Format.Required(y.c.fp, s.requirements, b.value.env))
            && (r.Ok? ==> r.value == Written(b.value.pen, Obj(b.value.fields)))
  {
    hide WriteMembers, Grows, WithSizes, Format.Sized, Format.Required, CheckRequirements;
    FormatComplete.SizesAreFound(s, env, inner);
    var b := WriteMembers(y, room, s.members, o, inner, pen.(order := s.order), depth);
    if b.Ok? {
      RequirementsAre(y.c.fp, s.requirements, b.value.env);
    }
  }

  /** A value of a named type is written as the struct, one level deeper, or as the integer of the enum,
      and is refused at the depth limit. */
  lemma NamedIsWritten(y: Sink, room: Room, id: SymbolId, v: Value, env: Env, pen: Pen, depth: nat)
    ensures id in y.c.plan.structs ==>
              var w := WriteBase(y, room, Named(id), v, env, pen, depth);
              && (w.Ok? <==> v.Obj? && depth > 0 && WriteStruct(y, room, y.c.plan.structs[id], v.fields, env, pen, depth - 1).Ok?)
              && (w.Ok? ==> w == WriteStruct(y, room, y.c.plan.structs[id], v.fields, env, pen, depth - 1))
              && (v.Obj? && depth == 0 ==> w == Fail(TooDeep))
    ensures id !in y.c.plan.structs && id in y.c.plan.enums ==>
              WriteBase(y, room, Named(id), v, env, pen, depth) == WriteInt(y, room, y.c.plan.enums[id], v, pen)
  {
    hide WriteStruct, WriteInt, Grows;
  }

  /** A run is accepted exactly when its parameters are the declared ones and its value can be written
      from an empty output, without a limit but the width of positions, in the environment of the
      parameters and the values of the module. */
  lemma RunIsWritten(c: Context, id: SymbolId, v: Value, parameters: Env)
    ensures var r := EncodeStruct(Sink(c, false), id, v, parameters);
            var w := WriteBase(Sink(c, false), Room(U64_MAX, Root), Named(id), v, parameters + c.plan.values, Ink([], 0, Little), c.options.maxRecursionDepth);
            && (r.Ok? <==> id in c.plan.structs && Format.Given(c.plan, parameters) && w.Ok?)
            && (r.Ok? ==> r == w)
  {
    hide WriteBase, Grows, InitialEnv, Format.Given;
    if Format.Given(c.plan, parameters) {
      FormatComplete.GivenIsInitial(c.plan, parameters);
    }
    if InitialEnv(c.plan, parameters).Ok? {
      FormatRead.ParametersAreGiven(c.plan, parameters);
    }
  }

  lemma RequirementsAre(f: FloatUnit, reqs: seq<Expr>, env: Env)
    ensures CheckRequirements(f, reqs, env).Ok? <==> Format.Required(f, reqs, env)
  {
    if CheckRequirements(f, reqs, env).Ok? {
      FormatRead.RequirementsHold(f, reqs, env);
    }
    if Format.Required(f, reqs, env) {
      FormatComplete.RequirementsPass(f, reqs, env);
    }
  }
}
