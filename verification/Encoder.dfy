/** The writing interpreter: a class with an environment, a recursion counter and a writer. Each
    method is proved against the function of module `Encode` that describes it. */
module Encoder {
  import opened Outcome
  import opened Bytes
  import opened Expr
  import opened Plan
  import opened Terminator
  import opened Checks
  import opened Writer
  import D = Decode
  import E = Encode

  /** The part of a description that the writer and the environment show. */
  ghost function Effect(said: Result<E.Batch>): Result<(E.Pen, Env)> {
    if said.Ok? then Ok((said.value.pen, said.value.env)) else Fail(said.error)
  }

  ghost function PenOf(said: Result<E.WrittenAll>): Result<E.Pen> {
    if said.Ok? then Ok(said.value.pen) else Fail(said.error)
  }

  lemma NextOp(y: E.Sink, room: E.Room, ops: seq<Op>, i: nat, o: Fields, env: Env, pen: E.Pen, depth: nat)
    requires i < |ops|
    ensures var b := E.WriteMember(y, room, ops[i], o, env, pen, depth);
            Effect(E.WriteOps(y, room, ops[i..], o, env, pen, depth)) ==
              if b.Ok? then Effect(E.WriteOps(y, room, ops[i + 1..], o, b.value.env, b.value.pen, depth)) else Fail(b.error)
  {
    assert ops[i..][0] == ops[i] && ops[i..][1..] == ops[i + 1..];
  }

  lemma NextElem(y: E.Sink, room: E.Room, base: Base, dims: seq<Dim>, vs: seq<Value>, i: nat, env: Env, pen: E.Pen, depth: nat)
    requires i < |vs|
    ensures var v := E.WriteDims(y, room, base, dims, vs[i], env, pen, depth);
            PenOf(E.WriteElems(y, room, base, dims, vs[i..], env, pen, depth)) ==
              if v.Ok? then PenOf(E.WriteElems(y, room, base, dims, vs[i + 1..], env, v.value.pen, depth)) else Fail(v.error)
  {
    assert vs[i..][0] == vs[i] && vs[i..][1..] == vs[i + 1..];
  }

  lemma NextSeqElem(y: E.Sink, room: E.Room, t: Type, vs: seq<Value>, i: nat, start: nat, bound: Option<u64>, env: Env, pen: E.Pen, depth: nat)
    requires i < |vs| && t.maxPayload.Some? && !y.strict
    ensures var v := E.WriteBase(y, room, t.base, vs[i], env, pen, depth);
            PenOf(E.WriteSeq(y, room, t, vs[i..], start, bound, env, pen, depth)) ==
              if v.Fail? then Fail(v.error)
              else if v.value.pen.p > start + t.maxPayload.value then Fail(LimitExceeded)
              else PenOf(E.WriteSeq(y, room, t, vs[i + 1..], start, bound, env, v.value.pen, depth))
  {
    assert vs[i..][0] == vs[i] && vs[i..][1..] == vs[i + 1..];
  }

  /** The container and the environment after the fields from `i` on, over `high`. */
  ghost function PackedOver(high: nat, said: Result<(nat, Env, Fields)>): Result<(nat, Env)> {
    if said.Ok? then Ok((high + said.value.0, said.value.1)) else Fail(said.error)
  }

  lemma NextBitsField(y: E.Sink, g: seq<BitsField>, i: nat, o: Fields, env: Env, high: nat)
    requires i < |g| && TotalBits(g[i..]) <= 64 && !y.strict
    ensures TotalBits(g[i..]) == g[i].bits + TotalBits(g[i + 1..])
    ensures var f := g[i];
            PackedOver(high, E.WriteBitsFields(y, g[i..], o, env)) ==
              if f.name !in o then Fail(MissingField)
              else if E.AsU64(o[f.name]).None? then Fail(ValueMismatch)
              else
                var u := E.AsU64(o[f.name]).value;
                if !Matches(f.assertion, Num(U(u))) then Fail(AssertionMismatch)
                else if u >= Pow2(f.bits) then Fail(ValueMismatch)
                else PackedOver(high + Shift(u, TotalBits(g[i + 1..])), E.WriteBitsFields(y, g[i + 1..], o, env[f.symbol := U(u)]))
  {
    assert g[i..][0] == g[i] && g[i..][1..] == g[i + 1..];
  }

  /** A bits group: its fields, then its container. */
  lemma GroupEffect(y: E.Sink, room: E.Room, g: BitsGroup, o: Fields, env: Env, pen: E.Pen)
    requires !y.strict
    ensures var got := E.WriteBitsFields(y, g, o, env);
            Effect(E.WriteBits(y, room, g, o, env, pen)) ==
              if got.Fail? then Fail(got.error)
              else
                var after := E.Put(room, pen.(order := g[0].order), Pack(E.Padded(got.value.0, PaddingBits(g)), StorageBytes(g), g[0].order));
                if after.Ok? then Ok((after.value, got.value.1)) else Fail(after.error)
  {
  }

  lemma AlignEffect(y: E.Sink, room: E.Room, e: Expr, known: Option<u64>, env: Env, pen: E.Pen)
    ensures var a := D.SizeOf(y.c, known, e, env);
            Effect(E.WriteAlign(y, room, e, known, env, pen)) ==
              if a.Fail? then Fail(a.error)
              else if a.value == 0 then Fail(ZeroAlignment)
              else
                var after := E.PutZeros(room, pen, D.AlignUp(pen.p, a.value) - pen.p);
                if after.Ok? then Ok((after.value, env)) else Fail(after.error)
  {
  }

  /** A block: its members, then zeros up to its end. */
  lemma BlockEffect(y: E.Sink, room: E.Room, op: Op, o: Fields, env: Env, pen: E.Pen, depth: nat, n: u64)
    requires op.Block? && D.SizeOf(y.c, op.staticSize, op.size, env) == Ok(n) && pen.p + n <= room.limit
    ensures var inner := E.Room(pen.p + n, E.InBlock);
            var b := E.WriteMembers(y, inner, op.members, o, env, pen, depth);
            Effect(E.WriteBlock(y, room, op, o, env, pen, depth)) ==
              if b.Fail? then Fail(b.error)
              else if b.value.pen.p > inner.limit then Fail(BeyondLimit)
              else if b.value.pen.p < inner.limit && !y.c.options.allowTrailingBlockBytes then Fail(ValueMismatch)
              else
                var after := E.PutZeros(inner, b.value.pen, inner.limit - b.value.pen.p);
                if after.Ok? then Ok((after.value, b.value.env)) else Fail(after.error)
  {
  }

  class Encoder {
    const c: Context
    const w: Writer
    var env: Env
    var recursionDepth: nat

    ghost predicate Valid()
      reads this, w
    {
      w.Valid() && w.bitTotal == w.bitCount == 0 && recursionDepth <= c.options.maxRecursionDepth
    }

    ghost function Output(): E.Sink {
      E.Sink(c, false)
    }

    ghost function Room(zone: E.Zone): E.Room
      reads w
    {
      E.Room(w.limit, zone)
    }

    ghost function Budget(): nat
      requires recursionDepth <= c.options.maxRecursionDepth
      reads this
    {
      c.options.maxRecursionDepth - recursionDepth
    }

    /** A result agrees with its description; on success the writer stands where it says. */
    ghost predicate Wrote(said: Result<E.Pen>, res: Result<bool>)
      reads this, w
    {
      if said.Fail? then res == Fail(said.error) else res == Ok(true) && w.Valid() && w.Here() == said.value
    }

    ghost function Pen(said: Result<E.Written>): Result<E.Pen> {
      if said.Ok? then Ok(said.value.pen) else Fail(said.error)
    }

    ghost predicate Did(said: Result<(E.Pen, Env)>, res: Result<bool>)
      reads this, w
    {
      if said.Fail? then res == Fail(said.error)
      else res == Ok(true) && w.Valid() && w.Here() == said.value.0 && env == said.value.1
    }

    constructor (c: Context, w: Writer)
      requires w.Valid() && w.bitTotal == w.bitCount == 0
      ensures Valid() && this.c == c && this.w == w && env == map[] && recursionDepth == 0
    {
      this.c := c;
      this.w := w;
      env := map[];
      recursionDepth := 0;
    }

    method WriteInt(t: IntType, v: Value, ghost zone: E.Zone) returns (res: Result<bool>)
      requires Valid()
      modifies w
      ensures Wrote(Pen(E.WriteInt(Output(), old(Room(zone)), t, v, old(w.Here()))), res)
      ensures res.Ok? ==> Valid() && w.limit == old(w.limit) && w.limits == old(w.limits)
    {
      var n := t.width.Count();
      var ok;
      if t.signed {
        var x := E.AsI64(v);
        if x.None? || !(x.value + Pow2(8 * n - 1) >= 0 && x.value < Pow2(8 * n - 1)) {
          return Fail(ValueMismatch);
        }
        ok := w.UInt(x.value % TWO_64, n);
      } else {
        var x := E.AsU64(v);
        if x.None? || x.value >= Pow2(8 * n) {
          return Fail(ValueMismatch);
        }
        ok := w.UInt(x.value, n);
      }
      if !ok {
        return Fail(BeyondLimit);
      }
      res := Ok(true);
    }

    method WriteText(base: Base, dims: seq<Dim>, v: Value, bound: Option<u64>, ghost zone: E.Zone) returns (res: Result<bool>)
      requires Valid()
      modifies w
      ensures Wrote(Pen(E.WriteText(Output(), old(Room(zone)), base, dims, v, bound, env, old(w.Here()))), res)
      ensures res.Ok? ==> Valid() && w.limit == old(w.limit) && w.limits == old(w.limits)
    {
      var wanted: Option<u64> := None;
      if dims != [] && dims[0].Fixed? {
        var n :- EvalSize(c.fp, dims[0].e, env);
        wanted := Some(n);
      }
      var b :- E.TextBytes(base, v);
      if wanted.Some? && |b| != wanted.value {
        return Fail(ValueMismatch);
      }
      if bound.Some? && |b| > bound.value {
        return Fail(ValueMismatch);
      }
      var ok := w.PutBytes(b);
      if !ok {
        return Fail(BeyondLimit);
      }
      res := Ok(true);
    }

    method WriteTerminatedBytes(t: seq<byte>, max: u64, v: Value, bound: Option<u64>, ghost zone: E.Zone) returns (res: Result<bool>)
      requires Valid()
      modifies w
      ensures Wrote(Pen(E.WriteTerminatedBytes(Output(), old(Room(zone)), t, max, v, bound, old(w.Here()))), res)
      ensures res.Ok? ==> Valid() && w.limit == old(w.limit) && w.limits == old(w.limits)
    {
      if !v.Blob? {
        return Fail(ValueMismatch);
      }
      if |v.bytes| > max {
        return Fail(LimitExceeded);
      }
      if First(v.bytes, t).Some? {
        return Fail(ValueMismatch);
      }
      if bound.Some? && |v.bytes| + |t| > bound.value {
        return Fail(ValueMismatch);
      }
      var ok := w.PutBytes(v.bytes);
      if !ok {
        return Fail(BeyondLimit);
      }
      ok := w.PutBytes(t);
      if !ok {
        return Fail(BeyondLimit);
      }
      PutTwice(old(w.d), old(w.p), v.bytes, t);
      assert E.Put(old(Room(zone)), old(w.Here()), v.bytes + t) == Ok(w.Here());
      res := Ok(true);
    }

    lemma PutTwice(d: seq<byte>, p: nat, a: seq<byte>, b: seq<byte>)
      requires p <= |d|
      ensures E.Overlay(E.Overlay(d, p, a), p + |a|, b) == E.Overlay(d, p, a + b)
    {
      var once := E.Overlay(d, p, a);
      assert once[..p + |a|] == d[..p] + a;
      if p + |a + b| <= |d| {
        assert once[p + |a| + |b|..] == d[p + |a + b|..];
      }
    }

    /** The elements of a sequence, one after the other. */
    method SequenceElements(t: Type, vs: seq<Value>, start: nat, bound: Option<u64>) returns (res: Result<bool>)
      requires Valid() && t.maxPayload.Some? && start <= w.p
      modifies this, w
      ensures var y, room := Output(), E.Room(old(w.limit), E.InSequence);
              PenOf(E.WriteSeq(y, room, t, vs, start, bound, old(env), old(w.Here()), old(Budget()))) ==
                if res.Fail? then Fail(res.error)
                else if w.Valid() then PenOf(E.WriteSeq(y, room, t, [], start, bound, old(env), w.Here(), old(Budget())))
                else Fail(NotStrict)
      ensures res.Ok? ==> Valid() && w.limit == old(w.limit) && w.limits == old(w.limits) && env == old(env) && recursionDepth == old(recursionDepth)
      ensures res.Ok? ==> start <= w.p
      decreases Budget(), 0, 1, 0
    {
      ghost var y, room := Output(), E.Room(w.limit, E.InSequence);
      ghost var said := PenOf(E.WriteSeq(y, room, t, vs, start, bound, env, w.Here(), Budget()));
      assert vs[0..] == vs;
      var i := 0;
      while i < |vs|
        invariant i <= |vs| && Valid() && w.limit == old(w.limit) && w.limits == old(w.limits)
        invariant env == old(env) && recursionDepth == old(recursionDepth) && start <= w.p
        invariant said == PenOf(E.WriteSeq(y, room, t, vs[i..], start, bound, env, w.Here(), Budget()))
      {
        NextSeqElem(y, room, t, vs, i, start, bound, env, w.Here(), Budget());
        var got := WriteBase(t.base, vs[i], E.InSequence);
        if got.Fail? {
          return got;
        }
        if w.p - start > t.maxPayload.value {
          return Fail(LimitExceeded);
        }
        i := i + 1;
      }
      assert vs[i..] == [];
      res := Ok(true);
    }

    /** The elements, then the terminator. */
    method WriteSequence(t: Type, v: Value, bound: Option<u64>, ghost zone: E.Zone) returns (res: Result<bool>)
      requires Valid() && t.maxPayload.Some?
      modifies this, w
      ensures Wrote(Pen(E.WriteSequenceForm(Output(), old(Room(zone)), t, v, bound, old(env), old(w.Here()), old(Budget()))), res)
      ensures res.Ok? ==> Valid() && w.limit == old(w.limit) && w.limits == old(w.limits) && env == old(env) && recursionDepth == old(recursionDepth)
      decreases Budget(), 0, 2, 0
    {
      if !v.Arr? {
        return Fail(ValueMismatch);
      }
      var start := w.p;
      var written := SequenceElements(t, v.items, start, bound);
      if written.Fail? {
        return written;
      }
      if bound.Some? && w.p - start + |t.terminator| > bound.value {
        return Fail(ValueMismatch);
      }
      var ok := w.PutBytes(t.terminator);
      if !ok {
        return Fail(BeyondLimit);
      }
      res := Ok(true);
    }

    method WriteTerminated(t: Type, v: Value, bound: Option<u64>, ghost zone: E.Zone) returns (res: Result<bool>)
      requires Valid()
      modifies this, w
      ensures Wrote(Pen(E.WriteTerminated(Output(), old(Room(zone)), t, v, bound, old(env), old(w.Here()), old(Budget()))), res)
      ensures res.Ok? ==> Valid() && w.limit == old(w.limit) && w.limits == old(w.limits) && env == old(env) && recursionDepth == old(recursionDepth)
      decreases Budget(), 0, 2, 1
    {
      if t.maxPayload.None? || !(t.IsByteForm() || t.IsSequenceForm()) {
        return Fail(InvalidType);
      }
      if t.IsByteForm() {
        res := WriteTerminatedBytes(t.terminator, t.maxPayload.value, v, bound, zone);
      } else {
        res := WriteSequence(t, v, bound, zone);
      }
    }

    method WriteType(t: Type, v: Value, bound: Option<u64>, ghost zone: E.Zone) returns (res: Result<bool>)
      requires Valid()
      modifies this, w
      ensures Wrote(Pen(E.WriteType(Output(), old(Room(zone)), t, v, bound, old(env), old(w.Here()), old(Budget()))), res)
      ensures res.Ok? ==> Valid() && w.limit == old(w.limit) && w.limits == old(w.limits) && env == old(env) && recursionDepth == old(recursionDepth)
      decreases Budget(), 0, 2 * |t.dims| + 3, 0
    {
      if t.terminator != [] {
        res := WriteTerminated(t, v, bound, zone);
      } else if t.base.IsText() {
        res := WriteText(t.base, t.dims, v, bound, zone);
      } else {
        res := WriteArray(t.base, t.dims, v, zone);
      }
    }

    method WriteArray(base: Base, dims: seq<Dim>, v: Value, ghost zone: E.Zone) returns (res: Result<bool>)
      requires Valid()
      modifies this, w
      ensures Wrote(Pen(E.WriteDims(Output(), old(Room(zone)), base, dims, v, old(env), old(w.Here()), old(Budget()))), res)
      ensures res.Ok? ==> Valid() && w.limit == old(w.limit) && w.limits == old(w.limits) && env == old(env) && recursionDepth == old(recursionDepth)
      decreases Budget(), 0, 2 * |dims| + 1, 0
    {
      hide E.WriteBase, E.Grows, E.Overlay;
      if dims == [] {
        res := WriteBase(base, v, zone);
        return;
      }
      var counted := CountElements(c, dims, env);
      if counted.Fail? {
        return Fail(counted.error);
      }
      if !v.Arr? || |v.items| != counted.value {
        return Fail(ValueMismatch);
      }
      ghost var y, room := Output(), Room(zone);
      ghost var said := PenOf(E.WriteElems(y, room, base, dims[1..], v.items, env, w.Here(), Budget()));
      assert v.items[0..] == v.items;
      var i := 0;
      while i < |v.items|
        invariant i <= |v.items| && Valid() && w.limit == old(w.limit) && w.limits == old(w.limits)
        invariant env == old(env) && recursionDepth == old(recursionDepth)
        invariant said == PenOf(E.WriteElems(y, room, base, dims[1..], v.items[i..], env, w.Here(), Budget()))
      {
        NextElem(y, room, base, dims[1..], v.items, i, env, w.Here(), Budget());
        var got := WriteArray(base, dims[1..], v.items[i], zone);
        if got.Fail? {
          return got;
        }
        i := i + 1;
      }
      assert v.items[i..] == [];
      res := Ok(true);
    }

    method WriteBase(base: Base, v: Value, ghost zone: E.Zone) returns (res: Result<bool>)
      requires Valid()
      modifies this, w
      ensures Wrote(Pen(E.WriteBase(Output(), old(Room(zone)), base, v, old(env), old(w.Here()), old(Budget()))), res)
      ensures res.Ok? ==> Valid() && w.limit == old(w.limit) && w.limits == old(w.limits) && env == old(env) && recursionDepth == old(recursionDepth)
      decreases Budget(), 0, 0, 0
    {
      hide E.WriteMembers, E.Put;
      match base
      case Primitive(it) => res := WriteInt(it, v, zone);
      case Named(id) =>
        if id in c.plan.structs {
          if !v.Obj? {
            return Fail(ValueMismatch);
          }
          if recursionDepth + 1 > c.options.maxRecursionDepth {
            return Fail(TooDeep);
          }
          recursionDepth := recursionDepth + 1;
          res := WriteStruct(c.plan.structs[id], v.fields, zone);
          if res.Ok? {
            recursionDepth := recursionDepth - 1;
          }
        } else if id in c.plan.enums {
          res := WriteInt(c.plan.enums[id], v, zone);
        } else {
          return Fail(InvalidType);
        }
      case _ => res := WriteText(base, [], v, None, zone);
    }

    /** The environment is saved, extended by the size properties and put back. */
    method WriteStruct(s: Struct, o: Fields, ghost zone: E.Zone) returns (res: Result<bool>)
      requires Valid()
      modifies this, w
      ensures Wrote(Pen(E.WriteStruct(Output(), old(Room(zone)), s, o, old(env), old(w.Here()), old(Budget()))), res)
      ensures res.Ok? ==> Valid() && w.limit == old(w.limit) && w.limits == old(w.limits) && env == old(env) && recursionDepth == old(recursionDepth)
      decreases Budget(), 2
    {
      var saved := env;
      env := WithSizes(s, env);
      w.SetOrder(s.order);
      var done := Members(s.members, o, zone);
      if done.Fail? {
        return done;
      }
      var checked := TestRequirements(c.fp, s.requirements, env);
      if checked.Fail? {
        return checked;
      }
      env := saved;
      res := Ok(true);
    }

    /** Values given for aliases are bound to their targets before any member is written. */
    method BindAliases(ops: seq<Op>, o: Fields) returns (res: Result<bool>)
      requires Valid()
      modifies this`env
      ensures var said := E.BindAliases(c, ops, o, old(env));
              if said.Fail? then res == Fail(said.error) else res == Ok(true) && env == said.value
      ensures Valid()
    {
      assert ops[0..] == ops;
      var i := 0;
      while i < |ops|
        invariant i <= |ops| && Valid()
        invariant E.BindAliases(c, ops, o, old(env)) == E.BindAliases(c, ops[i..], o, env)
      {
        assert ops[i..][0] == ops[i] && ops[i..][1..] == ops[i + 1..];
        var a := ops[i];
        i := i + 1;
        if !a.Alias? || a.name !in o {
          continue;
        }
        if a.target !in c.plan.kinds || !c.plan.kinds[a.target].FieldKind? {
          return Fail(ValueMismatch);
        }
        if !o[a.name].Num? {
          return Fail(ValueMismatch);
        }
        var v := o[a.name].s;
        if a.targetName in o && !SameNumber(c.fp, Runtime(o[a.targetName]), v) {
          return Fail(ValueMismatch);
        }
        if a.target in env && !SameNumber(c.fp, env[a.target], v) {
          return Fail(ValueMismatch);
        }
        env := env[a.target := v];
      }
      res := Ok(true);
    }

    method Members(ops: seq<Op>, o: Fields, ghost zone: E.Zone) returns (res: Result<bool>)
      requires Valid()
      modifies this, w
      ensures Did(Effect(E.WriteMembers(Output(), old(Room(zone)), ops, o, old(env), old(w.Here()), old(Budget()))), res)
      ensures res.Ok? ==> Valid() && w.limit == old(w.limit) && w.limits == old(w.limits) && recursionDepth == old(recursionDepth)
      decreases Budget(), 1, ops, 1
    {
      hide E.WriteMember, E.BindAliases, E.Grows;
      var bound := BindAliases(ops, o);
      if bound.Fail? {
        return bound;
      }
      ghost var y, room := Output(), Room(zone);
      ghost var said := Effect(E.WriteOps(y, room, ops, o, env, w.Here(), Budget()));
      assert ops[0..] == ops;
      var i := 0;
      while i < |ops|
        invariant i <= |ops| && Valid() && w.limit == old(w.limit) && w.limits == old(w.limits) && recursionDepth == old(recursionDepth)
        invariant said == Effect(E.WriteOps(y, room, ops[i..], o, env, w.Here(), Budget()))
      {
        NextOp(y, room, ops, i, o, env, w.Here(), Budget());
        var got := Member(ops[i], o, zone);
        if got.Fail? {
          return got;
        }
        i := i + 1;
      }
      assert ops[i..] == [];
      res := Ok(true);
    }

    method Member(op: Op, o: Fields, ghost zone: E.Zone) returns (res: Result<bool>)
      requires Valid()
      modifies this, w
      ensures Did(Effect(E.WriteMember(Output(), old(Room(zone)), op, o, old(env), old(w.Here()), old(Budget()))), res)
      ensures res.Ok? ==> Valid() && w.limit == old(w.limit) && w.limits == old(w.limits) && recursionDepth == old(recursionDepth)
      decreases Budget(), 1, op, 1
    {
      hide E.WriteMembers, Eval;
      match op
      case Field(_, _, _, _, _, _) => res := WriteField(op, o, zone);
      case Virtual(symbol, _, e) =>
        var v :- Eval(c.fp, e, env);
        env := env[symbol := v];
        res := Ok(true);
      case Alias(symbol, _, target, _) =>
        if target !in env {
          return Fail(AliasUnavailable);
        }
        env := env[symbol := env[target]];
        res := Ok(true);
      case Bits(group) => res := WriteBits(group, o, zone);
      case Align(e, known) => res := WriteAlign(e, known, zone);
      case At(_, _, _) => res := WriteAt(op, o, zone);
      case Block(_, _, _) => res := WriteBlock(op, o, zone);
      case Conditional(condition, thenMembers, elseMembers) =>
        var b :- EvalBool(c.fp, condition, env);
        res := Members(if b then thenMembers else elseMembers, o, zone);
      case Variant(_, _, _, _) => res := WriteVariant(op, o, zone);
    }

    method WriteField(op: Op, o: Fields, ghost zone: E.Zone) returns (res: Result<bool>)
      requires Valid() && op.Field?
      modifies this, w
      ensures Did(Effect(E.WriteField(Output(), old(Room(zone)), op, o, old(env), old(w.Here()), old(Budget()))), res)
      ensures res.Ok? ==> Valid() && w.limit == old(w.limit) && w.limits == old(w.limits) && recursionDepth == old(recursionDepth)
      decreases Budget(), 1, op, 0
    {
      hide E.WriteType, E.Grows, Matches;
      var v: Value;
      if op.name in o {
        v := o[op.name];
      } else if op.symbol in env {
        v := Num(env[op.symbol]);
      } else {
        return Fail(MissingField);
      }
      w.SetOrder(op.order);
      if !Matches(op.assertion, v) {
        return Fail(AssertionMismatch);
      }
      var before := w.p;
      var done := WriteType(op.ty, v, op.staticLength, zone);
      if done.Fail? {
        return done;
      }
      if op.staticLength.Some? && w.p != before + op.staticLength.value {
        return Fail(ValueMismatch);
      }
      env := env[op.symbol := Runtime(v)];
      res := Ok(true);
    }

    method WriteBits(g: BitsGroup, o: Fields, ghost zone: E.Zone) returns (res: Result<bool>)
      requires Valid()
      modifies this, w
      ensures Did(Effect(E.WriteBits(Output(), old(Room(zone)), g, o, old(env), old(w.Here()))), res)
      ensures res.Ok? ==> Valid() && w.limit == old(w.limit) && w.limits == old(w.limits) && recursionDepth == old(recursionDepth)
    {
      GroupIsPositive(g);
      GroupEffect(Output(), Room(zone), g, o, env, w.Here());
      w.SetOrder(g[0].order);
      var _ := w.BeginBits(TotalBits(g));
      var packed := PutFields(g, o);
      if packed.Fail? {
        return packed;
      }
      res := CloseGroup(g, zone);
    }

    /** The full container goes to the output. */
    method CloseGroup(g: BitsGroup, ghost zone: E.Zone) returns (res: Result<bool>)
      requires w.Valid() && w.bitTotal == w.bitCount == TotalBits(g) > 0
      modifies w
      ensures Wrote(E.Put(old(Room(zone)), old(w.Here()), Pack(E.Padded(old(w.bits), PaddingBits(g)), StorageBytes(g), old(w.order))), res)
      ensures res.Ok? ==> w.bitTotal == w.bitCount == 0 && w.limit == old(w.limit) && w.limits == old(w.limits)
    {
      assert 8 * ((w.bitTotal + 7) / 8) - w.bitTotal == PaddingBits(g);
      var ok := w.EndBits();
      res := if ok then Ok(true) else Fail(BeyondLimit);
    }

    method PutFields(g: BitsGroup, o: Fields) returns (res: Result<bool>)
      requires w.Valid() && w.bitTotal == TotalBits(g) && w.bitCount == 0 && w.bits == 0
      modifies this`env, w`bits, w`bitCount
      ensures w.Valid()
      ensures var said := E.WriteBitsFields(Output(), g, o, old(env));
              if said.Fail? then res == Fail(said.error)
              else res == Ok(true) && w.bits == said.value.0 && env == said.value.1 && w.bitCount == w.bitTotal
    {
      hide E.AsU64, Matches, Pow2, Shift;
      ghost var y := Output();
      ghost var said := PackedOver(0, E.WriteBitsFields(y, g, o, env));
      assert g[0..] == g;
      var i := 0;
      while i < |g|
        invariant i <= |g| && w.Valid() && w.bitTotal == TotalBits(g)
        invariant w.bitTotal - w.bitCount == TotalBits(g[i..]) <= 64
        invariant said == PackedOver(w.bits, E.WriteBitsFields(y, g[i..], o, env))
      {
        NextBitsField(y, g, i, o, env, w.bits);
        assert g[i] in g;
        var put := PutField(g[i], o);
        if put.Fail? {
          return Fail(put.error);
        }
        env := env[g[i].symbol := U(put.value)];
        i := i + 1;
      }
      assert g[i..] == [];
      res := Ok(true);
    }

    /** One field of a bits group. */
    method PutField(f: BitsField, o: Fields) returns (res: Result<u64>)
      requires w.Valid() && 1 <= f.bits <= w.bitTotal - w.bitCount
      modifies w`bits, w`bitCount
      ensures w.Valid()
      ensures res ==
        if f.name !in o then Fail(MissingField)
        else match E.AsU64(o[f.name])
             case None => Fail(ValueMismatch)
             case Some(u) =>
               if !Matches(f.assertion, Num(U(u))) then Fail(AssertionMismatch)
               else if u >= Pow2(f.bits) then Fail(ValueMismatch)
               else Ok(u)
      ensures res.Ok? ==> w.bitCount == old(w.bitCount) + f.bits && w.bits == old(w.bits) + Shift(res.value, w.bitTotal - w.bitCount)
    {
      if f.name !in o {
        return Fail(MissingField);
      }
      var x := E.AsU64(o[f.name]);
      if x.None? {
        return Fail(ValueMismatch);
      }
      if !Matches(f.assertion, Num(U(x.value))) {
        return Fail(AssertionMismatch);
      }
      AllOnes(x.value, f.bits);
      var ok := w.Bit(x.value, f.bits);
      if !ok {
        return Fail(ValueMismatch);
      }
      res := Ok(x.value);
    }

    /** The width test is not needed for 64 bits. */
    lemma AllOnes(v: u64, width: nat)
      requires width <= 64
      ensures width == 64 ==> v < Pow2(width)
    {
      Pow2At64();
    }

    method WriteAlign(e: Expr, known: Option<u64>, ghost zone: E.Zone) returns (res: Result<bool>)
      requires Valid()
      modifies w
      ensures Did(Effect(E.WriteAlign(Output(), old(Room(zone)), e, known, env, old(w.Here()))), res)
      ensures res.Ok? ==> Valid() && w.limit == old(w.limit) && w.limits == old(w.limits)
    {
      AlignEffect(Output(), Room(zone), e, known, env, w.Here());
      var a :- D.SizeOf(c, known, e, env);
      if a == 0 {
        return Fail(ZeroAlignment);
      }
      var ok := w.Align(a);
      if !ok {
        return Fail(BeyondLimit);
      }
      res := Ok(true);
    }

    method WriteAt(op: Op, o: Fields, ghost zone: E.Zone) returns (res: Result<bool>)
      requires Valid() && op.At?
      modifies this, w
      ensures Did(Effect(E.WriteAt(Output(), old(Room(zone)), op, o, old(env), old(w.Here()), old(Budget()))), res)
      ensures res.Ok? ==> Valid() && w.limit == old(w.limit) && w.limits == old(w.limits) && recursionDepth == old(recursionDepth)
      decreases Budget(), 1, op, 0
    {
      hide E.WriteMembers, E.Grows, Eval;
      var off :- D.SizeOf(c, op.staticOffset, op.offset, env[NEXT := U(w.p)]);
      var saved := w.p;
      var ok := w.Seek(off);
      if !ok {
        return Fail(BeyondLimit);
      }
      var done := Members(op.members, o, zone);
      if done.Fail? {
        return done;
      }
      var _ := w.Seek(saved);
      res := Ok(true);
    }

    method WriteBlock(op: Op, o: Fields, ghost zone: E.Zone) returns (res: Result<bool>)
      requires Valid() && op.Block?
      modifies this, w
      ensures Did(Effect(E.WriteBlock(Output(), old(Room(zone)), op, o, old(env), old(w.Here()), old(Budget()))), res)
      ensures res.Ok? ==> Valid() && w.limit == old(w.limit) && w.limits == old(w.limits) && recursionDepth == old(recursionDepth)
      decreases Budget(), 1, op, 0
    {
      hide E.WriteMembers, E.PutZeros, E.Fill, Eval, EvalSize;
      var n :- D.SizeOf(c, op.staticSize, op.size, env);
      var start := w.p;
      var ok := w.PushLimit(n);
      if !ok {
        return Fail(BeyondLimit);
      }
      BlockEffect(Output(), E.Room(old(w.limit), zone), op, o, env, w.Here(), Budget(), n);
      ghost var said := E.WriteMembers(Output(), Room(E.InBlock), op.members, o, env, w.Here(), Budget());
      var done := Members(op.members, o, E.InBlock);
      if done.Fail? {
        return done;
      }
      assert said.Ok? && said.value.pen == w.Here() && said.value.env == env;
      res := CloseBlock(start, n);
    }

    /** The slack of a block is filled with zeros, or refused. */
    method CloseBlock(start: nat, n: nat) returns (res: Result<bool>)
      requires Valid() && start <= w.p && w.limit == start + n
      requires w.limits != [] && w.limit <= w.limits[|w.limits| - 1] <= U64_MAX
      modifies w
      ensures Wrote(if old(w.p) > start + n then Fail(BeyondLimit)
                    else if old(w.p) < start + n && !c.options.allowTrailingBlockBytes then Fail(ValueMismatch)
                    else E.PutZeros(E.Room(start + n, E.InBlock), old(w.Here()), start + n - old(w.p)), res)
      ensures res.Ok? ==> Valid() && w.limit == old(w.limits)[|old(w.limits)| - 1] && w.limits == old(w.limits)[..|old(w.limits)| - 1]
    {
      var used := w.p - start;
      if used > n {
        return Fail(BeyondLimit);
      }
      if used < n && !c.options.allowTrailingBlockBytes {
        return Fail(ValueMismatch);
      }
      var _ := w.WriteZeros(n - used);
      var _ := w.PopLimit();
      res := Ok(true);
    }

    method WriteVariant(op: Op, o: Fields, ghost zone: E.Zone) returns (res: Result<bool>)
      requires Valid() && op.Variant?
      modifies this, w
      ensures Did(Effect(E.WriteVariant(Output(), old(Room(zone)), op, o, old(env), old(w.Here()), old(Budget()))), res)
      ensures res.Ok? ==> Valid() && w.limit == old(w.limit) && w.limits == old(w.limits) && recursionDepth == old(recursionDepth)
      decreases Budget(), 1, op, 0
    {
      if op.name !in o {
        return Fail(MissingField);
      }
      if !o[op.name].Obj? {
        return Fail(ValueMismatch);
      }
      var tag :- Eval(c.fp, op.discriminator, env);
      match ChooseCase(c.fp, op.cases, tag) {
        case Some(i) => res := WriteBranch(op.cases[i].body, o[op.name].fields, zone);
        case None =>
          if op.default.None? {
            return Fail(NoVariantCase);
          }
          res := WriteBranch(op.default.value, o[op.name].fields, zone);
      }
    }

    method WriteBranch(b: Branch, o: Fields, ghost zone: E.Zone) returns (res: Result<bool>)
      requires Valid()
      modifies this, w
      ensures Did(Effect(E.WriteBranch(Output(), old(Room(zone)), b, o, old(env), old(w.Here()), old(Budget()))), res)
      ensures res.Ok? ==> Valid() && w.limit == old(w.limit) && w.limits == old(w.limits) && recursionDepth == old(recursionDepth)
      decreases Budget(), 1, b, 0
    {
      match b
      case Typed(t) =>
        if "value" !in o {
          return Fail(MissingField);
        }
        res := WriteType(t, o["value"], None, zone);
      case Listed(members) => res := Members(members, o, zone);
    }

    /** `run`: parameters, constants and enum items are bound, then the root struct is written. */
    method Run(id: SymbolId, v: Value, parameters: Env) returns (res: Result<bool>)
      requires Valid() && recursionDepth == 0 && w.Here() == E.Ink([], 0, Little) && w.limit == U64_MAX
      modifies this, w
      ensures Wrote(Pen(E.EncodeStruct(Output(), id, v, parameters)), res)
    {
      if id !in c.plan.structs {
        return Fail(InvalidType);
      }
      var start :- InitialEnv(c.plan, parameters);
      env := start;
      res := WriteBase(Named(id), v, E.Root);
    }
  }
}
