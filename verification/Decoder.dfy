/** The reading interpreter: a class with an environment, a recursion counter and a reader. Each
    method is proved against the function of module `Decode` that describes it. */
module Decoder {
  import opened Outcome
  import opened Bytes
  import opened Expr
  import opened Plan
  import opened Terminator
  import opened Reader
  import opened Checks
  import D = Decode

  /** The result of the operations that are done, followed by the rest. */
  ghost function Then(done: Fields, rest: Result<D.Group>): Result<D.Group> {
    if rest.Ok? then Ok(D.Group(rest.value.at, rest.value.env, Merge(done, rest.value.fields))) else rest
  }

  ghost function ThenItems(done: seq<Value>, rest: Result<D.Items>): Result<D.Items> {
    if rest.Ok? then Ok(D.Items(rest.value.at, Chain(done, rest.value.vs))) else rest
  }

  ghost function ThenBits(done: Fields, rest: Result<(Env, Fields)>): Result<(Env, Fields)> {
    if rest.Ok? then Ok((rest.value.0, Merge(done, rest.value.1))) else rest
  }

  lemma ThenMember(x: D.Source, w: D.Window, ops: seq<Op>, i: nat, done: Fields, env: Env, at: D.Cursor, depth: nat)
    requires i < |ops| && !x.strict
    ensures var g := D.ReadMember(x, w, ops[i], env, at, depth);
            Then(done, D.ReadMembers(x, w, ops[i..], env, at, depth)) ==
              if g.Ok? then Then(done + g.value.fields, D.ReadMembers(x, w, ops[i + 1..], g.value.env, g.value.at, depth))
              else g
  {
    assert ops[i..][0] == ops[i] && ops[i..][1..] == ops[i + 1..];
    var g := D.ReadMember(x, w, ops[i], env, at, depth);
    if g.Ok? {
      var h := D.ReadMembers(x, w, ops[i + 1..], g.value.env, g.value.at, depth);
      if h.Ok? {
        assert done + (g.value.fields + h.value.fields) == (done + g.value.fields) + h.value.fields;
      }
    }
  }

  lemma ThenElem(x: D.Source, w: D.Window, base: Base, dims: seq<Dim>, n: nat, done: seq<Value>, env: Env, at: D.Cursor, depth: nat)
    requires n > 0
    ensures var v := D.ReadDims(x, w, base, dims, env, at, depth);
            ThenItems(done, D.ReadElems(x, w, base, dims, n, env, at, depth)) ==
              if v.Ok? then ThenItems(done + [v.value.v], D.ReadElems(x, w, base, dims, n - 1, env, v.value.at, depth))
              else Fail(v.error)
  {
    hide D.ReadDims;
    var v := D.ReadDims(x, w, base, dims, env, at, depth);
    if v.Ok? {
      var rest := D.ReadElems(x, w, base, dims, n - 1, env, v.value.at, depth);
      if rest.Ok? {
        assert done + ([v.value.v] + rest.value.vs) == (done + [v.value.v]) + rest.value.vs;
      }
    }
  }

  lemma ThenTurn(x: D.Source, w: D.Window, t: Type, last: nat, done: seq<Value>, env: Env, at: D.Cursor, depth: nat)
    ensures ThenItems(done, D.ReadSeq(x, w, t, last, env, at, depth)) ==
      var turn := D.SeqTurn(x, w, t, last, env, at, depth);
      if turn.Fail? then Fail(turn.error)
      else if turn.value.None? then Ok(D.Items(D.Skip(at, |t.terminator|), done))
      else ThenItems(done + [turn.value.value.v], D.ReadSeq(x, w, t, last, env, turn.value.value.at, depth))
  {
    hide D.ReadBase;
    var turn := D.SeqTurn(x, w, t, last, env, at, depth);
    if turn.Ok? {
      if turn.value.None? {
        assert done + [] == done;
      } else {
        var item := turn.value.value;
        var rest := D.ReadSeq(x, w, t, last, env, item.at, depth);
        if rest.Ok? {
          assert done + ([item.v] + rest.value.vs) == (done + [item.v]) + rest.value.vs;
        }
      }
    }
  }

  lemma ThenBitsField(x: D.Source, g: seq<BitsField>, i: nat, container: nat, done: Fields, env: Env)
    requires i < |g| && TotalBits(g[i..]) <= 64 && !x.strict
    ensures TotalBits(g[i..]) == g[i].bits + TotalBits(g[i + 1..])
    ensures var f := g[i];
            var v := D.BitsOf(container, TotalBits(g[i + 1..]), f.bits);
            && v <= U64_MAX
            && ThenBits(done, D.ReadBitsFields(x, g[i..], container, env)) ==
              if Matches(f.assertion, Num(U(v)))
              then ThenBits(done + map[f.name := Num(U(v))], D.ReadBitsFields(x, g[i + 1..], container, env[f.symbol := U(v)]))
              else Fail(AssertionMismatch)
  {
    assert g[i..][0] == g[i] && g[i..][1..] == g[i + 1..];
    var f := g[i];
    var v := D.BitsOf(container, TotalBits(g[i + 1..]), f.bits);
    var rest := D.ReadBitsFields(x, g[i + 1..], container, env[f.symbol := U(v)]);
    if rest.Ok? {
      assert done + (map[f.name := Num(U(v))] + rest.value.1) == (done + map[f.name := Num(U(v))]) + rest.value.1;
    }
  }

  lemma ThenNoBits(x: D.Source, container: nat, done: Fields, env: Env)
    ensures ThenBits(done, D.ReadBitsFields(x, [], container, env)) == Ok((env, done))
  {
    assert done + map[] == done;
  }

  lemma EntryIsMap(o: Fields, n: Name, v: Value)
    ensures o[n := v] == o + map[n := v]
  {
  }

  lemma MoreFields(o: Fields, done: Fields, n: Name, v: Value)
    ensures (o + done)[n := v] == o + (done + map[n := v])
  {
  }

  class Decoder {
    const c: Context
    const r: Reader
    var env: Env
    var recursionDepth: nat

    ghost predicate Valid()
      reads this, r
    {
      r.Valid() && r.bitsLeft == 0 && recursionDepth <= c.options.maxRecursionDepth
    }

    ghost function Input(): D.Source {
      D.Source(c, r.d, false)
    }

    ghost function Budget(): nat
      requires recursionDepth <= c.options.maxRecursionDepth
      reads this
    {
      c.options.maxRecursionDepth - recursionDepth
    }

    /** A result agrees with its description; on success the reader stands where it says. */
    ghost predicate Gave(said: Result<D.Item>, res: Result<Value>)
      reads this, r
    {
      match said
      case Ok(item) => res == Ok(item.v) && r.Where() == item.at
      case Fail(e) => res == Fail(e)
    }

    ghost predicate Gathered(said: Result<D.Group>, before: Fields, res: Result<Fields>)
      reads this, r
    {
      match said
      case Ok(g) => res == Ok(Merge(before, g.fields)) && r.Where() == g.at && env == g.env
      case Fail(e) => res == Fail(e)
    }

    ghost predicate Unpacked(said: Result<(Env, Fields)>, order: Order, before: Fields, res: Result<Fields>)
      reads this, r
    {
      if said.Fail? then res == Fail(said.error)
      else res == Ok(Merge(before, said.value.1)) && env == said.value.0 && r.order == order
    }

    constructor (c: Context, r: Reader)
      requires r.Valid() && r.bitsLeft == 0
      ensures Valid() && this.c == c && this.r == r && env == map[] && recursionDepth == 0
    {
      this.c := c;
      this.r := r;
      env := map[];
      recursionDepth := 0;
    }

    method ReadInt(t: IntType) returns (res: Result<Value>)
      requires Valid()
      modifies r
      ensures Gave(D.ReadInt(Input(), old(r.Limits()), t, old(r.Where())), res)
      ensures res.Ok? ==> Valid() && r.Limits() == old(r.Limits())
    {
      var n := t.width.Count();
      if t.signed {
        var ok, i := r.SInt(n);
        if !ok {
          return Fail(BeyondLimit);
        }
        res := Ok(Num(I(i)));
      } else {
        var ok, u := r.UInt(n);
        if !ok {
          return Fail(BeyondLimit);
        }
        UnpackBound(r.d[old(r.p)..r.p], r.order);
        res := Ok(Num(U(u)));
      }
    }

    method ReadText(t: Type, bound: Option<u64>) returns (res: Result<Value>)
      requires Valid()
      modifies r
      ensures Gave(D.ReadText(Input(), old(r.Limits()), t, bound, env, old(r.Where())), res)
      ensures res.Ok? ==> Valid() && r.Limits() == old(r.Limits())
    {
      var n: nat;
      if t.dims != [] && t.dims[0].Remaining? {
        n := r.Left();
      } else if t.dims != [] {
        n :- EvalSize(c.fp, t.dims[0].e, env);
      } else if bound.Some? {
        n := bound.value;
      } else {
        return Fail(InvalidType);
      }
      if n > c.options.maxAllocationBytes {
        return Fail(LimitExceeded);
      }
      var ok, b := r.TakeBytes(n);
      if !ok {
        return Fail(BeyondLimit);
      }
      return Ok(D.MakeText(t.base, b));
    }

    /** The byte form: bytes are collected until the terminator ends them. */
    method ScanBytes(t: seq<byte>, max: u64) returns (res: Result<Value>)
      requires Valid() && t != []
      modifies r
      ensures Gave(D.ReadTerminatedBytes(Input(), old(r.Limits()), t, max, old(r.Where())), res)
      ensures res.Ok? ==> Valid() && r.Limits() == old(r.Limits())
    {
      hide First, OccursAt;
      var saved := r.Save();
      var found, payload := ScanFor(t, max + |t|);
      if found {
        return Ok(Blob(payload));
      }
      var _ := r.Restore(saved);
      return Fail(NoTerminator);
    }

    method ScanFor(t: seq<byte>, scanLimit: nat) returns (found: bool, payload: seq<byte>)
      requires Valid() && t != []
      modifies r`p
      ensures Valid()
      ensures var s := r.d[old(r.p)..old(r.p) + D.Min(scanLimit, old(r.Left()))];
              if found then First(s, t) == Some(|payload|) && payload == s[..|payload|] && r.p == old(r.p) + |payload| + |t|
              else First(s, t) == None
    {
      var scanned: seq<byte> := [];
      ghost var s := r.d[r.p..r.p + D.Min(scanLimit, r.Left())];
      var i := 0;
      while i < scanLimit && r.Left() != 0
        invariant Valid() && i <= |s| && r.p == old(r.p) + i && scanned == s[..i]
        invariant NoneBefore(s, t, i)
      {
        var b := r.TakeByte();
        assert b == s[i];
        scanned := scanned + [b];
        ScanStep(s, t, i);
        i := i + 1;
        assert scanned == s[..i];
        if EndsWith(scanned, t) {
          return true, scanned[..|scanned| - |t|];
        }
      }
      found, payload := false, [];
      ScanOver(s, t);
    }

    /** Compares the bytes at the position with the terminator, up to the first that differs. */
    method Compare(t: seq<byte>) returns (matches: bool)
      requires Valid() && |t| <= r.limit - r.p
      modifies r`p
      ensures Valid() && r.p >= old(r.p)
      ensures matches == (r.d[old(r.p)..old(r.p) + |t|] == t)
    {
      hide First;
      ghost var s := r.d[r.p..r.p + |t|];
      matches := true;
      var k := 0;
      while k < |t|
        invariant Valid() && r.p == old(r.p) + k && k <= |t|
        invariant forall j :: 0 <= j < k ==> s[j] == t[j]
      {
        var b := r.TakeByte();
        assert b == s[k];
        if b != t[k] {
          return false;
        }
        k := k + 1;
      }
    }

    /** Whether the terminator stands at the position: the probe reads and goes back. */
    method Probe(t: seq<byte>) returns (ok: bool, matches: bool)
      requires Valid() && |t| <= r.limit - r.p
      modifies r
      ensures ok == (r.Limits().Within? ==> r.Limits().outside.limit == |r.d|)
      ensures ok ==> Valid() && r.Where() == old(r.Where())
      ensures matches == (r.d[old(r.p)..old(r.p) + |t|] == t)
      ensures r.Limits() == old(r.Limits())
    {
      hide First;
      var probe := r.Save();
      matches := Compare(t);
      OwnSnapshot(|r.d|, probe);
      ok := r.Restore(probe);
    }

    ghost predicate Stepped(said: Result<Option<D.Item>>, stop: D.Cursor, res: Result<Option<Value>>)
      reads this, r
    {
      if said.Fail? then res == Fail(said.error)
      else if said.value.None? then res == Ok(None) && r.Where() == stop
      else res == Ok(Some(said.value.value.v)) && r.Where() == said.value.value.at
    }

    /** One turn of the element loop. */
    method SequenceStep(t: Type, saved: Snapshot, max: u64) returns (res: Result<Option<Value>>)
      requires Valid() && t.terminator != [] && saved.p <= r.p <= saved.p + max
      modifies this, r
      ensures Stepped(D.SeqTurn(Input(), old(r.Limits()), t, saved.p + max, old(env), old(r.Where()), old(Budget())),
                      D.Skip(old(r.Where()), |t.terminator|), res)
      ensures res.Ok? ==> Valid() && r.Limits() == old(r.Limits()) && env == old(env) && recursionDepth == old(recursionDepth)
      decreases Budget(), 0, 1, 0
    {
      hide D.ReadBase;
      if |t.terminator| <= r.Left() {
        var ok, matches := Probe(t.terminator);
        if !ok {
          return Fail(BadSnapshot);
        }
        if matches {
          var _, _ := r.TakeBytes(|t.terminator|);
          return Ok(None);
        }
      }
      if r.p - saved.p >= max {
        var _ := r.PopLimit();
        var _ := r.Restore(saved);
        return Fail(NoTerminator);
      }
      var boundary := r.p;
      var got := ReadBase(t.base);
      if got.Fail? {
        return Fail(got.error);
      }
      if r.p - saved.p > max {
        var _ := r.PopLimit();
        var _ := r.Restore(saved);
        return Fail(LimitExceeded);
      }
      if r.p <= boundary {
        return Fail(NoProgress);
      }
      return Ok(Some(got.value));
    }

    method ElementLoop(t: Type, saved: Snapshot, max: u64) returns (res: Result<seq<Value>>)
      requires Valid() && t.terminator != [] && saved.p == r.p
      modifies this, r
      ensures Elements(D.ReadSeq(Input(), old(r.Limits()), t, saved.p + max, old(env), old(r.Where()), old(Budget())), res)
      ensures res.Ok? ==> Valid() && r.Limits() == old(r.Limits()) && env == old(env) && recursionDepth == old(recursionDepth)
      decreases Budget(), 0, 1, 1
    {
      ghost var w, last := r.Limits(), saved.p + max;
      ghost var said := D.ReadSeq(Input(), w, t, last, env, r.Where(), Budget());
      var values: seq<Value> := [];
      assert said == ThenItems(values, said);
      while true
        invariant Valid() && r.Limits() == w && env == old(env) && recursionDepth == old(recursionDepth)
        invariant saved.p <= r.p <= last
        invariant said == ThenItems(values, D.ReadSeq(Input(), w, t, last, env, r.Where(), Budget()))
        decreases last - r.p
      {
        ThenTurn(Input(), w, t, last, values, env, r.Where(), Budget());
        var step := SequenceStep(t, saved, max);
        if step.Fail? {
          return Fail(step.error);
        }
        if step.value.None? {
          return Ok(values);
        }
        values := values + [step.value.value];
      }
    }

    ghost predicate Elements(said: Result<D.Items>, res: Result<seq<Value>>)
      reads this, r
    {
      if said.Fail? then res == Fail(said.error)
      else res == Ok(said.value.vs) && r.Where() == said.value.at
    }

    /** The element form. */
    method ReadSequence(t: Type) returns (res: Result<Value>)
      requires Valid() && t.terminator != [] && t.maxPayload.Some?
      modifies this, r
      ensures Gave(D.ReadSequenceForm(Input(), old(r.Limits()), t, old(env), old(r.Where()), old(Budget())), res)
      ensures res.Ok? ==> Valid() && r.Limits() == old(r.Limits()) && env == old(env) && recursionDepth == old(recursionDepth)
      decreases Budget(), 0, 2, 0
    {
      hide D.ReadSeq;
      var saved := r.Save();
      var max := t.maxPayload.value;
      var active := D.Min(max + |t.terminator|, r.Left());
      var _ := r.PushLimit(active);
      assert r.Limits() == D.ScanWindow(old(r.Limits()), t, r.p);
      var values := ElementLoop(t, saved, max);
      if values.Fail? {
        return Fail(values.error);
      }
      var _ := r.PopLimit();
      return Ok(Arr(values.value));
    }

    method ReadTerminated(t: Type) returns (res: Result<Value>)
      requires Valid() && t.IsTerminated()
      modifies this, r
      ensures Gave(D.ReadTerminated(Input(), old(r.Limits()), t, old(env), old(r.Where()), old(Budget())), res)
      ensures res.Ok? ==> Valid() && r.Limits() == old(r.Limits()) && env == old(env) && recursionDepth == old(recursionDepth)
      decreases Budget(), 0, 2, 1
    {
      if t.maxPayload.None? || !(t.IsByteForm() || t.IsSequenceForm()) {
        return Fail(InvalidType);
      }
      if t.maxPayload.value > U64_MAX - |t.terminator| {
        return Fail(LimitExceeded);
      }
      if t.IsByteForm() {
        res := ScanBytes(t.terminator, t.maxPayload.value);
      } else {
        res := ReadSequence(t);
      }
    }

    method ReadType(t: Type, bound: Option<u64>) returns (res: Result<Value>)
      requires Valid()
      modifies this, r
      ensures Gave(D.ReadType(Input(), old(r.Limits()), t, bound, old(env), old(r.Where()), old(Budget())), res)
      ensures res.Ok? ==> Valid() && r.Limits() == old(r.Limits()) && env == old(env) && recursionDepth == old(recursionDepth)
      decreases Budget(), 0, 2 * |t.dims| + 3, 0
    {
      if t.terminator != [] {
        res := ReadTerminated(t);
      } else if t.base.IsText() {
        res := ReadText(t, bound);
      } else {
        res := ReadArray(t.base, t.dims);
      }
    }

    /** The extents are all checked before the first element is read. */
    method ReadArray(base: Base, dims: seq<Dim>) returns (res: Result<Value>)
      requires Valid()
      modifies this, r
      ensures Gave(D.ReadDims(Input(), old(r.Limits()), base, dims, old(env), old(r.Where()), old(Budget())), res)
      ensures res.Ok? ==> Valid() && r.Limits() == old(r.Limits()) && env == old(env) && recursionDepth == old(recursionDepth)
      decreases Budget(), 0, 2 * |dims| + 1, 0
    {
      hide D.ReadBase, Extents, Product, Eval;
      if dims == [] {
        res := ReadBase(base);
        return;
      }
      var counted := CountElements(c, dims, env);
      if counted.Fail? {
        return Fail(counted.error);
      }
      var n := counted.value;
      ghost var w, at := r.Limits(), r.Where();
      var a: seq<Value> := [];
      var i := 0;
      ghost var said := D.ReadElems(Input(), w, base, dims[1..], n, env, at, Budget());
      assert said == ThenItems(a, said);
      while i < n
        invariant i <= n && Valid() && r.Limits() == w && env == old(env) && recursionDepth == old(recursionDepth)
        invariant said == ThenItems(a, D.ReadElems(Input(), w, base, dims[1..], n - i, env, r.Where(), Budget()))
      {
        ThenElem(Input(), w, base, dims[1..], n - i, a, env, r.Where(), Budget());
        var got := ReadArray(base, dims[1..]);
        if got.Fail? {
          return Fail(got.error);
        }
        a := a + [got.value];
        i := i + 1;
      }
      assert a + [] == a;
      res := Ok(Arr(a));
    }

    method ReadBase(base: Base) returns (res: Result<Value>)
      requires Valid()
      modifies this, r
      ensures Gave(D.ReadBase(Input(), old(r.Limits()), base, old(env), old(r.Where()), old(Budget())), res)
      ensures res.Ok? ==> Valid() && r.Limits() == old(r.Limits()) && env == old(env) && recursionDepth == old(recursionDepth)
      decreases Budget(), 0, 0, 0
    {
      match base
      case Primitive(it) => res := ReadInt(it);
      case Named(id) =>
        if id in c.plan.structs {
          if recursionDepth + 1 > c.options.maxRecursionDepth {
            return Fail(TooDeep);
          }
          recursionDepth := recursionDepth + 1;
          res := ReadStruct(c.plan.structs[id]);
          if res.Ok? {
            recursionDepth := recursionDepth - 1;
          }
        } else if id in c.plan.enums {
          res := ReadInt(c.plan.enums[id]);
        } else {
          return Fail(InvalidType);
        }
      case _ => return Fail(InvalidType);
    }

    /** The environment is saved, extended by the size properties and put back. */
    method ReadStruct(s: Struct) returns (res: Result<Value>)
      requires Valid()
      modifies this, r
      ensures Gave(D.ReadStruct(Input(), old(r.Limits()), s, old(env), old(r.Where()), old(Budget())), res)
      ensures res.Ok? ==> Valid() && r.Limits() == old(r.Limits()) && env == old(env) && recursionDepth == old(recursionDepth)
      decreases Budget(), 2
    {
      var saved := env;
      env := WithSizes(s, env);
      r.SetOrder(s.order);
      var o := Members(s.members, map[]);
      if o.Fail? {
        return Fail(o.error);
      }
      var checked := TestRequirements(c.fp, s.requirements, env);
      if checked.Fail? {
        return Fail(checked.error);
      }
      env := saved;
      res := Ok(Obj(o.value));
    }

    method Members(ops: seq<Op>, obj: Fields) returns (res: Result<Fields>)
      requires Valid()
      modifies this, r
      ensures Gathered(D.ReadMembers(Input(), old(r.Limits()), ops, old(env), old(r.Where()), old(Budget())), obj, res)
      ensures res.Ok? ==> Valid() && r.Limits() == old(r.Limits()) && recursionDepth == old(recursionDepth)
      decreases Budget(), 1, ops, 0
    {
      hide D.ReadMember;
      ghost var w := r.Limits();
      ghost var said := D.ReadMembers(Input(), w, ops, env, r.Where(), Budget());
      ghost var done: Fields := map[];
      var o := obj;
      assert ops[0..] == ops && said == Then(done, said);
      var i := 0;
      while i < |ops|
        invariant i <= |ops| && Valid() && r.Limits() == w && recursionDepth == old(recursionDepth)
        invariant o == obj + done
        invariant said == Then(done, D.ReadMembers(Input(), w, ops[i..], env, r.Where(), Budget()))
      {
        ghost var g := D.ReadMember(Input(), w, ops[i], env, r.Where(), Budget());
        ThenMember(Input(), w, ops, i, done, env, r.Where(), Budget());
        var got := Member(ops[i], o);
        if got.Fail? {
          return got;
        }
        assert (obj + done) + g.value.fields == obj + (done + g.value.fields);
        done := done + g.value.fields;
        o := got.value;
        i := i + 1;
      }
      assert done + map[] == done;
      res := Ok(o);
    }

    method Member(op: Op, obj: Fields) returns (res: Result<Fields>)
      requires Valid()
      modifies this, r
      ensures Gathered(D.ReadMember(Input(), old(r.Limits()), op, old(env), old(r.Where()), old(Budget())), obj, res)
      ensures res.Ok? ==> Valid() && r.Limits() == old(r.Limits()) && recursionDepth == old(recursionDepth)
      decreases Budget(), 1, op, 1
    {
      match op
      case Field(_, _, _, _, _, _) => res := ReadField(op, obj);
      case Virtual(symbol, name, e) =>
        var v :- Eval(c.fp, e, env);
        env := env[symbol := v];
        EntryIsMap(obj, name, Num(v));
        res := Ok(obj[name := Num(v)]);
      case Alias(symbol, name, target, _) =>
        if target !in env {
          return Fail(AliasUnavailable);
        }
        EntryIsMap(obj, name, Num(env[target]));
        res := Ok(obj[name := Num(env[target])]);
        env := env[symbol := env[target]];
      case Bits(group) => res := ReadBits(group, obj);
      case Align(e, known) => res := ReadAlign(e, known, obj);
      case At(_, _, _) => res := ReadAt(op, obj);
      case Block(_, _, _) => res := ReadBlock(op, obj);
      case Conditional(condition, thenMembers, elseMembers) =>
        var b :- EvalBool(c.fp, condition, env);
        var nested := Members(if b then thenMembers else elseMembers, map[]);
        if nested.Fail? {
          return nested;
        }
        res := Ok(obj + nested.value);
      case Variant(_, _, _, _) => res := ReadVariant(op, obj);
    }

    method ReadField(op: Op, obj: Fields) returns (res: Result<Fields>)
      requires Valid() && op.Field?
      modifies this, r
      ensures Gathered(D.ReadField(Input(), old(r.Limits()), op, old(env), old(r.Where()), old(Budget())), obj, res)
      ensures res.Ok? ==> Valid() && r.Limits() == old(r.Limits()) && recursionDepth == old(recursionDepth)
      decreases Budget(), 1, op, 0
    {
      r.SetOrder(op.order);
      var got := ReadType(op.ty, op.staticLength);
      if got.Fail? {
        return Fail(got.error);
      }
      var v := got.value;
      if !Matches(op.assertion, v) {
        return Fail(AssertionMismatch);
      }
      env := env[op.symbol := Runtime(v)];
      EntryIsMap(obj, op.name, v);
      res := Ok(obj[op.name := v]);
    }

    /** The container is taken in the order in force; each field then sets its own order. */
    method ReadBits(g: BitsGroup, obj: Fields) returns (res: Result<Fields>)
      requires Valid()
      modifies this, r
      ensures Gathered(D.ReadBits(Input(), old(r.Limits()), g, old(env), old(r.Where())), obj, res)
      ensures res.Ok? ==> Valid() && r.Limits() == old(r.Limits()) && recursionDepth == old(recursionDepth)
    {
      hide D.ReadBitsFields;
      GroupIsPositive(g);
      var ok := r.BeginBits(TotalBits(g));
      if !ok {
        return Fail(BeyondLimit);
      }
      res := TakeFields(g, obj);
      var _ := r.EndBits();
    }

    method TakeFields(g: BitsGroup, obj: Fields) returns (res: Result<Fields>)
      requires r.Valid() && r.bitsLeft == TotalBits(g)
      modifies this, r
      ensures Unpacked(D.ReadBitsFields(Input(), g, old(r.container), old(env)), D.LastOrder(g), obj, res)
      ensures r.Valid() && r.p == old(r.p) && r.Limits() == old(r.Limits()) && recursionDepth == old(recursionDepth)
      ensures res.Ok? ==> r.bitsLeft == 0
    {
      hide D.BitsOf, D.ReadBitsFields, Matches;
      ghost var container := r.container;
      ghost var said := D.ReadBitsFields(Input(), g, container, env);
      ghost var done: Fields := map[];
      var o := obj;
      assert g[0..] == g && said == ThenBits(done, said);
      var i := 0;
      while i < |g|
        invariant i <= |g| && r.Valid() && r.container == container && r.p == old(r.p)
        invariant r.Limits() == old(r.Limits()) && recursionDepth == old(recursionDepth)
        invariant r.bitsLeft == TotalBits(g[i..]) <= 64
        invariant i > 0 ==> r.order == g[i - 1].order
        invariant o == obj + done
        invariant said == ThenBits(done, D.ReadBitsFields(Input(), g[i..], container, env))
      {
        ThenBitsField(Input(), g, i, container, done, env);
        assert g[i] in g;
        var taken := TakeField(g[i]);
        if taken.Fail? {
          return Fail(taken.error);
        }
        MoreFields(obj, done, g[i].name, Num(U(taken.value)));
        o := o[g[i].name := Num(U(taken.value))];
        done := done + map[g[i].name := Num(U(taken.value))];
        env := env[g[i].symbol := U(taken.value)];
        i := i + 1;
      }
      ThenNoBits(Input(), container, done, env);
      res := Ok(o);
    }

    /** One field of a bits group. */
    method TakeField(f: BitsField) returns (res: Result<u64>)
      requires r.Valid() && 1 <= f.bits <= r.bitsLeft
      modifies r
      ensures r.Valid() && r.container == old(r.container) && r.p == old(r.p) && r.Limits() == old(r.Limits())
      ensures var v := D.BitsOf(r.container, old(r.bitsLeft) - f.bits, f.bits);
              v <= U64_MAX ==> res == if Matches(f.assertion, Num(U(v))) then Ok(v) else Fail(AssertionMismatch)
      ensures res.Ok? ==> r.bitsLeft == old(r.bitsLeft) - f.bits && r.order == f.order
    {
      r.SetOrder(f.order);
      var _, v := r.TakeBits(f.bits);
      if !Matches(f.assertion, Num(U(v))) {
        return Fail(AssertionMismatch);
      }
      res := Ok(v);
    }

    method ReadAlign(e: Expr, known: Option<u64>, obj: Fields) returns (res: Result<Fields>)
      requires Valid()
      modifies r
      ensures Gathered(D.ReadAlign(Input(), old(r.Limits()), e, known, env, old(r.Where())), obj, res)
      ensures res.Ok? ==> Valid() && r.Limits() == old(r.Limits())
    {
      var a :- D.SizeOf(c, known, e, env);
      if a == 0 {
        return Fail(ZeroAlignment);
      }
      var ok := r.Align(a);
      if !ok {
        return Fail(BeyondLimit);
      }
      assert obj + map[] == obj;
      res := Ok(obj);
    }

    method ReadAt(op: Op, obj: Fields) returns (res: Result<Fields>)
      requires Valid() && op.At?
      modifies this, r
      ensures Gathered(D.ReadAt(Input(), old(r.Limits()), op, old(env), old(r.Where()), old(Budget())), obj, res)
      ensures res.Ok? ==> Valid() && r.Limits() == old(r.Limits()) && recursionDepth == old(recursionDepth)
      decreases Budget(), 1, op, 0
    {
      var off :- D.SizeOf(c, op.staticOffset, op.offset, env[NEXT := U(r.p)]);
      var saved := r.p;
      var ok := r.SeekRoot(off);
      if !ok {
        return Fail(BeyondLimit);
      }
      var nested := Members(op.members, map[]);
      if nested.Fail? {
        return nested;
      }
      var _ := r.Seek(saved);
      res := Ok(obj + nested.value);
    }

    method ReadBlock(op: Op, obj: Fields) returns (res: Result<Fields>)
      requires Valid() && op.Block?
      modifies this, r
      ensures Gathered(D.ReadBlock(Input(), old(r.Limits()), op, old(env), old(r.Where()), old(Budget())), obj, res)
      ensures res.Ok? ==> Valid() && r.Limits() == old(r.Limits()) && recursionDepth == old(recursionDepth)
      decreases Budget(), 1, op, 0
    {
      hide D.ReadMembers, Eval, EvalSize;
      ghost var w := r.Limits();
      var n :- D.SizeOf(c, op.staticSize, op.size, env);
      if n > r.Left() {
        return Fail(BeyondLimit);
      }
      var end := r.p + n;
      var _ := r.PushLimit(n);
      assert r.Limits() == D.Within(end, w);
      var nested := Members(op.members, map[]);
      if nested.Fail? {
        return nested;
      }
      var _ := r.Seek(end);
      var _ := r.PopLimit();
      assert r.Limits() == w;
      res := Ok(obj + nested.value);
    }

    method ReadVariant(op: Op, obj: Fields) returns (res: Result<Fields>)
      requires Valid() && op.Variant?
      modifies this, r
      ensures Gathered(D.ReadVariant(Input(), old(r.Limits()), op, old(env), old(r.Where()), old(Budget())), obj, res)
      ensures res.Ok? ==> Valid() && r.Limits() == old(r.Limits()) && recursionDepth == old(recursionDepth)
      decreases Budget(), 1, op, 0
    {
      var tag :- Eval(c.fp, op.discriminator, env);
      var nested: Result<Fields>;
      match ChooseCase(c.fp, op.cases, tag) {
        case Some(i) => nested := ReadBranch(op.cases[i].body);
        case None =>
          if op.default.None? {
            return Fail(NoVariantCase);
          }
          nested := ReadBranch(op.default.value);
      }
      if nested.Fail? {
        return nested;
      }
      EntryIsMap(obj, op.name, Obj(nested.value));
      res := Ok(obj[op.name := Obj(nested.value)]);
    }

    method ReadBranch(b: Branch) returns (res: Result<Fields>)
      requires Valid()
      modifies this, r
      ensures Gathered(D.ReadBranch(Input(), old(r.Limits()), b, old(env), old(r.Where()), old(Budget())), map[], res)
      ensures res.Ok? ==> Valid() && r.Limits() == old(r.Limits()) && recursionDepth == old(recursionDepth)
      decreases Budget(), 1, b, 0
    {
      match b
      case Typed(t) =>
        var got := ReadType(t, None);
        if got.Fail? {
          return Fail(got.error);
        }
        EntryIsMap(map[], "value", got.value);
        res := Ok(map["value" := got.value]);
      case Listed(members) => res := Members(members, map[]);
    }

    /** `run`: parameters, constants and enum items are bound, then the root struct is read. */
    method Run(id: SymbolId, parameters: Env) returns (res: Result<Value>)
      requires Valid() && recursionDepth == 0 && r.Where() == D.Cursor(0, Little) && r.Limits() == D.Whole(|r.d|)
      modifies this, r
      ensures Gave(D.DecodeStruct(Input(), id, parameters), res)
    {
      if id !in c.plan.structs {
        return Fail(InvalidType);
      }
      var start :- InitialEnv(c.plan, parameters);
      env := start;
      res := ReadBase(Named(id));
    }
  }
}
