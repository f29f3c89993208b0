/** Loops that both interpreters run before or after their work. */
module Checks {
  import opened Outcome
  import opened Bytes
  import opened Expr
  import opened Plan
  import opened Arrays
  import D = Decode

  /** Entries of `b` over those of `a`. */
  ghost function Merge(a: Fields, b: Fields): (m: Fields)
    ensures m == a + b
  {
    if a == map[] then b else a + b
  }

  ghost function Chain<T>(a: seq<T>, b: seq<T>): (c: seq<T>)
    ensures c == a + b
  {
    if a == [] then b else a + b
  }

  ghost function ThenExtents(done: seq<u64>, rest: Result<seq<u64>>): Result<seq<u64>> {
    if rest.Ok? then Ok(Chain(done, rest.value)) else rest
  }

  lemma ThenExtent(c: Context, dims: seq<Dim>, i: nat, done: seq<u64>, env: Env)
    requires i < |dims|
    ensures ThenExtents(done, Extents(c, dims[i..], env, Product(done))) ==
              if dims[i].Remaining? then Fail(InvalidType)
              else
                var n := EvalSize(c.fp, dims[i].e, env);
                if n.Fail? then Fail(n.error)
                else if n.value > c.options.maxArrayElements || Product(done) * n.value > c.options.maxArrayElements then Fail(LimitExceeded)
                else ThenExtents(done + [n.value], Extents(c, dims[i + 1..], env, Product(done + [n.value])))
  {
    assert dims[i..][0] == dims[i] && dims[i..][1..] == dims[i + 1..];
    if !dims[i].Remaining? && EvalSize(c.fp, dims[i].e, env).Ok? {
      var n := EvalSize(c.fp, dims[i].e, env).value;
      ProductSplit(done, [n]);
      ProductOfOne(n);
      var rest := Extents(c, dims[i + 1..], env, Product(done) * n);
      if rest.Ok? {
        assert done + ([n] + rest.value) == (done + [n]) + rest.value;
      }
    }
  }

  /** Each extent evaluates to its number. */
  predicate Evaluate(c: Context, dims: seq<Dim>, env: Env, ns: seq<u64>)
    requires |ns| == |dims|
  {
    forall i :: 0 <= i < |dims| ==> !dims[i].Remaining? && EvalSize(c.fp, dims[i].e, env) == Ok(ns[i])
  }

  /** The product of the extents up to `i`, the outermost first, times `count`. */
  function Running(count: nat, ns: seq<u64>, i: nat): nat
    requires i < |ns|
  {
    Times(count, Product(ns[..i + 1]))
  }

  /** Every extent, and every product from the outermost one on, is within the limit. */
  predicate WithinLimit(max: u64, count: nat, ns: seq<u64>) {
    forall i :: 0 <= i < |ns| ==> ns[i] <= max && Running(count, ns, i) <= max
  }

  lemma RunningShift(count: nat, ns: seq<u64>, i: nat)
    requires i + 1 < |ns|
    ensures Running(count, ns, i + 1) == Running(Times(count, ns[0]), ns[1..], i)
  {
    var rest := ns[1..][..i + 1];
    assert ns[..i + 2] == [ns[0]] + rest;
    ProductSplit([ns[0]], rest);
    ProductOfOne(ns[0]);
    MulAssociative(count, ns[0], Product(rest));
  }

  lemma RunningFirst(count: nat, ns: seq<u64>)
    requires ns != []
    ensures Running(count, ns, 0) == Times(count, ns[0])
  {
    assert ns[..1] == [ns[0]];
    ProductOfOne(ns[0]);
  }

  lemma {:induction false} ExtentsFrom(c: Context, dims: seq<Dim>, env: Env, count: nat, ns: seq<u64>)
    requires |ns| == |dims|
    ensures Extents(c, dims, env, count) == Ok(ns) <==> Evaluate(c, dims, env, ns) && WithinLimit(c.options.maxArrayElements, count, ns)
    decreases |dims|
  {
    hide EvalSize, Evaluate, WithinLimit, Times;
    if dims == [] {
      EvaluateNothing(c, dims, env, ns, count);
    } else {
      ExtentsFrom(c, dims[1..], env, Times(count, ns[0]), ns[1..]);
      assert ns == [ns[0]] + ns[1..];
      LimitShift(c.options.maxArrayElements, count, ns);
      EvaluateShift(c, dims, env, ns);
    }
  }

  lemma EvaluateNothing(c: Context, dims: seq<Dim>, env: Env, ns: seq<u64>, count: nat)
    requires dims == [] && ns == []
    ensures Evaluate(c, dims, env, ns) && WithinLimit(c.options.maxArrayElements, count, ns)
  {
  }

  lemma LimitShift(max: u64, count: nat, ns: seq<u64>)
    requires ns != []
    ensures WithinLimit(max, count, ns) <==>
              ns[0] <= max && Times(count, ns[0]) <= max && WithinLimit(max, Times(count, ns[0]), ns[1..])
  {
    hide Running, Times;
    RunningFirst(count, ns);
    if WithinLimit(max, count, ns) {
      forall i | 0 <= i < |ns[1..]| ensures ns[1..][i] <= max && Running(Times(count, ns[0]), ns[1..], i) <= max {
        RunningShift(count, ns, i);
        assert ns[1..][i] == ns[i + 1];
      }
    }
    if ns[0] <= max && Times(count, ns[0]) <= max && WithinLimit(max, Times(count, ns[0]), ns[1..]) {
      forall i | 0 <= i < |ns| ensures ns[i] <= max && Running(count, ns, i) <= max {
        if i > 0 {
          RunningShift(count, ns, i - 1);
          assert ns[1..][i - 1] == ns[i];
        }
      }
    }
  }

  lemma EvaluateShift(c: Context, dims: seq<Dim>, env: Env, ns: seq<u64>)
    requires dims != [] && |ns| == |dims|
    ensures Evaluate(c, dims, env, ns) <==>
              !dims[0].Remaining? && EvalSize(c.fp, dims[0].e, env) == Ok(ns[0]) && Evaluate(c, dims[1..], env, ns[1..])
  {
    hide EvalSize;
    if !dims[0].Remaining? && EvalSize(c.fp, dims[0].e, env) == Ok(ns[0]) && Evaluate(c, dims[1..], env, ns[1..]) {
      forall i | 0 <= i < |dims| ensures !dims[i].Remaining? && EvalSize(c.fp, dims[i].e, env) == Ok(ns[i]) {
        if i > 0 {
          assert dims[1..][i - 1] == dims[i] && ns[1..][i - 1] == ns[i];
        }
      }
    }
  }

  /** The extents of an array are accepted exactly when each evaluates to its number, each number and
      each product from the outermost extent on is within the element limit, and the whole product is
      within the allocation limit. */
  lemma ExtentsWhen(c: Context, dims: seq<Dim>, env: Env, ns: seq<u64>)
    requires |ns| == |dims|
    ensures ArrayExtents(c, dims, env) == Ok(ns) <==>
              && (forall i :: 0 <= i < |dims| ==> !dims[i].Remaining? && EvalSize(c.fp, dims[i].e, env) == Ok(ns[i]))
              && WithinLimit(c.options.maxArrayElements, 1, ns) && Product(ns) <= c.options.maxArrayValues
  {
    hide Extents, Product;
    ExtentsFrom(c, dims, env, 1, ns);
  }

  /** The extents of an array, checked one after the other; the first one is the result. */
  method CountElements(c: Context, dims: seq<Dim>, env: Env) returns (res: Result<u64>)
    requires dims != []
    ensures res == match ArrayExtents(c, dims, env)
                   case Ok(ns) => Ok(ns[0])
                   case Fail(e) => Fail(e)
  {
    var count: u64 := 1;
    var firstCount: u64 := 0;
    ghost var done: seq<u64> := [];
    ghost var said := Extents(c, dims, env, 1);
    assert dims[0..] == dims && said == ThenExtents(done, said);
    var i := 0;
    while i < |dims|
      invariant i <= |dims| && |done| == i && count == Product(done)
      invariant i > 0 ==> firstCount == done[0]
      invariant said == ThenExtents(done, Extents(c, dims[i..], env, count))
    {
      ThenExtent(c, dims, i, done, env);
      if dims[i].Remaining? {
        return Fail(InvalidType);
      }
      var n :- EvalSize(c.fp, dims[i].e, env);
      if i == 0 {
        firstCount := n;
      }
      if n > c.options.maxArrayElements {
        return Fail(LimitExceeded);
      }
      UnsignedProductFits(count, n);
      if n != 0 && count > U64_MAX / n {
        return Fail(LimitExceeded);
      }
      ProductSplit(done, [n]);
      ProductOfOne(n);
      count := Times(count, n);
      if count > c.options.maxArrayElements {
        return Fail(LimitExceeded);
      }
      done := done + [n];
      i := i + 1;
    }
    assert done + [] == done;
    if count > c.options.maxArrayValues {
      return Fail(LimitExceeded);
    }
    res := Ok(firstCount);
  }

  method TestRequirements(f: FloatUnit, reqs: seq<Expr>, env: Env) returns (res: Result<bool>)
    ensures res == D.CheckRequirements(f, reqs, env)
  {
    var i := 0;
    while i < |reqs|
      invariant i <= |reqs|
      invariant D.CheckRequirements(f, reqs, env) == D.CheckRequirements(f, reqs[i..], env)
    {
      assert reqs[i..][0] == reqs[i] && reqs[i..][1..] == reqs[i + 1..];
      var v :- Eval(f, reqs[i], env);
      if v != B(true) {
        return Fail(RequirementFailed);
      }
      i := i + 1;
    }
    res := Ok(true);
  }

  lemma GroupIsPositive(g: BitsGroup)
    ensures 1 <= TotalBits(g) <= 64 && 1 <= StorageBytes(g) <= 8
  {
    assert g[0] in g;
  }
}
