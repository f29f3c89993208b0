/** The static bounds are the closest ones. A layout is what the plan alone leaves open: either branch
    of a condition, any case of a variant, any length that an extent not yet known may have. The lower
    bound is the extent of some layout, the upper bound is the extent of another, and where there is no
    upper bound there are layouts of any extent. */
module BoundsTight {
  import opened Outcome
  import opened Bytes
  import opened Expr
  import opened Plan
  import opened Decode
  import opened Encode
  import opened Bounds
  import opened BoundsSound
  import Format

  // ----- layouts -----

  function Larger(a: nat, b: nat): nat {
    if a < b then b else a
  }

  /** The extents are known before any run, and `count` is their product. */
  ghost predicate HasCount(c: Context, dims: seq<Dim>, count: nat)
    decreases |dims|
  {
    if dims == [] then count == 1
    else exists n: u64, rest: nat ::
      dims[0].Fixed? && Format.Amounts(c.fp, dims[0].e, map[], n) && HasCount(c, dims[1..], rest) && count == Times(n, rest)
  }

  ghost predicate CountIsKnown(c: Context, dims: seq<Dim>) {
    exists count :: HasCount(c, dims, count)
  }

  ghost predicate BaseCan(c: Context, base: Base, n: nat, visiting: set<SymbolId>)
    decreases Unvisited(c.plan, visiting), 0, 0
  {
    match base
    case Primitive(it) => n == it.width.Count()
    case Named(id) =>
      if id in c.plan.structs then
        id !in visiting && exists p: nat :: ListCan(c, c.plan.structs[id].members, 0, 0, p, n, visiting + {id})
      else if id in c.plan.enums then n == c.plan.enums[id].width.Count()
      else id in c.plan.aliases && id !in visiting && TypeCan(c, c.plan.aliases[id], n, visiting + {id})
    case _ => n == 1
  }

  ghost predicate Unlimited(c: Context, base: Base, visiting: set<SymbolId>)
    decreases Unvisited(c.plan, visiting), 0, 2
  {
    forall k: nat :: BaseBeyond(c, base, k, visiting)
  }

  ghost predicate BaseBeyond(c: Context, base: Base, k: nat, visiting: set<SymbolId>)
    decreases Unvisited(c.plan, visiting), 0, 1
  {
    exists n: nat :: n >= k && BaseCan(c, base, n, visiting)
  }

  /** `count` elements. The analysis keeps no upper bound for an array of no elements when it has none
      for the element. */
  ghost predicate ElementsCan(c: Context, base: Base, count: nat, n: nat, visiting: set<SymbolId>)
    decreases Unvisited(c.plan, visiting), 0, 3, count
  {
    if count == 0 then n == 0 || Unlimited(c, base, visiting)
    else exists k: nat :: k <= n && BaseCan(c, base, k, visiting) && ElementsCan(c, base, count - 1, n - k, visiting)
  }

  ghost predicate TypeCan(c: Context, t: Type, n: nat, visiting: set<SymbolId>)
    decreases Unvisited(c.plan, visiting), 0, 4
  {
    if t.terminator != [] then t.maxPayload.Some? && |t.terminator| <= n <= |t.terminator| + t.maxPayload.value
    else forall count :: HasCount(c, t.dims, count) ==> ElementsCan(c, t.base, count, n, visiting)
  }

  ghost predicate BranchCan(c: Context, b: Branch, n: nat, visiting: set<SymbolId>)
    decreases Unvisited(c.plan, visiting), 1, b, 0
  {
    match b
    case Typed(t) => TypeCan(c, t, n, visiting)
    case Listed(members) => exists p: nat :: ListCan(c, members, 0, 0, p, n, visiting)
  }

  ghost predicate MemberCan(c: Context, op: Op, n: nat, visiting: set<SymbolId>)
    decreases Unvisited(c.plan, visiting), 1, op, 1
  {
    match op
    case Field(_, _, ty, _, _, _) => TypeCan(c, ty, n, visiting)
    case Bits(group) => 8 * n - 8 < TotalBits(group) <= 8 * n
    case Block(_, known, _) => known.Some? ==> n == known.value
    case Conditional(_, thenMembers, elseMembers) =>
      || (exists p: nat :: ListCan(c, thenMembers, 0, 0, p, n, visiting))
      || (exists p: nat :: ListCan(c, elseMembers, 0, 0, p, n, visiting))
    case Variant(_, _, cases, default) =>
      || (exists i :: 0 <= i < |cases| && BranchCan(c, cases[i].body, n, visiting))
      || (default.Some? && BranchCan(c, default.value, n, visiting))
      || (cases == [] && default.None? && n == 0)
    case _ => n == 0
  }

  /** One member moves the cursor from `p` to `q` and the extent from `e` to `f`. */
  ghost predicate StepCan(c: Context, op: Op, p: nat, e: nat, q: nat, f: nat, visiting: set<SymbolId>)
    decreases Unvisited(c.plan, visiting), 1, op, 2
  {
    match op
    case At(_, known, members) =>
      q == p && if known.None? then f >= e
                else exists r: nat, g: nat :: ListCan(c, members, known.value, known.value, r, g, visiting) && f == Larger(e, g)
    case Align(_, known) => known.Some? && known.value > 0 && q == AlignUp(p, known.value) && f == Larger(e, q)
    case _ => q >= p && MemberCan(c, op, q - p, visiting) && f == Larger(e, q)
  }

  ghost predicate ListCan(c: Context, ops: seq<Op>, p: nat, e: nat, q: nat, f: nat, visiting: set<SymbolId>)
    decreases Unvisited(c.plan, visiting), 1, ops, 0
  {
    if ops == [] then q == p && f == e
    else exists p': nat, e': nat :: StepCan(c, ops[0], p, e, p', e', visiting) && ListCan(c, ops[1..], p', e', q, f, visiting)
  }

  // ----- counts -----

  lemma {:induction false} CountIsOne(c: Context, dims: seq<Dim>, count: nat)
    requires DimsRange(c.fp, Range(0, None), dims).Ok?
    ensures HasCount(c, dims, count) <==> KnownCount(c.fp, dims) == Some(count)
    decreases |dims|
  {
    hide Eval;
    if dims != [] {
      var n := KnownExtent(c.fp, dims[0]).value;
      assert DimsRange(c.fp, Range(0, None), dims[1..]).Ok?;
      forall rest: nat ensures HasCount(c, dims[1..], rest) <==> KnownCount(c.fp, dims[1..]) == Some(rest) {
        CountIsOne(c, dims[1..], rest);
      }
      forall k: u64 ensures (dims[0].Fixed? && Format.Amounts(c.fp, dims[0].e, map[], k)) <==> n == Some(k) {
      }
    }
  }

  /** The bounds do not matter for whether the extents are known. */
  lemma {:induction false} RangeFails(f: FloatUnit, b: Range, dims: seq<Dim>)
    requires DimsRange(f, b, dims).Ok?
    ensures DimsRange(f, Range(0, None), dims).Ok?
    decreases |dims|
  {
    if dims != [] {
      var n := KnownExtent(f, dims[0]).value;
      RangeFails(f, if n.None? then Range(0, None) else MultiplyRange(b, n.value).value, dims[1..]);
    }
  }

  // ----- the lower bound is met -----

  lemma {:induction false} LeastBase(c: Context, base: Base, visiting: set<SymbolId>)
    requires BaseRange(c, base, visiting).Ok?
    ensures BaseCan(c, base, BaseRange(c, base, visiting).value.min, visiting)
    decreases Unvisited(c.plan, visiting), 0, 0
  {
    hide ListCan, SequenceRange, TypeCan, TypeRange;
    if base.Named? {
      if base.id in c.plan.structs {
        LeastList(c, c.plan.structs[base.id].members, StartAt(0), visiting + {base.id});
      } else if base.id !in c.plan.enums {
        LeastType(c, c.plan.aliases[base.id], visiting + {base.id});
      }
    }
  }

  /** Elements that are all alike. */
  lemma {:induction false} AlikeElements(c: Context, base: Base, count: nat, k: nat, visiting: set<SymbolId>)
    requires BaseCan(c, base, k, visiting)
    ensures ElementsCan(c, base, count, Times(k, count), visiting)
  {
    hide BaseCan, Unlimited;
    if count > 0 {
      AlikeElements(c, base, count - 1, k, visiting);
      assert Times(k, count) - k == Times(k, count - 1);
    }
  }

  lemma {:induction false} LeastType(c: Context, t: Type, visiting: set<SymbolId>)
    requires TypeRange(c, t, visiting).Ok?
    ensures TypeCan(c, t, TypeRange(c, t, visiting).value.min, visiting)
    decreases Unvisited(c.plan, visiting), 0, 3
  {
    hide BaseCan, BaseRange, HasCount, ElementsCan;
    if !t.IsTerminated() {
      var b := BaseRange(c, t.base, visiting).value;
      DimsRangeIsProduct(c.fp, b, t.dims);
      RangeFails(c.fp, b, t.dims);
      LeastBase(c, t.base, visiting);
      forall count | HasCount(c, t.dims, count) ensures ElementsCan(c, t.base, count, TypeRange(c, t, visiting).value.min, visiting) {
        CountIsOne(c, t.dims, count);
        AlikeElements(c, t.base, count, b.min, visiting);
      }
    }
  }

  lemma {:induction false} LeastBranch(c: Context, b: Branch, visiting: set<SymbolId>)
    requires BranchRange(c, b, visiting).Ok?
    ensures BranchCan(c, b, BranchRange(c, b, visiting).value.min, visiting)
    decreases Unvisited(c.plan, visiting), 1, b, 0
  {
    hide ListCan, SequenceRange, TypeCan, TypeRange;
    match b
    case Typed(t) => LeastType(c, t, visiting);
    case Listed(members) => LeastList(c, members, StartAt(0), visiting);
  }

  /** The branches of a variant from case `i` on. */
  ghost predicate CasesCan(c: Context, op: Op, i: nat, n: nat, visiting: set<SymbolId>)
    requires op.Variant?
  {
    || (exists j :: i <= j < |op.cases| && BranchCan(c, op.cases[j].body, n, visiting))
    || (op.default.Some? && BranchCan(c, op.default.value, n, visiting))
  }

  lemma {:induction false} LeastCases(c: Context, op: Op, i: nat, visiting: set<SymbolId>)
    requires op.Variant? && i <= |op.cases| && CasesRange(c, op, i, visiting).Ok? && CasesRange(c, op, i, visiting).value.Some?
    ensures CasesCan(c, op, i, CasesRange(c, op, i, visiting).value.value.min, visiting)
    decreases Unvisited(c.plan, visiting), 1, op, 0, |op.cases| - i
  {
    hide BranchCan, BranchRange;
    if i == |op.cases| {
      LeastBranch(c, op.default.value, visiting);
    } else {
      LeastBranch(c, op.cases[i].body, visiting);
      if CasesRange(c, op, i + 1, visiting).value.Some? {
        LeastCases(c, op, i + 1, visiting);
      }
    }
  }

  lemma {:induction false} LeastMember(c: Context, op: Op, visiting: set<SymbolId>)
    requires MemberRange(c, op, visiting).Ok?
    ensures MemberCan(c, op, MemberRange(c, op, visiting).value.min, visiting)
    decreases Unvisited(c.plan, visiting), 1, op, 1
  {
    hide ListCan, SequenceRange, TypeCan, TypeRange, BranchCan, BranchRange, CasesRange;
    match op
    case Field(_, _, ty, _, _, _) => LeastType(c, ty, visiting);
    case Conditional(_, thenMembers, elseMembers) =>
      LeastList(c, thenMembers, StartAt(0), visiting);
      LeastList(c, elseMembers, StartAt(0), visiting);
    case Variant(_, _, _, _) =>
      if CasesRange(c, op, 0, visiting).value.Some? {
        LeastCases(c, op, 0, visiting);
      } else {
        NoCases(c, op, visiting);
      }
    case _ =>
  }

  lemma NoCases(c: Context, op: Op, visiting: set<SymbolId>)
    requires op.Variant? && CasesRange(c, op, 0, visiting).Ok?
    ensures CasesRange(c, op, 0, visiting).value.None? <==> op.cases == [] && op.default.None?
  {
  }

  lemma {:induction false} LeastStep(c: Context, op: Op, s: Extent, visiting: set<SymbolId>)
    requires Step(c, op, s, visiting).Ok?
    ensures var r := Step(c, op, s, visiting).value; StepCan(c, op, s.cursorMin, s.extentMin, r.cursorMin, r.extentMin, visiting)
    decreases Unvisited(c.plan, visiting), 1, op, 2
  {
    hide ListCan, SequenceRange, MemberCan, MemberRange;
    match op
    case At(_, known, members) => if known.Some? { LeastList(c, members, StartAt(known.value), visiting); }
    case Align(_, _) =>
    case _ => LeastMember(c, op, visiting);
  }

  lemma {:induction false} LeastList(c: Context, ops: seq<Op>, s: Extent, visiting: set<SymbolId>)
    requires SequenceRange(c, ops, s, visiting).Ok?
    ensures var r := SequenceRange(c, ops, s, visiting).value; ListCan(c, ops, s.cursorMin, s.extentMin, r.cursorMin, r.extentMin, visiting)
    decreases Unvisited(c.plan, visiting), 1, ops, 0
  {
    hide StepCan, Step;
    if ops != [] {
      LeastStep(c, ops[0], s, visiting);
      LeastList(c, ops[1..], Step(c, ops[0], s, visiting).value, visiting);
    }
  }

  // ----- the upper bound is met -----

  lemma {:induction false} MostBase(c: Context, base: Base, visiting: set<SymbolId>)
    requires BaseRange(c, base, visiting).Ok? && BaseRange(c, base, visiting).value.max.Some?
    ensures BaseCan(c, base, BaseRange(c, base, visiting).value.max.value, visiting)
    decreases Unvisited(c.plan, visiting), 0, 0
  {
    hide ListCan, SequenceRange, TypeCan, TypeRange;
    if base.Named? {
      if base.id in c.plan.structs {
        MostList(c, c.plan.structs[base.id].members, StartAt(0), visiting + {base.id});
      } else if base.id !in c.plan.enums {
        MostType(c, c.plan.aliases[base.id], visiting + {base.id});
      }
    }
  }

  lemma {:induction false} MostType(c: Context, t: Type, visiting: set<SymbolId>)
    requires TypeRange(c, t, visiting).Ok? && TypeRange(c, t, visiting).value.max.Some?
    ensures TypeCan(c, t, TypeRange(c, t, visiting).value.max.value, visiting)
    decreases Unvisited(c.plan, visiting), 0, 3
  {
    hide BaseCan, BaseRange, HasCount, ElementsCan;
    if !t.IsTerminated() {
      var b := BaseRange(c, t.base, visiting).value;
      DimsRangeIsProduct(c.fp, b, t.dims);
      RangeFails(c.fp, b, t.dims);
      MostBase(c, t.base, visiting);
      forall count | HasCount(c, t.dims, count) ensures ElementsCan(c, t.base, count, TypeRange(c, t, visiting).value.max.value, visiting) {
        CountIsOne(c, t.dims, count);
        AlikeElements(c, t.base, count, b.max.value, visiting);
      }
    }
  }

  lemma {:induction false} MostBranch(c: Context, b: Branch, visiting: set<SymbolId>)
    requires BranchRange(c, b, visiting).Ok? && BranchRange(c, b, visiting).value.max.Some?
    ensures BranchCan(c, b, BranchRange(c, b, visiting).value.max.value, visiting)
    decreases Unvisited(c.plan, visiting), 1, b, 0
  {
    hide ListCan, SequenceRange, TypeCan, TypeRange;
    match b
    case Typed(t) => MostType(c, t, visiting);
    case Listed(members) => MostList(c, members, StartAt(0), visiting);
  }

  lemma {:induction false} MostCases(c: Context, op: Op, i: nat, visiting: set<SymbolId>)
    requires op.Variant? && i <= |op.cases| && CasesRange(c, op, i, visiting).Ok?
    requires CasesRange(c, op, i, visiting).value.Some? && CasesRange(c, op, i, visiting).value.value.max.Some?
    ensures CasesCan(c, op, i, CasesRange(c, op, i, visiting).value.value.max.value, visiting)
    decreases Unvisited(c.plan, visiting), 1, op, 0, |op.cases| - i
  {
    hide BranchCan, BranchRange;
    if i == |op.cases| {
      MostBranch(c, op.default.value, visiting);
    } else {
      MostBranch(c, op.cases[i].body, visiting);
      if CasesRange(c, op, i + 1, visiting).value.Some? {
        MostCases(c, op, i + 1, visiting);
      }
    }
  }

  lemma {:induction false} MostMember(c: Context, op: Op, visiting: set<SymbolId>)
    requires MemberRange(c, op, visiting).Ok? && MemberRange(c, op, visiting).value.max.Some?
    ensures MemberCan(c, op, MemberRange(c, op, visiting).value.max.value, visiting)
    decreases Unvisited(c.plan, visiting), 1, op, 1
  {
    hide ListCan, SequenceRange, TypeCan, TypeRange, BranchCan, BranchRange, CasesRange;
    match op
    case Field(_, _, ty, _, _, _) => MostType(c, ty, visiting);
    case Conditional(_, thenMembers, elseMembers) =>
      MostList(c, thenMembers, StartAt(0), visiting);
      MostList(c, elseMembers, StartAt(0), visiting);
    case Variant(_, _, _, _) =>
      if CasesRange(c, op, 0, visiting).value.Some? {
        MostCases(c, op, 0, visiting);
      } else {
        NoCases(c, op, visiting);
      }
    case _ =>
  }

  /** An extent is bounded only where the cursor is, and once lost a bound stays lost. */
  predicate Bounded(s: Extent) {
    s.extentMax.Some? && s.cursorMax.Some?
  }

  lemma StepLoses(c: Context, op: Op, s: Extent, visiting: set<SymbolId>)
    requires Step(c, op, s, visiting).Ok?
    ensures var r := Step(c, op, s, visiting).value;
            && (r.extentMax.Some? ==> s.extentMax.Some?)
            && ((s.extentMax.Some? ==> s.cursorMax.Some?) ==> (r.extentMax.Some? ==> r.cursorMax.Some?))
  {
    hide SequenceRange, MemberRange;
  }

  lemma {:induction false} ListLoses(c: Context, ops: seq<Op>, s: Extent, visiting: set<SymbolId>)
    requires SequenceRange(c, ops, s, visiting).Ok? && (s.extentMax.Some? ==> s.cursorMax.Some?)
    ensures var r := SequenceRange(c, ops, s, visiting).value;
            (r.extentMax.Some? ==> s.extentMax.Some?) && (r.extentMax.Some? ==> r.cursorMax.Some?)
    decreases |ops|
  {
    hide Step;
    if ops != [] {
      StepLoses(c, ops[0], s, visiting);
      ListLoses(c, ops[1..], Step(c, ops[0], s, visiting).value, visiting);
    }
  }

  lemma {:induction false} MostStep(c: Context, op: Op, s: Extent, visiting: set<SymbolId>)
    requires Step(c, op, s, visiting).Ok? && Bounded(s) && Bounded(Step(c, op, s, visiting).value)
    ensures var r := Step(c, op, s, visiting).value;
            StepCan(c, op, s.cursorMax.value, s.extentMax.value, r.cursorMax.value, r.extentMax.value, visiting)
    decreases Unvisited(c.plan, visiting), 1, op, 2
  {
    hide ListCan, SequenceRange, MemberCan, MemberRange;
    match op
    case At(_, known, members) =>
      MostList(c, members, StartAt(known.value), visiting);
      ListLoses(c, members, StartAt(known.value), visiting);
    case Align(_, _) =>
    case _ => MostMember(c, op, visiting);
  }

  lemma {:induction false} MostList(c: Context, ops: seq<Op>, s: Extent, visiting: set<SymbolId>)
    requires SequenceRange(c, ops, s, visiting).Ok? && Bounded(s) && SequenceRange(c, ops, s, visiting).value.extentMax.Some?
    ensures Bounded(SequenceRange(c, ops, s, visiting).value)
    ensures var r := SequenceRange(c, ops, s, visiting).value;
            ListCan(c, ops, s.cursorMax.value, s.extentMax.value, r.cursorMax.value, r.extentMax.value, visiting)
    decreases Unvisited(c.plan, visiting), 1, ops, 0
  {
    hide StepCan, Step;
    if ops != [] {
      var next := Step(c, ops[0], s, visiting).value;
      StepLoses(c, ops[0], s, visiting);
      ListLoses(c, ops[1..], next, visiting);
      MostStep(c, ops[0], s, visiting);
      MostList(c, ops[1..], next, visiting);
    }
  }

  // ----- without an upper bound there is none -----

  lemma {:induction false} FarBase(c: Context, base: Base, k: nat, visiting: set<SymbolId>)
    requires BaseRange(c, base, visiting).Ok? && BaseRange(c, base, visiting).value.max.None?
    ensures BaseBeyond(c, base, k, visiting)
    decreases Unvisited(c.plan, visiting), 0, 0
  {
    hide ListCan, SequenceRange, TypeCan, TypeRange;
    if base.Named? {
      if base.id in c.plan.structs {
        var q, n := FarList(c, c.plan.structs[base.id].members, StartAt(0), 0, 0, k, visiting + {base.id});
        assert BaseCan(c, base, n, visiting);
      } else if base.id !in c.plan.enums {
        var n := FarType(c, c.plan.aliases[base.id], k, visiting + {base.id});
        assert BaseCan(c, base, n, visiting);
      }
    }
  }

  lemma {:induction false} FarType(c: Context, t: Type, k: nat, visiting: set<SymbolId>) returns (n: nat)
    requires TypeRange(c, t, visiting).Ok? && TypeRange(c, t, visiting).value.max.None?
    ensures n >= k && TypeCan(c, t, n, visiting)
    decreases Unvisited(c.plan, visiting), 0, 3
  {
    hide BaseCan, BaseRange, HasCount, ElementsCan, Unlimited;
    var b := BaseRange(c, t.base, visiting).value;
    DimsRangeIsProduct(c.fp, b, t.dims);
    RangeFails(c.fp, b, t.dims);
    var known := KnownCount(c.fp, t.dims);
    n := k;
    if known.Some? {
      n := FarElements(c, t.base, known.value, k, visiting);
    }
    forall count | HasCount(c, t.dims, count) ensures ElementsCan(c, t.base, count, n, visiting) {
      CountIsOne(c, t.dims, count);
    }
  }

  lemma {:induction false} FarElements(c: Context, base: Base, count: nat, k: nat, visiting: set<SymbolId>) returns (n: nat)
    requires BaseRange(c, base, visiting).Ok? && BaseRange(c, base, visiting).value.max.None?
    ensures n >= k && ElementsCan(c, base, count, n, visiting)
    decreases Unvisited(c.plan, visiting), 0, 2
  {
    hide BaseCan, BaseRange;
    if count == 0 {
      n := k;
      forall j: nat ensures BaseBeyond(c, base, j, visiting) {
        FarBase(c, base, j, visiting);
      }
      assert Unlimited(c, base, visiting);
    } else {
      FarBase(c, base, k, visiting);
      var first: nat :| first >= k && BaseCan(c, base, first, visiting);
      var least := BaseRange(c, base, visiting).value.min;
      LeastBase(c, base, visiting);
      AlikeElements(c, base, count - 1, least, visiting);
      n := first + Times(least, count - 1);
      assert n - first == Times(least, count - 1);
    }
  }

  lemma {:induction false} FarBranch(c: Context, b: Branch, k: nat, visiting: set<SymbolId>) returns (n: nat)
    requires BranchRange(c, b, visiting).Ok? && BranchRange(c, b, visiting).value.max.None?
    ensures n >= k && BranchCan(c, b, n, visiting)
    decreases Unvisited(c.plan, visiting), 1, b, 0
  {
    hide ListCan, SequenceRange, TypeCan, TypeRange;
    match b
    case Typed(t) => n := FarType(c, t, k, visiting);
    case Listed(members) =>
      var q;
      q, n := FarList(c, members, StartAt(0), 0, 0, k, visiting);
  }

  lemma {:induction false} FarCases(c: Context, op: Op, i: nat, k: nat, visiting: set<SymbolId>) returns (n: nat)
    requires op.Variant? && i <= |op.cases| && CasesRange(c, op, i, visiting).Ok?
    requires CasesRange(c, op, i, visiting).value.Some? && CasesRange(c, op, i, visiting).value.value.max.None?
    ensures n >= k && CasesCan(c, op, i, n, visiting)
    decreases Unvisited(c.plan, visiting), 1, op, 0, |op.cases| - i
  {
    hide BranchCan, BranchRange;
    if i == |op.cases| {
      n := FarBranch(c, op.default.value, k, visiting);
    } else if BranchRange(c, op.cases[i].body, visiting).value.max.None? {
      n := FarBranch(c, op.cases[i].body, k, visiting);
    } else {
      n := FarCases(c, op, i + 1, k, visiting);
    }
  }

  lemma {:induction false} FarMember(c: Context, op: Op, k: nat, visiting: set<SymbolId>) returns (n: nat)
    requires MemberRange(c, op, visiting).Ok? && MemberRange(c, op, visiting).value.max.None?
    ensures n >= k && MemberCan(c, op, n, visiting)
    decreases Unvisited(c.plan, visiting), 1, op, 1
  {
    hide ListCan, SequenceRange, TypeCan, TypeRange, BranchCan, BranchRange, CasesRange;
    n := k;
    match op
    case Field(_, _, ty, _, _, _) => n := FarType(c, ty, k, visiting);
    case Conditional(_, thenMembers, elseMembers) =>
      var q;
      if SequenceRange(c, thenMembers, StartAt(0), visiting).value.extentMax.None? {
        q, n := FarList(c, thenMembers, StartAt(0), 0, 0, k, visiting);
      } else {
        q, n := FarList(c, elseMembers, StartAt(0), 0, 0, k, visiting);
      }
    case Variant(_, _, _, _) => n := FarCases(c, op, 0, k, visiting);
    case _ =>
  }

  /** A member can follow whatever stands before it. */
  lemma {:induction false} AnyStep(c: Context, op: Op, s: Extent, p: nat, e: nat, visiting: set<SymbolId>) returns (q: nat, f: nat)
    requires Step(c, op, s, visiting).Ok?
    ensures f >= e && StepCan(c, op, p, e, q, f, visiting)
  {
    hide ListCan, SequenceRange, MemberCan, MemberRange;
    match op
    case At(_, known, members) =>
      q, f := p, e;
      if known.Some? {
        LeastList(c, members, StartAt(known.value), visiting);
        f := Larger(e, SequenceRange(c, members, StartAt(known.value), visiting).value.extentMin);
      }
    case Align(_, known) =>
      q := AlignUp(p, known.value);
      f := Larger(e, q);
    case _ =>
      LeastMember(c, op, visiting);
      q := p + MemberRange(c, op, visiting).value.min;
      f := Larger(e, q);
  }

  lemma {:induction false} AnyList(c: Context, ops: seq<Op>, s: Extent, p: nat, e: nat, visiting: set<SymbolId>) returns (q: nat, f: nat)
    requires SequenceRange(c, ops, s, visiting).Ok?
    ensures f >= e && ListCan(c, ops, p, e, q, f, visiting)
    decreases |ops|
  {
    hide StepCan, Step;
    q, f := p, e;
    if ops != [] {
      var p', e' := AnyStep(c, ops[0], s, p, e, visiting);
      q, f := AnyList(c, ops[1..], Step(c, ops[0], s, visiting).value, p', e', visiting);
    }
  }

  lemma {:induction false} FarStep(c: Context, op: Op, s: Extent, p: nat, e: nat, k: nat, visiting: set<SymbolId>) returns (q: nat, f: nat)
    requires Step(c, op, s, visiting).Ok? && Bounded(s) && Step(c, op, s, visiting).value.extentMax.None?
    ensures f >= k && StepCan(c, op, p, e, q, f, visiting)
    decreases Unvisited(c.plan, visiting), 1, op, 2
  {
    hide ListCan, SequenceRange, MemberCan, MemberRange;
    match op
    case At(_, known, members) =>
      q, f := p, Larger(e, k);
      if known.Some? {
        var r, g := FarList(c, members, StartAt(known.value), known.value, known.value, k, visiting);
        f := Larger(e, g);
      }
    case Align(_, _) =>
      q, f := p, e;
      assert false;
    case _ =>
      var n := FarMember(c, op, k, visiting);
      q := p + n;
      f := Larger(e, q);
  }

  lemma {:induction false} FarList(c: Context, ops: seq<Op>, s: Extent, p: nat, e: nat, k: nat, visiting: set<SymbolId>) returns (q: nat, f: nat)
    requires SequenceRange(c, ops, s, visiting).Ok? && SequenceRange(c, ops, s, visiting).value.extentMax.None?
    requires if s.extentMax.Some? then s.cursorMax.Some? else e >= k
    ensures f >= k && ListCan(c, ops, p, e, q, f, visiting)
    decreases Unvisited(c.plan, visiting), 1, ops, 0
  {
    hide StepCan, Step;
    if s.extentMax.None? {
      q, f := AnyList(c, ops, s, p, e, visiting);
    } else {
      var next := Step(c, ops[0], s, visiting).value;
      StepLoses(c, ops[0], s, visiting);
      var p', e';
      if next.extentMax.None? {
        p', e' := FarStep(c, ops[0], s, p, e, k, visiting);
      } else {
        p', e' := AnyStep(c, ops[0], s, p, e, visiting);
      }
      q, f := FarList(c, ops[1..], next, p', e', k, visiting);
    }
  }

  // ----- no layout is outside -----

  lemma {:induction false} BaseWithin(c: Context, base: Base, n: nat, visiting: set<SymbolId>)
    requires BaseRange(c, base, visiting).Ok? && BaseCan(c, base, n, visiting)
    ensures Contains(BaseRange(c, base, visiting).value, n)
    decreases Unvisited(c.plan, visiting), 0, 0
  {
    hide ListCan, SequenceRange, TypeCan, TypeRange;
    if base.Named? {
      if base.id in c.plan.structs {
        var p: nat :| ListCan(c, c.plan.structs[base.id].members, 0, 0, p, n, visiting + {base.id});
        ListWithin(c, c.plan.structs[base.id].members, StartAt(0), 0, 0, p, n, visiting + {base.id});
      } else if base.id !in c.plan.enums {
        TypeWithin(c, c.plan.aliases[base.id], n, visiting + {base.id});
      }
    }
  }

  lemma {:induction false} ElementsWithin(c: Context, base: Base, count: nat, n: nat, visiting: set<SymbolId>)
    requires BaseRange(c, base, visiting).Ok? && ElementsCan(c, base, count, n, visiting)
    ensures Between(BaseRange(c, base, visiting).value, count, n)
    decreases Unvisited(c.plan, visiting), 0, 2, count
  {
    hide BaseCan, BaseRange;
    var b := BaseRange(c, base, visiting).value;
    if count == 0 {
      if n != 0 && b.max.Some? {
        assert BaseBeyond(c, base, b.max.value + 1, visiting);
        var k: nat :| k >= b.max.value + 1 && BaseCan(c, base, k, visiting);
        BaseWithin(c, base, k, visiting);
        assert false;
      }
    } else {
      var k: nat :| k <= n && BaseCan(c, base, k, visiting) && ElementsCan(c, base, count - 1, n - k, visiting);
      BaseWithin(c, base, k, visiting);
      ElementsWithin(c, base, count - 1, n - k, visiting);
    }
  }

  lemma {:induction false} TypeWithin(c: Context, t: Type, n: nat, visiting: set<SymbolId>)
    requires TypeRange(c, t, visiting).Ok? && TypeCan(c, t, n, visiting)
    ensures Contains(TypeRange(c, t, visiting).value, n)
    decreases Unvisited(c.plan, visiting), 0, 4
  {
    hide BaseCan, BaseRange, HasCount, ElementsCan;
    if !t.IsTerminated() {
      var b := BaseRange(c, t.base, visiting).value;
      DimsRangeIsProduct(c.fp, b, t.dims);
      RangeFails(c.fp, b, t.dims);
      var known := KnownCount(c.fp, t.dims);
      if known.Some? {
        CountIsOne(c, t.dims, known.value);
        ElementsWithin(c, t.base, known.value, n, visiting);
      }
    }
  }

  lemma {:induction false} BranchWithin(c: Context, b: Branch, n: nat, visiting: set<SymbolId>)
    requires BranchRange(c, b, visiting).Ok? && BranchCan(c, b, n, visiting)
    ensures Contains(BranchRange(c, b, visiting).value, n)
    decreases Unvisited(c.plan, visiting), 1, b, 0
  {
    hide ListCan, SequenceRange, TypeCan, TypeRange;
    match b
    case Typed(t) => TypeWithin(c, t, n, visiting);
    case Listed(members) =>
      var p: nat :| ListCan(c, members, 0, 0, p, n, visiting);
      ListWithin(c, members, StartAt(0), 0, 0, p, n, visiting);
  }

  lemma {:induction false} MemberWithin(c: Context, op: Op, n: nat, visiting: set<SymbolId>)
    requires MemberRange(c, op, visiting).Ok? && MemberCan(c, op, n, visiting)
    ensures Contains(MemberRange(c, op, visiting).value, n)
    decreases Unvisited(c.plan, visiting), 1, op, 1
  {
    hide ListCan, SequenceRange, TypeCan, TypeRange, BranchCan, BranchRange, CasesRange;
    match op
    case Field(_, _, ty, _, _, _) => TypeWithin(c, ty, n, visiting);
    case Conditional(_, thenMembers, elseMembers) =>
      if p: nat :| ListCan(c, thenMembers, 0, 0, p, n, visiting) {
        ListWithin(c, thenMembers, StartAt(0), 0, 0, p, n, visiting);
      } else {
        var p: nat :| ListCan(c, elseMembers, 0, 0, p, n, visiting);
        ListWithin(c, elseMembers, StartAt(0), 0, 0, p, n, visiting);
      }
    case Variant(_, _, cases, default) =>
      NoCases(c, op, visiting);
      if i :| 0 <= i < |cases| && BranchCan(c, cases[i].body, n, visiting) {
        CaseInRange(c, op, 0, visiting, Some(i), n);
        BranchWithin(c, cases[i].body, n, visiting);
      } else if default.Some? {
        CaseInRange(c, op, 0, visiting, None, n);
        BranchWithin(c, default.value, n, visiting);
      }
    case _ =>
  }

  /** A cursor and an extent within their bounds. */
  predicate Holds(s: Extent, p: nat, e: nat) {
    Contains(Range(s.cursorMin, s.cursorMax), p) && Contains(Range(s.extentMin, s.extentMax), e)
  }

  lemma {:induction false} StepWithin(c: Context, op: Op, s: Extent, p: nat, e: nat, q: nat, f: nat, visiting: set<SymbolId>)
    requires Step(c, op, s, visiting).Ok? && Holds(s, p, e) && StepCan(c, op, p, e, q, f, visiting)
    ensures Holds(Step(c, op, s, visiting).value, q, f)
    decreases Unvisited(c.plan, visiting), 1, op, 2
  {
    hide ListCan, SequenceRange, MemberCan, MemberRange, AlignUp;
    match op
    case At(_, known, members) =>
      if known.Some? {
        var r: nat, g: nat :| ListCan(c, members, known.value, known.value, r, g, visiting) && f == Larger(e, g);
        ListWithin(c, members, StartAt(known.value), known.value, known.value, r, g, visiting);
      }
    case Align(_, known) =>
      AlignUpMonotone(s.cursorMin, p, known.value);
      if s.cursorMax.Some? {
        AlignUpMonotone(p, s.cursorMax.value, known.value);
      }
    case _ => MemberWithin(c, op, q - p, visiting);
  }

  lemma {:induction false} ListWithin(c: Context, ops: seq<Op>, s: Extent, p: nat, e: nat, q: nat, f: nat, visiting: set<SymbolId>)
    requires SequenceRange(c, ops, s, visiting).Ok? && Holds(s, p, e) && ListCan(c, ops, p, e, q, f, visiting)
    ensures Holds(SequenceRange(c, ops, s, visiting).value, q, f)
    decreases Unvisited(c.plan, visiting), 1, ops, 0
  {
    hide StepCan, Step;
    if ops != [] {
      var p': nat, e': nat :| StepCan(c, ops[0], p, e, p', e', visiting) && ListCan(c, ops[1..], p', e', q, f, visiting);
      StepWithin(c, ops[0], s, p, e, p', e', visiting);
      ListWithin(c, ops[1..], Step(c, ops[0], s, visiting).value, p', e', q, f, visiting);
    }
  }

  /** The main theorem: every layout of a type is within its bounds, both bounds are extents of
      layouts, and where there is no upper bound the layouts have none. */
  lemma BoundsAreClosest(c: Context, t: Type)
    requires TypeRange(c, t, {}).Ok?
    ensures forall n: nat :: TypeCan(c, t, n, {}) ==> Contains(TypeRange(c, t, {}).value, n)
    ensures var b := TypeRange(c, t, {}).value;
            && TypeCan(c, t, b.min, {})
            && (b.max.Some? ==> TypeCan(c, t, b.max.value, {}))
            && (b.max.None? ==> forall k: nat {:trigger TypeBeyond(c, t, k)} :: TypeBeyond(c, t, k))
  {
    hide TypeCan, TypeRange;
    forall n: nat | TypeCan(c, t, n, {}) ensures Contains(TypeRange(c, t, {}).value, n) {
      TypeWithin(c, t, n, {});
    }
    LeastType(c, t, {});
    if TypeRange(c, t, {}).value.max.Some? {
      MostType(c, t, {});
    } else {
      forall k: nat ensures TypeBeyond(c, t, k) {
        var n := FarType(c, t, k, {});
      }
    }
  }

  ghost predicate TypeBeyond(c: Context, t: Type, k: nat) {
    exists n: nat :: n >= k && TypeCan(c, t, n, {})
  }

  // ----- what follows for single members -----

  /** Each bound of a variant is the one of a branch: of a case or of the default. Its bounds exist
      exactly when those of all its branches do. */
  lemma VariantBounds(c: Context, op: Op, visiting: set<SymbolId>)
    requires op.Variant?
    ensures MemberRange(c, op, visiting).Ok? <==>
              (forall i :: 0 <= i < |op.cases| ==> BranchRange(c, op.cases[i].body, visiting).Ok?)
              && (op.default.Some? ==> BranchRange(c, op.default.value, visiting).Ok?)
    ensures MemberRange(c, op, visiting).Ok? && (op.cases != [] || op.default.Some?) ==>
              var b := MemberRange(c, op, visiting).value;
              && (exists body :: IsBranch(op, 0, body) && BranchRange(c, body, visiting).Ok? && b.min == BranchRange(c, body, visiting).value.min)
              && (exists body :: IsBranch(op, 0, body) && BranchRange(c, body, visiting).Ok? && b.max == BranchRange(c, body, visiting).value.max)
  {
    hide BranchRange;
    CasesBounds(c, op, 0, visiting);
  }

  predicate IsBranch(op: Op, from: nat, body: Branch)
    requires op.Variant?
  {
    (exists i :: from <= i < |op.cases| && op.cases[i].body == body) || op.default == Some(body)
  }

  lemma {:induction false} CasesBounds(c: Context, op: Op, i: nat, visiting: set<SymbolId>)
    requires op.Variant? && i <= |op.cases|
    ensures CasesRange(c, op, i, visiting).Ok? <==>
              (forall j :: i <= j < |op.cases| ==> BranchRange(c, op.cases[j].body, visiting).Ok?)
              && (op.default.Some? ==> BranchRange(c, op.default.value, visiting).Ok?)
    ensures CasesRange(c, op, i, visiting).Ok? ==> (CasesRange(c, op, i, visiting).value.None? <==> i == |op.cases| && op.default.None?)
    ensures CasesRange(c, op, i, visiting).Ok? && CasesRange(c, op, i, visiting).value.Some? ==>
              var b := CasesRange(c, op, i, visiting).value.value;
              && (exists body :: IsBranch(op, i, body) && BranchRange(c, body, visiting).Ok? && b.min == BranchRange(c, body, visiting).value.min)
              && (exists body :: IsBranch(op, i, body) && BranchRange(c, body, visiting).Ok? && b.max == BranchRange(c, body, visiting).value.max)
    decreases |op.cases| - i
  {
    hide BranchRange;
    if i < |op.cases| {
      CasesBounds(c, op, i + 1, visiting);
      assert IsBranch(op, i, op.cases[i].body);
      forall body | IsBranch(op, i + 1, body) ensures IsBranch(op, i, body) { }
    } else if op.default.Some? {
      assert IsBranch(op, i, op.default.value);
    }
  }

  /** The same for a conditional and its two lists. */
  lemma ConditionalBounds(c: Context, op: Op, visiting: set<SymbolId>)
    requires op.Conditional?
    ensures var a := SequenceRange(c, op.thenMembers, StartAt(0), visiting);
            var b := SequenceRange(c, op.elseMembers, StartAt(0), visiting);
            var r := MemberRange(c, op, visiting);
            && (r.Ok? <==> a.Ok? && b.Ok?)
            && (r.Ok? ==>
                  && r.value.min <= a.value.extentMin && r.value.min <= b.value.extentMin
                  && r.value.min in {a.value.extentMin, b.value.extentMin}
                  && r.value.max in {a.value.extentMax, b.value.extentMax}
                  && (r.value.max.None? <==> a.value.extentMax.None? || b.value.extentMax.None?)
                  && (r.value.max.Some? ==> r.value.max.value >= a.value.extentMax.value && r.value.max.value >= b.value.extentMax.value))
  {
    hide SequenceRange;
  }

  /** A block of static size takes exactly that many bytes in every run of either codec, and its
      bounds are that size; of any other block nothing is known. */
  lemma BlockTakesItsSize(c: Context, op: Op, visiting: set<SymbolId>)
    requires op.Block?
    ensures MemberRange(c, op, visiting) == Ok(if op.staticSize.Some? then Range(op.staticSize.value, op.staticSize) else Range(0, None))
    ensures op.staticSize.Some? ==>
              && (forall y: Sink, room, o, env, pen, depth :: y.c == c && WriteMember(y, room, op, o, env, pen, depth).Ok? ==>
                    WriteMember(y, room, op, o, env, pen, depth).value.pen.p == pen.p + op.staticSize.value)
              && (forall x: Source, w, env, at, depth :: x.c == c && ReadMember(x, w, op, env, at, depth).Ok? ==>
                    ReadMember(x, w, op, env, at, depth).value.at.pos == at.pos + op.staticSize.value)
  {
    forall y: Sink, room, o, env, pen, depth | op.staticSize.Some? && y.c == c && WriteMember(y, room, op, o, env, pen, depth).Ok?
      ensures WriteMember(y, room, op, o, env, pen, depth).value.pen.p == pen.p + op.staticSize.value
    {
      BlockIsWritten(y, room, op, o, env, pen, depth);
    }
    forall x: Source, w, env, at, depth | op.staticSize.Some? && x.c == c && ReadMember(x, w, op, env, at, depth).Ok?
      ensures ReadMember(x, w, op, env, at, depth).value.at.pos == at.pos + op.staticSize.value
    {
      BlockIsRead(x, w, op, env, at, depth);
    }
  }

  lemma BlockIsWritten(y: Sink, room: Room, op: Op, o: Fields, env: Env, pen: Pen, depth: nat)
    requires op.Block? && op.staticSize.Some? && WriteMember(y, room, op, o, env, pen, depth).Ok?
    ensures WriteMember(y, room, op, o, env, pen, depth).value.pen.p == pen.p + op.staticSize.value
  {
    hide WriteMembers, Fill, Grows;
  }

  lemma BlockIsRead(x: Source, w: Window, op: Op, env: Env, at: Cursor, depth: nat)
    requires op.Block? && op.staticSize.Some? && ReadMember(x, w, op, env, at, depth).Ok?
    ensures ReadMember(x, w, op, env, at, depth).value.at.pos == at.pos + op.staticSize.value
  {
    hide ReadMembers, AllZero;
  }

  /** The end of a list whose members all take exactly known sizes, blocks and branches included. */
  function ExactEnd(c: Context, ops: seq<Op>, total: nat, visiting: set<SymbolId>): Option<nat>
    decreases |ops|
  {
    if ops == [] then Some(total)
    else if ops[0].At? then None
    else if ops[0].Align? then
      if ops[0].staticAlignment.None? || ops[0].staticAlignment.value == 0 then None
      else ExactEnd(c, ops[1..], AlignUp(total, ops[0].staticAlignment.value), visiting)
    else
      var b := MemberRange(c, ops[0], visiting);
      if b.Fail? || b.value.max != Some(b.value.min) then None else ExactEnd(c, ops[1..], total + b.value.min, visiting)
  }

  /** Such a list has exactly that size as both bounds. */
  lemma {:induction false} ExactList(c: Context, ops: seq<Op>, total: u64, visiting: set<SymbolId>)
    requires ExactEnd(c, ops, total, visiting).Some?
    ensures total <= ExactEnd(c, ops, total, visiting).value
    ensures ExactEnd(c, ops, total, visiting).value <= U64_MAX ==>
              SequenceRange(c, ops, StartAt(total), visiting) == Ok(StartAt(ExactEnd(c, ops, total, visiting).value))
    decreases |ops|
  {
    hide MemberRange;
    if ops != [] {
      var next := if ops[0].Align? then AlignUp(total, ops[0].staticAlignment.value) else total + MemberRange(c, ops[0], visiting).value.min;
      ExactGrows(c, ops[1..], next, visiting);
      if next <= U64_MAX {
        ExactList(c, ops[1..], next, visiting);
        assert Step(c, ops[0], StartAt(total), visiting) == Ok(StartAt(next));
      }
    }
  }

  lemma {:induction false} ExactGrows(c: Context, ops: seq<Op>, total: nat, visiting: set<SymbolId>)
    requires ExactEnd(c, ops, total, visiting).Some?
    ensures total <= ExactEnd(c, ops, total, visiting).value
    decreases |ops|
  {
    hide MemberRange;
    if ops != [] {
      ExactGrows(c, ops[1..], if ops[0].Align? then AlignUp(total, ops[0].staticAlignment.value) else total + MemberRange(c, ops[0], visiting).value.min, visiting);
    }
  }
}
