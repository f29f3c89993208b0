/** The static bounds hold of every run: each successful encode has a length within them.

    The analysis bounds nested structs and branches as if they started at position 0, while
    `align` and `at` act on absolute positions. The theorems therefore ask that `at` stands in the
    outermost member list, inside an `at` of it, or inside a block, and that a nested `align`
    stands in a list that starts at a multiple of the alignment. */
module BoundsSound {
  import opened Outcome
  import opened Bytes
  import opened Expr
  import opened Plan
  import opened Decode
  import opened Encode
  import opened Bounds
  import opened Grid

  // ----- the output ends at the cursor, or where it ended before -----

  predicate Reaches(pen: Pen, after: Pen) {
    |after.d| <= |pen.d| || |after.d| == after.p
  }

  lemma {:induction false} BaseReach(y: Sink, room: Room, base: Base, v: Value, env: Env, pen: Pen, depth: nat, grid: Grid)
    requires PlanOnGrid(y.c, grid) && BaseNamed(y.c.plan, base, grid)
    requires WriteBase(y, room, base, v, env, pen, depth).Ok?
    ensures Reaches(pen, WriteBase(y, room, base, v, env, pen, depth).value.pen)
    decreases depth, 0, 0, 0
  {
    if base.Named? && base.id in y.c.plan.structs {
      var s := y.c.plan.structs[base.id];
      MembersReach(y, room, s.members, v.fields, WithSizes(s, env), pen.(order := s.order), depth - 1, grid, grid[base.id], grid[base.id]);
    }
  }

  lemma {:induction false} DimsReach(y: Sink, room: Room, base: Base, dims: seq<Dim>, v: Value, env: Env, pen: Pen, depth: nat, grid: Grid)
    requires PlanOnGrid(y.c, grid) && BaseNamed(y.c.plan, base, grid)
    requires WriteDims(y, room, base, dims, v, env, pen, depth).Ok?
    ensures Reaches(pen, WriteDims(y, room, base, dims, v, env, pen, depth).value.pen)
    decreases depth, 0, 2 * |dims| + 1, 0
  {
    if dims == [] {
      BaseReach(y, room, base, v, env, pen, depth, grid);
    } else {
      ElemsReach(y, room, base, dims[1..], v.items, env, pen, depth, grid);
    }
  }

  lemma {:induction false} ElemsReach(y: Sink, room: Room, base: Base, dims: seq<Dim>, vs: seq<Value>, env: Env, pen: Pen, depth: nat, grid: Grid)
    requires PlanOnGrid(y.c, grid) && BaseNamed(y.c.plan, base, grid)
    requires WriteElems(y, room, base, dims, vs, env, pen, depth).Ok?
    ensures Reaches(pen, WriteElems(y, room, base, dims, vs, env, pen, depth).value.pen)
    decreases depth, 0, 2 * |dims| + 2, |vs|
  {
    if vs != [] {
      DimsReach(y, room, base, dims, vs[0], env, pen, depth, grid);
      ElemsReach(y, room, base, dims, vs[1..], env, WriteDims(y, room, base, dims, vs[0], env, pen, depth).value.pen, depth, grid);
    }
  }

  lemma {:induction false} SeqReach(y: Sink, room: Room, t: Type, vs: seq<Value>, start: nat, bound: Option<u64>, env: Env, pen: Pen, depth: nat, grid: Grid)
    requires PlanOnGrid(y.c, grid) && BaseNamed(y.c.plan, t.base, grid) && t.maxPayload.Some?
    requires WriteSeq(y, room, t, vs, start, bound, env, pen, depth).Ok?
    ensures Reaches(pen, WriteSeq(y, room, t, vs, start, bound, env, pen, depth).value.pen)
    decreases depth, 0, 1, |vs|
  {
    if vs != [] {
      BaseReach(y, room, t.base, vs[0], env, pen, depth, grid);
      SeqReach(y, room, t, vs[1..], start, bound, env, WriteBase(y, room, t.base, vs[0], env, pen, depth).value.pen, depth, grid);
    }
  }

  lemma {:induction false} TypeReach(y: Sink, room: Room, t: Type, v: Value, bound: Option<u64>, env: Env, pen: Pen, depth: nat, grid: Grid, at: nat)
    requires PlanOnGrid(y.c, grid) && TypeOnGrid(y.c, t, grid, at)
    requires WriteType(y, room, t, v, bound, env, pen, depth).Ok?
    ensures Reaches(pen, WriteType(y, room, t, v, bound, env, pen, depth).value.pen)
    decreases depth, 0, 2 * |t.dims| + 3, 0
  {
    if t.IsTerminated() {
      assert WriteTerminated(y, room, t, v, bound, env, pen, depth) == WriteType(y, room, t, v, bound, env, pen, depth);
      if !t.IsByteForm() {
        assert WriteSequenceForm(y, room, t, v, bound, env, pen, depth).Ok?;
        SeqReach(y, Room(room.limit, InSequence), t, v.items, pen.p, bound, env, pen, depth, grid);
      }
    } else if !t.base.IsText() {
      DimsReach(y, room, t.base, t.dims, v, env, pen, depth, grid);
    }
  }

  lemma {:induction false} BranchReach(y: Sink, room: Room, body: Branch, o: Fields, env: Env, pen: Pen, depth: nat, grid: Grid, at: nat)
    requires PlanOnGrid(y.c, grid) && BranchOnGrid(y.c, body, grid, at)
    requires WriteBranch(y, room, body, o, env, pen, depth).Ok?
    ensures Reaches(pen, WriteBranch(y, room, body, o, env, pen, depth).value.pen)
    decreases depth, 1, body, 0
  {
    match body
    case Typed(t) => TypeReach(y, room, t, o["value"], None, env, pen, depth, grid, at);
    case Listed(members) => MembersReach(y, room, members, o, env, pen, depth, grid, at, at);
  }

  lemma {:induction false} MemberReach(y: Sink, room: Room, op: Op, o: Fields, env: Env, pen: Pen, depth: nat, grid: Grid, start: nat, at: nat)
    requires PlanOnGrid(y.c, grid) && OpOnGrid(y.c, op, grid, start, at)
    requires WriteMember(y, room, op, o, env, pen, depth).Ok?
    ensures Reaches(pen, WriteMember(y, room, op, o, env, pen, depth).value.pen)
    decreases depth, 1, op, 1
  {
    match op
    case Field(_, _, _, _, _, _) =>
      TypeReach(y, room, op.ty, FieldInput(op, o, env).value, op.staticLength, env, pen.(order := op.order), depth, grid, at);
    case Conditional(condition, thenMembers, elseMembers) =>
      MembersReach(y, room, if EvalBool(y.c.fp, condition, env).value then thenMembers else elseMembers, o, env, pen, depth, grid, at, at);
    case Variant(_, _, _, _) =>
      match ChooseCase(y.c.fp, op.cases, Eval(y.c.fp, op.discriminator, env).value) {
        case Some(i) => BranchReach(y, room, op.cases[i].body, o[op.name].fields, env, pen, depth, grid, at);
        case None => BranchReach(y, room, op.default.value, o[op.name].fields, env, pen, depth, grid, at);
      }
    case _ =>
  }

  lemma {:induction false} OpsReach(y: Sink, room: Room, ops: seq<Op>, o: Fields, env: Env, pen: Pen, depth: nat, grid: Grid, start: nat, at: nat)
    requires PlanOnGrid(y.c, grid) && OpsOnGrid(y.c, ops, grid, start, at)
    requires WriteOps(y, room, ops, o, env, pen, depth).Ok?
    ensures Reaches(pen, WriteOps(y, room, ops, o, env, pen, depth).value.pen)
    decreases depth, 1, ops, 0
  {
    if ops != [] {
      MemberReach(y, room, ops[0], o, env, pen, depth, grid, start, at);
      var b := WriteMember(y, room, ops[0], o, env, pen, depth).value;
      OpsReach(y, room, ops[1..], o, b.env, b.pen, depth, grid, start, After(y.c, ops[0], at));
    }
  }

  lemma {:induction false} MembersReach(y: Sink, room: Room, ops: seq<Op>, o: Fields, env: Env, pen: Pen, depth: nat, grid: Grid, start: nat, at: nat)
    requires PlanOnGrid(y.c, grid) && OpsOnGrid(y.c, ops, grid, start, at)
    requires WriteMembers(y, room, ops, o, env, pen, depth).Ok?
    ensures Reaches(pen, WriteMembers(y, room, ops, o, env, pen, depth).value.pen)
    decreases depth, 1, ops, 1
  {
    OpsReach(y, room, ops, o, BindAliases(y.c, ops, o, env).value, pen, depth, grid, start, at);
  }

  // ----- arrays -----

  /** The number of elements when every extent is known before any run. */
  function KnownCount(f: FloatUnit, dims: seq<Dim>): (r: Option<nat>)
    decreases |dims|
  {
    if dims == [] then Some(1)
    else
      var n := KnownExtent(f, dims[0]);
      var rest := KnownCount(f, dims[1..]);
      if n.Ok? && n.value.Some? && rest.Some? then Some(Times(n.value.value, rest.value)) else None
  }

  predicate Contains(b: Range, n: int) {
    b.min <= n && (b.max.Some? ==> n <= b.max.value)
  }

  /** The bounds of an array are those of its element times the count, or nothing is known. */
  lemma {:induction false} DimsRangeIsProduct(f: FloatUnit, b: Range, dims: seq<Dim>)
    requires DimsRange(f, b, dims).Ok?
    ensures var r := DimsRange(f, b, dims).value;
            var n := KnownCount(f, dims);
            if n.None? then r == Range(0, None)
            else r.min == Times(b.min, n.value)
                 && r.max.Some? == b.max.Some? && (b.max.Some? ==> r.max.value == Times(b.max.value, n.value))
    decreases |dims|
  {
    if dims != [] {
      var n := KnownExtent(f, dims[0]).value;
      if n.None? {
        DimsRangeIsProduct(f, Range(0, None), dims[1..]);
      } else {
        var next := MultiplyRange(b, n.value).value;
        DimsRangeIsProduct(f, next, dims[1..]);
        if KnownCount(f, dims[1..]).Some? {
          var k := KnownCount(f, dims[1..]).value;
          MulAssociative(b.min, n.value, k);
          if b.max.Some? {
            MulAssociative(b.max.value, n.value, k);
          }
        }
      }
    }
  }

  /** A known extent is the extent of every run. */
  lemma KnownExtentHolds(c: Context, dims: seq<Dim>, env: Env)
    requires dims != [] && ArrayExtents(c, dims, env).Ok?
    requires KnownExtent(c.fp, dims[0]).Ok? && KnownExtent(c.fp, dims[0]).value.Some?
    ensures ArrayExtents(c, dims, env).value[0] == KnownExtent(c.fp, dims[0]).value.value
  {
    EvalMonotone(c.fp, dims[0].e, map[], env);
  }

  /** `x` lies within the bounds of `n` elements. */
  predicate Between(b: Range, n: nat, x: int) {
    Times(b.min, n) <= x && (b.max.Some? ==> x <= Times(b.max.value, n))
  }

  lemma BetweenNone(b: Range)
    ensures Between(b, 0, 0)
  {
  }

  lemma BetweenOne(b: Range, x: int)
    ensures Between(b, 1, x) <==> Contains(b, x)
  {
  }

  /** `k` leaves in the first of `m` elements and the same in each of the others. */
  lemma BetweenAdd(b: Range, k: nat, m: nat, x: int, rest: int)
    requires m > 0 && Between(b, k, x) && Between(b, Times(m - 1, k), rest)
    ensures Between(b, Times(m, k), x + rest)
  {
    assert Times(m, k) == k + Times(m - 1, k);
    TimesAdd(b.min, k, Times(m - 1, k));
    if b.max.Some? {
      TimesAdd(b.max.value, k, Times(m - 1, k));
    }
  }

  lemma TimesAdd(a: nat, x: nat, y: nat)
    ensures Times(a, x + y) == Times(a, x) + Times(a, y)
  {
  }

  /** A cursor `n` bytes after the start of a list that places nothing absolutely. */
  predicate Spans(s: Extent, n: int) {
    && s.extentMin == s.cursorMin && s.extentMax == s.cursorMax
    && Contains(Range(s.cursorMin, s.cursorMax), n)
  }

  lemma SpansAdvance(s: Extent, n: int, b: Range, k: int)
    requires Spans(s, n) && Contains(b, k) && Advance(s, b).Ok?
    ensures Spans(Advance(s, b).value, n + k)
  {
  }

  lemma SpansAlign(s: Extent, n: nat, known: Option<u64>)
    requires Spans(s, n) && AlignExtent(s, known).Ok?
    ensures Spans(AlignExtent(s, known).value, AlignUp(n, known.value))
  {
    AlignUpMonotone(s.cursorMin, n, known.value);
    if s.cursorMax.Some? {
      AlignUpMonotone(n, s.cursorMax.value, known.value);
    }
  }

  lemma AlignUpMonotone(p: nat, q: nat, a: nat)
    requires a > 0 && p <= q
    ensures AlignUp(p, a) <= AlignUp(q, a)
  {
    var i, j := AlignUp(p, a) / a, AlignUp(q, a) / a;
    assert AlignUp(p, a) == a * i && AlignUp(q, a) == a * j;
    assert a * (j + 1) == a * j + a;
    if j >= i {
      MulMonotone(a, i, j);
    } else {
      MulMonotone(a, j + 1, i);
    }
  }

  /** A variant's bounds contain those of each case and of the default. */
  lemma {:induction false} CaseInRange(c: Context, op: Op, i: nat, visiting: set<SymbolId>, chosen: Option<nat>, n: int)
    requires op.Variant? && i <= |op.cases| && CasesRange(c, op, i, visiting).Ok?
    requires if chosen.Some? then i <= chosen.value < |op.cases| else op.default.Some?
    ensures var body := if chosen.Some? then op.cases[chosen.value].body else op.default.value;
            && BranchRange(c, body, visiting).Ok?
            && CasesRange(c, op, i, visiting).value.Some?
            && (Contains(BranchRange(c, body, visiting).value, n) ==> Contains(CasesRange(c, op, i, visiting).value.value, n))
    decreases |op.cases| - i
  {
    if i < |op.cases| && chosen != Some(i) {
      CaseInRange(c, op, i + 1, visiting, chosen, n);
    }
  }

  /** A length within bounds is a multiple of the size that both of them are. */
  lemma SizeDivides(r: Result<Range>, n: nat)
    requires r.Ok? ==> Contains(r.value, n)
    ensures Multiple(n, KnownSize(r))
  {
    FactorMultiple(n, 1, n);
    FactorMultiple(n, n, 1);
  }

  // ----- the extent of what an encode writes -----

  lemma {:induction false} BaseFits(y: Sink, room: Room, base: Base, v: Value, env: Env, pen: Pen, depth: nat, grid: Grid, at: nat, visiting: set<SymbolId>)
    requires PlanOnGrid(y.c, grid) && !base.IsText() && BaseOnGrid(y.c.plan, base, grid, at) && Multiple(pen.p, at)
    requires BaseRange(y.c, base, visiting).Ok? && WriteBase(y, room, base, v, env, pen, depth).Ok?
    ensures Contains(BaseRange(y.c, base, visiting).value, WriteBase(y, room, base, v, env, pen, depth).value.pen.p - pen.p)
    decreases depth, 0, 0, 0
  {
    hide WriteMembers, Grows, Multiple, OpsOnGrid;
    if base.Named? && base.id in y.c.plan.structs {
      var s, g := y.c.plan.structs[base.id], grid[base.id];
      MultipleTrans(pen.p, at, g);
      MembersFit(y, room, s.members, v.fields, WithSizes(s, env), pen.(order := s.order), depth - 1, grid, g, g, visiting + {base.id}, StartAt(0), pen.p);
    }
  }

  /** An element of fixed size leaves the position on the grid of that size. */
  lemma {:induction false} BaseSteps(y: Sink, room: Room, base: Base, v: Value, env: Env, pen: Pen, depth: nat, grid: Grid, at: nat)
    requires PlanOnGrid(y.c, grid) && !base.IsText() && BaseOnGrid(y.c.plan, base, grid, at) && Multiple(pen.p, at)
    requires WriteBase(y, room, base, v, env, pen, depth).Ok?
    ensures Multiple(WriteBase(y, room, base, v, env, pen, depth).value.pen.p - pen.p, ElementSize(y.c, base))
    decreases depth, 0, 0, 1
  {
    hide WriteBase, PlanOnGrid, BaseRange, BaseOnGrid, Multiple, KnownSize;
    var r := BaseRange(y.c, base, {});
    if r.Ok? {
      BaseFits(y, room, base, v, env, pen, depth, grid, at, {});
    }
    SizeDivides(r, WriteBase(y, room, base, v, env, pen, depth).value.pen.p - pen.p);
  }

  lemma {:induction false} DimsFit(y: Sink, room: Room, base: Base, dims: seq<Dim>, v: Value, env: Env, pen: Pen, depth: nat, grid: Grid, at: nat, visiting: set<SymbolId>)
    requires PlanOnGrid(y.c, grid) && !base.IsText() && BaseOnGrid(y.c.plan, base, grid, at) && Multiple(pen.p, at)
    requires Multiple(ElementSize(y.c, base), at)
    requires BaseRange(y.c, base, visiting).Ok? && KnownCount(y.c.fp, dims).Some?
    requires WriteDims(y, room, base, dims, v, env, pen, depth).Ok?
    ensures var n := WriteDims(y, room, base, dims, v, env, pen, depth).value.pen.p - pen.p;
            Between(BaseRange(y.c, base, visiting).value, KnownCount(y.c.fp, dims).value, n) && Multiple(n, at)
    decreases depth, 0, 2 * |dims| + 1, 0
  {
    hide WriteBase, WriteElems, Grows, PlanOnGrid, BaseRange, BaseOnGrid, Multiple, ElementSize;
    if dims == [] {
      var n := WriteBase(y, room, base, v, env, pen, depth).value.pen.p - pen.p;
      BaseFits(y, room, base, v, env, pen, depth, grid, at, visiting);
      BetweenOne(BaseRange(y.c, base, visiting).value, n);
      BaseSteps(y, room, base, v, env, pen, depth, grid, at);
      MultipleTrans(n, ElementSize(y.c, base), at);
    } else {
      KnownExtentHolds(y.c, dims, env);
      ElemsFit(y, room, base, dims[1..], v.items, env, pen, depth, grid, at, visiting);
    }
  }

  lemma {:induction false} ElemsFit(y: Sink, room: Room, base: Base, dims: seq<Dim>, vs: seq<Value>, env: Env, pen: Pen, depth: nat, grid: Grid, at: nat, visiting: set<SymbolId>)
    requires PlanOnGrid(y.c, grid) && !base.IsText() && BaseOnGrid(y.c.plan, base, grid, at) && Multiple(pen.p, at)
    requires Multiple(ElementSize(y.c, base), at)
    requires BaseRange(y.c, base, visiting).Ok? && KnownCount(y.c.fp, dims).Some?
    requires WriteElems(y, room, base, dims, vs, env, pen, depth).Ok?
    ensures var n := WriteElems(y, room, base, dims, vs, env, pen, depth).value.pen.p - pen.p;
            Between(BaseRange(y.c, base, visiting).value, Times(|vs|, KnownCount(y.c.fp, dims).value), n) && Multiple(n, at)
    decreases depth, 0, 2 * |dims| + 2, |vs|
  {
    hide WriteDims, PlanOnGrid, BaseRange, BaseOnGrid, Multiple, ElementSize, Between, KnownCount;
    var b := BaseRange(y.c, base, visiting).value;
    if vs == [] {
      BetweenNone(b);
      FactorMultiple(0, at, 0);
    } else {
      var first := WriteDims(y, room, base, dims, vs[0], env, pen, depth).value.pen;
      var last := WriteElems(y, room, base, dims, vs[1..], env, first, depth).value.pen;
      DimsFit(y, room, base, dims, vs[0], env, pen, depth, grid, at, visiting);
      MultipleAdd(pen.p, first.p - pen.p, at);
      ElemsFit(y, room, base, dims, vs[1..], env, first, depth, grid, at, visiting);
      BetweenAdd(b, KnownCount(y.c.fp, dims).value, |vs|, first.p - pen.p, last.p - first.p);
      MultipleAdd(first.p - pen.p, last.p - first.p, at);
    }
  }

  lemma TerminatedFits(y: Sink, room: Room, t: Type, v: Value, bound: Option<u64>, env: Env, pen: Pen, depth: nat, visiting: set<SymbolId>)
    requires t.IsTerminated() && TypeRange(y.c, t, visiting).Ok?
    requires WriteTerminated(y, room, t, v, bound, env, pen, depth).Ok?
    ensures Contains(TypeRange(y.c, t, visiting).value, WriteTerminated(y, room, t, v, bound, env, pen, depth).value.pen.p - pen.p)
  {
    if !t.IsByteForm() {
      assert WriteSequenceForm(y, room, t, v, bound, env, pen, depth).Ok?;
      SeqEnd(y, Room(room.limit, InSequence), t, v.items, pen.p, bound, env, pen, depth);
    }
  }

  lemma TextFits(y: Sink, room: Room, t: Type, v: Value, bound: Option<u64>, env: Env, pen: Pen, visiting: set<SymbolId>)
    requires !t.IsTerminated() && t.base.IsText() && |t.dims| == 1 && TypeRange(y.c, t, visiting).Ok?
    requires WriteText(y, room, t.base, t.dims, v, bound, env, pen).Ok?
    ensures Contains(TypeRange(y.c, t, visiting).value, WriteText(y, room, t.base, t.dims, v, bound, env, pen).value.pen.p - pen.p)
  {
    var n := KnownExtent(y.c.fp, t.dims[0]).value;
    if n.Some? {
      EvalMonotone(y.c.fp, t.dims[0].e, map[], env);
      assert DimsRange(y.c.fp, Range(1, Some(1)), t.dims) == Ok(Range(n.value, n)) by {
        assert t.dims[1..] == [];
      }
    } else {
      assert DimsRange(y.c.fp, Range(1, Some(1)), t.dims) == Ok(Range(0, None)) by {
        assert t.dims[1..] == [];
      }
    }
  }

  lemma {:induction false} TypeFits(y: Sink, room: Room, t: Type, v: Value, bound: Option<u64>, env: Env, pen: Pen, depth: nat, grid: Grid, at: nat, visiting: set<SymbolId>)
    requires PlanOnGrid(y.c, grid) && TypeOnGrid(y.c, t, grid, at) && Multiple(pen.p, at)
    requires TypeRange(y.c, t, visiting).Ok? && WriteType(y, room, t, v, bound, env, pen, depth).Ok?
    ensures Contains(TypeRange(y.c, t, visiting).value, WriteType(y, room, t, v, bound, env, pen, depth).value.pen.p - pen.p)
    decreases depth, 0, 2 * |t.dims| + 3, 0
  {
    hide WriteBase, PlanOnGrid, BaseRange, BaseOnGrid, Multiple, ElementSize, Gcd;
    if t.IsTerminated() {
      TerminatedFits(y, room, t, v, bound, env, pen, depth, visiting);
    } else if t.base.IsText() {
      TextFits(y, room, t, v, bound, env, pen, visiting);
    } else if t.dims == [] {
      BaseFits(y, room, t.base, v, env, pen, depth, grid, at, visiting);
    } else {
      DimsRangeIsProduct(y.c.fp, BaseRange(y.c, t.base, visiting).value, t.dims);
      if KnownCount(y.c.fp, t.dims).Some? {
        var k := ElementSize(y.c, t.base);
        GcdDivides(at, k);
        MultipleTrans(pen.p, at, Gcd(at, k));
        DimsFit(y, room, t.base, t.dims, v, env, pen, depth, grid, Gcd(at, k), visiting);
      }
    }
  }

  lemma {:induction false} BranchFits(y: Sink, room: Room, body: Branch, o: Fields, env: Env, pen: Pen, depth: nat, grid: Grid, at: nat, visiting: set<SymbolId>)
    requires PlanOnGrid(y.c, grid) && BranchOnGrid(y.c, body, grid, at) && Multiple(pen.p, at)
    requires BranchRange(y.c, body, visiting).Ok? && WriteBranch(y, room, body, o, env, pen, depth).Ok?
    ensures Contains(BranchRange(y.c, body, visiting).value, WriteBranch(y, room, body, o, env, pen, depth).value.pen.p - pen.p)
    decreases depth, 1, body, 0
  {
    hide WriteType, WriteMembers, PlanOnGrid, TypeOnGrid, OpsOnGrid, Multiple;
    match body
    case Typed(t) => TypeFits(y, room, t, o["value"], None, env, pen, depth, grid, at, visiting);
    case Listed(members) => MembersFit(y, room, members, o, env, pen, depth, grid, at, at, visiting, StartAt(0), pen.p);
  }

  lemma {:induction false} VariantFits(y: Sink, room: Room, op: Op, o: Fields, env: Env, pen: Pen, depth: nat, grid: Grid, start: nat, at: nat, visiting: set<SymbolId>)
    requires PlanOnGrid(y.c, grid) && op.Variant? && OpOnGrid(y.c, op, grid, start, at) && Multiple(pen.p, at)
    requires MemberRange(y.c, op, visiting).Ok? && WriteVariant(y, room, op, o, env, pen, depth).Ok?
    ensures Contains(MemberRange(y.c, op, visiting).value, WriteVariant(y, room, op, o, env, pen, depth).value.pen.p - pen.p)
    decreases depth, 1, op, 0
  {
    hide WriteBranch, PlanOnGrid, BranchOnGrid, Multiple, Eval;
    var n := WriteVariant(y, room, op, o, env, pen, depth).value.pen.p - pen.p;
    var chosen := ChooseCase(y.c.fp, op.cases, Eval(y.c.fp, op.discriminator, env).value);
    CaseInRange(y.c, op, 0, visiting, chosen, n);
    match chosen
    case Some(i) => BranchFits(y, room, op.cases[i].body, o[op.name].fields, env, pen, depth, grid, at, visiting);
    case None => BranchFits(y, room, op.default.value, o[op.name].fields, env, pen, depth, grid, at, visiting);
  }

  lemma {:induction false} MemberFits(y: Sink, room: Room, op: Op, o: Fields, env: Env, pen: Pen, depth: nat, grid: Grid, start: nat, at: nat, visiting: set<SymbolId>)
    requires PlanOnGrid(y.c, grid) && OpOnGrid(y.c, op, grid, start, at) && !op.Align? && Multiple(pen.p, at)
    requires MemberRange(y.c, op, visiting).Ok? && WriteMember(y, room, op, o, env, pen, depth).Ok?
    ensures Contains(MemberRange(y.c, op, visiting).value, WriteMember(y, room, op, o, env, pen, depth).value.pen.p - pen.p)
    decreases depth, 1, op, 1
  {
    hide WriteMembers, WriteType, WriteVariant, PlanOnGrid, TypeOnGrid, OpsOnGrid, BranchOnGrid, Multiple;
    match op
    case Field(_, _, _, _, _, _) =>
      TypeFits(y, room, op.ty, FieldInput(op, o, env).value, op.staticLength, env, pen.(order := op.order), depth, grid, at, visiting);
    case Conditional(condition, thenMembers, elseMembers) =>
      MembersFit(y, room, if EvalBool(y.c.fp, condition, env).value then thenMembers else elseMembers, o, env, pen, depth, grid, at, at, visiting, StartAt(0), pen.p);
    case Variant(_, _, _, _) => VariantFits(y, room, op, o, env, pen, depth, grid, start, at, visiting);
    case _ =>
  }

  /** The position after a member is a multiple of what the placement says. */
  lemma {:induction false} MemberLands(y: Sink, room: Room, op: Op, o: Fields, env: Env, pen: Pen, depth: nat, grid: Grid, start: nat, at: nat)
    requires PlanOnGrid(y.c, grid) && (op.At? || OpOnGrid(y.c, op, grid, start, at)) && Multiple(pen.p, at)
    requires WriteMember(y, room, op, o, env, pen, depth).Ok?
    ensures Multiple(WriteMember(y, room, op, o, env, pen, depth).value.pen.p, After(y.c, op, at))
    decreases depth, 1, op, 2
  {
    hide WriteField, WriteBits, WriteBlock, WriteVariant, WriteMembers, PlanOnGrid, OpOnGrid, MemberRange, Gcd, Multiple, KnownSize;
    if op.Align? {
      AlignLands(y, room, op.e, op.staticAlignment, env, pen, at);
    } else if !op.At? {
      var r := MemberRange(y.c, op, {});
      var n := WriteMember(y, room, op, o, env, pen, depth).value.pen.p - pen.p;
      if r.Ok? {
        MemberFits(y, room, op, o, env, pen, depth, grid, start, at, {});
      }
      SizeDivides(r, n);
      Lands(pen.p, at, n, KnownSize(r));
    }
  }

  lemma AlignLands(y: Sink, room: Room, e: Expr, known: Option<u64>, env: Env, pen: Pen, at: nat)
    requires Multiple(pen.p, at) && WriteAlign(y, room, e, known, env, pen).Ok?
    ensures Multiple(WriteAlign(y, room, e, known, env, pen).value.pen.p, After(y.c, Align(e, known), at))
  {
    hide Fill, Gcd;
    if known.Some? && known.value > 0 && at % known.value == 0 {
      MultipleTrans(pen.p, at, known.value);
    }
  }

  lemma {:induction false} OpsFit(y: Sink, room: Room, ops: seq<Op>, o: Fields, env: Env, pen: Pen, depth: nat, grid: Grid, start: nat, at: nat, visiting: set<SymbolId>, s: Extent, origin: nat)
    requires PlanOnGrid(y.c, grid) && OpsOnGrid(y.c, ops, grid, start, at) && Multiple(pen.p, at)
    requires origin <= pen.p && Multiple(origin, start) && Spans(s, pen.p - origin)
    requires SequenceRange(y.c, ops, s, visiting).Ok? && WriteOps(y, room, ops, o, env, pen, depth).Ok?
    ensures Spans(SequenceRange(y.c, ops, s, visiting).value, WriteOps(y, room, ops, o, env, pen, depth).value.pen.p - origin)
    decreases depth, 1, ops, 0
  {
    hide WriteMember, PlanOnGrid, OpOnGrid, Multiple, After, Step, Spans;
    if ops != [] {
      var op := ops[0];
      var b := WriteMember(y, room, op, o, env, pen, depth).value;
      var next := Step(y.c, op, s, visiting).value;
      OpSpans(y, room, op, o, env, pen, depth, grid, start, at, visiting, s, origin);
      MemberLands(y, room, op, o, env, pen, depth, grid, start, at);
      OpsFit(y, room, ops[1..], o, b.env, b.pen, depth, grid, start, After(y.c, op, at), visiting, next, origin);
    }
  }

  lemma {:induction false} OpSpans(y: Sink, room: Room, op: Op, o: Fields, env: Env, pen: Pen, depth: nat, grid: Grid, start: nat, at: nat, visiting: set<SymbolId>, s: Extent, origin: nat)
    requires PlanOnGrid(y.c, grid) && OpOnGrid(y.c, op, grid, start, at) && Multiple(pen.p, at)
    requires origin <= pen.p && Multiple(origin, start) && Spans(s, pen.p - origin)
    requires Step(y.c, op, s, visiting).Ok? && WriteMember(y, room, op, o, env, pen, depth).Ok?
    ensures origin <= WriteMember(y, room, op, o, env, pen, depth).value.pen.p
    ensures Spans(Step(y.c, op, s, visiting).value, WriteMember(y, room, op, o, env, pen, depth).value.pen.p - origin)
    decreases depth, 1, op, 2
  {
    hide WriteField, WriteBits, WriteAt, WriteBlock, WriteVariant, WriteMembers, PlanOnGrid, OpsOnGrid, Spans, MemberRange, Gcd;
    var n := pen.p - origin;
    if op.Align? {
      var a := op.staticAlignment.value;
      MultipleTrans(origin, start, a);
      AlignShift(origin, n, a);
      SpansAlign(s, n, op.staticAlignment);
    } else {
      MemberFits(y, room, op, o, env, pen, depth, grid, start, at, visiting);
      SpansAdvance(s, n, MemberRange(y.c, op, visiting).value, WriteMember(y, room, op, o, env, pen, depth).value.pen.p - pen.p);
    }
  }

  lemma {:induction false} MembersFit(y: Sink, room: Room, ops: seq<Op>, o: Fields, env: Env, pen: Pen, depth: nat, grid: Grid, start: nat, at: nat, visiting: set<SymbolId>, s: Extent, origin: nat)
    requires PlanOnGrid(y.c, grid) && OpsOnGrid(y.c, ops, grid, start, at) && Multiple(pen.p, at)
    requires origin <= pen.p && Multiple(origin, start) && Spans(s, pen.p - origin)
    requires SequenceRange(y.c, ops, s, visiting).Ok? && WriteMembers(y, room, ops, o, env, pen, depth).Ok?
    ensures Spans(SequenceRange(y.c, ops, s, visiting).value, WriteMembers(y, room, ops, o, env, pen, depth).value.pen.p - origin)
    decreases depth, 1, ops, 1
  {
    hide WriteOps, PlanOnGrid, OpsOnGrid, Multiple, Spans;
    OpsFit(y, room, ops, o, BindAliases(y.c, ops, o, env).value, pen, depth, grid, start, at, visiting, s, origin);
  }

  // ----- the outermost member list -----

  /** The write position is within the cursor's bounds, and the output within the extent's,
      except that it was `d0` long before. */
  predicate InRange(s: Extent, d0: nat, pen: Pen) {
    && Contains(Range(s.cursorMin, s.cursorMax), pen.p)
    && s.extentMin <= |pen.d|
    && (s.extentMax.Some? ==> |pen.d| <= d0 || |pen.d| <= s.extentMax.value)
  }

  lemma FreeInRange(s: Extent, d0: nat, pen: Pen, after: Pen, b: Range)
    requires InRange(s, d0, pen) && Reaches(pen, after) && Contains(b, after.p - pen.p) && |pen.d| <= |after.d|
    requires Advance(s, b).Ok?
    ensures InRange(Advance(s, b).value, d0, after)
  {
  }

  lemma AlignInRange(y: Sink, room: Room, e: Expr, known: Option<u64>, env: Env, s: Extent, d0: nat, pen: Pen)
    requires InRange(s, d0, pen) && AlignExtent(s, known).Ok? && WriteAlign(y, room, e, known, env, pen).Ok?
    ensures InRange(AlignExtent(s, known).value, d0, WriteAlign(y, room, e, known, env, pen).value.pen)
  {
    AlignUpMonotone(s.cursorMin, pen.p, known.value);
    if s.cursorMax.Some? {
      AlignUpMonotone(pen.p, s.cursorMax.value, known.value);
    }
  }

  lemma {:induction false} AtInRange(y: Sink, room: Room, op: Op, o: Fields, env: Env, pen: Pen, depth: nat, grid: Grid, visiting: set<SymbolId>, s: Extent, d0: nat)
    requires op.At? && PlanOnGrid(y.c, grid) && (op.staticOffset.Some? ==> Placed(y.c, op.members, grid, op.staticOffset.value))
    requires Step(y.c, op, s, visiting).Ok? && WriteAt(y, room, op, o, env, pen, depth).Ok?
    requires InRange(s, d0, pen)
    ensures InRange(Step(y.c, op, s, visiting).value, d0, WriteAt(y, room, op, o, env, pen, depth).value.pen)
    decreases depth, 1, op, 0
  {
    hide PlanOnGrid, WriteOps, Placed;
    if op.staticOffset.Some? {
      var off := op.staticOffset.value;
      var d := if off > |pen.d| then pen.d + Zeros(off - |pen.d|) else pen.d;
      FactorMultiple(off, off, 1);
      PlacedInRange(y, room, op.members, o, BindAliases(y.c, op.members, o, env).value, Ink(d, off, pen.order), depth, grid, off, visiting, StartAt(off), |pen.d|);
    }
  }

  lemma {:induction false} PlacedInRange(y: Sink, room: Room, ops: seq<Op>, o: Fields, env: Env, pen: Pen, depth: nat, grid: Grid, at: nat, visiting: set<SymbolId>, s: Extent, d0: nat)
    requires PlanOnGrid(y.c, grid) && Placed(y.c, ops, grid, at) && Multiple(pen.p, at) && InRange(s, d0, pen)
    requires SequenceRange(y.c, ops, s, visiting).Ok? && WriteOps(y, room, ops, o, env, pen, depth).Ok?
    ensures InRange(SequenceRange(y.c, ops, s, visiting).value, d0, WriteOps(y, room, ops, o, env, pen, depth).value.pen)
    decreases depth, 1, ops, 0
  {
    hide PlanOnGrid, WriteField, WriteBits, WriteAlign, WriteAt, WriteBlock, WriteVariant, WriteMembers, OpOnGrid, Multiple, After, InRange, Reaches, AlignExtent;
    if ops != [] {
      var op := ops[0];
      var b := WriteMember(y, room, op, o, env, pen, depth).value;
      if op.At? {
        AtInRange(y, room, op, o, env, pen, depth, grid, visiting, s, d0);
      } else if op.Align? {
        AlignInRange(y, room, op.e, op.staticAlignment, env, s, d0, pen);
      } else {
        MemberReach(y, room, op, o, env, pen, depth, grid, 0, at);
        MemberFits(y, room, op, o, env, pen, depth, grid, 0, at, visiting);
        FreeInRange(s, d0, pen, b.pen, MemberRange(y.c, op, visiting).value);
      }
      MemberLands(y, room, op, o, env, pen, depth, grid, 0, at);
      PlacedInRange(y, room, ops[1..], o, b.env, b.pen, depth, grid, After(y.c, op, at), visiting, Step(y.c, op, s, visiting).value, d0);
    }
  }

  /** The type that a whole run encodes. */
  function StructType(id: SymbolId): Type {
    Type(Named(id), [], [], None)
  }

  /** The main theorem on bounds: the output of every successful encode is as long as the
      bounds of its struct say. */
  lemma EncodeWithinBounds(y: Sink, id: SymbolId, v: Value, parameters: Env, grid: Grid)
    requires id in y.c.plan.structs && Placed(y.c, y.c.plan.structs[id].members, grid, 0) && PlanOnGrid(y.c, grid)
    requires TypeRange(y.c, StructType(id), {}).Ok? && EncodeStruct(y, id, v, parameters).Ok?
    ensures Contains(TypeRange(y.c, StructType(id), {}).value, |EncodeStruct(y, id, v, parameters).value.pen.d|)
  {
    hide Placed, PlanOnGrid, WriteOps, SequenceRange;
    var s := y.c.plan.structs[id];
    var env := WithSizes(s, InitialEnv(y.c.plan, parameters).value);
    var room := Room(U64_MAX, Root);
    var depth := y.c.options.maxRecursionDepth - 1;
    var pen: Pen := Ink([], 0, s.order);
    assert WriteStruct(y, room, s, v.fields, InitialEnv(y.c.plan, parameters).value, Ink([], 0, Little), depth)
        == EncodeStruct(y, id, v, parameters);
    assert WriteMembers(y, room, s.members, v.fields, env, pen, depth).Ok?;
    assert TypeRange(y.c, StructType(id), {}) == BaseRange(y.c, Named(id), {});
    PlacedInRange(y, room, s.members, v.fields, BindAliases(y.c, s.members, v.fields, env).value, pen, depth, grid, 0, {} + {id}, StartAt(0), 0);
  }
}
