/** The static bounds hold of what a decode consumes, when no `at` moves the extent away from
    the read position. */
module BoundsDecode {
  import opened Outcome
  import opened Bytes
  import opened Expr
  import opened Plan
  import opened Terminator
  import opened Decode
  import opened Bounds
  import opened Grid
  import opened BoundsSound

  lemma {:induction false} BaseTakes(x: Source, w: Window, base: Base, env: Env, at: Cursor, depth: nat, grid: Grid, g: nat, visiting: set<SymbolId>)
    requires at.pos <= w.limit && PlanOnGrid(x.c, grid) && BaseOnGrid(x.c.plan, base, grid, g) && Multiple(at.pos, g)
    requires BaseRange(x.c, base, visiting).Ok? && ReadBase(x, w, base, env, at, depth).Ok?
    ensures Contains(BaseRange(x.c, base, visiting).value, ReadBase(x, w, base, env, at, depth).value.at.pos - at.pos)
    decreases depth, 0, 0, 0
  {
    hide ReadMembers, Multiple, OpsOnGrid;
    if base.Named? && base.id in x.c.plan.structs {
      var s, k := x.c.plan.structs[base.id], grid[base.id];
      MultipleTrans(at.pos, g, k);
      MembersTake(x, w, s.members, WithSizes(s, env), Cursor(at.pos, s.order), depth - 1, grid, k, k, visiting + {base.id}, StartAt(0), at.pos);
    }
  }

  lemma {:induction false} BaseSteps(x: Source, w: Window, base: Base, env: Env, at: Cursor, depth: nat, grid: Grid, g: nat)
    requires at.pos <= w.limit && PlanOnGrid(x.c, grid) && BaseOnGrid(x.c.plan, base, grid, g) && Multiple(at.pos, g)
    requires ReadBase(x, w, base, env, at, depth).Ok?
    ensures Multiple(ReadBase(x, w, base, env, at, depth).value.at.pos - at.pos, ElementSize(x.c, base))
    decreases depth, 0, 0, 1
  {
    hide ReadBase, PlanOnGrid, BaseRange, BaseOnGrid, Multiple, KnownSize;
    var r := BaseRange(x.c, base, {});
    if r.Ok? {
      BaseTakes(x, w, base, env, at, depth, grid, g, {});
    }
    SizeDivides(r, ReadBase(x, w, base, env, at, depth).value.at.pos - at.pos);
  }

  lemma {:induction false} DimsTake(x: Source, w: Window, base: Base, dims: seq<Dim>, env: Env, at: Cursor, depth: nat, grid: Grid, g: nat, visiting: set<SymbolId>)
    requires at.pos <= w.limit && PlanOnGrid(x.c, grid) && BaseOnGrid(x.c.plan, base, grid, g) && Multiple(at.pos, g)
    requires Multiple(ElementSize(x.c, base), g)
    requires BaseRange(x.c, base, visiting).Ok? && KnownCount(x.c.fp, dims).Some?
    requires ReadDims(x, w, base, dims, env, at, depth).Ok?
    ensures var n := ReadDims(x, w, base, dims, env, at, depth).value.at.pos - at.pos;
            n >= 0 && Between(BaseRange(x.c, base, visiting).value, KnownCount(x.c.fp, dims).value, n) && Multiple(n, g)
    decreases depth, 0, 2 * |dims| + 1, 0
  {
    hide ReadBase, ReadElems, PlanOnGrid, BaseRange, BaseOnGrid, Multiple, ElementSize;
    if dims == [] {
      var n := ReadBase(x, w, base, env, at, depth).value.at.pos - at.pos;
      BaseTakes(x, w, base, env, at, depth, grid, g, visiting);
      BetweenOne(BaseRange(x.c, base, visiting).value, n);
      BaseSteps(x, w, base, env, at, depth, grid, g);
      MultipleTrans(n, ElementSize(x.c, base), g);
    } else {
      KnownExtentHolds(x.c, dims, env);
      ElemsTake(x, w, base, dims[1..], ArrayExtents(x.c, dims, env).value[0], env, at, depth, grid, g, visiting);
    }
  }

  lemma {:induction false} ElemsTake(x: Source, w: Window, base: Base, dims: seq<Dim>, n: nat, env: Env, at: Cursor, depth: nat, grid: Grid, g: nat, visiting: set<SymbolId>)
    requires at.pos <= w.limit && PlanOnGrid(x.c, grid) && BaseOnGrid(x.c.plan, base, grid, g) && Multiple(at.pos, g)
    requires Multiple(ElementSize(x.c, base), g)
    requires BaseRange(x.c, base, visiting).Ok? && KnownCount(x.c.fp, dims).Some?
    requires ReadElems(x, w, base, dims, n, env, at, depth).Ok?
    ensures var k := ReadElems(x, w, base, dims, n, env, at, depth).value.at.pos - at.pos;
            k >= 0 && Between(BaseRange(x.c, base, visiting).value, Times(n, KnownCount(x.c.fp, dims).value), k) && Multiple(k, g)
    decreases depth, 0, 2 * |dims| + 2, n
  {
    hide ReadDims, PlanOnGrid, BaseRange, BaseOnGrid, Multiple, ElementSize, Between, KnownCount;
    var b := BaseRange(x.c, base, visiting).value;
    if n == 0 {
      BetweenNone(b);
      FactorMultiple(0, g, 0);
    } else {
      var first := ReadDims(x, w, base, dims, env, at, depth).value.at;
      var last := ReadElems(x, w, base, dims, n - 1, env, first, depth).value.at;
      DimsTake(x, w, base, dims, env, at, depth, grid, g, visiting);
      MultipleAdd(at.pos, first.pos - at.pos, g);
      ElemsTake(x, w, base, dims, n - 1, env, first, depth, grid, g, visiting);
      BetweenAdd(b, KnownCount(x.c.fp, dims).value, n, first.pos - at.pos, last.pos - first.pos);
      MultipleAdd(first.pos - at.pos, last.pos - first.pos, g);
    }
  }

  lemma {:induction false} SeqTakes(x: Source, w: Window, t: Type, last: nat, env: Env, at: Cursor, depth: nat)
    requires at.pos <= w.limit && at.pos <= last && ReadSeq(x, w, t, last, env, at, depth).Ok?
    ensures at.pos + |t.terminator| <= ReadSeq(x, w, t, last, env, at, depth).value.at.pos <= last + |t.terminator|
    decreases last - at.pos
  {
    if ReadSeq(x, w, t, last, env, at, depth).value.vs != [] {
      SeqTakes(x, w, t, last, env, ReadBase(x, w, t.base, env, at, depth).value.at, depth);
    }
  }

  lemma TerminatedTakes(x: Source, w: Window, t: Type, env: Env, at: Cursor, depth: nat, visiting: set<SymbolId>)
    requires at.pos <= w.limit && t.IsTerminated() && TypeRange(x.c, t, visiting).Ok?
    requires ReadTerminated(x, w, t, env, at, depth).Ok?
    ensures Contains(TypeRange(x.c, t, visiting).value, ReadTerminated(x, w, t, env, at, depth).value.at.pos - at.pos)
  {
    hide ReadBase, ReadSeq, Eval, Extents;
    if !t.IsByteForm() {
      assert ReadSequenceForm(x, w, t, env, at, depth).Ok?;
      SeqTakes(x, ScanWindow(w, t, at.pos), t, at.pos + t.maxPayload.value, env, at, depth);
    }
  }

  lemma TextTakes(x: Source, w: Window, t: Type, bound: Option<u64>, env: Env, at: Cursor, visiting: set<SymbolId>)
    requires at.pos <= w.limit && !t.IsTerminated() && t.base.IsText() && |t.dims| == 1 && TypeRange(x.c, t, visiting).Ok?
    requires ReadText(x, w, t, bound, env, at).Ok?
    ensures Contains(TypeRange(x.c, t, visiting).value, ReadText(x, w, t, bound, env, at).value.at.pos - at.pos)
  {
    var n := KnownExtent(x.c.fp, t.dims[0]).value;
    assert t.dims[1..] == [];
    if n.Some? {
      EvalMonotone(x.c.fp, t.dims[0].e, map[], env);
      assert DimsRange(x.c.fp, Range(1, Some(1)), t.dims) == Ok(Range(n.value, n));
    } else {
      assert DimsRange(x.c.fp, Range(1, Some(1)), t.dims) == Ok(Range(0, None));
    }
  }

  lemma {:induction false} TypeTakes(x: Source, w: Window, t: Type, bound: Option<u64>, env: Env, at: Cursor, depth: nat, grid: Grid, g: nat, visiting: set<SymbolId>)
    requires at.pos <= w.limit && PlanOnGrid(x.c, grid) && TypeOnGrid(x.c, t, grid, g) && Multiple(at.pos, g)
    requires TypeRange(x.c, t, visiting).Ok? && ReadType(x, w, t, bound, env, at, depth).Ok?
    ensures Contains(TypeRange(x.c, t, visiting).value, ReadType(x, w, t, bound, env, at, depth).value.at.pos - at.pos)
    decreases depth, 0, 2 * |t.dims| + 3, 0
  {
    hide ReadBase, PlanOnGrid, BaseRange, BaseOnGrid, Multiple, ElementSize, Gcd;
    if t.IsTerminated() {
      TerminatedTakes(x, w, t, env, at, depth, visiting);
    } else if t.base.IsText() {
      TextTakes(x, w, t, bound, env, at, visiting);
    } else if t.dims == [] {
      BaseTakes(x, w, t.base, env, at, depth, grid, g, visiting);
    } else {
      DimsRangeIsProduct(x.c.fp, BaseRange(x.c, t.base, visiting).value, t.dims);
      if KnownCount(x.c.fp, t.dims).Some? {
        var k := ElementSize(x.c, t.base);
        GcdDivides(g, k);
        MultipleTrans(at.pos, g, Gcd(g, k));
        DimsTake(x, w, t.base, t.dims, env, at, depth, grid, Gcd(g, k), visiting);
      }
    }
  }

  lemma {:induction false} BranchTakes(x: Source, w: Window, b: Branch, env: Env, at: Cursor, depth: nat, grid: Grid, g: nat, visiting: set<SymbolId>)
    requires at.pos <= w.limit && PlanOnGrid(x.c, grid) && BranchOnGrid(x.c, b, grid, g) && Multiple(at.pos, g)
    requires BranchRange(x.c, b, visiting).Ok? && ReadBranch(x, w, b, env, at, depth).Ok?
    ensures Contains(BranchRange(x.c, b, visiting).value, ReadBranch(x, w, b, env, at, depth).value.at.pos - at.pos)
    decreases depth, 1, b, 0
  {
    hide ReadType, ReadMembers, PlanOnGrid, TypeOnGrid, OpsOnGrid, Multiple;
    match b
    case Typed(t) => TypeTakes(x, w, t, None, env, at, depth, grid, g, visiting);
    case Listed(members) => MembersTake(x, w, members, env, at, depth, grid, g, g, visiting, StartAt(0), at.pos);
  }

  lemma {:induction false} VariantTakes(x: Source, w: Window, op: Op, env: Env, at: Cursor, depth: nat, grid: Grid, start: nat, g: nat, visiting: set<SymbolId>)
    requires at.pos <= w.limit && PlanOnGrid(x.c, grid) && op.Variant? && OpOnGrid(x.c, op, grid, start, g) && Multiple(at.pos, g)
    requires MemberRange(x.c, op, visiting).Ok? && ReadVariant(x, w, op, env, at, depth).Ok?
    ensures Contains(MemberRange(x.c, op, visiting).value, ReadVariant(x, w, op, env, at, depth).value.at.pos - at.pos)
    decreases depth, 1, op, 0
  {
    hide ReadBranch, PlanOnGrid, BranchOnGrid, Multiple, Eval;
    var chosen := ChooseCase(x.c.fp, op.cases, Eval(x.c.fp, op.discriminator, env).value);
    CaseInRange(x.c, op, 0, visiting, chosen, ReadVariant(x, w, op, env, at, depth).value.at.pos - at.pos);
    match chosen
    case Some(i) => BranchTakes(x, w, op.cases[i].body, env, at, depth, grid, g, visiting);
    case None => BranchTakes(x, w, op.default.value, env, at, depth, grid, g, visiting);
  }

  lemma {:induction false} MemberTakes(x: Source, w: Window, op: Op, env: Env, at: Cursor, depth: nat, grid: Grid, start: nat, g: nat, visiting: set<SymbolId>)
    requires at.pos <= w.limit && PlanOnGrid(x.c, grid) && OpOnGrid(x.c, op, grid, start, g) && !op.Align? && Multiple(at.pos, g)
    requires MemberRange(x.c, op, visiting).Ok? && ReadMember(x, w, op, env, at, depth).Ok?
    ensures Contains(MemberRange(x.c, op, visiting).value, ReadMember(x, w, op, env, at, depth).value.at.pos - at.pos)
    decreases depth, 1, op, 1
  {
    hide ReadMembers, ReadVariant, ReadType, ReadAt, Eval, PlanOnGrid, TypeOnGrid, OpsOnGrid, BranchOnGrid, Multiple;
    match op
    case Field(_, _, _, _, _, _) =>
      TypeTakes(x, w, op.ty, op.staticLength, env, Cursor(at.pos, op.order), depth, grid, g, visiting);
    case Conditional(condition, thenMembers, elseMembers) =>
      MembersTake(x, w, if EvalBool(x.c.fp, condition, env).value then thenMembers else elseMembers, env, at, depth, grid, g, g, visiting, StartAt(0), at.pos);
    case Variant(_, _, _, _) => VariantTakes(x, w, op, env, at, depth, grid, start, g, visiting);
    case _ =>
  }

  /** The position after a member is a multiple of what the placement says. */
  lemma {:induction false} MemberLands(x: Source, w: Window, op: Op, env: Env, at: Cursor, depth: nat, grid: Grid, start: nat, g: nat)
    requires at.pos <= w.limit && PlanOnGrid(x.c, grid) && OpOnGrid(x.c, op, grid, start, g) && Multiple(at.pos, g)
    requires ReadMember(x, w, op, env, at, depth).Ok?
    ensures Multiple(ReadMember(x, w, op, env, at, depth).value.at.pos, After(x.c, op, g))
    decreases depth, 1, op, 2
  {
    hide ReadField, ReadBits, ReadAt, ReadBlock, ReadVariant, ReadMembers, PlanOnGrid, OpsOnGrid, TypeOnGrid, MemberRange, Gcd, Multiple, KnownSize;
    if op.Align? {
      AlignLands(x, w, op.e, op.staticAlignment, env, at, g);
    } else {
      var r := MemberRange(x.c, op, {});
      var n := ReadMember(x, w, op, env, at, depth).value.at.pos - at.pos;
      if r.Ok? {
        MemberTakes(x, w, op, env, at, depth, grid, start, g, {});
      }
      SizeDivides(r, n);
      Lands(at.pos, g, n, KnownSize(r));
    }
  }

  lemma AlignLands(x: Source, w: Window, e: Expr, known: Option<u64>, env: Env, at: Cursor, g: nat)
    requires Multiple(at.pos, g) && ReadAlign(x, w, e, known, env, at).Ok?
    ensures Multiple(ReadAlign(x, w, e, known, env, at).value.at.pos, After(x.c, Align(e, known), g))
  {
    hide Gcd;
    if known.Some? && known.value > 0 && g % known.value == 0 {
      MultipleTrans(at.pos, g, known.value);
    }
  }

  lemma {:induction false} OpSpans(x: Source, w: Window, op: Op, env: Env, at: Cursor, depth: nat, grid: Grid, start: nat, g: nat, visiting: set<SymbolId>, s: Extent, origin: nat)
    requires at.pos <= w.limit && PlanOnGrid(x.c, grid) && OpOnGrid(x.c, op, grid, start, g) && Multiple(at.pos, g)
    requires origin <= at.pos && Multiple(origin, start) && Spans(s, at.pos - origin)
    requires Step(x.c, op, s, visiting).Ok? && ReadMember(x, w, op, env, at, depth).Ok?
    ensures origin <= ReadMember(x, w, op, env, at, depth).value.at.pos
    ensures Spans(Step(x.c, op, s, visiting).value, ReadMember(x, w, op, env, at, depth).value.at.pos - origin)
    decreases depth, 1, op, 2
  {
    hide ReadField, ReadBits, ReadAt, ReadBlock, ReadVariant, ReadMembers, PlanOnGrid, OpsOnGrid, Spans, MemberRange, Gcd;
    var n := at.pos - origin;
    if op.Align? {
      var a := op.staticAlignment.value;
      MultipleTrans(origin, start, a);
      AlignShift(origin, n, a);
      SpansAlign(s, n, op.staticAlignment);
    } else {
      MemberTakes(x, w, op, env, at, depth, grid, start, g, visiting);
      SpansAdvance(s, n, MemberRange(x.c, op, visiting).value, ReadMember(x, w, op, env, at, depth).value.at.pos - at.pos);
    }
  }

  /** A list that starts at `origin`, read from its cursor `s` on. */
  lemma {:induction false} MembersTake(x: Source, w: Window, ops: seq<Op>, env: Env, at: Cursor, depth: nat, grid: Grid, start: nat, g: nat, visiting: set<SymbolId>, s: Extent, origin: nat)
    requires at.pos <= w.limit && PlanOnGrid(x.c, grid) && OpsOnGrid(x.c, ops, grid, start, g) && Multiple(at.pos, g)
    requires origin <= at.pos && Multiple(origin, start) && Spans(s, at.pos - origin)
    requires SequenceRange(x.c, ops, s, visiting).Ok? && ReadMembers(x, w, ops, env, at, depth).Ok?
    ensures Spans(SequenceRange(x.c, ops, s, visiting).value, ReadMembers(x, w, ops, env, at, depth).value.at.pos - origin)
    decreases depth, 1, ops, 0
  {
    hide ReadMember, PlanOnGrid, OpOnGrid, Multiple, After, Step, Spans;
    if ops != [] {
      var r := ReadMember(x, w, ops[0], env, at, depth).value;
      OpSpans(x, w, ops[0], env, at, depth, grid, start, g, visiting, s, origin);
      MemberLands(x, w, ops[0], env, at, depth, grid, start, g);
      MembersTake(x, w, ops[1..], r.env, r.at, depth, grid, start, After(x.c, ops[0], g), visiting, Step(x.c, ops[0], s, visiting).value, origin);
    }
  }

  /** The main theorem on bounds, for the decoder: what a successful decode consumes is within
      the bounds of its struct. */
  lemma DecodeWithinBounds(x: Source, id: SymbolId, parameters: Env, grid: Grid)
    requires id in x.c.plan.structs && PlanOnGrid(x.c, grid) && OpsOnGrid(x.c, x.c.plan.structs[id].members, grid, 0, 0)
    requires TypeRange(x.c, StructType(id), {}).Ok? && DecodeStruct(x, id, parameters).Ok?
    ensures Contains(TypeRange(x.c, StructType(id), {}).value, DecodeStruct(x, id, parameters).value.at.pos)
  {
    hide PlanOnGrid, OpsOnGrid, ReadMembers, SequenceRange;
    var s := x.c.plan.structs[id];
    var env := InitialEnv(x.c.plan, parameters).value;
    var depth := x.c.options.maxRecursionDepth - 1;
    assert ReadStruct(x, Whole(|x.d|), s, env, Cursor(0, Little), depth) == DecodeStruct(x, id, parameters);
    assert TypeRange(x.c, StructType(id), {}) == BaseRange(x.c, Named(id), {});
    MembersTake(x, Whole(|x.d|), s.members, WithSizes(s, env), Cursor(0, s.order), depth, grid, 0, 0, {} + {id}, StartAt(0), 0);
  }
}
