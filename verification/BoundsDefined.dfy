/** When bounds and fixed sizes exist: for which types, apart from 64-bit overflow. */
module BoundsDefined {
  import opened Outcome
  import opened Bytes
  import opened Expr
  import opened Plan
  import opened Decode
  import opened Bounds

  // ----- bounds -----

  /** Only an extent that is known before any run is evaluated, and it may name what is not known yet. */
  predicate IsPlainExtent(f: FloatUnit, d: Dim) {
    d.Fixed? ==> EvalSize(f, d.e, map[]).Ok? || EvalSize(f, d.e, map[]).error.MissingSymbol?
  }

  /** Every name that is used resolves without a cycle, and what stands in it is plain. */
  ghost predicate IsPlainBase(c: Context, base: Base, visiting: set<SymbolId>)
    decreases Unvisited(c.plan, visiting), 0, 0
  {
    base.Named? ==>
      var id := base.id;
      if id in c.plan.structs then id !in visiting && IsPlainList(c, c.plan.structs[id].members, visiting + {id})
      else id in c.plan.enums || (id in c.plan.aliases && id !in visiting && IsPlainType(c, c.plan.aliases[id], visiting + {id}))
  }

  /** A terminated type has a largest payload and is `bytes` or has one open dimension. */
  ghost predicate IsPlainType(c: Context, t: Type, visiting: set<SymbolId>)
    decreases Unvisited(c.plan, visiting), 0, 1
  {
    if t.terminator != [] then
      t.maxPayload.Some? && if t.base.BytesBase? then t.dims == [] || t.dims == [Remaining] else t.dims == [Remaining]
    else IsPlainBase(c, t.base, visiting) && forall d :: d in t.dims ==> IsPlainExtent(c.fp, d)
  }

  ghost predicate IsPlainBranch(c: Context, b: Branch, visiting: set<SymbolId>)
    decreases Unvisited(c.plan, visiting), 1, b, 0
  {
    match b
    case Typed(t) => IsPlainType(c, t, visiting)
    case Listed(members) => IsPlainList(c, members, visiting)
  }

  /** The members of a block, and of an `at` of unknown offset, are not looked at. */
  ghost predicate IsPlain(c: Context, op: Op, visiting: set<SymbolId>)
    decreases Unvisited(c.plan, visiting), 1, op, 0
  {
    match op
    case Field(_, _, ty, _, _, _) => IsPlainType(c, ty, visiting)
    case Align(_, known) => known.Some? && known.value > 0
    case At(_, known, members) => known.Some? ==> IsPlainList(c, members, visiting)
    case Conditional(_, thenMembers, elseMembers) => IsPlainList(c, thenMembers, visiting) && IsPlainList(c, elseMembers, visiting)
    case Variant(_, _, cases, default) =>
      && (forall i :: 0 <= i < |cases| ==> IsPlainBranch(c, cases[i].body, visiting))
      && (default.Some? ==> IsPlainBranch(c, default.value, visiting))
    case _ => true
  }

  ghost predicate IsPlainList(c: Context, ops: seq<Op>, visiting: set<SymbolId>)
    decreases Unvisited(c.plan, visiting), 1, ops, 0
  {
    forall i :: 0 <= i < |ops| ==> IsPlain(c, ops[i], visiting)
  }

  /** A result of an analysis that only an overflow can withhold, and nothing else but `plain` admits. */
  predicate Defined<T>(plain: bool, r: Result<T>) {
    (r.Ok? ==> plain) && (plain && r.Fail? ==> r.error.Overflow?)
  }

  lemma {:induction false} DimsAreDefined(f: FloatUnit, b: Range, dims: seq<Dim>)
    ensures Defined(forall d :: d in dims ==> IsPlainExtent(f, d), DimsRange(f, b, dims))
    decreases |dims|
  {
    hide EvalSize;
    if dims != [] {
      assert dims[0] in dims && forall d :: d in dims ==> d == dims[0] || d in dims[1..];
      var n := KnownExtent(f, dims[0]);
      if n.Ok? {
        var next := if n.value.None? then Ok(Range(0, None)) else MultiplyRange(b, n.value.value);
        if next.Ok? {
          DimsAreDefined(f, next.value, dims[1..]);
        }
      }
    }
  }

  lemma {:induction false} BaseIsDefined(c: Context, base: Base, visiting: set<SymbolId>)
    ensures Defined(IsPlainBase(c, base, visiting), BaseRange(c, base, visiting))
    decreases Unvisited(c.plan, visiting), 0, 0
  {
    hide SequenceRange, TypeRange, IsPlainList, IsPlainType;
    if base.Named? && base.id !in visiting {
      if base.id in c.plan.structs {
        ListIsDefined(c, c.plan.structs[base.id].members, StartAt(0), visiting + {base.id});
      } else if base.id !in c.plan.enums && base.id in c.plan.aliases {
        TypeIsDefined(c, c.plan.aliases[base.id], visiting + {base.id});
      }
    }
  }

  /** The main theorem on types: bounds exist only for plain types, and a plain type has bounds unless
      their computation overflows. */
  lemma {:induction false} TypeIsDefined(c: Context, t: Type, visiting: set<SymbolId>)
    ensures Defined(IsPlainType(c, t, visiting), TypeRange(c, t, visiting))
    ensures t.terminator != [] ==> (TypeRange(c, t, visiting).Ok? <==> IsPlainType(c, t, visiting) && t.maxPayload.value + |t.terminator| <= U64_MAX)
    decreases Unvisited(c.plan, visiting), 0, 1
  {
    hide BaseRange, IsPlainBase, IsPlainExtent;
    if t.terminator == [] {
      BaseIsDefined(c, t.base, visiting);
      if BaseRange(c, t.base, visiting).Ok? {
        DimsAreDefined(c.fp, BaseRange(c, t.base, visiting).value, t.dims);
      }
    }
  }

  lemma {:induction false} BranchIsDefined(c: Context, b: Branch, visiting: set<SymbolId>)
    ensures Defined(IsPlainBranch(c, b, visiting), BranchRange(c, b, visiting))
    decreases Unvisited(c.plan, visiting), 1, b, 0
  {
    hide TypeRange, SequenceRange, IsPlainType, IsPlainList;
    match b
    case Typed(t) => TypeIsDefined(c, t, visiting);
    case Listed(members) => ListIsDefined(c, members, StartAt(0), visiting);
  }

  lemma {:induction false} CasesAreDefined(c: Context, op: Op, i: nat, visiting: set<SymbolId>)
    requires op.Variant? && i <= |op.cases|
    ensures Defined((forall j :: i <= j < |op.cases| ==> IsPlainBranch(c, op.cases[j].body, visiting))
                    && (op.default.Some? ==> IsPlainBranch(c, op.default.value, visiting)), CasesRange(c, op, i, visiting))
    decreases Unvisited(c.plan, visiting), 1, op, 0, |op.cases| - i
  {
    hide BranchRange, IsPlainBranch;
    if i < |op.cases| {
      BranchIsDefined(c, op.cases[i].body, visiting);
      CasesAreDefined(c, op, i + 1, visiting);
    } else if op.default.Some? {
      BranchIsDefined(c, op.default.value, visiting);
    }
  }

  lemma {:induction false} StepIsDefined(c: Context, op: Op, s: Extent, visiting: set<SymbolId>)
    ensures Defined(IsPlain(c, op, visiting), Step(c, op, s, visiting))
    decreases Unvisited(c.plan, visiting), 1, op, 2
  {
    hide SequenceRange, TypeRange, IsPlainList, IsPlainType, CasesRange, IsPlainBranch;
    match op
    case Field(_, _, ty, _, _, _) => TypeIsDefined(c, ty, visiting);
    case At(_, known, members) =>
      if known.Some? {
        ListIsDefined(c, members, StartAt(known.value), visiting);
      }
    case Conditional(_, thenMembers, elseMembers) =>
      ListIsDefined(c, thenMembers, StartAt(0), visiting);
      ListIsDefined(c, elseMembers, StartAt(0), visiting);
    case Variant(_, _, cases, default) => CasesAreDefined(c, op, 0, visiting);
    case _ =>
  }

  lemma {:induction false} ListIsDefined(c: Context, ops: seq<Op>, s: Extent, visiting: set<SymbolId>)
    ensures Defined(IsPlainList(c, ops, visiting), SequenceRange(c, ops, s, visiting))
    decreases Unvisited(c.plan, visiting), 1, ops, 3
  {
    hide Step, IsPlain;
    if ops != [] {
      assert ops[0] in ops;
      StepIsDefined(c, ops[0], s, visiting);
      assert IsPlainList(c, ops, visiting) <==> IsPlain(c, ops[0], visiting) && IsPlainList(c, ops[1..], visiting) by {
        assert forall i :: 0 < i < |ops| ==> ops[i] == ops[1..][i - 1];
        assert forall i :: 0 <= i < |ops[1..]| ==> ops[1..][i] == ops[i + 1];
      }
      if Step(c, ops[0], s, visiting).Ok? {
        ListIsDefined(c, ops[1..], Step(c, ops[0], s, visiting).value, visiting);
      }
    }
  }

  // ----- fixed sizes -----

  predicate IsFixedExtent(f: FloatUnit, d: Dim) {
    d.Fixed? && EvalSize(f, d.e, map[]).Ok?
  }

  /** Of fixed place are fields of fixed size, bits, aliases and alignments. */
  ghost predicate IsFixedMember(c: Context, op: Op, visiting: set<SymbolId>)
    decreases Unvisited(c.plan, visiting), 1
  {
    match op
    case Field(_, _, ty, _, _, _) => IsFixedType(c, ty, visiting)
    case Bits(_) => true
    case Alias(_, _, _, _) => true
    case Align(_, known) => known.Some? && known.value > 0
    case _ => false
  }

  ghost predicate IsFixedType(c: Context, t: Type, visiting: set<SymbolId>)
    decreases Unvisited(c.plan, visiting), 0
  {
    && t.terminator == [] && (forall d :: d in t.dims ==> IsFixedExtent(c.fp, d))
    && (t.base.Named? ==>
          var id := t.base.id;
          if id in c.plan.structs then
            id !in visiting && forall i :: 0 <= i < |c.plan.structs[id].members| ==> IsFixedMember(c, c.plan.structs[id].members[i], visiting + {id})
          else id in c.plan.enums || (id in c.plan.aliases && id !in visiting && IsFixedType(c, c.plan.aliases[id], visiting + {id})))
  }

  lemma {:induction false} FixedExtentsWhen(f: FloatUnit, base: u64, dims: seq<Dim>)
    ensures FixedExtents(f, base, dims).Some? <==>
              (forall d :: d in dims ==> IsFixedExtent(f, d)) && DimsRange(f, Range(base, Some(base)), dims).Ok?
    decreases |dims|
  {
    hide EvalSize;
    if dims != [] {
      assert dims[0] in dims && forall d :: d in dims ==> d == dims[0] || d in dims[1..];
      if IsFixedExtent(f, dims[0]) && MultiplyChecked(base, EvalSize(f, dims[0].e, map[]).value).Ok? {
        FixedExtentsWhen(f, MultiplyChecked(base, EvalSize(f, dims[0].e, map[]).value).value, dims[1..]);
      }
    }
  }

  /** The main theorem on sizes: a type has a fixed size exactly when every part of it has a fixed place
      and its bounds exist. By `FixedSizeIsExact` both bounds then are that size. */
  lemma {:induction false} FixedSizeWhen(c: Context, t: Type, visiting: set<SymbolId>)
    ensures FixedSize(c, t, visiting).Some? <==> IsFixedType(c, t, visiting) && TypeRange(c, t, visiting).Ok?
    decreases Unvisited(c.plan, visiting), 0
  {
    hide FixedMembers, SequenceRange, IsFixedMember, IsFixedExtent, DimsRange, FixedExtents;
    if t.base.Named? && t.base.id !in visiting {
      var id := t.base.id;
      if id in c.plan.structs {
        FixedMembersWhen(c, c.plan.structs[id].members, 0, visiting + {id});
      } else if id !in c.plan.enums && id in c.plan.aliases {
        FixedSizeWhen(c, c.plan.aliases[id], visiting + {id});
      }
    }
    if FixedBase(c, t.base, visiting).Some? {
      FixedBaseIsExact(c, t.base, visiting);
      FixedExtentsWhen(c.fp, FixedBase(c, t.base, visiting).value, t.dims);
    }
  }

  /** One member from a place that is known. */
  lemma {:induction false} FixedMemberWhen(c: Context, op: Op, total: u64, visiting: set<SymbolId>)
    ensures var next := FixedMembers(c, [op], total, visiting);
            && (next.Some? <==> IsFixedMember(c, op, visiting) && Step(c, op, StartAt(total), visiting).Ok?)
            && (next.Some? ==> Step(c, op, StartAt(total), visiting) == Ok(StartAt(next.value)))
    decreases Unvisited(c.plan, visiting), 1, 0
  {
    hide FixedSize, TypeRange, IsFixedType;
    assert [op][1..] == [];
    if op.Field? {
      FixedSizeWhen(c, op.ty, visiting);
      if FixedSize(c, op.ty, visiting).Some? {
        FixedSizeIsExact(c, op.ty, visiting);
      }
    }
  }

  lemma {:induction false} FixedMembersWhen(c: Context, ops: seq<Op>, total: u64, visiting: set<SymbolId>)
    ensures FixedMembers(c, ops, total, visiting).Some? <==>
              (forall i :: 0 <= i < |ops| ==> IsFixedMember(c, ops[i], visiting)) && SequenceRange(c, ops, StartAt(total), visiting).Ok?
    decreases Unvisited(c.plan, visiting), 1, 1 + |ops|
  {
    hide FixedSize, TypeRange, IsFixedMember, Step;
    if ops != [] {
      assert forall i :: 0 < i < |ops| ==> ops[i] == ops[1..][i - 1];
      assert forall i :: 0 <= i < |ops[1..]| ==> ops[1..][i] == ops[i + 1];
      FixedMemberWhen(c, ops[0], total, visiting);
      assert [ops[0]][1..] == [];
      var next := FixedMembers(c, [ops[0]], total, visiting);
      if next.Some? {
        assert FixedMembers(c, ops, total, visiting) == FixedMembers(c, ops[1..], next.value, visiting);
        FixedMembersWhen(c, ops[1..], next.value, visiting);
      } else {
        assert FixedMembers(c, ops, total, visiting).None?;
      }
    }
  }
}
