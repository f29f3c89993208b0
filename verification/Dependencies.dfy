/** Define before use (`validateLayoutDependencies`): what the validator accepts, and what it
    promises about every run of either codec. */
module Dependencies {
  import opened Outcome
  import opened Expr
  import opened Plan

  /** The symbols that are bound before any struct: parameters, constants and enum items. */
  function ModuleValues(m: Module): set<SymbolId> {
    m.values.Keys + m.parameters.Keys
  }

  const INVALID_SYMBOL: SymbolId := 0

  /** The symbol table lists as values only what the module binds. */
  predicate Coherent(m: Module) {
    forall id :: id in m.kinds ==>
      && (m.kinds[id].ParameterKind? ==> id in m.parameters)
      && (m.kinds[id].EnumItemKind? ==> id in m.values)
  }

  predicate SymbolAllowed(m: Module, id: SymbolId, available: set<SymbolId>) {
    || IsBuiltin(id)
    || id in available
    || (&& id in m.kinds
        && (|| m.kinds[id].ParameterKind?
            || m.kinds[id].EnumItemKind?
            || (m.kinds[id].ConstantKind? && id in m.values)))
  }

  /** `validateExprDependencies` */
  predicate ExprAllowed(m: Module, e: Expr, available: set<SymbolId>) {
    forall id :: id in Symbols(e) ==> SymbolAllowed(m, id, available)
  }

  predicate DimsAllowed(m: Module, dims: seq<Dim>, available: set<SymbolId>) {
    forall d :: d in dims && !d.Remaining? ==> ExprAllowed(m, d.e, available)
  }

  function GroupSymbols(g: seq<BitsField>): set<SymbolId> {
    if g == [] then {} else {g[0].symbol} + GroupSymbols(g[1..])
  }

  predicate BranchAllowed(m: Module, b: Branch, available: set<SymbolId>)
    decreases b, 0
  {
    match b
    case Typed(t) => DimsAllowed(m, t.dims, available)
    case Listed(members) => MembersAllowed(m, members, available).Some?
  }

  /** One member: the symbols that are available after it. */
  function MemberAllowed(m: Module, op: Op, available: set<SymbolId>): (r: Option<set<SymbolId>>)
    ensures r.Some? ==> available <= r.value
    decreases op, 0
  {
    match op
    case Virtual(symbol, _, e) => if ExprAllowed(m, e, available) && symbol != INVALID_SYMBOL then Some(available + {symbol}) else None
    case Alias(symbol, _, target, _) =>
      if && symbol != INVALID_SYMBOL && target != INVALID_SYMBOL
         && target in m.kinds && m.kinds[target].FieldKind? && target in available
      then Some(available + {symbol}) else None
    case Field(symbol, _, ty, _, _, _) => if DimsAllowed(m, ty.dims, available) && symbol != INVALID_SYMBOL then Some(available + {symbol}) else None
    case Bits(group) => if INVALID_SYMBOL !in GroupSymbols(group) then Some(available + GroupSymbols(group)) else None
    case Align(e, _) => if ExprAllowed(m, e, available) then Some(available) else None
    case At(e, _, members) => if ExprAllowed(m, e, available) then MembersAllowed(m, members, available) else None
    case Block(e, _, members) => if ExprAllowed(m, e, available) then MembersAllowed(m, members, available) else None
    case Conditional(e, thenMembers, elseMembers) =>
      if && ExprAllowed(m, e, available)
         && MembersAllowed(m, thenMembers, available).Some?
         && MembersAllowed(m, elseMembers, available).Some?
      then Some(available) else None
    case Variant(_, e, cases, default) =>
      if && ExprAllowed(m, e, available)
         && (forall i :: 0 <= i < |cases| ==> BranchAllowed(m, cases[i].body, available))
         && (default.Some? ==> BranchAllowed(m, default.value, available))
      then Some(available) else None
  }

  function MembersAllowed(m: Module, ops: seq<Op>, available: set<SymbolId>): (r: Option<set<SymbolId>>)
    ensures r.Some? ==> available <= r.value
    decreases ops, 0
  {
    if ops == [] then Some(available)
    else
      var next := MemberAllowed(m, ops[0], available);
      if next.None? then None else MembersAllowed(m, ops[1..], next.value)
  }

  predicate StructAllowed(m: Module, s: Struct) {
    var after := MembersAllowed(m, s.members, ModuleValues(m));
    after.Some? && forall e :: e in s.requirements ==> ExprAllowed(m, e, after.value)
  }

  /** `validateLayoutDependencies` */
  predicate PlanAllowed(m: Module) {
    forall id :: id in m.structs ==> StructAllowed(m, m.structs[id])
  }

  // ----- the validator as it runs -----

  method ValidateExpr(m: Module, e: Expr, available: set<SymbolId>) returns (ok: bool)
    ensures ok == ExprAllowed(m, e, available)
  {
    var ids := Symbols(e);
    while ids != {}
      invariant ids <= Symbols(e)
      invariant forall id :: id in Symbols(e) - ids ==> SymbolAllowed(m, id, available)
      decreases ids
    {
      var id :| id in ids;
      if !SymbolAllowed(m, id, available) {
        return false;
      }
      ids := ids - {id};
    }
    ok := true;
  }

  method ValidateDims(m: Module, dims: seq<Dim>, available: set<SymbolId>) returns (ok: bool)
    ensures ok == DimsAllowed(m, dims, available)
  {
    for i := 0 to |dims|
      invariant DimsAllowed(m, dims[..i], available)
    {
      if !dims[i].Remaining? {
        ok := ValidateExpr(m, dims[i].e, available);
        if !ok {
          return;
        }
      }
      assert dims[..i + 1] == dims[..i] + [dims[i]];
    }
    assert dims[..|dims|] == dims;
    ok := true;
  }

  method ValidateBranch(m: Module, b: Branch, available: set<SymbolId>) returns (ok: bool)
    ensures ok == BranchAllowed(m, b, available)
    decreases b, 1
  {
    match b
    case Typed(t) => ok := ValidateDims(m, t.dims, available);
    case Listed(members) =>
      var copy;
      ok, copy := ValidateMembers(m, members, available);
  }

  method ValidateVariant(m: Module, op: Op, available: set<SymbolId>) returns (ok: bool)
    requires op.Variant?
    ensures ok == MemberAllowed(m, op, available).Some?
    decreases op, 1
  {
    ok := ValidateExpr(m, op.discriminator, available);
    if !ok {
      return;
    }
    for i := 0 to |op.cases|
      invariant forall j :: 0 <= j < i ==> BranchAllowed(m, op.cases[j].body, available)
    {
      ok := ValidateBranch(m, op.cases[i].body, available);
      if !ok {
        return;
      }
    }
    if op.default.Some? {
      ok := ValidateBranch(m, op.default.value, available);
    }
  }

  method ValidateGroup(g: seq<BitsField>, available: set<SymbolId>) returns (ok: bool, after: set<SymbolId>)
    ensures ok == (INVALID_SYMBOL !in GroupSymbols(g))
    ensures ok ==> after == available + GroupSymbols(g)
  {
    after := available;
    for i := 0 to |g|
      invariant after == available + GroupSymbols(g[..i]) && INVALID_SYMBOL !in GroupSymbols(g[..i])
    {
      GroupSymbolsSplit(g[..i], [g[i]]);
      GroupSymbolsSplit(g[..i + 1], g[i + 1..]);
      assert g[..i + 1] == g[..i] + [g[i]] && g == g[..i + 1] + g[i + 1..];
      if g[i].symbol == INVALID_SYMBOL {
        return false, after;
      }
      after := after + {g[i].symbol};
    }
    assert g[..|g|] == g;
    ok := true;
  }

  lemma {:induction false} GroupSymbolsSplit(g: seq<BitsField>, h: seq<BitsField>)
    ensures GroupSymbols(g + h) == GroupSymbols(g) + GroupSymbols(h)
  {
    if g == [] {
      assert g + h == h;
    } else {
      GroupSymbolsSplit(g[1..], h);
      assert (g + h)[1..] == g[1..] + h;
    }
  }

  /** One turn of the loop of `validateMembersDependencies`. */
  method ValidateMember(m: Module, op: Op, available: set<SymbolId>) returns (ok: bool, after: set<SymbolId>)
    ensures MemberAllowed(m, op, available) == if ok then Some(after) else None
    decreases op, 2
  {
    after := available;
    match op
    case Virtual(symbol, _, e) =>
      ok := ValidateExpr(m, e, available);
      ok := ok && symbol != INVALID_SYMBOL;
      after := available + {symbol};
    case Alias(symbol, _, target, _) =>
      ok := symbol != INVALID_SYMBOL && target != INVALID_SYMBOL;
      ok := ok && target in m.kinds && m.kinds[target].FieldKind? && target in available;
      after := available + {symbol};
    case Field(symbol, _, ty, _, _, _) =>
      ok := ValidateDims(m, ty.dims, available);
      ok := ok && symbol != INVALID_SYMBOL;
      after := available + {symbol};
    case Bits(group) =>
      ok, after := ValidateGroup(group, available);
    case Align(e, _) =>
      ok := ValidateExpr(m, e, available);
    case At(e, _, members) =>
      ok := ValidateExpr(m, e, available);
      if ok {
        ok, after := ValidateMembers(m, members, available);
      }
    case Block(e, _, members) =>
      ok := ValidateExpr(m, e, available);
      if ok {
        ok, after := ValidateMembers(m, members, available);
      }
    case Conditional(e, thenMembers, elseMembers) =>
      ok := ValidateExpr(m, e, available);
      var copy;
      if ok {
        ok, copy := ValidateMembers(m, thenMembers, available);
      }
      if ok {
        ok, copy := ValidateMembers(m, elseMembers, available);
      }
    case Variant(_, _, _, _) =>
      ok := ValidateVariant(m, op, available);
  }

  /** `validateMembersDependencies`: the loop over the members threads the available symbols. */
  method ValidateMembers(m: Module, ops: seq<Op>, available: set<SymbolId>) returns (ok: bool, after: set<SymbolId>)
    ensures MembersAllowed(m, ops, available) == if ok then Some(after) else None
    decreases ops, 3
  {
    after := available;
    assert ops[0..] == ops;
    for i := 0 to |ops|
      invariant MembersAllowed(m, ops, available) == MembersAllowed(m, ops[i..], after)
    {
      assert ops[i..][0] == ops[i] && ops[i..][1..] == ops[i + 1..];
      ok, after := ValidateMember(m, ops[i], after);
      if !ok {
        return;
      }
    }
    ok := true;
  }
}
