/** What the dependency validator accepts, said of each member by itself: the members before it declare
    symbols, and it may use these and what stands before the list. */
module DependenciesExact {
  import opened Outcome
  import opened Expr
  import opened Plan
  import opened Dependencies

  // ----- what members declare and use -----

  /** The symbols that a member makes available: its own, and those of the members of a block or an
      `at`. What the branches of a conditional or a variant declare stays inside them. */
  function Declared(op: Op): set<SymbolId>
    decreases op
  {
    match op
    case Field(symbol, _, _, _, _, _) => {symbol}
    case Virtual(symbol, _, _) => {symbol}
    case Alias(symbol, _, _, _) => {symbol}
    case Bits(group) => set f | f in group :: f.symbol
    case At(_, _, members) => set i, s | 0 <= i < |members| && s in Declared(members[i]) :: s
    case Block(_, _, members) => set i, s | 0 <= i < |members| && s in Declared(members[i]) :: s
    case _ => {}
  }

  function DeclaredAmong(ops: seq<Op>): set<SymbolId> {
    set i, s | 0 <= i < |ops| && s in Declared(ops[i]) :: s
  }

  /** A builtin, an available symbol, or a parameter, enum item or valued constant of the module. */
  predicate IsUsable(m: Module, s: SymbolId, available: set<SymbolId>) {
    || s in {NEXT, SIZE_IN_BYTES, MIN_SIZE_IN_BYTES, MAX_SIZE_IN_BYTES}
    || s in available
    || (s in m.kinds && (m.kinds[s] in {ParameterKind, EnumItemKind} || (m.kinds[s] == ConstantKind && s in m.values)))
  }

  predicate IsExtentOf(e: Expr, t: Type) {
    exists d :: d in t.dims && (d == Fixed(e) || d == Dynamic(e))
  }

  /** `e` is an expression of the member itself. */
  predicate HasExpression(op: Op, e: Expr) {
    match op
    case Field(_, _, ty, _, _, _) => IsExtentOf(e, ty)
    case Virtual(_, _, x) => e == x
    case Align(x, _) => e == x
    case At(x, _, _) => e == x
    case Block(x, _, _) => e == x
    case Conditional(x, _, _) => e == x
    case Variant(_, x, cases, default) =>
      || e == x
      || (exists i :: 0 <= i < |cases| && cases[i].body.Typed? && IsExtentOf(e, cases[i].body.ty))
      || (default.Some? && default.value.Typed? && IsExtentOf(e, default.value.ty))
    case _ => false
  }

  ghost predicate UsesUnknown(m: Module, op: Op, available: set<SymbolId>) {
    exists e, s :: HasExpression(op, e) && s in Symbols(e) && !IsUsable(m, s, available)
  }

  /** The member by itself is refused where `available` is. */
  ghost predicate IsRefused(m: Module, op: Op, available: set<SymbolId>) {
    || UsesUnknown(m, op, available)
    || (!(op.At? || op.Block?) && INVALID_SYMBOL in Declared(op))
    || (op.Alias? && (op.target == INVALID_SYMBOL || op.target !in m.kinds || m.kinds[op.target] != FieldKind || op.target !in available))
  }

  /** A member, or one inside it, is refused. */
  ghost predicate Offends(m: Module, op: Op, available: set<SymbolId>)
    decreases op, 0
  {
    || IsRefused(m, op, available)
    || match op
       case At(_, _, members) => OneOffends(m, members, available)
       case Block(_, _, members) => OneOffends(m, members, available)
       case Conditional(_, thenMembers, elseMembers) => OneOffends(m, thenMembers, available) || OneOffends(m, elseMembers, available)
       case Variant(_, _, cases, default) =>
         || (exists i :: 0 <= i < |cases| && BranchOffends(m, cases[i].body, available))
         || (default.Some? && BranchOffends(m, default.value, available))
       case _ => false
  }

  ghost predicate BranchOffends(m: Module, b: Branch, available: set<SymbolId>)
    decreases b, 0
  {
    b.Listed? && OneOffends(m, b.members, available)
  }

  /** Some member offends, with what the members before it declare. */
  ghost predicate OneOffends(m: Module, ops: seq<Op>, available: set<SymbolId>)
    decreases ops, 1
  {
    exists i :: 0 <= i < |ops| && Offends(m, ops[i], available + DeclaredAmong(ops[..i]))
  }

  // ----- the validator -----

  lemma UsableIsAllowed(m: Module, s: SymbolId, available: set<SymbolId>)
    ensures SymbolAllowed(m, s, available) <==> IsUsable(m, s, available)
  {
  }

  lemma {:induction false} GroupDeclares(g: seq<BitsField>)
    ensures GroupSymbols(g) == set f | f in g :: f.symbol
  {
    if g != [] {
      GroupDeclares(g[1..]);
      assert g == [g[0]] + g[1..];
    }
  }

  lemma DeclaredFirst(ops: seq<Op>)
    requires ops != []
    ensures DeclaredAmong(ops) == Declared(ops[0]) + DeclaredAmong(ops[1..])
  {
    hide Declared;
    forall s | s in DeclaredAmong(ops) ensures s in Declared(ops[0]) + DeclaredAmong(ops[1..]) {
      var i :| 0 <= i < |ops| && s in Declared(ops[i]);
      assert i > 0 ==> ops[1..][i - 1] == ops[i];
    }
    forall s | s in Declared(ops[0]) + DeclaredAmong(ops[1..]) ensures s in DeclaredAmong(ops) {
      if s in DeclaredAmong(ops[1..]) {
        var i :| 0 <= i < |ops[1..]| && s in Declared(ops[1..][i]);
        assert ops[i + 1] == ops[1..][i];
      }
    }
  }

  lemma DimsAreUsable(m: Module, t: Type, available: set<SymbolId>)
    ensures DimsAllowed(m, t.dims, available) <==> forall e, s :: IsExtentOf(e, t) && s in Symbols(e) ==> IsUsable(m, s, available)
  {
    if DimsAllowed(m, t.dims, available) {
      forall e, s | IsExtentOf(e, t) && s in Symbols(e) ensures IsUsable(m, s, available) {
        var d :| d in t.dims && (d == Fixed(e) || d == Dynamic(e));
        assert ExprAllowed(m, d.e, available);
        UsableIsAllowed(m, s, available);
      }
    }
    if forall e, s :: IsExtentOf(e, t) && s in Symbols(e) ==> IsUsable(m, s, available) {
      forall d | d in t.dims && !d.Remaining? ensures ExprAllowed(m, d.e, available) {
        assert d == Fixed(d.e) || d == Dynamic(d.e);
        assert IsExtentOf(d.e, t);
        forall s | s in Symbols(d.e) ensures SymbolAllowed(m, s, available) {
          UsableIsAllowed(m, s, available);
        }
      }
    }
  }

  lemma {:induction false} BranchIs(m: Module, b: Branch, available: set<SymbolId>)
    ensures BranchAllowed(m, b, available) <==>
              !BranchOffends(m, b, available) && (b.Typed? ==> forall e, s :: IsExtentOf(e, b.ty) && s in Symbols(e) ==> IsUsable(m, s, available))
    decreases b, 0
  {
    hide OneOffends, IsUsable, IsExtentOf, DimsAllowed;
    match b
    case Typed(t) => DimsAreUsable(m, t, available);
    case Listed(members) => MembersAre(m, members, available);
  }

  /** The expressions of a variant: the discriminator and the extents of its typed branches. */
  lemma VariantUses(m: Module, op: Op, available: set<SymbolId>)
    requires op.Variant?
    ensures !UsesUnknown(m, op, available) <==>
              && ExprAllowed(m, op.discriminator, available)
              && (forall i :: 0 <= i < |op.cases| && op.cases[i].body.Typed? ==>
                    forall e, s :: IsExtentOf(e, op.cases[i].body.ty) && s in Symbols(e) ==> IsUsable(m, s, available))
              && (op.default.Some? && op.default.value.Typed? ==>
                    forall e, s :: IsExtentOf(e, op.default.value.ty) && s in Symbols(e) ==> IsUsable(m, s, available))
  {
    hide IsExtentOf, IsUsable, SymbolAllowed;
    forall s ensures SymbolAllowed(m, s, available) <==> IsUsable(m, s, available) {
      UsableIsAllowed(m, s, available);
    }
    assert HasExpression(op, op.discriminator);
    forall i, e | 0 <= i < |op.cases| && op.cases[i].body.Typed? && IsExtentOf(e, op.cases[i].body.ty) ensures HasExpression(op, e) { }
    forall e | op.default.Some? && op.default.value.Typed? && IsExtentOf(e, op.default.value.ty) ensures HasExpression(op, e) { }
  }

  /** For the members with one expression. */
  lemma SingleUses(m: Module, op: Op, x: Expr, available: set<SymbolId>)
    requires forall e :: HasExpression(op, e) <==> e == x
    ensures UsesUnknown(m, op, available) <==> !ExprAllowed(m, x, available)
  {
    hide HasExpression;
    forall s ensures SymbolAllowed(m, s, available) <==> IsUsable(m, s, available) {
      UsableIsAllowed(m, s, available);
    }
    assert HasExpression(op, x);
  }

  lemma {:induction false} MemberIs(m: Module, op: Op, available: set<SymbolId>)
    ensures MemberAllowed(m, op, available) == if Offends(m, op, available) then None else Some(available + Declared(op))
    decreases op, 1
  {
    hide OneOffends, IsUsable, IsExtentOf, DimsAllowed, ExprAllowed, MembersAllowed, BranchAllowed, BranchOffends;
    match op {
      case Field(_, _, ty, _, _, _) => FieldIs(m, op, available);
      case Virtual(_, _, e) => SingleUses(m, op, e, available);
      case Alias(_, _, _, _) =>
      case Bits(group) => GroupDeclares(group);
      case Align(e, _) => SingleUses(m, op, e, available);
      case At(e, _, members) =>
        SingleUses(m, op, e, available);
        MembersAre(m, members, available);
        assert Declared(op) == DeclaredAmong(members);
      case Block(e, _, members) =>
        SingleUses(m, op, e, available);
        MembersAre(m, members, available);
        assert Declared(op) == DeclaredAmong(members);
      case Conditional(e, thenMembers, elseMembers) =>
        SingleUses(m, op, e, available);
        MembersAre(m, thenMembers, available);
        MembersAre(m, elseMembers, available);
        assert available + {} == available;
      case Variant(_, _, cases, default) =>
        VariantIs(m, op, available);
        assert available + {} == available;
    }
    assert available + {} == available;
  }

  lemma FieldIs(m: Module, op: Op, available: set<SymbolId>)
    requires op.Field?
    ensures UsesUnknown(m, op, available) <==> !DimsAllowed(m, op.ty.dims, available)
  {
    hide IsExtentOf, IsUsable, DimsAllowed;
    DimsAreUsable(m, op.ty, available);
    forall e ensures HasExpression(op, e) <==> IsExtentOf(e, op.ty) { }
  }

  lemma {:induction false} VariantIs(m: Module, op: Op, available: set<SymbolId>)
    requires op.Variant?
    ensures MemberAllowed(m, op, available) == if Offends(m, op, available) then None else Some(available)
    decreases op, 0
  {
    hide OneOffends, IsUsable, IsExtentOf, DimsAllowed, ExprAllowed, MembersAllowed, BranchAllowed, BranchOffends, UsesUnknown;
    VariantUses(m, op, available);
    forall i | 0 <= i < |op.cases|
      ensures BranchAllowed(m, op.cases[i].body, available) <==>
                !BranchOffends(m, op.cases[i].body, available)
                && (op.cases[i].body.Typed? ==> forall e, s :: IsExtentOf(e, op.cases[i].body.ty) && s in Symbols(e) ==> IsUsable(m, s, available))
    {
      BranchIs(m, op.cases[i].body, available);
    }
    if op.default.Some? {
      BranchIs(m, op.default.value, available);
    }
  }

  /** The main theorem: a list is accepted exactly when no member of it offends, and then exactly the
      symbols that its members declare are available after it. */
  lemma {:induction false} MembersAre(m: Module, ops: seq<Op>, available: set<SymbolId>)
    ensures MembersAllowed(m, ops, available) == if OneOffends(m, ops, available) then None else Some(available + DeclaredAmong(ops))
    decreases ops, 2
  {
    hide Offends, Declared, MemberAllowed;
    if ops == [] {
      assert available + DeclaredAmong(ops) == available;
    } else {
      MemberIs(m, ops[0], available);
      assert ops[..0] == [];
      assert available + DeclaredAmong(ops[..0]) == available;
      if !Offends(m, ops[0], available) {
        var next := available + Declared(ops[0]);
        MembersAre(m, ops[1..], next);
        DeclaredFirst(ops);
        assert next + DeclaredAmong(ops[1..]) == available + DeclaredAmong(ops);
        forall i | 0 <= i < |ops[1..]| ensures next + DeclaredAmong(ops[1..][..i]) == available + DeclaredAmong(ops[..i + 1]) {
          DeclaredFirst(ops[..i + 1]);
          assert ops[..i + 1][1..] == ops[1..][..i];
        }
        OffendersShift(m, ops, available, next);
      } else {
        assert OneOffends(m, ops, available);
      }
    }
  }

  lemma OffendersShift(m: Module, ops: seq<Op>, available: set<SymbolId>, next: set<SymbolId>)
    requires ops != [] && !Offends(m, ops[0], available) && available + DeclaredAmong(ops[..0]) == available
    requires forall i :: 0 <= i < |ops[1..]| ==> next + DeclaredAmong(ops[1..][..i]) == available + DeclaredAmong(ops[..i + 1])
    ensures OneOffends(m, ops, available) <==> OneOffends(m, ops[1..], next)
  {
    hide Offends, DeclaredAmong;
    if OneOffends(m, ops, available) {
      var i :| 0 <= i < |ops| && Offends(m, ops[i], available + DeclaredAmong(ops[..i]));
      assert i > 0;
      assert ops[1..][i - 1] == ops[i];
      assert Offends(m, ops[1..][i - 1], next + DeclaredAmong(ops[1..][..i - 1]));
    }
    if OneOffends(m, ops[1..], next) {
      var i :| 0 <= i < |ops[1..]| && Offends(m, ops[1..][i], next + DeclaredAmong(ops[1..][..i]));
      assert ops[1..][i] == ops[i + 1];
      assert Offends(m, ops[i + 1], available + DeclaredAmong(ops[..i + 1]));
    }
  }

  /** A plan is accepted exactly when in no struct a member offends, starting with the values of the
      module, and the requirements use only what is available at its end. */
  lemma PlanIs(m: Module)
    ensures PlanAllowed(m) <==>
              forall id :: id in m.structs ==>
                var s := m.structs[id];
                && !OneOffends(m, s.members, m.values.Keys + m.parameters.Keys)
                && forall e, x :: e in s.requirements && x in Symbols(e) ==>
                     IsUsable(m, x, m.values.Keys + m.parameters.Keys + DeclaredAmong(s.members))
  {
    hide OneOffends, MembersAllowed, DeclaredAmong;
    forall id | id in m.structs
      ensures StructAllowed(m, m.structs[id]) <==>
                && !OneOffends(m, m.structs[id].members, m.values.Keys + m.parameters.Keys)
                && forall e, x :: e in m.structs[id].requirements && x in Symbols(e) ==>
                     IsUsable(m, x, m.values.Keys + m.parameters.Keys + DeclaredAmong(m.structs[id].members))
    {
      StructIs(m, m.structs[id]);
    }
  }

  lemma StructIs(m: Module, s: Struct)
    ensures StructAllowed(m, s) <==>
              && !OneOffends(m, s.members, m.values.Keys + m.parameters.Keys)
              && forall e, x :: e in s.requirements && x in Symbols(e) ==>
                   IsUsable(m, x, m.values.Keys + m.parameters.Keys + DeclaredAmong(s.members))
  {
    hide OneOffends, MembersAllowed, DeclaredAmong;
    MembersAre(m, s.members, ModuleValues(m));
    forall x, a ensures SymbolAllowed(m, x, a) <==> IsUsable(m, x, a) {
      UsableIsAllowed(m, x, a);
    }
  }
}
