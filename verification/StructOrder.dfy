/** The order in which a code generator emits structs: each after those that it holds by value
    (`collectStructDepsMembers`, `topoVisitStruct`). */
module StructOrder {
  import opened Outcome
  import opened Expr
  import opened Plan
  import opened Dependencies
  import opened Digraph

  /** `resolveAlias`: what an alias stands for in the end; aliases that name each other fail. */
  function ResolveAlias(m: Module, base: Base, seen: set<SymbolId>): Option<Base>
    decreases m.aliases.Keys - seen
  {
    if !base.Named? then Some(base)
    else if base.id in seen then None
    else if base.id !in m.aliases then Some(base)
    else ResolveAlias(m, m.aliases[base.id].base, seen + {base.id})
  }

  function TypeDeps(m: Module, t: Type): Option<set<SymbolId>> {
    match ResolveAlias(m, t.base, {})
    case None => None
    case Some(base) => Some(if base.Named? && base.id in m.structs then {base.id} else {})
  }

  function Both(a: Option<set<SymbolId>>, b: Option<set<SymbolId>>): Option<set<SymbolId>> {
    if a.Some? && b.Some? then Some(a.value + b.value) else None
  }

  function BranchDeps(m: Module, b: Branch): Option<set<SymbolId>>
    decreases b, 0
  {
    match b
    case Typed(t) => TypeDeps(m, t)
    case Listed(members) => MembersDeps(m, members)
  }

  function CasesDeps(m: Module, op: Op, i: nat): Option<set<SymbolId>>
    requires op.Variant? && i <= |op.cases|
    decreases op, 0, |op.cases| - i
  {
    if i == |op.cases| then
      if op.default.None? then Some({}) else BranchDeps(m, op.default.value)
    else Both(BranchDeps(m, op.cases[i].body), CasesDeps(m, op, i + 1))
  }

  /** The structs that a member holds by value. The members of a conditional are not collected. */
  function MemberDeps(m: Module, op: Op): Option<set<SymbolId>>
    decreases op, 1
  {
    match op
    case Field(_, _, ty, _, _, _) => TypeDeps(m, ty)
    case Block(_, _, members) => MembersDeps(m, members)
    case At(_, _, members) => MembersDeps(m, members)
    case Variant(_, _, _, _) => CasesDeps(m, op, 0)
    case _ => Some({})
  }

  function MembersDeps(m: Module, ops: seq<Op>): Option<set<SymbolId>>
    decreases ops, 0
  {
    if ops == [] then Some({}) else Both(MemberDeps(m, ops[0]), MembersDeps(m, ops[1..]))
  }

  function StructDeps(m: Module, id: SymbolId): Option<set<SymbolId>>
    requires id in m.structs
  {
    MembersDeps(m, m.structs[id].members)
  }

  predicate AllResolve(m: Module) {
    INVALID_SYMBOL !in m.structs && forall id :: id in m.structs ==> StructDeps(m, id).Some?
  }

  /** The collected dependency relation. */
  ghost function DependsOn(m: Module): Edges {
    set id, dep | id in m.structs && StructDeps(m, id).Some? && dep in StructDeps(m, id).value :: (id, dep)
  }

  /** Only structs are collected. */
  lemma {:induction false} DepsAreStructs(m: Module, ops: seq<Op>)
    ensures MembersDeps(m, ops).Some? ==> MembersDeps(m, ops).value <= m.structs.Keys
    decreases ops, 0
  {
    if ops != [] {
      match ops[0] {
        case Block(_, _, members) => DepsAreStructs(m, members);
        case At(_, _, members) => DepsAreStructs(m, members);
        case Variant(_, _, _, _) => CaseDepsAreStructs(m, ops[0], 0);
        case _ =>
      }
      DepsAreStructs(m, ops[1..]);
    }
  }

  lemma {:induction false} CaseDepsAreStructs(m: Module, op: Op, i: nat)
    requires op.Variant? && i <= |op.cases|
    ensures CasesDeps(m, op, i).Some? ==> CasesDeps(m, op, i).value <= m.structs.Keys
    decreases op, 0, |op.cases| - i
  {
    if i < |op.cases| {
      if op.cases[i].body.Listed? {
        DepsAreStructs(m, op.cases[i].body.members);
      }
      CaseDepsAreStructs(m, op, i + 1);
    } else if op.default.Some? && op.default.value.Listed? {
      DepsAreStructs(m, op.default.value.members);
    }
  }

  lemma OneMore(deps: set<SymbolId>, rest: set<SymbolId>, dep: SymbolId, before: seq<SymbolId>, after: seq<SymbolId>)
    requires forall d :: d in deps - rest ==> d in before
    requires before <= after && dep in after
    ensures forall d :: d in deps - (rest - {dep}) ==> d in after
  {
    forall d | d in deps - (rest - {dep}) ensures d in after {
      assert d == dep || d in before;
    }
  }

  /** The state of the traversal: the structs that are being visited, those that are done, and
      the order so far. */
  class Traversal {
    const m: Module
    var visiting: set<SymbolId>
    var done: set<SymbolId>
    var order: seq<SymbolId>

    constructor (m: Module)
      ensures this.m == m && visiting == {} && order == [] && Valid()
    {
      this.m := m;
      visiting, done, order := {}, {}, [];
    }

    ghost predicate Valid()
      reads this
    {
      && (forall id :: id in done <==> id in order)
      && (forall id :: id in order ==> id in m.structs && StructDeps(m, id).Some?)
      && IsOrder(DependsOn(m), order)
      && visiting !! done
    }

    /** What is being visited is the path that leads to `symbol`. */
    ghost predicate LeadsTo(path: seq<SymbolId>, symbol: SymbolId)
      reads this
    {
      && (forall id :: id in visiting <==> id in path)
      && (path == [] || (IsWalk(DependsOn(m), path) && (path[|path| - 1], symbol) in DependsOn(m)))
    }

    /** The dependencies of a struct are listed. */
    ghost predicate Ready(symbol: SymbolId, listed: seq<SymbolId>) {
      symbol in m.structs && StructDeps(m, symbol).Some? && forall dep :: dep in StructDeps(m, symbol).value ==> dep in listed
    }

    /** `topoVisitStruct`. The dependencies are visited in any order. */
    method Visit(symbol: SymbolId, ghost path: seq<SymbolId>) returns (ok: bool)
      requires Valid() && LeadsTo(path, symbol)
      modifies this
      ensures ok ==> Valid() && visiting == old(visiting) && old(order) <= order && symbol in order
      ensures ok && symbol in old(order) ==> order == old(order)
      ensures ok && symbol !in old(order) && Ready(symbol, old(order)) ==> order == old(order) + [symbol]
      ensures !ok ==> symbol !in m.structs || !AllResolve(m) || Cyclic(DependsOn(m))
      decreases m.structs.Keys - visiting
    {
      if symbol in done {
        return true;
      }
      if symbol !in m.structs {
        return false;
      }
      if symbol in visiting {
        ClosesCycle(DependsOn(m), path, symbol);
        return false;
      }
      visiting := visiting + {symbol};
      var deps := StructDeps(m, symbol);
      if deps.None? {
        return false;
      }
      DepsAreStructs(m, m.structs[symbol].members);
      ghost var inside := path + [symbol];
      var rest := deps.value;
      while rest != {}
        invariant rest <= deps.value && Valid()
        invariant visiting == old(visiting) + {symbol} && old(order) <= order
        invariant forall dep :: dep in deps.value - rest ==> dep in order
        invariant Ready(symbol, old(order)) ==> order == old(order)
        decreases rest
      {
        var dep :| dep in rest;
        assert (symbol, dep) in DependsOn(m);
        if dep == symbol {
          assert IsCycle(DependsOn(m), [symbol, symbol]);
          return false;
        }
        ghost var had := order;
        ok := Visit(dep, inside);
        if !ok {
          return;
        }
        OneMore(deps.value, rest, dep, had, order);
        rest := rest - {dep};
      }
      Appended(DependsOn(m), order, symbol, deps.value);
      visiting := visiting - {symbol};
      done := done + {symbol};
      order := order + [symbol];
      ok := true;
    }
  }

  /** What the emission order promises. */
  ghost predicate IsEmissionOrder(m: Module, order: seq<SymbolId>) {
    Lists(DependsOn(m), m.structs.Keys, order)
  }

  lemma DepsStandBefore(m: Module, order: seq<SymbolId>, i: nat)
    requires IsEmissionOrder(m, order) && i < |order| && StructDeps(m, order[i]).Some?
    ensures forall dep :: dep in StructDeps(m, order[i]).value ==> dep in order[..i]
    ensures order[i] !in order[..i] && order[..i + 1] == order[..i] + [order[i]]
  {
    forall dep | dep in StructDeps(m, order[i]).value ensures dep in order[..i] {
      assert (order[i], dep) in DependsOn(m);
    }
  }

  lemma AllListed(m: Module, order: seq<SymbolId>)
    requires IsOrder(DependsOn(m), order) && forall id :: id in order <==> id in m.structs
    ensures IsEmissionOrder(m, order) && !Cyclic(DependsOn(m))
  {
    forall e | e in DependsOn(m) ensures e.0 in order {
    }
    OrderMeansAcyclic(DependsOn(m), order);
  }

  /** The emission order is produced exactly when every struct has a SymbolId, every by-value type
      resolves and the collected dependencies are acyclic; it then lists each struct once, after
      its dependencies. Every such order is the one produced when the structs are declared in it. */
  method Emit(m: Module, structs: seq<SymbolId>) returns (ok: bool, order: seq<SymbolId>)
    requires forall id :: id in structs <==> id in m.structs
    ensures ok <==> AllResolve(m) && !Cyclic(DependsOn(m))
    ensures ok ==> IsEmissionOrder(m, order)
    ensures ok && IsEmissionOrder(m, structs) ==> order == structs
  {
    hide IsEmissionOrder, IsOrder, DependsOn, Cyclic, StructDeps;
    var t := new Traversal(m);
    order := [];
    for i := 0 to |structs|
      invariant fresh(t) && t.m == m && t.Valid() && t.visiting == {}
      invariant forall j :: 0 <= j < i ==> structs[j] in t.order && structs[j] != INVALID_SYMBOL
      invariant IsEmissionOrder(m, structs) ==> t.order == structs[..i]
    {
      assert structs[i] in m.structs;
      if structs[i] == INVALID_SYMBOL {
        return false, [];
      }
      ghost var had := t.order;
      ok := t.Visit(structs[i], []);
      if !ok {
        return;
      }
      forall j | 0 <= j < i ensures structs[j] in t.order {
        assert structs[j] in had;
      }
      if IsEmissionOrder(m, structs) {
        DepsStandBefore(m, structs, i);
      }
    }
    order := t.order;
    assert structs[..|structs|] == structs;
    forall id | id in m.structs ensures id in order && id != INVALID_SYMBOL {
      assert id in structs;
    }
    AllListed(m, order);
    ok := true;
  }

  // ----- what structs hold by value -----

  function HeldByType(m: Module, t: Type): set<SymbolId> {
    var deps := TypeDeps(m, t);
    if deps.Some? then deps.value else {}
  }

  function HeldByBranch(m: Module, b: Branch): set<SymbolId>
    decreases b
  {
    match b
    case Typed(t) => HeldByType(m, t)
    case Listed(members) => HeldByMembers(m, members)
  }

  /** The structs that a member holds by value, in conditionals as well. */
  function HeldBy(m: Module, op: Op): set<SymbolId>
    decreases op
  {
    match op
    case Field(_, _, ty, _, _, _) => HeldByType(m, ty)
    case Block(_, _, members) => HeldByMembers(m, members)
    case At(_, _, members) => HeldByMembers(m, members)
    case Conditional(_, thenMembers, elseMembers) => HeldByMembers(m, thenMembers) + HeldByMembers(m, elseMembers)
    case Variant(_, _, cases, default) =>
      (set i, id | 0 <= i < |cases| && id in HeldByBranch(m, cases[i].body) :: id)
      + (if default.Some? then HeldByBranch(m, default.value) else {})
    case _ => {}
  }

  function HeldByMembers(m: Module, ops: seq<Op>): set<SymbolId>
    decreases ops
  {
    if ops == [] then {} else HeldBy(m, ops[0]) + HeldByMembers(m, ops[1..])
  }

  ghost function Held(m: Module): Edges {
    set id, dep | id in m.structs && dep in HeldByMembers(m, m.structs[id].members) :: (id, dep)
  }

  /** The members of conditionals are not collected. Every emission order still lists what a struct
      holds before the struct exactly when each such holding lies within the closure of the
      collected dependencies. */
  lemma HeldStructsComeFirst(m: Module)
    requires AllResolve(m) && !Cyclic(DependsOn(m))
    ensures (forall order :: IsEmissionOrder(m, order) ==> TargetsFirst(Held(m), order))
            <==> (forall e :: e in Held(m) ==> CanReach(DependsOn(m), e.0, e.1))
  {
    forall e | e in DependsOn(m) ensures e.1 in m.structs.Keys {
      DepsAreStructs(m, m.structs[e.0].members);
    }
    AllPutTargetsFirst(DependsOn(m), m.structs.Keys, Held(m));
    forall order ensures IsEmissionOrder(m, order) <==> Lists(DependsOn(m), m.structs.Keys, order) {
    }
  }

  /** A struct that only a conditional holds: its user may be emitted first, and is when it is
      declared first. */
  lemma ConditionalsAreNotOrdered(m: Module, a: SymbolId, b: SymbolId, e: Expr, field: Op)
    requires m.structs.Keys == {a, b} && a != b
    requires field.Field? && field.ty.base == Named(b) && b !in m.aliases
    requires m.structs[a].members == [Conditional(e, [field], [])] && m.structs[b].members == []
    ensures IsEmissionOrder(m, [a, b]) && (a, b) in Held(m) && !TargetsFirst(Held(m), [a, b])
  {
    var ops := m.structs[a].members;
    var none: seq<Op> := [];
    assert ops[1..] == none && MembersDeps(m, none).value == {} && MemberDeps(m, ops[0]).value == {};
    assert MembersDeps(m, ops) == Both(MemberDeps(m, ops[0]), MembersDeps(m, none));
    assert StructDeps(m, a).value == {};
    assert StructDeps(m, b) == MembersDeps(m, none);
    assert TypeDeps(m, field.ty) == Some({b});
    assert [field][1..] == none;
    assert b in HeldByMembers(m, [field]);
    assert b in HeldBy(m, ops[0]);
    assert b in HeldByMembers(m, ops);
    assert [a, b][0] == a && [a, b][..0] == [];
  }

  // ----- what is collected -----

  /** A field or a typed case of type `t` stands in a member; in the members of conditionals as well
      if `conditionals` says so. */
  ghost predicate Stands(op: Op, t: Type, conditionals: bool)
    decreases op
  {
    match op
    case Field(_, _, ty, _, _, _) => ty == t
    case Block(_, _, members) => exists i :: 0 <= i < |members| && Stands(members[i], t, conditionals)
    case At(_, _, members) => exists i :: 0 <= i < |members| && Stands(members[i], t, conditionals)
    case Conditional(_, thenMembers, elseMembers) =>
      conditionals && ((exists i :: 0 <= i < |thenMembers| && Stands(thenMembers[i], t, conditionals))
                       || (exists i :: 0 <= i < |elseMembers| && Stands(elseMembers[i], t, conditionals)))
    case Variant(_, _, cases, default) =>
      || (exists i :: 0 <= i < |cases| && StandsInBranch(cases[i].body, t, conditionals))
      || (default.Some? && StandsInBranch(default.value, t, conditionals))
    case _ => false
  }

  ghost predicate StandsInBranch(b: Branch, t: Type, conditionals: bool)
    decreases b
  {
    match b
    case Typed(ty) => ty == t
    case Listed(members) => exists i :: 0 <= i < |members| && Stands(members[i], t, conditionals)
  }

  ghost predicate StandsAmong(ops: seq<Op>, t: Type, conditionals: bool) {
    exists i :: 0 <= i < |ops| && Stands(ops[i], t, conditionals)
  }

  /** Aliases from `p[0]` on, each named once and none of them among `seen`, to what is no alias. */
  predicate IsChain(m: Module, p: seq<Base>, seen: set<SymbolId>)
    decreases |p|
  {
    && p != [] && (p[0].Named? ==> p[0].id !in seen)
    && if p[0].Named? && p[0].id in m.aliases
       then |p| > 1 && p[1] == m.aliases[p[0].id].base && IsChain(m, p[1..], seen + {p[0].id})
       else |p| == 1
  }

  ghost predicate Means(m: Module, base: Base, seen: set<SymbolId>, target: Base) {
    exists p :: IsChain(m, p, seen) && p[0] == base && p[|p| - 1] == target
  }

  /** An alias resolves to the end of its chain, and to nothing when the chain does not end. */
  lemma {:induction false} ResolvesByChain(m: Module, base: Base, seen: set<SymbolId>, target: Base)
    ensures ResolveAlias(m, base, seen) == Some(target) <==> Means(m, base, seen, target)
    decreases m.aliases.Keys - seen
  {
    if base.Named? && base.id !in seen && base.id in m.aliases {
      var next := m.aliases[base.id].base;
      ResolvesByChain(m, next, seen + {base.id}, target);
      if ResolveAlias(m, base, seen) == Some(target) {
        var p :| IsChain(m, p, seen + {base.id}) && p[0] == next && p[|p| - 1] == target;
        assert ([base] + p)[1..] == p;
        assert IsChain(m, [base] + p, seen);
      }
      if Means(m, base, seen, target) {
        var q :| IsChain(m, q, seen) && q[0] == base && q[|q| - 1] == target;
        assert IsChain(m, q[1..], seen + {base.id}) && q[1..][0] == next;
      }
    } else if ResolveAlias(m, base, seen) == Some(target) {
      assert IsChain(m, [base], seen);
    }
  }

  /** A value of type `t` holds a value of the struct `dep`. */
  ghost predicate IsOf(m: Module, t: Type, dep: SymbolId) {
    dep in m.structs && Means(m, t.base, {}, Named(dep))
  }

  lemma TypeIsCollected(m: Module, t: Type, dep: SymbolId)
    ensures dep in HeldByType(m, t) <==> IsOf(m, t, dep)
  {
    hide Means;
    ResolvesByChain(m, t.base, {}, Named(dep));
  }

  /** What a member holds by value are the structs of the types that stand in it. */
  lemma {:induction false} HeldByIs(m: Module, op: Op, dep: SymbolId)
    ensures dep in HeldBy(m, op) <==> exists t :: Stands(op, t, true) && IsOf(m, t, dep)
    decreases op
  {
    hide IsOf, TypeDeps;
    match op
    case Field(_, _, ty, _, _, _) => TypeIsCollected(m, ty, dep);
    case Block(_, _, members) => HeldByMembersIs(m, members, dep);
    case At(_, _, members) => HeldByMembersIs(m, members, dep);
    case Conditional(_, thenMembers, elseMembers) =>
      HeldByMembersIs(m, thenMembers, dep);
      HeldByMembersIs(m, elseMembers, dep);
      forall t ensures Stands(op, t, true) <==> StandsAmong(thenMembers, t, true) || StandsAmong(elseMembers, t, true) { }
    case Variant(_, _, cases, default) =>
      forall i | 0 <= i < |cases| ensures dep in HeldByBranch(m, cases[i].body) <==> exists t :: StandsInBranch(cases[i].body, t, true) && IsOf(m, t, dep) {
        HeldByBranchIs(m, cases[i].body, dep);
      }
      if default.Some? { HeldByBranchIs(m, default.value, dep); }
    case _ =>
  }

  lemma {:induction false} HeldByBranchIs(m: Module, b: Branch, dep: SymbolId)
    ensures dep in HeldByBranch(m, b) <==> exists t :: StandsInBranch(b, t, true) && IsOf(m, t, dep)
    decreases b
  {
    hide IsOf, TypeDeps;
    match b
    case Typed(t) =>
      TypeIsCollected(m, t, dep);
      assert StandsInBranch(b, t, true);
    case Listed(members) =>
      HeldByMembersIs(m, members, dep);
      forall t ensures StandsInBranch(b, t, true) <==> StandsAmong(members, t, true) { }
  }

  lemma {:induction false} HeldByMembersIs(m: Module, ops: seq<Op>, dep: SymbolId)
    ensures dep in HeldByMembers(m, ops) <==> exists t :: StandsAmong(ops, t, true) && IsOf(m, t, dep)
    decreases ops
  {
    hide IsOf, HeldBy, Stands;
    if ops != [] {
      HeldByIs(m, ops[0], dep);
      HeldByMembersIs(m, ops[1..], dep);
      forall t ensures StandsAmong(ops, t, true) <==> Stands(ops[0], t, true) || StandsAmong(ops[1..], t, true) {
        AmongFirstOrRest(ops, t, true);
      }
    }
  }

  lemma AmongFirstOrRest(ops: seq<Op>, t: Type, conditionals: bool)
    requires ops != []
    ensures StandsAmong(ops, t, conditionals) <==> Stands(ops[0], t, conditionals) || StandsAmong(ops[1..], t, conditionals)
  {
    hide Stands;
    if StandsAmong(ops[1..], t, conditionals) {
      var i :| 0 <= i < |ops[1..]| && Stands(ops[1..][i], t, conditionals);
      assert ops[i + 1] == ops[1..][i];
    }
    if StandsAmong(ops, t, conditionals) {
      var i :| 0 <= i < |ops| && Stands(ops[i], t, conditionals);
      assert i > 0 ==> ops[1..][i - 1] == ops[i];
    }
  }

  /** The collected structs are those of the types that stand outside conditionals, through blocks, `at`
      and variants. */
  lemma {:induction false} MemberCollects(m: Module, op: Op, dep: SymbolId)
    requires MemberDeps(m, op).Some?
    ensures dep in MemberDeps(m, op).value <==> exists t :: Stands(op, t, false) && IsOf(m, t, dep)
    decreases op, 1
  {
    hide IsOf, TypeDeps;
    match op
    case Field(_, _, ty, _, _, _) => TypeIsCollected(m, ty, dep);
    case Block(_, _, members) => MembersCollect(m, members, dep);
    case At(_, _, members) => MembersCollect(m, members, dep);
    case Variant(_, _, cases, default) =>
      CasesCollect(m, op, 0, dep);
      forall t ensures Stands(op, t, false) <==> StandsInCases(op, 0, t) { }
    case _ =>
  }

  ghost predicate StandsInCases(op: Op, from: nat, t: Type)
    requires op.Variant?
  {
    || (exists i :: from <= i < |op.cases| && StandsInBranch(op.cases[i].body, t, false))
    || (op.default.Some? && StandsInBranch(op.default.value, t, false))
  }

  lemma {:induction false} CasesCollect(m: Module, op: Op, i: nat, dep: SymbolId)
    requires op.Variant? && i <= |op.cases| && CasesDeps(m, op, i).Some?
    ensures dep in CasesDeps(m, op, i).value <==> exists t :: StandsInCases(op, i, t) && IsOf(m, t, dep)
    decreases op, 0, |op.cases| - i
  {
    hide IsOf, BranchDeps, StandsInBranch;
    if i < |op.cases| {
      BranchCollects(m, op.cases[i].body, dep);
      CasesCollect(m, op, i + 1, dep);
      forall t ensures StandsInCases(op, i, t) <==> StandsInBranch(op.cases[i].body, t, false) || StandsInCases(op, i + 1, t) { }
    } else if op.default.Some? {
      BranchCollects(m, op.default.value, dep);
    }
  }

  lemma {:induction false} BranchCollects(m: Module, b: Branch, dep: SymbolId)
    requires BranchDeps(m, b).Some?
    ensures dep in BranchDeps(m, b).value <==> exists t :: StandsInBranch(b, t, false) && IsOf(m, t, dep)
    decreases b, 0
  {
    hide IsOf, TypeDeps;
    match b
    case Typed(t) =>
      TypeIsCollected(m, t, dep);
      assert StandsInBranch(b, t, false);
    case Listed(members) =>
      MembersCollect(m, members, dep);
      forall t ensures StandsInBranch(b, t, false) <==> StandsAmong(members, t, false) { }
  }

  lemma {:induction false} MembersCollect(m: Module, ops: seq<Op>, dep: SymbolId)
    requires MembersDeps(m, ops).Some?
    ensures dep in MembersDeps(m, ops).value <==> exists t :: StandsAmong(ops, t, false) && IsOf(m, t, dep)
    decreases ops, 0
  {
    hide IsOf, MemberDeps, Stands;
    if ops != [] {
      MemberCollects(m, ops[0], dep);
      MembersCollect(m, ops[1..], dep);
      forall t ensures StandsAmong(ops, t, false) <==> Stands(ops[0], t, false) || StandsAmong(ops[1..], t, false) {
        AmongFirstOrRest(ops, t, false);
      }
    }
  }

  /** The dependencies of the emission order are exactly these: a struct depends on each struct whose
      type stands in its members outside conditionals. */
  lemma DependenciesAreCollected(m: Module, id: SymbolId, dep: SymbolId)
    requires AllResolve(m) && id in m.structs
    ensures (id, dep) in DependsOn(m) <==> exists t :: StandsAmong(m.structs[id].members, t, false) && IsOf(m, t, dep)
    ensures (id, dep) in Held(m) <==> exists t :: StandsAmong(m.structs[id].members, t, true) && IsOf(m, t, dep)
  {
    hide IsOf, StandsAmong, MembersDeps, HeldByMembers;
    MembersCollect(m, m.structs[id].members, dep);
    HeldByMembersIs(m, m.structs[id].members, dep);
  }

  predicate FreeOfConditionals(op: Op)
    decreases op
  {
    match op
    case Block(_, _, members) => forall i :: 0 <= i < |members| ==> FreeOfConditionals(members[i])
    case At(_, _, members) => forall i :: 0 <= i < |members| ==> FreeOfConditionals(members[i])
    case Variant(_, _, cases, default) =>
      && (forall i :: 0 <= i < |cases| ==> FreeBranch(cases[i].body))
      && (default.Some? ==> FreeBranch(default.value))
    case _ => !op.Conditional?
  }

  predicate FreeBranch(b: Branch)
    decreases b
  {
    b.Listed? ==> forall i :: 0 <= i < |b.members| ==> FreeOfConditionals(b.members[i])
  }

  lemma {:induction false} NothingConditional(op: Op, t: Type)
    requires FreeOfConditionals(op)
    ensures Stands(op, t, true) <==> Stands(op, t, false)
    decreases op
  {
    match op
    case Block(_, _, members) => forall i | 0 <= i < |members| ensures Stands(members[i], t, true) <==> Stands(members[i], t, false) { NothingConditional(members[i], t); }
    case At(_, _, members) => forall i | 0 <= i < |members| ensures Stands(members[i], t, true) <==> Stands(members[i], t, false) { NothingConditional(members[i], t); }
    case Variant(_, _, cases, default) =>
      forall i | 0 <= i < |cases| ensures StandsInBranch(cases[i].body, t, true) <==> StandsInBranch(cases[i].body, t, false) { NothingInBranch(cases[i].body, t); }
      if default.Some? { NothingInBranch(default.value, t); }
    case _ =>
  }

  lemma {:induction false} NothingInBranch(b: Branch, t: Type)
    requires FreeBranch(b)
    ensures StandsInBranch(b, t, true) <==> StandsInBranch(b, t, false)
    decreases b
  {
    if b.Listed? {
      forall i | 0 <= i < |b.members| ensures Stands(b.members[i], t, true) <==> Stands(b.members[i], t, false) { NothingConditional(b.members[i], t); }
    }
  }

  /** Without conditionals the emission order puts every struct that is held by value first. */
  lemma HeldIsCollected(m: Module)
    requires AllResolve(m) && forall id, i :: id in m.structs && 0 <= i < |m.structs[id].members| ==> FreeOfConditionals(m.structs[id].members[i])
    ensures DependsOn(m) == Held(m)
    ensures forall order :: IsEmissionOrder(m, order) ==> TargetsFirst(Held(m), order)
  {
    hide IsOf, Stands, StandsAmong, MembersDeps, HeldByMembers, FreeOfConditionals;
    forall id: SymbolId, dep: SymbolId | id in m.structs ensures (id, dep) in DependsOn(m) <==> (id, dep) in Held(m) {
      DependenciesAreCollected(m, id, dep);
      var ops := m.structs[id].members;
      forall t ensures StandsAmong(ops, t, true) <==> StandsAmong(ops, t, false) {
        AmongWithout(ops, t);
      }
    }
    assert DependsOn(m) == Held(m);
    forall order | IsEmissionOrder(m, order) ensures TargetsFirst(Held(m), order) {
      OrderPutsTargetsFirst(m, order);
    }
  }

  lemma AmongWithout(ops: seq<Op>, t: Type)
    requires forall i :: 0 <= i < |ops| ==> FreeOfConditionals(ops[i])
    ensures StandsAmong(ops, t, true) <==> StandsAmong(ops, t, false)
  {
    hide Stands, FreeOfConditionals;
    forall i | 0 <= i < |ops| ensures Stands(ops[i], t, true) <==> Stands(ops[i], t, false) {
      NothingConditional(ops[i], t);
    }
  }

  lemma OrderPutsTargetsFirst(m: Module, order: seq<SymbolId>)
    requires IsEmissionOrder(m, order)
    ensures TargetsFirst(DependsOn(m), order)
  {
  }
}
