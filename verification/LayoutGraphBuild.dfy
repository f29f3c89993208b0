/** How a plan becomes a layout graph (`walkMembers`, `buildLayoutGraph`), and why a plan that the
    dependency validator accepted always passes the graph validation as well. */
module LayoutGraphBuild {
  import opened Outcome
  import opened Expr
  import opened Plan
  import opened Dependencies
  import opened Digraph
  import opened LayoutGraph

  // ----- the walk -----

  /** The identifiers of an expression, in the order of the walk. */
  function Identifiers(e: Expr): (ids: seq<SymbolId>)
    ensures forall id :: id in ids <==> id in Symbols(e)
  {
    match e
    case Lit(_) => []
    case Id(s) => [s]
    case Paren(inner) => Identifiers(inner)
    case Neg(operand) => Identifiers(operand)
    case Bin(_, left, right) => Identifiers(left) + Identifiers(right)
  }

  function AddNode(g: Graph, symbol: SymbolId): Graph {
    g.(nodes := g.nodes + [LayoutNode(|g.nodes|, symbol)])
  }

  function AddTargets(g: Graph, source: nat, ids: seq<SymbolId>): (r: Graph)
    ensures r.nodes == g.nodes
    decreases |ids|
  {
    if ids == [] then g
    else if IsBuiltin(ids[0]) then AddTargets(g, source, ids[1..])
    else AddTargets(g.(edges := g.edges + [LayoutEdge(source, ids[0])]), source, ids[1..])
  }

  function AddExpr(g: Graph, source: nat, e: Expr): (r: Graph)
    ensures r.nodes == g.nodes
  {
    AddTargets(g, source, Identifiers(e))
  }

  function AddDims(g: Graph, source: nat, dims: seq<Dim>): (r: Graph)
    ensures r.nodes == g.nodes
    decreases |dims|
  {
    if dims == [] then g
    else AddDims(if dims[0].Remaining? then g else AddExpr(g, source, dims[0].e), source, dims[1..])
  }

  function AddGroup(g: Graph, fs: seq<BitsField>): Graph
    decreases |fs|
  {
    if fs == [] then g
    else AddGroup(if fs[0].symbol == INVALID_SYMBOL then g else AddNode(g, fs[0].symbol), fs[1..])
  }

  function SymbolOf(op: Op): SymbolId {
    if op.Virtual? || op.Alias? || op.Field? then op.symbol else INVALID_SYMBOL
  }

  /** The cases of a variant from `i` on. The default of a variant is not walked. */
  function WalkCases(g: Graph, source: nat, op: Op, i: nat): Graph
    requires op.Variant? && i <= |op.cases|
    decreases op, 0, |op.cases| - i
  {
    if i == |op.cases| then g
    else
      var next := match op.cases[i].body
                  case Typed(t) => AddDims(g, source, t.dims)
                  case Listed(members) => Walk(g, members);
      WalkCases(next, source, op, i + 1)
  }

  function WalkOne(g0: Graph, op: Op): Graph
    decreases op, 1
  {
    var source := |g0.nodes|;
    var g := AddNode(g0, SymbolOf(op));
    match op
    case Virtual(_, _, e) => AddExpr(g, source, e)
    case Alias(_, _, target, _) => g.(edges := g.edges + [LayoutEdge(source, target)])
    case Field(_, _, ty, _, _, _) => AddDims(g, source, ty.dims)
    case Bits(group) => AddGroup(g, group)
    case Align(e, _) => AddExpr(g, source, e)
    case At(e, _, members) => Walk(AddExpr(g, source, e), members)
    case Block(e, _, members) => Walk(AddExpr(g, source, e), members)
    case Conditional(e, thenMembers, elseMembers) => Walk(Walk(AddExpr(g, source, e), thenMembers), elseMembers)
    case Variant(_, e, _, _) => WalkCases(AddExpr(g, source, e), source, op, 0)
  }

  function Walk(g: Graph, ops: seq<Op>): Graph
    decreases ops, 0
  {
    if ops == [] then g else Walk(WalkOne(g, ops[0]), ops[1..])
  }

  function AddValues(g: Graph, values: seq<SymbolId>): Graph
    decreases |values|
  {
    if values == [] then g else AddValues(AddNode(g, values[0]), values[1..])
  }

  function WalkStructs(m: Module, g: Graph, structs: seq<SymbolId>): Graph
    decreases |structs|
  {
    if structs == [] then g
    else WalkStructs(m, if structs[0] in m.structs then Walk(g, m.structs[structs[0]].members) else g, structs[1..])
  }

  /** `buildLayoutGraph`: module values first, then the structs in their order. */
  function Build(m: Module, values: seq<SymbolId>, structs: seq<SymbolId>): Graph {
    WalkStructs(m, AddValues(Graph([], []), values), structs)
  }

  // ----- accepted plans give acceptable graphs -----

  predicate Earlier(g: Graph, s: SymbolId, n: nat) {
    exists i :: 0 <= i < n && DeclaresAt(g, s, i)
  }

  /** Every edge goes back to a node before its source. */
  predicate GoesBack(g: Graph) {
    && Indexed(g)
    && forall e :: e in g.edges ==> e.source < |g.nodes| && Earlier(g, e.target, e.source)
  }

  predicate Covers(g: Graph, available: set<SymbolId>, n: nat) {
    forall s :: s in available ==> Earlier(g, s, n)
  }

  /** A graph that goes back, covers what is available, and extends the graph before it. */
  predicate Grown(before: Graph, g: Graph, available: set<SymbolId>) {
    GoesBack(g) && Covers(g, available, |g.nodes|) && before.nodes <= g.nodes
  }

  predicate Accepting(m: Module, available: set<SymbolId>) {
    Coherent(m) && ModuleValues(m) <= available
  }

  lemma EarlierStays(g: Graph, g': Graph, s: SymbolId, n: nat, n': nat)
    requires Earlier(g, s, n) && g.nodes <= g'.nodes && n <= n'
    ensures Earlier(g', s, n')
  {
    var i :| 0 <= i < n && DeclaresAt(g, s, i);
    assert DeclaresAt(g', s, i);
  }

  lemma NodeGrows(g: Graph, symbol: SymbolId, available: set<SymbolId>)
    requires GoesBack(g) && Covers(g, available, |g.nodes|)
    ensures Grown(g, AddNode(g, symbol), available)
    ensures symbol != INVALID_SYMBOL ==> Earlier(AddNode(g, symbol), symbol, |g.nodes| + 1)
    ensures Covers(AddNode(g, symbol), available, |g.nodes|)
  {
    var g' := AddNode(g, symbol);
    forall s | s in available ensures Earlier(g', s, |g.nodes|) && Earlier(g', s, |g'.nodes|) {
      EarlierStays(g, g', s, |g.nodes|, |g.nodes|);
      EarlierStays(g, g', s, |g.nodes|, |g'.nodes|);
    }
    forall e | e in g.edges ensures Earlier(g', e.target, e.source) {
      EarlierStays(g, g', e.target, e.source, e.source);
    }
    assert symbol != INVALID_SYMBOL ==> DeclaresAt(g', symbol, |g.nodes|);
  }

  lemma {:induction false} TargetsGoBack(m: Module, g: Graph, source: nat, ids: seq<SymbolId>, available: set<SymbolId>)
    requires GoesBack(g) && Covers(g, available, source) && source < |g.nodes| && Accepting(m, available)
    requires forall id :: id in ids ==> SymbolAllowed(m, id, available)
    ensures GoesBack(AddTargets(g, source, ids))
    decreases |ids|
  {
    if ids != [] {
      var id := ids[0];
      if IsBuiltin(id) {
        TargetsGoBack(m, g, source, ids[1..], available);
      } else {
        assert SymbolAllowed(m, id, available);
        assert id in available;
        var g' := g.(edges := g.edges + [LayoutEdge(source, id)]);
        NodesDecide(g, g');
        TargetsGoBack(m, g', source, ids[1..], available);
      }
    }
  }

  lemma NodesDecide(g: Graph, g': Graph)
    requires g.nodes == g'.nodes
    ensures forall s, n: nat :: Earlier(g, s, n) <==> Earlier(g', s, n)
  {
    forall s, n: nat ensures Earlier(g, s, n) <==> Earlier(g', s, n) {
      if Earlier(g, s, n) {
        var i :| 0 <= i < n && DeclaresAt(g, s, i);
        assert DeclaresAt(g', s, i);
      }
      if Earlier(g', s, n) {
        var i :| 0 <= i < n && DeclaresAt(g', s, i);
        assert DeclaresAt(g, s, i);
      }
    }
  }

  lemma ExprGoesBack(m: Module, g: Graph, source: nat, e: Expr, available: set<SymbolId>)
    requires GoesBack(g) && Covers(g, available, source) && source < |g.nodes|
    requires Accepting(m, available) && ExprAllowed(m, e, available)
    ensures GoesBack(AddExpr(g, source, e)) && Covers(AddExpr(g, source, e), available, source)
    ensures forall s, n: nat :: Earlier(g, s, n) <==> Earlier(AddExpr(g, source, e), s, n)
  {
    TargetsGoBack(m, g, source, Identifiers(e), available);
    NodesDecide(g, AddExpr(g, source, e));
  }

  lemma {:induction false} DimsGoBack(m: Module, g: Graph, source: nat, dims: seq<Dim>, available: set<SymbolId>)
    requires GoesBack(g) && Covers(g, available, source) && source < |g.nodes|
    requires Accepting(m, available) && DimsAllowed(m, dims, available)
    ensures GoesBack(AddDims(g, source, dims))
    ensures forall s, n: nat :: Earlier(g, s, n) <==> Earlier(AddDims(g, source, dims), s, n)
    decreases |dims|
  {
    if dims != [] {
      if !dims[0].Remaining? {
        ExprGoesBack(m, g, source, dims[0].e, available);
      }
      DimsGoBack(m, if dims[0].Remaining? then g else AddExpr(g, source, dims[0].e), source, dims[1..], available);
    }
  }

  lemma {:induction false} GroupGrows(g: Graph, fs: seq<BitsField>, available: set<SymbolId>)
    requires GoesBack(g) && Covers(g, available, |g.nodes|) && INVALID_SYMBOL !in GroupSymbols(fs)
    ensures Grown(g, AddGroup(g, fs), available + GroupSymbols(fs))
    decreases |fs|
  {
    if fs == [] {
      assert available + GroupSymbols(fs) == available;
    } else {
      var g' := AddNode(g, fs[0].symbol);
      NodeGrows(g, fs[0].symbol, available);
      GroupGrows(g', fs[1..], available + {fs[0].symbol});
      assert available + {fs[0].symbol} + GroupSymbols(fs[1..]) == available + GroupSymbols(fs);
    }
  }

  lemma {:induction false} CasesGrow(m: Module, g: Graph, source: nat, op: Op, i: nat, available: set<SymbolId>)
    requires op.Variant? && i <= |op.cases| && Accepting(m, available)
    requires forall j :: 0 <= j < |op.cases| ==> BranchAllowed(m, op.cases[j].body, available)
    requires GoesBack(g) && Covers(g, available, |g.nodes|) && Covers(g, available, source) && source < |g.nodes|
    ensures Grown(g, WalkCases(g, source, op, i), available)
    decreases op, 0, |op.cases| - i
  {
    if i < |op.cases| {
      assert BranchAllowed(m, op.cases[i].body, available);
      match op.cases[i].body {
        case Typed(t) =>
          DimsGoBack(m, g, source, t.dims, available);
          CasesGrow(m, AddDims(g, source, t.dims), source, op, i + 1, available);
        case Listed(members) =>
          WalkGrows(m, g, members, available, available);
          var next := Walk(g, members);
          forall s | s in available ensures Earlier(next, s, source) {
            EarlierStays(g, next, s, source, source);
          }
          CasesGrow(m, next, source, op, i + 1, available);
      }
    }
  }

  /** The members inside an operation, after its node and the edges of its expression. */
  lemma {:induction false} NestedGrows(m: Module, g0: Graph, op: Op, available: set<SymbolId>)
    requires op.At? || op.Block? || op.Conditional? || op.Variant?
    requires Accepting(m, available) && MemberAllowed(m, op, available).Some?
    requires GoesBack(g0) && Covers(g0, available, |g0.nodes|)
    ensures Grown(g0, WalkOne(g0, op), MemberAllowed(m, op, available).value)
    decreases op, 1
  {
    var source := |g0.nodes|;
    var g := AddNode(g0, INVALID_SYMBOL);
    NodeGrows(g0, INVALID_SYMBOL, available);
    var e := match op
      case At(e, _, _) => e
      case Block(e, _, _) => e
      case Conditional(e, _, _) => e
      case Variant(_, e, _, _) => e;
    ExprGoesBack(m, g, source, e, available);
    var h := AddExpr(g, source, e);
    match op
    case At(_, _, members) => WalkGrows(m, h, members, available, MembersAllowed(m, members, available).value);
    case Block(_, _, members) => WalkGrows(m, h, members, available, MembersAllowed(m, members, available).value);
    case Conditional(_, thenMembers, elseMembers) =>
      WalkGrows(m, h, thenMembers, available, available);
      WalkGrows(m, Walk(h, thenMembers), elseMembers, available, available);
    case Variant(_, _, _, _) => CasesGrow(m, h, source, op, 0, available);
  }

  lemma {:induction false} OneGrows(m: Module, g0: Graph, op: Op, available: set<SymbolId>)
    requires Accepting(m, available) && MemberAllowed(m, op, available).Some?
    requires GoesBack(g0) && Covers(g0, available, |g0.nodes|)
    ensures Grown(g0, WalkOne(g0, op), MemberAllowed(m, op, available).value)
    decreases op, 2
  {
    var source := |g0.nodes|;
    var g := AddNode(g0, SymbolOf(op));
    NodeGrows(g0, SymbolOf(op), available);
    match op
    case Virtual(_, _, e) => ExprGoesBack(m, g, source, e, available);
    case Alias(_, _, target, _) => NodesDecide(g, WalkOne(g0, op));
    case Field(_, _, ty, _, _, _) => DimsGoBack(m, g, source, ty.dims, available);
    case Bits(group) => GroupGrows(g, group, available);
    case Align(e, _) => ExprGoesBack(m, g, source, e, available);
    case _ => NestedGrows(m, g0, op, available);
  }

  /** `kept` is any part of what is available afterwards. */
  lemma {:induction false} WalkGrows(m: Module, g: Graph, ops: seq<Op>, available: set<SymbolId>, kept: set<SymbolId>)
    requires Accepting(m, available) && MembersAllowed(m, ops, available).Some?
    requires kept <= MembersAllowed(m, ops, available).value
    requires GoesBack(g) && Covers(g, available, |g.nodes|)
    ensures Grown(g, Walk(g, ops), kept)
    decreases ops, 0
  {
    if ops != [] {
      OneGrows(m, g, ops[0], available);
      WalkGrows(m, WalkOne(g, ops[0]), ops[1..], MemberAllowed(m, ops[0], available).value, kept);
    }
  }

  lemma {:induction false} ValuesGrow(g: Graph, values: seq<SymbolId>, available: set<SymbolId>)
    requires GoesBack(g) && Covers(g, available, |g.nodes|) && INVALID_SYMBOL !in values
    ensures Grown(g, AddValues(g, values), available + set v | v in values)
    decreases |values|
  {
    if values == [] {
      assert available + (set v | v in values) == available;
    } else {
      NodeGrows(g, values[0], available);
      ValuesGrow(AddNode(g, values[0]), values[1..], available + {values[0]});
      assert available + {values[0]} + (set v | v in values[1..]) == available + set v | v in values;
    }
  }

  lemma {:induction false} StructsGrow(m: Module, g: Graph, structs: seq<SymbolId>)
    requires Coherent(m) && PlanAllowed(m) && GoesBack(g) && Covers(g, ModuleValues(m), |g.nodes|)
    ensures GoesBack(WalkStructs(m, g, structs))
    decreases |structs|
  {
    if structs != [] {
      if structs[0] in m.structs {
        assert StructAllowed(m, m.structs[structs[0]]);
        WalkGrows(m, g, m.structs[structs[0]].members, ModuleValues(m), ModuleValues(m));
      }
      StructsGrow(m, if structs[0] in m.structs then Walk(g, m.structs[structs[0]].members) else g, structs[1..]);
    }
  }

  /** A graph whose edges all go back has no cycle. */
  lemma BackIsAcyclic(g: Graph)
    requires GoesBack(g) && DistinctSymbols(g)
    ensures Acceptable(g)
  {
    forall e | e in g.edges ensures IsDeclared(g, e.target) {
      var i :| 0 <= i < e.source && DeclaresAt(g, e.target, i);
    }
    var order := seq(|g.nodes|, i => i);
    forall i, y | 0 <= i < |order| && (order[i], y) in Resolved(g) ensures y in order[..i] {
      var e :| e in g.edges && e.source == i && NodeOf(g, e.target) == y;
      var k :| 0 <= k < e.source && DeclaresAt(g, e.target, k);
      assert k == y && order[..i][k] == y;
    }
    forall e | e in Resolved(g) ensures e.0 in order {
      assert order[e.0] == e.0;
    }
    OrderMeansAcyclic(Resolved(g), order);
  }

  /** Define before use makes the graph validation pass: on an accepted plan only a SymbolId that
      is declared twice can be refused. */
  lemma AcceptedPlansAreAcyclic(m: Module, values: seq<SymbolId>, structs: seq<SymbolId>)
    requires Coherent(m) && PlanAllowed(m)
    requires ModuleValues(m) <= (set v | v in values) && INVALID_SYMBOL !in values
    ensures Acceptable(Build(m, values, structs)) <==> DistinctSymbols(Build(m, values, structs))
  {
    ValuesGrow(Graph([], []), values, {});
    StructsGrow(m, AddValues(Graph([], []), values), structs);
    if DistinctSymbols(Build(m, values, structs)) {
      BackIsAcyclic(Build(m, values, structs));
    }
  }
}
