/** Which nodes and edges a layout graph has: one node for each member of the plan in the order of the
    walk, and from it an edge to each symbol that the member itself uses, and no others. */
module LayoutEdges {
  import opened Outcome
  import opened Expr
  import opened Plan
  import opened Dependencies
  import opened Digraph
  import opened LayoutGraph
  import opened LayoutGraphBuild

  // ----- what a member uses -----

  function Extents(dims: seq<Dim>): (es: set<Expr>) {
    set d | d in dims && !d.Remaining? :: d.e
  }

  /** The expressions of a member itself, and not of the members inside it. The extents of a typed case
      are those of its variant; the default of a variant is not walked. */
  function Expressions(op: Op): (es: set<Expr>) {
    match op
    case Field(_, _, ty, _, _, _) => Extents(ty.dims)
    case Virtual(_, _, e) => {e}
    case Align(e, _) => {e}
    case At(e, _, _) => {e}
    case Block(e, _, _) => {e}
    case Conditional(e, _, _) => {e}
    case Variant(_, e, cases, _) => {e} + set i, x | 0 <= i < |cases| && cases[i].body.Typed? && x in Extents(cases[i].body.ty.dims) :: x
    case _ => {}
  }

  predicate Mentions(es: set<Expr>, s: SymbolId) {
    !IsBuiltin(s) && exists e :: e in es && s in Symbols(e)
  }

  predicate Uses(op: Op, s: SymbolId) {
    if op.Alias? then s == op.target else Mentions(Expressions(op), s)
  }

  // ----- the order of the walk -----

  /** What a node stands for: a member, or a field of a bits group. */
  datatype Part = Whole(op: Op) | Bit(symbol: SymbolId)

  function PartSymbol(p: Part): SymbolId {
    match p
    case Bit(symbol) => symbol
    case Whole(op) => if op.Field? || op.Virtual? || op.Alias? then op.symbol else INVALID_SYMBOL
  }

  function GroupParts(fs: seq<BitsField>): seq<Part> {
    if fs == [] then []
    else (if fs[0].symbol == INVALID_SYMBOL then [] else [Bit(fs[0].symbol)]) + GroupParts(fs[1..])
  }

  function CaseParts(op: Op, i: nat): seq<Part>
    requires op.Variant? && i <= |op.cases|
    decreases op, 0, |op.cases| - i
  {
    if i == |op.cases| then []
    else (if op.cases[i].body.Listed? then Parts(op.cases[i].body.members) else []) + CaseParts(op, i + 1)
  }

  function MemberParts(op: Op): seq<Part>
    decreases op, 1
  {
    [Whole(op)] +
    match op
    case Bits(group) => GroupParts(group)
    case At(_, _, members) => Parts(members)
    case Block(_, _, members) => Parts(members)
    case Conditional(_, thenMembers, elseMembers) => Parts(thenMembers) + Parts(elseMembers)
    case Variant(_, _, _, _) => CaseParts(op, 0)
    case _ => []
  }

  function Parts(ops: seq<Op>): seq<Part>
    decreases ops, 0
  {
    if ops == [] then [] else MemberParts(ops[0]) + Parts(ops[1..])
  }

  function StructParts(m: Module, structs: seq<SymbolId>): seq<Part> {
    if structs == [] then []
    else (if structs[0] in m.structs then Parts(m.structs[structs[0]].members) else []) + StructParts(m, structs[1..])
  }

  // ----- the graph -----

  /** `g'` is `g` with a node for each part, numbered on, and its edges. */
  ghost predicate Extends(g: Graph, parts: seq<Part>, g': Graph) {
    && |g'.nodes| == |g.nodes| + |parts| && g.nodes <= g'.nodes
    && (forall k :: 0 <= k < |parts| ==> g'.nodes[|g.nodes| + k] == LayoutNode(|g.nodes| + k, PartSymbol(parts[k])))
    && forall e :: e in g'.edges <==> e in g.edges || IsEdge(parts, |g.nodes|, e)
  }

  /** The source is the node of a member, the target a symbol that the member uses. */
  predicate IsEdge(parts: seq<Part>, base: nat, e: LayoutEdge) {
    && base <= e.source < base + |parts|
    && parts[e.source - base].Whole? && Uses(parts[e.source - base].op, e.target)
  }

  lemma ExtendsNothing(g: Graph)
    ensures Extends(g, [], g)
  {
  }

  lemma ExtendsChain(g: Graph, p: seq<Part>, g': Graph, q: seq<Part>, g'': Graph)
    requires Extends(g, p, g') && Extends(g', q, g'')
    ensures Extends(g, p + q, g'')
  {
    hide Uses, PartSymbol;
    forall k | 0 <= k < |p + q| ensures g''.nodes[|g.nodes| + k] == LayoutNode(|g.nodes| + k, PartSymbol((p + q)[k])) {
      if k < |p| {
        assert g''.nodes[|g.nodes| + k] == g'.nodes[|g.nodes| + k];
      } else {
        assert g''.nodes[|g'.nodes| + (k - |p|)] == LayoutNode(|g'.nodes| + (k - |p|), PartSymbol(q[k - |p|]));
      }
    }
    forall e ensures IsEdge(p + q, |g.nodes|, e) <==> IsEdge(p, |g.nodes|, e) || IsEdge(q, |g'.nodes|, e) {
    }
  }

  /** The edges that the walk adds for expressions. */
  lemma {:induction false} TargetsAre(g: Graph, source: nat, ids: seq<SymbolId>)
    ensures forall e :: e in AddTargets(g, source, ids).edges <==>
              e in g.edges || (e.source == source && e.target in ids && !IsBuiltin(e.target))
    decreases |ids|
  {
    if ids != [] {
      TargetsAre(if IsBuiltin(ids[0]) then g else g.(edges := g.edges + [LayoutEdge(source, ids[0])]), source, ids[1..]);
    }
  }

  /** `g'` is `g` with edges from `source` to what `es` mentions. */
  ghost predicate Points(g: Graph, source: nat, es: set<Expr>, g': Graph) {
    && g'.nodes == g.nodes
    && forall e :: e in g'.edges <==> e in g.edges || (e.source == source && Mentions(es, e.target))
  }

  lemma ExprPoints(g: Graph, source: nat, e: Expr)
    ensures Points(g, source, {e}, AddExpr(g, source, e))
  {
    TargetsAre(g, source, Identifiers(e));
  }

  lemma PointsChain(g: Graph, source: nat, a: set<Expr>, g': Graph, b: set<Expr>, g'': Graph)
    requires Points(g, source, a, g') && Points(g', source, b, g'')
    ensures Points(g, source, a + b, g'')
  {
  }

  lemma {:induction false} DimsPoint(g: Graph, source: nat, dims: seq<Dim>)
    ensures Points(g, source, Extents(dims), AddDims(g, source, dims))
    decreases |dims|
  {
    if dims != [] {
      var next := if dims[0].Remaining? then g else AddExpr(g, source, dims[0].e);
      if dims[0].Remaining? {
        assert Extents(dims) == Extents(dims[1..]);
      } else {
        ExprPoints(g, source, dims[0].e);
        assert Extents(dims) == {dims[0].e} + Extents(dims[1..]);
      }
      DimsPoint(next, source, dims[1..]);
      if !dims[0].Remaining? {
        PointsChain(g, source, {dims[0].e}, next, Extents(dims[1..]), AddDims(next, source, dims[1..]));
      }
    }
  }

  lemma {:induction false} GroupExtends(g: Graph, fs: seq<BitsField>)
    ensures Extends(g, GroupParts(fs), AddGroup(g, fs))
    decreases |fs|
  {
    if fs != [] {
      if fs[0].symbol == INVALID_SYMBOL {
        GroupExtends(g, fs[1..]);
        assert GroupParts(fs) == GroupParts(fs[1..]);
      } else {
        var next := AddNode(g, fs[0].symbol);
        assert Extends(g, [Bit(fs[0].symbol)], next);
        GroupExtends(next, fs[1..]);
        ExtendsChain(g, [Bit(fs[0].symbol)], next, GroupParts(fs[1..]), AddGroup(next, fs[1..]));
      }
    } else {
      ExtendsNothing(g);
    }
  }

  // ----- the walk -----

  /** `g'` extends `g` by the node of `op`, of whose own expressions only `es` have been followed, and
      by the parts. */
  ghost predicate Partly(g: Graph, op: Op, es: set<Expr>, parts: seq<Part>, g': Graph) {
    && |g'.nodes| == |g.nodes| + 1 + |parts| && g.nodes <= g'.nodes
    && g'.nodes[|g.nodes|] == LayoutNode(|g.nodes|, PartSymbol(Whole(op)))
    && (forall k :: 0 <= k < |parts| ==> g'.nodes[|g.nodes| + 1 + k] == LayoutNode(|g.nodes| + 1 + k, PartSymbol(parts[k])))
    && forall e :: e in g'.edges <==>
         e in g.edges || (e.source == |g.nodes| && Mentions(es, e.target)) || IsEdge(parts, |g.nodes| + 1, e)
  }

  lemma PartlyStarts(g: Graph, op: Op, es: set<Expr>, g': Graph)
    requires Points(AddNode(g, SymbolOf(op)), |g.nodes|, es, g')
    ensures Partly(g, op, es, [], g')
  {
  }

  lemma PartlyPoints(g: Graph, op: Op, es: set<Expr>, parts: seq<Part>, g': Graph, more: set<Expr>, g'': Graph)
    requires Partly(g, op, es, parts, g') && Points(g', |g.nodes|, more, g'')
    ensures Partly(g, op, es + more, parts, g'')
  {
  }

  lemma PartlyExtends(g: Graph, op: Op, es: set<Expr>, parts: seq<Part>, g': Graph, more: seq<Part>, g'': Graph)
    requires Partly(g, op, es, parts, g') && Extends(g', more, g'')
    ensures Partly(g, op, es, parts + more, g'')
  {
    hide Uses, PartSymbol, Mentions;
    forall k | 0 <= k < |parts + more|
      ensures g''.nodes[|g.nodes| + 1 + k] == LayoutNode(|g.nodes| + 1 + k, PartSymbol((parts + more)[k]))
    {
      if k < |parts| {
        assert g''.nodes[|g.nodes| + 1 + k] == g'.nodes[|g.nodes| + 1 + k];
      } else {
        assert g''.nodes[|g'.nodes| + (k - |parts|)] == LayoutNode(|g'.nodes| + (k - |parts|), PartSymbol(more[k - |parts|]));
      }
    }
    forall e ensures IsEdge(parts + more, |g.nodes| + 1, e) <==> IsEdge(parts, |g.nodes| + 1, e) || IsEdge(more, |g'.nodes|, e) {
    }
    assert g''.nodes[|g.nodes|] == g'.nodes[|g.nodes|];
  }

  lemma PartlyEnds(g: Graph, op: Op, parts: seq<Part>, g': Graph)
    requires !op.Alias? && Partly(g, op, Expressions(op), parts, g')
    ensures Extends(g, [Whole(op)] + parts, g')
  {
    hide Expressions, PartSymbol, Mentions;
    var all := [Whole(op)] + parts;
    forall k | 0 <= k < |all| ensures g'.nodes[|g.nodes| + k] == LayoutNode(|g.nodes| + k, PartSymbol(all[k])) {
      if k > 0 {
        assert g'.nodes[|g.nodes| + 1 + (k - 1)] == LayoutNode(|g.nodes| + 1 + (k - 1), PartSymbol(parts[k - 1]));
      }
    }
    forall e ensures IsEdge(all, |g.nodes|, e) <==> (e.source == |g.nodes| && Mentions(Expressions(op), e.target)) || IsEdge(parts, |g.nodes| + 1, e) {
      if |g.nodes| < e.source < |g.nodes| + |all| {
        assert all[e.source - |g.nodes|] == parts[e.source - (|g.nodes| + 1)];
      }
    }
  }

  /** The expressions of the typed cases before `i`. */
  function CasesBefore(op: Op, i: nat): set<Expr>
    requires op.Variant? && i <= |op.cases|
  {
    set j, x | 0 <= j < i && op.cases[j].body.Typed? && x in Extents(op.cases[j].body.ty.dims) :: x
  }

  lemma {:induction false} CasesExtend(g: Graph, op: Op, i: nat, parts: seq<Part>, g': Graph)
    requires op.Variant? && i <= |op.cases| && Partly(g, op, {op.discriminator} + CasesBefore(op, i), parts, g')
    ensures Partly(g, op, Expressions(op), parts + CaseParts(op, i), WalkCases(g', |g.nodes|, op, i))
    decreases op, 0, |op.cases| - i
  {
    hide Partly, Extends, Points, Walk, Parts;
    if i == |op.cases| {
      assert {op.discriminator} + CasesBefore(op, i) == Expressions(op);
      assert parts + [] == parts;
    } else {
      match op.cases[i].body {
        case Typed(t) =>
          DimsPoint(g', |g.nodes|, t.dims);
          PartlyPoints(g, op, {op.discriminator} + CasesBefore(op, i), parts, g', Extents(t.dims), AddDims(g', |g.nodes|, t.dims));
          assert {op.discriminator} + CasesBefore(op, i) + Extents(t.dims) == {op.discriminator} + CasesBefore(op, i + 1);
          CasesExtend(g, op, i + 1, parts, AddDims(g', |g.nodes|, t.dims));
          assert [] + CaseParts(op, i + 1) == CaseParts(op, i + 1);
        case Listed(members) =>
          WalkExtends(g', members);
          PartlyExtends(g, op, {op.discriminator} + CasesBefore(op, i), parts, g', Parts(members), Walk(g', members));
          assert CasesBefore(op, i) == CasesBefore(op, i + 1);
          CasesExtend(g, op, i + 1, parts + Parts(members), Walk(g', members));
          assert parts + Parts(members) + CaseParts(op, i + 1) == parts + (Parts(members) + CaseParts(op, i + 1));
      }
    }
  }

  lemma AliasExtends(g: Graph, op: Op)
    requires op.Alias?
    ensures Extends(g, [Whole(op)], WalkOne(g, op))
  {
    var g' := WalkOne(g, op);
    assert g'.edges == g.edges + [LayoutEdge(|g.nodes|, op.target)];
    forall e ensures IsEdge([Whole(op)], |g.nodes|, e) <==> e == LayoutEdge(|g.nodes|, op.target) { }
  }

  lemma {:induction false} OneExtends(g: Graph, op: Op)
    ensures Extends(g, MemberParts(op), WalkOne(g, op))
    decreases op, 1
  {
    hide Partly, Extends, Points, Walk, Parts, AddExpr, AddDims;
    var source := |g.nodes|;
    var g1 := AddNode(g, SymbolOf(op));
    match op {
      case Alias(_, _, _, _) =>
        AliasExtends(g, op);
        assert [Whole(op)] + [] == [Whole(op)];
      case Field(_, _, ty, _, _, _) =>
        DimsPoint(g1, source, ty.dims);
        PartlyStarts(g, op, Extents(ty.dims), WalkOne(g, op));
        PartlyEnds(g, op, [], WalkOne(g, op));
      case Virtual(_, _, e) =>
        ExprPoints(g1, source, e);
        PartlyStarts(g, op, {e}, WalkOne(g, op));
        PartlyEnds(g, op, [], WalkOne(g, op));
      case Align(e, _) =>
        ExprPoints(g1, source, e);
        PartlyStarts(g, op, {e}, WalkOne(g, op));
        PartlyEnds(g, op, [], WalkOne(g, op));
      case Bits(group) =>
        NothingPoints(g1, source);
        PartlyStarts(g, op, {}, g1);
        GroupExtends(g1, group);
        PartlyExtends(g, op, {}, [], g1, GroupParts(group), WalkOne(g, op));
        assert [] + GroupParts(group) == GroupParts(group);
        PartlyEnds(g, op, GroupParts(group), WalkOne(g, op));
      case At(e, _, members) => NestedExtends(g, op, e, members);
      case Block(e, _, members) => NestedExtends(g, op, e, members);
      case Conditional(e, thenMembers, elseMembers) =>
        ExprPoints(g1, source, e);
        var g2 := AddExpr(g1, source, e);
        PartlyStarts(g, op, {e}, g2);
        WalkExtends(g2, thenMembers);
        WalkExtends(Walk(g2, thenMembers), elseMembers);
        PartlyExtends(g, op, {e}, [], g2, Parts(thenMembers), Walk(g2, thenMembers));
        assert [] + Parts(thenMembers) == Parts(thenMembers);
        PartlyExtends(g, op, {e}, Parts(thenMembers), Walk(g2, thenMembers), Parts(elseMembers), WalkOne(g, op));
        PartlyEnds(g, op, Parts(thenMembers) + Parts(elseMembers), WalkOne(g, op));
      case Variant(_, e, _, _) =>
        ExprPoints(g1, source, e);
        PartlyStarts(g, op, {e}, AddExpr(g1, source, e));
        assert {e} + CasesBefore(op, 0) == {e};
        CasesExtend(g, op, 0, [], AddExpr(g1, source, e));
        assert [] + CaseParts(op, 0) == CaseParts(op, 0);
        PartlyEnds(g, op, CaseParts(op, 0), WalkOne(g, op));
    }
  }

  lemma NothingPoints(g: Graph, source: nat)
    ensures Points(g, source, {}, g)
  {
  }

  lemma {:induction false} NestedExtends(g: Graph, op: Op, e: Expr, members: seq<Op>)
    requires (op.At? && op.offset == e && op.members == members) || (op.Block? && op.size == e && op.members == members)
    ensures Extends(g, [Whole(op)] + Parts(members), WalkOne(g, op))
    decreases op, 0
  {
    hide Partly, Extends, Points, Walk, Parts, AddExpr;
    var g1 := AddNode(g, SymbolOf(op));
    var g2 := AddExpr(g1, |g.nodes|, e);
    ExprPoints(g1, |g.nodes|, e);
    PartlyStarts(g, op, {e}, g2);
    WalkExtends(g2, members);
    PartlyExtends(g, op, {e}, [], g2, Parts(members), Walk(g2, members));
    assert [] + Parts(members) == Parts(members);
    PartlyEnds(g, op, Parts(members), WalkOne(g, op));
  }

  lemma {:induction false} WalkExtends(g: Graph, ops: seq<Op>)
    ensures Extends(g, Parts(ops), Walk(g, ops))
    decreases ops, 0
  {
    hide Extends, WalkOne, MemberParts;
    if ops == [] {
      ExtendsNothing(g);
    } else {
      OneExtends(g, ops[0]);
      WalkExtends(WalkOne(g, ops[0]), ops[1..]);
      ExtendsChain(g, MemberParts(ops[0]), WalkOne(g, ops[0]), Parts(ops[1..]), Walk(g, ops));
    }
  }

  lemma {:induction false} ValuesExtend(g: Graph, values: seq<SymbolId>)
    ensures Extends(g, seq(|values|, i requires 0 <= i < |values| => Bit(values[i])), AddValues(g, values))
    decreases |values|
  {
    if values == [] {
      ExtendsNothing(g);
    } else {
      var next := AddNode(g, values[0]);
      assert Extends(g, [Bit(values[0])], next);
      ValuesExtend(next, values[1..]);
      var rest := seq(|values[1..]|, i requires 0 <= i < |values[1..]| => Bit(values[1..][i]));
      ExtendsChain(g, [Bit(values[0])], next, rest, AddValues(g, values));
      assert [Bit(values[0])] + rest == seq(|values|, i requires 0 <= i < |values| => Bit(values[i]));
    }
  }

  lemma {:induction false} StructsExtend(m: Module, g: Graph, structs: seq<SymbolId>)
    ensures Extends(g, StructParts(m, structs), WalkStructs(m, g, structs))
    decreases |structs|
  {
    hide Extends, Walk, Parts;
    if structs == [] {
      ExtendsNothing(g);
    } else if structs[0] in m.structs {
      var members := m.structs[structs[0]].members;
      WalkExtends(g, members);
      StructsExtend(m, Walk(g, members), structs[1..]);
      ExtendsChain(g, Parts(members), Walk(g, members), StructParts(m, structs[1..]), WalkStructs(m, g, structs));
    } else {
      StructsExtend(m, g, structs[1..]);
      assert [] + StructParts(m, structs[1..]) == StructParts(m, structs[1..]);
    }
  }

  /** The built graph: a node for each module value, and then for each part of the members of the
      structs in their order; and exactly the edges from the node of a member to a symbol that the
      member uses. */
  lemma BuiltGraph(m: Module, values: seq<SymbolId>, structs: seq<SymbolId>)
    ensures var g := Build(m, values, structs);
            var parts := StructParts(m, structs);
            && |g.nodes| == |values| + |parts|
            && (forall k :: 0 <= k < |values| ==> g.nodes[k] == LayoutNode(k, values[k]))
            && (forall k :: 0 <= k < |parts| ==> g.nodes[|values| + k] == LayoutNode(|values| + k, PartSymbol(parts[k])))
            && (forall e :: e in g.edges <==> IsEdge(parts, |values|, e))
  {
    hide IsEdge, StructParts, WalkStructs;
    var empty := Graph([], []);
    ValuesExtend(empty, values);
    var marks := seq(|values|, i requires 0 <= i < |values| => Bit(values[i]));
    var g1 := AddValues(empty, values);
    StructsExtend(m, g1, structs);
    forall e ensures !IsEdge(marks, 0, e) {
      NoBitHasEdges(marks, e);
    }
    forall k | 0 <= k < |values| ensures Build(m, values, structs).nodes[k] == LayoutNode(k, values[k]) {
      assert g1.nodes[|empty.nodes| + k] == LayoutNode(|empty.nodes| + k, PartSymbol(marks[k]));
    }
  }

  lemma NoBitHasEdges(marks: seq<Part>, e: LayoutEdge)
    requires forall k :: 0 <= k < |marks| ==> marks[k].Bit?
    ensures !IsEdge(marks, 0, e)
  {
  }
}
