/** The graph builder as it runs: it appends to its node and edge vectors. */
module LayoutGraphBuilder {
  import opened Outcome
  import opened Expr
  import opened Plan
  import opened Dependencies
  import opened LayoutGraph
  import opened LayoutGraphBuild

  class Builder {
    var nodes: seq<LayoutNode>
    var edges: seq<LayoutEdge>

    constructor ()
      ensures Valid() && Contents() == Graph([], [])
    {
      nodes, edges := [], [];
    }

    function Contents(): Graph
      reads this
    {
      Graph(nodes, edges)
    }

    /** Node ids are indices. */
    ghost predicate Valid()
      reads this
    {
      Indexed(Contents())
    }

    method PushNode(symbol: SymbolId) returns (id: nat)
      requires Valid()
      modifies this
      ensures Valid() && id == old(|nodes|) && Contents() == AddNode(old(Contents()), symbol)
    {
      id := |nodes|;
      nodes := nodes + [LayoutNode(id, symbol)];
    }

    method AddExprEdges(source: nat, e: Expr)
      requires Valid()
      modifies this
      ensures Valid() && Contents() == AddExpr(old(Contents()), source, e)
    {
      var ids := Identifiers(e);
      assert ids[0..] == ids;
      for i := 0 to |ids|
        invariant Valid() && AddTargets(Contents(), source, ids[i..]) == AddTargets(old(Contents()), source, ids)
      {
        assert ids[i..][0] == ids[i] && ids[i..][1..] == ids[i + 1..];
        if !IsBuiltin(ids[i]) {
          edges := edges + [LayoutEdge(source, ids[i])];
        }
      }
    }

    method AddDimEdges(source: nat, dims: seq<Dim>)
      requires Valid()
      modifies this
      ensures Valid() && Contents() == AddDims(old(Contents()), source, dims)
    {
      assert dims[0..] == dims;
      for i := 0 to |dims|
        invariant Valid() && AddDims(Contents(), source, dims[i..]) == AddDims(old(Contents()), source, dims)
      {
        assert dims[i..][0] == dims[i] && dims[i..][1..] == dims[i + 1..];
        if !dims[i].Remaining? {
          AddExprEdges(source, dims[i].e);
        }
      }
    }

    method AddBits(group: seq<BitsField>)
      requires Valid()
      modifies this
      ensures Valid() && Contents() == AddGroup(old(Contents()), group)
    {
      assert group[0..] == group;
      for i := 0 to |group|
        invariant Valid() && AddGroup(Contents(), group[i..]) == AddGroup(old(Contents()), group)
      {
        assert group[i..][0] == group[i] && group[i..][1..] == group[i + 1..];
        if group[i].symbol != INVALID_SYMBOL {
          var id := PushNode(group[i].symbol);
        }
      }
    }

    method WalkVariant(source: nat, op: Op)
      requires op.Variant?
      requires Valid()
      modifies this
      ensures Valid() && Contents() == WalkCases(old(Contents()), source, op, 0)
      decreases op, 0
    {
      for i := 0 to |op.cases|
        invariant Valid() && WalkCases(Contents(), source, op, i) == WalkCases(old(Contents()), source, op, 0)
      {
        match op.cases[i].body
        case Typed(t) => AddDimEdges(source, t.dims);
        case Listed(members) => WalkMembers(members);
      }
    }

    /** One turn of the loop of `walkMembers`. */
    method WalkMember(op: Op)
      requires Valid()
      modifies this
      ensures Valid() && Contents() == WalkOne(old(Contents()), op)
      decreases op, 1
    {
      var id := PushNode(SymbolOf(op));
      match op
      case Virtual(_, _, e) => AddExprEdges(id, e);
      case Alias(_, _, target, _) => edges := edges + [LayoutEdge(id, target)];
      case Field(_, _, ty, _, _, _) => AddDimEdges(id, ty.dims);
      case Bits(group) => AddBits(group);
      case Align(e, _) => AddExprEdges(id, e);
      case At(e, _, members) =>
        AddExprEdges(id, e);
        WalkMembers(members);
      case Block(e, _, members) =>
        AddExprEdges(id, e);
        WalkMembers(members);
      case Conditional(e, thenMembers, elseMembers) =>
        AddExprEdges(id, e);
        WalkMembers(thenMembers);
        WalkMembers(elseMembers);
      case Variant(_, e, _, _) =>
        AddExprEdges(id, e);
        WalkVariant(id, op);
    }

    method WalkMembers(ops: seq<Op>)
      requires Valid()
      modifies this
      ensures Valid() && Contents() == Walk(old(Contents()), ops)
      decreases ops, 2
    {
      assert ops[0..] == ops;
      for i := 0 to |ops|
        invariant Valid() && Walk(Contents(), ops[i..]) == Walk(old(Contents()), ops)
      {
        assert ops[i..][0] == ops[i] && ops[i..][1..] == ops[i + 1..];
        WalkMember(ops[i]);
      }
    }
  }

  /** `buildLayoutGraph`, which validates what it built. */
  method BuildLayoutGraph(m: Module, values: seq<SymbolId>, structs: seq<SymbolId>) returns (g: Graph, ok: bool)
    ensures g == Build(m, values, structs)
    ensures ok <==> Acceptable(g)
  {
    var b := new Builder();
    assert values[0..] == values && structs[0..] == structs;
    for i := 0 to |values|
      invariant fresh(b) && b.Valid() && AddValues(b.Contents(), values[i..]) == AddValues(Graph([], []), values)
    {
      assert values[i..][0] == values[i] && values[i..][1..] == values[i + 1..];
      var id := b.PushNode(values[i]);
    }
    for i := 0 to |structs|
      invariant fresh(b) && b.Valid() && WalkStructs(m, b.Contents(), structs[i..]) == Build(m, values, structs)
    {
      assert structs[i..][0] == structs[i] && structs[i..][1..] == structs[i + 1..];
      if structs[i] in m.structs {
        b.WalkMembers(m.structs[structs[i]].members);
      }
    }
    g := b.Contents();
    ok := Validate(g);
  }
}
