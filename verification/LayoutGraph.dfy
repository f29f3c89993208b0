/** The explicit dependency graph of layout operations, and its validation by a three-colour
    depth-first search (`validateLayoutGraph`). */
module LayoutGraph {
  import opened Outcome
  import opened Expr
  import opened Plan
  import opened Dependencies
  import opened Digraph

  datatype LayoutNode = LayoutNode(id: nat, symbol: SymbolId)

  /** From a node of the graph to the SymbolId that it depends on. */
  datatype LayoutEdge = LayoutEdge(source: nat, target: SymbolId)

  datatype Graph = Graph(nodes: seq<LayoutNode>, edges: seq<LayoutEdge>)

  predicate Indexed(g: Graph) {
    forall i :: 0 <= i < |g.nodes| ==> g.nodes[i].id == i
  }

  predicate DistinctSymbols(g: Graph) {
    forall i, j :: 0 <= i < j < |g.nodes| && g.nodes[i].symbol != INVALID_SYMBOL ==> g.nodes[i].symbol != g.nodes[j].symbol
  }

  /** The node `i` declares the symbol. */
  predicate DeclaresAt(g: Graph, s: SymbolId, i: nat) {
    i < |g.nodes| && g.nodes[i].symbol == s && s != INVALID_SYMBOL
  }

  predicate IsDeclared(g: Graph, s: SymbolId) {
    exists i :: 0 <= i < |g.nodes| && DeclaresAt(g, s, i)
  }

  predicate EdgesResolve(g: Graph) {
    forall e :: e in g.edges ==> e.source < |g.nodes| && IsDeclared(g, e.target)
  }

  /** The node that declares a symbol. */
  function NodeOf(g: Graph, s: SymbolId): (i: nat)
    requires IsDeclared(g, s) && DistinctSymbols(g)
    ensures DeclaresAt(g, s, i)
  {
    var i :| 0 <= i < |g.nodes| && DeclaresAt(g, s, i);
    i
  }

  /** The edges between nodes. */
  ghost function Resolved(g: Graph): Edges
    requires EdgesResolve(g) && DistinctSymbols(g)
  {
    set e | e in g.edges :: (e.source, NodeOf(g, e.target))
  }

  /** What the validation is for. */
  ghost predicate Acceptable(g: Graph) {
    DistinctSymbols(g) && EdgesResolve(g) && !Cyclic(Resolved(g))
  }

  // ----- the depth-first search -----

  type Adjacency = seq<seq<nat>>

  predicate InRange(adj: Adjacency) {
    forall i, j :: 0 <= i < |adj| && 0 <= j < |adj[i]| ==> adj[i][j] < |adj|
  }

  ghost function EdgesOf(adj: Adjacency): Edges {
    set i, j | 0 <= i < |adj| && 0 <= j < |adj[i]| :: (i, adj[i][j])
  }

  datatype Colour = White | Gray | Black

  function Coloured(s: seq<Colour>, c: Colour): set<nat> {
    set i | 0 <= i < |s| && s[i] == c
  }

  /** Gray is the path that led here, black is the order of the nodes that are finished. */
  ghost predicate Marks(adj: Adjacency, s: seq<Colour>, path: seq<nat>, order: seq<nat>) {
    && |s| == |adj|
    && (forall i :: i in Coloured(s, Gray) <==> i in path)
    && (forall i :: i in Coloured(s, Black) <==> i in order)
    && IsOrder(EdgesOf(adj), order)
  }

  /** `n` is the root of the search, or the path leads to it. */
  ghost predicate LeadsTo(adj: Adjacency, path: seq<nat>, n: nat) {
    path == [] || (IsWalk(EdgesOf(adj), path) && (path[|path| - 1], n) in EdgesOf(adj))
  }

  method Visit(adj: Adjacency, state: array<Colour>, n: nat, ghost path: seq<nat>, ghost order: seq<nat>)
    returns (ok: bool, ghost after: seq<nat>)
    requires InRange(adj) && n < |adj|
    requires Marks(adj, state[..], path, order) && LeadsTo(adj, path, n)
    modifies state
    ensures ok ==> Marks(adj, state[..], path, after) && order <= after && n in after
    ensures ok ==> Coloured(state[..], White) <= old(Coloured(state[..], White))
    ensures !ok ==> Cyclic(EdgesOf(adj))
    decreases Coloured(state[..], White)
  {
    after := order;
    if state[n] == Gray {
      assert n in Coloured(state[..], Gray);
      ClosesCycle(EdgesOf(adj), path, n);
      return false, order;
    }
    if state[n] == Black {
      assert n in Coloured(state[..], Black);
      return true, order;
    }
    ghost var before := state[..];
    state[n] := Gray;
    ghost var inside := path + [n];
    Painted(before, n, Gray, state[..]);
    assert Marks(adj, state[..], inside, after);
    var k := 0;
    while k < |adj[n]|
      invariant k <= |adj[n]| && state.Length == |adj|
      invariant Marks(adj, state[..], inside, after) && order <= after
      invariant Coloured(state[..], White) <= Coloured(before, White) - {n}
      invariant forall j :: 0 <= j < k ==> adj[n][j] in after
    {
      assert (n, adj[n][k]) in EdgesOf(adj);
      ghost var had := after;
      ok, after := Visit(adj, state, adj[n][k], inside, after);
      if !ok {
        return;
      }
      forall j | 0 <= j < k ensures adj[n][j] in after {
        assert adj[n][j] in had;
      }
      k := k + 1;
    }
    Finish(adj, state[..], path, n, after);
    ghost var gray := state[..];
    state[n] := Black;
    Painted(gray, n, Black, state[..]);
    after := after + [n];
    ok := true;
  }

  lemma Painted(s: seq<Colour>, n: nat, c: Colour, s': seq<Colour>)
    requires n < |s| && s' == s[n := c]
    ensures Coloured(s', c) == Coloured(s, c) + {n}
    ensures forall d :: d != c ==> Coloured(s', d) == Coloured(s, d) - {n}
  {
  }

  /** All successors of `n` are finished, so `n` may be. */
  lemma Finish(adj: Adjacency, s: seq<Colour>, path: seq<nat>, n: nat, order: seq<nat>)
    requires n < |adj| && Marks(adj, s, path + [n], order)
    requires forall j :: 0 <= j < |adj[n]| ==> adj[n][j] in order
    ensures n !in order && IsOrder(EdgesOf(adj), order + [n])
  {
    assert n in path + [n];
    assert n in Coloured(s, Gray);
    Appended(EdgesOf(adj), order, n, set y | y in order);
  }

  // ----- the validator -----

  predicate DistinctBelow(g: Graph, n: nat)
    requires n <= |g.nodes|
  {
    forall i, j :: 0 <= i < j < n && g.nodes[i].symbol != INVALID_SYMBOL ==> g.nodes[i].symbol != g.nodes[j].symbol
  }

  /** The map holds the declared symbols of the first `n` nodes. */
  predicate Maps(g: Graph, n: nat, at: map<SymbolId, nat>)
    requires n <= |g.nodes|
  {
    && (forall s :: s in at ==> at[s] < n && DeclaresAt(g, s, at[s]))
    && (forall i :: 0 <= i < n && g.nodes[i].symbol != INVALID_SYMBOL ==> g.nodes[i].symbol in at)
  }

  method MapSymbols(g: Graph) returns (ok: bool, at: map<SymbolId, nat>)
    requires Indexed(g)
    ensures ok == DistinctSymbols(g)
    ensures ok ==> Maps(g, |g.nodes|, at)
  {
    at := map[];
    for i := 0 to |g.nodes|
      invariant DistinctBelow(g, i) && Maps(g, i, at)
    {
      var n := g.nodes[i];
      if n.symbol != INVALID_SYMBOL {
        if n.symbol in at {
          assert DeclaresAt(g, n.symbol, at[n.symbol]);
          return false, at;
        }
        at := at[n.symbol := n.id];
      }
    }
    ok := true;
  }

  /** The adjacency lists hold the first `k` edges. */
  ghost predicate Holds(g: Graph, adj: Adjacency, k: nat)
    requires DistinctSymbols(g) && k <= |g.edges|
    requires forall e :: e in g.edges[..k] ==> IsDeclared(g, e.target)
  {
    && |adj| == |g.nodes| && InRange(adj)
    && forall i, j :: (i, j) in EdgesOf(adj) <==> exists e :: e in g.edges[..k] && (e.source, NodeOf(g, e.target)) == (i, j)
  }

  method BuildAdjacency(g: Graph, at: map<SymbolId, nat>) returns (ok: bool, adj: Adjacency)
    requires DistinctSymbols(g) && Maps(g, |g.nodes|, at)
    ensures ok == EdgesResolve(g)
    ensures ok ==> |adj| == |g.nodes| && InRange(adj) && EdgesOf(adj) == Resolved(g)
  {
    adj := seq(|g.nodes|, _ => []);
    for k := 0 to |g.edges|
      invariant forall e :: e in g.edges[..k] ==> e.source < |g.nodes| && IsDeclared(g, e.target)
      invariant Holds(g, adj, k)
    {
      var e := g.edges[k];
      assert e in g.edges;
      if e.source >= |g.nodes| || e.target == INVALID_SYMBOL || e.target !in at {
        return false, adj;
      }
      assert DeclaresAt(g, e.target, at[e.target]);
      ghost var was := adj;
      adj := adj[e.source := adj[e.source] + [at[e.target]]];
      EdgeAdded(g, was, k, at[e.target], adj);
    }
    assert g.edges[..|g.edges|] == g.edges;
    ok := true;
  }

  lemma EdgeAdded(g: Graph, adj: Adjacency, k: nat, target: nat, adj': Adjacency)
    requires DistinctSymbols(g) && k < |g.edges|
    requires forall e :: e in g.edges[..k] ==> e.source < |g.nodes| && IsDeclared(g, e.target)
    requires Holds(g, adj, k)
    requires g.edges[k].source < |g.nodes| && DeclaresAt(g, g.edges[k].target, target)
    requires adj' == adj[g.edges[k].source := adj[g.edges[k].source] + [target]]
    ensures forall e :: e in g.edges[..k + 1] ==> e.source < |g.nodes| && IsDeclared(g, e.target)
    ensures Holds(g, adj', k + 1)
  {
    var e0 := g.edges[k];
    assert g.edges[..k + 1] == g.edges[..k] + [e0];
    assert NodeOf(g, e0.target) == target;
    AdjacencyExtended(adj, e0.source, target, adj');
    forall i, j ensures (i, j) in EdgesOf(adj') <==> exists e :: e in g.edges[..k + 1] && (e.source, NodeOf(g, e.target)) == (i, j) {
      if (i, j) == (e0.source, target) {
        assert e0 in g.edges[..k + 1];
      }
    }
  }

  lemma AdjacencyExtended(adj: Adjacency, i: nat, target: nat, adj': Adjacency)
    requires i < |adj| && adj' == adj[i := adj[i] + [target]]
    ensures EdgesOf(adj') == EdgesOf(adj) + {(i, target)}
  {
    assert adj'[i][|adj[i]|] == target;
    forall e | e in EdgesOf(adj) ensures e in EdgesOf(adj') {
      var a, b :| 0 <= a < |adj| && 0 <= b < |adj[a]| && e == (a, adj[a][b]);
      assert adj'[a][b] == adj[a][b];
    }
    forall e | e in EdgesOf(adj') ensures e in EdgesOf(adj) + {(i, target)} {
      var a, b :| 0 <= a < |adj'| && 0 <= b < |adj'[a]| && e == (a, adj'[a][b]);
      if a != i || b < |adj[i]| {
        assert adj[a][b] == adj'[a][b];
      }
    }
  }

  /** `validateLayoutGraph` accepts a graph exactly when its symbols are distinct, its edges go
      from nodes to declared symbols, and there is no directed cycle. */
  method Validate(g: Graph) returns (ok: bool)
    requires Indexed(g)
    ensures ok <==> Acceptable(g)
  {
    var distinct, at := MapSymbols(g);
    if !distinct {
      return false;
    }
    var resolved, adj := BuildAdjacency(g, at);
    if !resolved {
      return false;
    }
    var state := new Colour[|g.nodes|](_ => White);
    ghost var order := [];
    assert Marks(adj, state[..], [], order);
    for i := 0 to |g.nodes|
      invariant Marks(adj, state[..], [], order)
      invariant forall j :: 0 <= j < i ==> j in order
    {
      ghost var had := order;
      ok, order := Visit(adj, state, i, [], order);
      if !ok {
        return;
      }
      forall j | 0 <= j < i ensures j in order {
        assert j in had;
      }
    }
    forall e | e in EdgesOf(adj) ensures e.0 in order {
      assert 0 <= e.0 < |g.nodes|;
    }
    OrderMeansAcyclic(EdgesOf(adj), order);
    ok := true;
  }
}
