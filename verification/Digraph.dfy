/** Directed graphs: walks, cycles, and two ways to certify that there is a cycle or none. */
module Digraph {
  type Node = nat
  type Edges = set<(Node, Node)>

  predicate IsWalk(g: Edges, p: seq<Node>) {
    p != [] && forall i :: 0 <= i < |p| - 1 ==> (p[i], p[i + 1]) in g
  }

  predicate IsCycle(g: Edges, p: seq<Node>) {
    |p| >= 2 && IsWalk(g, p) && p[0] == p[|p| - 1]
  }

  ghost predicate Cyclic(g: Edges) {
    exists p :: IsCycle(g, p)
  }

  predicate Leads(g: Edges, x: Node, s: set<Node>) {
    exists y :: y in s && (x, y) in g
  }

  /** A set each of whose nodes leads to one of its nodes. */
  ghost predicate IsTrap(g: Edges, s: set<Node>) {
    s != {} && forall x {:trigger Leads(g, x, s)} :: x in s ==> Leads(g, x, s)
  }

  /** Two equal entries of a sequence. */
  predicate Repeats<T(==)>(p: seq<T>, i: int, j: int) {
    0 <= i < j < |p| && p[i] == p[j]
  }

  lemma {:induction false} Pigeonhole<T>(p: seq<T>, s: set<T>) returns (i: nat, j: nat)
    requires |p| > |s| && forall x :: x in p ==> x in s
    ensures Repeats(p, i, j)
  {
    var last := p[|p| - 1];
    var init := p[..|p| - 1];
    if last in init {
      i :| 0 <= i < |init| && init[i] == last;
      j := |p| - 1;
    } else {
      i, j := Pigeonhole(init, s - {last});
    }
  }

  lemma {:induction false} WalkInTrap(g: Edges, s: set<Node>, n: nat) returns (p: seq<Node>)
    requires IsTrap(g, s)
    ensures |p| == n + 1 && IsWalk(g, p) && forall x :: x in p ==> x in s
  {
    if n == 0 {
      var x :| x in s;
      p := [x];
    } else {
      var q := WalkInTrap(g, s, n - 1);
      var x := q[|q| - 1];
      assert x in q;
      assert Leads(g, x, s);
      var y :| y in s && (x, y) in g;
      p := q + [y];
    }
  }

  /** A finite set that can always be left for itself holds a cycle. */
  lemma TrapHasCycle(g: Edges, s: set<Node>)
    requires IsTrap(g, s)
    ensures Cyclic(g)
  {
    var p := WalkInTrap(g, s, |s|);
    var i, j := Pigeonhole(p, s);
    var q := p[i..j + 1];
    forall k | 0 <= k < |q| - 1 ensures (q[k], q[k + 1]) in g {
      assert q[k] == p[i + k] && q[k + 1] == p[i + k + 1];
    }
    assert IsCycle(g, q);
  }

  /** An edge from the end of a walk back into it. */
  lemma ClosesCycle(g: Edges, path: seq<Node>, x: Node)
    requires x in path && IsWalk(g, path) && (path[|path| - 1], x) in g
    ensures Cyclic(g)
  {
    var i :| 0 <= i < |path| && path[i] == x;
    var p := path[i..] + [x];
    forall k | 0 <= k < |p| - 1 ensures (p[k], p[k + 1]) in g {
      if k < |p| - 2 {
        assert p[k] == path[i + k] && p[k + 1] == path[i + k + 1];
      }
    }
    assert IsCycle(g, p);
  }

  lemma CycleIsTrap(g: Edges, p: seq<Node>)
    requires IsCycle(g, p)
    ensures IsTrap(g, set x | x in p)
  {
    var s := set x | x in p;
    assert p[0] in s;
    forall x | x in s ensures Leads(g, x, s) {
      var i :| 0 <= i < |p| && p[i] == x;
      var k := if i < |p| - 1 then i else 0;
      assert (p[k], p[k + 1]) in g && p[k + 1] in s;
    }
  }

  /** A sequence that holds each node once, with the target of every edge before its source. */
  ghost predicate IsOrder(g: Edges, order: seq<Node>) {
    && (forall i, j :: 0 <= i < j < |order| ==> order[i] != order[j])
    && (forall i, y :: 0 <= i < |order| && (order[i], y) in g ==> y in order[..i])
  }

  /** Nodes that such a sequence lists lie on no cycle. */
  lemma OrderHasNoTrap(g: Edges, order: seq<Node>, s: set<Node>)
    requires IsOrder(g, order) && IsTrap(g, s)
    ensures forall x :: x in s ==> x !in order
  {
    if exists x :: x in s && x in order {
      var x :| x in s && x in order;
      var i :| 0 <= i < |order| && order[i] == x;
      EarlierInTrap(g, order, s, i);
    }
  }

  lemma {:induction false} EarlierInTrap(g: Edges, order: seq<Node>, s: set<Node>, i: nat)
    requires IsOrder(g, order) && IsTrap(g, s)
    requires i < |order| && order[i] in s
    ensures false
  {
    assert Leads(g, order[i], s);
    var y :| y in s && (order[i], y) in g;
    var j :| 0 <= j < i && order[j] == y;
    EarlierInTrap(g, order, s, j);
  }

  /** An order of all the nodes that have an edge is the certificate that there is no cycle. */
  lemma OrderMeansAcyclic(g: Edges, order: seq<Node>)
    requires IsOrder(g, order) && forall e :: e in g ==> e.0 in order
    ensures !Cyclic(g)
  {
    if Cyclic(g) {
      var p :| IsCycle(g, p);
      assert (p[0], p[1]) in g && p[0] in order;
      CycleIsTrap(g, p);
      OrderHasNoTrap(g, order, set x | x in p);
    }
  }

  lemma Appended(g: Edges, order: seq<Node>, x: Node, deps: set<Node>)
    requires IsOrder(g, order) && x !in order
    requires forall y :: (x, y) in g ==> y in deps
    requires forall y :: y in deps ==> y in order
    ensures IsOrder(g, order + [x])
  {
    var longer := order + [x];
    forall i, y | 0 <= i < |longer| && (longer[i], y) in g ensures y in longer[..i] {
      if i < |order| {
        assert longer[i] == order[i] && longer[..i] == order[..i];
      } else {
        assert longer[..i] == order;
      }
    }
  }

  // ----- all orders of a graph -----

  predicate Reaches(g: Edges, a: Node, b: Node, p: seq<Node>) {
    |p| >= 2 && IsWalk(g, p) && p[0] == a && p[|p| - 1] == b
  }

  ghost predicate CanReach(g: Edges, a: Node, b: Node) {
    exists p :: Reaches(g, a, b, p)
  }

  /** An order of exactly these nodes. */
  ghost predicate Lists(g: Edges, nodes: set<Node>, order: seq<Node>) {
    IsOrder(g, order) && forall x :: x in order <==> x in nodes
  }

  /** The targets of these edges stand before their sources. */
  ghost predicate TargetsFirst(held: Edges, order: seq<Node>) {
    forall i, y :: 0 <= i < |order| && (order[i], y) in held ==> y in order[..i]
  }

  /** Whatever is reached stands before. */
  lemma {:induction false} WalkGoesBack(g: Edges, order: seq<Node>, i: nat, p: seq<Node>)
    requires IsOrder(g, order) && i < |order| && |p| >= 2 && IsWalk(g, p) && p[0] == order[i]
    ensures p[|p| - 1] in order[..i]
    decreases |p|
  {
    assert (p[0], p[1]) in g;
    var j :| 0 <= j < i && order[j] == p[1];
    if |p| > 2 {
      var rest := p[1..];
      forall k | 0 <= k < |rest| - 1 ensures (rest[k], rest[k + 1]) in g {
        assert rest[k] == p[k + 1] && rest[k + 1] == p[k + 2];
      }
      WalkGoesBack(g, order, j, rest);
      var k :| 0 <= k < j && order[k] == p[|p| - 1];
    }
  }

  /** Without a cycle an order of some nodes can be continued to all nodes of a closed set. */
  lemma {:induction false} Continues(g: Edges, s: set<Node>, order: seq<Node>) returns (full: seq<Node>)
    requires !Cyclic(g) && IsOrder(g, order) && (forall x :: x in order ==> x in s)
    requires forall x, y :: x in s && (x, y) in g ==> y in s
    ensures order <= full && Lists(g, s, full)
    decreases s - (set x | x in order)
  {
    var rest := s - (set x | x in order);
    if rest == {} {
      full := order;
      forall x | x in s ensures x in order {
        assert x !in rest;
      }
    } else if exists x :: x in rest && !Leads(g, x, rest) {
      var x :| x in rest && !Leads(g, x, rest);
      var deps := set y | y in s && y !in rest;
      forall y | (x, y) in g ensures y in deps {
      }
      forall y | y in deps ensures y in order {
      }
      Appended(g, order, x, deps);
      assert x !in s - (set y | y in order + [x]);
      full := Continues(g, s, order + [x]);
    } else {
      TrapHasCycle(g, rest);
      assert false;
    }
  }

  /** What a node reaches in one step more. */
  lemma ReachStep(g: Edges, a: Node, x: Node, y: Node)
    requires (x == a || CanReach(g, a, x)) && (x, y) in g
    ensures CanReach(g, a, y)
  {
    if x == a {
      assert Reaches(g, a, y, [a, y]);
    } else {
      var p :| Reaches(g, a, x, p);
      var q := p + [y];
      forall k | 0 <= k < |q| - 1 ensures (q[k], q[k + 1]) in g {
        if k < |p| - 1 {
          assert q[k] == p[k] && q[k + 1] == p[k + 1];
        }
      }
      assert Reaches(g, a, y, q);
    }
  }

  /** A node that does not reach another can stand before it. */
  lemma CanStandBefore(g: Edges, nodes: set<Node>, a: Node, b: Node) returns (order: seq<Node>)
    requires !Cyclic(g) && a in nodes && !CanReach(g, a, b)
    requires forall e :: e in g ==> e.1 in nodes
    ensures Lists(g, nodes, order) && exists i {:trigger order[..i]} :: 0 <= i < |order| && order[i] == a && b !in order[..i]
  {
    var closure := set x | x in nodes && (x == a || CanReach(g, a, x));
    forall x, y | x in closure && (x, y) in g ensures y in closure {
      ReachStep(g, a, x, y);
      assert (x, y).1 in nodes;
    }
    forall x, y | x in nodes && (x, y) in g ensures y in nodes {
      assert (x, y).1 in nodes;
    }
    var first := Continues(g, closure, []);
    order := Continues(g, nodes, first);
    assert a in first;
    var i :| 0 <= i < |first| && first[i] == a;
    assert order[i] == a && order[..i] == first[..i];
    forall j | 0 <= j < i ensures first[j] != b {
      assert first[j] in first && first[j] != first[i];
    }
  }

  /** All orders of the nodes put the targets of `held` first exactly when every edge of `held` is
      a way through `g`. */
  lemma AllPutTargetsFirst(g: Edges, nodes: set<Node>, held: Edges)
    requires !Cyclic(g) && (forall e :: e in g ==> e.1 in nodes) && (forall e :: e in held ==> e.0 in nodes)
    ensures (forall order :: Lists(g, nodes, order) ==> TargetsFirst(held, order))
            <==> (forall e :: e in held ==> CanReach(g, e.0, e.1))
  {
    if forall e :: e in held ==> CanReach(g, e.0, e.1) {
      forall order | Lists(g, nodes, order) ensures TargetsFirst(held, order) {
        forall i, y | 0 <= i < |order| && (order[i], y) in held ensures y in order[..i] {
          assert CanReach(g, (order[i], y).0, (order[i], y).1);
          var p :| Reaches(g, order[i], y, p);
          WalkGoesBack(g, order, i, p);
        }
      }
    } else {
      var e :| e in held && !CanReach(g, e.0, e.1);
      var order := CanStandBefore(g, nodes, e.0, e.1);
      var i :| 0 <= i < |order| && order[i] == e.0 && e.1 !in order[..i];
      assert (order[i], e.1) in held;
      assert !TargetsFirst(held, order);
    }
  }
}
