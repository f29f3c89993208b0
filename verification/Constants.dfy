/** Module constants may refer to each other in any order: the resolution loop of the plan builder
    evaluates in rounds those that wait for no other. */
module Constants {
  import opened Outcome
  import opened Expr
  import opened Plan
  import opened Digraph

  type Definitions = map<SymbolId, Expr>

  /** The symbols that the loop looks at; builtins are passed over. */
  function References(e: Expr): set<SymbolId> {
    set s | s in Symbols(e) && !IsBuiltin(s)
  }

  ghost function DependsOn(defs: Definitions): Edges {
    set a, b | a in defs && b in References(defs[a]) && b in defs :: (a, b)
  }

  predicate MayRefer(defs: Definitions, kinds: map<SymbolId, SymbolKind>, s: SymbolId) {
    s in defs || (s in kinds && kinds[s].ConstantKind?)
  }

  /** Constants refer to constants only. */
  predicate RefersToConstants(defs: Definitions, kinds: map<SymbolId, SymbolKind>) {
    forall id, s :: id in defs && s in References(defs[id]) ==> MayRefer(defs, kinds, s)
  }

  /** Each of these constants has the value of its expression. */
  predicate Solved(f: FloatUnit, defs: Definitions, env: Env) {
    env.Keys <= defs.Keys && forall id :: id in env ==> Eval(f, defs[id], env) == Ok(env[id])
  }

  predicate IsSolution(f: FloatUnit, defs: Definitions, env: Env) {
    env.Keys == defs.Keys && Solved(f, defs, env)
  }

  /** What is solved refers to what is solved. */
  predicate IsClosed(defs: Definitions, env: Env) {
    forall id, s :: id in env && id in defs && s in References(defs[id]) && s in defs ==> s in env
  }

  ghost predicate Solvable(f: FloatUnit, defs: Definitions) {
    exists env :: IsSolution(f, defs, env)
  }

  /** Two solutions can differ only on a dependency cycle. */
  lemma SolutionsAgree(f: FloatUnit, defs: Definitions, env: Env, whole: Env)
    requires Solved(f, defs, env) && IsClosed(defs, env) && IsSolution(f, defs, whole)
    requires !Cyclic(DependsOn(defs)) && forall s :: s in defs ==> !IsBuiltin(s)
    ensures forall id :: id in env ==> env[id] == whole[id]
  {
    var differ := set id | id in env && env[id] != whole[id];
    if differ != {} {
      forall id | id in differ ensures Leads(DependsOn(defs), id, differ) {
        if !Leads(DependsOn(defs), id, differ) {
          forall s | s in Symbols(defs[id]) ensures (s in env <==> s in whole) && (s in env ==> env[s] == whole[s]) {
            if s in defs {
              assert (id, s) in DependsOn(defs);
            }
          }
          EvalAgrees(f, defs[id], env, whole);
        }
      }
      TrapHasCycle(DependsOn(defs), differ);
    }
    forall id | id in env ensures env[id] == whole[id] {
      assert id !in differ;
    }
  }

  /** Without a cycle there is one solution at most: the order in which the loop visits the
      constants does not matter. */
  lemma SolutionIsUnique(f: FloatUnit, defs: Definitions, one: Env, other: Env)
    requires IsSolution(f, defs, one) && IsSolution(f, defs, other)
    requires !Cyclic(DependsOn(defs)) && forall s :: s in defs ==> !IsBuiltin(s)
    ensures one == other
  {
    SolutionsAgree(f, defs, one, other);
  }

  // ----- the loop -----

  /** The references of one constant: does it wait, and is there one that cannot be met? */
  method CheckReferences(refs: set<SymbolId>, pending: set<SymbolId>, env: Env, kinds: map<SymbolId, SymbolKind>)
    returns (waiting: bool, missing: Option<SymbolId>)
    ensures missing.Some? ==>
      && missing.value in refs && missing.value !in pending && missing.value !in env
      && !(missing.value in kinds && kinds[missing.value].ConstantKind?)
    ensures missing.None? ==>
      && (waiting <==> refs * pending != {})
      && forall s :: s in refs ==> s in pending || s in env || (s in kinds && kinds[s].ConstantKind?)
  {
    waiting, missing := false, None;
    var rest := refs;
    while rest != {}
      invariant rest <= refs
      invariant waiting <==> (refs - rest) * pending != {}
      invariant forall s :: s in refs - rest ==> s in pending || s in env || (s in kinds && kinds[s].ConstantKind?)
      decreases rest
    {
      var s :| s in rest;
      if s in pending {
        assert s in (refs - (rest - {s})) * pending;
        waiting := true;
      } else if s !in env && !(s in kinds && kinds[s].ConstantKind?) {
        return false, Some(s);
      } else {
        assert (refs - (rest - {s})) * pending == (refs - rest) * pending;
      }
      rest := rest - {s};
    }
  }

  /** The state between two rounds: what is resolved is solved, closed and in dependency order. */
  ghost predicate Progress(f: FloatUnit, defs: Definitions, env: Env, order: seq<SymbolId>) {
    && Solved(f, defs, env) && IsClosed(defs, env)
    && IsOrder(DependsOn(defs), order) && forall id :: id in order <==> id in env
  }

  lemma Resolved(f: FloatUnit, defs: Definitions, env: Env, order: seq<SymbolId>, id: SymbolId, v: Scalar)
    requires Progress(f, defs, env, order) && id in defs && id !in env
    requires References(defs[id]) * defs.Keys <= env.Keys
    requires Eval(f, defs[id], env) == Ok(v)
    ensures Progress(f, defs, env[id := v], order + [id])
  {
    var larger := env[id := v];
    forall x | x in larger ensures Eval(f, defs[x], larger) == Ok(larger[x]) {
      EvalMonotone(f, defs[x], env, larger);
    }
    Appended(DependsOn(defs), order, id, set y | y in order);
  }

  /** An evaluation that fails here fails in every solution. */
  lemma FailureIsFinal(f: FloatUnit, defs: Definitions, env: Env, id: SymbolId)
    requires Solved(f, defs, env) && IsClosed(defs, env) && forall s :: s in defs ==> !IsBuiltin(s)
    requires id in defs && References(defs[id]) * defs.Keys <= env.Keys && Eval(f, defs[id], env).Fail?
    ensures Cyclic(DependsOn(defs)) || !Solvable(f, defs)
  {
    if !Cyclic(DependsOn(defs)) && Solvable(f, defs) {
      var whole :| IsSolution(f, defs, whole);
      SolutionsAgree(f, defs, env, whole);
      EvalAgrees(f, defs[id], env, whole);
    }
  }

  /** A constant that waits refers to one that is pending. */
  lemma Waits(defs: Definitions, id: SymbolId, pending: set<SymbolId>)
    requires id in defs && pending <= defs.Keys && References(defs[id]) * pending != {}
    ensures Leads(DependsOn(defs), id, pending)
  {
    var s :| s in References(defs[id]) * pending;
    assert (id, s) in DependsOn(defs);
  }

  /** When all constants are resolved, they are in dependency order. */
  lemma AllResolved(f: FloatUnit, defs: Definitions, env: Env, order: seq<SymbolId>)
    requires Progress(f, defs, env, order) && env.Keys == defs.Keys
    ensures IsSolution(f, defs, env) && Solvable(f, defs) && !Cyclic(DependsOn(defs))
  {
    forall e | e in DependsOn(defs) ensures e.0 in order {
      assert e.0 in env;
    }
    OrderMeansAcyclic(DependsOn(defs), order);
    assert IsSolution(f, defs, env);
  }

  /** The resolution loop. It succeeds exactly when constants refer to constants only, without a
      cycle, and their equations have a solution; it returns that solution. A round without
      progress happens only when there is a cycle. */
  method Resolve(f: FloatUnit, defs: Definitions, kinds: map<SymbolId, SymbolKind>) returns (r: Result<Env>)
    requires forall s :: s in defs ==> !IsBuiltin(s)
    ensures r.Ok? <==> RefersToConstants(defs, kinds) && !Cyclic(DependsOn(defs)) && Solvable(f, defs)
    ensures r.Ok? ==> IsSolution(f, defs, r.value)
    ensures r == Fail(DependencyCycle) ==> Cyclic(DependsOn(defs))
  {
    hide Eval, References, DependsOn, Leads, Solvable, Cyclic;
    var env: Env := map[];
    var pending := defs.Keys;
    ghost var order: seq<SymbolId> := [];
    while pending != {}
      invariant pending <= defs.Keys && env.Keys == defs.Keys - pending
      invariant Progress(f, defs, env, order)
      invariant forall id :: id in env ==> forall s :: s in References(defs[id]) ==> MayRefer(defs, kinds, s)
      decreases pending
    {
      var done: set<SymbolId> := {};
      var rest := pending;
      while rest != {}
        invariant rest <= pending && done <= pending - rest
        invariant env.Keys == defs.Keys - pending + done
        invariant Progress(f, defs, env, order)
        invariant forall id :: id in pending - rest ==> forall s :: s in References(defs[id]) ==> MayRefer(defs, kinds, s)
        invariant forall id :: id in env ==> forall s :: s in References(defs[id]) ==> MayRefer(defs, kinds, s)
        invariant forall id :: id in pending - rest && id !in done ==> Leads(DependsOn(defs), id, pending)
        decreases rest
      {
        var id :| id in rest;
        var refs := References(defs[id]);
        var waiting, missing := CheckReferences(refs, pending, env, kinds);
        if missing.Some? {
          assert !MayRefer(defs, kinds, missing.value);
          return Fail(MissingSymbol(missing.value));
        }
        if waiting {
          Waits(defs, id, pending);
        } else {
          var v := Eval(f, defs[id], env);
          if v.Fail? {
            EvalMisses(f, defs[id], env);
            FailureIsFinal(f, defs, env, id);
            return Fail(v.error);
          }
          Resolved(f, defs, env, order, id, v.value);
          env := env[id := v.value];
          order := order + [id];
          done := done + {id};
        }
        rest := rest - {id};
      }
      if done == {} {
        TrapHasCycle(DependsOn(defs), pending);
        return Fail(DependencyCycle);
      }
      pending := pending - done;
    }
    AllResolved(f, defs, env, order);
    r := Ok(env);
  }
}
