/** The expression types refuse no more than they have to: an operation without a type is refused for
    every pair of values of the kinds of its operands, and what has no type has no number. */
module TypingTight {
  import opened Outcome
  import opened Bytes
  import opened Expr
  import opened Plan
  import opened Decode
  import opened Typing
  import opened TypingSound

  predicate HasValues(t: ExprType) {
    t.IsNumeric() || t.Boolean?
  }

  predicate IsRefused(r: Result<Scalar>) {
    r == Fail(OperandType) || r == Fail(DivisionByZero)
  }

  ghost predicate AlwaysRefused(f: FloatUnit, op: BinOp, l: ExprType, r: ExprType) {
    forall a, b :: Carries(true, l, a) && Carries(true, r, b) ==> IsRefused(Binary(f, op, a, b))
  }

  function Sample(t: ExprType): (v: Scalar)
    requires HasValues(t)
    ensures Carries(true, t, v)
  {
    match t
    case IntegerSigned => I(1)
    case IntegerUnsigned => U(1)
    case Floating => D(Double(0x3FF0_0000_0000_0000))
    case _ => B(true)
  }

  /** Operands of two kinds have no type together exactly when every two values of these kinds are
      refused; only arithmetic on a truth value and a double, which the evaluator computes with 0 or 1,
      has no type either. (The floating point unit has to tell one from zero: the bits of `Sample` are those of 1.0.) */
  lemma BinaryTypeIsTight(f: FloatUnit, op: BinOp, l: ExprType, r: ExprType)
    requires HasValues(l) && HasValues(r) && !f.isZero(Sample(r))
    ensures TypeOfBinary(op, l, r).Invalid? <==>
              AlwaysRefused(f, op, l, r) || (op.IsArithmetic() && ((l.Boolean? && r.Floating?) || (l.Floating? && r.Boolean?)))
  {
    hide TypeOfBinary, Binary;
    if !TypeOfBinary(op, l, r).Invalid? {
      TypedIsAccepted(f, op, l, r);
    } else if !(op.IsArithmetic() && ((l.Boolean? && r.Floating?) || (l.Floating? && r.Boolean?))) {
      forall a, b | Carries(true, l, a) && Carries(true, r, b) ensures IsRefused(Binary(f, op, a, b)) {
        UntypedIsRefused(f, op, l, r, a, b);
      }
    }
  }

  lemma TypedIsAccepted(f: FloatUnit, op: BinOp, l: ExprType, r: ExprType)
    requires HasValues(l) && HasValues(r) && !f.isZero(Sample(r)) && !TypeOfBinary(op, l, r).Invalid?
    ensures !AlwaysRefused(f, op, l, r)
    ensures !(op.IsArithmetic() && ((l.Boolean? && r.Floating?) || (l.Floating? && r.Boolean?)))
  {
    var a, b := Sample(l), Sample(r);
    BinaryTyped(f, true, op, l, r, a, b);
    assert Carries(true, l, a) && Carries(true, r, b) && !IsRefused(Binary(f, op, a, b));
  }

  lemma UntypedIsRefused(f: FloatUnit, op: BinOp, l: ExprType, r: ExprType, a: Scalar, b: Scalar)
    requires HasValues(l) && HasValues(r) && TypeOfBinary(op, l, r).Invalid? && Carries(true, l, a) && Carries(true, r, b)
    requires !(op.IsArithmetic() && ((l.Boolean? && r.Floating?) || (l.Floating? && r.Boolean?)))
    ensures IsRefused(Binary(f, op, a, b))
  {
  }

  lemma NegationTypeIsTight(f: FloatUnit, t: ExprType)
    requires HasValues(t)
    ensures TypeOfNegation(t).Invalid? <==> forall a :: Carries(true, t, a) ==> Negate(f, a) == Fail(OperandType)
    ensures !TypeOfNegation(t).Invalid? ==> forall a :: Carries(true, t, a) && Negate(f, a).Ok? ==> Carries(true, TypeOfNegation(t), Negate(f, a).value)
  {
    var a := Sample(t);
    assert Carries(true, t, a);
  }

  /** A literal has a type of values exactly when it has a value, which is then of that type. */
  lemma LiteralTypeIsTight(l: Literal)
    ensures HasValues(TypeOfLiteral(l)) <==> ParseLiteral(l).Ok?
    ensures ParseLiteral(l).Ok? ==> Carries(true, TypeOfLiteral(l), ParseLiteral(l).value)
    ensures TypeOfLiteral(l).StringType? <==> l.StringLiteral?
  {
  }

  lemma TerminatedIsNoNumber(x: Source, w: Window, t: Type, env: Env, at: Cursor, depth: nat)
    requires t.IsTerminated() && ReadTerminated(x, w, t, env, at, depth).Ok?
    ensures !ReadTerminated(x, w, t, env, at, depth).value.v.Num? && (t.dims != [] || t.base.BytesBase?)
  {
    hide ReadSeq;
  }

  lemma BaseIsNumber(p: Program, exact: bool, x: Source, w: Window, t: Type, env: Env, at: Cursor, depth: nat)
    requires DeclaredModule(p, exact) && x.c.plan == p.m && t.dims == [] && ReadBase(x, w, t.base, env, at, depth).Ok?
    ensures !TypeOfType(p.m, t, {}).Invalid? <==> ReadBase(x, w, t.base, env, at, depth).value.v.Num?
  {
    hide ReadMembers, CheckRequirements, Unpack, SignExtend;
    match t.base
    case Primitive(it) =>
    case Named(id) => assert id in p.m.structs || id in p.m.enums ==> id !in p.m.aliases;
    case _ =>
  }

  /** A type has an expression type exactly when what is read of it is a number. */
  lemma TypesOfNumbers(p: Program, exact: bool, x: Source, w: Window, t: Type, bound: Option<u64>, env: Env, at: Cursor, depth: nat)
    requires DeclaredModule(p, exact) && x.c.plan == p.m && ReadType(x, w, t, bound, env, at, depth).Ok?
    ensures !TypeOfType(p.m, t, {}).Invalid? <==> ReadType(x, w, t, bound, env, at, depth).value.v.Num?
  {
    hide ReadBase, ReadElems, ReadTerminated, Extents, Product, TextLength;
    if t.IsTerminated() {
      TerminatedIsNoNumber(x, w, t, env, at, depth);
    } else if !t.base.IsText() && t.dims == [] {
      BaseIsNumber(p, exact, x, w, t, env, at, depth);
    }
  }

  /** The type of a symbol is the one of what it declares. A virtual field or an alias that leads to
      itself has none. */
  lemma SymbolTypes(p: Program, s: SymbolId)
    ensures IsBuiltin(s) ==> TypeOf(p, Id(s)) == IntegerUnsigned
    ensures !IsBuiltin(s) && s !in p.decls ==> TypeOf(p, Id(s)) == Invalid
    ensures !IsBuiltin(s) && s in p.decls ==>
              match p.decls[s]
              case ValueDecl(ty) => TypeOf(p, Id(s)) == TypeOfType(p.m, ty, {})
              case VirtualDecl(e) => TypeOf(p, Id(s)) in {TypeOf(p, e), Invalid}
              case AliasDecl(target) => TypeOf(p, Id(s)) in {TypeOf(p, Id(target)), Invalid}
              case ParameterDecl(pt) => forall v :: ParameterFits(pt, v) ==> Carries(true, TypeOf(p, Id(s)), v)
              case ConstantDecl => s in p.m.values ==> Carries(true, TypeOf(p, Id(s)), p.m.values[s])
              case EnumItemDecl(it) => TypeOf(p, Id(s)) == IntegerType(it)
  {
    if !IsBuiltin(s) && s in p.decls {
      match p.decls[s] {
        case VirtualDecl(e) => DeclaredType(p, s, e);
        case AliasDecl(target) => DeclaredType(p, s, Id(target));
        case _ =>
      }
    }
  }

  // ----- what the checks ask for -----

  /** Every virtual field is over symbols of a lower rank, and every alias names one: no field is
      declared through itself. */
  predicate IsRanked(p: Program, rank: map<SymbolId, nat>) {
    && rank.Keys == p.decls.Keys
    && forall s :: s in p.decls ==> forall x :: x in Through(p, s) && x in rank ==> rank[x] < rank[s]
  }

  /** The symbols that a declaration refers to. */
  function Through(p: Program, s: SymbolId): set<SymbolId>
    requires s in p.decls
  {
    match p.decls[s]
    case VirtualDecl(e) => Symbols(e)
    case AliasDecl(target) => {target}
    case _ => {}
  }

  predicate IsBelow(rank: map<SymbolId, nat>, used: set<SymbolId>, visiting: set<SymbolId>) {
    forall x, v :: x in used && x in rank && v in visiting && v in rank ==> rank[x] < rank[v]
  }

  lemma {:induction false} RankedVisiting(p: Program, rank: map<SymbolId, nat>, e: Expr, less: set<SymbolId>, more: set<SymbolId>)
    requires IsRanked(p, rank) && less <= more && IsBelow(rank, Symbols(e), more)
    ensures ResolvedType(p, e, less) == ResolvedType(p, e, more)
    decreases p.decls.Keys - more, e
  {
    match e
    case Lit(_) =>
    case Paren(inner) => RankedVisiting(p, rank, inner, less, more);
    case Neg(operand) => RankedVisiting(p, rank, operand, less, more);
    case Bin(_, left, right) =>
      RankedVisiting(p, rank, left, less, more);
      RankedVisiting(p, rank, right, less, more);
    case Id(s) =>
      if s in p.decls {
        assert s !in more;
        match p.decls[s] {
          case VirtualDecl(x) =>
            assert IsBelow(rank, Through(p, s), more + {s});
            RankedVisiting(p, rank, x, less + {s}, more + {s});
          case AliasDecl(target) =>
            assert IsBelow(rank, Through(p, s), more + {s});
            RankedVisiting(p, rank, Id(target), less + {s}, more + {s});
          case _ =>
        }
      }
  }

  /** Where no field is declared through itself, a virtual field has the type of its expression and an
      alias that of its target. */
  lemma DeclaredTypes(p: Program, rank: map<SymbolId, nat>, s: SymbolId)
    requires IsRanked(p, rank) && s in p.decls && !IsBuiltin(s)
    ensures p.decls[s].VirtualDecl? ==> TypeOf(p, Id(s)) == TypeOf(p, p.decls[s].e)
    ensures p.decls[s].AliasDecl? ==> TypeOf(p, Id(s)) == TypeOf(p, Id(p.decls[s].target))
  {
    var inside: set<SymbolId> := {} + {s};
    assert IsBelow(rank, Through(p, s), inside) && inside == {s};
    match p.decls[s]
    case VirtualDecl(x) => RankedVisiting(p, rank, x, {}, inside);
    case AliasDecl(target) => RankedVisiting(p, rank, Id(target), {}, inside);
    case _ =>
  }

  /** `op` is one of the members, or stands somewhere inside one. */
  ghost predicate IsWithin(ops: seq<Op>, op: Op)
    decreases ops, 0
  {
    exists i :: 0 <= i < |ops| && (ops[i] == op || IsInside(ops[i], op))
  }

  ghost predicate IsInside(outer: Op, op: Op)
    decreases outer, 1
  {
    match outer
    case At(_, _, members) => IsWithin(members, op)
    case Block(_, _, members) => IsWithin(members, op)
    case Conditional(_, thenMembers, elseMembers) => IsWithin(thenMembers, op) || IsWithin(elseMembers, op)
    case Variant(_, _, cases, default) =>
      || (exists i :: 0 <= i < |cases| && cases[i].body.Listed? && IsWithin(cases[i].body.members, op))
      || (default.Some? && default.value.Listed? && IsWithin(default.value.members, op))
    case _ => false
  }

  predicate ExtentsAreIntegers(p: Program, t: Type) {
    forall d :: d in t.dims && !d.Remaining? ==> TypeOf(p, d.e).IsInteger()
  }

  /** What is asked of a member by itself: extents, sizes, offsets, alignments and discriminators are
      integers, conditions are truth values, and virtual fields have a type. */
  predicate IsTypedItself(p: Program, exact: bool, op: Op) {
    match op
    case Field(s, _, ty, _, _, _) => Declares(p, s, ValueDecl(ty)) && ExtentsAreIntegers(p, ty)
    case Virtual(s, _, e) => Declares(p, s, VirtualDecl(e)) && TypeOf(p, e) != Invalid
    case Alias(s, _, target, _) => Declares(p, s, AliasDecl(target))
    case Bits(group) => DeclaresGroup(p, exact, group)
    case Align(e, _) => TypeOf(p, e) in {IntegerSigned, IntegerUnsigned}
    case At(e, _, _) => TypeOf(p, e) in {IntegerSigned, IntegerUnsigned}
    case Block(e, _, _) => TypeOf(p, e) in {IntegerSigned, IntegerUnsigned}
    case Conditional(e, _, _) => TypeOf(p, e) == Boolean
    case Variant(_, e, cases, default) =>
      && TypeOf(p, e) in {IntegerSigned, IntegerUnsigned}
      && (forall i :: 0 <= i < |cases| && cases[i].body.Typed? ==> ExtentsAreIntegers(p, cases[i].body.ty))
      && (default.Some? && default.value.Typed? ==> ExtentsAreIntegers(p, default.value.ty))
  }

  lemma {:induction false} TypedDimsAre(p: Program, t: Type, dims: seq<Dim>)
    ensures TypedDims(p, dims) <==> forall d :: d in dims && !d.Remaining? ==> TypeOf(p, d.e).IsInteger()
    decreases |dims|
  {
    hide ResolvedType;
    if dims != [] {
      TypedDimsAre(p, t, dims[1..]);
      assert dims == [dims[0]] + dims[1..];
    }
  }

  ghost predicate AllInsideTyped(p: Program, exact: bool, outer: Op) {
    forall op :: IsInside(outer, op) ==> IsTypedItself(p, exact, op)
  }

  ghost predicate AllWithinTyped(p: Program, exact: bool, ops: seq<Op>) {
    forall op :: IsWithin(ops, op) ==> IsTypedItself(p, exact, op)
  }

  lemma {:induction false} TypedBranchIs(p: Program, exact: bool, b: Branch)
    ensures TypedBranch(p, exact, b) <==> (b.Typed? ==> ExtentsAreIntegers(p, b.ty)) && (b.Listed? ==> AllWithinTyped(p, exact, b.members))
    decreases b, 2
  {
    hide AllWithinTyped;
    match b
    case Typed(t) => TypedDimsAre(p, t, t.dims);
    case Listed(members) => TypedOpsAre(p, exact, members);
  }

  lemma {:induction false} TypedOpIs(p: Program, exact: bool, op: Op)
    ensures TypedOp(p, exact, op) <==> IsTypedItself(p, exact, op) && AllInsideTyped(p, exact, op)
    decreases op, 1
  {
    hide TypedOps, TypedDims, TypedBranch, IsWithin, ExtentsAreIntegers, DeclaresGroup, ResolvedType, IsTypedItself;
    match op {
      case Field(_, _, ty, _, _, _) => TypedDimsAre(p, ty, ty.dims); TypedFieldIs(p, exact, op);
      case At(_, _, members) => TypedOpsAre(p, exact, members); TypedListIs(p, exact, op, members);
      case Block(_, _, members) => TypedOpsAre(p, exact, members); TypedListIs(p, exact, op, members);
      case Conditional(_, thenMembers, elseMembers) =>
        TypedOpsAre(p, exact, thenMembers);
        TypedOpsAre(p, exact, elseMembers);
        TypedConditionalIs(p, exact, op);
      case Variant(_, _, cases, default) =>
        forall i | 0 <= i < |cases|
          ensures TypedBranch(p, exact, cases[i].body) <==>
                    (cases[i].body.Typed? ==> ExtentsAreIntegers(p, cases[i].body.ty)) && (cases[i].body.Listed? ==> AllWithinTyped(p, exact, cases[i].body.members))
        {
          TypedBranchIs(p, exact, cases[i].body);
        }
        if default.Some? { TypedBranchIs(p, exact, default.value); }
        TypedVariantIs(p, exact, op);
      case _ => TypedLeafIs(p, exact, op);
    }
  }

  lemma TypedFieldIs(p: Program, exact: bool, op: Op)
    requires op.Field? && (TypedDims(p, op.ty.dims) <==> forall d :: d in op.ty.dims && !d.Remaining? ==> TypeOf(p, d.e).IsInteger())
    ensures TypedOp(p, exact, op) <==> IsTypedItself(p, exact, op) && AllInsideTyped(p, exact, op)
  {
    hide TypedDims, ResolvedType;
  }

  lemma TypedLeafIs(p: Program, exact: bool, op: Op)
    requires op.Virtual? || op.Alias? || op.Bits? || op.Align?
    ensures TypedOp(p, exact, op) <==> IsTypedItself(p, exact, op) && AllInsideTyped(p, exact, op)
  {
    hide ResolvedType, DeclaresGroup;
  }

  lemma TypedListIs(p: Program, exact: bool, op: Op, members: seq<Op>)
    requires (op.At? && op.members == members) || (op.Block? && op.members == members)
    requires TypedOps(p, exact, members) <==> AllWithinTyped(p, exact, members)
    ensures TypedOp(p, exact, op) <==> IsTypedItself(p, exact, op) && AllInsideTyped(p, exact, op)
  {
    hide TypedOps, IsWithin, ResolvedType;
    forall x ensures IsInside(op, x) <==> IsWithin(members, x) { }
    assert AllInsideTyped(p, exact, op) <==> AllWithinTyped(p, exact, members);
  }

  lemma TypedConditionalIs(p: Program, exact: bool, op: Op)
    requires op.Conditional?
    requires TypedOps(p, exact, op.thenMembers) <==> AllWithinTyped(p, exact, op.thenMembers)
    requires TypedOps(p, exact, op.elseMembers) <==> AllWithinTyped(p, exact, op.elseMembers)
    ensures TypedOp(p, exact, op) <==> IsTypedItself(p, exact, op) && AllInsideTyped(p, exact, op)
  {
    hide TypedOps, IsWithin, ResolvedType;
    forall x ensures IsInside(op, x) <==> IsWithin(op.thenMembers, x) || IsWithin(op.elseMembers, x) { }
    assert AllInsideTyped(p, exact, op) <==> AllWithinTyped(p, exact, op.thenMembers) && AllWithinTyped(p, exact, op.elseMembers);
  }

  lemma TypedVariantIs(p: Program, exact: bool, op: Op)
    requires op.Variant?
    requires forall i :: 0 <= i < |op.cases| ==>
               (TypedBranch(p, exact, op.cases[i].body) <==>
                  (op.cases[i].body.Typed? ==> ExtentsAreIntegers(p, op.cases[i].body.ty))
                  && (op.cases[i].body.Listed? ==> AllWithinTyped(p, exact, op.cases[i].body.members)))
    requires op.default.Some? ==>
               (TypedBranch(p, exact, op.default.value) <==>
                  (op.default.value.Typed? ==> ExtentsAreIntegers(p, op.default.value.ty))
                  && (op.default.value.Listed? ==> AllWithinTyped(p, exact, op.default.value.members)))
    ensures TypedOp(p, exact, op) <==> IsTypedItself(p, exact, op) && AllInsideTyped(p, exact, op)
  {
    hide TypedBranch, IsWithin, ResolvedType, ExtentsAreIntegers;
    if AllInsideTyped(p, exact, op) {
      forall i | 0 <= i < |op.cases| && op.cases[i].body.Listed? ensures AllWithinTyped(p, exact, op.cases[i].body.members) {
        forall x | IsWithin(op.cases[i].body.members, x) ensures IsTypedItself(p, exact, x) {
          assert IsInside(op, x);
        }
      }
      if op.default.Some? && op.default.value.Listed? {
        forall x | IsWithin(op.default.value.members, x) ensures IsTypedItself(p, exact, x) {
          assert IsInside(op, x);
        }
      }
    }
  }

  /** The checks accept a list exactly when every member in it, however deep, is typed by itself. */
  lemma {:induction false} TypedOpsAre(p: Program, exact: bool, ops: seq<Op>)
    ensures TypedOps(p, exact, ops) <==> AllWithinTyped(p, exact, ops)
    decreases ops, 0
  {
    hide TypedOp, IsInside, IsTypedItself;
    if ops != [] {
      TypedOpIs(p, exact, ops[0]);
      TypedOpsAre(p, exact, ops[1..]);
      forall op ensures IsWithin(ops, op) <==> ops[0] == op || IsInside(ops[0], op) || IsWithin(ops[1..], op) {
        WithinFirstOrRest(ops, op);
      }
    }
  }

  lemma WithinFirstOrRest(ops: seq<Op>, op: Op)
    requires ops != []
    ensures IsWithin(ops, op) <==> ops[0] == op || IsInside(ops[0], op) || IsWithin(ops[1..], op)
  {
    hide IsInside;
    if IsWithin(ops[1..], op) {
      var i :| 0 <= i < |ops[1..]| && (ops[1..][i] == op || IsInside(ops[1..][i], op));
      assert ops[i + 1] == ops[1..][i];
    }
    if IsWithin(ops, op) {
      var i :| 0 <= i < |ops| && (ops[i] == op || IsInside(ops[i], op));
      assert i > 0 ==> ops[1..][i - 1] == ops[i];
    }
  }
}
