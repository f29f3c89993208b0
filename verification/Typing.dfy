/** Static types of expressions (`resolvedExpressionType`) and what they promise about values. */
module Typing {
  import opened Outcome
  import opened Bytes
  import opened Expr
  import opened Plan

  datatype ExprType = IntegerSigned | IntegerUnsigned | Floating | Boolean | StringType | Invalid {
    predicate IsInteger() {
      IntegerSigned? || IntegerUnsigned?
    }

    predicate IsNumeric() {
      IsInteger() || Floating?
    }
  }

  /** What a SymbolId declares. Identities are unique, so the searches of the source through
      structs and members are one map. */
  datatype Decl =
    | ValueDecl(ty: Type)              // a field or a bits field
    | VirtualDecl(e: Expr)
    | AliasDecl(target: SymbolId)
    | ParameterDecl(pt: ParameterType)
    | ConstantDecl
    | EnumItemDecl(it: IntType)

  datatype Program = Program(m: Module, decls: map<SymbolId, Decl>)

  function IntegerType(it: IntType): ExprType {
    if it.signed then IntegerSigned else IntegerUnsigned
  }

  /** `expressionTypeFromType`: only a scalar has an expression type. */
  function TypeOfType(m: Module, t: Type, visiting: set<SymbolId>): ExprType
    decreases m.aliases.Keys - visiting
  {
    if t.dims != [] then Invalid
    else match t.base
         case Primitive(it) => IntegerType(it)
         case Named(id) =>
           if id in m.aliases && id !in visiting then TypeOfType(m, m.aliases[id], visiting + {id})
           else if id in m.enums && id !in m.aliases then IntegerType(m.enums[id])
           else Invalid
         case _ => Invalid
  }

  function TypeOfValue(v: Scalar): ExprType {
    match v
    case I(_) => IntegerSigned
    case U(_) => IntegerUnsigned
    case D(_) => Floating
    case B(_) => Boolean
  }

  /** `inferLiteralExprType` */
  function TypeOfLiteral(l: Literal): ExprType {
    match l
    case BoolLiteral(_) => Boolean
    case StringLiteral => StringType
    case FloatLiteral(_) => Floating
    case IntLiteral(n, hex) =>
      if n > U64_MAX then Invalid
      else if hex || n > I64_MAX then IntegerUnsigned
      else IntegerSigned
  }

  function TypeOfNegation(t: ExprType): ExprType {
    if !t.IsNumeric() then Invalid else if t.IntegerUnsigned? then IntegerSigned else t
  }

  function TypeOfBinary(op: BinOp, l: ExprType, r: ExprType): ExprType {
    if op.IsLogical() then (if l.Boolean? && r.Boolean? then Boolean else Invalid)
    else if !l.IsNumeric() || !r.IsNumeric() then Invalid
    else if op.IsComparison() then Boolean
    else if op.Mod? && (l.Floating? || r.Floating?) then Invalid
    else if l.Floating? || r.Floating? then Floating
    else if l.IntegerUnsigned? || r.IntegerUnsigned? then IntegerUnsigned
    else IntegerSigned
  }

  /** `resolvedExpressionType`. A virtual field has the type of its expression and an alias that
      of its target; `visiting` holds those being resolved. (The source inserts virtual fields
      only: aliases that name each other would send it round for ever.) */
  function ResolvedType(p: Program, e: Expr, visiting: set<SymbolId>): ExprType
    decreases p.decls.Keys - visiting, e
  {
    match e
    case Lit(l) => TypeOfLiteral(l)
    case Paren(inner) => ResolvedType(p, inner, visiting)
    case Neg(operand) => TypeOfNegation(ResolvedType(p, operand, visiting))
    case Bin(op, left, right) => TypeOfBinary(op, ResolvedType(p, left, visiting), ResolvedType(p, right, visiting))
    case Id(s) =>
      if IsBuiltin(s) then IntegerUnsigned
      else if s !in p.decls then Invalid
      else match p.decls[s]
           case ValueDecl(ty) => TypeOfType(p.m, ty, {})
           case ParameterDecl(pt) => if pt.FloatParameter? then Floating else IntegerType(pt.it)
           case ConstantDecl => if s in p.m.values then TypeOfValue(p.m.values[s]) else Invalid
           case EnumItemDecl(it) => IntegerType(it)
           case VirtualDecl(x) => if s in visiting then Invalid else ResolvedType(p, x, visiting + {s})
           case AliasDecl(target) => if s in visiting then Invalid else ResolvedType(p, Id(target), visiting + {s})
  }

  function TypeOf(p: Program, e: Expr): ExprType {
    ResolvedType(p, e, {})
  }

  /** Resolving from inside a virtual field or an alias can only lose types. */
  lemma {:induction false} VisitingMonotone(p: Program, e: Expr, less: set<SymbolId>, more: set<SymbolId>)
    requires less <= more && !ResolvedType(p, e, more).Invalid?
    ensures ResolvedType(p, e, less) == ResolvedType(p, e, more)
    decreases p.decls.Keys - more, e
  {
    match e
    case Lit(_) =>
    case Paren(inner) => VisitingMonotone(p, inner, less, more);
    case Neg(operand) => VisitingMonotone(p, operand, less, more);
    case Bin(_, left, right) =>
      VisitingMonotone(p, left, less, more);
      VisitingMonotone(p, right, less, more);
    case Id(s) =>
      if !IsBuiltin(s) && s in p.decls {
        match p.decls[s] {
          case VirtualDecl(x) => VisitingMonotone(p, x, less + {s}, more + {s});
          case AliasDecl(target) => VisitingMonotone(p, Id(target), less + {s}, more + {s});
          case _ =>
        }
      }
  }

  // ----- values -----

  /** A value of the type. With `exact` an integer has the tag of its type; without, it may have
      either tag, as enum items and signed bits fields do. */
  predicate Carries(exact: bool, t: ExprType, v: Scalar) {
    match t
    case IntegerSigned => if exact then v.I? else v.IsInteger()
    case IntegerUnsigned => if exact then v.U? else v.IsInteger()
    case Floating => v.D?
    case Boolean => v.B?
    case _ => false
  }

  /** Every bound symbol that has a type carries it. */
  predicate WellTyped(p: Program, exact: bool, env: Env) {
    forall s {:trigger TypeOf(p, Id(s))} :: s in env && !TypeOf(p, Id(s)).Invalid? ==> Carries(exact, TypeOf(p, Id(s)), env[s])
  }

  /** The failures that typing leaves open. */
  predicate IsRunError(e: Error) {
    e.Overflow? || e.DivisionByZero? || e.MixedSign? || e.FloatOverflow? || e.MissingSymbol?
  }

  predicate Fulfils(exact: bool, t: ExprType, r: Result<Scalar>) {
    if r.Ok? then Carries(exact, t, r.value) else IsRunError(r.error) || (t.StringType? && r.error.BadLiteral?)
  }

  lemma BinaryTyped(f: FloatUnit, exact: bool, op: BinOp, l: ExprType, r: ExprType, a: Scalar, b: Scalar)
    requires Carries(exact, l, a) && Carries(exact, r, b) && !TypeOfBinary(op, l, r).Invalid?
    ensures Fulfils(exact, TypeOfBinary(op, l, r), Binary(f, op, a, b))
  {
    if op.IsArithmetic() && a.IsInteger() && b.IsInteger() {
      assert Fulfils(exact, TypeOfBinary(op, l, r), IntegerArith(op, a, b));
    }
  }

  /** Type soundness: an expression of type T gives a value of type T, or fails by overflow,
      division by zero, mixed signs or a missing symbol, and in no other way. A string, which the
      source accepts as an expression, has no value. */
  lemma {:induction false} EvalTyped(p: Program, f: FloatUnit, exact: bool, e: Expr, env: Env, visiting: set<SymbolId>)
    requires WellTyped(p, exact, env) && !ResolvedType(p, e, visiting).Invalid?
    ensures Fulfils(exact, ResolvedType(p, e, visiting), Eval(f, e, env))
    decreases e
  {
    match e
    case Lit(_) =>
    case Id(s) =>
      VisitingMonotone(p, e, {}, visiting);
      assert !TypeOf(p, Id(s)).Invalid?;
    case Paren(inner) => EvalTyped(p, f, exact, inner, env, visiting);
    case Neg(operand) => EvalTyped(p, f, exact, operand, env, visiting);
    case Bin(op, left, right) =>
      EvalTyped(p, f, exact, left, env, visiting);
      EvalTyped(p, f, exact, right, env, visiting);
      if Eval(f, left, env).Ok? && Eval(f, right, env).Ok? {
        BinaryTyped(f, exact, op, ResolvedType(p, left, visiting), ResolvedType(p, right, visiting),
                    Eval(f, left, env).value, Eval(f, right, env).value);
      }
  }
}
