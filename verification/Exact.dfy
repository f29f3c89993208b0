/** Integer expressions mean what they say: the evaluator computes with 64-bit operands and
    range guards, and the result is the mathematical one or an error. */
module Exact {
  import opened Outcome
  import opened Bytes
  import opened Expr

  // ----- one operation -----

  /** Both operands have one tag, or the signed one is not negative. */
  predicate Admissible(a: Scalar, b: Scalar)
    requires a.IsInteger() && b.IsInteger()
  {
    a.I? == b.I? || ((a.I? ==> a.i >= 0) && (b.I? ==> b.i >= 0))
  }

  /** The mathematical result, with the quotient cut toward zero. */
  function Mathematical(op: BinOp, x: int, y: int): (r: Option<int>)
    requires op.IsArithmetic()
  {
    match op
    case Add => Some(x + y)
    case Sub => Some(x - y)
    case Mul => Some(x * y)
    case Div => if y == 0 then None else Some(TruncDiv(x, y))
    case Mod => if y == 0 then None else Some(TruncMod(x, y))
  }

  /** An integer with the tag of the result: signed when both operands are. */
  function Tagged(signed: bool, z: int): (r: Option<Scalar>)
    ensures r.Some? ==> r.value.IsInteger() && r.value.I? == signed && r.value.Int() == z
    ensures r.None? <==> if signed then !(I64_MIN <= z <= I64_MAX) else !(0 <= z <= U64_MAX)
  {
    if signed then (if I64_MIN <= z <= I64_MAX then Some(I(z)) else None)
    else if 0 <= z <= U64_MAX then Some(U(z)) else None
  }

  /** `+ - * / %` succeed exactly when the operands are admissible and the mathematical result
      exists and fits the result tag; then they return it. Each other case has its own error. */
  lemma ArithmeticIsExact(f: FloatUnit, op: BinOp, a: Scalar, b: Scalar)
    requires op.IsArithmetic() && a.IsInteger() && b.IsInteger()
    ensures Binary(f, op, a, b) ==
            if !Admissible(a, b) then Fail(MixedSign)
            else match Mathematical(op, a.Int(), b.Int())
                 case None => Fail(DivisionByZero)
                 case Some(z) =>
                   match Tagged(a.I? && b.I?, z)
                   case None => Fail(Overflow)
                   case Some(v) => Ok(v)
  {
    if a.I? && b.I? {
      SignedIsExact(op, a.i, b.i);
    } else if Admissible(a, b) {
      UnsignedIsExact(op, a.Int(), b.Int());
    }
  }

  lemma SignedIsExact(op: BinOp, a: i64, b: i64)
    requires op.IsArithmetic()
    ensures Signed(op, a, b) ==
            match Mathematical(op, a, b)
            case None => Fail(DivisionByZero)
            case Some(z) => (match Tagged(true, z) case None => Fail(Overflow) case Some(v) => Ok(v))
  {
    match op
    case Add =>
    case Sub =>
    case Mul =>
      if a != 0 && b != 0 && a != -1 && b != -1 {
        ProductFits(a, b);
      }
    case Div => if b != 0 { TruncBounds(a, b); }
    case Mod => if b != 0 { TruncBounds(a, b); }
  }

  lemma UnsignedIsExact(op: BinOp, a: u64, b: u64)
    requires op.IsArithmetic()
    ensures Unsigned(op, a, b) ==
            match Mathematical(op, a, b)
            case None => Fail(DivisionByZero)
            case Some(z) => (match Tagged(false, z) case None => Fail(Overflow) case Some(v) => Ok(v))
  {
    UnsignedProductFits(a, b);
    if b != 0 {
      QuotientBound(a, b);
      var q := a / b;
      assert a - q * b == a % b by {
        assert q * b == b * q;
      }
    }
  }

  lemma NegationIsExact(f: FloatUnit, a: Scalar)
    requires a.IsInteger()
    ensures Negate(f, a) == match Tagged(true, -a.Int()) case None => Fail(Overflow) case Some(v) => Ok(v)
  {
  }

  lemma ComparisonIsExact(f: FloatUnit, op: BinOp, a: Scalar, b: Scalar)
    requires op.IsComparison() && a.IsInteger() && b.IsInteger()
    ensures Binary(f, op, a, b) == if Admissible(a, b) then Ok(B(Holds(op, a.Int(), b.Int()))) else Fail(MixedSign)
  {
  }

  // ----- whole expressions -----

  /** A value without a width. */
  datatype Ideal = Z(n: int) | T(b: bool)

  function Meaning(s: Scalar): Ideal
    requires !s.D?
  {
    if s.B? then T(s.b) else Z(s.Int())
  }

  function Meanings(env: Env): map<SymbolId, Ideal>
    requires forall s :: s in env ==> !env[s].D?
  {
    map s | s in env :: Meaning(env[s])
  }

  predicate HasNoFloat(e: Expr) {
    match e
    case Lit(l) => !l.FloatLiteral?
    case Id(_) => true
    case Paren(inner) => HasNoFloat(inner)
    case Neg(operand) => HasNoFloat(operand)
    case Bin(_, left, right) => HasNoFloat(left) && HasNoFloat(right)
  }

  function IdealBinary(op: BinOp, a: Ideal, b: Ideal): Option<Ideal> {
    if op.IsLogical() then
      if a.T? && b.T? then Some(T(if op.And? then a.b && b.b else a.b || b.b)) else None
    else if !a.Z? || !b.Z? then None
    else if op.IsComparison() then Some(T(Holds(op, a.n, b.n)))
    else match Mathematical(op, a.n, b.n)
         case None => None
         case Some(z) => Some(Z(z))
  }

  /** Evaluation over the unbounded integers. */
  function IdealEval(e: Expr, env: map<SymbolId, Ideal>): Option<Ideal> {
    match e
    case Lit(l) =>
      (match l
       case IntLiteral(n, _) => Some(Z(n))
       case BoolLiteral(b) => Some(T(b))
       case _ => None)
    case Id(s) => if s in env then Some(env[s]) else None
    case Paren(inner) => IdealEval(inner, env)
    case Neg(operand) =>
      (match IdealEval(operand, env)
       case Some(Z(n)) => Some(Z(-n))
       case _ => None)
    case Bin(op, left, right) =>
      (match IdealEval(left, env)
       case None => None
       case Some(a) =>
         if op.IsLogical() && !a.T? then None
         else if op.And? && !a.b then Some(T(false))
         else if op.Or? && a.b then Some(T(true))
         else match IdealEval(right, env)
              case None => None
              case Some(b) => IdealBinary(op, a, b))
  }

  /** An error that only the width of the operands explains. */
  predicate IsWidthError(e: Error) {
    e.Overflow? || e.MixedSign? || e.BadLiteral?
  }

  /** The evaluator and the unbounded integers agree. */
  ghost predicate Agrees(r: Result<Scalar>, z: Option<Ideal>) {
    && (r.Ok? ==> !r.value.D? && z == Some(Meaning(r.value)))
    && (r.Fail? && z.Some? ==> IsWidthError(r.error))
  }

  lemma BinaryAgrees(f: FloatUnit, op: BinOp, a: Scalar, b: Scalar)
    requires !a.D? && !b.D?
    ensures Agrees(Binary(f, op, a, b), IdealBinary(op, Meaning(a), Meaning(b)))
  {
    if a.IsInteger() && b.IsInteger() {
      if op.IsComparison() {
        ComparisonIsExact(f, op, a, b);
      } else if op.IsArithmetic() {
        ArithmeticIsExact(f, op, a, b);
      }
    }
  }

  /** Whenever an expression without floats evaluates, its value is the one over the unbounded
      integers; where that value exists, only a width error can take its place. */
  lemma {:induction false} EvalIsExact(f: FloatUnit, e: Expr, env: Env)
    requires HasNoFloat(e) && forall s :: s in env ==> !env[s].D?
    ensures Agrees(Eval(f, e, env), IdealEval(e, Meanings(env)))
  {
    match e
    case Lit(_) =>
    case Id(_) =>
    case Paren(inner) => EvalIsExact(f, inner, env);
    case Neg(operand) =>
      EvalIsExact(f, operand, env);
      if Eval(f, operand, env).Ok? && Eval(f, operand, env).value.IsInteger() {
        NegationIsExact(f, Eval(f, operand, env).value);
      }
    case Bin(op, left, right) =>
      EvalIsExact(f, left, env);
      EvalIsExact(f, right, env);
      if Eval(f, left, env).Ok? && Eval(f, right, env).Ok? {
        BinaryAgrees(f, op, Eval(f, left, env).value, Eval(f, right, env).value);
      }
  }

  // ----- comparisons, sizes and conditions -----

  /** A comparison is decided by the sign of the difference. */
  lemma HoldsBySign(x: int, y: int)
    ensures var z := x - y;
            && (Holds(Lt, x, y) <==> z < 0) && (Holds(Le, x, y) <==> z <= 0)
            && (Holds(Gt, x, y) <==> z > 0) && (Holds(Ge, x, y) <==> z >= 0)
            && (Holds(Eq, x, y) <==> z == 0) && (Holds(Ne, x, y) <==> z != 0)
  {
  }

  /** Two values are the same number when both are integers of one mathematical value; a truth value
      is the same as itself only; beside a double the floating point unit decides. */
  lemma SameNumberIsEquality(f: FloatUnit, a: Scalar, b: Scalar)
    ensures SameNumber(f, a, b) <==>
            if !a.D? && !b.D? then Meaning(a) == Meaning(b)
            else a.IsNumeric() && b.IsNumeric() && f.same(a, b)
  {
  }

  /** With a double the floating point unit compares and computes, and nothing else does. */
  lemma DoublesAreDelegated(f: FloatUnit, op: BinOp, a: Scalar, b: Scalar)
    requires a.D? || b.D?
    ensures op.IsLogical() ==> Binary(f, op, a, b) == Fail(OperandType)
    ensures op.IsComparison() ==> Binary(f, op, a, b) == if a.B? || b.B? then Fail(OperandType) else Ok(B(f.compare(op, a, b)))
    ensures (op.Div? || op.Mod?) && f.isZero(b) ==> Binary(f, op, a, b) == Fail(DivisionByZero)
    ensures op.Mod? && !f.isZero(b) ==> Binary(f, op, a, b) == Fail(OperandType)
    ensures (op.Add? || op.Sub? || op.Mul? || (op.Div? && !f.isZero(b))) ==>
              Binary(f, op, a, b) == if f.arith(op, a, b).None? then Fail(FloatOverflow) else Ok(D(f.arith(op, a, b).value))
    ensures a.D? ==> Negate(f, a) == Ok(D(f.negate(a.d)))
  {
  }

  /** A size is the mathematical value of its expression. A negative integer and a value that is not
      an integer have errors of their own, and an expression without a value keeps its error. */
  lemma SizeIsExact(f: FloatUnit, e: Expr, env: Env)
    ensures var v := Eval(f, e, env);
            EvalSize(f, e, env) ==
              if v.Fail? then Fail(v.error)
              else if !v.value.IsInteger() then Fail(SizeNotInteger)
              else if v.value.Int() < 0 then Fail(NegativeSize)
              else Ok(v.value.Int())
  {
  }

  /** A condition is the truth value of its expression. */
  lemma ConditionIsExact(f: FloatUnit, e: Expr, env: Env)
    ensures forall b :: EvalBool(f, e, env) == Ok(b) <==> Eval(f, e, env) == Ok(B(b))
    ensures EvalBool(f, e, env).Fail? ==>
              EvalBool(f, e, env).error == if Eval(f, e, env).Fail? then Eval(f, e, env).error else ConditionNotBoolean
  {
  }

  /** Over the unbounded integers: a size is the value of the expression, and where the expression has
      a value that is not negative, only a width error can take the place of the size. */
  lemma SizeIsIdeal(f: FloatUnit, e: Expr, env: Env)
    requires HasNoFloat(e) && forall s :: s in env ==> !env[s].D?
    ensures var z := IdealEval(e, Meanings(env));
            var n := EvalSize(f, e, env);
            && (n.Ok? ==> z == Some(Z(n.value)))
            && (n.Fail? && z.Some? && z.value.Z? && z.value.n >= 0 ==> IsWidthError(n.error))
            && (n.Fail? && z.Some? && z.value.Z? && z.value.n < 0 ==> IsWidthError(n.error) || n.error == NegativeSize)
            && (z.Some? && z.value.T? ==> n.Fail? && (IsWidthError(n.error) || n.error == SizeNotInteger))
  {
    EvalIsExact(f, e, env);
  }

  /** The same for conditions. */
  lemma ConditionIsIdeal(f: FloatUnit, e: Expr, env: Env)
    requires HasNoFloat(e) && forall s :: s in env ==> !env[s].D?
    ensures var z := IdealEval(e, Meanings(env));
            var b := EvalBool(f, e, env);
            && (b.Ok? ==> z == Some(T(b.value)))
            && (b.Fail? && z.Some? && z.value.T? ==> IsWidthError(b.error))
  {
    EvalIsExact(f, e, env);
  }
}
