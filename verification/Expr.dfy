/** Expressions and their evaluator (`evalSymbol`, `binary`, `checkedSigned`, `integerOperands`). */
module Expr {
  import opened Outcome
  import opened Bytes

  type SymbolId = nat

  /** Layout identities that no declaration owns. */
  const NEXT: SymbolId := 0xFFFF_FFFF_FFFF_FFFF
  const SIZE_IN_BYTES: SymbolId := NEXT - 1
  const MIN_SIZE_IN_BYTES: SymbolId := NEXT - 2
  const MAX_SIZE_IN_BYTES: SymbolId := NEXT - 3

  predicate IsBuiltin(s: SymbolId) {
    s == NEXT || s == SIZE_IN_BYTES || s == MIN_SIZE_IN_BYTES || s == MAX_SIZE_IN_BYTES
  }

  /** A floating value is known by its 64-bit pattern only. */
  datatype Double = Double(bits: u64)

  /** A runtime value, with the tag of the C++ variant. */
  datatype Scalar = I(i: i64) | U(u: u64) | D(d: Double) | B(b: bool) {
    predicate IsInteger() {
      I? || U?
    }

    predicate IsNumeric() {
      I? || U? || D?
    }

    /** The mathematical integer. */
    function Int(): int
      requires IsInteger()
    {
      if I? then i else u
    }
  }

  type Env = map<SymbolId, Scalar>

  datatype BinOp = Add | Sub | Mul | Div | Mod | Eq | Ne | Lt | Le | Gt | Ge | And | Or {
    predicate IsLogical() {
      And? || Or?
    }

    predicate IsComparison() {
      Eq? || Ne? || Lt? || Le? || Gt? || Ge?
    }

    predicate IsArithmetic() {
      Add? || Sub? || Mul? || Div? || Mod?
    }
  }

  /** A literal after lexing: an integer keeps its base because the base selects its tag. */
  datatype Literal =
    | IntLiteral(n: nat, hex: bool)
    | BoolLiteral(b: bool)
    | FloatLiteral(d: Double)
    | StringLiteral

  datatype Expr =
    | Lit(literal: Literal)
    | Id(symbol: SymbolId)
    | Paren(inner: Expr)
    | Neg(operand: Expr)
    | Bin(op: BinOp, left: Expr, right: Expr)

  /** The host's floating point unit. Nothing is assumed about it: an arithmetic operation
      gives a finite double or overflows, a comparison gives a truth value. */
  datatype FloatUnit = FloatUnit(
    arith: (BinOp, Scalar, Scalar) -> Option<Double>,
    compare: (BinOp, Scalar, Scalar) -> bool,
    isZero: Scalar -> bool,
    negate: Double -> Double,
    same: (Scalar, Scalar) -> bool)

  function ParseLiteral(l: Literal): (r: Result<Scalar>) {
    match l
    case BoolLiteral(b) => Ok(B(b))
    case StringLiteral => Fail(BadLiteral)
    case FloatLiteral(d) => Ok(D(d))
    case IntLiteral(n, hex) =>
      if n > U64_MAX then Fail(BadLiteral)
      else if hex || n > I64_MAX then Ok(U(n))
      else Ok(I(n))
  }

  /** Division and remainder of C++: the quotient is cut toward zero. */
  function TruncDiv(x: int, y: int): int
    requires y != 0
  {
    if x >= 0 then (if y > 0 then x / y else -(x / -y))
    else (if y > 0 then -((-x) / y) else (-x) / (-y))
  }

  function TruncMod(x: int, y: int): int
    requires y != 0
  {
    x - TruncDiv(x, y) * y
  }

  /** `+`, `-` and `*` on two int64 operands, with the overflow guards of the source. */
  function CheckedSigned(op: BinOp, a: i64, b: i64): (r: Result<Scalar>)
    requires op.Add? || op.Sub? || op.Mul?
  {
    match op
    case Add =>
      if (b > 0 && a > I64_MAX - b) || (b < 0 && a < I64_MIN - b) then Fail(Overflow) else Ok(I(a + b))
    case Sub =>
      if (b < 0 && a > I64_MAX + b) || (b > 0 && a < I64_MIN + b) then Fail(Overflow) else Ok(I(a - b))
    case Mul =>
      if a == 0 || b == 0 then Ok(I(0))
      else if a == -1 then (if b == I64_MIN then Fail(Overflow) else Ok(I(-b)))
      else if b == -1 then (if a == I64_MIN then Fail(Overflow) else Ok(I(-a)))
      else if (if a > 0 then (if b > 0 then a > TruncDiv(I64_MAX, b) else b < TruncDiv(I64_MIN, a))
               else (if b > 0 then a < TruncDiv(I64_MIN, b) else a < TruncDiv(I64_MAX, b)))
      then Fail(Overflow)
      else (ProductFits(a, b); Ok(I(a * b)))
  }

  /** The four division guards of the multiplication test exactly whether the product fits. */
  lemma ProductFits(a: i64, b: i64)
    requires a != 0 && b != 0 && a != -1 && b != -1
    ensures (if a > 0 then (if b > 0 then a > TruncDiv(I64_MAX, b) else b < TruncDiv(I64_MIN, a))
             else (if b > 0 then a < TruncDiv(I64_MIN, b) else a < TruncDiv(I64_MAX, b)))
            <==> !(I64_MIN <= a * b <= I64_MAX)
  {
    var x: int, y: int := a, b;
    if x > 0 && y > 0 {
      QuotientTest(I64_MAX, x, y);
    } else if x > 0 {
      QuotientTest(-I64_MIN, -y, x);
      assert (-y) * x == -(x * y);
    } else if y > 0 {
      QuotientTest(-I64_MIN, -x, y);
      assert (-x) * y == -(x * y);
    } else {
      QuotientTest(I64_MAX, -x, -y);
      assert (-x) * (-y) == x * y;
    }
    SignOfProduct(x, y);
  }

  lemma SignOfProduct(a: int, b: int)
    ensures (a > 0 && b > 0) || (a < 0 && b < 0) ==> a * b > 0
    ensures (a > 0 && b < 0) || (a < 0 && b > 0) ==> a * b < 0
  {
  }

  lemma QuotientTest(m: int, x: int, d: int)
    requires m >= 0 && d > 0
    ensures x > m / d <==> x * d > m
  {
    var q := m / d;
    var r := m % d;
    assert m == d * q + r;
    assert d * x == x * d && d * (q + 1) == d * q + d;
    if x > q {
      MulMonotone(d, q + 1, x);
    } else {
      MulMonotone(d, x, q);
    }
  }

  /** Two unsigned operands, or a mix whose signed operand is not negative. */
  function Unsigned(op: BinOp, a: u64, b: u64): (r: Result<Scalar>)
    requires op.IsArithmetic()
  {
    match op
    case Add => if b > U64_MAX - a then Fail(Overflow) else Ok(U(a + b))
    case Sub => if b > a then Fail(Overflow) else Ok(U(a - b))
    case Mul =>
      if b != 0 && a > U64_MAX / b then Fail(Overflow)
      else (UnsignedProductFits(a, b); Ok(U(a * b)))
    case Div => if b == 0 then Fail(DivisionByZero) else (QuotientBound(a, b); Ok(U(a / b)))
    case Mod => if b == 0 then Fail(DivisionByZero) else Ok(U(a % b))
  }

  lemma UnsignedProductFits(a: u64, b: u64)
    ensures b != 0 && a > U64_MAX / b <==> a * b > U64_MAX
    ensures a * b >= 0
  {
    if b != 0 {
      QuotientTest(U64_MAX, a, b);
    }
    MulMonotone(a, 0, b);
  }

  lemma QuotientBound(a: int, b: int)
    requires a >= 0 && b > 0
    ensures 0 <= a / b <= a
  {
    QuotientTest(a, a + 1, b);
    if a / b > a {
      MulMonotone(a + 1, 1, b);
    }
    if a / b < 0 {
      QuotientTest(a, 0, b);
    }
  }

  function Signed(op: BinOp, a: i64, b: i64): (r: Result<Scalar>)
    requires op.IsArithmetic()
  {
    if (op.Div? || op.Mod?) && b == 0 then Fail(DivisionByZero)
    else if op.Div? && a == I64_MIN && b == -1 then Fail(Overflow)
    else if op.Mod? && a == I64_MIN && b == -1 then Ok(I(0))
    else if op.Div? then (TruncBounds(a, b); Ok(I(TruncDiv(a, b))))
    else if op.Mod? then (TruncBounds(a, b); Ok(I(TruncMod(a, b))))
    else CheckedSigned(op, a, b)
  }

  lemma NegatedProducts(q: int, y: int)
    ensures q * y == y * q && q * -y == -(y * q) && -q * y == -(y * q) && -q * -y == y * q
  {
  }

  /** Quotient and remainder are those of the absolute values, with a sign. */
  lemma TruncByAbs(a: int, b: int)
    requires b != 0
    ensures var x := if a >= 0 then a else -a; var y := if b > 0 then b else -b;
            && TruncDiv(a, b) == (if (a >= 0) == (b > 0) then x / y else -(x / y))
            && TruncMod(a, b) == (if a >= 0 then x % y else -(x % y))
  {
    var x := if a >= 0 then a else -a;
    var y := if b > 0 then b else -b;
    var q := x / y;
    assert x == y * q + x % y;
    NegatedProducts(q, y);
    assert TruncDiv(a, b) == if (a >= 0) == (b > 0) then q else -q;
    assert TruncDiv(a, b) * b == if a >= 0 then y * q else -(y * q);
  }

  lemma TruncBounds(a: i64, b: i64)
    requires b != 0
    ensures !(a == I64_MIN && b == -1) ==> I64_MIN <= TruncDiv(a, b) <= I64_MAX
    ensures I64_MIN <= TruncMod(a, b) <= I64_MAX
  {
    TruncByAbs(a, b);
    var m: int, n: int := a, b;
    var x := if m >= 0 then m else -m;
    var y := if n > 0 then n else -n;
    QuotientBound(x, y);
    assert 0 <= x % y < y;
    if y >= 2 && x > 0 {
      QuotientTest(x, x, y);
      MulMonotone(x, 2, y);
    }
  }

  function IntegerArith(op: BinOp, a: Scalar, b: Scalar): (r: Result<Scalar>)
    requires op.IsArithmetic()
  {
    if !a.IsInteger() || !b.IsInteger() then Fail(OperandType)
    else if a.I? && b.I? then Signed(op, a.i, b.i)
    else if (a.I? && a.i < 0) || (b.I? && b.i < 0) then Fail(MixedSign)
    else Unsigned(op, a.Int(), b.Int())
  }

  function Holds(op: BinOp, x: int, y: int): bool
    requires op.IsComparison()
  {
    match op
    case Eq => x == y
    case Ne => x != y
    case Lt => x < y
    case Le => x <= y
    case Gt => x > y
    case Ge => x >= y
  }

  function Compare(f: FloatUnit, op: BinOp, a: Scalar, b: Scalar): (r: Result<Scalar>)
    requires op.IsComparison()
  {
    if !a.IsNumeric() || !b.IsNumeric() then Fail(OperandType)
    else if a.D? || b.D? then Ok(B(f.compare(op, a, b)))
    else if a.I? != b.I? && ((a.I? && a.i < 0) || (b.I? && b.i < 0)) then Fail(MixedSign)
    else Ok(B(Holds(op, a.Int(), b.Int())))
  }

  /** A boolean beside a double counts as 0 or 1, as `asReal` makes it. */
  function FloatArith(f: FloatUnit, op: BinOp, a: Scalar, b: Scalar): (r: Result<Scalar>)
    requires op.IsArithmetic()
  {
    if (op.Div? || op.Mod?) && f.isZero(b) then Fail(DivisionByZero)
    else if op.Mod? then Fail(OperandType)
    else match f.arith(op, a, b)
         case None => Fail(FloatOverflow)
         case Some(d) => Ok(D(d))
  }

  function Binary(f: FloatUnit, op: BinOp, a: Scalar, b: Scalar): (r: Result<Scalar>) {
    if op.IsLogical() then
      if !a.B? || !b.B? then Fail(OperandType)
      else Ok(B(if op.And? then a.b && b.b else a.b || b.b))
    else if op.IsComparison() then Compare(f, op, a, b)
    else if a.D? || b.D? then FloatArith(f, op, a, b)
    else IntegerArith(op, a, b)
  }

  function Negate(f: FloatUnit, v: Scalar): (r: Result<Scalar>) {
    match v
    case I(i) => if i == I64_MIN then Fail(Overflow) else Ok(I(-i))
    case U(u) => if u > I64_MAX + 1 then Fail(Overflow) else (var n: int := u; Ok(I(-n)))
    case D(d) => Ok(D(f.negate(d)))
    case B(_) => Fail(OperandType)
  }

  function Eval(f: FloatUnit, e: Expr, env: Env): (r: Result<Scalar>) {
    match e
    case Lit(l) => ParseLiteral(l)
    case Id(s) => if s in env then Ok(env[s]) else Fail(MissingSymbol(s))
    case Paren(inner) => Eval(f, inner, env)
    case Neg(operand) =>
      var v :- Eval(f, operand, env);
      Negate(f, v)
    case Bin(op, left, right) =>
      var a :- Eval(f, left, env);
      if op.IsLogical() && !a.B? then Fail(OperandType)
      else if op.And? && !a.b then Ok(B(false))
      else if op.Or? && a.b then Ok(B(true))
      else
        var b :- Eval(f, right, env);
        Binary(f, op, a, b)
  }

  /** `evalSize`: a size is an integer that is not negative. */
  function EvalSize(f: FloatUnit, e: Expr, env: Env): (r: Result<u64>) {
    var v :- Eval(f, e, env);
    match v
    case I(i) => if i < 0 then Fail(NegativeSize) else Ok(i)
    case U(u) => Ok(u)
    case _ => Fail(SizeNotInteger)
  }

  function EvalBool(f: FloatUnit, e: Expr, env: Env): (r: Result<bool>) {
    var v :- Eval(f, e, env);
    if v.B? then Ok(v.b) else Fail(ConditionNotBoolean)
  }

  /** `sameNumber`: equality of values across tags. */
  predicate SameNumber(f: FloatUnit, a: Scalar, b: Scalar) {
    if a.B? || b.B? then a == b
    else if a.D? || b.D? then f.same(a, b)
    else a.Int() == b.Int()
  }

  /** The symbols an evaluation may look up. */
  function Symbols(e: Expr): set<SymbolId> {
    match e
    case Lit(_) => {}
    case Id(s) => {s}
    case Paren(inner) => Symbols(inner)
    case Neg(operand) => Symbols(operand)
    case Bin(_, left, right) => Symbols(left) + Symbols(right)
  }

  lemma BinaryMissesNothing(f: FloatUnit, op: BinOp, a: Scalar, b: Scalar)
    ensures var r := Binary(f, op, a, b);
            r.Fail? ==> !r.error.MissingSymbol? && !r.error.AliasUnavailable? && !r.error.DependencyCycle?
  {
  }

  /** An evaluation misses only a symbol of the expression that the environment does not bind. */
  lemma {:induction false} EvalMisses(f: FloatUnit, e: Expr, env: Env)
    ensures var r := Eval(f, e, env);
            r.Fail? && r.error.MissingSymbol? ==> r.error.symbol in Symbols(e) && r.error.symbol !in env
    ensures Eval(f, e, env).Fail? ==> !Eval(f, e, env).error.AliasUnavailable? && !Eval(f, e, env).error.DependencyCycle?
  {
    match e
    case Lit(_) =>
    case Id(_) =>
    case Paren(inner) => EvalMisses(f, inner, env);
    case Neg(operand) => EvalMisses(f, operand, env);
    case Bin(op, left, right) =>
      EvalMisses(f, left, env);
      EvalMisses(f, right, env);
      if Eval(f, left, env).Ok? && Eval(f, right, env).Ok? {
        BinaryMissesNothing(f, op, Eval(f, left, env).value, Eval(f, right, env).value);
      }
  }

  /** A value found in a smaller environment is found in every larger one. */
  lemma {:induction false} EvalMonotone(f: FloatUnit, e: Expr, env: Env, env': Env)
    requires forall s :: s in env ==> s in env' && env[s] == env'[s]
    requires Eval(f, e, env).Ok?
    ensures Eval(f, e, env') == Eval(f, e, env)
  {
    match e
    case Lit(_) =>
    case Id(_) =>
    case Paren(inner) => EvalMonotone(f, inner, env, env');
    case Neg(operand) => EvalMonotone(f, operand, env, env');
    case Bin(op, left, right) =>
      EvalMonotone(f, left, env, env');
      if Eval(f, right, env).Ok? {
        EvalMonotone(f, right, env, env');
      }
  }

  /** Only the symbols of the expression matter. */
  lemma {:induction false} EvalAgrees(f: FloatUnit, e: Expr, env: Env, env': Env)
    requires forall s :: s in Symbols(e) ==> (s in env <==> s in env') && (s in env ==> env[s] == env'[s])
    ensures Eval(f, e, env) == Eval(f, e, env')
  {
    match e
    case Lit(_) =>
    case Id(_) =>
    case Paren(inner) => EvalAgrees(f, inner, env, env');
    case Neg(operand) => EvalAgrees(f, operand, env, env');
    case Bin(_, left, right) =>
      EvalAgrees(f, left, env, env');
      EvalAgrees(f, right, env, env');
  }
}
