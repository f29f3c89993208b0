/** The expression printer of the source generator, and what its output means to a reader.

    The printer gives `&&` a higher precedence than `||`. The grammar of the language gives both
    the same one. Against its own precedence table the printer is unambiguous; against the grammar
    it is right exactly for the expressions in which no bare `&&` is the right operand of `||`. */
module Printer {
  import opened Outcome
  import opened Bytes
  import opened Expr

  datatype Token = LiteralToken(literal: Literal) | NameToken(symbol: SymbolId) | Open | Close | Sign(op: BinOp)

  type Tokens = seq<Token>

  // ----- the printer -----

  function OpPrecedence(op: BinOp): int {
    match op
    case Mul => 70
    case Div => 70
    case Mod => 70
    case Add => 60
    case Sub => 60
    case And => 40
    case Or => 30
    case _ => 50
  }

  function Precedence(e: Expr): int {
    match e
    case Neg(_) => 90
    case Bin(op, _, _) => OpPrecedence(op)
    case _ => 100
  }

  function Wrap(t: Tokens): Tokens {
    [Open] + t + [Close]
  }

  /** `expr`. A minus sign is one token, whether it negates or subtracts. */
  function Print(e: Expr, parent: int, rightChild: bool): Tokens {
    match e
    case Lit(l) => [LiteralToken(l)]
    case Id(s) => [NameToken(s)]
    case Paren(inner) => Wrap(Print(inner, -1, false))
    case Neg(operand) =>
      var s := [Sign(Sub)] + Print(operand, 90, false);
      if 90 < parent then Wrap(s) else s
    case Bin(op, left, right) =>
      var p := OpPrecedence(op);
      var l := Print(left, p, false);
      var r := Print(right, p, true);
      var r' := if right.Bin? && Precedence(right) == p then Wrap(r) else r;
      var s := l + [Sign(op)] + r';
      if p < parent || (rightChild && p == parent) then Wrap(s) else s
  }

  function PrintTop(e: Expr): Tokens {
    Print(e, -1, false)
  }

  /** The expression without its parentheses. */
  function Strip(e: Expr): Expr {
    match e
    case Paren(inner) => Strip(inner)
    case Neg(operand) => Neg(Strip(operand))
    case Bin(op, left, right) => Bin(op, Strip(left), Strip(right))
    case _ => e
  }

  lemma {:induction false} StripKeepsValue(f: FloatUnit, e: Expr, env: Env)
    ensures Eval(f, Strip(e), env) == Eval(f, e, env)
  {
    match e
    case Paren(inner) => StripKeepsValue(f, inner, env);
    case Neg(operand) => StripKeepsValue(f, operand, env);
    case Bin(_, left, right) =>
      StripKeepsValue(f, left, env);
      StripKeepsValue(f, right, env);
    case _ =>
  }

  // ----- readers -----

  datatype Parsed = Parsed(e: Expr, rest: Tokens)

  /** The alternative of the grammar rule for expressions that an operator stands in: earlier ones bind
      more tightly, and the operators of one alternative bind alike. */
  function Alternative(op: BinOp): nat {
    match op
    case Mul | Div | Mod => 0
    case Add | Sub => 1
    case Eq | Ne | Lt | Le | Gt | Ge => 2
    case And | Or => 3
  }

  /** How tightly an operator binds: by the alternatives of the grammar, or by the printer's own table. */
  function Level(grammar: bool, op: BinOp): int {
    if grammar then 70 - 10 * Alternative(op) else OpPrecedence(op)
  }

  /** The printer ranks the operators as the grammar does, except that it puts `&&` above `||`, which
      stand in one alternative. */
  lemma RanksAgree(a: BinOp, b: BinOp)
    ensures !(a.IsLogical() && b.IsLogical()) ==> (OpPrecedence(a) > OpPrecedence(b) <==> Alternative(a) < Alternative(b))
    ensures a.And? && b.Or? ==> OpPrecedence(a) > OpPrecedence(b) && Alternative(a) == Alternative(b)
  {
  }

  /** `child` binds less tightly than `parent`. */
  predicate Looser(child: BinOp, parent: BinOp) {
    Alternative(child) > Alternative(parent) || (child.Or? && parent.And?)
  }

  /** `child` and `parent` bind alike. */
  predicate Alike(child: BinOp, parent: BinOp) {
    Alternative(child) == Alternative(parent) && (child.IsLogical() ==> child == parent)
  }

  /** Brackets stand around a binary operand exactly when it binds less tightly than its operator, around
      a right operand that binds alike twice, and around a binary operand of a negation. */
  lemma BracketsStand(op: BinOp, left: Expr, right: Expr)
    ensures var l := if left.Bin? && Looser(left.op, op) then Wrap(PrintTop(left)) else PrintTop(left);
            var r := if right.Bin? && Alike(right.op, op) then Wrap(Wrap(PrintTop(right)))
                     else if right.Bin? && Looser(right.op, op) then Wrap(PrintTop(right)) else PrintTop(right);
            PrintTop(Bin(op, left, right)) == l + [Sign(op)] + r
    ensures PrintTop(Neg(left)) == [Sign(Sub)] + if left.Bin? then Wrap(PrintTop(left)) else PrintTop(left)
  {
    PrintIsBareOrWrapped(left, OpPrecedence(op), false);
    PrintIsBareOrWrapped(right, OpPrecedence(op), true);
    PrintIsBareOrWrapped(left, 90, false);
  }

  /** A literal, a name, a parenthesis or a negation. Parentheses leave no node. */
  function ParseAtom(g: bool, ts: Tokens): (r: Option<Parsed>)
    ensures r.Some? ==> |r.value.rest| < |ts|
    decreases |ts|, 0
  {
    if ts == [] then None
    else match ts[0]
         case LiteralToken(l) => Some(Parsed(Lit(l), ts[1..]))
         case NameToken(s) => Some(Parsed(Id(s), ts[1..]))
         case Open =>
           (match ParseExpr(g, 0, ts[1..])
            case None => None
            case Some(p) => if p.rest != [] && p.rest[0] == Close then Some(Parsed(p.e, p.rest[1..])) else None)
         case Sign(op) =>
           if !op.Sub? then None
           else (match ParseAtom(g, ts[1..])
                 case None => None
                 case Some(p) => Some(Parsed(Neg(p.e), p.rest)))
         case Close => None
  }

  /** An expression of operators that bind at least as tightly as `level`. */
  function ParseExpr(g: bool, level: int, ts: Tokens): (r: Option<Parsed>)
    ensures r.Some? ==> |r.value.rest| < |ts|
    decreases |ts|, 1
  {
    match ParseAtom(g, ts)
    case None => None
    case Some(p) => Continue(g, level, p.e, p.rest)
  }

  /** Operators of one level associate to the left. */
  function Continue(g: bool, level: int, left: Expr, ts: Tokens): (r: Option<Parsed>)
    ensures r.Some? ==> |r.value.rest| <= |ts|
    decreases |ts|, 2
  {
    if ts != [] && ts[0].Sign? && Level(g, ts[0].op) >= level then
      match ParseExpr(g, Level(g, ts[0].op) + 1, ts[1..])
      case None => None
      case Some(right) => Continue(g, level, Bin(ts[0].op, left, right.e), right.rest)
    else Some(Parsed(left, ts))
  }

  function Parse(g: bool, ts: Tokens): Option<Expr> {
    match ParseExpr(g, 0, ts)
    case None => None
    case Some(p) => if p.rest == [] then Some(p.e) else None
  }

  // ----- what the readers make of the output -----

  /** `left || right` as the grammar reads it when `right` is a bare chain of `&&`: the chain
      takes the disjunction as its first operand. */
  function Graft(left: Expr, right: Expr): Expr
    decreases right, 2
  {
    if right.Bin? && right.op.And? then Bin(And, Graft(left, right.left), Regroup(right.right))
    else Bin(Or, left, Regroup(right))
  }

  /** The expression that the grammar reads from the printed one. */
  function Regroup(e: Expr): Expr
    decreases e, 1
  {
    match e
    case Paren(inner) => Regroup(inner)
    case Neg(operand) => Neg(Regroup(operand))
    case Bin(op, left, right) => if op.Or? then Graft(Regroup(left), right) else Bin(op, Regroup(left), Regroup(right))
    case _ => e
  }

  function Shape(g: bool, e: Expr): Expr {
    if g then Regroup(e) else Strip(e)
  }

  /** How tightly the outermost node of the printed form binds. */
  function LevelOf(g: bool, e: Expr): int {
    if e.Bin? then Level(g, e.op) else Precedence(e)
  }

  /** The level of the operator that comes next. */
  function NextLevel(g: bool, ts: Tokens): int {
    if ts != [] && ts[0].Sign? then Level(g, ts[0].op) else -1
  }

  predicate IsWrapped(e: Expr, parent: int, rightChild: bool) {
    (e.Neg? && 90 < parent) || (e.Bin? && (Precedence(e) < parent || (rightChild && Precedence(e) == parent)))
  }

  lemma PrintIsBareOrWrapped(e: Expr, parent: int, rightChild: bool)
    ensures Print(e, parent, rightChild) == if IsWrapped(e, parent, rightChild) then Wrap(PrintTop(e)) else PrintTop(e)
  {
  }

  lemma {:induction false} WrappedParses(g: bool, e: Expr, rest: Tokens)
    ensures ParseAtom(g, Wrap(PrintTop(e)) + rest) == Some(Parsed(Shape(g, e), rest))
    decreases e, 2
  {
    var ts := Wrap(PrintTop(e)) + rest;
    assert ts[1..] == PrintTop(e) + ([Close] + rest);
    BareParses(g, e, 0, [Close] + rest);
    assert ([Close] + rest)[1..] == rest;
  }

  /** Two pairs of parentheses read like one. */
  lemma {:induction false} DoublyWrappedParses(g: bool, e: Expr, rest: Tokens)
    ensures ParseAtom(g, Wrap(Wrap(PrintTop(e))) + rest) == Some(Parsed(Shape(g, e), rest))
    decreases e, 3
  {
    var ts := Wrap(Wrap(PrintTop(e))) + rest;
    assert ts[1..] == Wrap(PrintTop(e)) + ([Close] + rest);
    WrappedParses(g, e, [Close] + rest);
    assert ParseExpr(g, 0, ts[1..]) == Continue(g, 0, Shape(g, e), [Close] + rest) == Some(Parsed(Shape(g, e), [Close] + rest));
    assert ([Close] + rest)[1..] == rest;
  }

  /** An operand as printed under an operator of precedence `p`. */
  function Operand(e: Expr, p: int, rightChild: bool): Tokens {
    var t := Print(e, p, rightChild);
    if rightChild && e.Bin? && Precedence(e) == p then Wrap(t) else t
  }

  lemma {:induction false} OperandParses(g: bool, e: Expr, p: int, rightChild: bool, level: int, rest: Tokens)
    requires !IsWrapped(e, p, rightChild) ==> level <= LevelOf(g, e) && NextLevel(g, rest) <= LevelOf(g, e)
    ensures ParseExpr(g, level, Operand(e, p, rightChild) + rest) == Continue(g, level, Shape(g, e), rest)
    decreases e, 4
  {
    PrintIsBareOrWrapped(e, p, rightChild);
    if !IsWrapped(e, p, rightChild) {
      BareParses(g, e, level, rest);
    } else if rightChild && e.Bin? && Precedence(e) == p {
      DoublyWrappedParses(g, e, rest);
    } else {
      WrappedParses(g, e, rest);
    }
  }

  lemma {:induction false} NegationParses(g: bool, operand: Expr, rest: Tokens)
    ensures ParseAtom(g, PrintTop(Neg(operand)) + rest) == Some(Parsed(Neg(Shape(g, operand)), rest))
    decreases operand, 4
  {
    var ts := PrintTop(Neg(operand)) + rest;
    var inside := Print(operand, 90, false) + rest;
    assert ts[0] == Sign(Sub) && ts[1..] == inside;
    PrintIsBareOrWrapped(operand, 90, false);
    assert ParseAtom(g, ts) == match ParseAtom(g, inside)
                               case None => None
                               case Some(p) => Some(Parsed(Neg(p.e), p.rest));
    match operand
    case Bin(_, _, _) => WrappedParses(g, operand, rest);
    case Neg(inner) => NegationParses(g, inner, rest);
    case Paren(inner) => WrappedParses(g, inner, rest);
    case _ =>
  }

  /** One binary operator after its left operand, when the right operand reads as a whole. */
  lemma {:induction false} OperatorParses(g: bool, level: int, left: Expr, op: BinOp, right: Expr, rest: Tokens)
    requires level <= Level(g, op) && NextLevel(g, rest) <= Level(g, op)
    requires !(g && op.Or? && right.Bin? && right.op.And?)
    ensures Continue(g, level, left, [Sign(op)] + (Operand(right, OpPrecedence(op), true) + rest))
              == Continue(g, level, Bin(op, left, Shape(g, right)), rest)
    decreases right, 5
  {
    var ts := [Sign(op)] + (Operand(right, OpPrecedence(op), true) + rest);
    assert ts[1..] == Operand(right, OpPrecedence(op), true) + rest;
    OperandParses(g, right, OpPrecedence(op), true, Level(g, op) + 1, rest);
  }

  /** A right operand of `||` that is read only up to the next operator. */
  lemma {:induction false} ChainStarts(level: int, left: Expr, first: Expr, after: Tokens)
    requires level <= OpPrecedence(And) && NextLevel(true, after) <= OpPrecedence(And)
    requires !(first.Bin? && first.op.And?)
    ensures Continue(true, level, left, [Sign(Or)] + (Operand(first, OpPrecedence(And), false) + after)) == Continue(true, level, Graft(left, first), after)
    decreases first, 5
  {
    var ts := [Sign(Or)] + (Operand(first, OpPrecedence(And), false) + after);
    assert ts[1..] == Operand(first, OpPrecedence(And), false) + after;
    OperandParses(true, first, OpPrecedence(And), false, OpPrecedence(And) + 1, after);
  }

  /** The chain of `&&` that a bare right operand of `||` becomes. */
  lemma {:induction false} ChainParses(level: int, left: Expr, chain: Expr, rest: Tokens)
    requires chain.Bin? && chain.op.And?
    requires level <= OpPrecedence(And) && NextLevel(true, rest) <= OpPrecedence(And)
    ensures Continue(true, level, left, [Sign(Or)] + (PrintTop(chain) + rest)) == Continue(true, level, Graft(left, chain), rest)
    decreases chain, 6
  {
    hide Continue, Regroup;
    var first, last := chain.left, chain.right;
    var after := [Sign(And)] + (Operand(last, OpPrecedence(And), true) + rest);
    assert PrintTop(chain) + rest == Operand(first, OpPrecedence(And), false) + after;
    if first.Bin? && first.op.And? {
      PrintIsBareOrWrapped(first, OpPrecedence(And), false);
      ChainParses(level, left, first, after);
    } else {
      ChainStarts(level, left, first, after);
    }
    OperatorParses(true, level, Graft(left, first), And, last, rest);
  }

  lemma {:induction false} BinaryParses(g: bool, e: Expr, level: int, rest: Tokens)
    requires e.Bin? && level <= Level(g, e.op) && NextLevel(g, rest) <= Level(g, e.op)
    ensures ParseExpr(g, level, PrintTop(e) + rest) == Continue(g, level, Shape(g, e), rest)
    decreases e, 0
  {
    var op, left, right := e.op, e.left, e.right;
    var after := [Sign(op)] + (Operand(right, OpPrecedence(op), true) + rest);
    assert PrintTop(e) + rest == Operand(left, OpPrecedence(op), false) + after;
    OperandParses(g, left, OpPrecedence(op), false, level, after);
    if g && op.Or? && right.Bin? && right.op.And? {
      PrintIsBareOrWrapped(right, OpPrecedence(Or), true);
      ChainParses(level, Shape(g, left), right, rest);
    } else {
      if g && op.Or? {
        assert Graft(Regroup(left), right) == Bin(Or, Regroup(left), Regroup(right));
        assert Regroup(e) == Graft(Regroup(left), right);
      }
      assert Shape(g, e) == Bin(op, Shape(g, left), Shape(g, right));
      OperatorParses(g, level, Shape(g, left), op, right, rest);
    }
  }

  /** The printed expression, before anything that binds less tightly. */
  lemma {:induction false} BareParses(g: bool, e: Expr, level: int, rest: Tokens)
    requires level <= LevelOf(g, e) && NextLevel(g, rest) <= LevelOf(g, e)
    ensures ParseExpr(g, level, PrintTop(e) + rest) == Continue(g, level, Shape(g, e), rest)
    decreases e, 1
  {
    match e
    case Lit(l) => assert ([LiteralToken(l)] + rest)[1..] == rest;
    case Id(s) => assert ([NameToken(s)] + rest)[1..] == rest;
    case Paren(inner) =>
      assert PrintTop(e) == Wrap(PrintTop(inner));
      WrappedParses(g, inner, rest);
    case Neg(operand) => NegationParses(g, operand, rest);
    case Bin(_, _, _) => BinaryParses(g, e, level, rest);
  }

  /** Either reader takes the whole output, and this is what it makes of it. */
  lemma PrintedIsParsed(g: bool, e: Expr)
    ensures Parse(g, PrintTop(e)) == Some(Shape(g, e))
  {
    assert PrintTop(e) + [] == PrintTop(e);
    BareParses(g, e, 0, []);
  }

  /** The printer is unambiguous: two expressions that print to the same tokens are equal up to
      parentheses, and so have the same value. */
  lemma PrintIsUnambiguous(f: FloatUnit, one: Expr, other: Expr, env: Env)
    requires PrintTop(one) == PrintTop(other)
    ensures Strip(one) == Strip(other) && Eval(f, one, env) == Eval(f, other, env)
  {
    PrintedIsParsed(false, one);
    PrintedIsParsed(false, other);
    StripKeepsValue(f, one, env);
    StripKeepsValue(f, other, env);
  }

  // ----- the printer and the grammar -----

  /** No bare `&&` is the right operand of `||`. */
  predicate ReadsBack(e: Expr) {
    match e
    case Paren(inner) => ReadsBack(inner)
    case Neg(operand) => ReadsBack(operand)
    case Bin(op, left, right) => !(op.Or? && right.Bin? && right.op.And?) && ReadsBack(left) && ReadsBack(right)
    case _ => true
  }

  lemma {:induction false} RegroupIsStrip(e: Expr)
    ensures Regroup(e) == Strip(e) <==> ReadsBack(e)
  {
    match e
    case Paren(inner) => RegroupIsStrip(inner);
    case Neg(operand) => RegroupIsStrip(operand);
    case Bin(_, left, right) =>
      RegroupIsStrip(left);
      RegroupIsStrip(right);
    case _ =>
  }

  /** The grammar reads a printed expression back, up to parentheses, exactly when no bare `&&` is
      the right operand of `||`. */
  lemma GrammarReadsBack(e: Expr)
    ensures Parse(true, PrintTop(e)) == Some(Strip(e)) <==> ReadsBack(e)
  {
    PrintedIsParsed(true, e);
    RegroupIsStrip(e);
  }

  /** Where it does not, the value can change: `true || true && false` is true in the tree that
      was printed and false in the one that is read. */
  lemma ReadingChangesValue(f: FloatUnit, env: Env)
    ensures var e := Bin(Or, Lit(BoolLiteral(true)), Bin(And, Lit(BoolLiteral(true)), Lit(BoolLiteral(false))));
            && Eval(f, e, env) == Ok(B(true))
            && Parse(true, PrintTop(e)).Some?
            && Eval(f, Parse(true, PrintTop(e)).value, env) == Ok(B(false))
  {
    hide Parse, PrintTop;
    var t, u := Lit(BoolLiteral(true)), Lit(BoolLiteral(false));
    var e := Bin(Or, t, Bin(And, t, u));
    var read := Bin(And, Bin(Or, t, t), u);
    assert Parse(true, PrintTop(e)) == Some(read) by {
      PrintedIsParsed(true, e);
      assert Graft(t, t) == Bin(Or, t, t);
      assert Graft(t, Bin(And, t, u)) == Bin(And, Graft(t, t), u);
      assert Regroup(e) == Graft(Regroup(t), Bin(And, t, u));
    }
    assert Eval(f, Bin(Or, t, t), env) == Ok(B(true));
    assert Eval(f, read, env) == Ok(B(false));
  }
}
