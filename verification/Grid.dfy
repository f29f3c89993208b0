/** Where `align` may stand so that the bounds analysis and the runs agree.

    The analysis bounds a nested struct or branch as if it started at position 0, while `align`
    acts on the absolute position. The two agree where the nested list starts at a multiple of the
    alignment. A grid names, for each struct, a number of which every start of it is a multiple,
    as the alignment of a C struct does; the predicates below follow a member list and keep a
    number that divides the position. */
module Grid {
  import opened Outcome
  import opened Bytes
  import opened Expr
  import opened Plan
  import opened Decode
  import opened Bounds

  // ----- multiples -----

  predicate Multiple(n: nat, g: nat) {
    if g == 0 then n == 0 else n % g == 0
  }

  function Gcd(a: nat, b: nat): nat
    decreases b
  {
    if b == 0 then a else Gcd(b, a % b)
  }

  lemma Factor(n: nat, g: nat) returns (k: nat)
    requires Multiple(n, g)
    ensures n == g * k
  {
    k := if g == 0 then 0 else n / g;
  }

  lemma FactorMultiple(n: nat, g: nat, k: nat)
    requires n == g * k
    ensures Multiple(n, g)
  {
    if g > 0 {
      MultipleMod(k, g);
    }
  }

  lemma MultipleTrans(n: nat, m: nat, g: nat)
    requires Multiple(n, m) && Multiple(m, g)
    ensures Multiple(n, g)
  {
    var k := Factor(n, m);
    var j := Factor(m, g);
    MulAssociative(g, j, k);
    FactorMultiple(n, g, j * k);
  }

  lemma MultipleAdd(n: nat, m: nat, g: nat)
    requires Multiple(n, g) && Multiple(m, g)
    ensures Multiple(n + m, g)
  {
    var k := Factor(n, g);
    var j := Factor(m, g);
    assert g * (k + j) == g * k + g * j;
    FactorMultiple(n + m, g, k + j);
  }

  lemma MultipleTimes(n: nat, g: nat, k: nat)
    requires Multiple(n, g)
    ensures Multiple(n * k, g)
  {
    var j := Factor(n, g);
    MulAssociative(g, j, k);
    FactorMultiple(n * k, g, j * k);
  }

  lemma {:induction false} GcdDivides(a: nat, b: nat)
    ensures Multiple(a, Gcd(a, b)) && Multiple(b, Gcd(a, b))
    decreases b
  {
    if b > 0 {
      GcdDivides(b, a % b);
      MultipleTimes(b, Gcd(a, b), a / b);
      MultipleAdd(b * (a / b), a % b, Gcd(a, b));
    }
  }

  /** What divides a position and a length divides the position after it. */
  lemma Lands(p: nat, at: nat, n: nat, k: nat)
    requires Multiple(p, at) && Multiple(n, k)
    ensures Multiple(p + n, Gcd(at, k))
  {
    GcdDivides(at, k);
    MultipleTrans(p, at, Gcd(at, k));
    MultipleTrans(n, k, Gcd(at, k));
    MultipleAdd(p, n, Gcd(at, k));
  }

  /** Aligning a position `n` bytes after a start and aligning `n` itself agree exactly when the
      start is a multiple of the alignment, whatever `n` is. */
  lemma AlignShift(start: nat, n: nat, a: nat)
    requires a > 0
    ensures AlignUp(start + n, a) == start + AlignUp(n, a) <==> start % a == 0
  {
    var i, j := AlignUp(start + n, a) / a, AlignUp(n, a) / a;
    if start % a == 0 {
      var q := start / a;
      assert a * (q + n / a) == a * q + a * (n / a);
      DivUnique(start + n, a, q + n / a, n % a);
    } else if AlignUp(start + n, a) == start + AlignUp(n, a) {
      assert a * (i - j) == a * i - a * j;
      DivUnique(start, a, i - j, 0);
    }
  }

  // ----- placement -----

  type Grid = map<SymbolId, nat>

  /** The grid of structs that may start anywhere. */
  function Ones(ids: set<SymbolId>): Grid {
    map id | id in ids :: 1
  }

  /** The size that both bounds agree on, or a divisor of every size. */
  function KnownSize(r: Result<Range>): nat {
    if r.Ok? && r.value.max == Some(r.value.min) then r.value.min else 1
  }

  function ElementSize(c: Context, base: Base): nat {
    KnownSize(BaseRange(c, base, {}))
  }

  predicate BaseNamed(m: Module, base: Base, grid: Grid) {
    base.Named? && base.id in m.structs ==> base.id in grid
  }

  predicate BaseOnGrid(m: Module, base: Base, grid: Grid, at: nat) {
    base.Named? && base.id in m.structs ==> base.id in grid && Multiple(at, grid[base.id])
  }

  /** A type at a multiple of `at`: its structs, and those of each array element, start where the
      grid wants them. */
  predicate TypeOnGrid(c: Context, t: Type, grid: Grid, at: nat) {
    if t.IsTerminated() then BaseNamed(c.plan, t.base, grid)
    else if t.base.IsText() then |t.dims| == 1
    else BaseOnGrid(c.plan, t.base, grid, if t.dims == [] then at else Gcd(at, ElementSize(c, t.base)))
  }

  /** A divisor of the position after a member, from one of the position before it. */
  function After(c: Context, op: Op, at: nat): nat {
    match op
    case Align(_, known) => if known.None? || known.value == 0 then 1 else if at % known.value == 0 then at else known.value
    case At(_, _, _) => at
    case _ => Gcd(at, KnownSize(MemberRange(c, op, {})))
  }

  predicate BranchOnGrid(c: Context, b: Branch, grid: Grid, at: nat)
    decreases b
  {
    match b
    case Typed(t) => TypeOnGrid(c, t, grid, at)
    case Listed(members) => OpsOnGrid(c, members, grid, at, at)
  }

  /** A member at a multiple of `at`, of a list that starts at a multiple of `start`. */
  predicate OpOnGrid(c: Context, op: Op, grid: Grid, start: nat, at: nat)
    decreases op
  {
    match op
    case Field(_, _, ty, _, _, _) => TypeOnGrid(c, ty, grid, at)
    case Align(_, known) => known.Some? ==> Multiple(start, known.value)
    case At(_, _, _) => false
    case Conditional(_, thenMembers, elseMembers) => OpsOnGrid(c, thenMembers, grid, at, at) && OpsOnGrid(c, elseMembers, grid, at, at)
    case Variant(_, _, cases, default) =>
      && (forall i :: 0 <= i < |cases| ==> BranchOnGrid(c, cases[i].body, grid, at))
      && (default.Some? ==> BranchOnGrid(c, default.value, grid, at))
    case _ => true
  }

  predicate OpsOnGrid(c: Context, ops: seq<Op>, grid: Grid, start: nat, at: nat)
    decreases ops
  {
    ops == [] || (OpOnGrid(c, ops[0], grid, start, at) && OpsOnGrid(c, ops[1..], grid, start, After(c, ops[0], at)))
  }

  /** The structs of the grid place nothing at an offset, and their alignments agree with it. */
  predicate PlanOnGrid(c: Context, grid: Grid) {
    forall id :: id in grid && id in c.plan.structs ==> OpsOnGrid(c, c.plan.structs[id].members, grid, grid[id], grid[id])
  }

  /** An outermost member list: it starts at 0, so every `align` of it agrees, and an `at` may stand
      in it. */
  predicate Placed(c: Context, ops: seq<Op>, grid: Grid, at: nat)
    decreases ops
  {
    || ops == []
    || (&& (match ops[0]
            case At(_, known, members) => known.Some? ==> Placed(c, members, grid, known.value)
            case op => OpOnGrid(c, op, grid, 0, at))
        && Placed(c, ops[1..], grid, After(c, ops[0], at)))
  }
}
