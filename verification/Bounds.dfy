/** Static size bounds of types and member lists (`layoutBoundsImpl`, `sequenceBounds`,
    `memberBounds`, `fixedTypeSizeImpl`), with the checked 64-bit arithmetic of the source. */
module Bounds {
  import opened Outcome
  import opened Bytes
  import opened Expr
  import opened Plan
  import opened Decode

  datatype Range = Range(min: u64, max: Option<u64>)

  /** The cursor after a member list and the extent that it reaches, each with both bounds. */
  datatype Extent = Extent(cursorMin: u64, cursorMax: Option<u64>, extentMin: u64, extentMax: Option<u64>)

  function StartAt(p: u64): Extent {
    Extent(p, Some(p), p, Some(p))
  }

  function AddChecked(a: u64, b: u64): (r: Result<u64>)
    ensures r.Ok? <==> a + b <= U64_MAX
    ensures r.Ok? ==> r.value == a + b
  {
    if b > U64_MAX - a then Fail(Overflow) else Ok(a + b)
  }

  function MultiplyChecked(a: u64, n: u64): (r: Result<u64>)
    ensures r.Ok? <==> a * n <= U64_MAX
    ensures r.Ok? ==> r.value == a * n
  {
    UnsignedProductFits(n, a);
    assert a * n == n * a;
    if a != 0 && n > U64_MAX / a then Fail(Overflow) else Ok(a * n)
  }

  function MaxOf(a: u64, b: u64): u64 {
    if a >= b then a else b
  }

  function MinOf(a: u64, b: u64): u64 {
    if a <= b then a else b
  }

  function MaxOption(a: Option<u64>, b: Option<u64>): Option<u64> {
    if a.Some? && b.Some? then Some(MaxOf(a.value, b.value)) else None
  }

  function MultiplyRange(b: Range, n: u64): (r: Result<Range>) {
    var lo :- MultiplyChecked(b.min, n);
    if b.max.None? then Ok(Range(lo, None))
    else
      var hi :- MultiplyChecked(b.max.value, n);
      Ok(Range(lo, Some(hi)))
  }

  /** The extent of a dimension when it is known before any run. */
  function KnownExtent(f: FloatUnit, d: Dim): (r: Result<Option<u64>>) {
    if !d.Fixed? then Ok(None)
    else match EvalSize(f, d.e, map[])
         case Ok(n) => Ok(Some(n))
         case Fail(e) => if e.MissingSymbol? then Ok(None) else Fail(e)
  }

  function DimsRange(f: FloatUnit, b: Range, dims: seq<Dim>): (r: Result<Range>)
    decreases |dims|
  {
    if dims == [] then Ok(b)
    else
      var n :- KnownExtent(f, dims[0]);
      var next :- (if n.None? then Ok(Range(0, None)) else MultiplyRange(b, n.value));
      DimsRange(f, next, dims[1..])
  }

  /** `addCursor` */
  function Advance(s: Extent, b: Range): (r: Result<Extent>) {
    var cmin :- AddChecked(s.cursorMin, b.min);
    var cmax :- (if s.cursorMax.Some? && b.max.Some? then
                   var hi :- AddChecked(s.cursorMax.value, b.max.value);
                   Ok(Some(hi))
                 else Ok(None));
    Ok(Extent(cmin, cmax, MaxOf(s.extentMin, cmin), MaxOption(s.extentMax, cmax)))
  }

  function AlignChecked(p: u64, a: u64): (r: Result<u64>)
    requires a > 0
    ensures r.Ok? ==> r.value == AlignUp(p, a)
  {
    if p % a == 0 then Ok(p) else AddChecked(p, a - p % a)
  }

  function AlignExtent(s: Extent, known: Option<u64>): (r: Result<Extent>) {
    if known.None? || known.value == 0 then Fail(ZeroAlignment)
    else
      var cmin :- AlignChecked(s.cursorMin, known.value);
      var cmax :- (if s.cursorMax.Some? then
                     var hi :- AlignChecked(s.cursorMax.value, known.value);
                     Ok(Some(hi))
                   else Ok(None));
      Ok(Extent(cmin, cmax, MaxOf(s.extentMin, cmin), MaxOption(s.extentMax, cmax)))
  }

  /** The named types that an analysis has not entered yet. */
  ghost function Unvisited(m: Module, visiting: set<SymbolId>): set<SymbolId> {
    (m.structs.Keys + m.aliases.Keys) - visiting
  }

  function BaseRange(c: Context, base: Base, visiting: set<SymbolId>): (r: Result<Range>)
    decreases Unvisited(c.plan, visiting), 0, 0
  {
    match base
    case Primitive(it) => Ok(Range(it.width.Count(), Some(it.width.Count())))
    case Named(id) =>
      if id in c.plan.structs then
        if id in visiting then Fail(InvalidType)
        else
          var s :- SequenceRange(c, c.plan.structs[id].members, StartAt(0), visiting + {id});
          Ok(Range(s.extentMin, s.extentMax))
      else if id in c.plan.enums then
        Ok(Range(c.plan.enums[id].width.Count(), Some(c.plan.enums[id].width.Count())))
      else if id in c.plan.aliases then
        if id in visiting then Fail(InvalidType)
        else TypeRange(c, c.plan.aliases[id], visiting + {id})
      else Fail(InvalidType)
    case _ => Ok(Range(1, Some(1)))
  }

  /** `layoutBoundsImpl` */
  function TypeRange(c: Context, t: Type, visiting: set<SymbolId>): (r: Result<Range>)
    decreases Unvisited(c.plan, visiting), 0, 1
  {
    if t.IsTerminated() then
      if !(t.IsByteForm() || t.IsSequenceForm()) || t.maxPayload.None? then Fail(InvalidType)
      else if t.maxPayload.value > U64_MAX - |t.terminator| then Fail(Overflow)
      else Ok(Range(|t.terminator|, Some(t.maxPayload.value + |t.terminator|)))
    else
      var b :- BaseRange(c, t.base, visiting);
      DimsRange(c.fp, b, t.dims)
  }

  function BranchRange(c: Context, b: Branch, visiting: set<SymbolId>): (r: Result<Range>)
    decreases Unvisited(c.plan, visiting), 1, b, 0
  {
    match b
    case Typed(t) => TypeRange(c, t, visiting)
    case Listed(members) =>
      var s :- SequenceRange(c, members, StartAt(0), visiting);
      Ok(Range(s.extentMin, s.extentMax))
  }

  function Join(a: Range, b: Range): Range {
    Range(MinOf(a.min, b.min), MaxOption(a.max, b.max))
  }

  /** The join over the cases from `i` on and the default. */
  function CasesRange(c: Context, op: Op, i: nat, visiting: set<SymbolId>): (r: Result<Option<Range>>)
    requires op.Variant? && i <= |op.cases|
    decreases Unvisited(c.plan, visiting), 1, op, 0, |op.cases| - i
  {
    if i == |op.cases| then
      if op.default.None? then Ok(None)
      else
        var b :- BranchRange(c, op.default.value, visiting);
        Ok(Some(b))
    else
      var b :- BranchRange(c, op.cases[i].body, visiting);
      var rest :- CasesRange(c, op, i + 1, visiting);
      Ok(Some(if rest.None? then b else Join(b, rest.value)))
  }

  /** `memberBounds`, for the members that the sequence does not place itself. */
  function MemberRange(c: Context, op: Op, visiting: set<SymbolId>): (r: Result<Range>)
    decreases Unvisited(c.plan, visiting), 1, op, 1
  {
    match op
    case Field(_, _, ty, _, _, _) => TypeRange(c, ty, visiting)
    case Bits(group) => Ok(Range(StorageBytes(group), Some(StorageBytes(group))))
    case Block(_, known, _) => Ok(if known.Some? then Range(known.value, known) else Range(0, None))
    case Conditional(_, thenMembers, elseMembers) =>
      var a :- SequenceRange(c, thenMembers, StartAt(0), visiting);
      var b :- SequenceRange(c, elseMembers, StartAt(0), visiting);
      Ok(Join(Range(a.extentMin, a.extentMax), Range(b.extentMin, b.extentMax)))
    case Variant(_, _, cases, default) =>
      var b :- CasesRange(c, op, 0, visiting);
      Ok(if b.None? then Range(0, Some(0)) else b.value)
    case _ => Ok(Range(0, Some(0)))
  }

  /** One turn of the loop of `sequenceBounds`. */
  function Step(c: Context, op: Op, s: Extent, visiting: set<SymbolId>): (r: Result<Extent>)
    decreases Unvisited(c.plan, visiting), 1, op, 2
  {
    match op
    case At(_, known, members) =>
      if known.None? then Ok(s.(extentMax := None))
      else
        var inner :- SequenceRange(c, members, StartAt(known.value), visiting);
        Ok(s.(extentMin := MaxOf(s.extentMin, inner.extentMin), extentMax := MaxOption(s.extentMax, inner.extentMax)))
    case Align(_, known) => AlignExtent(s, known)
    case _ =>
      var b :- MemberRange(c, op, visiting);
      Advance(s, b)
  }

  function SequenceRange(c: Context, ops: seq<Op>, s: Extent, visiting: set<SymbolId>): (r: Result<Extent>)
    decreases Unvisited(c.plan, visiting), 1, ops, 0
  {
    if ops == [] then Ok(s)
    else
      var next :- Step(c, ops[0], s, visiting);
      SequenceRange(c, ops[1..], next, visiting)
  }

  /** `sequenceBounds`: the loop over the members. */
  method ComputeSequence(c: Context, ops: seq<Op>, initial: u64, visiting: set<SymbolId>) returns (res: Result<Extent>)
    ensures res == SequenceRange(c, ops, StartAt(initial), visiting)
  {
    var s := StartAt(initial);
    assert ops[0..] == ops;
    var i := 0;
    while i < |ops|
      invariant i <= |ops|
      invariant SequenceRange(c, ops, StartAt(initial), visiting) == SequenceRange(c, ops[i..], s, visiting)
    {
      assert ops[i..][0] == ops[i] && ops[i..][1..] == ops[i + 1..];
      s :- Step(c, ops[i], s, visiting);
      i := i + 1;
    }
    assert ops[i..] == [];
    res := Ok(s);
  }

  // ----- fixedTypeSizeImpl -----

  function FixedExtents(f: FloatUnit, base: u64, dims: seq<Dim>): (r: Option<u64>)
    decreases |dims|
  {
    if dims == [] then Some(base)
    else if !dims[0].Fixed? then None
    else match EvalSize(f, dims[0].e, map[])
         case Fail(_) => None
         case Ok(n) =>
           match MultiplyChecked(base, n)
           case Fail(_) => None
           case Ok(p) => FixedExtents(f, p, dims[1..])
  }

  function FixedBase(c: Context, base: Base, visiting: set<SymbolId>): (r: Option<u64>)
    decreases Unvisited(c.plan, visiting), 0, 0
  {
    match base
    case Primitive(it) => Some(it.width.Count())
    case Named(id) =>
      if id in c.plan.structs then
        if id in visiting then None else FixedMembers(c, c.plan.structs[id].members, 0, visiting + {id})
      else if id in c.plan.enums then Some(c.plan.enums[id].width.Count())
      else if id in c.plan.aliases && id !in visiting then FixedSize(c, c.plan.aliases[id], visiting + {id})
      else None
    case _ => Some(1)
  }

  function FixedSize(c: Context, t: Type, visiting: set<SymbolId>): (r: Option<u64>)
    decreases Unvisited(c.plan, visiting), 0, 1
  {
    if t.IsTerminated() then None
    else match FixedBase(c, t.base, visiting)
         case None => None
         case Some(b) => FixedExtents(c.fp, b, t.dims)
  }

  /** Fields, bits, aliases and alignments have a fixed place; anything else has not. */
  function FixedMembers(c: Context, ops: seq<Op>, total: u64, visiting: set<SymbolId>): (r: Option<u64>)
    decreases Unvisited(c.plan, visiting), 1, ops
  {
    if ops == [] then Some(total)
    else
      var next: Option<u64> :=
        match ops[0]
        case Alias(_, _, _, _) => Some(total)
        case Field(_, _, ty, _, _, _) =>
          (match FixedSize(c, ty, visiting)
           case None => None
           case Some(n) => if total + n <= U64_MAX then Some(total + n) else None)
        case Bits(group) => if total + StorageBytes(group) <= U64_MAX then Some(total + StorageBytes(group)) else None
        case Align(_, known) =>
          if known.None? || known.value == 0 then None
          else if AlignUp(total, known.value) <= U64_MAX then Some(AlignUp(total, known.value)) else None
        case _ => None;
      if next.None? then None else FixedMembers(c, ops[1..], next.value, visiting)
  }

  lemma {:induction false} FixedExtentsAreExact(f: FloatUnit, base: u64, dims: seq<Dim>)
    requires FixedExtents(f, base, dims).Some?
    ensures DimsRange(f, Range(base, Some(base)), dims)
              == Ok(Range(FixedExtents(f, base, dims).value, FixedExtents(f, base, dims)))
    decreases |dims|
  {
    if dims != [] {
      var n := EvalSize(f, dims[0].e, map[]).value;
      FixedExtentsAreExact(f, MultiplyChecked(base, n).value, dims[1..]);
    }
  }

  lemma {:induction false} FixedBaseIsExact(c: Context, base: Base, visiting: set<SymbolId>)
    requires FixedBase(c, base, visiting).Some?
    ensures BaseRange(c, base, visiting) == Ok(Range(FixedBase(c, base, visiting).value, FixedBase(c, base, visiting)))
    decreases Unvisited(c.plan, visiting), 0, 0
  {
    match base
    case Named(id) =>
      if id in c.plan.structs {
        FixedMembersAreExact(c, c.plan.structs[id].members, 0, visiting + {id});
      } else if id in c.plan.enums {
      } else {
        FixedSizeIsExact(c, c.plan.aliases[id], visiting + {id});
      }
    case _ =>
  }

  lemma {:induction false} FixedMembersAreExact(c: Context, ops: seq<Op>, total: u64, visiting: set<SymbolId>)
    requires FixedMembers(c, ops, total, visiting).Some?
    ensures SequenceRange(c, ops, StartAt(total), visiting) == Ok(StartAt(FixedMembers(c, ops, total, visiting).value))
    ensures total <= FixedMembers(c, ops, total, visiting).value
    decreases Unvisited(c.plan, visiting), 1, ops
  {
    if ops != [] {
      var next: u64;
      match ops[0] {
        case Alias(_, _, _, _) => next := total;
        case Field(_, _, ty, _, _, _) =>
          FixedSizeIsExact(c, ty, visiting);
          next := total + FixedSize(c, ty, visiting).value;
        case Bits(group) => next := total + StorageBytes(group);
        case Align(_, known) => next := AlignUp(total, known.value);
      }
      assert Step(c, ops[0], StartAt(total), visiting) == Ok(StartAt(next));
      FixedMembersAreExact(c, ops[1..], next, visiting);
    }
  }

  /** Whenever `fixedTypeSize` answers a size, the bounds are exactly that size. */
  lemma {:induction false} FixedSizeIsExact(c: Context, t: Type, visiting: set<SymbolId>)
    requires FixedSize(c, t, visiting).Some?
    ensures TypeRange(c, t, visiting) == Ok(Range(FixedSize(c, t, visiting).value, FixedSize(c, t, visiting)))
    decreases Unvisited(c.plan, visiting), 0, 1
  {
    FixedBaseIsExact(c, t.base, visiting);
    FixedExtentsAreExact(c.fp, FixedBase(c, t.base, visiting).value, t.dims);
  }
}
