/** Plans and values that show why the theorems have the hypotheses they have, and that they can
    be met. */
module Examples {
  import opened Outcome
  import opened Bytes
  import opened Expr
  import opened Plan
  import opened Terminator
  import opened Decode
  import opened Encode
  import opened Bounds
  import opened BoundsSound
  import opened Grid
  import Canonical
  import Steady
  import Dependencies
  import DependenciesSound
  import EncodeTyped
  import Typing
  import TypingSound

  const BYTE: IntType := IntType(false, W1)

  function Constant(n: nat): Expr {
    Lit(IntLiteral(n, false))
  }

  function ByteField(s: SymbolId, name: Name): Op {
    Field(s, name, Type(Primitive(BYTE), [], [], None), Little, None, NoAssertion)
  }

  function NumberOf(b: byte): Value {
    Num(U(b))
  }

  /** What a byte field writes at the end of the output. */
  lemma WritesByte(y: Sink, room: Room, s: SymbolId, name: Name, o: Fields, env: Env, pen: Pen, depth: nat, b: byte)
    requires name in o && o[name] == NumberOf(b) && pen.p == |pen.d| < room.limit
    ensures WriteMember(y, room, ByteField(s, name), o, env, pen, depth)
              == Ok(Batch(Ink(pen.d + [b], pen.p + 1, Little), env[s := U(b)], map[name := NumberOf(b)]))
  {
    assert Pow2(8) == 256;
    var at := pen.(order := Little);
    assert LittleBytes(b, 1) == [b] by {
      DivUnique(b, 256, 0, b);
    }
    assert WriteInt(y, room, BYTE, NumberOf(b), at) == Ok(Written(Ink(pen.d + [b], pen.p + 1, Little), NumberOf(b)));
    var t := Type(Primitive(BYTE), [], [], None);
    assert WriteDims(y, room, t.base, [], NumberOf(b), env, at, depth) == WriteBase(y, room, t.base, NumberOf(b), env, at, depth);
    assert WriteType(y, room, t, NumberOf(b), None, env, at, depth) == WriteInt(y, room, BYTE, NumberOf(b), at);
  }

  // ----- align inside a nested struct -----

  /** A byte, an alignment to 4 and a byte: 5 bytes when it starts at 0. */
  function PaddedPair(): seq<Op> {
    [ByteField(10, "x"), Align(Constant(4), Some(4)), ByteField(11, "y")]
  }

  function PairFields(): Fields {
    map["x" := NumberOf(2), "y" := NumberOf(3)]
  }

  lemma PaddedPairRange(c: Context, visiting: set<SymbolId>)
    ensures SequenceRange(c, PaddedPair(), StartAt(0), visiting) == Ok(StartAt(5))
  {
    var ops := PaddedPair();
    assert Step(c, ops[0], StartAt(0), visiting) == Ok(StartAt(1)) by {
      assert TypeRange(c, Type(Primitive(BYTE), [], [], None), visiting) == Ok(Range(1, Some(1)));
    }
    assert Step(c, ops[1], StartAt(1), visiting) == Ok(StartAt(4)) by {
      assert AlignUp(1, 4) == 4;
    }
    assert Step(c, ops[2], StartAt(4), visiting) == Ok(StartAt(5)) by {
      assert TypeRange(c, Type(Primitive(BYTE), [], [], None), visiting) == Ok(Range(1, Some(1)));
    }
    assert ops[1..][1..][1..] == [];
    assert ops[1..][0] == ops[1] && ops[1..][1..][0] == ops[2];
    assert SequenceRange(c, ops[1..][1..], StartAt(4), visiting) == Ok(StartAt(5));
    assert SequenceRange(c, ops[1..], StartAt(1), visiting) == Ok(StartAt(5));
  }

  /** Written at position 1 it takes 4 bytes: one byte up to the alignment, and not three. The
      bounds of the list, and so of any struct that nests it there, are wrong. */
  lemma NestedAlignBreaksBounds(y: Sink, room: Room, env: Env, pen: Pen, depth: nat, visiting: set<SymbolId>)
    requires pen.p == |pen.d| == 1 && room.limit >= 5
    ensures var r := WriteOps(y, room, PaddedPair(), PairFields(), env, pen, depth);
            && r.Ok? && r.value.pen.p - pen.p == 4
            && SequenceRange(y.c, PaddedPair(), StartAt(0), visiting) == Ok(StartAt(5))
  {
    var o, ops := PairFields(), PaddedPair();
    PaddedPairRange(y.c, visiting);
    WritesByte(y, room, 10, "x", o, env, pen, depth, 2);
    var b1 := WriteMember(y, room, ops[0], o, env, pen, depth).value;
    assert AlignUp(2, 4) == 4;
    var b2 := WriteMember(y, room, ops[1], o, b1.env, b1.pen, depth);
    assert b2.Ok? && b2.value.pen.p == 4 == |b2.value.pen.d|;
    WritesByte(y, room, 11, "y", o, b2.value.env, b2.value.pen, depth, 3);
    var b3 := WriteMember(y, room, ops[2], o, b2.value.env, b2.value.pen, depth);
    assert ops[1..][0] == ops[1] && ops[1..][1..][0] == ops[2] && ops[1..][1..][1..] == [];
    var none: seq<Op> := [];
    assert ops[1..][1..][1..] == none;
    assert WriteOps(y, room, none, o, b3.value.env, b3.value.pen, depth).value.pen == b3.value.pen;
    var r2 := WriteOps(y, room, ops[1..][1..], o, b2.value.env, b2.value.pen, depth);
    assert r2.Ok? && r2.value.pen == b3.value.pen;
    var r1 := WriteOps(y, room, ops[1..], o, b1.env, b1.pen, depth);
    assert r1.Ok? && r1.value.pen == b3.value.pen;
    assert WriteOps(y, room, ops, o, env, pen, depth).value.pen == b3.value.pen;
  }

  /** The list in a struct of its own. */
  function PaddedPlan(): Module {
    Module(map[1 := Struct(Little, [], PaddedPair(), 5, Some(5), Some(5))], map[], map[], map[], map[], map[])
  }

  lemma PairIsWritten(y: Sink, room: Room, env: Env, depth: nat)
    requires room.limit >= 5
    ensures var r := WriteOps(y, room, PaddedPair(), PairFields(), env, Ink([], 0, Little), depth);
            r.Ok? && r.value.pen == Ink([2, 0, 0, 0, 3], 5, Little) && r.value.fields == PairFields()
  {
    hide WriteBase, WriteType, Grows, Overlay;
    var o, ops := PairFields(), PaddedPair();
    var start: Pen := Ink([], 0, Little);
    WritesByte(y, room, 10, "x", o, env, start, depth, 2);
    var b1 := WriteMember(y, room, ops[0], o, env, start, depth).value;
    assert b1.pen.d == [2];
    assert AlignUp(1, 4) == 4 && Zeros(3) == [0, 0, 0];
    var b2 := WriteMember(y, room, ops[1], o, b1.env, b1.pen, depth).value;
    assert b2.pen.d == [2, 0, 0, 0];
    WritesByte(y, room, 11, "y", o, b2.env, b2.pen, depth, 3);
    var b3 := WriteMember(y, room, ops[2], o, b2.env, b2.pen, depth).value;
    assert ops[1..][0] == ops[1] && ops[1..][1..][0] == ops[2];
    var none: seq<Op> := [];
    assert ops[1..][1..][1..] == none;
    assert WriteOps(y, room, none, o, b3.env, b3.pen, depth).Ok?;
    var r2 := WriteOps(y, room, ops[1..][1..], o, b2.env, b2.pen, depth);
    assert r2.Ok? && r2.value.pen == b3.pen && r2.value.fields == b3.fields;
    var r1 := WriteOps(y, room, ops[1..], o, b1.env, b1.pen, depth);
    assert r1.Ok? && r1.value.pen == b3.pen && r1.value.fields == b3.fields;
    var r := WriteOps(y, room, ops, o, env, start, depth);
    assert r.Ok? && r.value.pen == b3.pen && r.value.fields == b1.fields + b3.fields;
  }

  function PairFragment(): Steady.Fragment {
    Steady.Fragment(Some(Little), map[1 := Steady.Inside], false, true)
  }

  /** At the root the pair takes the five bytes that its bounds give, and the hypotheses of
      `Canonical.DataRoundTrip` and `BoundsSound.EncodeWithinBounds` hold of it. */
  lemma PairAtTheRoot(c: Context)
    requires c.plan == PaddedPlan() && c.options.maxRecursionDepth > 0
    ensures var r := EncodeStruct(Sink(c, false), 1, Obj(PairFields()), map[]);
            && r.Ok? && r.value.v == Obj(PairFields()) && r.value.pen.d == [2, 0, 0, 0, 3]
            && Steady.SteadyPlan(c, PairFragment()) && Canonical.CanonicalBase(c.plan, Named(1), Obj(PairFields()))
            && Placed(c, c.plan.structs[1].members, map[], 0) && PlanOnGrid(c, map[])
            && TypeRange(c, StructType(1), {}) == Ok(Range(5, Some(5)))
  {
    hide WriteOps, SequenceRange;
    var ops, y := PaddedPair(), Sink(c, false);
    var s := c.plan.structs[1];
    var env := WithSizes(s, map[]);
    var room := Room(U64_MAX, Root);
    var depth := c.options.maxRecursionDepth - 1;
    assert ops == [ops[0]] + ([ops[1]] + ([ops[2]] + []));
    assert ops[1..] == [ops[1], ops[2]] && ops[1..][1..] == [ops[2]] && ops[1..][1..][1..] == [];
    assert BindAliases(c, [ops[2]], PairFields(), env) == Ok(env);
    assert BindAliases(c, [ops[1], ops[2]], PairFields(), env) == Ok(env);
    assert BindAliases(c, ops, PairFields(), env) == Ok(env);
    PairIsWritten(y, room, env, depth);
    assert WriteMembers(y, room, ops, PairFields(), env, Ink([], 0, Little), depth).Ok?;
    assert CheckRequirements(c.fp, [], WriteMembers(y, room, ops, PairFields(), env, Ink([], 0, Little), depth).value.env) == Ok(true);
    assert WriteStruct(y, room, s, PairFields(), map[], Ink([], 0, Little), depth).Ok?;
    assert InitialEnv(c.plan, map[]) == Ok(map[]);
    PaddedPairRange(c, {1});
    assert {} + {1} == {1};
    assert BaseRange(c, Named(1), {}) == Ok(Range(5, Some(5)));
    assert DimsRange(c.fp, Range(5, Some(5)), []) == Ok(Range(5, Some(5)));
  }

  /** Behind a field of four bytes the pair starts at a multiple of its alignment. */
  function NestedPair(): seq<Op> {
    [Field(20, "n", Type(Primitive(IntType(false, W4)), [], [], None), Little, None, NoAssertion),
     Field(21, "pair", Type(Named(1), [], [], None), Little, None, NoAssertion)]
  }

  lemma IntFieldRange(c: Context, op: Op)
    requires op.Field? && op.ty.base.Primitive? && op.ty.dims == [] && op.ty.terminator == []
    ensures var n := op.ty.base.it.width.Count(); MemberRange(c, op, {}) == Ok(Range(n, Some(n)))
  {
    assert TypeRange(c, op.ty, {}) == DimsRange(c.fp, BaseRange(c, op.ty.base, {}).value, []);
  }

  lemma PairOnGrid(c: Context)
    requires c.plan == PaddedPlan()
    ensures PlanOnGrid(c, map[1 := 4])
  {
    hide MemberRange, Gcd;
    var grid: Grid := map[1 := 4];
    var pair, none: seq<Op> := PaddedPair(), [];
    assert pair[1..] == [pair[1], pair[2]] && pair[1..][1..] == [pair[2]] && pair[1..][1..][1..] == none;
    var at := After(c, pair[0], 4);
    var next := After(c, pair[1], at);
    assert OpsOnGrid(c, pair[1..][1..], grid, 4, next);
    assert OpsOnGrid(c, pair[1..], grid, 4, at);
    assert OpsOnGrid(c, pair, grid, 4, 4);
  }

  /** The placement that `BoundsSound.EncodeWithinBounds` asks for, with an `align` in a nested
      struct. Behind a byte the same grid refuses it. */
  lemma NestedPairIsPlaced(c: Context)
    requires c.plan == PaddedPlan()
    ensures PlanOnGrid(c, map[1 := 4]) && Placed(c, NestedPair(), map[1 := 4], 0)
    ensures !Placed(c, [ByteField(20, "n"), NestedPair()[1]], map[1 := 4], 0)
  {
    hide MemberRange, PlanOnGrid;
    PairOnGrid(c);
    var grid: Grid := map[1 := 4];
    var ops, none: seq<Op> := NestedPair(), [];
    var shifted := [ByteField(20, "n"), ops[1]];
    IntFieldRange(c, ops[0]);
    IntFieldRange(c, shifted[0]);
    assert ops[1..] == [ops[1]] && ops[1..][1..] == none && shifted[1..] == [ops[1]];
    assert Gcd(0, 4) == Gcd(4, 0) == 4 && Gcd(0, 1) == Gcd(1, 0) == 1;
    assert After(c, ops[0], 0) == 4 && After(c, shifted[0], 0) == 1;
    assert Placed(c, ops[1..], grid, 4) && !Placed(c, [ops[1]], grid, 1);
  }

  /** The plan is well-typed and accepted by the dependency validator. */
  lemma PairIsTyped()
    ensures var byteType := Typing.ValueDecl(Type(Primitive(BYTE), [], [], None));
            TypingSound.TypedProgram(Typing.Program(PaddedPlan(), map[10 := byteType, 11 := byteType]), true)
    ensures DependenciesSound.Accepted(PaddedPlan())
  {
    var m, ops := PaddedPlan(), PaddedPair();
    assert ops[1..] == [ops[1], ops[2]] && ops[1..][1..] == [ops[2]] && ops[1..][1..][1..] == [];
    assert Dependencies.MemberAllowed(m, ops[2], {10}) == Some({10} + {11});
    assert {10} + {11} == {10, 11};
    assert Dependencies.MembersAllowed(m, [ops[2]], {10}) == Some({10, 11});
    assert Dependencies.MembersAllowed(m, [ops[1], ops[2]], {10}) == Some({10, 11});
    var none: set<SymbolId> := {};
    assert none + {10} == {10};
    assert Dependencies.MembersAllowed(m, ops, none) == Some({10, 11});
  }

  // ----- an alias of a field of an enclosing list -----

  function OddOf(s: SymbolId): Expr {
    Bin(Mod, Id(s), Constant(2))
  }

  /** A list with an alias of the field 10 and a virtual field over it. */
  function AliasedBranch(): seq<Op> {
    [Alias(11, "a", 10, "x"), Virtual(12, "y", OddOf(10))]
  }

  function AliasedList(): seq<Op> {
    [ByteField(10, "x"), Conditional(Lit(BoolLiteral(true)), AliasedBranch(), [])]
  }

  function AliasedPlan(): Module {
    Module(map[1 := Struct(Little, [], AliasedList(), 1, Some(1), Some(1))], map[], map[], map[], map[], map[10 := FieldKind])
  }

  function AliasedProgram(): Typing.Program {
    Typing.Program(AliasedPlan(), map[10 := Typing.ValueDecl(Type(Primitive(BYTE), [], [], None)), 11 := Typing.AliasDecl(10), 12 := Typing.VirtualDecl(OddOf(10))])
  }

  lemma OddIsTyped()
    ensures Typing.TypeOf(AliasedProgram(), OddOf(10)) == Typing.IntegerUnsigned
  {
    var p, e := AliasedProgram(), OddOf(10);
    assert Typing.TypeOf(p, Id(10)) == Typing.IntegerUnsigned && Typing.TypeOf(p, Constant(2)) == Typing.IntegerSigned;
    assert Typing.ResolvedType(p, e, {}) == Typing.TypeOfBinary(Mod, Typing.ResolvedType(p, e.left, {}), Typing.ResolvedType(p, e.right, {}));
  }

  lemma AliasedIsTyped()
    ensures TypingSound.TypedProgram(AliasedProgram(), false)
  {
    hide Typing.ResolvedType, Typing.TypeOfBinary, OddOf;
    var p, ops, inner := AliasedProgram(), AliasedList(), AliasedBranch();
    OddIsTyped();
    assert Typing.TypeOf(p, Lit(BoolLiteral(true))) == Typing.Boolean by { TruthIsTyped(p); }
    assert inner[1..] == [inner[1]] && inner[1..][1..] == [] && ops[1..] == [ops[1]] && ops[1..][1..] == [];
    assert TypingSound.TypedOps(p, false, inner[1..]);
    assert TypingSound.TypedOps(p, false, inner);
    assert TypingSound.TypedOps(p, false, ops[1..]);
  }

  lemma TruthIsTyped(p: Typing.Program)
    ensures Typing.TypeOf(p, Lit(BoolLiteral(true))) == Typing.Boolean
  {
  }

  lemma AliasedIsAccepted()
    ensures DependenciesSound.Accepted(AliasedPlan())
  {
    var m, ops, inner := AliasedPlan(), AliasedList(), AliasedBranch();
    assert inner[1..] == [inner[1]] && inner[1..][1..] == [] && ops[1..] == [ops[1]] && ops[1..][1..] == [];
    assert Symbols(OddOf(10)) == {10};
    assert Dependencies.MembersAllowed(m, inner[1..], {10} + {11}).Some?;
    assert Dependencies.MembersAllowed(m, inner, {10}).Some?;
    assert Dependencies.MembersAllowed(m, ops[1..], {10}) == Some({10});
    var none: set<SymbolId> := {};
    assert none + {10} == {10};
    assert Dependencies.MembersAllowed(m, ops, none) == Some({10});
  }

  /** The branch, after the field has been written as 5, when the alias is given the floating point
      number `d` that equals 5. */
  lemma AliasedBranchFails(y: Sink, room: Room, o: Fields, env: Env, pen: Pen, depth: nat, d: Scalar)
    requires !y.strict && y.c.plan == AliasedPlan() && 10 in env && env[10] == U(5)
    requires o == map["x" := NumberOf(5), "a" := Num(d)] && d.D? && SameNumber(y.c.fp, U(5), d) && !y.c.fp.isZero(I(2))
    ensures WriteMembers(y, room, AliasedBranch(), o, env, pen, depth) == Fail(OperandType)
  {
    hide WriteField, WriteBits, WriteAlign, WriteAt, WriteBlock, WriteVariant, Grows, SameNumber;
    var ops, after := AliasedBranch(), env[10 := d];
    var none: seq<Op> := [];
    assert ops[1..] == [ops[1]] && ops[1..][1..] == none;
    assert BindAliases(y.c, ops[1..], o, after) == BindAliases(y.c, none, o, after) == Ok(after);
    assert BindAliases(y.c, ops, o, env) == Ok(after);
    var b := WriteMember(y, room, ops[0], o, after, pen, depth).value;
    assert b.env == after[11 := d];
    assert Eval(y.c.fp, Id(10), b.env) == Ok(d) && Eval(y.c.fp, Constant(2), b.env) == Ok(I(2));
    assert Eval(y.c.fp, OddOf(10), b.env) == Binary(y.c.fp, Mod, d, I(2)) == Fail(OperandType);
    assert WriteMember(y, room, ops[1], o, b.env, b.pen, depth) == Fail(OperandType);
    assert WriteOps(y, room, ops[1..], o, b.env, b.pen, depth) == Fail(OperandType);
  }

  /** With an alias a well-typed plan that the dependency validator accepts can fail by the type of
      an operand: the alias is given 5.0 for a byte 5 of the enclosing list. */
  lemma AliasBreaksKinds(y: Sink, d: Scalar)
    requires !y.strict && y.c.plan == AliasedPlan() && y.c.options.maxRecursionDepth > 0
    requires d.D? && SameNumber(y.c.fp, U(5), d) && !y.c.fp.isZero(I(2))
    ensures TypingSound.TypedProgram(AliasedProgram(), false) && DependenciesSound.Accepted(AliasedPlan())
    ensures EncodeStruct(y, 1, Obj(map["x" := NumberOf(5), "a" := Num(d)]), map[]) == Fail(OperandType)
    ensures !EncodeTyped.SuitsBase(AliasedProgram(), Named(1), Obj(map["x" := NumberOf(5), "a" := Num(d)]))
  {
    hide WriteType, WriteBits, WriteAlign, WriteAt, WriteBlock, WriteVariant, Grows, SameNumber, EncodeTyped.SuitsBase, TypingSound.TypedProgram, DependenciesSound.Accepted;
    AliasedIsTyped();
    AliasedIsAccepted();
    var o: Fields := map["x" := NumberOf(5), "a" := Num(d)];
    var s, ops := AliasedPlan().structs[1], AliasedList();
    var none: seq<Op> := [];
    var values: Env := map[];
    var env := WithSizes(s, values);
    var room, start: Pen, depth := Room(U64_MAX, Root), Ink([], 0, Little), y.c.options.maxRecursionDepth - 1;
    assert ops[1..] == [ops[1]] && ops[1..][1..] == none;
    assert BindAliases(y.c, ops[1..], o, env) == BindAliases(y.c, none, o, env) == Ok(env);
    assert BindAliases(y.c, ops, o, env) == Ok(env);
    WritesByte(y, room, 10, "x", o, env, start, depth, 5);
    var b := WriteMember(y, room, ops[0], o, env, start, depth).value;
    AliasedBranchFails(y, room, o, b.env, b.pen, depth, d);
    assert WriteMember(y, room, ops[1], o, b.env, b.pen, depth) == Fail(OperandType);
    assert WriteOps(y, room, ops[1..], o, b.env, b.pen, depth) == Fail(OperandType);
    assert WriteOps(y, room, ops, o, env, start, depth) == Fail(OperandType);
    assert WriteMembers(y, room, ops, o, env, start, depth) == Fail(OperandType);
    assert WriteStruct(y, room, s, o, values, start, depth) == Fail(OperandType);
    assert WriteBase(y, room, Named(1), Obj(o), values, start, depth + 1) == Fail(OperandType);
    assert values + values == values;
    assert InitialEnv(y.c.plan, values) == Ok(values);
    if EncodeTyped.SuitsBase(AliasedProgram(), Named(1), Obj(o)) {
      EncodeTyped.EncodeIsTyped(AliasedProgram(), y, 1, Obj(o), values);
      assert false;
    }
  }

  // ----- padding -----

  /** A byte, a byte that `at` writes ahead, and an alignment. */
  function WrittenAhead(): seq<Op> {
    [ByteField(10, "x"), At(Constant(2), Some(2), [ByteField(11, "y")]), Align(Constant(8), Some(8))]
  }

  /** The alignment grows the output by zeros and keeps the byte that stands behind the position. */
  lemma PaddingKeepsWhatStandsAhead(y: Sink, room: Room, env: Env, depth: nat)
    requires !y.strict && room.limit >= 8
    ensures var o: Fields := map["x" := NumberOf(2), "y" := NumberOf(255)];
            var r := WriteOps(y, room, WrittenAhead(), o, env, Ink([], 0, Little), depth);
            r.Ok? && r.value.pen == Ink([2, 0, 255, 0, 0, 0, 0, 0], 8, Little)
  {
    hide WriteBase, WriteType, Grows, Eval;
    var o: Fields := map["x" := NumberOf(2), "y" := NumberOf(255)];
    var ops := WrittenAhead();
    var none: seq<Op> := [];
    var start: Pen := Ink([], 0, Little);
    WritesByte(y, room, 10, "x", o, env, start, depth, 2);
    var b1 := WriteMember(y, room, ops[0], o, env, start, depth).value;
    assert b1.pen == Ink([2], 1, Little);
    AheadIsWritten(y, room, o, b1.env, depth);
    var b2 := WriteMember(y, room, ops[1], o, b1.env, b1.pen, depth).value;
    assert AlignUp(1, 8) == 8 && Zeros(5) == [0, 0, 0, 0, 0];
    assert Fill(b2.pen.d, 1, 7) == [2, 0, 255, 0, 0, 0, 0, 0];
    var b3 := WriteMember(y, room, ops[2], o, b2.env, b2.pen, depth).value;
    assert ops[1..][0] == ops[1] && ops[1..][1..][0] == ops[2] && ops[1..][1..][1..] == none;
    assert WriteOps(y, room, none, o, b3.env, b3.pen, depth).Ok?;
    var r2 := WriteOps(y, room, ops[1..][1..], o, b2.env, b2.pen, depth);
    assert r2.Ok? && r2.value.pen == b3.pen;
    var r1 := WriteOps(y, room, ops[1..], o, b1.env, b1.pen, depth);
    assert r1.Ok? && r1.value.pen == b3.pen;
  }

  lemma AheadIsWritten(y: Sink, room: Room, o: Fields, env: Env, depth: nat)
    requires !y.strict && room.limit >= 8 && "y" in o && o["y"] == NumberOf(255)
    ensures var r := WriteMember(y, room, WrittenAhead()[1], o, env, Ink([2], 1, Little), depth);
            r.Ok? && r.value.pen == Ink([2, 0, 255], 1, Little)
  {
    hide WriteBase, WriteType, Grows, Eval;
    var inner := [ByteField(11, "y")];
    var none: seq<Op> := [];
    var pen: Pen := Ink([2, 0], 2, Little);
    assert [2] + Zeros(1) == [2, 0];
    WritesByte(y, room, 11, "y", o, env, pen, depth, 255);
    assert inner[1..] == none;
    assert BindAliases(y.c, none, o, env) == Ok(env);
    assert BindAliases(y.c, inner, o, env) == Ok(env);
    var b := WriteMember(y, room, inner[0], o, env, pen, depth).value;
    assert b.pen == Ink([2, 0, 255], 3, Little);
    assert WriteOps(y, room, none, o, b.env, b.pen, depth).Ok?;
    var r := WriteOps(y, room, inner, o, env, pen, depth);
    assert r.Ok? && r.value.pen == b.pen;
    assert WriteMembers(y, room, inner, o, env, pen, depth) == r;
  }

  // ----- static lengths -----

  lemma PowOfSixteen()
    ensures Pow2(16) == 65536
  {
    assert Pow2(8) == 256;
    Pow2Add(8, 8);
  }

  function TwoShorts(): Op {
    Field(10, "a", Type(Primitive(IntType(false, W2)), [Fixed(Constant(2))], [], None), Little, Some(2), NoAssertion)
  }

  lemma TwoElements(c: Context, env: Env)
    requires c.options.maxArrayElements >= 2 && c.options.maxArrayValues >= 2
    ensures ArrayExtents(c, TwoShorts().ty.dims, env) == Ok([2])
  {
    var dims := TwoShorts().ty.dims;
    var flat: seq<Dim> := [];
    var ns: seq<u64> := [2];
    assert Eval(c.fp, Constant(2), env) == Ok(I(2));
    assert EvalSize(c.fp, dims[0].e, env) == Ok(2);
    assert dims[1..] == flat && Times(1, 2) == 2;
    assert Extents(c, flat, env, 2) == Ok([]);
    assert ns == [2] + [];
    assert Extents(c, dims, env, 1) == Ok(ns);
    assert ns[1..] == [] && Product(ns[1..]) == 1 && Product(ns) == 2;
  }

  /** Two elements of two bytes have the static length two, and are refused for taking four. */
  lemma ShortsAreRefused(c: Context, room: Room, env: Env, depth: nat)
    requires room.limit >= 4 && c.options.maxArrayElements >= 2 && c.options.maxArrayValues >= 2
    ensures var o: Fields := map["a" := Arr([NumberOf(0), NumberOf(0)])];
            && WriteType(Sink(c, false), room, TwoShorts().ty, o["a"], Some(2), env, Ink([], 0, Little), depth).Ok?
            && WriteField(Sink(c, false), room, TwoShorts(), o, env, Ink([], 0, Little), depth) == Fail(ValueMismatch)
  {
    hide ArrayExtents, Eval, WriteStruct, WriteTerminated, WriteText, Pack, Grows;
    var y, t := Sink(c, false), TwoShorts().ty;
    var zero := NumberOf(0);
    var o: Fields := map["a" := Arr([zero, zero])];
    var start: Pen := Ink([], 0, Little);
    PowOfSixteen();
    TwoElements(c, env);
    assert t.dims[1..] == [];
    var one := WriteInt(y, room, t.base.it, zero, start);
    assert one.Ok? && one.value.pen.p == 2 == |one.value.pen.d|;
    var two := WriteInt(y, room, t.base.it, zero, one.value.pen);
    assert two.Ok? && two.value.pen.p == 4;
    assert WriteDims(y, room, t.base, [], zero, env, start, depth) == one;
    assert WriteDims(y, room, t.base, [], zero, env, one.value.pen, depth) == two;
    var none: seq<Value> := [];
    assert [zero, zero][1..] == [zero] && [zero][1..] == none;
    assert WriteElems(y, room, t.base, [], none, env, two.value.pen, depth).Ok?;
    var last := WriteElems(y, room, t.base, [], [zero], env, one.value.pen, depth);
    assert last.Ok? && last.value.pen == two.value.pen;
    var both := WriteElems(y, room, t.base, [], [zero, zero], env, start, depth);
    assert both.Ok? && both.value.pen == two.value.pen;
    var all := WriteDims(y, room, t.base, t.dims, o["a"], env, start, depth);
    assert all.Ok? && all.value.pen == two.value.pen;
    assert WriteType(y, room, t, o["a"], Some(2), env, start, depth) == all;
  }

  // ----- bits groups -----

  function SixteenBits(): BitsGroup {
    [BitsField(10, "k", Big, 16, NoAssertion)]
  }

  lemma SixteenBitsShape()
    ensures var g := SixteenBits();
            && g[1..] == [] && TotalBits(g[1..]) == 0
            && TotalBits(g) == 16 && StorageBytes(g) == 2 && PaddingBits(g) == 0 && Pow2(16) == 65536 && Pow2(0) == 1
  {
    PowOfSixteen();
    var none: seq<BitsField> := [];
    assert SixteenBits()[1..] == none;
  }

  lemma GroupIsWrittenBig(c: Context, room: Room, env: Env)
    requires room.limit >= 2
    ensures WriteBits(Sink(c, false), room, SixteenBits(), map["k" := Num(U(1))], env, Ink([], 0, Little))
              == Ok(Batch(Ink([0, 1], 2, Big), env[10 := U(1)], map["k" := Num(U(1))]))
  {
    hide Pow2;
    var g := SixteenBits();
    var o: Fields := map["k" := Num(U(1))];
    SixteenBitsShape();
    assert WriteBitsFields(Sink(c, false), g[1..], o, env[10 := U(1)]) == Ok((0, env[10 := U(1)], map[]));
    assert Shift(1, 0) == 1 && Padded(1, 0) == 1;
    assert AsU64(o["k"]) == Some(1) && o + map[] == o;
    assert WriteBitsFields(Sink(c, false), g, o, env) == Ok((1, env[10 := U(1)], o));
    assert LittleBytes(0, 1) == [0] && LittleBytes(1, 2) == [1] + LittleBytes(0, 1);
    var start: Pen := Ink([], 0, Big);
    var two: seq<byte> := [0, 1];
    assert Pack(1, 2, Big) == two && start.d + two == two;
    assert Put(room, start, two) == Ok(Ink(two, 2, Big));
  }

  lemma GroupIsReadLittle(c: Context, env: Env)
    ensures ReadBits(Source(c, [0, 1], false), Whole(2), SixteenBits(), env, Cursor(0, Little))
              == Ok(Group(Cursor(2, Big), env[10 := U(256)], map["k" := Num(U(256))]))
  {
    hide Pow2;
    var g := SixteenBits();
    var x := Source(c, [0, 1], false);
    SixteenBitsShape();
    assert [0, 1][0..2] == [0, 1] && [0, 1][1..] == [1] && [1][1..] == [];
    assert LittleValue([]) == 0 && LittleValue([1]) == 1 && LittleValue([0, 1]) == 256;
    assert Unpack([0, 1], Little) == 256 && Unpadded(256, 0) == 256;
    DivUnique(256, Pow2(16), 0, 256);
    assert BitsOf(256, 0, 16) == 256;
    assert ReadBitsFields(x, g[1..], 256, env[10 := U(256)]) == Ok((env[10 := U(256)], map[]));
    assert map["k" := Num(U(256))] + map[] == map["k" := Num(U(256))];
    assert ReadBitsFields(x, g, 256, env) == Ok((env[10 := U(256)], map["k" := Num(U(256))]));
  }

  /** Sixteen bits in the other byte order than the one in force: one is written and 256 is read. */
  lemma GroupInOtherOrder(c: Context, room: Room, env: Env)
    requires room.limit >= 2
    ensures var o: Fields := map["k" := Num(U(1))];
            var r := WriteBits(Sink(c, false), room, SixteenBits(), o, env, Ink([], 0, Little));
            && r.Ok? && r.value.fields == o
            && ReadBits(Source(c, r.value.pen.d, false), Whole(2), SixteenBits(), env, Cursor(0, Little))
                 == Ok(Group(Cursor(2, Big), env[10 := U(256)], map["k" := Num(U(256))]))
  {
    hide WriteBits, ReadBits;
    GroupIsWrittenBig(c, room, env);
    GroupIsReadLittle(c, env);
  }

  // ----- progress -----

  /** A struct without members takes no byte: the loop over its elements stands still. */
  lemma EmptyElementStalls(c: Context, env: Env, depth: nat)
    requires c.plan == Module(map[1 := Struct(Little, [], [], 0, Some(0), Some(0))], map[], map[], map[], map[], map[])
    requires depth > 0
    ensures var t := Type(Named(1), [Remaining], [0], Some(4));
            ReadSeq(Source(c, [7, 0], false), Within(2, Whole(2)), t, 4, env, Cursor(0, Little), depth) == Fail(NoProgress)
  {
    var x, w := Source(c, [7, 0], false), Within(2, Whole(2));
    var s := c.plan.structs[1];
    var at := Cursor(0, Little);
    assert [7, 0][0..1] == [7];
    assert CheckRequirements(c.fp, [], WithSizes(s, env)) == Ok(true);
    assert ReadMembers(x, w, [], WithSizes(s, env), at, depth - 1) == Ok(Group(at, WithSizes(s, env), map[]));
    assert ReadStruct(x, w, s, env, at, depth - 1) == Ok(Item(at, Obj(map[])));
    assert ReadBase(x, w, Named(1), env, at, depth) == Ok(Item(at, Obj(map[])));
  }

  // ----- byte strings -----

  /** `bytes` without an extent is bounded by one byte and written at any length: it is within its
      bounds exactly when it has one byte. */
  lemma PlainBytesBreakBounds(y: Sink, room: Room, b: seq<byte>, env: Env, pen: Pen, depth: nat, visiting: set<SymbolId>)
    requires !y.strict && pen.p + |b| <= room.limit
    ensures var t := Type(BytesBase, [], [], None);
            var r := WriteType(y, room, t, Blob(b), None, env, pen, depth);
            && TypeRange(y.c, t, visiting).Ok? && r.Ok?
            && (Contains(TypeRange(y.c, t, visiting).value, r.value.pen.p - pen.p) <==> |b| == 1)
  {
    var t := Type(BytesBase, [], [], None);
    assert TypeRange(y.c, t, visiting) == Ok(Range(1, Some(1)));
    assert WriteType(y, room, t, Blob(b), None, env, pen, depth) == WriteText(y, room, BytesBase, [], Blob(b), None, env, pen);
  }

  /** The encoder does not compare a byte string with a dynamic extent; the decoder reads as many
      bytes as the extent says. Every other length is lost. */
  lemma DynamicLengthIsNotChecked(y: Sink, x: Source, room: Room, w: Window, b: seq<byte>, n: u64, env: Env, pen: Pen, at: Cursor, depth: nat)
    requires !y.strict && n <= I64_MAX && n != |b| && pen.p + |b| <= room.limit
    ensures var t := Type(BytesBase, [Dynamic(Constant(n))], [], None);
            && WriteType(y, room, t, Blob(b), None, env, pen, depth).Ok?
            && WriteType(y, room, t, Blob(b), None, env, pen, depth).value.v == Blob(b)
            && (ReadType(x, w, t, None, env, at, depth).Ok? ==> ReadType(x, w, t, None, env, at, depth).value.v != Blob(b))
  {
    var t := Type(BytesBase, [Dynamic(Constant(n))], [], None);
    assert WriteType(y, room, t, Blob(b), None, env, pen, depth) == WriteText(y, room, BytesBase, t.dims, Blob(b), None, env, pen);
    assert ReadType(x, w, t, None, env, at, depth) == ReadText(x, w, t, None, env, at);
    assert Eval(x.c.fp, Constant(n), env) == Ok(I(n));
    assert EvalSize(x.c.fp, t.dims[0].e, env) == Ok(n);
    if ReadText(x, w, t, None, env, at).Ok? {
      assert TextLength(x, w, t.dims, None, env, at) == Ok(n as nat);
    }
  }

  // ----- element boundaries -----

  /** One zero byte, terminated by a zero byte: the reader stops before the element. */
  lemma ElementLooksLikeTerminator(c: Context, env: Env, depth: nat)
    ensures var t := Type(Primitive(BYTE), [Remaining], [0], Some(4));
            && WriteSeq(Sink(c, false), Room(9, InSequence), t, [NumberOf(0)], 0, None, env, Ink([], 0, Little), depth)
                 == Ok(WrittenAll(Ink([0, 0], 2, Little), [NumberOf(0)]))
            && ReadSeq(Source(c, [0, 0], false), Within(2, Whole(2)), t, 4, env, Cursor(0, Little), depth)
                 == Ok(Items(Cursor(1, Little), []))
  {
    hide WriteDims, Grows, Eval, WriteMembers, ReadMembers;
    var t := Type(Primitive(BYTE), [Remaining], [0], Some(4));
    var y, room := Sink(c, false), Room(9, InSequence);
    var pen: Pen := Ink([], 0, Little);
    assert Pow2(8) == 256 && LittleBytes(0, 1) == [0] && Pack(0, 1, Little) == [0];
    var zero: seq<byte> := [0];
    assert pen.d + zero == zero && zero + zero == [0, 0];
    assert Put(room, pen, zero) == Ok(Ink(zero, 1, Little));
    assert Put(room, Ink(zero, 1, Little), t.terminator) == Ok(Ink([0, 0], 2, Little));
    assert WriteInt(y, room, BYTE, NumberOf(0), pen) == Ok(Written(Ink([0], 1, Little), NumberOf(0)));
    assert WriteBase(y, room, t.base, NumberOf(0), env, pen, depth) == Ok(Written(Ink([0], 1, Little), NumberOf(0)));
    var vs: seq<Value> := [NumberOf(0)];
    var none: seq<Value> := [];
    assert vs[1..] == none && [vs[0]] + none == vs;
    assert WriteSeq(y, room, t, none, 0, None, env, Ink([0], 1, Little), depth) == Ok(WrittenAll(Ink([0, 0], 2, Little), none));
    assert WriteSeq(y, room, t, vs, 0, None, env, pen, depth) == Ok(WrittenAll(Ink([0, 0], 2, Little), [vs[0]] + none));
    assert [0, 0][0..1] == [0];
  }
}
