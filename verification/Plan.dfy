/** The executable plan: types, operations, structs and the values that codecs exchange. */
module Plan {
  import opened Outcome
  import opened Bytes
  import opened Expr

  type Name = string

  datatype Width = W1 | W2 | W4 | W8 {
    function Count(): (n: nat)
      ensures 1 <= n <= 8
    {
      match this
      case W1 => 1
      case W2 => 2
      case W4 => 4
      case W8 => 8
    }
  }

  /** u8..u64 and i8..i64. */
  datatype IntType = IntType(signed: bool, width: Width)

  datatype Base = Primitive(it: IntType) | BytesBase | StringBase | Named(id: SymbolId) {
    predicate IsText() {
      BytesBase? || StringBase?
    }
  }

  datatype Dim = Fixed(e: Expr) | Dynamic(e: Expr) | Remaining

  datatype Type = Type(base: Base, dims: seq<Dim>, terminator: seq<byte>, maxPayload: Option<u64>) {
    predicate IsTerminated() {
      terminator != []
    }

    /** `bytes until T max N`. */
    predicate IsByteForm() {
      base.BytesBase? && dims == []
    }

    /** `Element[*] until T max N`. */
    predicate IsSequenceForm() {
      |dims| == 1 && dims[0].Remaining?
    }
  }

  /** `expect` literals of a field, already parsed for the kind of value they test. */
  datatype Assertion = NoAssertion | AssertInteger(n: int) | AssertText(text: seq<byte>)

  datatype BitsField = BitsField(symbol: SymbolId, name: Name, order: Order, bits: nat, assertion: Assertion)

  function TotalBits(fields: seq<BitsField>): (n: nat) {
    if fields == [] then 0 else fields[0].bits + TotalBits(fields[1..])
  }

  /** A bits group as plan validation leaves it: 1..64 bits in fields of at least one bit. */
  ghost predicate ValidGroup(fields: seq<BitsField>) {
    && fields != []
    && TotalBits(fields) <= 64
    && forall f :: f in fields ==> f.bits >= 1
  }

  type BitsGroup = g: seq<BitsField> | ValidGroup(g)
    ghost witness [BitsField(1, "a", Little, 8, NoAssertion)]

  function StorageBytes(fields: seq<BitsField>): (n: nat) {
    (TotalBits(fields) + 7) / 8
  }

  /** Unused bits at the low end of the container. */
  function PaddingBits(fields: seq<BitsField>): (n: nat)
    ensures n < 8 && TotalBits(fields) + n == 8 * StorageBytes(fields)
  {
    8 * StorageBytes(fields) - TotalBits(fields)
  }

  datatype Branch = Typed(ty: Type) | Listed(members: seq<Op>)

  datatype Case = Case(tag: Scalar, body: Branch)

  datatype Op =
    | Field(symbol: SymbolId, name: Name, ty: Type, order: Order, staticLength: Option<u64>, assertion: Assertion)
    | Virtual(symbol: SymbolId, name: Name, e: Expr)
    | Alias(symbol: SymbolId, name: Name, target: SymbolId, targetName: Name)
    | Bits(group: BitsGroup)
    | Align(e: Expr, staticAlignment: Option<u64>)
    | At(offset: Expr, staticOffset: Option<u64>, members: seq<Op>)
    | Block(size: Expr, staticSize: Option<u64>, members: seq<Op>)
    | Conditional(condition: Expr, thenMembers: seq<Op>, elseMembers: seq<Op>)
    | Variant(name: Name, discriminator: Expr, cases: seq<Case>, default: Option<Branch>)

  datatype Struct = Struct(
    order: Order,
    requirements: seq<Expr>,
    members: seq<Op>,
    minSize: u64,
    size: Option<u64>,
    maxSize: Option<u64>)

  datatype SymbolKind =
    TypeAliasKind | StructKind | EnumKind | ConstantKind | ParameterKind | EnumItemKind |
    FieldKind | VirtualKind | AliasKind | OtherKind

  datatype ParameterType = IntParameter(it: IntType) | FloatParameter

  datatype Module = Module(
    structs: map<SymbolId, Struct>,
    enums: map<SymbolId, IntType>,
    aliases: map<SymbolId, Type>,
    parameters: map<SymbolId, ParameterType>,
    values: Env,                        // module constants and enum items
    kinds: map<SymbolId, SymbolKind>)   // the symbol table

  datatype Options = Options(
    maxArrayElements: u64,
    maxArrayValues: u64,                // maxAllocationBytes / sizeof(Value)
    maxAllocationBytes: u64,
    maxRecursionDepth: nat,
    allowTrailingBlockBytes: bool)

  /** What a codec is built from: a plan, its options and the host's floating point unit. */
  datatype Context = Context(plan: Module, options: Options, fp: FloatUnit)

  /** A logical value. */
  datatype Value =
    | Null
    | Num(s: Scalar)
    | Text(text: seq<byte>)
    | Blob(bytes: seq<byte>)
    | Obj(fields: map<Name, Value>)
    | Arr(items: seq<Value>)

  type Fields = map<Name, Value>

  /** The object holds every entry of `fields`. */
  predicate Agrees(o: Fields, fields: Fields) {
    forall n :: n in fields ==> n in o && o[n] == fields[n]
  }

  /** `toRuntime`, `runtimeValue`: what an expression sees of a value. */
  function Runtime(v: Value): Scalar {
    if v.Num? then v.s else I(0)
  }

  predicate Matches(a: Assertion, v: Value) {
    match a
    case NoAssertion => true
    case AssertInteger(n) => v.Num? && v.s.IsInteger() && v.s.Int() == n
    case AssertText(t) => (v.Text? && v.text == t) || (v.Blob? && v.bytes == t)
  }

  /** `addSizeProperties`: the size builtins that are known for a struct. */
  function WithSizes(s: Struct, env: Env): (r: Env)
    ensures forall x :: x in env && !IsBuiltin(x) ==> x in r && r[x] == env[x]
    ensures forall x :: x in r && !IsBuiltin(x) ==> x in env
  {
    var e1 := env[MIN_SIZE_IN_BYTES := U(s.minSize)];
    var e2 := if s.size.Some? then e1[SIZE_IN_BYTES := U(s.size.value)] else e1;
    if s.maxSize.Some? then e2[MAX_SIZE_IN_BYTES := U(s.maxSize.value)] else e2
  }

  /** The first case whose tag equals the discriminator. */
  function ChooseCase(f: FloatUnit, cases: seq<Case>, tag: Scalar): (r: Option<nat>)
    ensures r.Some? ==> r.value < |cases| && SameNumber(f, cases[r.value].tag, tag)
    ensures forall i :: 0 <= i < (if r.Some? then r.value else |cases|) ==> !SameNumber(f, cases[i].tag, tag)
  {
    if cases == [] then None
    else if SameNumber(f, cases[0].tag, tag) then Some(0)
    else match ChooseCase(f, cases[1..], tag)
         case None => None
         case Some(i) => Some(i + 1)
  }

  /** The extents of an array, checked as both codecs check them before any element. */
  function Extents(c: Context, dims: seq<Dim>, env: Env, count: nat): (r: Result<seq<u64>>)
    ensures r.Ok? ==> |r.value| == |dims|
  {
    if dims == [] then Ok([])
    else if dims[0].Remaining? then Fail(InvalidType)
    else
      var n :- EvalSize(c.fp, dims[0].e, env);
      if n > c.options.maxArrayElements || Times(count, n) > c.options.maxArrayElements then Fail(LimitExceeded)
      else
        var rest :- Extents(c, dims[1..], env, Times(count, n));
        Ok([n] + rest)
  }

  function Product(xs: seq<u64>): (p: nat) {
    if xs == [] then 1 else xs[0] * Product(xs[1..])
  }

  /** The extents of an array whose element count is also within the allocation limit. */
  function ArrayExtents(c: Context, dims: seq<Dim>, env: Env): (r: Result<seq<u64>>)
    ensures r.Ok? ==> |r.value| == |dims|
  {
    var ns :- Extents(c, dims, env, 1);
    if Product(ns) > c.options.maxArrayValues then Fail(LimitExceeded) else Ok(ns)
  }

  /** `run`: parameters are complete, of the right kind and in range, and there are no others;
      constants and enum items are added to them. */
  predicate ParameterFits(t: ParameterType, v: Scalar) {
    match t
    case FloatParameter => v.D?
    case IntParameter(it) =>
      if it.signed then v.I? && v.i + Pow2(8 * it.width.Count() - 1) >= 0 && v.i < Pow2(8 * it.width.Count() - 1)
      else v.U? && v.u < Pow2(8 * it.width.Count())
  }

  function InitialEnv(m: Module, parameters: Env): (r: Result<Env>)
    ensures r.Ok? ==> r.value.Keys == m.parameters.Keys + m.values.Keys
  {
    if m.parameters.Keys != parameters.Keys then Fail(ValueMismatch)
    else if exists p :: p in m.parameters && !ParameterFits(m.parameters[p], parameters[p]) then Fail(ValueMismatch)
    else Ok(parameters + m.values)
  }
}
