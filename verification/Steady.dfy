/** The plans whose values read back without strict mode, as far as a plan says it.

    A plan of the fragment has distinct member names, no aliases, no `at`, and terminators without a
    reachable border. Either it has one byte order or no bits group of more than one byte. The text
    of a `bytes[*]` ends a block that has to be filled, and element sequences stand where the
    decoder has pushed no limit. What the plan leaves open, the lengths of dynamic byte strings and
    the elements of sequences, is asked of the value in `Readable`. */
module Steady {
  import opened Outcome
  import opened Bytes
  import opened Expr
  import opened Plan
  import opened Terminator
  import opened Decode
  import opened Encode
  import opened Conditions
  import opened Logical

  // ----- the fragment -----

  /** Where a value stands: outside every limit that the decoder pushes, anywhere, or last in a
      block that has to be filled. */
  datatype Place = AtRoot | Inside | Filling

  /** The byte order of the plan if it has one, the places of its structs, whether blocks have to be
      filled, and whether every extent is known from the plan and there are no element sequences. */
  datatype Fragment = Fragment(order: Option<Order>, places: map<SymbolId, Place>, exact: bool, plain: bool)

  /** The place of what something else may follow. */
  function Before(place: Place): Place {
    if place.Filling? then Inside else place
  }

  predicate NamedAt(base: Base, g: Fragment, place: Place) {
    base.Named? ==> base.id in g.places && (g.places[base.id].Inside? || g.places[base.id] == place)
  }

  predicate SteadyText(dims: seq<Dim>, g: Fragment, place: Place, bounded: bool) {
    if dims == [] then bounded
    else match dims[0]
         case Fixed(_) => true
         case Dynamic(_) => !g.plain
         case Remaining => place.Filling?
  }

  predicate SteadyTerminated(t: Type, g: Fragment, place: Place)
    requires t.maxPayload.Some?
  {
    && t.maxPayload.value + |t.terminator| <= U64_MAX
    && (t.IsByteForm() ==> !HasReachableBorder(t.terminator, t.maxPayload.value))
    && (t.IsSequenceForm() ==> place.AtRoot? && !g.plain)
  }

  predicate SteadyType(t: Type, g: Fragment, place: Place, bounded: bool) {
    if t.IsTerminated() then NamedAt(t.base, g, Inside) && (t.maxPayload.Some? ==> SteadyTerminated(t, g, place))
    else if t.base.IsText() then SteadyText(t.dims, g, place, bounded)
    else NamedAt(t.base, g, if t.dims == [] then place else Before(place))
  }

  predicate OneOrder(fs: seq<BitsField>, o: Order) {
    fs == [] || (fs[0].order == o && (forall f :: f in fs[1..] ==> f.name != fs[0].name) && OneOrder(fs[1..], o))
  }

  /** Without a byte order for the whole plan, a group is stored in one byte. */
  predicate SteadyGroup(group: BitsGroup, o: Option<Order>) {
    OneOrder(group, group[0].order) && (if o.Some? then group[0].order == o.value else StorageBytes(group) == 1)
  }

  predicate InOrder(order: Order, o: Option<Order>) {
    o.Some? ==> order == o.value
  }

  function GroupNames(g: seq<BitsField>): set<Name> {
    if g == [] then {} else {g[0].name} + GroupNames(g[1..])
  }

  lemma {:induction false} NotAmong(fs: seq<BitsField>, name: Name)
    requires forall f :: f in fs ==> f.name != name
    ensures name !in GroupNames(fs)
  {
    if fs != [] {
      NotAmong(fs[1..], name);
    }
  }

  lemma {:induction false} GroupOrder(fs: seq<BitsField>, o: Order)
    requires fs != [] && OneOrder(fs, o)
    ensures fs[0].order == o && LastOrder(fs) == o
  {
    if |fs| > 1 {
      GroupOrder(fs[1..], o);
    }
  }

  /** The names that a member may give a value to. */
  function Names(op: Op): set<Name>
    decreases op
  {
    match op
    case Field(_, name, _, _, _, _) => {name}
    case Virtual(_, name, _) => {name}
    case Alias(_, name, _, _) => {name}
    case Bits(group) => GroupNames(group)
    case Align(_, _) => {}
    case At(_, _, members) => NamesOf(members)
    case Block(_, _, members) => NamesOf(members)
    case Conditional(_, thenMembers, elseMembers) => NamesOf(thenMembers) + NamesOf(elseMembers)
    case Variant(name, _, _, _) => {name}
  }

  function NamesOf(ops: seq<Op>): set<Name>
    decreases ops
  {
    if ops == [] then {} else Names(ops[0]) + NamesOf(ops[1..])
  }

  predicate SteadyBranch(b: Branch, g: Fragment, place: Place)
    decreases b
  {
    match b
    case Typed(t) => SteadyType(t, g, place, false)
    case Listed(members) => SteadyOps(members, g, place)
  }

  predicate SteadyOp(op: Op, g: Fragment, place: Place)
    decreases op
  {
    match op
    case Field(_, _, ty, order, known, _) => InOrder(order, g.order) && SteadyType(ty, g, place, known.Some?)
    case Virtual(_, _, _) => true
    case Alias(_, _, _, _) => false
    case Bits(group) => SteadyGroup(group, g.order)
    case Align(_, _) => true
    case At(_, _, _) => false
    case Block(_, _, members) => SteadyOps(members, g, if g.exact then Filling else Inside)
    case Conditional(_, thenMembers, elseMembers) => SteadyOps(thenMembers, g, place) && SteadyOps(elseMembers, g, place)
    case Variant(_, _, cases, default) =>
      && (forall i :: 0 <= i < |cases| ==> SteadyBranch(cases[i].body, g, place))
      && (default.Some? ==> SteadyBranch(default.value, g, place))
  }

  /** The place of the first member of a list. */
  function FirstPlace(ops: seq<Op>, place: Place): Place {
    if |ops| <= 1 then place else Before(place)
  }

  predicate SteadyOps(ops: seq<Op>, g: Fragment, place: Place)
    decreases ops
  {
    ops == [] || (SteadyOp(ops[0], g, FirstPlace(ops, place)) && Names(ops[0]) !! NamesOf(ops[1..]) && SteadyOps(ops[1..], g, place))
  }

  /** The structs with a place are of the fragment, and use no others. */
  predicate SteadyPlan(c: Context, g: Fragment) {
    && (g.exact ==> !c.options.allowTrailingBlockBytes)
    && forall id :: id in g.places && id in c.plan.structs ==>
         InOrder(c.plan.structs[id].order, g.order) && SteadyOps(c.plan.structs[id].members, g, g.places[id])
  }

  // ----- what is asked of the value -----

  function IntBytes(it: IntType, v: Value, order: Order): Option<seq<byte>> {
    if it.signed then
      (if AsI64(v).Some? then Some(Pack(AsI64(v).value % TWO_64, it.width.Count(), order)) else None)
    else
      (if AsU64(v).Some? then Some(Pack(AsU64(v).value, it.width.Count(), order)) else None)
  }

  /** The bytes of the integer that an element begins with: the element itself, or the first field
      of a struct. */
  function Lead(c: Context, base: Base, v: Value, order: Order, depth: nat): Option<seq<byte>>
    decreases depth
  {
    match base
    case Primitive(it) => IntBytes(it, v, order)
    case Named(id) =>
      if id in c.plan.structs then
        var ops := c.plan.structs[id].members;
        if v.Obj? && depth > 0 && ops != [] && ops[0].Field? && ops[0].name in v.fields
           && ops[0].ty.dims == [] && !ops[0].ty.IsTerminated()
        then Lead(c, ops[0].ty.base, v.fields[ops[0].name], ops[0].order, depth - 1)
        else None
      else if id in c.plan.enums then IntBytes(c.plan.enums[id], v, order)
      else None
    case _ => None
  }

  predicate AvoidsIn(c: Context, base: Base, v: Value, t: seq<byte>, order: Order, depth: nat) {
    var lead := Lead(c, base, v, order, depth);
    lead.Some? && |t| <= |lead.value| && lead.value[..|t|] != t
  }

  /** An element that cannot be taken for the terminator, in the given byte order or in both. */
  predicate Avoids(c: Context, base: Base, v: Value, t: seq<byte>, order: Option<Order>, depth: nat) {
    && (order != Some(Big) ==> AvoidsIn(c, base, v, t, Little, depth))
    && (order != Some(Little) ==> AvoidsIn(c, base, v, t, Big, depth))
  }

  predicate ReadableText(c: Context, t: Type, v: Value, env: Env)
  {
    t.dims != [] && t.dims[0].Dynamic? && TextBytes(t.base, v).Ok? ==> EvalSize(c.fp, t.dims[0].e, env) == Ok(|TextBytes(t.base, v).value|)
  }

  predicate ReadableBase(c: Context, base: Base, v: Value, env: Env, depth: nat)
    decreases depth, 0, 0, 0
  {
    base.Named? && base.id in c.plan.structs && v.Obj? && depth > 0 ==>
      ReadableOps(c, c.plan.structs[base.id].members, v.fields, WithSizes(c.plan.structs[base.id], env), depth - 1)
  }

  predicate ReadableDims(c: Context, base: Base, dims: seq<Dim>, v: Value, env: Env, depth: nat)
    decreases depth, 0, 1, |dims|
  {
    if dims == [] then ReadableBase(c, base, v, env, depth)
    else v.Arr? ==> forall i :: 0 <= i < |v.items| ==> ReadableDims(c, base, dims[1..], v.items[i], env, depth)
  }

  predicate ReadableType(c: Context, t: Type, v: Value, env: Env, order: Option<Order>, depth: nat)
    decreases depth, 0, 2, 0
  {
    if t.IsTerminated() then
      t.IsSequenceForm() && t.maxPayload.Some? && v.Arr? ==> forall i :: 0 <= i < |v.items| ==>
        ReadableBase(c, t.base, v.items[i], env, depth) && Avoids(c, t.base, v.items[i], t.terminator, order, depth)
    else if t.base.IsText() then ReadableText(c, t, v, env)
    else ReadableDims(c, t.base, t.dims, v, env, depth)
  }

  predicate ReadableBranch(c: Context, b: Branch, o: Fields, env: Env, depth: nat)
    decreases depth, 1, b
  {
    match b
    case Typed(t) => "value" in o ==> ReadableType(c, t, o["value"], env, None, depth)
    case Listed(members) => ReadableOps(c, members, o, env, depth)
  }

  predicate ReadableOp(c: Context, op: Op, o: Fields, env: Env, depth: nat)
    decreases depth, 1, op
  {
    match op
    case Field(_, name, ty, order, _, _) => name in o ==> ReadableType(c, ty, o[name], env, Some(order), depth)
    case Block(_, _, members) => ReadableOps(c, members, o, env, depth)
    case Conditional(e, thenMembers, elseMembers) =>
      var b := EvalBool(c.fp, e, env);
      b.Ok? ==> ReadableOps(c, if b.value then thenMembers else elseMembers, o, env, depth)
    case Variant(name, e, cases, default) =>
      var tag := Eval(c.fp, e, env);
      name in o && o[name].Obj? && tag.Ok? ==>
        (match ChooseCase(c.fp, cases, tag.value)
         case Some(i) => ReadableBranch(c, cases[i].body, o[name].fields, env, depth)
         case None => default.Some? ==> ReadableBranch(c, default.value, o[name].fields, env, depth))
    case _ => true
  }

  /** Dynamic byte strings have the length that their extent evaluates to, and no element of a
      sequence begins like the terminator. The environment is the one of `Logical`. */
  predicate ReadableOps(c: Context, ops: seq<Op>, o: Fields, env: Env, depth: nat)
    decreases depth, 1, ops
  {
    ops == [] ||
    (ReadableOp(c, ops[0], o, env, depth) &&
     (var first := LogicalOp(c, ops[0], o, env, depth); first.Some? ==> ReadableOps(c, ops[1..], o, first.value.0, depth)))
  }

  predicate Readable(c: Context, id: SymbolId, v: Value, parameters: Env) {
    var env := InitialEnv(c.plan, parameters);
    env.Ok? ==> ReadableBase(c, Named(id), v, env.value, c.options.maxRecursionDepth)
  }
}
