/** Array views agree with the encoder: in what an encode writes for an array of fixed-size
    elements, the bytes that `elementAt` finds are the encoding of that element. */
module ArrayEncoding {
  import opened Outcome
  import opened Bytes
  import opened Expr
  import opened Plan
  import opened Decode
  import opened Encode
  import opened Bounds
  import opened BoundsSound
  import opened Grid
  import opened PositionFree
  import opened Arrays

  /** An element type of `k` bytes, without `align`. */
  predicate FixedElement(c: Context, base: Base, ids: set<SymbolId>, k: u64) {
    && !base.IsText() && (base.Named? ==> base.id in ids)
    && PlanOnGrid(c, Ones(ids)) && Movable(c.plan, ids)
    && FixedBase(c, base, {}) == Some(k)
  }

  predicate IsStruct(c: Context, base: Base) {
    base.Named? && base.id in c.plan.structs
  }

  /** The extents of the dimensions in this environment. */
  predicate IsShape(c: Context, dims: seq<Dim>, env: Env, ns: seq<u64>) {
    |ns| == |dims| && forall i :: 0 <= i < |dims| ==> !dims[i].Remaining? && EvalSize(c.fp, dims[i].e, env) == Ok(ns[i])
  }

  /** The element at an index vector of a nested array value. */
  function Element(v: Value, index: seq<u64>): Option<Value>
    decreases |index|
  {
    if index == [] then Some(v)
    else if v.Arr? && index[0] < |v.items| then Element(v.items[index[0]], index[1..])
    else None
  }

  /** What the encoder writes for one element alone, at the start of an empty output. */
  function Alone(y: Sink, room: Room, base: Base, v: Value, env: Env, order: Order, at: nat, depth: nat): Result<Written> {
    WriteBase(y, Room(if at <= room.limit then room.limit - at else 0, room.zone), base, v, env, Ink([], 0, order), depth)
  }

  /** The `k` bytes from `at` on are the encoding of `v`. */
  predicate Encodes(y: Sink, room: Room, base: Base, v: Value, env: Env, order: Order, depth: nat, d: seq<byte>, at: nat, k: nat) {
    var alone := Alone(y, room, base, v, env, order, at, depth);
    at + k <= |d| && alone.Ok? && d[at..at + k] == alone.value.pen.d
  }

  /** The pen is at the end of its output, in the order of the array's field unless every element
      sets its own. */
  predicate Standing(c: Context, room: Room, base: Base, order: Order, pen: Pen) {
    AtEnd(room, pen) && (IsStruct(c, base) || pen.order == order)
  }

  /** A struct sets its own byte order first. */
  lemma OrderOfStruct(y: Sink, room: Room, base: Base, v: Value, env: Env, pen: Pen, order: Order, depth: nat)
    requires IsStruct(y.c, base) || pen.order == order
    ensures WriteBase(y, room, base, v, env, pen, depth) == WriteBase(y, room, base, v, env, pen.(order := order), depth)
  {
    if IsStruct(y.c, base) {
      assert pen.(order := y.c.plan.structs[base.id].order) == pen.(order := order).(order := y.c.plan.structs[base.id].order);
    }
  }

  /** Alone, an element takes exactly its fixed size. */
  lemma AloneIsFixed(y: Sink, room: Room, base: Base, v: Value, env: Env, order: Order, depth: nat, ids: set<SymbolId>, k: u64)
    requires FixedElement(y.c, base, ids, k)
    requires WriteBase(y, room, base, v, env, Ink([], 0, order), depth).Ok?
    ensures var alone := WriteBase(y, room, base, v, env, Ink([], 0, order), depth).value.pen;
            alone.p == k == |alone.d|
  {
    FixedBaseIsExact(y.c, base, {});
    BaseFits(y, room, base, v, env, Ink([], 0, order), depth, Ones(ids), 1, {});
    BaseReach(y, room, base, v, env, Ink([], 0, order), depth, Ones(ids));
  }

  /** The run at `pen` is the run alone, behind what was there. */
  lemma ElementMoves(y: Sink, room: Room, base: Base, v: Value, env: Env, pen: Pen, depth: nat, ids: set<SymbolId>, k: u64, order: Order)
    requires FixedElement(y.c, base, ids, k) && Standing(y.c, room, base, order, pen)
    ensures WriteBase(y, room, base, v, env, pen, depth) == Moved(pen.d, Alone(y, room, base, v, env, order, pen.p, depth))
  {
    hide WriteInt, WriteStruct;
    var rest := Room(room.limit - pen.p, room.zone);
    var start: Pen := Ink([], 0, pen.order);
    OrderOfStruct(y, rest, base, v, env, start, order, depth);
    assert pen.d + [] == pen.d;
    assert Behind(pen.d, start) == pen && Further(pen.d, rest) == room;
    BaseMoves(pen.d, y, rest, base, v, env, start, depth, ids);
  }

  lemma ElementIsWritten(y: Sink, room: Room, base: Base, v: Value, env: Env, pen: Pen, depth: nat, ids: set<SymbolId>, k: u64, order: Order)
    requires FixedElement(y.c, base, ids, k) && Standing(y.c, room, base, order, pen)
    requires WriteBase(y, room, base, v, env, pen, depth).Ok?
    ensures var after := WriteBase(y, room, base, v, env, pen, depth).value.pen;
            && after.p == pen.p + k && pen.d <= after.d && Standing(y.c, room, base, order, after)
            && Encodes(y, room, base, v, env, order, depth, after.d, pen.p, k)
  {
    hide WriteInt, WriteStruct;
    ElementMoves(y, room, base, v, env, pen, depth, ids, k, order);
    var alone := Alone(y, room, base, v, env, order, pen.p, depth).value.pen;
    AloneIsFixed(y, Room(room.limit - pen.p, room.zone), base, v, env, order, depth, ids, k);
    assert (pen.d + alone.d)[pen.p..pen.p + k] == alone.d;
    if !IsStruct(y.c, base) {
      KeepsOrder(y, room, base, v, env, pen, depth);
    }
  }

  lemma KeepsOrder(y: Sink, room: Room, base: Base, v: Value, env: Env, pen: Pen, depth: nat)
    requires !IsStruct(y.c, base) && !base.IsText() && WriteBase(y, room, base, v, env, pen, depth).Ok?
    ensures WriteBase(y, room, base, v, env, pen, depth).value.pen.order == pen.order
  {
  }

  // ----- nested arrays -----

  /** `inner` bytes into the element `i` of elements that take `size` bytes each. */
  function Offset(i: nat, size: nat, inner: nat): nat {
    if i == 0 then inner else size + Offset(i - 1, size, inner)
  }

  /** The bytes of an array of elements of `k` bytes. */
  function SizeOfArray(ns: seq<u64>, k: nat): nat {
    if ns == [] then k else Offset(ns[0], SizeOfArray(ns[1..], k), 0)
  }

  /** The place of an element in it. */
  function SlotAt(ns: seq<u64>, index: seq<u64>, k: nat): nat
    requires |index| == |ns|
  {
    if ns == [] then 0 else Offset(index[0], SizeOfArray(ns[1..], k), SlotAt(ns[1..], index[1..], k))
  }

  lemma {:induction false} OffsetIsProduct(i: nat, size: nat, inner: nat)
    ensures Offset(i, size, inner) == Times(i, size) + inner
  {
    if i > 0 {
      OffsetIsProduct(i - 1, size, inner);
    }
  }

  lemma {:induction false} SizeIsProduct(ns: seq<u64>, k: nat)
    ensures SizeOfArray(ns, k) == Times(Product(ns), k)
  {
    if ns != [] {
      SizeIsProduct(ns[1..], k);
      OffsetIsProduct(ns[0], SizeOfArray(ns[1..], k), 0);
      MulAssociative(ns[0], Product(ns[1..]), k);
    }
  }

  lemma {:induction false} SlotIsLinear(ns: seq<u64>, index: seq<u64>, k: nat)
    requires |index| == |ns|
    ensures SlotAt(ns, index, k) == Times(Linear(ns, index), k)
  {
    if ns != [] {
      var p, l := Product(ns[1..]), Linear(ns[1..], index[1..]);
      SizeIsProduct(ns[1..], k);
      SlotIsLinear(ns[1..], index[1..], k);
      OffsetIsProduct(index[0], SizeOfArray(ns[1..], k), SlotAt(ns[1..], index[1..], k));
      Regroup(index[0], p, l, k);
    }
  }

  lemma Regroup(i: nat, p: nat, l: nat, k: nat)
    ensures Times(Times(i, p) + l, k) == Times(i, Times(p, k)) + Times(l, k)
  {
    MulAssociative(i, p, k);
    assert (i * p + l) * k == (i * p) * k + l * k;
  }

  lemma EncodesStays(y: Sink, room: Room, base: Base, v: Value, env: Env, order: Order, depth: nat, d: seq<byte>, d': seq<byte>, at: nat, k: nat)
    requires Encodes(y, room, base, v, env, order, depth, d, at, k) && d <= d'
    ensures Encodes(y, room, base, v, env, order, depth, d', at, k)
  {
    assert d'[at..at + k] == d[at..at + k];
  }

  /** `n` bytes were appended. */
  ghost predicate Appends(c: Context, room: Room, base: Base, order: Order, pen: Pen, after: Pen, n: nat) {
    after.p == pen.p + n && pen.d <= after.d && Standing(c, room, base, order, after)
  }

  lemma {:induction false} DimsAppend(y: Sink, room: Room, base: Base, dims: seq<Dim>, ns: seq<u64>, v: Value, env: Env, pen: Pen, depth: nat, ids: set<SymbolId>, k: u64, order: Order)
    requires FixedElement(y.c, base, ids, k) && Standing(y.c, room, base, order, pen) && IsShape(y.c, dims, env, ns)
    requires WriteDims(y, room, base, dims, v, env, pen, depth).Ok?
    ensures Appends(y.c, room, base, order, pen, WriteDims(y, room, base, dims, v, env, pen, depth).value.pen, SizeOfArray(ns, k))
    decreases |dims|, 1, 0
  {
    if dims == [] {
      ElementIsWritten(y, room, base, v, env, pen, depth, ids, k, order);
    } else {
      assert ArrayExtents(y.c, dims, env).value[0] == ns[0];
      ElemsAppend(y, room, base, dims[1..], ns[1..], v.items, env, pen, depth, ids, k, order);
    }
  }

  lemma {:induction false} ElemsAppend(y: Sink, room: Room, base: Base, dims: seq<Dim>, ns: seq<u64>, vs: seq<Value>, env: Env, pen: Pen, depth: nat, ids: set<SymbolId>, k: u64, order: Order)
    requires FixedElement(y.c, base, ids, k) && Standing(y.c, room, base, order, pen) && IsShape(y.c, dims, env, ns)
    requires WriteElems(y, room, base, dims, vs, env, pen, depth).Ok?
    ensures Appends(y.c, room, base, order, pen, WriteElems(y, room, base, dims, vs, env, pen, depth).value.pen, Offset(|vs|, SizeOfArray(ns, k), 0))
    decreases |dims|, 2, |vs|
  {
    if vs != [] {
      var first := WriteDims(y, room, base, dims, vs[0], env, pen, depth).value.pen;
      DimsAppend(y, room, base, dims, ns, vs[0], env, pen, depth, ids, k, order);
      ElemsAppend(y, room, base, dims, ns, vs[1..], env, first, depth, ids, k, order);
    }
  }

  /** The run wrote `v` at `q`, `n` bytes after `pen`, and nothing wrote there again. */
  ghost predicate WroteAt(y: Sink, room: Room, base: Base, v: Option<Value>, env: Env, depth: nat, order: Order, pen: Pen, n: nat, q: Pen, after: Pen) {
    && v.Some? && q.p == pen.p + n && Standing(y.c, room, base, order, q)
    && WriteBase(y, room, base, v.value, env, q, depth).Ok?
    && WriteBase(y, room, base, v.value, env, q, depth).value.pen.d <= after.d
  }

  /** Where the element at `index` of an array was written. */
  lemma {:induction false} DimsSlot(y: Sink, room: Room, base: Base, dims: seq<Dim>, ns: seq<u64>, v: Value, env: Env, pen: Pen, depth: nat, ids: set<SymbolId>, k: u64, order: Order, index: seq<u64>)
    returns (q: Pen)
    requires FixedElement(y.c, base, ids, k) && Standing(y.c, room, base, order, pen) && IsShape(y.c, dims, env, ns)
    requires WriteDims(y, room, base, dims, v, env, pen, depth).Ok? && InBounds(ns, index)
    ensures WroteAt(y, room, base, Element(v, index), env, depth, order, pen, SlotAt(ns, index, k), q,
                    WriteDims(y, room, base, dims, v, env, pen, depth).value.pen)
    decreases |dims|, 1, 0
  {
    if dims == [] {
      q := pen;
    } else {
      assert ArrayExtents(y.c, dims, env).value[0] == ns[0];
      q := ElemsSlot(y, room, base, dims[1..], ns[1..], v.items, env, pen, depth, ids, k, order, index[0], index[1..]);
    }
  }

  lemma {:induction false} ElemsSlot(y: Sink, room: Room, base: Base, dims: seq<Dim>, ns: seq<u64>, vs: seq<Value>, env: Env, pen: Pen, depth: nat, ids: set<SymbolId>, k: u64, order: Order, i: nat, index: seq<u64>)
    returns (q: Pen)
    requires FixedElement(y.c, base, ids, k) && Standing(y.c, room, base, order, pen) && IsShape(y.c, dims, env, ns)
    requires WriteElems(y, room, base, dims, vs, env, pen, depth).Ok? && i < |vs| && InBounds(ns, index)
    ensures WroteAt(y, room, base, Element(vs[i], index), env, depth, order, pen, Offset(i, SizeOfArray(ns, k), SlotAt(ns, index, k)), q,
                    WriteElems(y, room, base, dims, vs, env, pen, depth).value.pen)
    decreases |dims|, 2, |vs|
  {
    hide WriteBase, WriteDims, FixedBase, FixedElement, Grows, Element, SlotAt, IsShape, InBounds;
    var first := WriteDims(y, room, base, dims, vs[0], env, pen, depth).value.pen;
    DimsAppend(y, room, base, dims, ns, vs[0], env, pen, depth, ids, k, order);
    if i == 0 {
      q := DimsSlot(y, room, base, dims, ns, vs[0], env, pen, depth, ids, k, order, index);
      ElemsAppend(y, room, base, dims, ns, vs[1..], env, first, depth, ids, k, order);
    } else {
      q := ElemsSlot(y, room, base, dims, ns, vs[1..], env, first, depth, ids, k, order, i - 1, index);
      assert vs[1..][i - 1] == vs[i];
    }
  }

  // ----- descriptors -----

  /** `makeArrayDescriptor` */
  method MakeArrayDescriptor(c: Context, t: Type, env: Env) returns (r: Option<Descriptor>)
    ensures r.Some? ==>
      && t.dims != [] && !t.IsTerminated()
      && IsShape(c, t.dims, env, r.value.dimensions)
      && FixedBase(c, t.base, {}) == Some(r.value.elementSize)
      && DescriptorIsValid(r.value)
    ensures r.None? ==>
      || t.dims == [] || t.IsTerminated()
      || FixedBase(c, t.base, {}) in {None, Some(0)}
      || forall ns :: IsShape(c, t.dims, env, ns) ==> !PrefixesFit(ns)
  {
    if t.dims == [] {
      return None;
    }
    var size := FixedSize(c, t.(dims := []), {});
    if size.None? {
      return None;
    }
    var dims: seq<u64> := [];
    for i := 0 to |t.dims|
      invariant IsShape(c, t.dims[..i], env, dims)
    {
      if t.dims[i].Remaining? {
        return None;
      }
      var n := EvalSize(c.fp, t.dims[i].e, env);
      if n.Fail? {
        return None;
      }
      dims := dims + [n.value];
    }
    assert t.dims[..|t.dims|] == t.dims;
    assert forall ns :: IsShape(c, t.dims, env, ns) ==> ns == dims;
    var count := CheckedElementCount(dims);
    if count.None? {
      return None;
    }
    var d := Descriptor(size.value, count.value, dims);
    var valid := CheckDescriptor(d);
    if !valid {
      return None;
    }
    r := Some(d);
  }

  /** The main theorem on arrays. After an encode of an array field at the end of the output, the
      descriptor of its type over the bytes that were written is a valid view, and at the offset
      of every index vector stand exactly the bytes of that element. */
  lemma ViewAgreesWithEncoding(y: Sink, room: Room, t: Type, v: Value, bound: Option<u64>, env: Env, pen: Pen, depth: nat, ids: set<SymbolId>, d: Descriptor, index: seq<u64>)
    requires FixedElement(y.c, t.base, ids, d.elementSize) && !t.IsTerminated() && t.dims != []
    requires DescriptorIsValid(d) && IsShape(y.c, t.dims, env, d.dimensions)
    requires AtEnd(room, pen) && room.limit <= U64_MAX
    requires WriteType(y, room, t, v, bound, env, pen, depth).Ok? && InBounds(d.dimensions, index)
    ensures var after := WriteType(y, room, t, v, bound, env, pen, depth).value.pen;
            var offset := Times(Linear(d.dimensions, index), d.elementSize);
            && after.p - pen.p <= U64_MAX && pen.d <= after.d
            && ViewIsValid(View(d, true, after.p - pen.p))
            && Element(v, index).Some?
            && Encodes(y, room, t.base, Element(v, index).value, env, pen.order, depth, after.d, pen.p + offset, d.elementSize)
  {
    hide WriteDims, WriteBase;
    assert WriteType(y, room, t, v, bound, env, pen, depth) == WriteDims(y, room, t.base, t.dims, v, env, pen, depth);
    DimsAppend(y, room, t.base, t.dims, d.dimensions, v, env, pen, depth, ids, d.elementSize, pen.order);
    var q := DimsSlot(y, room, t.base, t.dims, d.dimensions, v, env, pen, depth, ids, d.elementSize, pen.order, index);
    var e := Element(v, index).value;
    var written := WriteBase(y, room, t.base, e, env, q, depth).value.pen.d;
    ElementIsWritten(y, room, t.base, e, env, q, depth, ids, d.elementSize, pen.order);
    EncodesStays(y, room, t.base, e, env, pen.order, depth, written,
                 WriteType(y, room, t, v, bound, env, pen, depth).value.pen.d, q.p, d.elementSize);
    LinearBelow(d.dimensions, index);
    SizeIsProduct(d.dimensions, d.elementSize);
    SlotIsLinear(d.dimensions, index, d.elementSize);
  }
}
