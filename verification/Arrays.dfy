/** Contiguous array buffers: descriptors, views and row-major element access. */
module Arrays {
  import opened Outcome
  import opened Bytes
  import opened Expr
  import opened Plan

  datatype Descriptor = Descriptor(elementSize: u64, elementCount: u64, dimensions: seq<u64>)

  /** A view does not own its storage: the buffer is a region of `size` bytes, or none. */
  datatype View = View(descriptor: Descriptor, hasData: bool, size: u64)

  // ----- element counts -----

  /** No partial product overflows. A zero extent makes all later ones vanish. */
  predicate PrefixesFit(dims: seq<u64>) {
    forall k :: 0 <= k <= |dims| ==> Product(dims[..k]) <= U64_MAX
  }

  lemma {:induction false} ProductSplit(a: seq<u64>, b: seq<u64>)
    ensures Product(a + b) == Times(Product(a), Product(b))
  {
    if a == [] {
      assert a + b == b;
    } else {
      ProductSplit(a[1..], b);
      assert (a + b)[0] == a[0] && (a + b)[1..] == a[1..] + b;
      MulAssociative(a[0], Product(a[1..]), Product(b));
    }
  }

  lemma ProductOfOne(n: u64)
    ensures Product([n]) == n
  {
    assert [n][1..] == [];
    assert Product([n]) == n * Product([n][1..]);
  }

  lemma PrefixStep(dims: seq<u64>, k: nat)
    requires k < |dims|
    ensures Product(dims[..k + 1]) == Times(Product(dims[..k]), dims[k])
  {
    assert dims[..k + 1] == dims[..k] + [dims[k]];
    ProductSplit(dims[..k], [dims[k]]);
    ProductOfOne(dims[k]);
  }

  /** The guard that every multiplication of the source has. */
  method CheckedTimes(a: u64, b: u64) returns (r: Option<u64>)
    ensures r == if Times(a, b) <= U64_MAX then Some(Times(a, b)) else None
  {
    UnsignedProductFits(a, b);
    if b != 0 && a > U64_MAX / b {
      return None;
    }
    r := Some(a * b);
  }

  /** `checkedElementCount`, which is also the adapter's `checkedProduct`. */
  method CheckedElementCount(dims: seq<u64>) returns (r: Option<u64>)
    ensures r.Some? <==> PrefixesFit(dims)
    ensures r.Some? ==> r.value == Product(dims)
  {
    var count: u64 := 1;
    for i := 0 to |dims|
      invariant count == Product(dims[..i])
      invariant forall k :: 0 <= k <= i ==> Product(dims[..k]) <= U64_MAX
    {
      PrefixStep(dims, i);
      var next := CheckedTimes(count, dims[i]);
      if next.None? {
        return None;
      }
      count := next.value;
    }
    assert dims[..|dims|] == dims;
    r := Some(count);
  }

  /** When every extent is positive, the total bounds all partial products. */
  lemma {:induction false} PositiveProductsFit(a: seq<u64>, b: seq<u64>)
    requires Product(a + b) > 0
    ensures 0 < Product(a) <= Product(a + b) && 0 < Product(b) <= Product(a + b)
  {
    ProductSplit(a, b);
    var x, y := Product(a), Product(b);
    assert x == 0 || y == 0 ==> Times(x, y) == 0;
    MulMonotone(x, 1, y);
    MulMonotone(y, 1, x);
  }

  lemma PositiveMeansFit(dims: seq<u64>)
    requires 0 < Product(dims) <= U64_MAX
    ensures PrefixesFit(dims)
  {
    forall k | 0 <= k <= |dims| ensures Product(dims[..k]) <= U64_MAX {
      assert dims[..k] + dims[k..] == dims;
      PositiveProductsFit(dims[..k], dims[k..]);
    }
  }

  // ----- validity -----

  predicate DescriptorIsValid(d: Descriptor) {
    d.elementSize != 0 && PrefixesFit(d.dimensions) && Product(d.dimensions) == d.elementCount
  }

  predicate ViewIsValid(v: View) {
    && DescriptorIsValid(v.descriptor)
    && (if v.descriptor.elementCount == 0 then v.size == 0
        else v.hasData && v.size == Times(v.descriptor.elementCount, v.descriptor.elementSize))
  }

  /** `ArrayDescriptor::valid` */
  method CheckDescriptor(d: Descriptor) returns (ok: bool)
    ensures ok == DescriptorIsValid(d)
  {
    if d.elementSize == 0 {
      return false;
    }
    var count := CheckedElementCount(d.dimensions);
    ok := count.Some? && count.value == d.elementCount;
  }

  /** `ArrayView::valid`, where the host's `size_t` has 64 bits. */
  method CheckView(v: View) returns (ok: bool)
    ensures ok == ViewIsValid(v)
  {
    ok := CheckDescriptor(v.descriptor);
    if !ok {
      return;
    }
    if v.descriptor.elementCount == 0 {
      return v.size == 0;
    }
    var required := CheckedTimes(v.descriptor.elementCount, v.descriptor.elementSize);
    ok := required.Some? && v.hasData && v.size == required.value;
  }

  // ----- row-major positions -----

  predicate InBounds(dims: seq<u64>, index: seq<u64>) {
    |index| == |dims| && forall i :: 0 <= i < |dims| ==> index[i] < dims[i]
  }

  /** The last dimension varies fastest. */
  function Linear(dims: seq<u64>, index: seq<u64>): nat
    requires |index| == |dims|
  {
    if dims == [] then 0 else Times(index[0], Product(dims[1..])) + Linear(dims[1..], index[1..])
  }

  lemma {:induction false} LinearBelow(dims: seq<u64>, index: seq<u64>)
    requires InBounds(dims, index)
    ensures Linear(dims, index) < Product(dims)
  {
    if dims != [] {
      LinearBelow(dims[1..], index[1..]);
      var p := Product(dims[1..]);
      MulMonotone(p, index[0] + 1, dims[0]);
      assert Times(index[0], p) + p == p * (index[0] + 1);
      assert dims[0] * p == p * dims[0];
    }
  }

  /** Different index vectors have different positions. */
  lemma {:induction false} LinearInjective(dims: seq<u64>, one: seq<u64>, other: seq<u64>)
    requires InBounds(dims, one) && InBounds(dims, other) && Linear(dims, one) == Linear(dims, other)
    ensures one == other
  {
    if dims != [] {
      var p := Product(dims[1..]);
      var a, b := Linear(dims[1..], one[1..]), Linear(dims[1..], other[1..]);
      LinearBelow(dims[1..], one[1..]);
      LinearBelow(dims[1..], other[1..]);
      assert Linear(dims, one) == p * one[0] + a && Linear(dims, other) == p * other[0] + b;
      DivUnique(Linear(dims, one), p, one[0], a);
      DivUnique(Linear(dims, one), p, other[0], b);
      LinearInjective(dims[1..], one[1..], other[1..]);
      assert one == [one[0]] + one[1..] && other == [other[0]] + other[1..];
    }
  }

  /** Every slot is the position of an index vector. */
  lemma {:induction false} LinearSurjective(dims: seq<u64>, n: nat) returns (index: seq<u64>)
    requires n < Product(dims)
    ensures InBounds(dims, index) && Linear(dims, index) == n
  {
    if dims == [] {
      index := [];
    } else {
      var p := Product(dims[1..]);
      var first: nat := dims[0];
      assert p == 0 ==> first * p == 0;
      assert n == p * (n / p) + n % p;
      QuotientTest(n, dims[0], p);
      QuotientBound(n, p);
      var rest := LinearSurjective(dims[1..], n % p);
      index := [n / p] + rest;
      assert index[1..] == rest;
    }
  }

  // ----- element access -----

  datatype Access = Found(offset: nat) | InvalidView | RankMismatch | OutOfBounds | IndexOverflow | BeyondCount | OffsetOverflow

  lemma LinearStep(dims: seq<u64>, index: seq<u64>, i: nat)
    requires |index| == |dims| && i < |dims|
    ensures Linear(dims[i..], index[i..]) == Times(Product(dims[i + 1..]), index[i]) + Linear(dims[i + 1..], index[i + 1..])
    ensures Product(dims[i..]) == Times(Product(dims[i + 1..]), dims[i])
  {
    assert dims[i..][0] == dims[i] && dims[i..][1..] == dims[i + 1..] && index[i..][1..] == index[i + 1..];
  }

  /** A suffix in bounds whose dimensions are not all of the array's: what the loop computes
      fits, unless some extent is zero. */
  lemma SuffixFits(dims: seq<u64>, i: nat)
    requires i <= |dims| && 0 < Product(dims) <= U64_MAX
    ensures 0 < Product(dims[i..]) <= U64_MAX
  {
    assert dims[..i] + dims[i..] == dims;
    PositiveProductsFit(dims[..i], dims[i..]);
  }

  /** The loop of `elementAt`, from the last index to the first. */
  method LinearIndex(dims: seq<u64>, index: seq<u64>) returns (r: Access)
    requires |index| == |dims| && Product(dims) <= U64_MAX
    ensures r.Found? || r.OutOfBounds? || r.IndexOverflow?
    ensures r.Found? <==> InBounds(dims, index)
    ensures r.Found? ==> r.offset == Linear(dims, index) < Product(dims)
    ensures r.IndexOverflow? ==> Product(dims) == 0
  {
    assert InBounds(dims, index) ==> Product(dims) > 0 by {
      if InBounds(dims, index) {
        LinearBelow(dims, index);
      }
    }
    var linear: u64 := 0;
    var stride: u64 := 1;
    var i := |index|;
    while i > 0
      invariant 0 <= i <= |index| && InBounds(dims[i..], index[i..])
      invariant linear == Linear(dims[i..], index[i..]) < stride == Product(dims[i..])
    {
      i := i - 1;
      if index[i] >= dims[i] {
        return OutOfBounds;
      }
      NextStep(dims, index, i);
      var term := CheckedTimes(stride, index[i]);
      if term.None? || linear > U64_MAX - term.value {
        return IndexOverflow;
      }
      linear := linear + term.value;
      var next := CheckedTimes(stride, dims[i]);
      if next.None? {
        return IndexOverflow;
      }
      stride := next.value;
    }
    assert dims[0..] == dims && index[0..] == index;
    r := Found(linear);
  }

  /** One step of the loop: the new values, and that they fit when no extent is zero. */
  lemma NextStep(dims: seq<u64>, index: seq<u64>, i: nat)
    requires |index| == |dims| && i < |dims| && Product(dims) <= U64_MAX
    requires InBounds(dims[i + 1..], index[i + 1..]) && index[i] < dims[i]
    ensures InBounds(dims[i..], index[i..])
    ensures Linear(dims[i..], index[i..]) == Times(Product(dims[i + 1..]), index[i]) + Linear(dims[i + 1..], index[i + 1..])
    ensures Product(dims[i..]) == Times(Product(dims[i + 1..]), dims[i])
    ensures Linear(dims[i..], index[i..]) < Product(dims[i..])
    ensures Product(dims) > 0 ==> Product(dims[i..]) <= U64_MAX
  {
    LinearStep(dims, index, i);
    LinearBelow(dims[i..], index[i..]);
    if Product(dims) > 0 {
      SuffixFits(dims, i);
    }
  }

  /** `elementAt`. It finds the element exactly when the view is valid, the rank is right and
      every index is below its extent; the element then lies inside the buffer, at its row-major
      position. The overflow exits are for arrays with a zero extent only. */
  method ElementAt(v: View, index: seq<u64>) returns (r: Access)
    ensures r.Found? <==> ViewIsValid(v) && InBounds(v.descriptor.dimensions, index)
    ensures r.Found? ==>
      && r.offset == Times(Linear(v.descriptor.dimensions, index), v.descriptor.elementSize)
      && r.offset + v.descriptor.elementSize <= v.size
    ensures r.InvalidView? <==> !ViewIsValid(v)
    ensures r.RankMismatch? <==> ViewIsValid(v) && |index| != |v.descriptor.dimensions|
    ensures r.IndexOverflow? ==> v.descriptor.elementCount == 0
    ensures !r.BeyondCount? && !r.OffsetOverflow?
  {
    var valid := CheckView(v);
    if !valid {
      return InvalidView;
    }
    if |index| != |v.descriptor.dimensions| {
      return RankMismatch;
    }
    r := LinearIndex(v.descriptor.dimensions, index);
    if !r.Found? {
      return;
    }
    if r.offset >= v.descriptor.elementCount {
      return BeyondCount;
    }
    Inside(r.offset, v.descriptor.elementCount, v.descriptor.elementSize);
    var offset := CheckedTimes(r.offset, v.descriptor.elementSize);
    if offset.None? {
      return OffsetOverflow;
    }
    r := Found(offset.value);
  }

  lemma Inside(k: nat, count: nat, size: nat)
    requires k < count
    ensures Times(k, size) + size <= Times(count, size)
  {
    MulMonotone(size, k + 1, count);
    assert size * (k + 1) == Times(k, size) + size;
  }

  /** Different elements do not overlap. */
  lemma SlotsAreDisjoint(dims: seq<u64>, size: u64, one: seq<u64>, other: seq<u64>)
    requires InBounds(dims, one) && InBounds(dims, other) && one != other
    ensures var a, b := Times(Linear(dims, one), size), Times(Linear(dims, other), size);
            a + size <= b || b + size <= a
  {
    var k, l := Linear(dims, one), Linear(dims, other);
    if k == l {
      LinearInjective(dims, one, other);
    } else if k < l {
      Inside(k, l, size);
    } else {
      Inside(l, k, size);
    }
  }
}
