/** The GGUF adapter turns a tensor of a file into an array view (`makeArrayView`). */
module Gguf {
  import opened Outcome
  import opened Bytes
  import opened Plan
  import opened Arrays

  /** `elementSize` is the size of a scalar tensor type; quantized types have none. */
  datatype Tensor = Tensor(elementSize: Option<u64>, dimensions: seq<u64>, offset: u64)

  datatype Document = Document(tensorDataOffset: u64, tensors: seq<Tensor>)

  /** A view with the place of its buffer in the file. */
  datatype FileView = FileView(view: View, start: nat)

  function ViewOf(doc: Document, t: Tensor): FileView
    requires t.elementSize.Some? && Product(t.dimensions) <= U64_MAX
    requires Times(Product(t.dimensions), t.elementSize.value) <= U64_MAX
  {
    FileView(
      View(Descriptor(t.elementSize.value, Product(t.dimensions), Reverse(t.dimensions)), true,
           Times(Product(t.dimensions), t.elementSize.value)),
      doc.tensorDataOffset + t.offset)
  }

  /** The tensor is a scalar one whose data lies in the file. */
  predicate IsReadable(doc: Document, index: nat, hasFile: bool, fileSize: u64) {
    && index < |doc.tensors| && hasFile && doc.tensorDataOffset <= fileSize
    && var t := doc.tensors[index];
       && t.elementSize.Some? && t.elementSize.value > 0
       && PrefixesFit(t.dimensions) && PrefixesFit(Reverse(t.dimensions))
       && doc.tensorDataOffset + t.offset + Times(Product(t.dimensions), t.elementSize.value) <= fileSize
  }

  lemma {:induction false} ProductReversed(dims: seq<u64>)
    ensures Product(Reverse(dims)) == Product(dims)
  {
    if dims != [] {
      ProductReversed(dims[1..]);
      ProductSplit(Reverse(dims[1..]), [dims[0]]);
      ProductOfOne(dims[0]);
    }
  }

  /** A view is made exactly when the tensor is readable; its buffer lies inside the file. */
  method MakeArrayView(doc: Document, index: nat, hasFile: bool, fileSize: u64) returns (r: Option<FileView>)
    ensures r.Some? <==> IsReadable(doc, index, hasFile, fileSize)
    ensures r.Some? ==>
      && PrefixesFit(doc.tensors[index].dimensions)
      && r.value == ViewOf(doc, doc.tensors[index])
      && ViewIsValid(r.value.view)
      && r.value.start + r.value.view.size <= fileSize
  {
    if index >= |doc.tensors| || !hasFile || doc.tensorDataOffset > fileSize {
      return None;
    }
    var t := doc.tensors[index];
    if t.elementSize.None? {
      return None;
    }
    var count := CheckedElementCount(t.dimensions);
    if count.None? {
      return None;
    }
    assert t.dimensions[..|t.dimensions|] == t.dimensions;
    ProductReversed(t.dimensions);
    var bytes := CheckedTimes(count.value, t.elementSize.value);
    if bytes.None? {
      return None;
    }
    var room := fileSize - doc.tensorDataOffset;
    if t.offset > room || bytes.value > room - t.offset {
      return None;
    }
    var view := View(Descriptor(t.elementSize.value, count.value, Reverse(t.dimensions)), true, bytes.value);
    var valid := CheckView(view);
    if !valid {
      return None;
    }
    r := Some(FileView(view, doc.tensorDataOffset + t.offset));
  }

  /** The position of an index vector in the file's order, where dimension 0 varies fastest. */
  function FastestFirst(dims: seq<u64>, index: seq<u64>): nat
    requires |index| == |dims|
  {
    if dims == [] then 0 else index[0] + Times(dims[0], FastestFirst(dims[1..], index[1..]))
  }

  lemma {:induction false} LinearOfAppended(dims: seq<u64>, index: seq<u64>, d: u64, k: u64)
    requires |index| == |dims|
    ensures Linear(dims + [d], index + [k]) == Times(d, Linear(dims, index)) + k
  {
    if dims == [] {
      assert (dims + [d])[1..] == [] && Product([]) == 1;
    } else {
      var rest, tail := dims[1..], index[1..];
      assert (dims + [d])[1..] == rest + [d] && (index + [k])[1..] == tail + [k];
      LinearOfAppended(rest, tail, d, k);
      ProductSplit(rest, [d]);
      ProductOfOne(d);
      MulAssociative(index[0], Product(rest), d);
      TimesDistributes(d, index[0], Product(rest), Linear(rest, tail));
    }
  }

  lemma TimesDistributes(d: nat, a: nat, b: nat, c: nat)
    ensures Times(d, Times(a, b) + c) == Times(Times(a, b), d) + Times(d, c)
  {
    assert d * (a * b + c) == d * (a * b) + d * c;
  }

  /** The reversal makes the view's row-major order the order of the file. */
  lemma {:induction false} ReversedIsFastestFirst(dims: seq<u64>, index: seq<u64>)
    requires |index| == |dims|
    ensures Linear(Reverse(dims), Reverse(index)) == FastestFirst(dims, index)
  {
    if dims != [] {
      ReversedIsFastestFirst(dims[1..], index[1..]);
      LinearOfAppended(Reverse(dims[1..]), Reverse(index[1..]), dims[0], index[0]);
    }
  }

  /** The partial products of the reversed order matter for tensors with a zero dimension only. */
  lemma PrefixesReversed(dims: seq<u64>)
    requires PrefixesFit(dims) && Product(dims) > 0
    ensures PrefixesFit(Reverse(dims))
  {
    ProductReversed(dims);
    assert dims[..|dims|] == dims;
    PositiveMeansFit(Reverse(dims));
  }

  /** The tensor passes every check before the view is: its file is there, its element is scalar, its
      product and its size in bytes fit, and its data lies in the file. */
  predicate PassesFileChecks(doc: Document, index: nat, hasFile: bool, fileSize: u64) {
    && index < |doc.tensors| && hasFile && doc.tensorDataOffset <= fileSize
    && var t := doc.tensors[index];
       && t.elementSize.Some? && t.elementSize.value > 0 && PrefixesFit(t.dimensions)
       && doc.tensorDataOffset + t.offset + Times(Product(t.dimensions), t.elementSize.value) <= fileSize
  }

  /** Such a tensor is refused exactly when it is empty and its reversed dimensions overflow. */
  lemma RefusedByReversal(doc: Document, index: nat, hasFile: bool, fileSize: u64)
    requires PassesFileChecks(doc, index, hasFile, fileSize)
    ensures !IsReadable(doc, index, hasFile, fileSize)
            <==> Product(doc.tensors[index].dimensions) == 0 && !PrefixesFit(Reverse(doc.tensors[index].dimensions))
  {
    var dims := doc.tensors[index].dimensions;
    if Product(dims) > 0 {
      PrefixesReversed(dims);
    }
  }

  /** A tensor without elements that passes the checks of the file and gets no view: no dimension is
      too large for its place in the file, but the reversed order multiplies the large ones first. */
  method ReversalRefusesAnEmptyTensor(fileSize: u64) returns (doc: Document, r: Option<FileView>)
    ensures doc.tensors == [Tensor(Some(1), [0, 0x1_0000_0000, 0x1_0000_0000], 0)]
    ensures PassesFileChecks(doc, 0, true, fileSize) && r.None?
  {
    var t := Tensor(Some(1), [0, 0x1_0000_0000, 0x1_0000_0000], 0);
    doc := Document(0, [t]);
    EmptyDimensions();
    r := MakeArrayView(doc, 0, true, fileSize);
  }

  lemma EmptyDimensions()
    ensures var dims := [0, 0x1_0000_0000, 0x1_0000_0000];
            PrefixesFit(dims) && Product(dims) == 0 && !PrefixesFit(Reverse(dims))
  {
    var a: u64 := 0x1_0000_0000;
    var dims: seq<u64> := [0, a, a];
    forall k | 0 <= k <= |dims| ensures Product(dims[..k]) <= U64_MAX {
      if k > 0 {
        assert dims[..k][0] == 0;
        assert Product(dims[..k]) == 0 * Product(dims[..k][1..]);
      }
    }
    assert dims[..3] == dims;
    assert Reverse(dims) == [a, a, 0];
    var large := Reverse(dims)[..2];
    assert large == [a] + [a];
    ProductSplit([a], [a]);
    ProductOfOne(a);
    assert Product(large) > U64_MAX;
  }
}
