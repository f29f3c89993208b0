/** Bit groups: what `Writer::bit` packs, `Reader::bits` unpacks. */
module BitPacking {
  import opened Outcome
  import opened Bytes
  import opened Expr
  import opened Plan
  import opened Decode
  import opened Encode

  /** A field of `w` bits above `r` bits is read by a shift and a mask. */
  lemma FieldOfContainer(c: nat, w: nat, r: nat)
    ensures c % Pow2(w + r) == BitsOf(c, r, w) * Pow2(r) + c % Pow2(r)
  {
    Pow2Add(r, w);
    ModProduct(c, Pow2(r), Pow2(w));
  }

  /** A quotient and a remainder below the divisor are determined by the number. */
  lemma SplitUnique(u: nat, v: nat, m: nat, k: nat, l: nat)
    requires k < m && l < m && u * m + k == v * m + l
    ensures u == v && k == l
  {
    assert u * m == m * u && v * m == m * v;
    DivUnique(u * m + k, m, u, k);
    DivUnique(v * m + l, m, v, l);
  }

  /** Encoded fields come back from any container with the same low bits. */
  lemma {:induction false} BitsFieldsReadBack(y: Sink, x: Source, fs: seq<BitsField>, o: Fields, env: Env, container: nat)
    requires TotalBits(fs) <= 64 && !x.strict
    requires WriteBitsFields(y, fs, o, env).Ok?
    requires container % Pow2(TotalBits(fs)) == WriteBitsFields(y, fs, o, env).value.0
    ensures var (_, env', fields) := WriteBitsFields(y, fs, o, env).value;
            ReadBitsFields(x, fs, container, env) == Ok((env', fields))
  {
    if fs != [] {
      var f := fs[0];
      var r := TotalBits(fs[1..]);
      var u := AsU64(o[f.name]).value;
      var next := env[f.symbol := U(u)];
      var k := WriteBitsFields(y, fs[1..], o, next).value.0;
      FieldOfContainer(container, f.bits, r);
      PackedBound(y, fs[1..], o, next);
      ShiftIsProduct(u, r);
      SplitUnique(BitsOf(container, r, f.bits), u, Pow2(r), container % Pow2(r), k);
      BitsFieldsReadBack(y, x, fs[1..], o, next, container);
    }
  }

  lemma {:induction false} PackedBound(y: Sink, fs: seq<BitsField>, o: Fields, env: Env)
    requires TotalBits(fs) <= 64
    requires WriteBitsFields(y, fs, o, env).Ok?
    ensures WriteBitsFields(y, fs, o, env).value.0 < Pow2(TotalBits(fs))
  {
    if fs != [] {
      var f := fs[0];
      var r := TotalBits(fs[1..]);
      var u := AsU64(o[f.name]).value;
      PackedBound(y, fs[1..], o, env[f.symbol := U(u)]);
      Pow2Add(f.bits, r);
      ShiftIsProduct(u, r);
      Scaled(u, Pow2(r), Pow2(f.bits));
    }
  }

  /** One field and the low bits below it. */
  lemma FieldOnTop(container: nat, width: nat, r: nat)
    requires width + r <= 64
    ensures var v := BitsOf(container, r, width);
            v < Pow2(width) && Shift(v, r) + container % Pow2(r) == container % Pow2(width + r)
  {
    FieldOfContainer(container, width, r);
    ShiftIsProduct(BitsOf(container, r, width), r);
  }

  /** Decoded fields pack to the low bits of the container that they came from. */
  lemma {:induction false} BitsFieldsRewrite(x: Source, y: Sink, fs: seq<BitsField>, container: nat, env: Env, o: Fields)
    requires TotalBits(fs) <= 64 && x.strict && !y.strict
    requires ReadBitsFields(x, fs, container, env).Ok?
    requires forall n :: n in ReadBitsFields(x, fs, container, env).value.1 ==>
               n in o && o[n] == ReadBitsFields(x, fs, container, env).value.1[n]
    ensures var (env', fields) := ReadBitsFields(x, fs, container, env).value;
            WriteBitsFields(y, fs, o, env) == Ok((container % Pow2(TotalBits(fs)), env', fields))
  {
    if fs == [] {
      assert Pow2(TotalBits(fs)) == 1;
    } else {
      hide Pow2, Shift, BitsOf;
      var f := fs[0];
      var r := TotalBits(fs[1..]);
      var v := BitsOf(container, r, f.bits);
      FieldOnTop(container, f.bits, r);
      BitsFieldsRewrite(x, y, fs[1..], container, env[f.symbol := U(v)], o);
      assert o[f.name] == Num(U(v));
    }
  }

  /** A container with its padding, packed and unpacked, is the container again. */
  lemma ContainerThroughBytes(k: nat, g: BitsGroup, order: Order)
    requires k < Pow2(TotalBits(g))
    ensures Unpadded(Unpack(Pack(Padded(k, PaddingBits(g)), StorageBytes(g), order), order), PaddingBits(g)) == k
  {
    var unit := Pow2(PaddingBits(g));
    ShiftIsProduct(k, PaddingBits(g));
    Pow2Add(TotalBits(g), PaddingBits(g));
    UnpackPack(k * unit, StorageBytes(g), order);
    Scaled(k, unit, Pow2(TotalBits(g)));
    SmallMod(k * unit, Pow2(8 * StorageBytes(g)));
  }

  /** One byte has no order, so it may be unpacked in another one. */
  lemma ContainerReadBack(k: nat, g: BitsGroup, order: Order, order': Order)
    requires k < Pow2(TotalBits(g)) && (order == order' || StorageBytes(g) == 1)
    ensures Unpadded(Unpack(Pack(Padded(k, PaddingBits(g)), StorageBytes(g), order), order'), PaddingBits(g)) == k
  {
    ContainerThroughBytes(k, g, order);
    if StorageBytes(g) == 1 {
      OneByteOrder(Pack(Padded(k, PaddingBits(g)), StorageBytes(g), order), order, order');
    }
  }

  /** Encoded fields come back from their own container. */
  lemma GroupReadBack(y: Sink, x: Source, g: BitsGroup, o: Fields, env: Env, order: Order, order': Order)
    requires !x.strict && WriteBitsFields(y, g, o, env).Ok? && (order == order' || StorageBytes(g) == 1)
    ensures var (k, env', fields) := WriteBitsFields(y, g, o, env).value;
            var raw := Unpack(Pack(Padded(k, PaddingBits(g)), StorageBytes(g), order), order');
            ReadBitsFields(x, g, Unpadded(raw, PaddingBits(g)), env) == Ok((env', fields))
  {
    var k := WriteBitsFields(y, g, o, env).value.0;
    PackedBound(y, g, o, env);
    ContainerReadBack(k, g, order, order');
    SmallMod(k, Pow2(TotalBits(g)));
    BitsFieldsReadBack(y, x, g, o, env, k);
  }

  lemma SmallMod(v: nat, m: nat)
    requires v < m
    ensures v % m == v
  {
  }
}
