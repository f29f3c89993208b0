/** Two parts of the generated C++ codecs against the interpreters: bytes up to a terminator, and
    bits groups by shift and mask. */
module Generated {
  import opened Outcome
  import opened Bytes
  import opened Expr
  import opened Plan
  import opened Terminator
  import opened Decode
  import opened Encode
  import opened BitPacking

  // ----- getTerminatedBytes -----

  /** The loop: one byte at a time, and a look back after each. */
  method Scan(d: seq<byte>, start: nat, limit: nat, t: seq<byte>, most: nat) returns (ok: bool, out: seq<byte>, p: nat)
    requires t != [] && start <= limit <= |d|
    ensures var s := d[start..start + Min(most, limit - start)];
            match First(s, t)
            case None => !ok && p == start
            case Some(j) => ok && out == s[..j] && p == start + j + |t|
  {
    ghost var s := d[start..start + Min(most, limit - start)];
    p := start;
    out := [];
    var i := 0;
    while i < most && limit - p != 0
      invariant p == start + i && i <= |s| && out == s[..i] && NoneBefore(s, t, i)
    {
      out := out + [d[p]];
      p := p + 1;
      ScanStep(s, t, i);
      i := i + 1;
      assert out == s[..i];
      if EndsWith(out, t) {
        return true, out[..|out| - |t|], p;
      }
    }
    p := start;
    ok := false;
  }

  /** The generated scan looks back after each byte; the interpreter looks forward from each
      position. They find the same payload and stop at the same place. */
  method GetTerminatedBytes(x: Source, w: Window, at: Cursor, t: seq<byte>, max: u64) returns (ok: bool, out: seq<byte>, p: nat)
    requires at.pos <= w.limit <= |x.d|
    ensures ok <==> t != [] && max + |t| <= U64_MAX && ReadTerminatedBytes(x, w, t, max, at).Ok?
    ensures ok ==> ReadTerminatedBytes(x, w, t, max, at) == Ok(Item(Cursor(p, at.order), Blob(out)))
    ensures !ok ==> p == at.pos
  {
    if t == [] || max > U64_MAX - |t| {
      return false, [], at.pos;
    }
    ghost var s := ScanBytes(x, w, at, t, max);
    ok, out, p := Scan(x.d, at.pos, w.limit, t, max + |t|);
  }

  // ----- bits -----

  /** The fields of a container without padding, most significant first. */
  function FieldValues(fs: seq<BitsField>, container: nat): (vs: seq<nat>)
    ensures |vs| == |fs|
  {
    if fs == [] then [] else [BitsOf(container, TotalBits(fs[1..]), fs[0].bits)] + FieldValues(fs[1..], container)
  }

  /** The container that holds the low bits of the values. */
  function PackedValues(fs: seq<BitsField>, vs: seq<nat>): nat
    requires |vs| == |fs|
  {
    if fs == [] then 0
    else Shift(vs[0] % Pow2(fs[0].bits), TotalBits(fs[1..])) + PackedValues(fs[1..], vs[1..])
  }

  lemma {:induction false} OnlyTheirNames(x: Source, fs: seq<BitsField>, container: nat, env: Env, name: Name)
    requires TotalBits(fs) <= 64 && ReadBitsFields(x, fs, container, env).Ok?
    requires forall j :: 0 <= j < |fs| ==> fs[j].name != name
    ensures name !in ReadBitsFields(x, fs, container, env).value.1
  {
    if fs != [] {
      OnlyTheirNames(x, fs[1..], container, env[fs[0].symbol := U(BitsOf(container, TotalBits(fs[1..]), fs[0].bits))], name);
    }
  }

  /** The interpreter gives these values. Of fields with one name the last one counts. */
  lemma {:induction false} InterpreterReads(x: Source, fs: seq<BitsField>, container: nat, env: Env, i: nat)
    requires TotalBits(fs) <= 64 && ReadBitsFields(x, fs, container, env).Ok? && i < |fs|
    requires forall j :: i < j < |fs| ==> fs[j].name != fs[i].name
    ensures FieldValues(fs, container)[i] <= U64_MAX
    ensures fs[i].name in ReadBitsFields(x, fs, container, env).value.1
    ensures ReadBitsFields(x, fs, container, env).value.1[fs[i].name] == Num(U(FieldValues(fs, container)[i]))
  {
    var v := BitsOf(container, TotalBits(fs[1..]), fs[0].bits);
    var rest := env[fs[0].symbol := U(v)];
    if i > 0 {
      InterpreterReads(x, fs[1..], container, rest, i - 1);
    } else {
      OnlyTheirNames(x, fs[1..], container, rest, fs[0].name);
    }
  }

  /** The interpreter packs these values. */
  lemma {:induction false} InterpreterPacks(y: Sink, fs: seq<BitsField>, o: Fields, env: Env, vs: seq<nat>)
    requires TotalBits(fs) <= 64 && WriteBitsFields(y, fs, o, env).Ok? && |vs| == |fs|
    requires forall i :: 0 <= i < |fs| ==> fs[i].name in o && AsU64(o[fs[i].name]) == Some(vs[i])
    ensures WriteBitsFields(y, fs, o, env).value.0 == PackedValues(fs, vs)
  {
    if fs != [] {
      assert AsU64(o[fs[0].name]) == Some(vs[0]);
      forall i | 0 <= i < |fs| - 1 ensures fs[1..][i].name in o && AsU64(o[fs[1..][i].name]) == Some(vs[1..][i]) {
        assert fs[1..][i] == fs[i + 1];
      }
      InterpreterPacks(y, fs[1..], o, env[fs[0].symbol := U(vs[0])], vs[1..]);
      SmallMod(vs[0], Pow2(fs[0].bits));
    }
  }

  lemma {:induction false} TotalBitsSplit(a: seq<BitsField>, b: seq<BitsField>)
    ensures TotalBits(a + b) == TotalBits(a) + TotalBits(b)
  {
    if a == [] {
      assert a + b == b;
    } else {
      TotalBitsSplit(a[1..], b);
      assert (a + b)[1..] == a[1..] + b;
    }
  }

  lemma OneField(f: BitsField)
    ensures TotalBits([f]) == f.bits
  {
    assert [f][1..] == [];
    assert TotalBits([f]) == f.bits + TotalBits([f][1..]);
  }

  /** The bits before and after the field `i`. */
  lemma BitsAround(fs: seq<BitsField>, i: nat)
    requires i < |fs|
    ensures TotalBits(fs) == TotalBits(fs[..i]) + fs[i].bits + TotalBits(fs[i + 1..])
    ensures TotalBits(fs[..i + 1]) == TotalBits(fs[..i]) + fs[i].bits
  {
    TotalBitsSplit(fs[..i], [fs[i]]);
    TotalBitsSplit(fs[..i + 1], fs[i + 1..]);
    assert fs[..i + 1] == fs[..i] + [fs[i]] && fs == fs[..i + 1] + fs[i + 1..];
    OneField(fs[i]);
  }

  /** Shifting the padding away with the fields below is the same as shifting it away first. */
  lemma ShiftOfRaw(raw: nat, padding: nat, below: nat, width: nat)
    ensures BitsOf(raw, padding + below, width) == BitsOf(Unpadded(raw, padding), below, width)
  {
    Pow2Add(padding, below);
    DivDiv(raw, Pow2(padding), Pow2(below));
  }

  lemma {:induction false} FieldValuesFrom(fs: seq<BitsField>, container: nat, i: nat)
    requires i <= |fs|
    ensures FieldValues(fs, container)[i..] == FieldValues(fs[i..], container)
    decreases i
  {
    if i > 0 {
      FieldValuesFrom(fs[1..], container, i - 1);
      assert fs[1..][i - 1..] == fs[i..];
      assert FieldValues(fs, container)[i..] == FieldValues(fs[1..], container)[i - 1..];
    }
  }

  /** The decoding that `emitBitsDecode` generates: each field is shifted and masked out of the
      raw storage, padding and all. */
  method GeneratedDecode(g: BitsGroup, raw: nat) returns (vs: seq<nat>)
    ensures vs == FieldValues(g, Unpadded(raw, PaddingBits(g)))
  {
    var storage := 8 * StorageBytes(g);
    var cursor := 0;
    ghost var container := Unpadded(raw, PaddingBits(g));
    vs := [];
    for i := 0 to |g|
      invariant cursor == TotalBits(g[..i]) && vs == FieldValues(g, container)[..i]
    {
      BitsAround(g, i);
      var shift := storage - cursor - g[i].bits;
      ShiftOfRaw(raw, PaddingBits(g), TotalBits(g[i + 1..]), g[i].bits);
      FieldValuesFrom(g, container, i);
      assert FieldValues(g, container)[i] == FieldValues(g[i..], container)[0];
      assert g[i..][1..] == g[i + 1..];
      vs := vs + [BitsOf(raw, shift, g[i].bits)];
      cursor := cursor + g[i].bits;
    }
  }

  lemma FirstPart(fs: seq<BitsField>, vs: seq<nat>, padding: nat)
    requires |vs| == |fs| && fs != []
    ensures Shift(PackedValues(fs, vs), padding)
              == Shift(vs[0] % Pow2(fs[0].bits), TotalBits(fs[1..]) + padding) + Shift(PackedValues(fs[1..], vs[1..]), padding)
  {
    var low := vs[0] % Pow2(fs[0].bits);
    ShiftSum(Shift(low, TotalBits(fs[1..])), PackedValues(fs[1..], vs[1..]), padding);
    ShiftTwice(low, TotalBits(fs[1..]), padding);
  }

  /** The encoding that `emitBitsEncode` generates. The parts do not overlap, so `|=` adds. */
  method GeneratedEncode(g: BitsGroup, vs: seq<nat>) returns (raw: nat)
    requires |vs| == |g|
    ensures raw == Padded(PackedValues(g, vs), PaddingBits(g))
  {
    var storage := 8 * StorageBytes(g);
    var cursor := 0;
    raw := 0;
    assert g[0..] == g && vs[0..] == vs;
    for i := 0 to |g|
      invariant cursor == TotalBits(g[..i])
      invariant raw + Shift(PackedValues(g[i..], vs[i..]), PaddingBits(g)) == Shift(PackedValues(g, vs), PaddingBits(g))
    {
      BitsAround(g, i);
      var shift := storage - cursor - g[i].bits;
      var low := vs[i] % Pow2(g[i].bits);
      assert g[i..][1..] == g[i + 1..] && vs[i..][1..] == vs[i + 1..];
      FirstPart(g[i..], vs[i..], PaddingBits(g));
      assert shift == TotalBits(g[i + 1..]) + PaddingBits(g);
      raw := raw + Shift(low, shift);
      cursor := cursor + g[i].bits;
    }
    assert g[|g|..] == [];
    ShiftIsProduct(0, PaddingBits(g));
  }

  lemma {:induction false} PackedValuesBound(fs: seq<BitsField>, vs: seq<nat>)
    requires |vs| == |fs|
    ensures PackedValues(fs, vs) < Pow2(TotalBits(fs))
  {
    if fs != [] {
      PackedValuesBound(fs[1..], vs[1..]);
      Pow2Add(fs[0].bits, TotalBits(fs[1..]));
      ShiftIsProduct(vs[0] % Pow2(fs[0].bits), TotalBits(fs[1..]));
      Scaled(vs[0] % Pow2(fs[0].bits), Pow2(TotalBits(fs[1..])), Pow2(fs[0].bits));
    }
  }

  /** The low bits of a container decide its last fields. */
  lemma {:induction false} LowBitsDecide(fs: seq<BitsField>, container: nat, other: nat)
    requires container % Pow2(TotalBits(fs)) == other % Pow2(TotalBits(fs))
    ensures FieldValues(fs, container) == FieldValues(fs, other)
  {
    if fs != [] {
      var w, r := fs[0].bits, TotalBits(fs[1..]);
      FieldOfContainer(container, w, r);
      FieldOfContainer(other, w, r);
      SplitUnique(BitsOf(container, r, w), BitsOf(other, r, w), Pow2(r), container % Pow2(r), other % Pow2(r));
      LowBitsDecide(fs[1..], container, other);
    }
  }

  /** Packing and then extracting gives the low bits of every value: for values in range, the
      values. */
  lemma {:induction false} ExtractPacked(fs: seq<BitsField>, vs: seq<nat>)
    requires |vs| == |fs|
    ensures FieldValues(fs, PackedValues(fs, vs)) == seq(|fs|, i requires 0 <= i < |fs| => vs[i] % Pow2(fs[i].bits))
  {
    if fs != [] {
      var w, r := fs[0].bits, TotalBits(fs[1..]);
      var k := PackedValues(fs, vs);
      var tail := PackedValues(fs[1..], vs[1..]);
      var low := vs[0] % Pow2(w);
      PackedValuesBound(fs, vs);
      PackedValuesBound(fs[1..], vs[1..]);
      FieldOfContainer(k, w, r);
      ShiftIsProduct(low, r);
      SmallMod(k, Pow2(w + r));
      SplitUnique(BitsOf(k, r, w), low, Pow2(r), k % Pow2(r), tail);
      SmallMod(tail, Pow2(r));
      LowBitsDecide(fs[1..], k, tail);
      ExtractPacked(fs[1..], vs[1..]);
    }
  }
}
