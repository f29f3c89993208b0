/** The writer: an output with a position in it, a stack of limits, a byte order and a bit
    container. */
module Writer {
  import opened Outcome
  import opened Bytes
  import opened Plan
  import opened Decode
  import opened Encode

  /** The i-th byte from the low end. */
  function ByteOf(v: nat, i: nat): byte {
    (v / Pow2(8 * i)) % 256
  }

  lemma {:induction false} LittleByteAt(v: nat, n: nat, i: nat)
    requires i < n
    ensures LittleBytes(v, n)[i] == ByteOf(v, i)
    decreases i
  {
    if i == 0 {
      assert Pow2(0) == 1;
    } else {
      LittleByteAt(v / 256, n - 1, i - 1);
      Pow2Add(8, 8 * (i - 1));
      assert Pow2(8) == 256;
      DivDiv(v, 256, Pow2(8 * (i - 1)));
    }
  }

  /** The output with the bytes of `b` in their place. */
  lemma OverlayIs(d: seq<byte>, p: nat, b: seq<byte>, d': seq<byte>)
    requires p <= |d| && |d'| == |Overlay(d, p, b)|
    requires forall j :: 0 <= j < |b| ==> d'[p + j] == b[j]
    requires forall j :: 0 <= j < |d'| && !(p <= j < p + |b|) ==> j < |d| && d'[j] == d[j]
    ensures d' == Overlay(d, p, b)
  {
    var o := Overlay(d, p, b);
    forall j | 0 <= j < |o| ensures d'[j] == o[j] {
      if p <= j < p + |b| {
        assert d'[p + (j - p)] == b[j - p];
      }
    }
  }

  class Writer {
    var d: seq<byte>
    var p: nat
    var order: Order
    var limit: nat
    var limits: seq<nat>
    var bits: nat
    var bitCount: nat
    var bitTotal: nat

    ghost predicate Valid()
      reads this
    {
      p <= |d| && p <= limit <= U64_MAX && bitCount <= bitTotal <= 64
    }

    ghost function Here(): Pen
      requires Valid()
      reads this
    {
      Ink(d, p, order)
    }

    constructor ()
      ensures Valid() && Here() == Ink([], 0, Little) && limit == U64_MAX && limits == [] && bitTotal == 0
    {
      d := [];
      p := 0;
      order := Little;
      limit := U64_MAX;
      limits := [];
      bits, bitCount, bitTotal := 0, 0, 0;
    }

    method SetOrder(o: Order)
      requires Valid()
      modifies this`order
      ensures Valid() && Here() == old(Here()).(order := o)
    {
      order := o;
    }

    /** `resize(n, 0)` */
    method Grow(n: nat)
      requires Valid()
      modifies this`d
      ensures Valid() && d == if n > |old(d)| then old(d) + Zeros(n - |old(d)|) else old(d)
    {
      if n > |d| {
        d := d + Zeros(n - |d|);
      }
    }

    method Seek(q: nat) returns (ok: bool)
      requires Valid()
      modifies this`d, this`p
      ensures Valid() && ok == (q <= limit)
      ensures ok ==> p == q && d == if q > |old(d)| then old(d) + Zeros(q - |old(d)|) else old(d)
    {
      ok := q <= limit;
      if ok {
        Grow(q);
        p := q;
      }
    }

    /** The bytes at the position are replaced, and the output grows where they do not fit. */
    method PutBytes(b: seq<byte>) returns (ok: bool)
      requires Valid()
      modifies this`d, this`p
      ensures Valid() && ok == (old(p) + |b| <= limit)
      ensures forall zone :: ok ==> Put(Room(limit, zone), old(Here()), b) == Ok(Here())
    {
      ok := |b| <= limit - p;
      if ok {
        d := Overlay(d, p, b);
        p := p + |b|;
      }
    }

    method WriteZeros(n: nat) returns (ok: bool)
      requires Valid()
      modifies this`d, this`p
      ensures Valid() && ok == (old(p) + n <= limit)
      ensures forall zone :: ok ==> PutZeros(Room(limit, zone), old(Here()), n) == Ok(Here())
    {
      ok := n <= limit - p;
      if ok {
        if |d| < p + n {
          Grow(p + n);
        } else {
          d := Overlay(d, p, Zeros(n));
        }
        p := p + n;
      }
    }

    method Align(a: nat) returns (ok: bool)
      requires Valid()
      modifies this`d, this`p
      ensures Valid() && ok == (a > 0 && AlignUp(old(p), a) <= limit)
      ensures forall zone :: ok ==> PutZeros(Room(limit, zone), old(Here()), AlignUp(old(p), a) - old(p)) == Ok(Here())
    {
      if a == 0 {
        return false;
      }
      var rem := p % a;
      ok := WriteZeros(if rem == 0 then 0 else a - rem);
    }

    /** The byte loops of `uint` and `endBits`. */
    method Scatter(v: nat, n: nat)
      requires Valid() && p + n <= limit
      modifies this`d, this`p
      ensures Valid() && d == Overlay(old(d), old(p), Pack(v, n, order)) && p == old(p) + n
    {
      ghost var was := d;
      Grow(p + n);
      if order == Little {
        ScatterUp(v, n);
      } else {
        ScatterDown(v, n);
      }
      OverlayIs(was, p, Pack(v, n, order), d);
      p := p + n;
    }

    method ScatterUp(v: nat, n: nat)
      requires Valid() && p + n <= |d|
      modifies this`d
      ensures |d| == |old(d)| && forall j :: 0 <= j < |d| && !(p <= j < p + n) ==> d[j] == old(d)[j]
      ensures forall j :: 0 <= j < n ==> d[p + j] == LittleBytes(v, n)[j]
    {
      ghost var low := LittleBytes(v, n);
      for i := 0 to n
        invariant |d| == |old(d)| && forall j :: 0 <= j < |d| && !(p <= j < p + n) ==> d[j] == old(d)[j]
        invariant forall j :: 0 <= j < i ==> d[p + j] == low[j]
      {
        var b := LowByte(v, n, i);
        d := d[p + i := b];
      }
    }

    method ScatterDown(v: nat, n: nat)
      requires Valid() && p + n <= |d|
      modifies this`d
      ensures |d| == |old(d)| && forall j :: 0 <= j < |d| && !(p <= j < p + n) ==> d[j] == old(d)[j]
      ensures forall j :: 0 <= j < n ==> d[p + j] == Reverse(LittleBytes(v, n))[j]
    {
      ghost var high := Reverse(LittleBytes(v, n));
      for i := 0 to n
        invariant |d| == |old(d)| && forall j :: 0 <= j < |d| && !(p <= j < p + n) ==> d[j] == old(d)[j]
        invariant forall j :: n - i <= j < n ==> d[p + j] == high[j]
      {
        var b := LowByte(v, n, i);
        d := d[p + n - 1 - i := b];
      }
    }

    /** A shift and a cast to a byte. */
    method LowByte(v: nat, n: nat, i: nat) returns (b: byte)
      requires i < n
      ensures b == LittleBytes(v, n)[i]
    {
      LittleByteAt(v, n, i);
      b := ByteOf(v, i);
    }

    method UInt(v: nat, n: nat) returns (ok: bool)
      requires Valid() && 1 <= n <= 8
      modifies this`d, this`p
      ensures Valid() && ok == (old(p) + n <= limit)
      ensures forall zone :: ok ==> Put(Room(limit, zone), old(Here()), Pack(v, n, order)) == Ok(Here())
    {
      if n > limit - p {
        return false;
      }
      Scatter(v, n);
      ok := true;
    }

    method BeginBits(total: nat) returns (ok: bool)
      requires Valid()
      modifies this`bits, this`bitCount, this`bitTotal
      ensures Valid() && ok == (old(bitCount) == 0 && 1 <= total <= 64)
      ensures ok ==> bitTotal == total && bitCount == 0 && bits == 0
    {
      if bitCount != 0 || total == 0 || total > 64 {
        return false;
      }
      bitTotal, bitCount, bits := total, 0, 0;
      ok := true;
    }

    /** An `or` into free bits is a sum. */
    method Bit(v: nat, width: nat) returns (ok: bool)
      requires Valid()
      modifies this`bits, this`bitCount
      ensures Valid() && ok == (bitTotal != 0 && 1 <= width <= bitTotal - old(bitCount) && (width < 64 ==> v < Pow2(width)))
      ensures ok ==> bitCount == old(bitCount) + width && bits == old(bits) + Shift(v, bitTotal - bitCount)
    {
      if bitTotal == 0 || width == 0 || width > bitTotal - bitCount {
        return false;
      }
      if width < 64 && v >= Pow2(width) {
        return false;
      }
      var shift := bitTotal - bitCount - width;
      bits := bits + Shift(v, shift);
      bitCount := bitCount + width;
      ok := true;
    }

    method EndBits() returns (ok: bool)
      requires Valid()
      modifies this`d, this`p, this`bits, this`bitCount, this`bitTotal
      ensures Valid()
      ensures var n := (old(bitTotal) + 7) / 8;
              && ok == (old(bitTotal) != 0 && old(bitCount) == old(bitTotal) && old(p) + n <= limit)
              && (forall zone :: ok ==> Put(Room(limit, zone), old(Here()), Pack(Padded(old(bits), 8 * n - old(bitTotal)), n, order)) == Ok(Here()))
      ensures ok ==> bitTotal == bitCount == 0
    {
      if bitTotal == 0 || bitCount != bitTotal {
        return false;
      }
      var n := (bitTotal + 7) / 8;
      var x := Padded(bits, 8 * n - bitTotal);
      if n > limit - p {
        return false;
      }
      Scatter(x, n);
      bitTotal, bitCount, bits := 0, 0, 0;
      ok := true;
    }

    method PushLimit(n: nat) returns (ok: bool)
      requires Valid()
      modifies this`limit, this`limits
      ensures Valid() && ok == (n <= old(limit) - p)
      ensures ok ==> limit == p + n && limits == old(limits) + [old(limit)]
      ensures !ok ==> limit == old(limit) && limits == old(limits)
    {
      ok := n <= limit - p;
      if ok {
        limits := limits + [limit];
        limit := p + n;
      }
    }

    method PopLimit() returns (ok: bool)
      requires Valid() && (limits != [] ==> limit <= limits[|limits| - 1] <= U64_MAX)
      modifies this`limit, this`limits
      ensures Valid() && ok == (old(limits) != [])
      ensures ok ==> limit == old(limits)[|old(limits)| - 1] && limits == old(limits)[..|old(limits)| - 1]
    {
      ok := limits != [];
      if ok {
        limit := limits[|limits| - 1];
        limits := limits[..|limits| - 1];
      }
    }
  }
}
