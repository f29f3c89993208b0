/** Bytes, machine integers and the packing of an integer into bytes. */
module Bytes {
  const U64_MAX: int := 0xFFFF_FFFF_FFFF_FFFF
  const I64_MAX: int := 0x7FFF_FFFF_FFFF_FFFF
  const I64_MIN: int := -0x8000_0000_0000_0000
  const TWO_64: int := 0x1_0000_0000_0000_0000

  type byte = x: int | 0 <= x < 256
  type u64 = x: int | 0 <= x <= U64_MAX
  type i64 = x: int | I64_MIN <= x <= I64_MAX

  /** The byte order in force. `Native` is the order of the host, so it is one of these two. */
  datatype Order = Little | Big

  function Pow2(n: nat): (p: nat)
    ensures p > 0
  {
    if n == 0 then 1 else 2 * Pow2(n - 1)
  }

  lemma {:induction false} Pow2Add(a: nat, b: nat)
    ensures Pow2(a + b) == Pow2(a) * Pow2(b)
  {
    if a == 0 {
    } else {
      Pow2Add(a - 1, b);
      assert Pow2(a + b) == 2 * Pow2(a + b - 1);
      assert 2 * (Pow2(a - 1) * Pow2(b)) == (2 * Pow2(a - 1)) * Pow2(b);
    }
  }

  lemma {:induction false} Pow2Monotone(a: nat, b: nat)
    requires a <= b
    ensures Pow2(a) <= Pow2(b)
    decreases b - a
  {
    if a < b {
      Pow2Monotone(a + 1, b);
    }
  }

  /** `v << n` */
  function Shift(v: nat, n: nat): nat {
    if n == 0 then v else 2 * Shift(v, n - 1)
  }

  lemma {:induction false} ShiftIsProduct(v: nat, n: nat)
    ensures Shift(v, n) == v * Pow2(n)
  {
    if n == 0 {
    } else {
      ShiftIsProduct(v, n - 1);
      assert 2 * (v * Pow2(n - 1)) == v * (2 * Pow2(n - 1));
    }
  }

  lemma {:induction false} ShiftSum(a: nat, b: nat, n: nat)
    ensures Shift(a + b, n) == Shift(a, n) + Shift(b, n)
  {
    if n > 0 {
      ShiftSum(a, b, n - 1);
    }
  }

  lemma {:induction false} ShiftTwice(v: nat, n: nat, m: nat)
    ensures Shift(Shift(v, n), m) == Shift(v, n + m)
  {
    if m > 0 {
      ShiftTwice(v, n, m - 1);
    }
  }

  lemma Pow2At64()
    ensures Pow2(64) == TWO_64
  {
    assert Pow2(8) == 256;
    Pow2Add(8, 8);
    Pow2Add(16, 16);
    Pow2Add(32, 32);
  }

  /** (x / a) / b == x / (a * b). */
  lemma DivDiv(x: int, a: int, b: int)
    requires x >= 0 && a > 0 && b > 0
    ensures a * b > 0 && (x / a) / b == x / (a * b)
  {
    assert a * b > 0;
    var q := x / a;
    var r := x % a;
    var p := q / b;
    var s := q % b;
    assert x == a * q + r;
    assert q == b * p + s;
    assert a * q == a * (b * p) + a * s;
    assert a * (b * p) == (a * b) * p;
    assert a * s <= a * (b - 1) by {
      assert s <= b - 1;
      MulMonotone(a, s, b - 1);
    }
    assert a * (b - 1) == a * b - a;
    assert 0 <= a * s by { MulMonotone(a, 0, s); }
    DivUnique(x, a * b, p, a * s + r);
  }

  lemma MulMonotone(k: int, x: int, y: int)
    requires k >= 0 && x <= y
    ensures k * x <= k * y
  {
    assert k * y - k * x == k * (y - x);
  }

  /** The product of two naturals. */
  function Times(a: nat, b: nat): nat {
    MulMonotone(a, 0, b);
    a * b
  }

  lemma DivUnique(x: int, d: int, q: int, r: int)
    requires d > 0 && 0 <= r < d && x == d * q + r
    ensures x / d == q && x % d == r
  {
    var q' := x / d;
    var r' := x % d;
    assert d * q' + r' == d * q + r;
    assert d * (q' + 1) == d * q' + d;
    assert d * (q + 1) == d * q + d;
    if q' < q {
      MulMonotone(d, q' + 1, q);
    } else if q < q' {
      MulMonotone(d, q + 1, q');
    }
  }

  // ----- packing, least significant byte first -----

  function LittleBytes(v: nat, n: nat): (b: seq<byte>)
    ensures |b| == n
  {
    if n == 0 then [] else [v % 256] + LittleBytes(v / 256, n - 1)
  }

  function LittleValue(b: seq<byte>): (v: nat)
  {
    if b == [] then 0 else b[0] + 256 * LittleValue(b[1..])
  }

  /** The value of `n` bytes is below 256^n, written as a power of two. */
  lemma {:induction false} LittleValueBound(b: seq<byte>)
    ensures LittleValue(b) < Pow2(8 * |b|)
  {
    if b != [] {
      LittleValueBound(b[1..]);
      Pow2Add(8, 8 * |b[1..]|);
      assert Pow2(8) == 256;
    }
  }

  lemma {:induction false} LittleBytesValue(v: nat, n: nat)
    ensures LittleValue(LittleBytes(v, n)) == v % Pow2(8 * n)
  {
    if n == 0 {
    } else {
      LittleBytesValue(v / 256, n - 1);
      var m := Pow2(8 * (n - 1));
      Pow2Add(8, 8 * (n - 1));
      assert Pow2(8) == 256 && Pow2(8 * n) == 256 * m;
      assert LittleBytes(v, n)[1..] == LittleBytes(v / 256, n - 1);
      ModProduct(v, 256, m);
    }
  }

  /** The remainder by a product, digit by digit. */
  lemma ModProduct(c: nat, m: nat, k: nat)
    requires m > 0 && k > 0
    ensures m * k > 0 && c % (m * k) == c % m + m * ((c / m) % k)
  {
    var q := c / m;
    var s := c % m;
    var p := q / k;
    var u := q % k;
    assert m * k > 0 by { MulMonotone(m, 1, k); }
    assert c == (m * k) * p + (m * u + s) by {
      assert q == k * p + u;
      assert m * (k * p + u) == m * (k * p) + m * u;
      MulAssociative(m, k, p);
    }
    MulMonotone(m, u, k - 1);
    MulMonotone(m, 0, u);
    assert m * (k - 1) == m * k - m;
    DivUnique(c, m * k, p, m * u + s);
  }

  /** The remainder by a divisor does not change under the remainder by a multiple of it. */
  lemma ModOfMod(i: int, m: nat, k: nat)
    requires m > 0 && k > 0
    ensures m * k > 0 && (i % (m * k)) % m == i % m
  {
    assert m * k > 0 by { MulMonotone(m, 1, k); }
    var q := i / (m * k);
    MulAssociative(m, k, q);
    assert m * (i / m - k * q) == m * (i / m) - m * (k * q);
    DivUnique(i % (m * k), m, i / m - k * q, i % m);
  }

  /** The low part of a two's complement number. */
  lemma LowPart(i: int, m: nat, k: nat)
    requires m > 0 && k > 0 && 0 <= i + m && i < m
    ensures m * k > 0 && (i % (m * k)) % m == if i >= 0 then i else i + m
  {
    ModOfMod(i, m, k);
    if i >= 0 {
      DivUnique(i, m, 0, i);
    } else {
      DivUnique(i, m, -1, i + m);
    }
  }

  lemma MulAssociative(a: int, b: int, c: int)
    ensures a * (b * c) == (a * b) * c
  {
  }

  /** A scaled value keeps its bound, and scaling is undone by division. */
  lemma Scaled(k: nat, unit: nat, t: nat)
    requires unit > 0 && k < t
    ensures 0 <= k * unit < t * unit && k * unit <= t * unit - unit && (k * unit) / unit == k
  {
    MulMonotone(unit, k, t - 1);
    MulMonotone(unit, 0, k);
    assert unit * k == k * unit && unit * (t - 1) == t * unit - unit;
    DivUnique(k * unit, unit, k, 0);
  }

  lemma {:induction false} LittleValueBytes(b: seq<byte>)
    ensures LittleBytes(LittleValue(b), |b|) == b
  {
    if b != [] {
      LittleValueBytes(b[1..]);
      var v := LittleValue(b);
      DivUnique(v, 256, LittleValue(b[1..]), b[0]);
    }
  }

  // ----- either order -----

  function Reverse<T>(s: seq<T>): (r: seq<T>)
    ensures |r| == |s|
    ensures forall i :: 0 <= i < |s| ==> r[i] == s[|s| - 1 - i]
  {
    if s == [] then [] else Reverse(s[1..]) + [s[0]]
  }

  lemma ReverseTwice<T>(s: seq<T>)
    ensures Reverse(Reverse(s)) == s
  {
  }

  /** The `n` low bytes of `v` in the given order. */
  function Pack(v: nat, n: nat, order: Order): (b: seq<byte>)
    ensures |b| == n
  {
    if order == Little then LittleBytes(v, n) else Reverse(LittleBytes(v, n))
  }

  function Unpack(b: seq<byte>, order: Order): (v: nat)
  {
    if order == Little then LittleValue(b) else LittleValue(Reverse(b))
  }

  lemma UnpackBound(b: seq<byte>, order: Order)
    ensures Unpack(b, order) < Pow2(8 * |b|)
    ensures |b| <= 8 ==> Unpack(b, order) <= U64_MAX
  {
    LittleValueBound(b);
    LittleValueBound(Reverse(b));
    if |b| <= 8 {
      Pow2Monotone(8 * |b|, 64);
      Pow2At64();
    }
  }

  /** Reading back what was packed gives the value cut to the packed width. */
  lemma UnpackPack(v: nat, n: nat, order: Order)
    ensures Unpack(Pack(v, n, order), order) == v % Pow2(8 * n)
  {
    LittleBytesValue(v, n);
    ReverseTwice(LittleBytes(v, n));
  }

  lemma PackUnpack(b: seq<byte>, order: Order)
    ensures Pack(Unpack(b, order), |b|, order) == b
  {
    LittleValueBytes(b);
    LittleValueBytes(Reverse(b));
    ReverseTwice(b);
  }

  lemma OneByte(b: seq<byte>, order: Order)
    requires |b| == 1
    ensures Unpack(b, order) == b[0]
  {
    OneByteOrder(b, order, Little);
    assert LittleValue(b[1..]) == 0;
    assert LittleValue(b) == b[0] + 256 * LittleValue(b[1..]);
  }

  /** One byte has no order. */
  lemma OneByteOrder(b: seq<byte>, o: Order, o': Order)
    requires |b| <= 1
    ensures Unpack(b, o) == Unpack(b, o')
  {
    assert Reverse(b) == b;
  }
}
