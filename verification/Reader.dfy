/** The reader: a position in the input, a stack of limits, a byte order and a bit container. */
module Reader {
  import opened Outcome
  import opened Bytes
  import opened Plan
  import opened Decode

  /** Appending a byte to a value that is built least significant byte first. */
  lemma {:induction false} LittleAppend(b: seq<byte>, last: byte)
    ensures LittleValue(b + [last]) == LittleValue(b) + last * Pow2(8 * |b|)
  {
    if b == [] {
      assert b + [last] == [last];
      assert LittleValue([last]) == last + 256 * LittleValue([]);
    } else {
      LittleAppend(b[1..], last);
      assert (b + [last])[1..] == b[1..] + [last];
      Pow2Add(8, 8 * |b[1..]|);
      assert Pow2(8) == 256;
      var m := Pow2(8 * |b[1..]|);
      assert 256 * (last * m) == last * (256 * m);
    }
  }

  /** Appending a byte to a value that is built most significant byte first. */
  lemma BigAppend(b: seq<byte>, last: byte)
    ensures Unpack(b + [last], Big) == Unpack(b, Big) * 256 + last
  {
    assert Reverse(b + [last]) == [last] + Reverse(b);
    assert ([last] + Reverse(b))[1..] == Reverse(b);
  }

  /** A saved reader. */
  datatype Snapshot = Snapshot(p: nat, limit: nat, order: Order, limits: seq<nat>, container: nat, bitsLeft: nat)

  /** position <= limit <= every enclosing limit <= input size, the outermost equal to it. */
  ghost predicate Nested(size: nat, p: nat, limit: nat, limits: seq<nat>) {
    && p <= limit <= size
    && (forall i, j :: 0 <= i < j < |limits| ==> limits[j] <= limits[i])
    && (if limits == [] then limit == size else limits[0] == size && limit <= limits[|limits| - 1])
  }

  /** The stack of limits as a nest of windows. */
  ghost function WindowOf(limit: nat, limits: seq<nat>): (w: Window)
    ensures w.limit == limit
    ensures if limits == [] then w.Whole? else w.Within? && w.outside.limit == limits[|limits| - 1]
    decreases |limits|
  {
    if limits == [] then Whole(limit) else Within(limit, WindowOf(limits[|limits| - 1], limits[..|limits| - 1]))
  }

  /** What `restore` accepts. */
  ghost predicate Restorable(size: nat, s: Snapshot) {
    && s.p <= s.limit <= size && s.bitsLeft <= 64
    && Ascending(size, s.limit, s.limits)
    && (if s.limits == [] then s.limit == size
        else s.p <= s.limits[0] && s.limits[|s.limits| - 1] == size)
  }

  /** Every enclosing limit is at least the limits inside it and at most the input size. */
  ghost predicate Ascending(size: nat, limit: nat, limits: seq<nat>) {
    && (forall i :: 0 <= i < |limits| ==> limit <= limits[i] <= size)
    && (forall i, j :: 0 <= i < j < |limits| ==> limits[j] <= limits[i])
  }

  /** An accepted snapshot is a state that a reader can be in. */
  lemma RestorableIsNested(size: nat, s: Snapshot)
    requires Restorable(size, s)
    ensures Nested(size, s.p, s.limit, s.limits)
  {
    if |s.limits| > 1 {
      assert s.limits[|s.limits| - 1] <= s.limits[0];
    }
  }

  /** `restore` takes back the snapshot of a reader exactly when no limit is pushed or the
      innermost enclosing limit is the whole input. */
  lemma OwnSnapshot(size: nat, s: Snapshot)
    requires Nested(size, s.p, s.limit, s.limits) && s.bitsLeft <= 64
    ensures Restorable(size, s) <==> s.limits == [] || s.limits[|s.limits| - 1] == size
  {
    if s.limits != [] {
      var n := |s.limits|;
      assert forall i :: 0 <= i < n ==> s.limits[n - 1] <= s.limits[i] <= s.limits[0];
    }
  }

  class Reader {
    const d: seq<byte>
    var p: nat
    var limit: nat
    var order: Order
    var limits: seq<nat>
    var container: nat
    var bitsLeft: nat

    ghost predicate Valid()
      reads this
    {
      && |d| <= U64_MAX
      && Nested(|d|, p, limit, limits)
      && bitsLeft <= 64
    }

    ghost function Where(): Cursor
      reads this
    {
      Cursor(p, order)
    }

    ghost function Limits(): Window
      reads this
    {
      WindowOf(limit, limits)
    }

    constructor (d: seq<byte>)
      requires |d| <= U64_MAX
      ensures Valid() && this.d == d && Where() == Cursor(0, Little) && Limits() == Whole(|d|)
      ensures bitsLeft == 0
    {
      this.d := d;
      p := 0;
      limit := |d|;
      order := Little;
      limits := [];
      container := 0;
      bitsLeft := 0;
    }

    function Left(): nat
      requires Valid()
      reads this
    {
      limit - p
    }

    method SetOrder(o: Order)
      requires Valid()
      modifies this`order
      ensures Valid() && order == o
    {
      order := o;
    }

    method Seek(q: nat) returns (ok: bool)
      requires Valid()
      modifies this`p
      ensures Valid() && ok == (q <= limit)
      ensures p == if ok then q else old(p)
    {
      ok := q <= limit;
      if ok {
        p := q;
      }
    }

    method SeekRoot(q: nat) returns (ok: bool)
      requires Valid()
      modifies this`p
      ensures Valid() && ok == (q <= limit)
      ensures p == if ok then q else old(p)
    {
      if q > |d| {
        return false;
      }
      ok := Seek(q);
    }

    method Align(a: nat) returns (ok: bool)
      requires Valid()
      modifies this`p
      ensures Valid() && ok == (a > 0 && AlignUp(old(p), a) <= limit)
      ensures p == if ok then AlignUp(old(p), a) else old(p)
    {
      if a == 0 {
        return false;
      }
      var rem := p % a;
      var delta := if rem == 0 then 0 else a - rem;
      if delta > U64_MAX - p {
        return false;
      }
      ok := Seek(p + delta);
    }

    method UInt(n: nat) returns (ok: bool, v: nat)
      requires Valid()
      modifies this`p
      ensures Valid() && ok == (1 <= n <= 8 && n <= limit - old(p))
      ensures p == if ok then old(p) + n else old(p)
      ensures ok ==> v == Unpack(d[old(p)..p], order)
    {
      v := 0;
      if n == 0 || n > 8 || n > Left() {
        return false, v;
      }
      v := Gather(n);
      p := p + n;
      ok := true;
    }

    /** The byte loops of `uint` and `beginBits`; a shift by 8i is a product with a power of two,
        and an `or` of disjoint bits is a sum. */
    method Gather(n: nat) returns (v: nat)
      requires Valid() && p + n <= limit
      ensures v == Unpack(d[p..p + n], order)
    {
      v := 0;
      if order == Little {
        for i := 0 to n
          invariant v == LittleValue(d[p..p + i])
        {
          LittleAppend(d[p..p + i], d[p + i]);
          assert d[p..p + i] + [d[p + i]] == d[p..p + (i + 1)];
          v := v + d[p + i] * Pow2(8 * i);
        }
      } else {
        for i := 0 to n
          invariant v == Unpack(d[p..p + i], Big)
        {
          BigAppend(d[p..p + i], d[p + i]);
          assert d[p..p + i] + [d[p + i]] == d[p..p + (i + 1)];
          v := v * 256 + d[p + i];
        }
      }
    }

    /** One byte has no order. */
    method TakeByte() returns (b: byte)
      requires Valid() && p < limit
      modifies this`p
      ensures Valid() && p == old(p) + 1 && b == d[old(p)]
    {
      var _, v := UInt(1);
      OneByte(d[old(p)..p], order);
      b := v;
    }

    method SInt(n: nat) returns (ok: bool, v: i64)
      requires Valid()
      modifies this`p
      ensures Valid() && ok == (1 <= n <= 8 && n <= limit - old(p))
      ensures p == if ok then old(p) + n else old(p)
      ensures ok ==> Unpack(d[old(p)..p], order) < Pow2(8 * n)
      ensures ok ==> v == SignExtend(Unpack(d[old(p)..p], order), n)
    {
      v := 0;
      var u;
      ok, u := UInt(n);
      if ok {
        UnpackBound(d[old(p)..p], order);
        var sign := Pow2(8 * n - 1);
        if u < sign {
          v := SignExtend(u, n);
        } else {
          assert SignExtend(u, n) == u - Pow2(8 * n);
          v := u - Pow2(8 * n);
        }
      }
    }

    method TakeBytes(n: nat) returns (ok: bool, b: seq<byte>)
      requires Valid()
      modifies this`p
      ensures Valid() && ok == (n <= limit - old(p))
      ensures p == if ok then old(p) + n else old(p)
      ensures ok ==> b == d[old(p)..p]
    {
      b := [];
      ok := n <= Left();
      if ok {
        b := d[p..p + n];
        p := p + n;
      }
    }

    method BeginBits(total: nat) returns (ok: bool)
      requires Valid()
      modifies this`p, this`container, this`bitsLeft
      ensures Valid()
      ensures ok == (old(bitsLeft) == 0 && 1 <= total <= 64 && (total + 7) / 8 <= limit - old(p))
      ensures ok ==> p == old(p) + (total + 7) / 8 && bitsLeft == total
      ensures ok ==> container == Unpadded(Unpack(d[old(p)..p], order), 8 * ((total + 7) / 8) - total)
      ensures !ok ==> p == old(p) && bitsLeft == old(bitsLeft)
    {
      var needed := (total + 7) / 8;
      if bitsLeft != 0 || total == 0 || total > 64 || needed > Left() {
        return false;
      }
      container := Gather(needed);
      p := p + needed;
      container := Unpadded(container, 8 * needed - total);
      bitsLeft := total;
      ok := true;
    }

    /** A read from an exhausted container starts a new one that is as wide as the request. */
    method TakeBits(width: nat) returns (ok: bool, v: nat)
      requires Valid()
      modifies this`p, this`container, this`bitsLeft
      ensures Valid()
      ensures old(bitsLeft) > 0 ==> p == old(p) && container == old(container) && ok == (1 <= width <= old(bitsLeft))
      ensures old(bitsLeft) > 0 && ok ==> bitsLeft == old(bitsLeft) - width
      ensures old(bitsLeft) > 0 && ok ==> v == BitsOf(container, bitsLeft, width)
    {
      v := 0;
      if bitsLeft == 0 {
        ok := BeginBits(width);
        if !ok {
          return;
        }
      }
      if width == 0 || width > 64 || width > bitsLeft {
        return false, v;
      }
      var shift := bitsLeft - width;
      v := BitsOf(container, shift, width);
      bitsLeft := shift;
      ok := true;
    }

    method EndBits() returns (ok: bool)
      requires Valid()
      modifies this`container
      ensures Valid() && ok == (bitsLeft == 0)
    {
      ok := bitsLeft == 0;
      if ok {
        container := 0;
      }
    }

    method PushLimit(n: nat) returns (ok: bool)
      requires Valid()
      modifies this`limit, this`limits
      ensures Valid() && ok == (n <= old(limit) - p)
      ensures Limits() == if ok then Within(p + n, old(Limits())) else old(Limits())
    {
      if n > U64_MAX - p || p + n > limit {
        return false;
      }
      assert (limits + [limit])[..|limits|] == limits;
      limits := limits + [limit];
      limit := p + n;
      ok := true;
    }

    method PopLimit() returns (ok: bool)
      requires Valid()
      modifies this`limit, this`limits
      ensures Valid() && ok == old(Limits()).Within?
      ensures ok ==> Limits() == old(Limits()).outside
      ensures !ok ==> Limits() == old(Limits())
    {
      if limits == [] {
        return false;
      }
      limit := limits[|limits| - 1];
      limits := limits[..|limits| - 1];
      ok := true;
    }

    method Save() returns (s: Snapshot)
      requires Valid()
      ensures s == Snapshot(p, limit, order, limits, container, bitsLeft)
    {
      s := Snapshot(p, limit, order, limits, container, bitsLeft);
    }

    /** `restore` compares `limits.back()`, the innermost enclosing limit, with the input size,
        and `limits.front()`, the outermost one, with the position. */
    method Restore(s: Snapshot) returns (ok: bool)
      requires Valid()
      modifies this
      ensures Valid() && ok == Restorable(|d|, s)
      ensures if ok then s == Snapshot(p, limit, order, limits, container, bitsLeft)
              else Where() == old(Where()) && Limits() == old(Limits()) && bitsLeft == old(bitsLeft)
    {
      if s.p > s.limit || s.limit > |d| || s.bitsLeft > 64 {
        return false;
      }
      var previous := s.limit;
      var i := |s.limits|;
      while i > 0
        invariant 0 <= i <= |s.limits|
        invariant previous == (if i == |s.limits| then s.limit else s.limits[i])
        invariant forall j :: i <= j < |s.limits| ==> s.limit <= s.limits[j] <= |d|
        invariant forall j, k :: i <= j < k < |s.limits| ==> s.limits[k] <= s.limits[j]
      {
        i := i - 1;
        if s.limits[i] < previous || s.limits[i] > |d| {
          return false;
        }
        previous := s.limits[i];
      }
      if s.limits != [] && s.p > s.limits[0] {
        return false;
      }
      if s.limits == [] && s.limit != |d| {
        return false;
      }
      if s.limits != [] && s.limits[|s.limits| - 1] != |d| {
        return false;
      }
      RestorableIsNested(|d|, s);
      p, limit, order, limits, container, bitsLeft := s.p, s.limit, s.order, s.limits, s.container, s.bitsLeft;
      ok := true;
    }
  }
}
