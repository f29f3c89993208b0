/** Where a terminator first ends a scan of bytes. */
module Terminator {
  import opened Outcome
  import opened Bytes

  predicate OccursAt(s: seq<byte>, t: seq<byte>, j: int) {
    0 <= j && j + |t| <= |s| && s[j..j + |t|] == t
  }

  /** The first index from `j` on at which `t` occurs in `s`. */
  function FirstFrom(s: seq<byte>, t: seq<byte>, j: nat): (r: Option<nat>)
    ensures r.Some? ==> r.value >= j && OccursAt(s, t, r.value)
    ensures forall i :: j <= i < (if r.Some? then r.value else |s| + 1) ==> !OccursAt(s, t, i)
    decreases |s| + 1 - j
  {
    if j + |t| > |s| then None
    else if s[j..j + |t|] == t then Some(j)
    else FirstFrom(s, t, j + 1)
  }

  function First(s: seq<byte>, t: seq<byte>): (r: Option<nat>)
    ensures r.Some? ==> OccursAt(s, t, r.value)
    ensures forall i :: 0 <= i < (if r.Some? then r.value else |s| + 1) ==> !OccursAt(s, t, i)
  {
    FirstFrom(s, t, 0)
  }

  /** The first occurrence does not depend on the bytes after it. */
  lemma FirstOfPrefix(s: seq<byte>, longer: seq<byte>, t: seq<byte>)
    requires s <= longer && First(s, t).Some?
    ensures First(longer, t) == First(s, t)
  {
    var j := First(s, t).value;
    assert longer[j..j + |t|] == s[j..j + |t|];
    assert OccursAt(longer, t, j);
    if First(longer, t).value < j {
      var i := First(longer, t).value;
      assert longer[i..i + |t|] == s[i..i + |t|];
      assert OccursAt(s, t, i);
    }
  }

  /** The payload before the first occurrence does not contain the terminator. */
  lemma PayloadIsClean(s: seq<byte>, t: seq<byte>)
    requires t != [] && First(s, t).Some?
    ensures First(s[..First(s, t).value], t).None?
  {
    var j := First(s, t).value;
    if First(s[..j], t).Some? {
      var i := First(s[..j], t).value;
      assert s[..j][i..i + |t|] == s[i..i + |t|];
      assert OccursAt(s, t, i);
    }
  }

  /** A scan that starts with a payload and its terminator ends where these two alone end it. */
  lemma FoundInScan(payload: seq<byte>, t: seq<byte>, s: seq<byte>)
    requires t != [] && payload + t <= s
    ensures First(s, t).Some? && First(s, t) == First(payload + t, t)
    ensures s[..First(s, t).value] == payload <==> First(payload + t, t) == Some(|payload|)
  {
    assert (payload + t)[|payload|..|payload| + |t|] == t;
    assert OccursAt(payload + t, t, |payload|);
    FirstOfPrefix(payload + t, s, t);
    assert s[..|payload|] == payload;
  }

  // ----- scanning with a look back -----

  /** The last `|t|` bytes of `out` are the terminator. */
  predicate EndsWith(out: seq<byte>, t: seq<byte>) {
    |t| <= |out| && out[|out| - |t|..] == t
  }

  /** No occurrence ends within the first `i` bytes. */
  predicate NoneBefore(s: seq<byte>, t: seq<byte>, i: nat) {
    forall j :: 0 <= j && j + |t| <= i ==> !OccursAt(s, t, j)
  }

  /** One more byte: it completes the first occurrence, or there is still none. */
  lemma ScanStep(s: seq<byte>, t: seq<byte>, i: nat)
    requires t != [] && i < |s| && NoneBefore(s, t, i)
    ensures EndsWith(s[..i + 1], t) ==> First(s, t) == Some(i + 1 - |t|) && s[..i + 1][..i + 1 - |t|] == s[..i + 1 - |t|]
    ensures !EndsWith(s[..i + 1], t) ==> NoneBefore(s, t, i + 1)
  {
    if |t| <= i + 1 {
      var k := i + 1 - |t|;
      assert s[..i + 1][k..] == s[k..k + |t|];
      assert EndsWith(s[..i + 1], t) <==> OccursAt(s, t, k);
    }
  }

  lemma ScanOver(s: seq<byte>, t: seq<byte>)
    requires NoneBefore(s, t, |s|)
    ensures First(s, t).None?
  {
  }
}
