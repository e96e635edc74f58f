/** Bytes, little- and big-endian integers, and NUL-terminated strings. */
module Bytes {
  import opened Wrappers

  newtype byte = b: int | 0 <= b < 256
  type int32 = n: int | -0x8000_0000 <= n < 0x8000_0000
  type int64 = n: int | -0x8000_0000_0000_0000 <= n < 0x8000_0000_0000_0000
  type uint64 = n: int | 0 <= n < 0x1_0000_0000_0000_0000

  function Pow256(k: nat): (p: nat)
    ensures p >= 1
  {
    if k == 0 then 1 else 256 * Pow256(k - 1)
  }

  /** The `k` low-order bytes of `n` in two's complement, least significant first. */
  function LittleEndian(n: int, k: nat): (s: seq<byte>)
    ensures |s| == k
    decreases k
  {
    if k == 0 then [] else [(n % 256) as byte] + LittleEndian(n / 256, k - 1)
  }

  function Unsigned(s: seq<byte>): (n: nat)
    ensures n < Pow256(|s|)
  {
    if s == [] then 0 else s[0] as int + 256 * Unsigned(s[1..])
  }

  /** The value of `s` read as a two's complement integer. */
  function Signed(s: seq<byte>): int {
    var u := Unsigned(s);
    if 2 * u >= Pow256(|s|) then u - Pow256(|s|) else u
  }

  function Quotient(n: int, k: nat): int
    decreases k
  {
    if k == 0 then n else Quotient(n / 256, k - 1)
  }

  lemma {:induction false} LittleEndianSplit(n: int, k: nat)
    ensures n == Unsigned(LittleEndian(n, k)) + Pow256(k) * Quotient(n, k)
    decreases k
  {
    if k > 0 {
      LittleEndianSplit(n / 256, k - 1);
      var s := LittleEndian(n, k);
      assert s[1..] == LittleEndian(n / 256, k - 1);
      Associate(256, Pow256(k - 1), Quotient(n / 256, k - 1));
    }
  }

  lemma Associate(a: int, b: int, c: int)
    ensures (a * b) * c == a * (b * c)
  {
  }

  lemma {:induction false} ProductGap(p: int, q: int, q': int)
    requires 0 <= p && q < q'
    ensures p * q + p <= p * q'
    decreases q' - q
  {
    if q + 1 < q' {
      ProductGap(p, q + 1, q');
    }
  }

  lemma UniqueRemainder(p: int, u: int, q: int, u': int, q': int)
    requires 0 <= u < p && 0 <= u' < p && u + p * q == u' + p * q'
    ensures u == u'
  {
    if q < q' {
      ProductGap(p, q, q');
    } else if q' < q {
      ProductGap(p, q', q);
    }
  }

  lemma UnsignedRoundTrip(n: int, k: nat)
    requires 0 <= n < Pow256(k)
    ensures Unsigned(LittleEndian(n, k)) == n
  {
    LittleEndianSplit(n, k);
    UniqueRemainder(Pow256(k), Unsigned(LittleEndian(n, k)), Quotient(n, k), n, 0);
  }

  lemma SignedRoundTrip(n: int, k: nat)
    requires k > 0 && 0 - Pow256(k) <= 2 * n < Pow256(k)
    ensures Signed(LittleEndian(n, k)) == n
  {
    LittleEndianSplit(n, k);
    var p := Pow256(k);
    assert p == 256 * Pow256(k - 1);
    if n >= 0 {
      UniqueRemainder(p, Unsigned(LittleEndian(n, k)), Quotient(n, k), n, 0);
    } else {
      UniqueRemainder(p, Unsigned(LittleEndian(n, k)), Quotient(n, k), n + p, -1);
    }
  }

  lemma Powers()
    ensures Pow256(1) == 0x100 && Pow256(4) == 0x1_0000_0000 && Pow256(8) == 0x1_0000_0000_0000_0000
  {
    assert Pow256(2) == 0x1_0000;
    assert Pow256(3) == 0x100_0000;
    assert Pow256(4) == 0x1_0000_0000;
    assert Pow256(5) == 0x100_0000_0000;
    assert Pow256(6) == 0x1_0000_0000_0000;
    assert Pow256(7) == 0x100_0000_0000_0000;
  }

  function Int32Bytes(n: int): (s: seq<byte>)
    ensures |s| == 4
  {
    LittleEndian(n, 4)
  }

  function Int64Bytes(n: int): (s: seq<byte>)
    ensures |s| == 8
  {
    LittleEndian(n, 8)
  }

  lemma Int32RoundTrip(n: int32)
    ensures Signed(Int32Bytes(n)) == n
  {
    Powers();
    SignedRoundTrip(n, 4);
  }

  lemma Int64RoundTrip(n: int64)
    ensures Signed(Int64Bytes(n)) == n
  {
    Powers();
    SignedRoundTrip(n, 8);
  }

  lemma Uint64RoundTrip(n: uint64)
    ensures Unsigned(Int64Bytes(n)) == n
  {
    Powers();
    UnsignedRoundTrip(n, 8);
  }

  /** Two byte strings of equal length with equal values are equal. */
  lemma {:induction false} UnsignedInjective(s: seq<byte>, t: seq<byte>)
    requires |s| == |t| && Unsigned(s) == Unsigned(t)
    ensures s == t
  {
    if s != [] {
      assert s[0] == t[0];
      UnsignedInjective(s[1..], t[1..]);
      assert s == [s[0]] + s[1..] && t == [t[0]] + t[1..];
    }
  }

  // ----- NUL-terminated strings -----

  predicate NulFree(s: seq<byte>) {
    forall i :: 0 <= i < |s| ==> s[i] != 0
  }

  /** `strlen`: the index of the first NUL, or `None` when memory ends before one. */
  function StrLen(s: seq<byte>): (r: Option<nat>)
    ensures r.Some? ==> var n := r.value; n < |s| && s[n] == 0 && NulFree(s[..n])
    ensures r.Some? ==> forall i :: 0 <= i < r.value ==> s[i] != 0
    ensures r.None? <==> NulFree(s)
  {
    if s == [] then None
    else if s[0] == 0 then Some(0)
    else
      var r := StrLen(s[1..]);
      if r.None? then None
      else
        assert s[..r.value + 1] == [s[0]] + s[1..][..r.value];
        Some(r.value + 1)
  }

  /** A C string is found again whatever follows its terminator. */
  lemma StrLenOfCString(s: seq<byte>, tail: seq<byte>)
    requires NulFree(s)
    ensures StrLen(s + [0] + tail) == Some(|s|)
  {
    var t := s + [0] + tail;
    assert t[|s|] == 0 && t[..|s|] == s;
    assert forall i :: 0 <= i < |s| ==> t[i] == s[i];
  }
}
