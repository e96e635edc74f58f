/** The hand-written comparison of server names that orders the connection pools. */
module ServerName {
  import opened Bytes

  const SLASH: byte := 47

  /** The value of a `char`, which is signed. */
  function CharValue(b: byte): int {
    if b < 128 then b as int else b as int - 256
  }

  /** The end of the C string, or of the part that names the server or set. */
  predicate EndsAt(s: seq<byte>, i: nat) {
    i >= |s| || s[i] == 0 || s[i] == SLASH
  }

  /** What counts in a server name: everything before the first `/`. */
  function Prefix(s: seq<byte>): (p: seq<byte>)
    ensures p <= s && EndsAt(s, |p|)
    ensures forall i :: 0 <= i < |p| ==> !EndsAt(s, i)
  {
    if EndsAt(s, 0) then []
    else
      var p := Prefix(s[1..]);
      assert forall i :: 0 < i <= |p| ==> EndsAt(s, i) == EndsAt(s[1..], i - 1);
      [s[0]] + p
  }

  /** Dictionary order. */
  predicate Less(a: seq<byte>, b: seq<byte>) {
    b != [] && (a == [] || CharValue(a[0]) < CharValue(b[0]) || (a[0] == b[0] && Less(a[1..], b[1..])))
  }

  lemma {:induction false} LessIrreflexive(a: seq<byte>)
    ensures !Less(a, a)
  {
    if a != [] {
      LessIrreflexive(a[1..]);
    }
  }

  lemma {:induction false} LessTransitive(a: seq<byte>, b: seq<byte>, c: seq<byte>)
    requires Less(a, b) && Less(b, c)
    ensures Less(a, c)
  {
    if a != [] && a[0] == b[0] && b[0] == c[0] {
      LessTransitive(a[1..], b[1..], c[1..]);
    }
  }

  lemma {:induction false} LessTotal(a: seq<byte>, b: seq<byte>)
    ensures a == b || Less(a, b) || Less(b, a)
  {
    if a != [] && b != [] {
      LessTotal(a[1..], b[1..]);
      assert a == [a[0]] + a[1..] && b == [b[0]] + b[1..];
    }
  }

  /** `serverNameCompare`: the loop is dictionary order on the prefixes. */
  method ServerNameCompare(a: seq<byte>, b: seq<byte>) returns (r: bool)
    ensures r == Less(Prefix(a), Prefix(b))
  {
    var ap, bp := 0, 0;
    while true
      invariant ap == bp <= |a| && bp <= |b|
      invariant Less(Prefix(a[ap..]), Prefix(b[bp..])) == Less(Prefix(a), Prefix(b))
      decreases |a| - ap
    {
      if EndsAt(a, ap) {
        return !EndsAt(b, bp);
      }
      if EndsAt(b, bp) {
        return false;
      }
      if CharValue(a[ap]) < CharValue(b[bp]) {
        return true;
      } else if CharValue(a[ap]) > CharValue(b[bp]) {
        return false;
      }
      assert a[ap..][1..] == a[ap + 1..] && b[bp..][1..] == b[bp + 1..];
      ap, bp := ap + 1, bp + 1;
    }
  }

  datatype PoolKey = PoolKey(ident: seq<byte>, timeout: real)

  predicate KeyLess(a: PoolKey, b: PoolKey) {
    Less(Prefix(a.ident), Prefix(b.ident))
    || (!Less(Prefix(b.ident), Prefix(a.ident)) && a.timeout < b.timeout)
  }

  method PoolKeyCompare(a: PoolKey, b: PoolKey) returns (r: bool)
    ensures r == KeyLess(a, b)
  {
    var less := ServerNameCompare(a.ident, b.ident);
    if less {
      return true;
    }
    var greater := ServerNameCompare(b.ident, a.ident);
    if greater {
      return false;
    }
    return a.timeout < b.timeout;
  }

  /** The representative of all keys a `std::map` ordered by `poolKeyCompare` treats as one. */
  function Canonical(k: PoolKey): PoolKey {
    PoolKey(Prefix(k.ident), k.timeout)
  }

  /** Two names are the same server to the pool exactly when they agree up to the first `/`. */
  lemma SameServerIffSamePrefix(a: seq<byte>, b: seq<byte>)
    ensures !Less(Prefix(a), Prefix(b)) && !Less(Prefix(b), Prefix(a)) <==> Prefix(a) == Prefix(b)
  {
    hide Prefix;
    LessTotal(Prefix(a), Prefix(b));
    LessIrreflexive(Prefix(a));
  }

  /** `poolKeyCompare` is a strict weak order; its classes are the keys with equal prefix and equal timeout. */
  lemma KeysAreWeaklyOrdered(a: PoolKey, b: PoolKey, c: PoolKey)
    ensures !KeyLess(a, a)
    ensures KeyLess(a, b) && KeyLess(b, c) ==> KeyLess(a, c)
    ensures !KeyLess(a, b) && !KeyLess(b, a) <==> Canonical(a) == Canonical(b)
  {
    hide Prefix;
    var p, q, r := Prefix(a.ident), Prefix(b.ident), Prefix(c.ident);
    LessIrreflexive(p);
    LessTotal(p, q);
    LessTotal(q, r);
    if Less(p, q) && Less(q, r) {
      LessTransitive(p, q, r);
    }
    if Less(p, q) && Less(q, p) {
      LessTransitive(p, q, p);
    }
    if Less(q, r) && Less(r, q) {
      LessTransitive(q, r, q);
      LessIrreflexive(q);
    }
  }

  // ----- In terms of bytes -----

  /** The name of the server or set is what comes before the first `/` or NUL. */
  lemma PrefixIs(s: seq<byte>)
    ensures var p := Prefix(s);
      && p <= s && (forall i :: 0 <= i < |p| ==> p[i] != 0 && p[i] != 47)
      && (|p| < |s| ==> s[|p|] == 0 || s[|p|] == 47)
  {
    var p := Prefix(s);
    assert forall i :: 0 <= i < |p| ==> p[i] == s[i] && !EndsAt(s, i);
    hide Prefix;
  }

  /** At `k` the names differ for the first time: `a` ends there or has the smaller `char`, which is signed. */
  ghost predicate DifferAt(a: seq<byte>, b: seq<byte>, k: int) {
    && 0 <= k <= |a| && k < |b| && a[..k] == b[..k] && (forall i :: 0 <= i < k ==> a[i] != 0 && a[i] != 47)
    && b[k] != 0 && b[k] != 47
    && (k == |a| || a[k] == 0 || a[k] == 47
        || (if a[k] < 128 then a[k] as int else a[k] as int - 256) < (if b[k] < 128 then b[k] as int else b[k] as int - 256))
  }

  lemma {:induction false} ServerOrder(a: seq<byte>, b: seq<byte>)
    ensures Less(Prefix(a), Prefix(b)) <==> exists k :: DifferAt(a, b, k)
  {
    if !EndsAt(a, 0) && !EndsAt(b, 0) && a[0] == b[0] {
      ServerOrder(a[1..], b[1..]);
      SameStart(a, b);
      assert Prefix(a) == [a[0]] + Prefix(a[1..]) && Prefix(b) == [b[0]] + Prefix(b[1..]);
    } else {
      if k :| DifferAt(a, b, k) {
        StartsDiffer(a, b, k);
      }
      if Less(Prefix(a), Prefix(b)) {
        assert DifferAt(a, b, 0);
      }
    }
  }

  lemma OneLonger(s: seq<byte>, k: nat)
    requires k < |s|
    ensures s[..k + 1] == [s[0]] + s[1..][..k]
  {
  }

  lemma SameStart(a: seq<byte>, b: seq<byte>)
    requires a != [] && b != [] && a[0] == b[0] && a[0] != 0 && a[0] != 47
    ensures (exists k :: DifferAt(a, b, k)) <==> exists k :: DifferAt(a[1..], b[1..], k)
  {
    if k :| DifferAt(a, b, k) {
      assert k > 0;
      assert a[1..][..k - 1] == a[..k][1..] && b[1..][..k - 1] == b[..k][1..];
      assert DifferAt(a[1..], b[1..], k - 1);
    }
    if k :| DifferAt(a[1..], b[1..], k) {
      OneLonger(a, k);
      OneLonger(b, k);
      assert DifferAt(a, b, k + 1);
    }
  }

  lemma StartsDiffer(a: seq<byte>, b: seq<byte>, k: int)
    requires DifferAt(a, b, k) && (EndsAt(a, 0) || EndsAt(b, 0) || a[0] != b[0])
    ensures k == 0 && Less(Prefix(a), Prefix(b))
  {
  }
}
