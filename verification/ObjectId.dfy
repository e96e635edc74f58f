/** Object ids: big-endian time and counter, compared byte by byte. */
module ObjectId {
  import opened Bytes
  import opened BsonOrder

  const TWO_31 := 0x8000_0000
  const TWO_32 := 0x1_0000_0000
  const TWO_64 := 0x1_0000_0000_0000_0000

  /** The value of `s`, most significant byte first. */
  function BigEndian(s: seq<byte>): (n: nat)
    ensures n < Pow256(|s|)
  {
    if s == [] then 0
    else
      Scale(s[0] as int, Pow256(|s| - 1));
      s[0] as int * Pow256(|s| - 1) + BigEndian(s[1..])
  }

  lemma Scale(d: int, p: int)
    requires 0 <= d < 256 && p >= 1
    ensures 0 <= d * p <= 255 * p
  {
  }

  lemma LeadingDigit(p: int, d: int, r: int, d': int, r': int)
    requires 0 <= r < p && 0 <= r' < p
    ensures d < d' ==> d * p + r < d' * p + r'
    ensures d > d' ==> d * p + r > d' * p + r'
  {
    if d < d' {
      ProductGap(p, d, d');
    } else if d' < d {
      ProductGap(p, d', d);
    }
  }

  /** Byte-wise order on equal lengths is the order of the big-endian values. */
  lemma {:induction false} LexIsNumeric(s: seq<byte>, t: seq<byte>)
    requires |s| == |t|
    ensures Lex(s, t) < 0 <==> BigEndian(s) < BigEndian(t)
    ensures Lex(s, t) == 0 <==> BigEndian(s) == BigEndian(t)
  {
    hide Pow256;
    if s != [] {
      LexIsNumeric(s[1..], t[1..]);
      LeadingDigit(Pow256(|s| - 1), s[0] as int, BigEndian(s[1..]), t[0] as int, BigEndian(t[1..]));
    }
  }

  function Reversed(s: seq<byte>): (r: seq<byte>)
    ensures |r| == |s|
    ensures forall i :: 0 <= i < |s| ==> r[i] == s[|s| - 1 - i]
  {
    if s == [] then [] else Reversed(s[1..]) + [s[0]]
  }

  lemma {:induction false} BigEndianSnoc(s: seq<byte>, b: byte)
    ensures BigEndian(s + [b]) == 256 * BigEndian(s) + b as int
  {
    if s == [] {
      assert ([] + [b])[1..] == [];
    } else {
      assert (s + [b])[1..] == s[1..] + [b];
      BigEndianSnoc(s[1..], b);
      var d, p := s[0] as int, Pow256(|s| - 1);
      assert d * (256 * p) == 256 * (d * p);
    }
  }

  lemma {:induction false} BigEndianOfReversed(s: seq<byte>)
    ensures BigEndian(Reversed(s)) == Unsigned(s)
  {
    if s != [] {
      BigEndianOfReversed(s[1..]);
      BigEndianSnoc(Reversed(s[1..]), s[0]);
    }
  }

  /** Reversing the little-endian bytes of an unsigned number spells it big-endian. */
  lemma ReversedValue(n: nat, k: nat)
    requires n < Pow256(k)
    ensures BigEndian(Reversed(LittleEndian(n, k))) == n
  {
    UnsignedRoundTrip(n, k);
    BigEndianOfReversed(LittleEndian(n, k));
  }

  lemma {:induction false} BigEndianAppend(s: seq<byte>, t: seq<byte>)
    ensures BigEndian(s + t) == BigEndian(s) * Pow256(|t|) + BigEndian(t)
  {
    if s == [] {
      assert [] + t == t;
    } else {
      assert (s + t)[1..] == s[1..] + t;
      BigEndianAppend(s[1..], t);
      PowerSum(|s| - 1, |t|);
      Distribute(s[0] as int, Pow256(|s| - 1), BigEndian(s[1..]), Pow256(|t|));
    }
  }

  lemma {:induction false} PowerSum(i: nat, j: nat)
    ensures Pow256(i + j) == Pow256(i) * Pow256(j)
  {
    if i > 0 {
      PowerSum(i - 1, j);
      Associate(256, Pow256(i - 1), Pow256(j));
    }
  }

  lemma Distribute(d: int, p: int, r: int, q: int)
    ensures (d * p + r) * q == d * (p * q) + r * q
  {
  }

  class OID {
    const data: array<byte>

    constructor ()
      ensures fresh(data) && data.Length == 12
    {
      data := new byte[12](_ => 0);
    }

    /** Writes the low `k` bytes of `n` at `at`, most significant first, one byte at a time. */
    method WriteReversed(at: nat, n: int, k: nat)
      requires at + k <= data.Length
      modifies data
      ensures data[at..at + k] == Reversed(LittleEndian(n, k))
      ensures data[..at] == old(data[..at]) && data[at + k..] == old(data[at + k..])
    {
      hide LittleEndian;
      hide Reversed;
      var number := LittleEndian(n, k);
      for i := 0 to k
        invariant forall j :: at <= j < at + i ==> data[j] == number[k - 1 - (j - at)]
        invariant data[..at] == old(data[..at]) && data[at + k..] == old(data[at + k..])
      {
        data[at + i] := number[k - 1 - i];
      }
    }

    /** `initSequential` with the clock reading `time` and the counter value it drew. */
    method InitSequential(time: int, sequence: int)
      requires data.Length == 12
      modifies data
      ensures data[..] == SequentialBytes(time, sequence)
    {
      WriteReversed(0, time, 4);
      WriteReversed(4, sequence, 8);
      assert data[..] == data[..4] + data[4..12] + data[12..];
    }

    /** `init(date, max)`: the least or greatest id of the second that `millis` falls in. */
    method InitDate(millis: nat, max: bool)
      requires data.Length == 12
      modifies data
      ensures data[..] == DateBytes(millis, max)
    {
      WriteReversed(0, millis / 1000, 4);
      for i := 0 to 8
        invariant data[..4] == Reversed(LittleEndian(millis / 1000, 4))
        invariant forall j :: 4 <= j < 4 + i ==> data[j] == if max then 255 else 0
      {
        data[4 + i] := if max then 255 else 0;
      }
      assert data[4..] == seq(8, _ => if max then 255 else 0);
      assert data[..] == data[..4] + data[4..];
    }

    /** `asTimeT`: gathers the first four bytes in reverse and reads them as an int. */
    method AsTimeT() returns (time: int)
      requires data.Length == 12
      ensures time == Signed(Reversed(data[..4]))
    {
      var t: seq<byte> := [data[3], data[2], data[1], data[0]];
      assert t == Reversed(data[..4]);
      time := Signed(t);
    }
  }

  function SequentialBytes(time: int, sequence: int): (s: seq<byte>)
    ensures |s| == 12
  {
    Reversed(LittleEndian(time, 4)) + Reversed(LittleEndian(sequence, 8))
  }

  function DateBytes(millis: nat, max: bool): seq<byte> {
    Reversed(LittleEndian(millis / 1000, 4)) + seq(8, _ => if max then 255 else 0)
  }

  /** The order of sequential ids is the order of (time, sequence) pairs. */
  lemma SequentialOrder(time: nat, sequence: nat, time': nat, sequence': nat)
    requires time < TWO_32 && time' < TWO_32 && sequence < TWO_64 && sequence' < TWO_64
    ensures Lex(SequentialBytes(time, sequence), SequentialBytes(time', sequence')) < 0
      <==> time < time' || (time == time' && sequence < sequence')
  {
    Powers();
    var a, b := SequentialBytes(time, sequence), SequentialBytes(time', sequence');
    ReversedValue(time, 4);
    ReversedValue(time', 4);
    ReversedValue(sequence, 8);
    ReversedValue(sequence', 8);
    BigEndianAppend(Reversed(LittleEndian(time, 4)), Reversed(LittleEndian(sequence, 8)));
    BigEndianAppend(Reversed(LittleEndian(time', 4)), Reversed(LittleEndian(sequence', 8)));
    LexIsNumeric(a, b);
  }

  /** The ids drawn in one process: call `i` reads `clock[i]` and draws `first + i`. */
  function Ids(clock: seq<nat>, first: nat): seq<seq<byte>> {
    seq(|clock|, i requires 0 <= i < |clock| => SequentialBytes(clock[i], first + i))
  }

  /** With a clock that does not step back and a counter that does not wrap, ids strictly increase in call order. */
  lemma StrictlyIncreasing(clock: seq<nat>, first: nat, i: nat, j: nat)
    requires forall k :: 0 <= k < |clock| ==> clock[k] < TWO_32
    requires forall k, l :: 0 <= k < l < |clock| ==> clock[k] <= clock[l]
    requires first + |clock| <= TWO_64 && i < j < |clock|
    ensures Lex(Ids(clock, first)[i], Ids(clock, first)[j]) < 0
  {
    hide Lex;
    hide SequentialBytes;
    SequentialOrder(clock[i], first + i, clock[j], first + j);
  }

  /** The id of call `i + 1` is greater: the clock has moved on, or stood still while the counter has not wrapped. */
  predicate MovesOn(clock: seq<nat>, first: nat, i: nat)
    requires i + 1 < |clock|
  {
    clock[i] < clock[i + 1] || (clock[i] == clock[i + 1] && (first + i + 1) % TWO_64 != 0)
  }

  lemma NextModulo(n: nat)
    ensures n % TWO_64 < (n + 1) % TWO_64 <==> (n + 1) % TWO_64 != 0
  {
  }

  lemma SuccessorOrder(time: nat, sequence: nat, time': nat)
    requires time < TWO_32 && time' < TWO_32
    ensures Lex(SequentialBytes(time, sequence), SequentialBytes(time', sequence + 1)) < 0
      <==> time < time' || (time == time' && (sequence + 1) % TWO_64 != 0)
  {
    hide Lex;
    hide SequentialBytes;
    Wraps(time, sequence);
    Wraps(time', sequence + 1);
    SequentialOrder(time, sequence % TWO_64, time', (sequence + 1) % TWO_64);
    NextModulo(sequence);
  }

  /** Of neighbouring calls the later has the greater id exactly when clock or counter moved on. */
  lemma NextIncreasesIff(clock: seq<nat>, first: nat, i: nat)
    requires forall k :: 0 <= k < |clock| ==> clock[k] < TWO_32
    requires i + 1 < |clock|
    ensures Lex(Ids(clock, first)[i], Ids(clock, first)[i + 1]) < 0 <==> MovesOn(clock, first, i)
  {
    hide Lex;
    hide SequentialBytes;
    SuccessorOrder(clock[i], first + i, clock[i + 1]);
  }

  /** Ids increase strictly in call order exactly when the clock never steps back nor stands still while the counter wraps. */
  lemma IncreasingIff(clock: seq<nat>, first: nat)
    requires forall k :: 0 <= k < |clock| ==> clock[k] < TWO_32
    ensures (forall i, j :: 0 <= i < j < |clock| ==> Lex(Ids(clock, first)[i], Ids(clock, first)[j]) < 0)
      <==> forall i: nat :: i + 1 < |clock| ==> MovesOn(clock, first, i)
  {
    hide Lex;
    hide SequentialBytes;
    hide MovesOn;
    if forall i: nat :: i + 1 < |clock| ==> MovesOn(clock, first, i) {
      forall i, j | 0 <= i < j < |clock|
        ensures Lex(Ids(clock, first)[i], Ids(clock, first)[j]) < 0
      {
        Climbs(clock, first, i, j);
      }
    } else {
      var i: nat :| i + 1 < |clock| && !MovesOn(clock, first, i);
      NextIncreasesIff(clock, first, i);
    }
  }

  lemma {:induction false} Climbs(clock: seq<nat>, first: nat, i: nat, j: nat)
    requires forall k :: 0 <= k < |clock| ==> clock[k] < TWO_32
    requires forall k: nat :: k + 1 < |clock| ==> MovesOn(clock, first, k)
    requires i < j < |clock|
    ensures Lex(Ids(clock, first)[i], Ids(clock, first)[j]) < 0
  {
    hide Lex;
    hide MovesOn;
    hide SequentialBytes;
    var k: nat := j - 1;
    assert MovesOn(clock, first, k);
    NextIncreasesIff(clock, first, k);
    if i < k {
      Climbs(clock, first, i, k);
      LexChains(SequentialBytes(clock[i], first + i), SequentialBytes(clock[k], first + k), SequentialBytes(clock[j], first + j));
    }
  }

  lemma LexChains(a: seq<byte>, b: seq<byte>, c: seq<byte>)
    requires |a| == |b| == |c| && Lex(a, b) < 0 && Lex(b, c) < 0
    ensures Lex(a, c) < 0
  {
    hide Lex;
    LexIsNumeric(a, b);
    LexIsNumeric(b, c);
    LexIsNumeric(a, c);
  }

  lemma Wraps(time: nat, sequence: nat)
    ensures SequentialBytes(time, sequence) == SequentialBytes(time, sequence % TWO_64)
  {
    LowBytes(sequence);
    hide LittleEndian;
  }

  lemma {:induction false} LowBytes(n: nat)
    ensures LittleEndian(n, 8) == LittleEndian(n % TWO_64, 8)
  {
    hide LittleEndian;
    if n >= TWO_64 {
      LowBytes(n - TWO_64);
      Powers();
      SameLowBytes(n - TWO_64, 8);
    }
  }

  /** When the counter wraps within one second, the next id sorts below its predecessor. */
  lemma WrapBreaksOrder(time: nat)
    requires time < TWO_32
    ensures Lex(SequentialBytes(time, TWO_64), SequentialBytes(time, TWO_64 - 1)) < 0
  {
    Powers();
    assert LittleEndian(TWO_64, 8) == LittleEndian(0, 8) by {
      SameLowBytes(0, 8);
    }
    SequentialOrder(time, 0, time, TWO_64 - 1);
  }

  lemma {:induction false} SameLowBytes(n: nat, k: nat)
    ensures LittleEndian(n + Pow256(k), k) == LittleEndian(n, k)
    decreases k
  {
    if k > 0 {
      var p := Pow256(k - 1);
      assert (n + 256 * p) / 256 == n / 256 + p && (n + 256 * p) % 256 == n % 256;
      SameLowBytes(n / 256, k - 1);
    }
  }

  /** What `init(date, max)` is for: of all ids made in that second it is the least, or the greatest. */
  lemma DateBounds(millis: nat, id: seq<byte>)
    requires |id| == 12 && id[..4] == Reversed(LittleEndian(millis / 1000, 4))
    ensures Lex(DateBytes(millis, false), id) <= 0 && Lex(id, DateBytes(millis, true)) <= 0
  {
    var time, own := id[..4], id[4..];
    assert id == time + own;
    var least, greatest: seq<byte> := seq(8, _ => 0), seq(8, _ => 255);
    SamePrefix(time, least, own);
    SamePrefix(time, own, greatest);
    LeastBytes(least, own);
    GreatestBytes(own, greatest);
    hide Lex;
    assert DateBytes(millis, false) == time + least && DateBytes(millis, true) == time + greatest;
  }

  lemma {:induction false} SamePrefix(s: seq<byte>, a: seq<byte>, b: seq<byte>)
    ensures Lex(s + a, s + b) == Lex(a, b)
  {
    if s != [] {
      assert (s + a)[1..] == s[1..] + a && (s + b)[1..] == s[1..] + b;
      SamePrefix(s[1..], a, b);
    } else {
      assert s + a == a && s + b == b;
    }
  }

  lemma {:induction false} LeastBytes(s: seq<byte>, t: seq<byte>)
    requires |s| == |t| && forall i :: 0 <= i < |s| ==> s[i] == 0
    ensures Lex(s, t) <= 0
  {
    if s != [] {
      LeastBytes(s[1..], t[1..]);
    }
  }

  lemma {:induction false} GreatestBytes(s: seq<byte>, t: seq<byte>)
    requires |s| == |t| && forall i :: 0 <= i < |t| ==> t[i] == 255
    ensures Lex(s, t) <= 0
  {
    if s != [] {
      GreatestBytes(s[1..], t[1..]);
    }
  }

  /** `asTimeT` inverts the byte reversal of `init(Date_t)`: the seconds come back as a signed 32-bit value. */
  lemma DateRoundTrip(millis: nat, max: bool)
    ensures Signed(Reversed(DateBytes(millis, max)[..4])) == Signed(Int32Bytes(millis / 1000))
    ensures Signed(Reversed(DateBytes(millis, max)[..4])) == millis / 1000 <==> millis / 1000 < TWO_31
  {
    var s := LittleEndian(millis / 1000, 4);
    assert DateBytes(millis, max)[..4] == Reversed(s);
    assert Reversed(Reversed(s)) == s;
    Powers();
    if millis / 1000 < TWO_31 {
      SignedRoundTrip(millis / 1000, 4);
    }
  }
}
