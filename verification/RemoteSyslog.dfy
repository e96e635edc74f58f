/** Splitting a message into syslog packets (the PRI part of section 4.1.1 of RFC 3164 in front of each). */
module RemoteSyslog {
  import opened CArithmetic
  import Decimal

  const MAX_PACKET := 900

  /** `toSyslogPriority`: the severity, from 0 (emergency) to 7 (debug). */
  function ToSyslogPriority(priority: int): (r: nat)
    ensures r <= 7
  {
    var p := Truncated(priority + 1, 100);
    if p < 0 then 0 else if p > 7 then 7 else p
  }

  /** Each severity has its hundred priorities, which begin one below its own; what lies outside goes to the ends. */
  lemma SyslogPriorityOrder(p: int, q: int, n: nat)
    ensures n <= 7 ==> ToSyslogPriority(100 * n) == n
    ensures p <= q ==> ToSyslogPriority(p) <= ToSyslogPriority(q)
    ensures 0 < n < 7 ==> (ToSyslogPriority(p) == n <==> 100 * n - 1 <= p < 100 * n + 99)
    ensures ToSyslogPriority(p) == 0 <==> p < 99
    ensures ToSyslogPriority(p) == 7 <==> p >= 699
  {
  }

  function Preamble(priority: int): string {
    "<" + Decimal.OfInt(priority) + ">"
  }

  /** Between its brackets the preamble is the decimal numeral of the priority. */
  lemma PreambleReads(priority: nat)
    ensures var p := Preamble(priority);
      && |p| >= 3 && p[0] == '<' && p[|p| - 1] == '>'
      && Decimal.Read(p[1..|p| - 1], 0, Decimal.Value) == (priority, "")
  {
    Decimal.DigitsRead();
    Decimal.ReadsBack(priority, Decimal.Digit, Decimal.Value);
    var p := Preamble(priority);
    assert p[1..|p| - 1] == Decimal.OfNat(priority);
  }

  predicate IsInt32(n: int) {
    -0x8000_0000 <= n < 0x8000_0000
  }

  /** The preamble of any `int`, with its final NUL, fits the room left for it. */
  lemma PreambleFits(priority: int)
    requires IsInt32(priority)
    ensures 3 <= |Preamble(priority)| < 16
  {
    var n: nat := if priority < 0 then -priority else priority;
    assert n < Decimal.Pow10(10) by {
      assert Decimal.Pow10(5) == 100000;
      assert Decimal.Pow10(10) == 10000000000;
    }
    Decimal.Width(n, 10);
  }

  /** What the packets carry behind their first `n` characters. */
  function Payloads(packets: seq<string>, n: nat): string {
    if packets == [] then ""
    else
      var p := packets[|packets| - 1];
      Payloads(packets[..|packets| - 1], n) + (if n <= |p| then p[n..] else "")
  }

  lemma PayloadsSnoc(packets: seq<string>, p: string, n: nat)
    requires n <= |p|
    ensures Payloads(packets + [p], n) == Payloads(packets, n) + p[n..]
  {
    assert (packets + [p])[..|packets|] == packets;
  }

  /** A packet: at most 900 characters, the preamble first, and something behind it. */
  predicate IsPacket(p: string, preamble: string) {
    |preamble| < |p| <= MAX_PACKET && preamble <= p
  }

  /** The buffer holds the preamble and behind it what is left of the message. */
  predicate Loaded(b: seq<char>, preamble: string, rest: string) {
    && |preamble| + |rest| <= |b|
    && b[..|preamble|] == preamble && b[|preamble|..|preamble| + |rest|] == rest
  }

  /** A packet cut from the front of the buffer carries the next part of the message. */
  lemma Cut(b: seq<char>, preamble: string, rest: string, n: nat)
    requires Loaded(b, preamble, rest) && |preamble| < n <= |preamble| + |rest| && n <= MAX_PACKET
    ensures IsPacket(b[..n], preamble) && b[..n][|preamble|..] == rest[..n - |preamble|]
  {
    assert b[..n][..|preamble|] == preamble;
    assert b[|preamble|..n] == b[|preamble|..|preamble| + |rest|][..n - |preamble|];
  }

  /** The buffer after `n` characters have been moved. */
  function Moved(b: seq<char>, to: nat, from: nat, n: nat): (r: seq<char>)
    requires to + n <= |b| && from + n <= |b|
    ensures |r| == |b|
  {
    b[..to] + b[from..from + n] + b[to + n..]
  }

  /** Moving what lies behind a full packet down to the preamble leaves the rest of the message. */
  lemma Shifted(b: seq<char>, preamble: string, rest: string)
    requires Loaded(b, preamble, rest) && |preamble| < MAX_PACKET < |preamble| + |rest|
    ensures Loaded(Moved(b, |preamble|, MAX_PACKET, |rest| - (MAX_PACKET - |preamble|)), preamble, rest[MAX_PACKET - |preamble|..])
  {
    var n := |rest| - (MAX_PACKET - |preamble|);
    assert b[MAX_PACKET..MAX_PACKET + n] == b[|preamble|..|preamble| + |rest|][MAX_PACKET - |preamble|..];
  }

  /** Full packets that carry `done`. */
  predicate Carry(packets: seq<string>, preamble: string, done: string) {
    && (forall i :: 0 <= i < |packets| ==> IsPacket(packets[i], preamble) && |packets[i]| == MAX_PACKET)
    && Payloads(packets, |preamble|) == done
  }

  lemma CarryMore(packets: seq<string>, preamble: string, done: string, p: string)
    requires Carry(packets, preamble, done) && IsPacket(p, preamble)
    ensures |p| == MAX_PACKET ==> Carry(packets + [p], preamble, done + p[|preamble|..])
    ensures forall i :: 0 <= i < |packets + [p]| ==> IsPacket((packets + [p])[i], preamble)
    ensures forall i :: 0 <= i < |packets| ==> |(packets + [p])[i]| == MAX_PACKET
    ensures Payloads(packets + [p], |preamble|) == done + p[|preamble|..]
  {
    PayloadsSnoc(packets, p, |preamble|);
  }

  /** `memmove`, which copies as if by way of a second buffer. */
  method MemMove(buf: array<char>, to: nat, from: nat, n: nat)
    requires to + n <= buf.Length && from + n <= buf.Length
    modifies buf
    ensures buf[..] == Moved(old(buf[..]), to, from, n)
  {
    forall i | 0 <= i < n {
      buf[to + i] := buf[from + i];
    }
  }

  method CopyIn(buf: array<char>, to: nat, s: string)
    requires to + |s| <= buf.Length
    modifies buf
    ensures buf[..to] == old(buf[..to]) && buf[to..to + |s|] == s
  {
    forall i | 0 <= i < |s| {
      buf[to + i] := s[i];
    }
  }

  /**
   * `_append`: the packets sent for a message carry it completely and in order; all but the last are full. The
   * buffer is written in place and no access leaves it.
   */
  method Append(facility: int, priority: int, message: string) returns (packets: seq<string>)
    requires IsInt32(facility + ToSyslogPriority(priority))
    ensures forall i :: 0 <= i < |packets| ==>
      var p := Preamble(facility + ToSyslogPriority(priority)); p <= packets[i] && |p| < |packets[i]| <= 900
    ensures forall i :: 0 <= i < |packets| - 1 ==> |packets[i]| == 900
    ensures Payloads(packets, |Preamble(facility + ToSyslogPriority(priority))|) == message
  {
    hide Payloads;
    hide Loaded;
    hide ToSyslogPriority;
    hide IsInt32;
    var preamble := Preamble(facility + ToSyslogPriority(priority));
    PreambleFits(facility + ToSyslogPriority(priority));
    hide Preamble;
    packets := Split(preamble, message);
  }

  /** The loop of `_append`. */
  method Split(preamble: string, message: string) returns (packets: seq<string>)
    requires |preamble| < 16
    ensures forall i :: 0 <= i < |packets| ==> IsPacket(packets[i], preamble)
    ensures forall i :: 0 <= i < |packets| - 1 ==> |packets[i]| == MAX_PACKET
    ensures Payloads(packets, |preamble|) == message
  {
    hide Payloads;
    hide IsPacket;
    hide Loaded;
    hide Moved;
    var preambleLength, messageLength := |preamble|, |message|;
    var buf := Load(preamble, message);
    ghost var sent := 0;
    packets := [];
    CarryNone(preamble, message);
    while messageLength > 0
      invariant 0 <= sent <= |message| && messageLength == |message| - sent && preambleLength + messageLength <= buf.Length
      invariant Loaded(buf[..], preamble, message[sent..])
      invariant Carry(packets, preamble, message[..sent])
      decreases messageLength
    {
      hide Carry;
      var b := buf[..];
      if preambleLength + messageLength > MAX_PACKET {
        Cut(b, preamble, message[sent..], MAX_PACKET);
        CarryMore(packets, preamble, message[..sent], b[..MAX_PACKET]);
        Advance(message, sent, MAX_PACKET - preambleLength);
        Shifted(b, preamble, message[sent..]);
        packets := packets + [b[..MAX_PACKET]];
        messageLength := messageLength - (MAX_PACKET - preambleLength);
        MemMove(buf, preambleLength, MAX_PACKET, messageLength);
        sent := sent + (MAX_PACKET - preambleLength);
      } else {
        Cut(b, preamble, message[sent..], preambleLength + messageLength);
        CarryMore(packets, preamble, message[..sent], b[..preambleLength + messageLength]);
        Advance(message, sent, messageLength);
        packets := packets + [b[..preambleLength + messageLength]];
        return;
      }
    }
  }

  lemma CarryNone(preamble: string, message: string)
    ensures Carry([], preamble, message[..0]) && message[0..] == message
  {
  }

  lemma Advance(message: string, sent: nat, k: nat)
    requires sent + k <= |message|
    ensures message[..sent] + message[sent..][..k] == message[..sent + k]
    ensures message[sent..][k..] == message[sent + k..]
    ensures message[..|message|] == message
  {
  }

  method Load(preamble: string, message: string) returns (buf: array<char>)
    requires |preamble| < 16
    ensures fresh(buf) && buf.Length == |message| + 16 && Loaded(buf[..], preamble, message)
  {
    buf := new char[|message| + 16];
    CopyIn(buf, 0, preamble);
    buf[|preamble|] := '\0';
    CopyIn(buf, |preamble|, message);
  }
}
