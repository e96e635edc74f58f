/** Appending a number as the smallest sensible type. */
module BsonNumbers {
  import opened Wrappers
  import opened Bytes
  import opened CArithmetic
  import opened BsonDocument
  import opened BsonBuilder
  import opened BsonOrder
  import opened Doubles

  const MIN_LONG := -0x8000_0000_0000_0000

  /** `-n` on a machine word: the least number is its own negation. */
  function Negated(n: int64): int64 {
    if n == MIN_LONG then n else -n
  }

  /** What `appendNumber(long long)` appends. */
  function NumberValue(n: int64): Value {
    var nonNegative := if n >= 0 then n else Negated(n);
    if nonNegative < 0x4000_0000 then Int32(ToInt(n))
    else if nonNegative < 0x100_0000_0000 then Double(FromLong(n))
    else Int64(n)
  }

  /** What `appendIntOrLL` appends. */
  function IntOrLongValue(n: int64): Value {
    var x := if n < 0 then Negated(n) else n;
    if x < INT_MAX / 2 then Int32(ToInt(n)) else Int64(n)
  }

  method AppendNumber(b: BSONObjBuilder, name: seq<byte>, n: int64) returns (r: Outcome)
    requires b.b.Valid()
    modifies b.b
    ensures b.b.Grew(r, EncodeElement(name, NumberValue(n)))
  {
    var nonNegative := if n >= 0 then n else Negated(n);
    if nonNegative < 0x4000_0000 {
      r := b.AppendInt(name, ToInt(n));
    } else if nonNegative < 0x100_0000_0000 {
      r := b.AppendDouble(name, FromLong(n));
    } else {
      r := b.AppendLong(name, n);
    }
  }

  lemma ToIntOfMin()
    ensures ToInt(MIN_LONG) == 0
  {
    assert MIN_LONG + 0x8000_0000 == 0x1_0000_0000 * -0x8000_0000 + 0x8000_0000;
  }

  /** The number appended has the value asked for, and compares equal to it, for every long but the least. */
  lemma AppendedNumberIsEqual(n: int64)
    ensures NumberOf(NumberValue(n)) == OfLong(n) <==> n != MIN_LONG
    ensures CompareNumbers(NumberValue(n), Int64(n)) == 0 <==> n != MIN_LONG
    ensures NumberOf(IntOrLongValue(n)) == OfLong(n) <==> n != MIN_LONG
  {
    FromLongIs(n);
    hide FromLong;
    hide DoubleOf;
    hide Round;
    if n == MIN_LONG {
      ToIntOfMin();
      LeastRounds();
    } else if -0x4000_0000 < n < 0x4000_0000 {
      ToIntKeeps(n);
      ExactWithin53Bits(n);
    } else {
      assert IntOrLongValue(n) == Int64(n) || (NumberValue(n).Double? && -0x8000_0000 <= n < 0x8000_0000);
    }
  }

  lemma LeastRounds()
    ensures Round(MIN_LONG) < 0
  {
    ExactWithin53Bits(-1);
    RoundMonotone(MIN_LONG, -1);
  }
}
