/** IEEE 754 doubles as far as comparisons see them: their values, and how 64-bit integers round to them. */
module Doubles {
  import opened Bytes
  import opened CArithmetic

  datatype Dbl = NaN | NegInf | Finite(r: real) | PosInf

  const TWO_52 := 0x10_0000_0000_0000
  const TWO_53 := 0x20_0000_0000_0000

  /** `q * 2^k`. */
  function Scaled(q: nat, k: int): real {
    if k >= 0 then (q * Pow2(k)) as real else q as real / Pow2(-k) as real
  }

  /** The value of eight little-endian bytes: sign, 11 exponent bits, 52 fraction bits. */
  function DoubleOf(bits: seq<byte>): Dbl
    requires |bits| == 8
  {
    var u := Unsigned(bits);
    var negative := u / 0x8000_0000_0000_0000 % 2 == 1;
    var exponent := u / TWO_52 % 2048;
    var fraction := u % TWO_52;
    if exponent == 2047 then
      if fraction != 0 then NaN else if negative then NegInf else PosInf
    else
      var m := if exponent == 0 then fraction else TWO_52 + fraction;
      var e := (if exponent == 0 then 1 else exponent) - 1075;
      var r := Scaled(m, e);
      Finite(if negative then -r else r)
  }

  /** `left < right`; false when either is NaN. */
  predicate Less(a: Dbl, b: Dbl) {
    match (a, b)
    case (NaN, _) => false
    case (_, NaN) => false
    case (NegInf, _) => b != NegInf
    case (_, PosInf) => a != PosInf
    case (Finite(x), Finite(y)) => x < y
    case _ => false
  }

  // ----- (double) n -----

  /** `n / unit` rounded to the nearest integer, ties to even. */
  function HalfEven(n: nat, unit: nat): (q: nat)
    requires unit > 0
  {
    var q, rest := n / unit, n % unit;
    if 2 * rest < unit || (2 * rest == unit && q % 2 == 0) then q else q + 1
  }

  /** Keeps 53 significant bits: the unit doubles until they suffice. */
  function RoundFrom(n: nat, unit: nat): nat
    requires unit > 0
    decreases n - TWO_53 * unit
  {
    if n <= TWO_53 * unit then HalfEven(n, unit) * unit else RoundFrom(n, 2 * unit)
  }

  function Round(n: int): int {
    if n >= 0 then RoundFrom(n, 1) else 0 - RoundFrom(-n, 1)
  }

  function OfLong(n: int): Dbl {
    Finite(Round(n) as real)
  }

  lemma ExactWithin53Bits(n: int)
    requires -TWO_53 <= n <= TWO_53
    ensures Round(n) == n
  {
  }

  lemma DivMonotone(n: nat, m: nat, unit: nat)
    requires n <= m && unit > 0
    ensures n / unit <= m / unit
  {
    var q, p := n / unit, m / unit;
    if p < q {
      ProductGap(unit, p, q);
    }
  }

  lemma HalfEvenMonotone(n: nat, m: nat, unit: nat)
    requires n <= m && unit > 0
    ensures HalfEven(n, unit) <= HalfEven(m, unit)
  {
    DivMonotone(n, m, unit);
    if n / unit == m / unit {
      assert n == unit * (n / unit) + n % unit && m == unit * (n / unit) + m % unit;
    }
  }

  lemma HalfEvenBound(n: nat, unit: nat, k: nat)
    requires unit > 0 && n <= k * unit
    ensures HalfEven(n, unit) <= k
  {
    HalfEvenMonotone(n, k * unit, unit);
    assert (k * unit) / unit == k && (k * unit) % unit == 0 by {
      MultipleDivides(k, unit);
    }
  }

  lemma HalfEvenFloor(n: nat, unit: nat, k: nat)
    requires unit > 0 && k * unit <= n
    ensures k <= HalfEven(n, unit)
  {
    HalfEvenMonotone(k * unit, n, unit);
    assert (k * unit) / unit == k && (k * unit) % unit == 0 by {
      MultipleDivides(k, unit);
    }
  }

  lemma {:induction false} MultipleDivides(k: nat, unit: nat)
    requires unit > 0
    ensures (k * unit) / unit == k && (k * unit) % unit == 0
  {
    var q, r := (k * unit) / unit, (k * unit) % unit;
    assert k * unit == q * unit + r;
    UniqueRemainder(unit, 0, k, r, q);
    if q < k {
      ProductGap(unit, q, k);
    } else if k < q {
      ProductGap(unit, k, q);
    }
  }

  lemma {:induction false} RoundFromFloor(m: nat, unit: nat)
    requires unit > 0 && m > TWO_53 * unit
    ensures RoundFrom(m, unit) >= TWO_53 * unit
    decreases m - TWO_53 * unit
  {
    if m <= TWO_53 * (2 * unit) {
      HalfEvenFloor(m, 2 * unit, TWO_52);
      Scales(2 * unit, TWO_52, HalfEven(m, 2 * unit));
    } else {
      RoundFromFloor(m, 2 * unit);
    }
  }

  lemma Scales(unit: nat, p: int, q: int)
    requires p <= q
    ensures unit * p <= unit * q
  {
    if p < q {
      ProductGap(unit, p, q);
    }
  }

  lemma {:induction false} RoundFromMonotone(n: nat, m: nat, unit: nat)
    requires unit > 0 && n <= m
    ensures RoundFrom(n, unit) <= RoundFrom(m, unit)
    decreases m - TWO_53 * unit
  {
    if m <= TWO_53 * unit {
      HalfEvenMonotone(n, m, unit);
      Scales(unit, HalfEven(n, unit), HalfEven(m, unit));
    } else if n > TWO_53 * unit {
      RoundFromMonotone(n, m, 2 * unit);
    } else {
      HalfEvenBound(n, unit, TWO_53);
      Scales(unit, HalfEven(n, unit), TWO_53);
      RoundFromFloor(m, unit);
    }
  }

  /** Converting to double never reverses an order. */
  lemma RoundMonotone(n: int, m: int)
    requires n <= m
    ensures Round(n) <= Round(m)
  {
    if n >= 0 {
      RoundFromMonotone(n, m, 1);
    } else if m < 0 {
      RoundFromMonotone(-m, -n, 1);
    }
  }

  // ----- The bytes of (double) n -----

  function Abs(n: int): nat {
    if n >= 0 then n else -n
  }

  /** What `RoundFrom` computes as a significand and a power of two. */
  function Parts(n: nat, unit: nat, k: nat): (nat, nat)
    requires unit > 0
    decreases n - TWO_53 * unit
  {
    if n <= TWO_53 * unit then (HalfEven(n, unit), k) else Parts(n, 2 * unit, k + 1)
  }

  /** Shifts the significand up until it has 53 bits. */
  function Normal(q: nat, k: int): (nat, int)
    requires 0 < q < TWO_53
    decreases TWO_53 - q
  {
    if q >= TWO_52 then (q, k) else Normal(2 * q, k - 1)
  }

  /** The 53-bit significand and the exponent of `q * 2^k`. */
  function Significand(q: nat, k: int): (nat, int)
    requires 0 < q <= TWO_53
  {
    if q == TWO_53 then (TWO_52, k + 1) else Normal(q, k)
  }

  /** `(double) n`. */
  function FromLong(n: int64): (bits: seq<byte>)
    ensures |bits| == 8
  {
    PartsOfLong(n);
    var (q, k) := Parts(Abs(n), 1, 0);
    if q == 0 then LittleEndian(0, 8)
    else
      var (m, e) := Significand(q, k);
      LittleEndian(Word(n < 0, e + 1075, m - TWO_52), 8)
  }

  lemma Pow2Values()
    ensures Pow2(10) == 1024 && Pow2(52) == TWO_52
  {
    assert Pow2(7) == 128 && Pow2(14) == 0x4000;
    assert Pow2(21) == 0x20_0000;
    assert Pow2(28) == 0x1000_0000;
    assert Pow2(35) == 0x8_0000_0000;
    assert Pow2(42) == 0x400_0000_0000;
    assert Pow2(49) == 0x2_0000_0000_0000;
  }

  lemma {:induction false} PartsRound(n: nat, unit: nat, k: nat)
    requires unit == Pow2(k) && k <= 10 && n <= 0x8000_0000_0000_0000
    ensures var (q, j) := Parts(n, unit, k); q <= TWO_53 && j <= 10 && RoundFrom(n, unit) == q * Pow2(j)
    decreases n - TWO_53 * unit
  {
    if n <= TWO_53 * unit {
      HalfEvenBound(n, unit, TWO_53);
    } else {
      Pow2Values();
      PartsRound(n, 2 * unit, k + 1);
    }
  }

  lemma PartsOfLong(n: int64)
    ensures var (q, k) := Parts(Abs(n), 1, 0);
      q <= TWO_53 && k <= 10 && Round(n) as real == if n >= 0 then Scaled(q, k) else -Scaled(q, k)
  {
    PartsRound(Abs(n), 1, 0);
    hide Parts;
    hide RoundFrom;
    var (q, k) := Parts(Abs(n), 1, 0);
    var v := q * Pow2(k);
    assert (0 - v) as real == -(v as real);
  }

  lemma ScaledTwice(q: nat, k: int)
    ensures Scaled(2 * q, k - 1) == Scaled(q, k)
  {
    if k > 0 {
      assert (2 * q) * Pow2(k - 1) == q * (2 * Pow2(k - 1));
    } else {
      HalvesCancel(q as real, Pow2(-k) as real);
      assert Pow2(-(k - 1)) == 2 * Pow2(-k);
    }
  }

  lemma HalvesCancel(x: real, y: real)
    requires y > 0.0
    ensures (2.0 * x) / (2.0 * y) == x / y
  {
    assert (2.0 * y) * (x / y) == 2.0 * x;
  }

  /** Normalising keeps the value, and shifts by no more than 52 places. */
  lemma {:induction false} NormalIs(q: nat, k: int, j: nat)
    requires 0 < q < TWO_53 && j <= 52 && Pow2(j) <= q
    ensures var (m, e) := Normal(q, k); TWO_52 <= m < TWO_53 && Scaled(m, e) == Scaled(q, k) && k - 52 + j <= e <= k
    decreases TWO_53 - q
  {
    hide Scaled;
    Pow2Values();
    if q < TWO_52 {
      ScaledTwice(q, k);
      NormalIs(2 * q, k - 1, j + 1);
    }
  }

  /** Sign, exponent and fraction as one 64-bit word. */
  function Word(negative: bool, exponent: int, fraction: int): int {
    (if negative then 0x8000_0000_0000_0000 else 0) + exponent * TWO_52 + fraction
  }

  lemma WordFields(negative: bool, exponent: int, fraction: int)
    requires 0 <= exponent < 2048 && 0 <= fraction < TWO_52
    ensures var u := Word(negative, exponent, fraction);
      && 0 <= u < 0x1_0000_0000_0000_0000
      && u % TWO_52 == fraction && u / TWO_52 % 2048 == exponent
      && (u / 0x8000_0000_0000_0000 % 2 == 1 <==> negative)
  {
    var u := Word(negative, exponent, fraction);
    assert u / TWO_52 == (if negative then 2048 else 0) + exponent;
  }

  /** The three fields of a double are read back. */
  lemma FieldsRead(negative: bool, exponent: int, fraction: int)
    requires 0 < exponent < 2047 && 0 <= fraction < TWO_52
    ensures var r := Scaled(TWO_52 + fraction, exponent - 1075);
      DoubleOf(LittleEndian(Word(negative, exponent, fraction), 8)) == Finite(if negative then -r else r)
  {
    hide Scaled;
    hide LittleEndian;
    hide Unsigned;
    Powers();
    WordFields(negative, exponent, fraction);
    hide Word;
    UnsignedRoundTrip(Word(negative, exponent, fraction), 8);
  }

  lemma ZeroRead()
    ensures DoubleOf(LittleEndian(0, 8)) == Finite(0.0)
  {
    hide LittleEndian;
    hide Unsigned;
    Powers();
    UnsignedRoundTrip(0, 8);
    assert Scaled(0, -1074) == 0.0;
  }

  lemma SignificandIs(q: nat, k: int)
    requires 0 < q <= TWO_53
    ensures var (m, e) := Significand(q, k); TWO_52 <= m < TWO_53 && Scaled(m, e) == Scaled(q, k) && k - 52 <= e <= k + 1
  {
    hide Scaled;
    if q == TWO_53 {
      ScaledTwice(TWO_52, k + 1);
    } else {
      NormalIs(q, k, 0);
    }
  }

  /** The double a long converts to exists: these are its bytes. */
  lemma FromLongIs(n: int64)
    ensures DoubleOf(FromLong(n)) == OfLong(n)
  {
    hide LittleEndian;
    hide DoubleOf;
    hide Parts;
    hide Round;
    PartsOfLong(n);
    var (q, k) := Parts(Abs(n), 1, 0);
    if q == 0 {
      ZeroRead();
    } else {
      var (m, e) := Significand(q, k);
      SignificandIs(q, k);
      hide Significand;
      hide Scaled;
      FieldsRead(n < 0, e + 1075, m - TWO_52);
    }
  }

  /** The first integer that a double cannot hold collapses onto its neighbour. */
  lemma FirstInexact()
    ensures Round(TWO_53 + 1) == Round(TWO_53) == TWO_53
  {
    ExactWithin53Bits(TWO_53);
    var n := TWO_53 + 1;
    assert n / 2 == TWO_52 && n % 2 == 1;
    assert HalfEven(n, 2) == TWO_52;
    assert RoundFrom(n, 1) == RoundFrom(n, 2) == TWO_52 * 2;
  }

  lemma BytesOfTwo53()
    ensures DoubleOf([0, 0, 0, 0, 0, 0, 0x40, 0x43]) == OfLong(TWO_53)
  {
    var bits: seq<byte> := [0, 0, 0, 0, 0, 0, 0x40, 0x43];
    assert Unsigned(bits) == Word(false, 1076, 0);
    hide Unsigned;
    WordFields(false, 1076, 0);
    hide Word;
    assert Scaled(TWO_52, 1) == TWO_53 as real;
    ExactWithin53Bits(TWO_53);
  }
}
