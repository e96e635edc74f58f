/** Decimal numerals, written and read digit by digit. */
module Decimal {
  import opened Wrappers

  /** The numeral of `n`, most significant digit first, where `glyph` gives the character of a digit. */
  function Write<T>(n: nat, glyph: nat -> T): (s: seq<T>)
    ensures s != []
  {
    (if n < 10 then [] else Write(n / 10, glyph)) + [glyph(n % 10)]
  }

  /** Reads digits as long as there are any: the number, continuing from `value`, and what is left. */
  function Read<T>(s: seq<T>, value: nat, digit: T -> Option<nat>): (nat, seq<T>)
    decreases |s|
  {
    if s == [] || digit(s[0]).None? then (value, s) else Read(s[1..], value * 10 + digit(s[0]).value, digit)
  }

  /** Characters and digits correspond. */
  ghost predicate Inverse<T>(glyph: nat -> T, digit: T -> Option<nat>) {
    forall d: nat :: d < 10 ==> digit(glyph(d)) == Some(d)
  }

  lemma {:induction false} WritesDigits<T>(n: nat, glyph: nat -> T, digit: T -> Option<nat>)
    requires Inverse(glyph, digit)
    ensures forall i :: 0 <= i < |Write(n, glyph)| ==> digit(Write(n, glyph)[i]).Some?
  {
    if n >= 10 {
      WritesDigits(n / 10, glyph, digit);
    }
  }

  lemma {:induction false} ReadSnoc<T>(s: seq<T>, c: T, value: nat, digit: T -> Option<nat>)
    requires forall i :: 0 <= i < |s| ==> digit(s[i]).Some?
    requires digit(c).Some?
    ensures Read(s, value, digit).1 == []
    ensures Read(s + [c], value, digit) == (Read(s, value, digit).0 * 10 + digit(c).value, [])
    decreases |s|
  {
    if s == [] {
      assert s + [c] == [c];
      assert Read([c][1..], value * 10 + digit(c).value, digit) == (value * 10 + digit(c).value, []);
    } else {
      assert (s + [c])[1..] == s[1..] + [c];
      ReadSnoc(s[1..], c, value * 10 + digit(s[0]).value, digit);
    }
  }

  /** Reading a numeral gives the number back. */
  lemma {:induction false} ReadsBack<T>(n: nat, glyph: nat -> T, digit: T -> Option<nat>)
    requires Inverse(glyph, digit)
    ensures Read(Write(n, glyph), 0, digit) == (n, [])
  {
    if n < 10 {
      ReadSnoc([], glyph(n), 0, digit);
      assert [] + [glyph(n)] == [glyph(n)];
      assert Write(n, glyph) == [] + [glyph(n)];
    } else {
      ReadsBack(n / 10, glyph, digit);
      WritesDigits(n / 10, glyph, digit);
      ReadSnoc(Write(n / 10, glyph), glyph(n % 10), 0, digit);
    }
  }

  // ----- Numerals as strings -----

  function Digit(d: nat): char {
    if d < 10 then (d + '0' as int) as char else '0'
  }

  function Value(c: char): Option<nat> {
    if '0' <= c <= '9' then Some(c as int - '0' as int) else None
  }

  lemma DigitReads(d: nat)
    requires d < 10
    ensures Value(Digit(d)) == Some(d)
  {
  }

  lemma DigitsRead()
    ensures Inverse(Digit, Value)
  {
    forall d: nat | d < 10
      ensures Value(Digit(d)) == Some(d)
    {
      DigitReads(d);
    }
    hide Value;
    hide Digit;
  }

  function OfNat(n: nat): (s: string)
    ensures s != ""
  {
    Write(n, Digit)
  }

  function OfInt(n: int): (s: string)
    ensures s != ""
  {
    if n < 0 then "-" + OfNat(-n) else OfNat(n)
  }

  function Pow10(k: nat): (p: nat)
    ensures p >= 1
  {
    if k == 0 then 1 else 10 * Pow10(k - 1)
  }

  /** A number below 10^k has at most k digits. */
  lemma {:induction false} Width(n: nat, k: nat)
    requires k > 0 && n < Pow10(k)
    ensures |OfNat(n)| <= k
    decreases k
  {
    if n >= 10 {
      Width(n / 10, k - 1);
    }
  }
}
