/** The array builder: values named by their position, gaps filled with nulls. */
module BsonArray {
  import opened Wrappers
  import opened Bytes
  import opened CArithmetic
  import opened BsonDocument
  import opened BsonBuilder
  import opened BsonNesting
  import opened Sequences
  import Decimal

  const MAX_ELEMS := 1500000
  const NOT_A_POSITION := 13048
  const BACKFILL_TOO_LARGE := 15891
  const LONG_MAX := 0x7fff_ffff_ffff_ffff

  // ----- Positions as names -----

  function Glyph(d: nat): byte {
    if d < 10 then (48 + d) as byte else 48
  }

  function DigitOf(b: byte): Option<nat> {
    if IsDigit(b) then Some(b as int - 48) else None
  }

  /** `numStr`: the decimal numeral. */
  function NumStr(n: nat): (s: seq<byte>)
    ensures s != [] && NulFree(s) && forall i :: 0 <= i < |s| ==> IsDigit(s[i])
  {
    Decimal.WritesDigits(n, Glyph, DigitOf);
    Decimal.Write(n, Glyph)
  }

  predicate IsDigit(b: byte) {
    48 <= b <= 57
  }

  predicate IsSpace(b: byte) {
    b == 32 || 9 <= b <= 13
  }

  /** `strtol` in base 10: the value, and what follows the number; the whole of `s` when there is no number. */
  function StrToL(s: seq<byte>): (int, seq<byte>) {
    var t := SkipSpaces(s);
    var negative := t != [] && t[0] == 45;
    var u := if t != [] && (t[0] == 45 || t[0] == 43) then t[1..] else t;
    if u == [] || !IsDigit(u[0]) then (0, s)
    else
      var (n, rest) := Decimal.Read(u, 0, DigitOf);
      (if negative then (if n > LONG_MAX then -LONG_MAX - 1 else 0 - n) else if n > LONG_MAX then LONG_MAX else n, rest)
  }

  function SkipSpaces(s: seq<byte>): seq<byte>
    decreases |s|
  {
    if s != [] && IsSpace(s[0]) then SkipSpaces(s[1..]) else s
  }

  /** A name is a position when `strtol` stops at the end of the C string. */
  predicate IsPosition(name: seq<byte>) {
    var rest := StrToL(name).1;
    rest == [] || rest[0] == 0
  }

  /** Reading a numeral stops at its end; the value is cut off at the greatest long. */
  lemma PositionReads(n: nat)
    ensures StrToL(NumStr(n)) == (if n <= LONG_MAX then n else LONG_MAX, []) && IsPosition(NumStr(n))
  {
    Decimal.ReadsBack(n, Glyph, DigitOf);
    var s := NumStr(n);
    assert IsDigit(s[0]);
    assert SkipSpaces(s) == s;
  }

  /** The position a numeral is taken for: itself below 2^31, and no longer from there on. */
  lemma PositionKept(n: nat)
    ensures IsPosition(NumStr(n))
    ensures PositionOf(NumStr(n)) == n <==> n < 0x8000_0000
    ensures n > LONG_MAX ==> PositionOf(NumStr(n)) == -1
  {
    hide NumStr;
    hide StrToL;
    PositionReads(n);
  }

  /** `fill(n)` after `strtol`: the long is passed as an `int`. */
  function PositionOf(name: seq<byte>): int32 {
    ToInt(StrToL(name).0)
  }

  // ----- The builder -----

  /** The values of an array as a document: each is named by its position. */
  function Indexed(vs: seq<Value>, from: nat): Doc
    decreases |vs|
  {
    if vs == [] then Nil else Cons(NumStr(from), vs[0], Indexed(vs[1..], from + 1))
  }

  function Nulls(n: int): (vs: seq<Value>)
    ensures |vs| == if n < 0 then 0 else n
    ensures forall i :: 0 <= i < |vs| ==> vs[i] == Null
  {
    if n <= 0 then [] else seq(n, _ => Null)
  }

  lemma {:induction false} IndexedSnoc(vs: seq<Value>, v: Value, from: nat)
    ensures EncodeList(Indexed(vs + [v], from)) == EncodeList(Indexed(vs, from)) + EncodeElement(NumStr(from + |vs|), v)
    decreases |vs|
  {
    hide EncodeElement;
    hide NumStr;
    if vs == [] {
      assert vs + [v] == [v];
      assert Indexed([v][1..], from + 1) == Nil;
      assert EncodeList(Indexed([v], from)) == EncodeElement(NumStr(from), v) + [];
    } else {
      assert (vs + [v])[1..] == vs[1..] + [v];
      IndexedSnoc(vs[1..], v, from + 1);
      Associates(EncodeElement(NumStr(from), vs[0]), EncodeList(Indexed(vs[1..], from + 1)), EncodeElement(NumStr(from + |vs|), v));
    }
  }

  lemma {:induction false} IndexedAppend(vs: seq<Value>, ws: seq<Value>, from: nat)
    ensures EncodeList(Indexed(vs + ws, from)) == EncodeList(Indexed(vs, from)) + EncodeList(Indexed(ws, from + |vs|))
    decreases |ws|
  {
    hide EncodeElement;
    hide NumStr;
    hide EncodeList;
    if ws == [] {
      ListParts(Nil);
      assert vs + ws == vs;
      assert EncodeList(Indexed(vs, from)) + [] == EncodeList(Indexed(vs, from));
    } else {
      var v, rest := ws[0], ws[1..];
      assert vs + ws == (vs + [v]) + rest;
      hide Indexed;
      IndexedAppend(vs + [v], rest, from);
      IndexedSnoc(vs, v, from);
      IndexedCons(ws, from + |vs|);
      Associates(EncodeList(Indexed(vs, from)), EncodeElement(NumStr(from + |vs|), v), EncodeList(Indexed(rest, from + |vs| + 1)));
    }
  }

  lemma IndexedCons(vs: seq<Value>, from: nat)
    requires vs != []
    ensures EncodeList(Indexed(vs, from)) == EncodeElement(NumStr(from), vs[0]) + EncodeList(Indexed(vs[1..], from + 1))
  {
    hide EncodeElement;
    hide NumStr;
  }

  /** Every element takes a byte at least, so there are no more of them than bytes. */
  lemma {:induction false} IndexedIsLong(vs: seq<Value>, from: nat)
    ensures |EncodeList(Indexed(vs, from))| >= |vs|
    decreases |vs|
  {
    if vs != [] {
      IndexedCons(vs, from);
      ElementIsNotEmpty(NumStr(from), vs[0]);
      IndexedIsLong(vs[1..], from + 1);
    }
  }

  class BSONArrayBuilder {
    const b: BSONObjBuilder
    var i: nat
    ghost var values: seq<Value>

    /** The bytes so far are those of the values, named 0, 1, 2, and so on. */
    ghost predicate Valid()
      reads this, b, b.b
    {
      b.Valid() && !b.doneCalled && i == |values| && b.Body() == EncodeList(Indexed(values, 0))
    }

    constructor (b: BSONObjBuilder)
      requires b.Valid() && !b.doneCalled && b.Body() == []
      ensures this.b == b && Valid() && values == []
    {
      this.b, i, values := b, 0, [];
    }

    /** Whether the values `vs` find room behind those there are. */
    ghost predicate HasRoom(vs: seq<Value>)
      reads this, b, b.b
    {
      Fits(b.b, EncodeList(Indexed(vs, |values|)))
    }

    /** The array has grown by `vs`, and the bytes by theirs. */
    twostate predicate Extended(vs: seq<Value>)
      reads this, b, b.b
    {
      && Valid() && values == old(values) + vs
      && b.b.data == old(b.b.data) + EncodeList(Indexed(vs, |old(values)|))
      && b.b.Limit() == old(b.b.Limit())
    }

    /** Appends any value at the next position; a document in it is finished first and copied in. */
    method Append(v: Value) returns (r: Outcome)
      requires Valid()
      modifies this`i, this`values, b.b
      ensures r.Pass? <==> ValueChildrenSmall(v) && old(HasRoom([v]))
      ensures r.Pass? ==> Extended([v])
      ensures b.Valid() && !b.doneCalled
    {
      hide EncodeDoc;
      hide EncodeList;
      hide Indexed;
      hide ValueChildrenSmall;
      var child := BuildChild(v);
      if child.Failure? {
        return Fail(child.code);
      }
      r := AppendNext(v, child.value);
    }

    method AppendNext(v: Value, child: seq<byte>) returns (r: Outcome)
      requires Valid() && (IsLeaf(v) || child == EncodeDoc(ChildOf(v)))
      modifies this`i, this`values, b.b
      ensures r.Pass? <==> old(HasRoom([v]))
      ensures r.Pass? ==> Extended([v])
      ensures b.Valid() && !b.doneCalled
    {
      hide EncodeDoc;
      hide EncodeElement;
      hide EncodeList;
      hide Indexed;
      hide NumStr;
      hide IsLeaf;
      var name := NumStr(i);
      i := i + 1;
      ghost var at, data := b.offset + 4, b.b.data;
      assert data[at..|data|] == EncodeList(Indexed(values, 0));
      OneIndexed(v, |values|);
      r := AppendBuilt(b, name, v, child);
      if r.Pass? {
        BodyGrows(data, EncodeElement(name, v), at);
        IndexedSnoc(values, v, 0);
        values := values + [v];
        assert b.b.data[at..|b.b.data|] == EncodeList(Indexed(values, 0));
      }
    }

    /** `fill(int)`: nulls up to a position; a position already passed is ignored. */
    method Fill(upTo: int32) returns (r: Outcome)
      requires Valid()
      modifies this`i, this`values, b.b
      ensures r.Pass? <==> upTo <= MAX_ELEMS && old(HasRoom(Nulls(upTo - |values|)))
      ensures r.Pass? ==> Extended(Nulls(upTo - |old(values)|))
      ensures upTo > MAX_ELEMS ==> r == Fail(BACKFILL_TOO_LARGE) && Valid() && values == old(values) && b.b.data == old(b.b.data)
      ensures b.Valid() && !b.doneCalled
    {
      hide EncodeList;
      hide Indexed;
      if upTo > MAX_ELEMS {
        return Fail(BACKFILL_TOO_LARGE);
      }
      ghost var was, filled: nat := values, 0;
      ghost var all := Nulls(upTo - |was|);
      NothingIndexed(|was|);
      assert was + [] == was && b.b.data + [] == b.b.data;
      while i < upTo
        invariant filled <= |all| && filled == |values| - |was|
        invariant Extended(Nulls(filled)) && (filled > 0 ==> |b.b.data| <= b.b.Limit())
        decreases upTo - i
      {
        OneMoreNull(filled, |all|, |was|);
        r := Append(Null);
        if r.Fail? {
          return;
        }
        filled := filled + 1;
        assert was + Nulls(filled) == was + Nulls(filled - 1) + [Null];
      }
      assert Nulls(filled) == all;
      return Pass;
    }

    /** `append(name, v)`: the name must be a number, and is a lower bound for the position the value takes. */
    method AppendAt(name: seq<byte>, v: Value) returns (r: Outcome)
      requires Valid()
      modifies this`i, this`values, b.b
      ensures r.Pass? <==>
        && IsPosition(name) && PositionOf(name) <= MAX_ELEMS && ValueChildrenSmall(v)
        && old(HasRoom(Nulls(PositionOf(name) - |values|) + [v]))
      ensures r.Pass? ==> Extended(Nulls(PositionOf(name) - |old(values)|) + [v])
      ensures ValueChildrenSmall(v) && !IsPosition(name) ==> r == Fail(NOT_A_POSITION) && Valid() && values == old(values)
      ensures b.Valid() && !b.doneCalled
    {
      hide EncodeDoc;
      hide EncodeList;
      hide Indexed;
      hide StrToL;
      hide ValueChildrenSmall;
      var child := BuildChild(v);
      if child.Failure? {
        return Fail(child.code);
      }
      var (n, rest) := StrToL(name);
      if rest != [] && rest[0] != 0 {
        return Fail(NOT_A_POSITION);
      }
      r := AppendFrom(ToInt(n), v, child.value);
    }

    method AppendFrom(upTo: int32, v: Value, child: seq<byte>) returns (r: Outcome)
      requires Valid() && (IsLeaf(v) || child == EncodeDoc(ChildOf(v)))
      modifies this`i, this`values, b.b
      ensures r.Pass? <==> upTo <= MAX_ELEMS && old(HasRoom(Nulls(upTo - |values|) + [v]))
      ensures r.Pass? ==> Extended(Nulls(upTo - |old(values)|) + [v])
      ensures b.Valid() && !b.doneCalled
    {
      hide EncodeDoc;
      hide EncodeList;
      hide Indexed;
      hide IsLeaf;
      ghost var was, nulls := values, Nulls(upTo - |values|);
      IndexedAppend(nulls, [v], |was|);
      OneIndexed(v, |was| + |nulls|);
      Associates(b.b.data, EncodeList(Indexed(nulls, |was|)), EncodeList(Indexed([v], |was| + |nulls|)));
      assert was + nulls + [v] == was + (nulls + [v]);
      hide Nulls;
      :- Fill(upTo);
      r := AppendNext(v, child);
    }

    /**
     * `append(numStr(n), v)` for any `n`. The value lands at position `n`, with nulls before it, exactly when that
     * position is not yet passed and at most 1500000, and the bytes fit.
     */
    method AppendAtNumber(n: nat, v: Value) returns (r: Outcome)
      requires Valid()
      modifies this`i, this`values, b.b
      ensures r.Pass? && |values| == n + 1 <==>
        |old(values)| <= n <= MAX_ELEMS && ValueChildrenSmall(v) && old(HasRoom(Nulls(n - |values|) + [v]))
      ensures r.Pass? && |values| == n + 1 ==> Extended(Nulls(n - |old(values)|) + [v])
      ensures r.Pass? ==> Extended(Nulls(|values| - 1 - |old(values)|) + [v])
      ensures b.Valid() && !b.doneCalled
    {
      hide EncodeList;
      hide Indexed;
      hide NumStr;
      hide StrToL;
      hide ValueChildrenSmall;
      hide IsPosition;
      PositionKept(n);
      IndexedIsLong(values, 0);
      r := AppendAt(NumStr(n), v);
    }
  }

  lemma OneIndexed(v: Value, from: nat)
    ensures EncodeList(Indexed([v], from)) == EncodeElement(NumStr(from), v)
    ensures EncodeElement(NumStr(from), v) != []
  {
    hide EncodeElement;
    hide NumStr;
    IndexedCons([v], from);
    ElementIsNotEmpty(NumStr(from), v);
    assert EncodeElement(NumStr(from), v) + [] == EncodeElement(NumStr(from), v);
  }

  lemma NothingIndexed(from: nat)
    ensures EncodeList(Indexed([], from)) == [] && Nulls(0) == []
  {
  }

  /** One more null adds its bytes, and the first few take no more room than all of them. */
  lemma OneMoreNull(filled: nat, all: nat, from: nat)
    requires filled < all
    ensures EncodeList(Indexed(Nulls(filled + 1), from))
         == EncodeList(Indexed(Nulls(filled), from)) + EncodeList(Indexed([Null], from + filled))
    ensures |EncodeList(Indexed(Nulls(filled + 1), from))| <= |EncodeList(Indexed(Nulls(all), from))|
    ensures EncodeList(Indexed(Nulls(all), from)) != [] && EncodeList(Indexed([Null], from + filled)) != []
  {
    hide EncodeList;
    hide Indexed;
    OneIndexed(Null, from + filled);
    IndexedAppend(Nulls(filled), [Null], from);
    assert Nulls(filled + 1) == Nulls(filled) + [Null];
    IndexedAppend(Nulls(filled + 1), Nulls(all - filled - 1), from);
    assert Nulls(all) == Nulls(filled + 1) + Nulls(all - filled - 1);
  }
}
