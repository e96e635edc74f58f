/** The growable buffer and the document builder that writes on it, possibly sharing it with nested builders. */
module BsonBuilder {
  import opened Wrappers
  import opened Bytes
  import opened CArithmetic
  import opened BsonDocument
  import opened BsonElement

  const BUFFER_MAX_SIZE := 64 * 1024 * 1024
  const BUFFER_LIMIT := 13548
  const INVALID_OBJECT := 10334
  const NOT_OWNED := 10335

  function Max(a: int, b: int): int {
    if a < b then b else a
  }

  class BufBuilder {
    var data: seq<byte>
    var size: nat     // allocated bytes
    var overrun: nat  // how far the length counted is past `data` after an append that threw

    constructor (initSize: nat)
      requires initSize <= INT_MAX
      ensures Valid() && data == [] && size == initSize && Limit() == Max(initSize, BUFFER_MAX_SIZE)
    {
      data, size, overrun := [], initSize, 0;
    }

    ghost predicate Valid()
      reads this
    {
      |data| <= size <= INT_MAX && (overrun > 0 ==> |data| + overrun > Max(size, BUFFER_MAX_SIZE))
    }

    /** The length this buffer can reach before it throws; once it has thrown, not even an empty append succeeds. */
    ghost function Limit(): int
      reads this
    {
      if overrun > 0 then -1 else Max(size, BUFFER_MAX_SIZE)
    }

    /** Exactly the appends that fit succeed, and a success adds exactly `s`. */
    twostate predicate Grew(r: Outcome, s: seq<byte>)
      reads this
    {
      && (r.Pass? <==> |old(data)| + |s| <= old(Limit()))
      && (r.Pass? ==> data == old(data) + s)
      && |old(data)| <= |data|
      && Limit() == (if r.Pass? then old(Limit()) else -1)
      && Valid()
    }

    /** Doubles from 64 until `needed` bytes fit; throws past 64 MB. */
    method Reallocate(needed: nat) returns (r: Outcome)
      requires needed > size
      modifies this`size
      ensures r.Pass? <==> needed <= Max(old(size), BUFFER_MAX_SIZE)
      ensures r.Pass? ==> needed <= size <= INT_MAX
      ensures r.Fail? ==> size == old(size)
      ensures Max(size, BUFFER_MAX_SIZE) == Max(old(size), BUFFER_MAX_SIZE)
    {
      var a := 64;
      ghost var n := 0;
      while a < needed
        invariant a == 64 * Pow2(n)
        invariant n > 0 ==> 32 * Pow2(n) < needed
        decreases needed - a
      {
        a, n := a * 2, n + 1;
      }
      assert Pow2(7) == 128 && Pow2(14) == 16384 && Pow2(20) == 0x10_0000;
      if a > BUFFER_MAX_SIZE {
        if n < 20 {
          Pow2Gap(n, 20);
          assert false;
        } else if n > 21 {
          Pow2Gap(21, n);
        }
        return Fail(BUFFER_LIMIT);
      }
      size := a;
      return Pass;
    }

    /** The length has already moved when the reallocation throws, so that every later append throws as well. */
    method AppendBuf(src: seq<byte>) returns (r: Outcome)
      requires Valid()
      modifies this
      ensures Grew(r, src)
    {
      var needed := |data| + overrun + |src|;
      if needed > size {
        r := Reallocate(needed);
        if r.Fail? {
          overrun := overrun + |src|;
          return;
        }
      }
      data := data + src;
      return Pass;
    }

    /** Leaves `n` bytes of unspecified content. */
    method Skip(n: nat) returns (r: Outcome, ghost junk: seq<byte>)
      requires Valid()
      modifies this
      ensures |junk| == n && Grew(r, junk)
    {
      var fill: seq<byte> :| |fill| == n by {
        assert |seq(n, _ => 0 as byte)| == n;
      }
      junk := fill;
      r := AppendBuf(fill);
    }

    method AppendChar(c: byte) returns (r: Outcome)
      requires Valid()
      modifies this
      ensures Grew(r, [c])
    {
      r := AppendBuf([c]);
    }

    method AppendNum(n: int) returns (r: Outcome)
      requires Valid()
      modifies this
      ensures Grew(r, Int32Bytes(n))
    {
      r := AppendBuf(Int32Bytes(n));
    }

    method AppendNum64(n: int) returns (r: Outcome)
      requires Valid()
      modifies this
      ensures Grew(r, Int64Bytes(n))
    {
      r := AppendBuf(Int64Bytes(n));
    }

    method AppendStr(s: seq<byte>) returns (r: Outcome)
      requires Valid()
      modifies this
      ensures Grew(r, s + [0])
    {
      r := AppendBuf(s + [0]);
    }

    /** Ends the document that starts at `at` and patches its size into the four bytes reserved for it. */
    method Close(at: nat) returns (r: Outcome)
      requires Valid() && at + 4 <= |data|
      modifies this
      ensures r.Pass? <==> |old(data)| + 1 <= old(Limit())
      ensures r.Pass? ==> data == old(data)[..at] + Frame(old(data)[at + 4..]) && |data| == |old(data)| + 1
      ensures Valid() && |old(data)| <= |data| && Limit() == if r.Pass? then old(Limit()) else -1
    {
      hide LittleEndian;
      hide Int32Bytes;
      hide Frame;
      Patched(data, at);
      r := AppendChar(EOO);
      if r.Fail? {
        return;
      }
      data := data[..at] + Int32Bytes(|data| - at) + data[at + 4..];
    }
  }

  /** Closing a document and patching its size in puts a frame around its body. */
  lemma Patched(data: seq<byte>, offset: nat)
    requires offset + 4 <= |data|
    ensures var d := data + [EOO];
      d[..offset] + Int32Bytes(|d| - offset) + d[offset + 4..] == data[..offset] + Frame(data[offset + 4..])
  {
    hide LittleEndian;
    hide Int32Bytes;
    assert (data + [EOO])[offset + 4..] == data[offset + 4..] + [EOO];
  }

  /** Appending to the buffer appends to the body that is being written at its end. */
  lemma BodyGrows(data: seq<byte>, s: seq<byte>, at: nat)
    requires at <= |data|
    ensures (data + s)[at..|data| + |s|] == data[at..|data|] + s
  {
  }

  lemma BodyIsRest(data: seq<byte>, at: nat)
    requires at <= |data|
    ensures data[at..|data| - 0] == data[at..]
  {
  }

  lemma DBRefBytes(name: seq<byte>, ns: seq<byte>, id: Bytes12)
    ensures EncodeElement(name, DBRef(ns, id)) == Header(DB_REF, name) + EncodeString(ns) + id
  {
    hide EncodeString;
    hide EncodeDoc;
  }

  /** Writes one document at `offset` of `b`; nested builders write on the same `b`. */
  class BSONObjBuilder {
    const b: BufBuilder
    const offset: nat
    const owned: bool
    var doneCalled: bool

    ghost predicate Valid()
      reads this, b
    {
      b.Valid() && offset + 4 + (if doneCalled then 1 else 0) <= |b.data|
    }

    /** The element bytes written so far. */
    ghost function Body(): seq<byte>
      reads this, b
      requires Valid()
    {
      b.data[offset + 4..|b.data| - if doneCalled then 1 else 0]
    }

    constructor (b: BufBuilder, offset: nat, owned: bool)
      ensures this.b == b && this.offset == offset && this.owned == owned && !doneCalled
    {
      this.b, this.offset, this.owned, doneCalled := b, offset, owned, false;
    }

    /** A builder with a buffer of its own: a reference count, then room for the size. */
    static method Create(initSize: nat) returns (r: Result<BSONObjBuilder>)
      requires initSize + 4 <= INT_MAX
      ensures r.Success? ==> fresh(r.value) && fresh(r.value.b) && r.value.owned && r.value.offset == 4
      ensures r.Success? ==> r.value.Valid() && !r.value.doneCalled && |r.value.b.data| == 8
      ensures r.Success? ==> r.value.b.Limit() == Max(initSize + 4, BUFFER_MAX_SIZE)
      ensures r.Success?
    {
      var buf := new BufBuilder(initSize + 4);
      var count := buf.AppendNum(0);
      var room, junk := buf.Skip(4);
      var builder := new BSONObjBuilder(buf, 4, true);
      return Success(builder);
    }

    /** A builder that continues on somebody else's buffer. */
    static method Nested(base: BufBuilder) returns (r: Result<BSONObjBuilder>, ghost junk: seq<byte>)
      requires base.Valid()
      modifies base
      ensures |junk| == 4
      ensures base.Grew(if r.Success? then Pass else Fail(BUFFER_LIMIT), junk)
      ensures r.Success? ==> fresh(r.value) && r.value.b == base && r.value.offset == |old(base.data)| && !r.value.owned
      ensures r.Success? ==> r.value.Valid() && !r.value.doneCalled && r.value.Body() == []
    {
      var offset := |base.data|;
      var room;
      room, junk := base.Skip(4);
      if room.Fail? {
        return Failure(room.code), junk;
      }
      var builder := new BSONObjBuilder(base, offset, false);
      r := Success(builder);
    }

    // ----- Appenders: each adds exactly the bytes of its element -----

    method AppendHeader(tag: byte, name: seq<byte>) returns (r: Outcome)
      requires b.Valid()
      modifies b
      ensures b.Grew(r, Header(tag, name))
    {
      r := b.AppendChar(tag);
      if r.Fail? {
        return;
      }
      r := b.AppendStr(name);
    }

    method AppendBool(name: seq<byte>, val: bool) returns (r: Outcome)
      requires b.Valid()
      modifies b
      ensures b.Grew(r, EncodeElement(name, Bool(val)))
    {
      hide EncodeDoc;
      hide LittleEndian;
      r := AppendHeader(BOOL, name);
      if r.Fail? {
        return;
      }
      r := b.AppendChar(if val then 1 else 0);
    }

    method AppendInt(name: seq<byte>, n: int32) returns (r: Outcome)
      requires b.Valid()
      modifies b
      ensures b.Grew(r, EncodeElement(name, Int32(n)))
    {
      hide EncodeDoc;
      hide LittleEndian;
      r := AppendHeader(INT32, name);
      if r.Fail? {
        return;
      }
      r := b.AppendNum(n);
    }

    method AppendLong(name: seq<byte>, n: int64) returns (r: Outcome)
      requires b.Valid()
      modifies b
      ensures b.Grew(r, EncodeElement(name, Int64(n)))
    {
      hide EncodeDoc;
      hide LittleEndian;
      r := AppendHeader(INT64, name);
      if r.Fail? {
        return;
      }
      r := b.AppendNum64(n);
    }

    method AppendDouble(name: seq<byte>, bits: Bytes8) returns (r: Outcome)
      requires b.Valid()
      modifies b
      ensures b.Grew(r, EncodeElement(name, Double(bits)))
    {
      hide EncodeDoc;
      hide LittleEndian;
      r := AppendHeader(DOUBLE, name);
      if r.Fail? {
        return;
      }
      r := b.AppendBuf(bits);
    }

    method AppendOid(name: seq<byte>, id: Bytes12) returns (r: Outcome)
      requires b.Valid()
      modifies b
      ensures b.Grew(r, EncodeElement(name, Oid(id)))
    {
      hide EncodeDoc;
      hide LittleEndian;
      r := AppendHeader(OID, name);
      if r.Fail? {
        return;
      }
      r := b.AppendBuf(id);
    }

    method AppendDate(name: seq<byte>, ms: int64) returns (r: Outcome)
      requires b.Valid()
      modifies b
      ensures b.Grew(r, EncodeElement(name, Date(ms)))
    {
      hide EncodeDoc;
      hide LittleEndian;
      r := AppendHeader(DATE, name);
      if r.Fail? {
        return;
      }
      r := b.AppendNum64(ms);
    }

    method AppendRegex(name: seq<byte>, pattern: seq<byte>, options: seq<byte>) returns (r: Outcome)
      requires b.Valid()
      modifies b
      ensures b.Grew(r, EncodeElement(name, Regex(pattern, options)))
    {
      hide EncodeDoc;
      hide LittleEndian;
      r := AppendHeader(REGEX, name);
      if r.Fail? {
        return;
      }
      :- b.AppendStr(pattern);
      r := b.AppendStr(options);
    }

    /** String, Code and Symbol share one layout. */
    method AppendString(tag: byte, name: seq<byte>, s: seq<byte>) returns (r: Outcome)
      requires b.Valid()
      modifies b
      ensures b.Grew(r, Header(tag, name) + EncodeString(s))
    {
      hide EncodeDoc;
      hide LittleEndian;
      r := AppendHeader(tag, name);
      if r.Fail? {
        return;
      }
      :- b.AppendNum(|s| + 1);
      r := b.AppendStr(s);
    }

    /** Null, Undefined, MinKey and MaxKey have no value bytes. */
    method AppendEmpty(tag: byte, name: seq<byte>) returns (r: Outcome)
      requires b.Valid()
      modifies b
      ensures b.Grew(r, Header(tag, name))
    {
      hide EncodeDoc;
      hide LittleEndian;
      r := AppendHeader(tag, name);
    }

    method AppendTimestamp(name: seq<byte>, t: uint64) returns (r: Outcome)
      requires b.Valid()
      modifies b
      ensures b.Grew(r, EncodeElement(name, Timestamp(t)))
    {
      hide EncodeDoc;
      hide LittleEndian;
      r := AppendHeader(TIMESTAMP, name);
      if r.Fail? {
        return;
      }
      r := b.AppendNum64(t);
    }

    method AppendDBRef(name: seq<byte>, ns: seq<byte>, id: Bytes12) returns (r: Outcome)
      requires b.Valid()
      modifies b
      ensures b.Grew(r, EncodeElement(name, DBRef(ns, id)))
    {
      hide EncodeDoc;
      hide EncodeString;
      hide LittleEndian;
      r := AppendString(DB_REF, name, ns);
      if r.Fail? {
        return;
      }
      r := b.AppendBuf(id);
      DBRefBytes(name, ns, id);
      hide EncodeElement;
    }

    method AppendBinData(name: seq<byte>, subtype: byte, data: seq<byte>) returns (r: Outcome)
      requires b.Valid()
      modifies b
      ensures b.Grew(r, EncodeElement(name, BinData(subtype, data)))
    {
      hide EncodeDoc;
      hide LittleEndian;
      r := AppendHeader(BIN_DATA, name);
      if r.Fail? {
        return;
      }
      :- b.AppendNum(|data|);
      :- b.AppendChar(subtype);
      r := b.AppendBuf(data);
    }

    method AppendCodeWScope(name: seq<byte>, code: seq<byte>, scope: seq<byte>) returns (r: Outcome)
      requires b.Valid()
      modifies b
      ensures b.Grew(r, Header(CODE_W_SCOPE, name) + Int32Bytes(4 + 4 + |code| + 1 + |scope|) + EncodeString(code) + scope)
    {
      hide Int32Bytes;
      :- AppendHeader(CODE_W_SCOPE, name);
      :- b.AppendNum(4 + 4 + |code| + 1 + |scope|);
      :- b.AppendNum(|code| + 1);
      :- b.AppendStr(code);
      r := b.AppendBuf(scope);
    }

    /** Copies a finished object or array in. */
    method AppendObject(tag: byte, name: seq<byte>, obj: seq<byte>) returns (r: Outcome)
      requires b.Valid()
      modifies b
      ensures b.Grew(r, Header(tag, name) + obj)
    {
      hide EncodeDoc;
      hide LittleEndian;
      r := AppendHeader(tag, name);
      if r.Fail? {
        return;
      }
      r := b.AppendBuf(obj);
    }

    /** `subobjStart` and `subarrayStart`: the caller continues on the shared buffer. */
    method SubStart(tag: byte, name: seq<byte>) returns (r: Result<BufBuilder>)
      requires b.Valid()
      modifies b
      ensures b.Grew(if r.Success? then Pass else Fail(BUFFER_LIMIT), Header(tag, name))
      ensures r.Success? ==> r.value == b
    {
      var start := AppendHeader(tag, name);
      return if start.Pass? then Success(b) else Failure(start.code);
    }

    // ----- Finishing -----

    /** `_done`: closes the document and patches its size into the four reserved bytes. */
    method DoneFast() returns (r: Outcome)
      requires Valid()
      modifies this`doneCalled, b
      ensures old(doneCalled) ==> r.Pass? && doneCalled && b.data == old(b.data)
      ensures !old(doneCalled) ==> (r.Pass? <==> |old(b.data)| + 1 <= old(b.Limit()))
      ensures !old(doneCalled) && r.Pass? ==>
        doneCalled && Valid() && b.data == old(b.data)[..offset] + Frame(old(Body()))
      ensures b.Valid() && |old(b.data)| <= |b.data| && b.Limit() == if r.Pass? then old(b.Limit()) else -1
    {
      if doneCalled {
        return Pass;
      }
      hide Frame;
      hide Max;
      BodyIsRest(b.data, offset + 4);
      ghost var body := Body();
      hide BSONObjBuilder.Body;
      doneCalled := true;
      r := b.Close(offset);
    }

    /** `done`: also checks the size of the finished object. */
    method Done() returns (r: Result<seq<byte>>)
      requires Valid() && !doneCalled
      modifies this`doneCalled, b
      ensures r.Success? <==>
        |old(b.data)| + 1 <= old(b.Limit()) && |old(Body())| + 5 <= MAX_INTERNAL_SIZE
      ensures r.Success? ==>
        && doneCalled && Valid()
        && r.value == Frame(old(Body()))
        && b.data == old(b.data)[..offset] + r.value
      ensures b.Valid() && |old(b.data)| <= |b.data| && (r.Success? ==> b.Limit() == old(b.Limit()))
    {
      var closed := DoneFast();
      if closed.Fail? {
        return Failure(closed.code);
      }
      if |b.data| - offset > MAX_INTERNAL_SIZE {
        return Failure(INVALID_OBJECT);
      }
      return Success(b.data[offset..]);
    }

    /** `asTempObj`: looks at the document so far and reopens it. */
    method AsTempObj() returns (r: Result<seq<byte>>)
      requires Valid() && !doneCalled
      modifies this`doneCalled, b
      ensures r.Success? <==>
        |old(b.data)| + 1 <= old(b.Limit()) && |old(Body())| + 5 <= MAX_INTERNAL_SIZE
      ensures r.Success? ==>
        && !doneCalled && Valid()
        && r.value == Frame(old(Body()))
        && Body() == old(Body()) && b.data[..offset] == old(b.data)[..offset]
      ensures b.Valid() && (r.Success? ==> b.Limit() == old(b.Limit()))
    {
      ghost var body := old(Body());
      var temp :- Done();
      b.data := b.data[..|b.data| - 1];
      assert b.data == old(b.data)[..offset] + Int32Bytes(|body| + 5) + body;
      doneCalled := false;
      return Success(temp);
    }

    /** `obj`: takes the finished document out of a buffer this builder owns. */
    method Obj() returns (r: Result<seq<byte>>)
      requires Valid() && !doneCalled
      modifies this`doneCalled, b
      ensures r.Success? <==>
        owned && |old(b.data)| + 1 <= old(b.Limit()) && |old(Body())| + 5 <= MAX_INTERNAL_SIZE
      ensures r.Success? ==> r.value == Frame(old(Body())) && b.data == []
    {
      if !owned {
        return Failure(NOT_OWNED);
      }
      var obj :- Done();
      b.data := [];
      return Success(obj);
    }
  }
}
