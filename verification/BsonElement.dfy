/** What `BSONElement` computes from raw memory: sizes, walks, validation and decoded values. */
module BsonElement {
  import opened Wrappers
  import opened Bytes
  import opened BsonDocument

  const OUTSIDE := -1          // the source would read or step outside the buffer
  const BAD_TYPE := 10320
  const MAX_INTERNAL_SIZE := 16 * 1024 * 1024 + 16 * 1024

  /** `*(int*)p`, where `s` is the memory from `p` on. */
  function ReadInt(s: seq<byte>): Result<int> {
    if |s| < 4 then Failure(OUTSIDE) else Success(Signed(s[..4]))
  }

  function RegexSize(s: seq<byte>): Result<int> {
    var p := StrLen(s);
    if p.None? then Failure(OUTSIDE) else
    var o := StrLen(s[p.value + 1..]);
    if o.None? then Failure(OUTSIDE) else
    Success(p.value + 1 + o.value + 1)
  }

  /** The type switch of `BSONElement::size`; `s` is the memory from the value on. */
  function ValueSize(tag: byte, s: seq<byte>): Result<int> {
    if tag in {EOO, UNDEFINED, NULL, MAX_KEY, MIN_KEY} then Success(0)
    else if tag == BOOL then Success(1)
    else if tag == INT32 then Success(4)
    else if tag in {TIMESTAMP, DATE, DOUBLE, INT64} then Success(8)
    else if tag == OID then Success(12)
    else if tag in {SYMBOL, CODE, STRING} then
      var n :- ReadInt(s);
      Success(n + 4)
    else if tag == DB_REF then
      var n :- ReadInt(s);
      Success(n + 4 + 12)
    else if tag in {CODE_W_SCOPE, OBJECT, ARRAY} then ReadInt(s)
    else if tag == BIN_DATA then
      var n :- ReadInt(s);
      Success(n + 4 + 1)
    else if tag == REGEX then RegexSize(s)
    else Failure(BAD_TYPE)
  }

  /** One element as the walker hands it out: type, name and the bytes of its value. */
  datatype RawElement = RawElement(tag: byte, name: seq<byte>, value: seq<byte>)

  /** The element at the start of `s` and the bytes it occupies. */
  function ElementAt(s: seq<byte>): (r: Result<(RawElement, nat)>)
    ensures r.Success? ==> 0 < r.value.1 <= |s| && |r.value.0.value| < r.value.1 && NulFree(r.value.0.name)
  {
    if s == [] then Failure(OUTSIDE)
    else if s[0] == EOO then Success((RawElement(EOO, [], []), 1))
    else
      var n := StrLen(s[1..]);
      if n.None? then Failure(OUTSIDE) else
      var at := n.value + 2;
      assert s[1..n.value + 1] == s[1..][..n.value];
      var size :- ValueSize(s[0], s[at..]);
      if size < 0 || at + size > |s| then Failure(OUTSIDE)
      else
        var end: nat := at + size;
        Success((RawElement(s[0], s[1..n.value + 1], s[at..end]), end))
  }

  /** The loop `while (more()) next()`: what it visits, and where it stops. */
  function Walk(mem: seq<byte>, pos: nat, end: nat): Result<(seq<RawElement>, nat)>
    requires pos <= |mem|
    decreases end - pos
  {
    if pos >= end then Success(([], pos))
    else
      var (e, size) :- ElementAt(mem[pos..]);
      var (es, stop) :- Walk(mem, pos + size, end);
      Success(([e] + es, stop))
  }

  // ----- Decoding -----

  function DecodeString(s: seq<byte>): Option<seq<byte>> {
    if |s| < 5 then None else Some(s[4..|s| - 1])
  }

  function DecodeValue(tag: byte, s: seq<byte>): (r: Option<Value>)
    decreases |s|, 2, 0
  {
    if tag == DOUBLE && |s| == 8 then Some(Double(s))
    else if tag == STRING then
      var t :- DecodeString(s);
      Some(Str(t))
    else if tag == OBJECT then
      var d :- DecodeDoc(s);
      Some(Object(d))
    else if tag == ARRAY then
      var d :- DecodeDoc(s);
      Some(Array(d))
    else if tag == BIN_DATA && |s| >= 5 then Some(BinData(s[4], s[5..]))
    else if tag == UNDEFINED then Some(Undefined)
    else if tag == OID && |s| == 12 then Some(Oid(s))
    else if tag == BOOL && |s| == 1 then Some(Bool(s[0] != 0))
    else if tag == DATE && |s| == 8 then Some(Date(Signed64(s)))
    else if tag == NULL then Some(Null)
    else if tag == REGEX then
      var n :- StrLen(s);
      var m :- StrLen(s[n + 1..]);
      Some(Regex(s[..n], s[n + 1..][..m]))
    else if tag == DB_REF && |s| >= 17 then Some(DBRef(s[4..|s| - 13], s[|s| - 12..]))
    else if tag == CODE then
      var t :- DecodeString(s);
      Some(Code(t))
    else if tag == SYMBOL then
      var t :- DecodeString(s);
      Some(Symbol(t))
    else if tag == CODE_W_SCOPE && |s| >= 8 then
      var n := Signed(s[4..8]);
      if n < 1 || 8 + n > |s| then None else
      var d :- DecodeDoc(s[8 + n..]);
      Some(CodeWScope(s[8..8 + n - 1], d))
    else if tag == INT32 && |s| == 4 then Some(Int32(Signed32(s)))
    else if tag == TIMESTAMP && |s| == 8 then Some(Timestamp(Unsigned64(s)))
    else if tag == INT64 && |s| == 8 then Some(Int64(Signed64(s)))
    else if tag == MIN_KEY then Some(MinKey)
    else if tag == MAX_KEY then Some(MaxKey)
    else None
  }

  function Signed32(s: seq<byte>): int32
    requires |s| == 4
  {
    Powers();
    Signed(s)
  }

  function Signed64(s: seq<byte>): int64
    requires |s| == 8
  {
    Powers();
    Signed(s)
  }

  function Unsigned64(s: seq<byte>): uint64
    requires |s| == 8
  {
    Powers();
    Unsigned(s)
  }

  /** The document whose first byte is the first byte of `b`. */
  function DecodeDoc(b: seq<byte>): Option<Doc>
    decreases |b|, 1, 0
  {
    if |b| < 4 then None else
    var size := Signed(b[..4]);
    if size < 5 || size > |b| || b[size - 1] != EOO then None
    else DecodeFrom(b, 4, size - 1)
  }

  /** The elements from `pos` up to the EOO at `end`. */
  function DecodeFrom(b: seq<byte>, pos: nat, end: nat): Option<Doc>
    requires pos <= |b| && end <= |b|
    decreases |b|, 0, end - pos
  {
    if pos >= end then
      if pos == end then Some(Nil) else None
    else
      match ElementAt(b[pos..])
      case Failure(_) => None
      case Success((e, size)) =>
        var v :- DecodeValue(e.tag, e.value);
        var rest :- DecodeFrom(b, pos + size, end);
        Some(Cons(e.name, v, rest))
  }

  // ----- `BSONElement::validate` -----

  const INVALID_STRING := 10321
  const INVALID_SCOPE_SIZE := 10322
  const INVALID_SCOPE_STRING := 10323
  const INVALID_SCOPE_NUL := 10324
  const INVALID_SCOPE_ROOM := 10325
  const INVALID_SCOPE_OBJECT := 10326

  /** `mongo::strnlen`: -1 if there is no NUL among the first `n` bytes; `None` if it would read outside. */
  function StrNLen(s: seq<byte>, n: int): (r: Option<int>)
    ensures r.Some? && r.value >= 0 ==> var i := r.value; i < n && i < |s| && s[i] == 0 && NulFree(s[..i])
    ensures r == Some(-1) ==> n <= |s| && forall i :: 0 <= i < n ==> s[i] != 0
    ensures r.Some? ==> r.value >= -1
  {
    var p := StrLen(s);
    if p.Some? && p.value < n then Some(p.value as int)
    else if n <= |s| then
      assert p.Some? ==> forall i :: 0 <= i < n ==> s[..p.value][i] == s[i];
      var missing: int := -1;
      Some(missing)
    else None
  }

  function Validate(tag: byte, s: seq<byte>): Outcome {
    if tag in {DB_REF, CODE, SYMBOL, STRING} then
      match ReadInt(s)
      case Failure(code) => Fail(code)
      case Success(x) =>
        if !(0 < x < MAX_INTERNAL_SIZE) then Fail(INVALID_STRING)
        else if 4 + x > |s| then Fail(OUTSIDE)
        else if s[4 + x - 1] == 0 then Pass
        else Fail(INVALID_STRING)
    else if tag == CODE_W_SCOPE then ValidateScope(s)
    else Pass
  }

  function ValidateScope(s: seq<byte>): Outcome {
    if |s| < 8 then Fail(OUTSIDE) else
    var total, n := Signed(s[..4]), Signed(s[4..8]);
    if total < 8 then Fail(INVALID_SCOPE_SIZE)
    else if total < n + 4 + 4 then Fail(INVALID_SCOPE_STRING)
    else if n > 0 && StrNLen(s[8..], n).None? then Fail(OUTSIDE)
    else if n <= 0 || StrNLen(s[8..], n) != Some(n - 1) then Fail(INVALID_SCOPE_NUL)
    else if total < n + 4 + 4 + 4 then Fail(INVALID_SCOPE_ROOM)
    else if 8 + n + 4 > |s| then Fail(OUTSIDE)
    else if total != 4 + 4 + n + Signed(s[8 + n..8 + n + 4]) then Fail(INVALID_SCOPE_OBJECT)
    else Pass
  }
}
