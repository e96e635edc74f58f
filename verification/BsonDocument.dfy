/** BSON documents as trees, and the bytes that stand for them (bsonspec.org, version 1.0). */
module BsonDocument {
  import opened Bytes

  type Bytes8 = s: seq<byte> | |s| == 8 witness [0, 0, 0, 0, 0, 0, 0, 0]
  type Bytes12 = s: seq<byte> | |s| == 12 witness [0, 0, 0, 0, 0, 0, 0, 0, 0, 0, 0, 0]

  datatype Value =
    | Double(bits: Bytes8)
    | Str(s: seq<byte>)
    | Object(fields: Doc)
    | Array(items: Doc)
    | BinData(subtype: byte, data: seq<byte>)
    | Undefined
    | Oid(id: Bytes12)
    | Bool(b: bool)
    | Date(ms: int64)
    | Null
    | Regex(pattern: seq<byte>, options: seq<byte>)
    | DBRef(ns: seq<byte>, ref: Bytes12)
    | Code(code: seq<byte>)
    | Symbol(symbol: seq<byte>)
    | CodeWScope(code: seq<byte>, scope: Doc)
    | Int32(n: int32)
    | Timestamp(t: uint64)
    | Int64(l: int64)
    | MinKey
    | MaxKey

  /** The `e_list` production: the elements of one document, in order. */
  datatype Doc = Nil | Cons(name: seq<byte>, value: Value, rest: Doc)

  const EOO: byte := 0
  const DOUBLE: byte := 1
  const STRING: byte := 2
  const OBJECT: byte := 3
  const ARRAY: byte := 4
  const BIN_DATA: byte := 5
  const UNDEFINED: byte := 6
  const OID: byte := 7
  const BOOL: byte := 8
  const DATE: byte := 9
  const NULL: byte := 10
  const REGEX: byte := 11
  const DB_REF: byte := 12
  const CODE: byte := 13
  const SYMBOL: byte := 14
  const CODE_W_SCOPE: byte := 15
  const INT32: byte := 16
  const TIMESTAMP: byte := 17
  const INT64: byte := 18
  const MAX_KEY: byte := 127
  const MIN_KEY: byte := 255  // -1 as a signed char

  const INT_MAX := 0x7fff_ffff

  function Tag(v: Value): byte {
    match v
    case Double(_) => DOUBLE
    case Str(_) => STRING
    case Object(_) => OBJECT
    case Array(_) => ARRAY
    case BinData(_, _) => BIN_DATA
    case Undefined => UNDEFINED
    case Oid(_) => OID
    case Bool(_) => BOOL
    case Date(_) => DATE
    case Null => NULL
    case Regex(_, _) => REGEX
    case DBRef(_, _) => DB_REF
    case Code(_) => CODE
    case Symbol(_) => SYMBOL
    case CodeWScope(_, _) => CODE_W_SCOPE
    case Int32(_) => INT32
    case Timestamp(_) => TIMESTAMP
    case Int64(_) => INT64
    case MinKey => MIN_KEY
    case MaxKey => MAX_KEY
  }

  /** A length-prefixed string: the prefix counts the terminating NUL. */
  function EncodeString(s: seq<byte>): seq<byte> {
    Int32Bytes(|s| + 1) + s + [0]
  }

  function EncodeValue(v: Value): seq<byte>
    decreases v, 2
  {
    match v
    case Double(bits) => bits
    case Str(s) => EncodeString(s)
    case Object(d) => EncodeDoc(d)
    case Array(d) => EncodeDoc(d)
    case BinData(subtype, data) => Int32Bytes(|data|) + [subtype] + data
    case Undefined => []
    case Oid(id) => id
    case Bool(b) => [if b then 1 else 0]
    case Date(ms) => Int64Bytes(ms)
    case Null => []
    case Regex(pattern, options) => pattern + [0] + options + [0]
    case DBRef(ns, id) => EncodeString(ns) + id
    case Code(code) => EncodeString(code)
    case Symbol(s) => EncodeString(s)
    case CodeWScope(code, scope) =>
      var d := EncodeDoc(scope);
      Int32Bytes(4 + 4 + |code| + 1 + |d|) + EncodeString(code) + d
    case Int32(n) => Int32Bytes(n)
    case Timestamp(t) => Int64Bytes(t)
    case Int64(n) => Int64Bytes(n)
    case MinKey => []
    case MaxKey => []
  }

  function Header(tag: byte, name: seq<byte>): seq<byte> {
    [tag] + name + [0]
  }

  function EncodeElement(name: seq<byte>, v: Value): seq<byte>
    decreases v, 3
  {
    Header(Tag(v), name) + EncodeValue(v)
  }

  function EncodeList(d: Doc): seq<byte>
    decreases d, 0
  {
    match d
    case Nil => []
    case Cons(name, v, rest) => EncodeElement(name, v) + EncodeList(rest)
  }

  /** A document frame around the bytes of its elements. */
  function Frame(body: seq<byte>): (s: seq<byte>)
    ensures |s| == |body| + 5
  {
    Int32Bytes(|body| + 5) + body + [EOO]
  }

  function EncodeDoc(d: Doc): (s: seq<byte>)
    ensures |s| >= 5
    decreases d, 1
  {
    Frame(EncodeList(d))
  }

  function Append(d: Doc, e: Doc): Doc {
    match d
    case Nil => e
    case Cons(name, v, rest) => Cons(name, v, Append(rest, e))
  }

  lemma {:induction false} EncodeAppend(d: Doc, e: Doc)
    ensures EncodeList(Append(d, e)) == EncodeList(d) + EncodeList(e)
  {
    hide EncodeElement;
    match d {
      case Nil =>
      case Cons(name, v, rest) =>
        EncodeAppend(rest, e);
        assert EncodeElement(name, v) + (EncodeList(rest) + EncodeList(e))
            == EncodeElement(name, v) + EncodeList(rest) + EncodeList(e);
    }
  }

  // ----- What a walker over C strings can recover -----

  predicate NamesOk(d: Doc)
    decreases d, 0
  {
    match d
    case Nil => true
    case Cons(name, v, rest) => NulFree(name) && ValueOk(v) && NamesOk(rest)
  }

  /** Field names and regular expressions are NUL-terminated, so they must not contain one. */
  predicate ValueOk(v: Value)
    decreases v, 1
  {
    match v
    case Object(d) => NamesOk(d)
    case Array(d) => NamesOk(d)
    case Regex(pattern, options) => NulFree(pattern) && NulFree(options)
    case CodeWScope(_, scope) => NamesOk(scope)
    case _ => true
  }
}
