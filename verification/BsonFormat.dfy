/** The bytes as the grammar of bsonspec.org, version 1.0, has them, with its example. */
module BsonFormat {
  import opened Bytes
  import opened BsonDocument

  /** `int32`: four bytes, least significant first; the quotients round down, so this is two's complement. */
  lemma Int32Format(n: int)
    ensures Int32Bytes(n) == [(n % 256) as byte, (n / 256 % 256) as byte, (n / 256 / 256 % 256) as byte, (n / 256 / 256 / 256 % 256) as byte]
  {
    OneByte(n, 3);
    OneByte(n / 256, 2);
    OneByte(n / 256 / 256, 1);
    OneByte(n / 256 / 256 / 256, 0);
    assert LittleEndian(n / 256 / 256 / 256 / 256, 0) == [];
    hide LittleEndian;
  }

  lemma OneByte(n: int, k: nat)
    ensures LittleEndian(n, k + 1) == [(n % 256) as byte] + LittleEndian(n / 256, k)
  {
  }

  /** `"\x02" e_name string` and its like: type, name, and what follows for each type. */
  lemma ElementFormat(name: seq<byte>, v: Value)
    ensures EncodeElement(name, v) == match v
      case Double(bits) => [0x01] + name + [0] + bits
      case Str(s) => [0x02] + name + [0] + (Int32Bytes(|s| + 1) + s + [0])
      case Object(d) => [0x03] + name + [0] + EncodeDoc(d)
      case Array(d) => [0x04] + name + [0] + EncodeDoc(d)
      case BinData(subtype, data) => [0x05] + name + [0] + (Int32Bytes(|data|) + [subtype] + data)
      case Undefined => [0x06] + name + [0]
      case Oid(id) => [0x07] + name + [0] + id
      case Bool(b) => [0x08] + name + [0] + if b then [0x01] else [0x00]
      case Date(ms) => [0x09] + name + [0] + Int64Bytes(ms)
      case Null => [0x0A] + name + [0]
      case Regex(pattern, options) => [0x0B] + name + [0] + (pattern + [0] + options + [0])
      case DBRef(ns, id) => [0x0C] + name + [0] + (Int32Bytes(|ns| + 1) + ns + [0] + id)
      case Code(code) => [0x0D] + name + [0] + (Int32Bytes(|code| + 1) + code + [0])
      case Symbol(s) => [0x0E] + name + [0] + (Int32Bytes(|s| + 1) + s + [0])
      case CodeWScope(code, scope) =>
        [0x0F] + name + [0]
        + (Int32Bytes(4 + (4 + |code| + 1) + |EncodeDoc(scope)|) + (Int32Bytes(|code| + 1) + code + [0]) + EncodeDoc(scope))
      case Int32(n) => [0x10] + name + [0] + Int32Bytes(n)
      case Timestamp(t) => [0x11] + name + [0] + Int64Bytes(t)
      case Int64(n) => [0x12] + name + [0] + Int64Bytes(n)
      case MinKey => [0xFF] + name + [0]
      case MaxKey => [0x7F] + name + [0]
  {
    hide EncodeDoc;
    hide Int32Bytes;
    hide Int64Bytes;
    var head := Header(Tag(v), name);
    assert head + [] == head;
  }

  /** `{"hello": "world"}`. */
  lemma HelloWorld()
    ensures var hello: seq<byte>, world: seq<byte> := [104, 101, 108, 108, 111], [119, 111, 114, 108, 100];
      EncodeDoc(Cons(hello, Str(world), Nil)) == [0x16, 0, 0, 0] + ([0x02] + hello + [0] + ([0x06, 0, 0, 0] + world + [0])) + [0]
  {
    var hello: seq<byte>, world: seq<byte> := [104, 101, 108, 108, 111], [119, 111, 114, 108, 100];
    hide Int32Bytes;
    hide EncodeElement;
    hide EncodeDoc;
    SmallInt(22);
    SmallInt(6);
    ElementFormat(hello, Str(world));
    OneElementDoc(hello, Str(world));
  }

  lemma SmallInt(n: nat)
    requires n < 256
    ensures Int32Bytes(n) == [n as byte, 0, 0, 0]
  {
    Int32Format(n);
    hide Int32Bytes;
  }

  lemma OneElementDoc(name: seq<byte>, v: Value)
    ensures EncodeDoc(Cons(name, v, Nil)) == Int32Bytes(|EncodeElement(name, v)| + 5) + EncodeElement(name, v) + [0]
  {
    hide EncodeElement;
    hide Int32Bytes;
    assert EncodeList(Cons(name, v, Nil)) == EncodeElement(name, v) + EncodeList(Nil);
  }
}
