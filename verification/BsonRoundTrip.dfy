/** Building a document and walking it again recovers exactly the document. */
module BsonRoundTrip {
  import opened Wrappers
  import opened Bytes
  import opened BsonDocument
  import opened BsonElement
  import opened Sequences

  /** The elements a walk over `d` is expected to visit, values still encoded. */
  function RawList(d: Doc): seq<RawElement> {
    match d
    case Nil => []
    case Cons(name, v, rest) => [RawElement(Tag(v), name, EncodeValue(v))] + RawList(rest)
  }

  lemma ReadsPrefix(n: int32, tail: seq<byte>)
    ensures ReadInt(Int32Bytes(n) + tail) == Success(n)
    ensures (Int32Bytes(n) + tail)[..4] == Int32Bytes(n)
  {
    Int32RoundTrip(n);
    assert (Int32Bytes(n) + tail)[..4] == Int32Bytes(n);
  }

  predicate IsString(v: Value) {
    v.Str? || v.Code? || v.Symbol? || v.DBRef?
  }

  predicate IsDocument(v: Value) {
    v.Object? || v.Array? || v.CodeWScope?
  }

  predicate IsInteger(v: Value) {
    v.Int32? || v.Int64? || v.Date? || v.Timestamp?
  }

  lemma SizeOfString(v: Value, tail: seq<byte>)
    requires IsString(v) && |EncodeValue(v)| <= INT_MAX
    ensures ValueSize(Tag(v), EncodeValue(v) + tail) == Success(|EncodeValue(v)|)
  {
    hide EncodeList;
    hide RegexSize;
    hide ReadInt;
    hide LittleEndian;
    var s := EncodeValue(v);
    match v {
      case Str(t) => SizePrefixed(|t| + 1, t + [0], tail, s);
      case Code(t) => SizePrefixed(|t| + 1, t + [0], tail, s);
      case Symbol(t) => SizePrefixed(|t| + 1, t + [0], tail, s);
      case DBRef(ns, id) => SizePrefixed(|ns| + 1, ns + [0] + id, tail, s);
    }
  }

  lemma SizeOfDocument(v: Value, tail: seq<byte>)
    requires IsDocument(v) && |EncodeValue(v)| <= INT_MAX
    ensures ValueSize(Tag(v), EncodeValue(v) + tail) == Success(|EncodeValue(v)|)
  {
    hide EncodeList;
    hide RegexSize;
    hide ReadInt;
    hide LittleEndian;
    var s := EncodeValue(v);
    match v {
      case Object(d) => SizePrefixed(|s|, EncodeList(d) + [EOO], tail, s);
      case Array(d) => SizePrefixed(|s|, EncodeList(d) + [EOO], tail, s);
      case CodeWScope(code, scope) => SizePrefixed(|s|, EncodeString(code) + EncodeDoc(scope), tail, s);
    }
  }

  /** `size()` is the number of bytes the builder appended, whatever follows them. */
  lemma SizeOfValue(v: Value, tail: seq<byte>)
    requires ValueOk(v) && |EncodeValue(v)| <= INT_MAX
    ensures ValueSize(Tag(v), EncodeValue(v) + tail) == Success(|EncodeValue(v)|)
  {
    hide EncodeList;
    hide RegexSize;
    hide ReadInt;
    hide LittleEndian;
    if IsString(v) {
      SizeOfString(v, tail);
    } else if IsDocument(v) {
      SizeOfDocument(v, tail);
    } else {
      match v {
        case Regex(pattern, options) => RegexSizeOf(pattern, options, tail);
        case BinData(subtype, data) => SizePrefixed(|data|, [subtype] + data, tail, EncodeValue(v));
        case _ =>
      }
    }
  }

  lemma ElementLength(name: seq<byte>, v: Value)
    ensures |EncodeElement(name, v)| == |name| + 2 + |EncodeValue(v)|
  {
    hide EncodeValue;
  }

  lemma SizePrefixed(n: int32, rest: seq<byte>, tail: seq<byte>, s: seq<byte>)
    requires s == Int32Bytes(n) + rest
    ensures ReadInt(s + tail) == Success(n)
  {
    assert s + tail == Int32Bytes(n) + (rest + tail);
    ReadsPrefix(n, rest + tail);
  }

  lemma RegexLayout(pattern: seq<byte>, options: seq<byte>, tail: seq<byte>)
    ensures var s, rest := pattern + [0] + options + [0] + tail, options + [0] + tail;
      s == pattern + [0] + rest && s[|pattern| + 1..] == rest && s[..|pattern|] == pattern && rest[..|options|] == options
  {
  }

  /** Where the two C strings of a regular expression end. */
  lemma RegexLengths(pattern: seq<byte>, options: seq<byte>, tail: seq<byte>)
    requires NulFree(pattern) && NulFree(options)
    ensures var s := pattern + [0] + options + [0] + tail;
      StrLen(s) == Some(|pattern|) && StrLen(s[|pattern| + 1..]) == Some(|options|)
  {
    hide StrLen;
    hide NulFree;
    RegexLayout(pattern, options, tail);
    StrLenOfCString(pattern, options + [0] + tail);
    StrLenOfCString(options, tail);
  }

  lemma RegexSizeOf(pattern: seq<byte>, options: seq<byte>, tail: seq<byte>)
    requires NulFree(pattern) && NulFree(options)
    ensures RegexSize(pattern + [0] + options + [0] + tail) == Success(|pattern| + |options| + 2)
  {
    hide StrLen;
    hide NulFree;
    RegexLengths(pattern, options, tail);
  }

  /** `next()` at an appended element yields that element and steps over exactly its bytes. */
  lemma ElementOf(name: seq<byte>, v: Value, tail: seq<byte>)
    requires NulFree(name) && ValueOk(v) && |EncodeValue(v)| <= INT_MAX
    ensures ElementAt(EncodeElement(name, v) + tail)
         == Success((RawElement(Tag(v), name, EncodeValue(v)), |EncodeElement(name, v)|))
  {
    hide EncodeValue;
    hide ElementAt;
    hide Header;
    SizeOfValue(v, tail);
    TagIsNotEoo(v);
    ElementOfParts(Tag(v), name, EncodeValue(v), tail);
  }

  lemma TagIsNotEoo(v: Value)
    ensures Tag(v) != EOO
  {
  }

  lemma ElementOfParts(tag: byte, name: seq<byte>, value: seq<byte>, tail: seq<byte>)
    requires NulFree(name) && tag != EOO && ValueSize(tag, value + tail) == Success(|value|)
    ensures ElementAt(Header(tag, name) + value + tail)
         == Success((RawElement(tag, name, value), |Header(tag, name) + value|))
  {
    hide StrLen;
    hide ValueSize;
    ElementLayout(tag, name, value, tail);
    hide Header;
    StrLenOfCString(name, value + tail);
    hide NulFree;
  }

  /** Where the type, the name and the value of an element lie. */
  lemma ElementLayout(tag: byte, name: seq<byte>, value: seq<byte>, tail: seq<byte>)
    ensures var s, at := Header(tag, name) + value + tail, |name| + 2;
      && |Header(tag, name)| == at && s[0] == tag
      && s[1..] == name + [0] + (value + tail)
      && s[at..] == value + tail
      && s[1..|name| + 1] == name && s[at..at + |value|] == value
  {
  }

  lemma Regroup(pre: seq<byte>, e: seq<byte>, rest: seq<byte>, post: seq<byte>)
    ensures (pre + (e + rest) + post)[|pre|..] == e + (rest + post)
    ensures pre + (e + rest) + post == (pre + e) + rest + post
  {
  }

  lemma WalkStep(mem: seq<byte>, pos: nat, end: nat, e: RawElement, size: nat, es: seq<RawElement>)
    requires pos < end && pos + size <= |mem| && ElementAt(mem[pos..]) == Success((e, size))
    requires Walk(mem, pos + size, end) == Success((es, end))
    ensures Walk(mem, pos, end) == Success(([e] + es, end))
  {
    hide ElementAt;
  }

  /** The walk visits every element in order and stops exactly on the EOO. */
  lemma {:induction false} WalkOf(pre: seq<byte>, d: Doc, post: seq<byte>)
    requires NamesOk(d) && |EncodeList(d)| <= INT_MAX
    ensures Walk(pre + EncodeList(d) + post, |pre|, |pre| + |EncodeList(d)|)
         == Success((RawList(d), |pre| + |EncodeList(d)|))
    decreases d
  {
    hide EncodeElement;
    hide EncodeValue;
    hide ElementAt;
    match d {
      case Nil =>
      case Cons(name, v, rest) =>
        hide Walk;
        var e, r := EncodeElement(name, v), EncodeList(rest);
        NamesOkCons(name, v, rest);
        hide NamesOk;
        hide NulFree;
        hide ValueOk;
        Regroup(pre, e, r, post);
        ElementOf(name, v, r + post);
        WalkOf(pre + e, rest, post);
        WalkStep(pre + EncodeList(d) + post, |pre|, |pre| + |e| + |r|, RawElement(Tag(v), name, EncodeValue(v)), |e|, RawList(rest));
    }
  }

  // ----- Decoding recovers the tree -----

  lemma DecodesString(t: seq<byte>)
    ensures DecodeString(EncodeString(t)) == Some(t)
  {
    assert EncodeString(t)[4..|EncodeString(t)| - 1] == t;
  }

  lemma DecodeStringOf(v: Value)
    requires IsString(v)
    ensures DecodeValue(Tag(v), EncodeValue(v)) == Some(v)
  {
    hide EncodeList;
    hide DecodeDoc;
    hide LittleEndian;
    hide Signed;
    hide StrLen;
    var s := EncodeValue(v);
    match v {
      case Str(t) => DecodesString(t);
      case Code(t) => DecodesString(t);
      case Symbol(t) => DecodesString(t);
      case DBRef(ns, id) =>
        assert s[4..|s| - 13] == ns && s[|s| - 12..] == id;
    }
  }

  lemma DecodeRegexOf(pattern: seq<byte>, options: seq<byte>)
    requires NulFree(pattern) && NulFree(options)
    ensures DecodeValue(REGEX, EncodeValue(Regex(pattern, options))) == Some(Regex(pattern, options))
  {
    hide StrLen;
    hide NulFree;
    RegexBytes(pattern, options);
    hide EncodeValue;
    RegexLengths(pattern, options, []);
    RegexLayout(pattern, options, []);
    assert pattern + [0] + options + [0] + [] == pattern + [0] + options + [0];
  }

  lemma RegexBytes(pattern: seq<byte>, options: seq<byte>)
    ensures EncodeValue(Regex(pattern, options)) == pattern + [0] + options + [0]
  {
    hide NulFree;
  }

  lemma DecodeScalarOf(v: Value)
    requires !IsString(v) && !IsDocument(v) && !v.Regex? && !IsInteger(v)
    ensures DecodeValue(Tag(v), EncodeValue(v)) == Some(v)
  {
    hide EncodeList;
    hide DecodeDoc;
    hide LittleEndian;
    hide Signed;
    hide StrLen;
    var s := EncodeValue(v);
    match v {
      case BinData(subtype, data) =>
        assert s[4] == subtype && s[5..] == data;
      case _ =>
    }
  }

  lemma DecodeIntegerOf(v: Value)
    requires IsInteger(v)
    ensures DecodeValue(Tag(v), EncodeValue(v)) == Some(v)
  {
    hide LittleEndian;
    hide Signed;
    hide Unsigned;
    match v {
      case Int32(n) => Int32RoundTrip(n);
      case Int64(n) => Int64RoundTrip(n);
      case Date(n) => Int64RoundTrip(n);
      case Timestamp(n) => Uint64RoundTrip(n);
    }
  }

  lemma {:induction false} DecodeValueOf(v: Value)
    requires ValueOk(v) && |EncodeValue(v)| <= INT_MAX
    ensures DecodeValue(Tag(v), EncodeValue(v)) == Some(v)
    decreases v, 1
  {
    hide EncodeList;
    hide DecodeDoc;
    hide LittleEndian;
    hide Signed;
    hide StrLen;
    if IsString(v) {
      DecodeStringOf(v);
    } else if v.Object? {
      DecodeDocOf(v.fields);
    } else if v.Array? {
      DecodeDocOf(v.items);
    } else if v.CodeWScope? {
      DecodeScopeOf(v.code, v.scope);
    } else if v.Regex? {
      DecodeRegexOf(v.pattern, v.options);
    } else if IsInteger(v) {
      DecodeIntegerOf(v);
    } else {
      DecodeScalarOf(v);
    }
  }

  /** Where the two sizes, the code and the scope of a `CodeWScope` value lie. */
  lemma ScopeLayout(total: int, code: seq<byte>, d: seq<byte>)
    ensures var s, n := Int32Bytes(total) + EncodeString(code) + d, |code| + 1;
      && s[..4] == Int32Bytes(total)
      && s[4..8] == Int32Bytes(n)
      && s[8..] == code + [0] + d
      && s[8..8 + n - 1] == code
      && s[8 + n..] == d
  {
    hide LittleEndian;
    hide Int32Bytes;
  }

  lemma {:induction false} DecodeScopeOf(code: seq<byte>, scope: Doc)
    requires NamesOk(scope) && |EncodeValue(CodeWScope(code, scope))| <= INT_MAX
    ensures DecodeValue(CODE_W_SCOPE, EncodeValue(CodeWScope(code, scope))) == Some(CodeWScope(code, scope))
    decreases CodeWScope(code, scope), 0
  {
    hide EncodeDoc;
    hide DecodeDoc;
    hide Int32Bytes;
    hide Signed;
    var n, d := |code| + 1, EncodeDoc(scope);
    ScopeLayout(4 + 4 + n + |d|, code, d);
    Int32RoundTrip(n);
    assert scope < CodeWScope(code, scope);
    DecodeDocOf(scope);
  }

  lemma {:induction false} DecodeDocOf(d: Doc)
    requires NamesOk(d) && |EncodeDoc(d)| <= INT_MAX
    ensures DecodeDoc(EncodeDoc(d)) == Some(d)
    decreases d, 2
  {
    hide EncodeList;
    hide DecodeFrom;
    var b := EncodeDoc(d);
    var body := EncodeList(d);
    ReadsPrefix(|b|, body + [EOO]);
    assert b == Int32Bytes(|b|) + (body + [EOO]);
    assert b[|b| - 1] == EOO;
    DecodeFromOf(Int32Bytes(|b|), d, [EOO]);
  }

  lemma NamesOkCons(name: seq<byte>, v: Value, rest: Doc)
    requires NamesOk(Cons(name, v, rest)) && |EncodeList(Cons(name, v, rest))| <= INT_MAX
    ensures NulFree(name) && ValueOk(v) && NamesOk(rest)
    ensures |EncodeValue(v)| <= INT_MAX && |EncodeList(rest)| <= INT_MAX
  {
    ElementLength(name, v);
    hide EncodeValue;
    hide EncodeElement;
    hide NulFree;
    hide ValueOk;
  }

  lemma DecodeStep(b: seq<byte>, pos: nat, end: nat, e: RawElement, size: nat, v: Value, rest: Doc)
    requires pos < end <= |b| && pos + size <= |b| && ElementAt(b[pos..]) == Success((e, size))
    requires DecodeValue(e.tag, e.value) == Some(v) && DecodeFrom(b, pos + size, end) == Some(rest)
    ensures DecodeFrom(b, pos, end) == Some(Cons(e.name, v, rest))
  {
    hide ElementAt;
    hide DecodeValue;
  }

  lemma {:induction false} DecodeFromOf(pre: seq<byte>, d: Doc, post: seq<byte>)
    requires NamesOk(d) && |EncodeList(d)| <= INT_MAX
    ensures DecodeFrom(pre + EncodeList(d) + post, |pre|, |pre| + |EncodeList(d)|) == Some(d)
    decreases d, 1
  {
    hide EncodeElement;
    hide EncodeValue;
    hide ElementAt;
    match d {
      case Nil =>
      case Cons(name, v, rest) =>
        hide DecodeFrom;
        var e, r := EncodeElement(name, v), EncodeList(rest);
        NamesOkCons(name, v, rest);
        hide NamesOk;
        hide NulFree;
        hide ValueOk;
        Regroup(pre, e, r, post);
        ElementOf(name, v, r + post);
        DecodeValueOf(v);
        DecodeFromOf(pre + e, rest, post);
        DecodeStep(pre + EncodeList(d) + post, |pre|, |pre| + |e| + |r|, RawElement(Tag(v), name, EncodeValue(v)), |e|, v, rest);
    }
  }

  // ----- ... and only documents a C-string walker can represent -----

  lemma {:induction false} DecodedValueOk(tag: byte, s: seq<byte>)
    ensures var r := DecodeValue(tag, s); r.Some? ==> ValueOk(r.value)
    decreases |s|, 2, 0
  {
    hide DecodeDoc;
    hide StrLen;
    hide Signed;
    if tag == OBJECT || tag == ARRAY {
      DecodedNamesOk(s);
    } else if tag == CODE_W_SCOPE && |s| >= 8 {
      var n := Signed(s[4..8]);
      if n >= 1 && 8 + n <= |s| {
        DecodedNamesOk(s[8 + n..]);
      }
    }
  }

  lemma {:induction false} DecodedNamesOk(b: seq<byte>)
    ensures var r := DecodeDoc(b); r.Some? ==> NamesOk(r.value)
    decreases |b|, 1, 0
  {
    hide Signed;
    hide DecodeFrom;
    hide NamesOk;
    if |b| >= 4 {
      var size := Signed(b[..4]);
      if 5 <= size <= |b| {
        DecodedFromOk(b, 4, size - 1);
      }
    }
  }

  lemma {:induction false} DecodedFromOk(b: seq<byte>, pos: nat, end: nat)
    requires pos <= |b| && end <= |b|
    ensures var r := DecodeFrom(b, pos, end); r.Some? ==> NamesOk(r.value)
    decreases |b|, 0, end - pos
  {
    hide DecodeValue;
    hide ElementAt;
    if pos < end {
      match ElementAt(b[pos..]) {
        case Failure(_) =>
        case Success((e, size)) =>
          DecodedValueOk(e.tag, e.value);
          DecodedFromOk(b, pos + size, end);
      }
    }
  }

  /** The round trip holds exactly for the trees whose names and patterns contain no NUL. */
  lemma RoundTrip(d: Doc)
    requires |EncodeDoc(d)| <= INT_MAX
    ensures DecodeDoc(EncodeDoc(d)) == Some(d) <==> NamesOk(d)
  {
    if NamesOk(d) {
      DecodeDocOf(d);
    }
    DecodedNamesOk(EncodeDoc(d));
  }

  /** Different trees never share their bytes. */
  lemma EncodeInjective(d: Doc, e: Doc)
    requires NamesOk(d) && NamesOk(e) && |EncodeDoc(d)| <= INT_MAX
    requires EncodeDoc(d) == EncodeDoc(e)
    ensures d == e
  {
    DecodeDocOf(d);
    DecodeDocOf(e);
  }

  // ----- `validate` -----

  /** The values `validate` accepts among those the builder appends. */
  predicate Validatable(v: Value) {
    match v
    case Str(s) => |s| + 1 < MAX_INTERNAL_SIZE
    case Code(s) => |s| + 1 < MAX_INTERNAL_SIZE
    case Symbol(s) => |s| + 1 < MAX_INTERNAL_SIZE
    case DBRef(ns, _) => |ns| + 1 < MAX_INTERNAL_SIZE
    case CodeWScope(code, _) => NulFree(code)
    case _ => true
  }

  /** Wherever the element sits in memory, `validate` passes exactly on the validatable values. */
  lemma ValidateOf(v: Value, tail: seq<byte>)
    requires |EncodeValue(v)| <= INT_MAX
    ensures Validate(Tag(v), EncodeValue(v) + tail).Pass? <==> Validatable(v)
  {
    hide EncodeDoc;
    hide ReadInt;
    hide ValidateScope;
    hide Int32Bytes;
    hide NulFree;
    var s := EncodeValue(v);
    match v {
      case Str(t) => SizePrefixed(|t| + 1, t + [0], tail, s);
      case Code(t) => SizePrefixed(|t| + 1, t + [0], tail, s);
      case Symbol(t) => SizePrefixed(|t| + 1, t + [0], tail, s);
      case DBRef(ns, id) => SizePrefixed(|ns| + 1, ns + [0] + id, tail, s);
      case CodeWScope(code, scope) => ValidateScopeOf(code, scope, tail);
      case _ =>
    }
  }

  lemma ValidateScopeOf(code: seq<byte>, scope: Doc, tail: seq<byte>)
    requires |EncodeValue(CodeWScope(code, scope))| <= INT_MAX
    ensures ValidateScope(EncodeValue(CodeWScope(code, scope)) + tail).Pass? <==> NulFree(code)
  {
    hide EncodeDoc;
    hide Int32Bytes;
    hide Signed;
    hide StrNLen;
    ScopeBytes(code, scope, tail);
    var v := EncodeValue(CodeWScope(code, scope));
    var s := v + tail;
    var n, d := |code| + 1, EncodeDoc(scope);
    hide EncodeValue;
    hide EncodeString;
    ScopeLayout(|v|, code, d + tail);
    DocPrefix(scope, tail);
    assert s[8 + n..8 + n + 4] == s[8 + n..][..4];
    Int32RoundTrip(|v|);
    Int32RoundTrip(n);
    Int32RoundTrip(|d|);
    CodeTerminated(code, d + tail);
  }

  lemma ScopeBytes(code: seq<byte>, scope: Doc, tail: seq<byte>)
    ensures var (v, n, d) := (EncodeValue(CodeWScope(code, scope)), |code| + 1, EncodeDoc(scope));
      |v| == 4 + 4 + n + |d| && v + tail == Int32Bytes(|v|) + EncodeString(code) + (d + tail)
  {
    hide EncodeDoc;
    hide Int32Bytes;
    var v, s, d := EncodeValue(CodeWScope(code, scope)), EncodeString(code), EncodeDoc(scope);
    assert v == Int32Bytes(|v|) + s + d && |s| == 4 + |code| + 1;
    hide EncodeValue;
    hide EncodeString;
    Associates(Int32Bytes(|v|) + s, d, tail);
  }

  lemma DocPrefix(d: Doc, tail: seq<byte>)
    requires |EncodeDoc(d)| <= INT_MAX
    ensures |EncodeDoc(d)| >= 5 && (EncodeDoc(d) + tail)[..4] == Int32Bytes(|EncodeDoc(d)|)
  {
    hide EncodeList;
  }

  /** The code's terminator is the first NUL exactly when the code contains none. */
  lemma CodeTerminated(code: seq<byte>, rest: seq<byte>)
    ensures StrNLen(code + [0] + rest, |code| + 1) == Some(|code| as int) <==> NulFree(code)
    ensures StrNLen(code + [0] + rest, |code| + 1).Some?
  {
    hide StrLen;
    var s := code + [0] + rest;
    if NulFree(code) {
      StrLenOfCString(code, rest);
    } else {
      var i :| 0 <= i < |code| && code[i] == 0;
      assert s[i] == code[i];
    }
  }
}
