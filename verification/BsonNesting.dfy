/** Three ways to build the same document: in place on one buffer, by copying children in, and with peeks in between. */
module BsonNesting {
  import opened Wrappers
  import opened Bytes
  import opened BsonDocument
  import opened BsonElement
  import opened BsonBuilder
  import opened Sequences

  /** A scope is always built apart, so the object size check applies to it. */
  predicate ScopesSmall(d: Doc)
    decreases d, 0
  {
    match d
    case Nil => true
    case Cons(_, v, rest) => ValueScopesSmall(v) && ScopesSmall(rest)
  }

  predicate ValueScopesSmall(v: Value)
    decreases v, 1
  {
    match v
    case Object(f) => ScopesSmall(f)
    case Array(f) => ScopesSmall(f)
    case CodeWScope(_, scope) => ScopesSmall(scope) && |EncodeDoc(scope)| <= MAX_INTERNAL_SIZE
    case _ => true
  }

  /** Building children apart applies the object size check to every one of them. */
  predicate ChildrenSmall(d: Doc)
    decreases d, 0
  {
    match d
    case Nil => true
    case Cons(_, v, rest) => ValueChildrenSmall(v) && ChildrenSmall(rest)
  }

  predicate ValueChildrenSmall(v: Value)
    decreases v, 1
  {
    match v
    case Object(f) => ChildrenSmall(f) && |EncodeDoc(f)| <= MAX_INTERNAL_SIZE
    case Array(f) => ChildrenSmall(f) && |EncodeDoc(f)| <= MAX_INTERNAL_SIZE
    case CodeWScope(_, scope) => ChildrenSmall(scope) && |EncodeDoc(scope)| <= MAX_INTERNAL_SIZE
    case _ => true
  }

  predicate IsLeaf(v: Value) {
    !v.Object? && !v.Array? && !v.CodeWScope?
  }

  /** The appender overload for a value that contains no document. */
  method AppendLeaf(b: BSONObjBuilder, name: seq<byte>, v: Value) returns (r: Outcome)
    requires IsLeaf(v) && b.b.Valid()
    modifies b.b
    ensures b.b.Grew(r, EncodeElement(name, v))
  {
    match v {
      case Double(bits) => r := b.AppendDouble(name, bits);
      case Str(s) => r := b.AppendString(STRING, name, s);
      case BinData(subtype, data) => r := b.AppendBinData(name, subtype, data);
      case Undefined => r := b.AppendEmpty(UNDEFINED, name);
      case Oid(id) => r := b.AppendOid(name, id);
      case Bool(val) => r := b.AppendBool(name, val);
      case Date(ms) => r := b.AppendDate(name, ms);
      case Null => r := b.AppendEmpty(NULL, name);
      case Regex(pattern, options) => r := b.AppendRegex(name, pattern, options);
      case DBRef(ns, id) => r := b.AppendDBRef(name, ns, id);
      case Code(code) => r := b.AppendString(CODE, name, code);
      case Symbol(s) => r := b.AppendString(SYMBOL, name, s);
      case Int32(n) => r := b.AppendInt(name, n);
      case Timestamp(t) => r := b.AppendTimestamp(name, t);
      case Int64(n) => r := b.AppendLong(name, n);
      case MinKey => r := b.AppendEmpty(MIN_KEY, name);
      case MaxKey => r := b.AppendEmpty(MAX_KEY, name);
    }
  }

  /** There is room for `s`; writing nothing needs none. */
  ghost predicate Fits(b: BufBuilder, s: seq<byte>)
    reads b
  {
    s == [] || |b.data| + |s| <= b.Limit()
  }

  // ----- In place -----

  /** Appends a whole tree; documents inside it are opened on the same buffer. */
  method AppendInPlace(b: BSONObjBuilder, d: Doc) returns (r: Outcome)
    requires b.b.Valid()
    modifies b.b
    ensures r.Pass? <==> ScopesSmall(d) && old(Fits(b.b, EncodeList(d)))
    ensures r.Pass? ==> b.b.data == old(b.b.data) + EncodeList(d)
    ensures b.b.Valid() && |old(b.b.data)| <= |b.b.data| && (r.Pass? ==> b.b.Limit() == old(b.b.Limit()))
    decreases d, 0
  {
    ListParts(d);
    hide EncodeList;
    hide ScopesSmall;
    hide EncodeElement;
    hide ValueScopesSmall;
    match d {
      case Nil =>
        return Pass;
      case Cons(name, v, rest) =>
        Associates(b.b.data, EncodeElement(name, v), EncodeList(rest));
        :- AppendOneInPlace(b, name, v);
        r := AppendInPlace(b, rest);
    }
  }

  method AppendOneInPlace(b: BSONObjBuilder, name: seq<byte>, v: Value) returns (r: Outcome)
    requires b.b.Valid()
    modifies b.b
    ensures r.Pass? <==> ValueScopesSmall(v) && old(Fits(b.b, EncodeElement(name, v)))
    ensures r.Pass? ==> b.b.data == old(b.b.data) + EncodeElement(name, v)
    ensures b.b.Valid() && |old(b.b.data)| <= |b.b.data| && (r.Pass? ==> b.b.Limit() == old(b.b.Limit()))
    decreases v, 2
  {
    ElementIsNotEmpty(name, v);
    hide EncodeElement;
    if IsLeaf(v) {
      hide EncodeValue;
      LeafIsSmall(v);
      r := AppendLeaf(b, name, v);
      return;
    }
    hide EncodeValue;
    hide EncodeDoc;
    hide ScopesSmall;
    hide Header;
    hide EncodeString;
    hide Int32Bytes;
    DocumentElement(name, v);
    if v.CodeWScope? {
      var bytes := BuildInPlace(v.scope);
      if bytes.Failure? {
        return Fail(bytes.code);
      }
      r := b.AppendCodeWScope(name, v.code, bytes.value);
    } else {
      r := AppendDocInPlace(b, Tag(v), name, if v.Object? then v.fields else v.items);
    }
  }

  lemma ElementIsNotEmpty(name: seq<byte>, v: Value)
    ensures EncodeElement(name, v) != []
  {
    hide EncodeValue;
  }

  lemma ListParts(d: Doc)
    ensures d.Nil? ==> EncodeList(d) == [] && ScopesSmall(d)
    ensures d.Cons? ==> EncodeList(d) == EncodeElement(d.name, d.value) + EncodeList(d.rest)
    ensures d.Cons? ==> EncodeElement(d.name, d.value) != []
    ensures d.Cons? ==> (ScopesSmall(d) <==> ValueScopesSmall(d.value) && ScopesSmall(d.rest))
  {
    hide EncodeElement;
    hide ValueScopesSmall;
    if d.Cons? {
      ElementIsNotEmpty(d.name, d.value);
    }
  }

  lemma LeafIsSmall(v: Value)
    requires IsLeaf(v)
    ensures ValueScopesSmall(v) && ValueChildrenSmall(v)
  {
  }

  lemma DocumentElement(name: seq<byte>, v: Value)
    ensures v.Object? ==> EncodeElement(name, v) == Header(OBJECT, name) + EncodeDoc(v.fields)
    ensures v.Array? ==> EncodeElement(name, v) == Header(ARRAY, name) + EncodeDoc(v.items)
    ensures v.CodeWScope? ==> var d := EncodeDoc(v.scope);
      EncodeElement(name, v)
      == Header(CODE_W_SCOPE, name) + Int32Bytes(4 + 4 + |v.code| + 1 + |d|) + EncodeString(v.code) + d
  {
    hide EncodeDoc;
    hide Int32Bytes;
    if v.CodeWScope? {
      var d := EncodeDoc(v.scope);
      var a, e, x := Header(CODE_W_SCOPE, name), Int32Bytes(4 + 4 + |v.code| + 1 + |d|), EncodeString(v.code);
      assert a + (e + x + d) == a + e + x + d;
    }
  }

  method AppendDocInPlace(b: BSONObjBuilder, tag: byte, name: seq<byte>, f: Doc) returns (r: Outcome)
    requires b.b.Valid()
    modifies b.b
    ensures r.Pass? <==> ScopesSmall(f) && old(Fits(b.b, Header(tag, name) + EncodeDoc(f)))
    ensures r.Pass? ==> b.b.data == old(b.b.data) + (Header(tag, name) + EncodeDoc(f))
    ensures b.b.Valid() && |old(b.b.data)| <= |b.b.data| && (r.Pass? ==> b.b.Limit() == old(b.b.Limit()))
    decreases f, 1
  {
    hide EncodeList;
    hide ScopesSmall;
    hide Header;
    hide Frame;
    ghost var pre := b.b.data;
    var start := b.SubStart(tag, name);
    if start.Failure? {
      return Fail(start.code);
    }
    var nested, junk := BSONObjBuilder.Nested(start.value);
    if nested.Failure? {
      return Fail(nested.code);
    }
    var sub := nested.value;
    :- AppendInPlace(sub, f);
    assert b.b.data == pre + Header(tag, name) + junk + EncodeList(f);
    assert sub.Body() == EncodeList(f);
    assert b.b.data[..sub.offset] == pre + Header(tag, name);
    r := sub.DoneFast();
  }

  /** A whole document on a buffer of its own. */
  method BuildInPlace(d: Doc) returns (r: Result<seq<byte>>)
    ensures r.Success? <==> ScopesSmall(d) && |EncodeDoc(d)| <= MAX_INTERNAL_SIZE
    ensures r.Success? ==> r.value == EncodeDoc(d)
    decreases d, 1
  {
    hide EncodeList;
    hide ScopesSmall;
    var created := BSONObjBuilder.Create(512);
    var b := created.value;
    ghost var pre := b.b.data;
    assert pre[b.offset + 4..|pre|] == [];
    var appended := AppendInPlace(b, d);
    if appended.Fail? {
      return Failure(appended.code);
    }
    BodyGrows(pre, EncodeList(d), b.offset + 4);
    assert b.Body() == [] + EncodeList(d) == EncodeList(d);
    r := b.Obj();
  }

  // ----- By copy -----

  /** Appends a whole tree; documents inside it are built apart and copied in. */
  method AppendByCopy(b: BSONObjBuilder, d: Doc) returns (r: Outcome)
    requires b.b.Valid()
    modifies b.b
    ensures r.Pass? <==> ChildrenSmall(d) && old(Fits(b.b, EncodeList(d)))
    ensures r.Pass? ==> b.b.data == old(b.b.data) + EncodeList(d)
    ensures b.b.Valid() && |old(b.b.data)| <= |b.b.data| && (r.Pass? ==> b.b.Limit() == old(b.b.Limit()))
    decreases d, 0
  {
    ListParts(d);
    hide EncodeList;
    hide EncodeElement;
    hide ValueChildrenSmall;
    match d {
      case Nil =>
        return Pass;
      case Cons(name, v, rest) =>
        Associates(b.b.data, EncodeElement(name, v), EncodeList(rest));
        :- AppendOneByCopy(b, name, v);
        r := AppendByCopy(b, rest);
    }
  }

  method AppendOneByCopy(b: BSONObjBuilder, name: seq<byte>, v: Value) returns (r: Outcome)
    requires b.b.Valid()
    modifies b.b
    ensures r.Pass? <==> ValueChildrenSmall(v) && old(Fits(b.b, EncodeElement(name, v)))
    ensures r.Pass? ==> b.b.data == old(b.b.data) + EncodeElement(name, v)
    ensures b.b.Valid() && |old(b.b.data)| <= |b.b.data| && (r.Pass? ==> b.b.Limit() == old(b.b.Limit()))
    decreases v, 3
  {
    hide EncodeElement;
    hide EncodeDoc;
    ElementIsNotEmpty(name, v);
    var child := BuildChild(v);
    if child.Failure? {
      return Fail(child.code);
    }
    r := AppendBuilt(b, name, v, child.value);
  }

  function ChildOf(v: Value): Doc
    requires !IsLeaf(v)
  {
    if v.Object? then v.fields else if v.Array? then v.items else v.scope
  }

  /** The document inside `v`, finished on a buffer of its own; a leaf has none. */
  method BuildChild(v: Value) returns (r: Result<seq<byte>>)
    ensures r.Success? <==> ValueChildrenSmall(v)
    ensures r.Success? && !IsLeaf(v) ==> r.value == EncodeDoc(ChildOf(v))
    decreases v, 2
  {
    hide EncodeDoc;
    hide ChildrenSmall;
    if IsLeaf(v) {
      LeafIsSmall(v);
      return Success([]);
    }
    r := BuildByCopy(ChildOf(v));
  }

  /** Appends `v`, copying its finished child in. */
  method AppendBuilt(b: BSONObjBuilder, name: seq<byte>, v: Value, child: seq<byte>) returns (r: Outcome)
    requires b.b.Valid()
    requires IsLeaf(v) || child == EncodeDoc(ChildOf(v))
    modifies b.b
    ensures b.b.Grew(r, EncodeElement(name, v))
  {
    hide EncodeElement;
    hide EncodeDoc;
    hide Header;
    hide EncodeString;
    hide Int32Bytes;
    DocumentElement(name, v);
    if IsLeaf(v) {
      r := AppendLeaf(b, name, v);
    } else if v.CodeWScope? {
      r := b.AppendCodeWScope(name, v.code, child);
    } else {
      r := b.AppendObject(Tag(v), name, child);
    }
  }

  method BuildByCopy(d: Doc) returns (r: Result<seq<byte>>)
    ensures r.Success? <==> ChildrenSmall(d) && |EncodeDoc(d)| <= MAX_INTERNAL_SIZE
    ensures r.Success? ==> r.value == EncodeDoc(d)
    decreases d, 1
  {
    hide EncodeList;
    hide ChildrenSmall;
    var created := BSONObjBuilder.Create(512);
    var b := created.value;
    ghost var pre := b.b.data;
    assert pre[b.offset + 4..|pre|] == [];
    var appended := AppendByCopy(b, d);
    if appended.Fail? {
      return Failure(appended.code);
    }
    BodyGrows(pre, EncodeList(d), b.offset + 4);
    assert b.Body() == [] + EncodeList(d) == EncodeList(d);
    r := b.Obj();
  }

  /** Whatever copying children accepts, in-place building accepts too. */
  lemma {:induction false} CopyImpliesInPlace(d: Doc)
    requires ChildrenSmall(d)
    ensures ScopesSmall(d)
    decreases d, 0
  {
    match d {
      case Nil =>
      case Cons(_, v, rest) =>
        CopyImpliesInPlaceValue(v);
        CopyImpliesInPlace(rest);
    }
  }

  lemma {:induction false} CopyImpliesInPlaceValue(v: Value)
    requires ValueChildrenSmall(v)
    ensures ValueScopesSmall(v)
    decreases v, 1
  {
    match v {
      case Object(f) => CopyImpliesInPlace(f);
      case Array(f) => CopyImpliesInPlace(f);
      case CodeWScope(_, scope) => CopyImpliesInPlace(scope);
      case _ =>
    }
  }

  /** The parent's bytes do not depend on how its children were built. */
  method SameBytes(d: Doc) returns (inPlace: Result<seq<byte>>, byCopy: Result<seq<byte>>)
    ensures byCopy.Success? ==> inPlace == byCopy
    ensures inPlace.Success? && byCopy.Failure? <==>
      ScopesSmall(d) && !ChildrenSmall(d) && |EncodeDoc(d)| <= MAX_INTERNAL_SIZE
  {
    inPlace := BuildInPlace(d);
    byCopy := BuildByCopy(d);
    if byCopy.Success? {
      CopyImpliesInPlace(d);
    }
  }

  // ----- Peeking -----

  /** The builder still takes elements. */
  ghost predicate Open(b: BSONObjBuilder)
    reads b, b.b
  {
    b.Valid() && !b.doneCalled
  }

  /** The document could be finished after `n` more bytes. */
  ghost predicate CanFinish(b: BSONObjBuilder, n: nat)
    requires b.Valid() && !b.doneCalled
    reads b, b.b
  {
    |b.b.data| + n + 1 <= b.b.Limit() && |b.Body()| + n + 5 <= MAX_INTERNAL_SIZE
  }

  /** The elements of `b` have grown by `s`, what lies before its document is as it was, and `b` is still open. */
  twostate predicate BodyGrew(b: BSONObjBuilder, s: seq<byte>)
    reads b, b.b
  {
    && old(Open(b)) && Open(b) && b.Body() == old(b.Body()) + s
    && b.b.data[..b.offset] == old(b.b.data)[..b.offset]
    && b.b.Limit() == old(b.b.Limit())
  }

  /** The caller looks at the unfinished document, or does not. */
  method MayPeek(b: BSONObjBuilder) returns (r: Outcome)
    requires Open(b)
    modifies b`doneCalled, b.b
    ensures old(CanFinish(b, 0)) ==> r.Pass?
    ensures r.Pass? ==> BodyGrew(b, [])
    ensures b.b.Valid()
  {
    var peeks: bool := *;
    ghost var body := b.Body();
    assert body + [] == body;
    if peeks {
      var temp := b.AsTempObj();
      return if temp.Success? then Pass else Fail(temp.code);
    }
    return Pass;
  }

  /** Appends a whole tree. Every builder involved may be peeked at before each append and before it is closed. */
  method AppendPeeking(b: BSONObjBuilder, d: Doc) returns (r: Outcome)
    requires Open(b)
    modifies b`doneCalled, b.b
    ensures ScopesSmall(d) && old(CanFinish(b, |EncodeList(d)|)) ==> r.Pass?
    ensures r.Pass? ==> ScopesSmall(d) && BodyGrew(b, EncodeList(d))
    ensures b.b.Valid()
    decreases d, 0
  {
    ListParts(d);
    hide EncodeList;
    hide ScopesSmall;
    hide EncodeElement;
    hide ValueScopesSmall;
    r := MayPeek(b);
    if r.Fail? || d.Nil? {
      return;
    }
    ghost var body, data := b.Body(), b.b.data;
    :- AppendOnePeeking(b, d.name, d.value);
    BodyGrows(data, EncodeElement(d.name, d.value), b.offset + 4);
    assert b.Body() == body + EncodeElement(d.name, d.value);
    assert body + EncodeElement(d.name, d.value) + EncodeList(d.rest) == body + EncodeList(d);
    r := AppendPeeking(b, d.rest);
  }

  /** One element of such a tree. The parent is not peeked at while a child is open, and keeps all its bytes. */
  method AppendOnePeeking(b: BSONObjBuilder, name: seq<byte>, v: Value) returns (r: Outcome)
    requires Open(b)
    modifies b.b
    ensures (ValueScopesSmall(v) && |EncodeElement(name, v)| <= MAX_INTERNAL_SIZE
             && |old(b.b.data)| + |EncodeElement(name, v)| <= old(b.b.Limit())) ==> r.Pass?
    ensures r.Pass? ==> ValueScopesSmall(v) && b.b.data == old(b.b.data) + EncodeElement(name, v)
    ensures b.b.Valid() && (r.Pass? ==> b.b.Limit() == old(b.b.Limit()))
    decreases v, 2
  {
    hide EncodeElement;
    if IsLeaf(v) {
      hide EncodeValue;
      LeafIsSmall(v);
      r := AppendLeaf(b, name, v);
      return;
    }
    hide EncodeValue;
    hide EncodeDoc;
    hide ScopesSmall;
    hide Header;
    hide EncodeString;
    hide Int32Bytes;
    DocumentElement(name, v);
    if v.CodeWScope? {
      var bytes := BuildPeeking(v.scope);
      if bytes.Failure? {
        return Fail(bytes.code);
      }
      r := b.AppendCodeWScope(name, v.code, bytes.value);
    } else {
      r := AppendDocPeeking(b, Tag(v), name, if v.Object? then v.fields else v.items);
    }
  }

  method AppendDocPeeking(b: BSONObjBuilder, tag: byte, name: seq<byte>, f: Doc) returns (r: Outcome)
    requires Open(b)
    modifies b.b
    ensures (ScopesSmall(f) && |EncodeDoc(f)| <= MAX_INTERNAL_SIZE
             && |old(b.b.data)| + |Header(tag, name) + EncodeDoc(f)| <= old(b.b.Limit())) ==> r.Pass?
    ensures r.Pass? ==> ScopesSmall(f) && b.b.data == old(b.b.data) + (Header(tag, name) + EncodeDoc(f))
    ensures b.b.Valid() && (r.Pass? ==> b.b.Limit() == old(b.b.Limit()))
    decreases f, 1
  {
    hide EncodeList;
    hide ScopesSmall;
    hide Header;
    hide Frame;
    ghost var pre := b.b.data;
    var start := b.SubStart(tag, name);
    if start.Failure? {
      return Fail(start.code);
    }
    var nested, junk := BSONObjBuilder.Nested(start.value);
    if nested.Failure? {
      return Fail(nested.code);
    }
    var sub := nested.value;
    assert b.b.data[..sub.offset] == pre + Header(tag, name);
    :- AppendPeeking(sub, f);
    assert sub.Body() == EncodeList(f);
    r := sub.DoneFast();
  }

  /** A document finished after any number of peeks is the one finished without, and as large as any may be. */
  method BuildPeeking(d: Doc) returns (r: Result<seq<byte>>)
    ensures r.Success? <==> ScopesSmall(d) && |EncodeDoc(d)| <= MAX_INTERNAL_SIZE
    ensures r.Success? ==> r.value == EncodeDoc(d)
    decreases d, 1
  {
    hide EncodeList;
    hide ScopesSmall;
    var created := BSONObjBuilder.Create(512);
    var b := created.value;
    assert b.Body() == [];
    var appended := AppendPeeking(b, d);
    if appended.Fail? {
      return Failure(appended.code);
    }
    assert b.Body() == EncodeList(d);
    r := b.Obj();
  }
}
