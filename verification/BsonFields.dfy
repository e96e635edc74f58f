/** Loops that read one document and write another: field lookup, `removeField`, `appendElementsUnique`. */
module BsonFields {
  import opened Wrappers
  import opened Bytes
  import opened BsonDocument
  import opened BsonElement
  import opened BsonRoundTrip
  import opened BsonIterator
  import opened BsonBuilder
  import opened BsonNesting

  /** The bytes of an element as they lie in its document. */
  function RawBytes(e: RawElement): seq<byte> {
    Header(e.tag, e.name) + e.value
  }

  /** The first element called `name`, as `getField` returns it. */
  function Find(d: Doc, name: seq<byte>): Option<Value> {
    match d
    case Nil => None
    case Cons(n, v, rest) => if n == name then Some(v) else Find(rest, name)
  }

  function Names(d: Doc): set<seq<byte>> {
    match d
    case Nil => {}
    case Cons(n, _, rest) => {n} + Names(rest)
  }

  /** `d` without the elements whose name is in `drop`. */
  function Without(d: Doc, drop: set<seq<byte>>): Doc {
    match d
    case Nil => Nil
    case Cons(n, v, rest) => if n in drop then Without(rest, drop) else Cons(n, v, Without(rest, drop))
  }

  /** Where an iterator stands: `pre` is behind it and the elements of `rest` are ahead. */
  ghost predicate At(mem: seq<byte>, pre: seq<byte>, rest: Doc, post: seq<byte>) {
    && mem == pre + EncodeList(rest) + post
    && NamesOk(rest) && |EncodeList(rest)| <= INT_MAX
  }

  lemma Step(mem: seq<byte>, pre: seq<byte>, rest: Doc, post: seq<byte>)
    requires At(mem, pre, rest, post) && rest.Cons?
    ensures var raw := RawElement(Tag(rest.value), rest.name, EncodeValue(rest.value));
      && ElementAt(mem[|pre|..]) == Success((raw, |EncodeElement(rest.name, rest.value)|))
      && RawBytes(raw) == EncodeElement(rest.name, rest.value)
      && |EncodeElement(rest.name, rest.value)| >= 2
      && At(mem, pre + EncodeElement(rest.name, rest.value), rest.rest, post)
      && |EncodeList(rest)| == |EncodeElement(rest.name, rest.value)| + |EncodeList(rest.rest)|
  {
    hide EncodeValue;
    hide ElementAt;
    var e, r := EncodeElement(rest.name, rest.value), EncodeList(rest.rest);
    ElementLength(rest.name, rest.value);
    Regroup(pre, e, r, post);
    ElementOf(rest.name, rest.value, r + post);
  }

  lemma StartOf(d: Doc)
    requires NamesOk(d) && |EncodeDoc(d)| <= INT_MAX
    ensures var b := EncodeDoc(d);
      ReadInt(b) == Success(|b|) && At(b, Int32Bytes(|b|), d, [EOO]) && |b| == |EncodeList(d)| + 5
  {
    hide EncodeList;
    hide LittleEndian;
    hide ReadInt;
    var b := EncodeDoc(d);
    assert b == Int32Bytes(|b|) + (EncodeList(d) + [EOO]);
    ReadsPrefix(|b|, EncodeList(d) + [EOO]);
  }

  /** `BSONObj::getField` on the bytes of `d`. */
  method GetField(obj: seq<byte>, name: seq<byte>, ghost d: Doc) returns (r: Option<RawElement>)
    requires obj == EncodeDoc(d) && NamesOk(d) && |obj| <= INT_MAX
    ensures match Find(d, name)
      case None => r == None
      case Some(v) => r == Some(RawElement(Tag(v), name, EncodeValue(v)))
  {
    hide EncodeDoc;
    hide EncodeList;
    hide EncodeElement;
    hide EncodeValue;
    hide ElementAt;
    hide At;
    StartOf(d);
    var it := new BSONObjIterator(obj, |obj|);
    ghost var pre, rest := Int32Bytes(|obj|), d;
    while it.More()
      invariant fresh(it) && it.Valid() && it.mem == obj && it.theEnd == |obj| - 1 && it.pos == |pre|
      invariant At(obj, pre, rest, [EOO]) && |pre| + |EncodeList(rest)| + 1 == |obj|
      invariant Find(rest, name) == Find(d, name)
      decreases rest
    {
      NotEmpty(rest);
      Step(obj, pre, rest, [EOO]);
      var next := it.Next();
      if next.value.name == name {
        return Some(next.value);
      }
      pre, rest := pre + EncodeElement(rest.name, rest.value), rest.rest;
    }
    Ended(rest);
    return None;
  }

  lemma NotEmpty(rest: Doc)
    requires |EncodeList(rest)| > 0
    ensures rest.Cons?
  {
  }

  lemma Ended(rest: Doc)
    requires |EncodeList(rest)| <= 1
    ensures rest.Nil?
  {
    if rest.Cons? {
      ElementLength(rest.name, rest.value);
    }
  }

  // ----- Copying -----

  /** Appends every element of `obj` whose name is not in `drop`, byte for byte. */
  method AppendExcept(b: BSONObjBuilder, obj: seq<byte>, drop: set<seq<byte>>, ghost d: Doc) returns (r: Outcome)
    requires obj == EncodeDoc(d) && NamesOk(d) && |obj| <= INT_MAX
    requires b.b.Valid()
    modifies b.b
    ensures r.Pass? <==> old(Fits(b.b, EncodeList(Without(d, drop))))
    ensures r.Pass? ==> b.b.data == old(b.b.data) + EncodeList(Without(d, drop))
    ensures b.b.Valid() && |old(b.b.data)| <= |b.b.data| && (r.Pass? ==> b.b.Limit() == old(b.b.Limit()))
  {
    hide EncodeDoc;
    hide EncodeList;
    hide EncodeElement;
    hide EncodeValue;
    hide ElementAt;
    hide At;
    StartOf(d);
    var it := new BSONObjIterator(obj, |obj|);
    ghost var pre, rest := Int32Bytes(|obj|), d;
    ghost var before, whole := b.b.data, old(b.b.data) + EncodeList(Without(d, drop));
    while it.More()
      invariant fresh(it) && it.Valid() && it.mem == obj && it.theEnd == |obj| - 1 && it.pos == |pre|
      invariant At(obj, pre, rest, [EOO]) && |pre| + |EncodeList(rest)| + 1 == |obj|
      invariant b.b.data + EncodeList(Without(rest, drop)) == whole
      invariant b.b.Valid() && b.b.Limit() == old(b.b.Limit()) && |before| <= |b.b.data|
      invariant Fits(b.b, EncodeList(Without(rest, drop))) <==> old(Fits(b.b, EncodeList(Without(d, drop))))
      decreases rest
    {
      NotEmpty(rest);
      Step(obj, pre, rest, [EOO]);
      WithoutStep(rest, drop);
      var next := it.Next();
      var e := next.value;
      if e.name !in drop {
        assert b.b.data + (RawBytes(e) + EncodeList(Without(rest.rest, drop)))
            == b.b.data + RawBytes(e) + EncodeList(Without(rest.rest, drop));
        :- b.b.AppendBuf(RawBytes(e));
      }
      pre, rest := pre + EncodeElement(rest.name, rest.value), rest.rest;
    }
    Ended(rest);
    assert b.b.data + [] == b.b.data && EncodeList(Nil) == [] by {
      ListParts(Nil);
    }
    return Pass;
  }

  lemma WithoutStep(rest: Doc, drop: set<seq<byte>>)
    requires rest.Cons?
    ensures rest.name in drop ==> Without(rest, drop) == Without(rest.rest, drop)
    ensures rest.name !in drop ==>
      EncodeList(Without(rest, drop)) == EncodeElement(rest.name, rest.value) + EncodeList(Without(rest.rest, drop))
  {
    hide EncodeElement;
  }

  lemma {:induction false} WithoutShrinks(d: Doc, drop: set<seq<byte>>)
    ensures |EncodeList(Without(d, drop))| <= |EncodeList(d)|
    ensures NamesOk(d) ==> NamesOk(Without(d, drop))
    ensures Names(Without(d, drop)) == Names(d) - drop
  {
    hide EncodeElement;
    if d.Cons? {
      WithoutShrinks(d.rest, drop);
    }
  }

  /** `BSONObj::removeField`: every field called `name` goes, all others stay in order. */
  method RemoveField(obj: seq<byte>, name: seq<byte>, ghost d: Doc) returns (r: Result<seq<byte>>)
    requires obj == EncodeDoc(d) && NamesOk(d) && |obj| <= INT_MAX
    ensures r.Success? <==> |EncodeDoc(Without(d, {name}))| <= MAX_INTERNAL_SIZE
    ensures r.Success? ==> r.value == EncodeDoc(Without(d, {name}))
  {
    hide EncodeList;
    var created := BSONObjBuilder.Create(512);
    var b := created.value;
    ghost var pre := b.b.data;
    var copied := AppendExcept(b, obj, {name}, d);
    if copied.Fail? {
      return Failure(copied.code);
    }
    assert b.Body() == EncodeList(Without(d, {name}));
    r := b.Obj();
  }

  /** The names on an unfinished builder, found through an iterator whose bound is one byte short. */
  method BuilderNames(b: BSONObjBuilder, ghost d: Doc) returns (names: set<seq<byte>>)
    requires b.Valid() && !b.doneCalled && b.Body() == EncodeList(d)
    requires NamesOk(d) && |EncodeList(d)| <= INT_MAX
    ensures names == Names(d)
  {
    hide EncodeList;
    hide EncodeElement;
    hide EncodeValue;
    hide ElementAt;
    hide At;
    var mem := b.b.data;
    var it := new BSONObjIterator.Range(mem, b.offset, |mem|);
    ghost var pre, rest := mem[..b.offset + 4], d;
    assert At(mem, pre, rest, []) by {
      OpenStart(mem, b.offset + 4, d);
    }
    names := {};
    while it.More()
      invariant fresh(it) && it.Valid() && it.mem == mem && it.theEnd == |mem| - 1 && it.pos == |pre|
      invariant At(mem, pre, rest, []) && |pre| + |EncodeList(rest)| == |mem|
      invariant names + Names(rest) == Names(d)
      decreases rest
    {
      NotEmpty(rest);
      Step(mem, pre, rest, []);
      var next := it.Next();
      names := names + {next.value.name};
      pre, rest := pre + EncodeElement(rest.name, rest.value), rest.rest;
    }
    Ended(rest);
  }

  lemma OpenStart(mem: seq<byte>, at: nat, d: Doc)
    requires at <= |mem| && mem[at..] == EncodeList(d) && NamesOk(d) && |EncodeList(d)| <= INT_MAX
    ensures At(mem, mem[..at], d, [])
  {
    assert mem == mem[..at] + mem[at..] + [];
  }

  /** `appendElementsUnique`: adds the elements of `obj` whose names the builder does not have yet. */
  method AppendElementsUnique(b: BSONObjBuilder, obj: seq<byte>, ghost have: Doc, ghost d: Doc) returns (r: Outcome)
    requires b.Valid() && !b.doneCalled && b.Body() == EncodeList(have)
    requires NamesOk(have) && |EncodeList(have)| <= INT_MAX
    requires obj == EncodeDoc(d) && NamesOk(d) && |obj| <= INT_MAX
    modifies b.b
    ensures r.Pass? <==> old(Fits(b.b, EncodeList(Without(d, Names(have)))))
    ensures r.Pass? ==> b.b.data == old(b.b.data) + EncodeList(Without(d, Names(have)))
    ensures r.Pass? ==> b.Valid() && b.Body() == EncodeList(Append(have, Without(d, Names(have))))
  {
    hide EncodeList;
    hide EncodeDoc;
    hide NamesOk;
    hide Names;
    hide Without;
    var names := BuilderNames(b, have);
    ghost var at, data := b.offset + 4, b.b.data;
    :- AppendExcept(b, obj, names, d);
    EncodeAppend(have, Without(d, names));
    assert (data + EncodeList(Without(d, names)))[at..] == data[at..] + EncodeList(Without(d, names));
    return Pass;
  }

  /** Building in place and iterating the result hands back the elements that went in. */
  method BuildThenIterate(d: Doc) returns (r: Result<seq<RawElement>>)
    requires NamesOk(d)
    ensures r.Success? <==> ScopesSmall(d) && |EncodeDoc(d)| <= MAX_INTERNAL_SIZE
    ensures r.Success? ==> r.value == RawList(d)
  {
    hide EncodeDoc;
    hide EncodeList;
    hide Walk;
    hide RawList;
    var b :- BuildInPlace(d);
    WalkDocOf(d);
    var it := new BSONObjIterator(b, |b|);
    r := it.Rest();
  }
}
