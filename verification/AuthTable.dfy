/** The authentication table and its BSON form. */
module AuthTable {
  import opened Wrappers
  import opened Bytes
  import opened BsonDocument
  import opened BsonElement
  import opened BsonRoundTrip
  import opened BsonIterator
  import opened BsonBuilder
  import opened BsonNesting
  import opened BsonFields

  datatype Auth = Auth(user: seq<byte>, level: int32)

  type Table = map<seq<byte>, Auth>

  const FIELD_NAME: seq<byte> := [36, 97, 117, 116, 104]  // "$auth"
  const NOT_AN_OBJECT := 10065
  const WRONG_TYPE := 13111

  function AuthDoc(a: Auth): Doc {
    Cons(a.user, Int32(a.level), Nil)
  }

  /** The document of `t` with its databases in the given order. */
  function TableDoc(t: Table, order: seq<seq<byte>>): Doc
    requires forall db :: db in order ==> db in t
  {
    if order == [] then Nil
    else Cons(order[0], Object(AuthDoc(t[order[0]])), TableDoc(t, order[1..]))
  }

  predicate Distinct(order: seq<seq<byte>>) {
    forall i, j :: 0 <= i < j < |order| ==> order[i] != order[j]
  }

  /** `order` names every database of `t` once. */
  ghost predicate Lists(order: seq<seq<byte>>, t: Table) {
    Distinct(order) && forall db :: db in order <==> db in t
  }

  /** Names and users travel as C strings. */
  predicate TableOk(t: Table) {
    forall db :: db in t ==> NulFree(db) && NulFree(t[db].user)
  }

  class AuthenticationTable {
    var dbs: Table

    constructor ()
      ensures dbs == map[]
    {
      dbs := map[];
    }

    /** Writes `{ db: { user: level } }` for every database, in place on the builder's buffer. */
    method WriteTo(b: BSONObjBuilder) returns (r: Outcome, ghost order: seq<seq<byte>>)
      requires b.b.Valid()
      modifies b.b
      ensures Lists(order, dbs)
      ensures r.Pass? <==> old(Fits(b.b, EncodeList(TableDoc(dbs, order))))
      ensures r.Pass? ==> b.b.data == old(b.b.data) + EncodeList(TableDoc(dbs, order))
      ensures b.b.Valid() && |old(b.b.data)| <= |b.b.data| && (r.Pass? ==> b.b.Limit() == old(b.b.Limit()))
    {
      hide EncodeList;
      hide EncodeElement;
      var rest := dbs.Keys;
      order := [];
      r := Pass;
      assert EncodeList(TableDoc(dbs, [])) == [] by {
        ListParts(Nil);
      }
      ghost var pre := b.b.data;
      assert pre + [] == pre;
      while rest != {}
        invariant rest <= dbs.Keys && Distinct(order)
        invariant forall db :: db in dbs <==> db in order || db in rest
        invariant forall db :: db in order ==> db in dbs && db !in rest
        invariant r.Pass? <==> old(Fits(b.b, EncodeList(TableDoc(dbs, order))))
        invariant r.Pass? ==> b.b.data == pre + EncodeList(TableDoc(dbs, order))
        invariant b.b.Valid() && |pre| <= |b.b.data| && (r.Pass? ==> b.b.Limit() == old(b.b.Limit()))
        decreases rest
      {
        var db :| db in rest;
        ghost var one := Header(OBJECT, db) + EncodeDoc(AuthDoc(dbs[db]));
        TableSnoc(dbs, order, db);
        assert pre + (EncodeList(TableDoc(dbs, order)) + one) == pre + EncodeList(TableDoc(dbs, order)) + one;
        if r.Pass? {
          AuthIsSmall(dbs[db]);
          r := AppendDocInPlace(b, OBJECT, db, AuthDoc(dbs[db]));
        }
        order, rest := order + [db], rest - {db};
      }
    }

    method ToBSON() returns (r: Result<seq<byte>>, ghost order: seq<seq<byte>>)
      ensures Lists(order, dbs)
      ensures r.Success? <==> |EncodeDoc(TableDoc(dbs, order))| <= MAX_INTERNAL_SIZE
      ensures r.Success? ==> r.value == EncodeDoc(TableDoc(dbs, order))
    {
      hide EncodeList;
      var created := BSONObjBuilder.Create(512);
      var b := created.value;
      ghost var pre := b.b.data;
      var written;
      written, order := WriteTo(b);
      if written.Fail? {
        return Failure(written.code), order;
      }
      assert b.Body() == EncodeList(TableDoc(dbs, order));
      r := b.Obj();
    }

    /**
     * Replaces the table by what `obj` says, whatever its bytes. The table is cleared first; when reading fails it
     * holds the entries read until then.
     */
    method SetFromBSON(obj: seq<byte>) returns (r: Outcome)
      requires ReadInt(obj).Success?
      modifies this
      ensures (dbs, r) == ReadObject(obj)
    {
      hide ReadFrom;
      hide ElementAt;
      hide DecodeAuth;
      hide ReadInt;
      dbs := map[];
      var it := new BSONObjIterator(obj, ReadInt(obj).value);
      ReadEnds(dbs, obj, it.pos, it.theEnd);
      while it.More()
        invariant fresh(it) && it.Valid() && it.mem == obj
        invariant ReadFrom(dbs, obj, it.pos, it.theEnd) == ReadObject(obj)
        decreases it.theEnd - it.pos
      {
        ReadStep(dbs, obj, it.pos, it.theEnd);
        var next := it.Next();
        if next.Failure? {
          return Fail(next.code);
        }
        var dbInfo := next.value;
        var auth := DecodeAuth(dbInfo);
        if auth.Failure? {
          return Fail(auth.code);
        }
        dbs := dbs[dbInfo.name := auth.value];
      }
      ReadEnds(dbs, obj, it.pos, it.theEnd);
      return Pass;
    }

    /** A command with any `$auth` of the caller's dropped and this table's appended last. */
    method CopyCommandObjAddingAuth(cmd: seq<byte>, ghost d: Doc) returns (r: Result<seq<byte>>, ghost order: seq<seq<byte>>)
      requires cmd == EncodeDoc(d) && NamesOk(d) && |cmd| <= INT_MAX
      ensures |EncodeDoc(Without(d, {FIELD_NAME}))| <= MAX_INTERNAL_SIZE ==> Lists(order, dbs)
      ensures r.Success? ==> Lists(order, dbs) && r.value == EncodeDoc(WithAuth(d, TableDoc(dbs, order)))
      ensures Lists(order, dbs) ==> (r.Success? <==> |EncodeDoc(WithAuth(d, TableDoc(dbs, order)))| <= MAX_INTERNAL_SIZE)
    {
      hide EncodeDoc;
      hide EncodeList;
      hide WithAuth;
      hide Without;
      hide TableDoc;
      hide Distinct;
      var kept := KeepFields(cmd, {FIELD_NAME}, d);
      DocLength(Without(d, {FIELD_NAME}));
      if kept.Failure? {
        order := [];
        if Lists(order, dbs) {
          WithAuthLength(d, TableDoc(dbs, order));
        }
        return Failure(kept.code), order;
      }
      var table;
      table, order := ToBSON();
      WithAuthLength(d, TableDoc(dbs, order));
      if table.Failure? {
        return Failure(table.code), order;
      }
      r := FinishWithAuth(kept.value, table.value, d, TableDoc(dbs, order));
    }
  }

  /** The loop that copies a command's own fields onto a fresh builder. */
  method KeepFields(cmd: seq<byte>, drop: set<seq<byte>>, ghost d: Doc) returns (r: Result<BSONObjBuilder>)
    requires cmd == EncodeDoc(d) && NamesOk(d) && |cmd| <= INT_MAX
    ensures r.Success? <==> |EncodeList(Without(d, drop))| + 8 <= BUFFER_MAX_SIZE
    ensures r.Success? ==> fresh(r.value) && fresh(r.value.b) && Ready(r.value)
    ensures r.Success? ==> r.value.Body() == EncodeList(Without(d, drop))
  {
    hide EncodeList;
    var created := BSONObjBuilder.Create(512);
    var b := created.value;
    var copied := AppendExcept(b, cmd, drop, d);
    if copied.Fail? {
      return Failure(copied.code);
    }
    assert b.Body() == EncodeList(Without(d, drop));
    return Success(b);
  }

  ghost predicate Ready(b: BSONObjBuilder)
    reads b, b.b
  {
    b.Valid() && !b.doneCalled && b.owned && b.offset == 4 && b.b.Limit() == BUFFER_MAX_SIZE
  }

  method FinishWithAuth(b: BSONObjBuilder, table: seq<byte>, ghost d: Doc, ghost t: Doc) returns (r: Result<seq<byte>>)
    requires Ready(b) && b.Body() == EncodeList(Without(d, {FIELD_NAME})) && table == EncodeDoc(t)
    modifies b, b.b
    ensures r.Success? <==> |EncodeDoc(WithAuth(d, t))| <= MAX_INTERNAL_SIZE
    ensures r.Success? ==> r.value == EncodeDoc(WithAuth(d, t))
  {
    hide EncodeDoc;
    hide EncodeList;
    hide WithAuth;
    hide Without;
    WithAuthBytes(d, t);
    ghost var body := b.Body();
    var appended := b.AppendObject(OBJECT, FIELD_NAME, table);
    if appended.Fail? {
      return Failure(appended.code);
    }
    assert b.Body() == body + (Header(OBJECT, FIELD_NAME) + table);
    r := b.Obj();
  }

  /** The caller's command fields with the table as the one `$auth` field, last. */
  function WithAuth(d: Doc, table: Doc): Doc {
    Append(Without(d, {FIELD_NAME}), Cons(FIELD_NAME, Object(table), Nil))
  }

  lemma DocLength(d: Doc)
    ensures |EncodeDoc(d)| == |EncodeList(d)| + 5
  {
    hide EncodeList;
  }

  lemma WithAuthLength(d: Doc, table: Doc)
    ensures |EncodeDoc(WithAuth(d, table))| == |EncodeList(Without(d, {FIELD_NAME}))| + |EncodeDoc(table)| + 12
  {
    hide EncodeDoc;
    hide EncodeList;
    hide WithAuth;
    hide Without;
    WithAuthBytes(d, table);
  }

  lemma WithAuthBytes(d: Doc, table: Doc)
    ensures EncodeDoc(WithAuth(d, table))
         == Frame(EncodeList(Without(d, {FIELD_NAME})) + (Header(OBJECT, FIELD_NAME) + EncodeDoc(table)))
  {
    hide EncodeList;
    hide EncodeElement;
    hide Frame;
    hide Header;
    var last := Cons(FIELD_NAME, Object(table), Nil);
    OneElement(FIELD_NAME, Object(table));
    DocumentElement(FIELD_NAME, Object(table));
    EncodeAppend(Without(d, {FIELD_NAME}), last);
  }

  lemma OneElement(name: seq<byte>, v: Value)
    ensures EncodeList(Cons(name, v, Nil)) == EncodeElement(name, v)
  {
    hide EncodeElement;
    assert EncodeElement(name, v) + [] == EncodeElement(name, v);
  }

  lemma AuthIsSmall(a: Auth)
    ensures ScopesSmall(AuthDoc(a))
  {
  }

  lemma {:induction false} TableSnoc(t: Table, order: seq<seq<byte>>, db: seq<byte>)
    requires (forall x :: x in order ==> x in t) && db in t
    ensures EncodeList(TableDoc(t, order + [db]))
         == EncodeList(TableDoc(t, order)) + (Header(OBJECT, db) + EncodeDoc(AuthDoc(t[db])))
    decreases |order|
  {
    hide EncodeElement;
    hide EncodeDoc;
    if order == [] {
      assert ([] + [db])[1..] == [];
      DocumentElement(db, Object(AuthDoc(t[db])));
    } else {
      assert (order + [db])[1..] == order[1..] + [db];
      TableSnoc(t, order[1..], db);
    }
  }

  // ----- Reading -----

  /** `dbInfo.Obj().firstElement()`, then its name and its `Int()`. */
  function DecodeAuth(dbInfo: RawElement): (r: Result<Auth>)
    ensures r.Success? ==> NulFree(r.value.user)
  {
    if dbInfo.tag != OBJECT && dbInfo.tag != ARRAY then Failure(NOT_AN_OBJECT)
    else if |dbInfo.value| == 0 || |dbInfo.value| > MAX_INTERNAL_SIZE then Failure(INVALID_OBJECT)
    else if |dbInfo.value| < 4 then Failure(OUTSIDE)
    else
      var (first, _) :- ElementAt(dbInfo.value[4..]);
      if first.tag != INT32 then Failure(WRONG_TYPE)
      else if |first.value| != 4 then Failure(OUTSIDE)
      else Success(Auth(first.name, Signed32(first.value)))
  }

  /** What the reading loop makes of the memory between `pos` and `end`: the table it leaves and how it ends. */
  function ReadFrom(t: Table, mem: seq<byte>, pos: nat, end: int): (Table, Outcome)
    requires pos <= |mem|
    decreases end - pos
  {
    if pos >= end then (t, Pass)
    else
      match ElementAt(mem[pos..])
      case Failure(code) => (t, Fail(code))
      case Success((dbInfo, size)) =>
        match DecodeAuth(dbInfo)
        case Failure(code) => (t, Fail(code))
        case Success(auth) => ReadFrom(t[dbInfo.name := auth], mem, pos + size, end)
  }

  /** The same for a whole object; its first four bytes are its size. */
  function ReadObject(obj: seq<byte>): (Table, Outcome)
    requires ReadInt(obj).Success?
  {
    var size := ReadInt(obj).value;
    if size == 0 then (map[], Pass) else ReadFrom(map[], obj, 4, size - 1)
  }

  lemma ReadStep(t: Table, mem: seq<byte>, pos: nat, end: int)
    requires pos < end && pos <= |mem|
    ensures ReadFrom(t, mem, pos, end) ==
      match ElementAt(mem[pos..])
      case Failure(code) => (t, Fail(code))
      case Success((dbInfo, size)) =>
        match DecodeAuth(dbInfo)
        case Failure(code) => (t, Fail(code))
        case Success(auth) => ReadFrom(t[dbInfo.name := auth], mem, pos + size, end)
  {
    hide ElementAt;
    hide DecodeAuth;
  }

  lemma ReadEnds(t: Table, mem: seq<byte>, pos: nat, end: int)
    requires pos <= |mem|
    ensures pos >= end ==> ReadFrom(t, mem, pos, end) == (t, Pass)
  {
    hide ElementAt;
    hide DecodeAuth;
  }

  /** Every name and user the reader stores is a C string. */
  lemma {:induction false} ReadsCStrings(t: Table, mem: seq<byte>, pos: nat, end: int)
    requires pos <= |mem| && TableOk(t)
    ensures TableOk(ReadFrom(t, mem, pos, end).0)
    decreases end - pos
  {
    hide DecodeAuth;
    hide NulFree;
    hide ElementAt;
    hide ReadFrom;
    ReadEnds(t, mem, pos, end);
    if pos < end {
      ReadStep(t, mem, pos, end);
      var element := ElementAt(mem[pos..]);
      if element.Success? {
        var (dbInfo, size) := element.value;
        var auth := DecodeAuth(dbInfo);
        if auth.Success? {
          ReadsCStrings(t[dbInfo.name := auth.value], mem, pos + size, end);
        }
      }
    }
  }

  /** The entry read from a decoded value. */
  function AuthOf(v: Value): Result<Auth> {
    if !v.Object? && !v.Array? then Failure(NOT_AN_OBJECT) else
    var d := if v.Object? then v.fields else v.items;
    if |EncodeDoc(d)| > MAX_INTERNAL_SIZE then Failure(INVALID_OBJECT)
    else if d.Nil? || !d.value.Int32? then Failure(WRONG_TYPE)
    else Success(Auth(d.name, d.value.n))
  }

  /** The same loop on a document. */
  function ReadTable(t: Table, d: Doc): (Table, Outcome)
    decreases d
  {
    match d
    case Nil => (t, Pass)
    case Cons(name, v, rest) =>
      match AuthOf(v)
      case Failure(code) => (t, Fail(code))
      case Success(auth) => ReadTable(t[name := auth], rest)
  }

  /** On the bytes of a document the loop reads its elements. */
  lemma {:induction false} ReadsDocument(t: Table, mem: seq<byte>, pre: seq<byte>, d: Doc)
    requires At(mem, pre, d, [EOO])
    ensures ReadFrom(t, mem, |pre|, |mem| - 1) == ReadTable(t, d)
    decreases d
  {
    hide EncodeElement;
    hide EncodeValue;
    hide ElementAt;
    hide DecodeAuth;
    hide AuthOf;
    if d.Nil? {
      assert |mem| == |pre| + 1;
      ReadEnds(t, mem, |pre|, |mem| - 1);
    } else {
      hide ReadFrom;
      Step(mem, pre, d, [EOO]);
      RestFits(mem, pre, d);
      ReadStep(t, mem, |pre|, |mem| - 1);
      DecodeAuthOf(d.name, d.value);
      var auth := AuthOf(d.value);
      if auth.Success? {
        hide At;
        ReadsDocument(t[d.name := auth.value], mem, pre + EncodeElement(d.name, d.value), d.rest);
      }
    }
  }

  lemma RestFits(obj: seq<byte>, pre: seq<byte>, rest: Doc)
    requires At(obj, pre, rest, [EOO]) && rest.Cons?
    ensures ValueOk(rest.value) && |EncodeElement(rest.name, rest.value)| <= INT_MAX
    ensures |pre| < |obj| - 1
  {
    hide EncodeElement;
    ElementIsNotEmpty(rest.name, rest.value);
  }

  lemma ReadsObject(d: Doc)
    requires NamesOk(d) && |EncodeDoc(d)| <= INT_MAX
    ensures ReadInt(EncodeDoc(d)).Success? && ReadObject(EncodeDoc(d)) == ReadTable(map[], d)
  {
    hide EncodeDoc;
    hide ReadFrom;
    hide ReadTable;
    hide ReadInt;
    hide At;
    StartOf(d);
    var b := EncodeDoc(d);
    ReadsDocument(map[], b, Int32Bytes(|b|), d);
  }

  lemma DecodeAuthOf(name: seq<byte>, v: Value)
    requires ValueOk(v) && |EncodeElement(name, v)| <= INT_MAX
    ensures DecodeAuth(RawElement(Tag(v), name, EncodeValue(v))) == AuthOf(v)
  {
    hide ElementAt;
    hide EncodeList;
    hide EncodeElement;
    ElementLength(name, v);
    if v.Object? {
      FirstElement(v.fields);
    } else if v.Array? {
      FirstElement(v.items);
    }
  }

  lemma FirstElement(d: Doc)
    requires NamesOk(d) && |EncodeDoc(d)| <= INT_MAX
    ensures d.Nil? ==> ElementAt(EncodeDoc(d)[4..]) == Success((RawElement(EOO, [], []), 1))
    ensures d.Cons? ==>
      ElementAt(EncodeDoc(d)[4..])
      == Success((RawElement(Tag(d.value), d.name, EncodeValue(d.value)), |EncodeElement(d.name, d.value)|))
    ensures d.Cons? ==> (Tag(d.value) == INT32 <==> d.value.Int32?)
    ensures d.Cons? && d.value.Int32? ==> |EncodeValue(d.value)| == 4 && Signed(EncodeValue(d.value)) == d.value.n
  {
    hide Int32Bytes;
    hide EncodeElement;
    hide ElementAt;
    hide EncodeValue;
    assert EncodeDoc(d)[4..] == EncodeList(d) + [EOO];
    if d.Nil? {
      assert EncodeList(Nil) + [EOO] == [EOO];
      NoElement();
    } else {
      FirstOf(d.name, d.value, d.rest);
      if d.value.Int32? {
        IntegerValue(d.value);
      }
    }
  }

  lemma NoElement()
    ensures ElementAt([EOO]) == Success((RawElement(EOO, [], []), 1))
  {
  }

  lemma FirstOf(name: seq<byte>, v: Value, rest: Doc)
    requires NulFree(name) && ValueOk(v) && |EncodeElement(name, v)| <= INT_MAX
    ensures ElementAt(EncodeList(Cons(name, v, rest)) + [EOO])
      == Success((RawElement(Tag(v), name, EncodeValue(v)), |EncodeElement(name, v)|))
  {
    hide EncodeElement;
    hide ElementAt;
    hide EncodeValue;
    var e, r := EncodeElement(name, v), EncodeList(rest);
    assert e + r + [EOO] == e + (r + [EOO]);
    ElementLength(name, v);
    ElementOf(name, v, r + [EOO]);
  }

  lemma IntegerValue(v: Value)
    requires v.Int32?
    ensures |EncodeValue(v)| == 4 && Signed(EncodeValue(v)) == v.n
  {
    Int32RoundTrip(v.n);
  }

  // ----- The round trip -----

  ghost function Entries(t: Table, order: seq<seq<byte>>): Table
    requires forall db :: db in order ==> db in t
  {
    map db | db in order :: t[db]
  }

  /** No entry is larger than the whole table. */
  lemma {:induction false} EntriesFit(t: Table, order: seq<seq<byte>>, db: seq<byte>)
    requires (forall x :: x in order ==> x in t) && db in order
    ensures |EncodeDoc(AuthDoc(t[db]))| <= |EncodeList(TableDoc(t, order))|
    decreases |order|
  {
    hide EncodeElement;
    hide EncodeDoc;
    hide AuthDoc;
    assert order == [order[0]] + order[1..];
    DocumentElement(order[0], Object(AuthDoc(t[order[0]])));
    if db != order[0] {
      EntriesFit(t, order[1..], db);
    }
  }

  lemma EntriesStep(t: Table, got: Table, order: seq<seq<byte>>)
    requires order != [] && forall db :: db in order ==> db in t
    ensures got[order[0] := t[order[0]]] + Entries(t, order[1..]) == got + Entries(t, order)
  {
    assert order == [order[0]] + order[1..];
  }

  lemma {:induction false} ReadsBack(t: Table, got: Table, order: seq<seq<byte>>)
    requires forall db :: db in order ==> db in t && |EncodeDoc(AuthDoc(t[db]))| <= MAX_INTERNAL_SIZE
    ensures ReadTable(got, TableDoc(t, order)) == (got + Entries(t, order), Pass)
    decreases |order|
  {
    hide EncodeDoc;
    if order == [] {
      assert got + Entries(t, order) == got;
    } else {
      var db := order[0];
      ReadsBack(t, got[db := t[db]], order[1..]);
      EntriesStep(t, got, order);
      hide Entries;
      assert AuthOf(Object(AuthDoc(t[db]))) == Success(t[db]);
    }
  }

  lemma {:induction false} TableDocNames(t: Table, order: seq<seq<byte>>)
    requires forall db :: db in order ==> db in t
    ensures NamesOk(TableDoc(t, order)) <==> forall db :: db in order ==> NulFree(db) && NulFree(t[db].user)
    decreases |order|
  {
    hide NulFree;
    if order != [] {
      TableDocNames(t, order[1..]);
      assert order == [order[0]] + order[1..];
      EntryNames(order[0], t[order[0]], TableDoc(t, order[1..]));
    }
  }

  lemma EntryNames(db: seq<byte>, a: Auth, rest: Doc)
    ensures NamesOk(Cons(db, Object(AuthDoc(a)), rest)) <==> NulFree(db) && NulFree(a.user) && NamesOk(rest)
  {
    hide NulFree;
    assert NamesOk(AuthDoc(a)) <==> NulFree(a.user);
    assert ValueOk(Object(AuthDoc(a))) <==> NamesOk(AuthDoc(a));
  }

  /** The code's own reader makes of the bytes `toBSON` writes the table it wrote exactly when no name or user contains a NUL. */
  lemma Representable(t: Table, order: seq<seq<byte>>)
    requires Lists(order, t) && |EncodeDoc(TableDoc(t, order))| <= MAX_INTERNAL_SIZE
    ensures var obj := EncodeDoc(TableDoc(t, order));
      ReadInt(obj).Success? && (ReadObject(obj) == (t, Pass) <==> TableOk(t))
  {
    hide EncodeDoc;
    hide ReadTable;
    hide ReadFrom;
    hide TableDoc;
    var obj := EncodeDoc(TableDoc(t, order));
    DocReads(TableDoc(t, order));
    TableDocNames(t, order);
    if TableOk(t) {
      ReadsObject(TableDoc(t, order));
      DocLength(TableDoc(t, order));
      forall db | db in order
        ensures |EncodeDoc(AuthDoc(t[db]))| <= MAX_INTERNAL_SIZE
      {
        EntriesFit(t, order, db);
      }
      ReadsBack(t, map[], order);
      assert map[] + Entries(t, order) == t;
    } else {
      ReadsCStrings(map[], obj, 4, ReadInt(obj).value - 1);
    }
  }

  lemma DocReads(d: Doc)
    requires |EncodeDoc(d)| <= INT_MAX
    ensures ReadInt(EncodeDoc(d)) == Success(|EncodeDoc(d)|)
  {
    hide EncodeList;
    hide ReadInt;
    var b := EncodeDoc(d);
    assert b == Int32Bytes(|b|) + (EncodeList(d) + [EOO]);
    ReadsPrefix(|b|, EncodeList(d) + [EOO]);
  }

  /**
   * `setFromBSON(toBSON(t))`, possibly on the same table. It restores `t`, whatever the table held before, exactly
   * when the document has a valid size and no name or user contains a NUL.
   */
  method SaveAndRestore(from: AuthenticationTable, into: AuthenticationTable)
    returns (r: Outcome, ghost order: seq<seq<byte>>)
    modifies into
    ensures Lists(order, old(from.dbs))
    ensures r.Pass? && into.dbs == old(from.dbs) <==>
      TableOk(old(from.dbs)) && |EncodeDoc(TableDoc(old(from.dbs), order))| <= MAX_INTERNAL_SIZE
    ensures |EncodeDoc(TableDoc(old(from.dbs), order))| > MAX_INTERNAL_SIZE ==> r.Fail? && into.dbs == old(into.dbs)
    ensures from != into ==> from.dbs == old(from.dbs)
  {
    hide EncodeDoc;
    hide ReadObject;
    hide ReadInt;
    hide Lists;
    hide TableOk;
    var bytes;
    bytes, order := from.ToBSON();
    if bytes.Failure? {
      r := Fail(bytes.code);
      return;
    }
    Representable(from.dbs, order);
    r := into.SetFromBSON(bytes.value);
  }

  function Count(d: Doc, name: seq<byte>): nat {
    match d
    case Nil => 0
    case Cons(n, _, rest) => (if n == name then 1 else 0) + Count(rest, name)
  }

  /** The copied command: the caller's other fields in order, and one `$auth`, last, holding the table. */
  lemma {:induction false} CommandFields(d: Doc, table: Doc)
    ensures var c := WithAuth(d, table);
      && Find(c, FIELD_NAME) == Some(Object(table))
      && Without(c, {FIELD_NAME}) == Without(d, {FIELD_NAME})
      && Count(c, FIELD_NAME) == 1
  {
    if d.Cons? {
      CommandFields(d.rest, table);
    }
  }
}
