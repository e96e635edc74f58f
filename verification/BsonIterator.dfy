/** The cursor over the elements of one document, and the loops written on top of it. */
module BsonIterator {
  import opened Wrappers
  import opened Bytes
  import opened BsonDocument
  import opened BsonElement
  import opened BsonRoundTrip

  const VERIFY_FAILED := -2

  class BSONObjIterator {
    const mem: seq<byte>
    var pos: int
    var theEnd: int

    ghost predicate Valid()
      reads this
    {
      0 <= pos <= |mem|
    }

    /** Iterates the document at the start of `mem`. */
    constructor (mem: seq<byte>, size: int)
      requires ReadInt(mem) == Success(size)
      ensures Valid() && this.mem == mem
      ensures size == 0 ==> pos == 0 && theEnd == 0
      ensures size != 0 ==> pos == 4 && theEnd == size - 1
    {
      this.mem := mem;
      if size == 0 {
        pos, theEnd := 0, 0;
      } else {
        pos, theEnd := 4, size - 1;
      }
    }

    /** Iterates the elements between `start` and `end` of a buffer still being written. */
    constructor Range(mem: seq<byte>, start: nat, end: nat)
      requires start + 4 <= end <= |mem|
      ensures Valid() && this.mem == mem && pos == start + 4 && theEnd == end - 1
    {
      this.mem := mem;
      pos, theEnd := start + 4, end - 1;
    }

    predicate More()
      reads this
    {
      pos < theEnd
    }

    method Next() returns (r: Result<RawElement>)
      requires Valid()
      modifies this`pos
      ensures Valid()
      ensures old(pos) > theEnd ==> r == Failure(VERIFY_FAILED) && pos == old(pos)
      ensures old(pos) <= theEnd ==>
        match ElementAt(mem[old(pos)..])
        case Success((e, size)) => r == Success(e) && pos == old(pos) + size
        case Failure(code) => r == Failure(code) && pos == old(pos)
    {
      if pos > theEnd {
        return Failure(VERIFY_FAILED);
      }
      match ElementAt(mem[pos..]) {
        case Success((e, size)) =>
          pos := pos + size;
          return Success(e);
        case Failure(code) =>
          return Failure(code);
      }
    }

    /** `BSONObj::elems`: everything from here to the end. */
    method Rest() returns (r: Result<seq<RawElement>>)
      requires Valid() && 0 <= theEnd
      modifies this`pos
      ensures Valid()
      ensures match Walk(mem, old(pos), theEnd)
        case Success((es, stop)) => r == Success(es) && pos == stop
        case Failure(code) => r == Failure(code)
    {
      hide Walk;
      ghost var all := Walk(mem, pos, theEnd);
      var es := [];
      PrependNone(all);
      while More()
        invariant Valid()
        invariant Prepend(es, Walk(mem, pos, theEnd)) == all
        decreases theEnd - pos
      {
        hide ElementAt;
        WalkOnce(es, mem, pos, theEnd);
        var e :- Next();
        es := es + [e];
      }
      WalkDone(mem, pos, theEnd);
      return Success(es);
    }
  }

  ghost function Prepend(es: seq<RawElement>, walk: Result<(seq<RawElement>, nat)>): Result<(seq<RawElement>, nat)> {
    match walk
    case Success((rest, stop)) => Success((es + rest, stop))
    case Failure(code) => Failure(code)
  }

  lemma PrependNone(walk: Result<(seq<RawElement>, nat)>)
    ensures Prepend([], walk) == walk
  {
    if walk.Success? {
      assert [] + walk.value.0 == walk.value.0;
    }
  }

  lemma WalkOnce(es: seq<RawElement>, mem: seq<byte>, pos: nat, end: nat)
    requires pos < end && pos <= |mem|
    ensures match ElementAt(mem[pos..])
      case Success((e, size)) => Prepend(es, Walk(mem, pos, end)) == Prepend(es + [e], Walk(mem, pos + size, end))
      case Failure(code) => Prepend(es, Walk(mem, pos, end)) == Failure(code)
  {
    hide ElementAt;
    match ElementAt(mem[pos..]) {
      case Success((e, size)) =>
        var walk := Walk(mem, pos + size, end);
        if walk.Success? {
          assert es + ([e] + walk.value.0) == es + [e] + walk.value.0;
        }
      case Failure(code) =>
    }
  }

  lemma WalkDone(mem: seq<byte>, pos: nat, end: nat)
    requires end <= pos <= |mem|
    ensures Walk(mem, pos, end) == Success(([], pos))
    ensures forall es :: Prepend(es, Walk(mem, pos, end)) == Success((es, pos))
  {
    forall es: seq<RawElement>
      ensures Prepend(es, Walk(mem, pos, end)) == Success((es, pos))
    {
      assert es + [] == es;
    }
  }

  /** Walking a built document through the iterator class recovers its elements in order. */
  method Elems(d: Doc) returns (r: Result<seq<RawElement>>, onEoo: bool)
    requires NamesOk(d) && |EncodeDoc(d)| <= INT_MAX
    ensures r == Success(RawList(d)) && onEoo
  {
    hide *;
    var b := EncodeDoc(d);
    WalkDocOf(d);
    var it := new BSONObjIterator(b, |b|);
    r := it.Rest();
    onEoo := it.pos == it.theEnd && b[it.pos] == EOO;
  }

  lemma WalkDocOf(d: Doc)
    requires NamesOk(d) && |EncodeDoc(d)| <= INT_MAX
    ensures var b := EncodeDoc(d);
      && ReadInt(b) == Success(|b|)
      && b[|b| - 1] == EOO
      && Walk(b, 4, |b| - 1) == Success((RawList(d), |b| - 1))
  {
    hide EncodeList;
    hide Walk;
    hide LittleEndian;
    hide ReadInt;
    var b := EncodeDoc(d);
    assert b == Int32Bytes(|b|) + (EncodeList(d) + [EOO]);
    ReadsPrefix(|b|, EncodeList(d) + [EOO]);
    WalkOf(Int32Bytes(|b|), d, [EOO]);
  }

  // ----- Buffers that have no EOO yet -----

  /** Every element takes at least two bytes, so a bound one short of the end loses nothing. */
  lemma {:induction false} OpenWalkOf(pre: seq<byte>, d: Doc, post: seq<byte>)
    requires pre != [] && NamesOk(d) && |EncodeList(d)| <= INT_MAX
    ensures Walk(pre + EncodeList(d) + post, |pre|, |pre| + |EncodeList(d)| - 1)
         == Success((RawList(d), |pre| + |EncodeList(d)|))
    decreases d
  {
    hide EncodeElement;
    hide EncodeValue;
    hide ElementAt;
    match d {
      case Nil =>
      case Cons(name, v, rest) =>
        var e, r := EncodeElement(name, v), EncodeList(rest);
        ElementLength(name, v);
        Regroup(pre, e, r, post);
        ElementOf(name, v, r + post);
        OpenWalkOf(pre + e, rest, post);
    }
  }
}
