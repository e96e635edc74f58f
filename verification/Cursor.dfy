/** The query cursor: batches that must look like one list of results. */
module Cursor {
  import opened Wrappers
  import opened BsonDocument
  import opened Sequences

  const NEXT_AT_END := 13422
  const CURSOR_NOT_FOUND := 13127
  const CALL_FAILED := 10278
  const VERIFY_FAILED := -2

  datatype Reply = Reply(docs: seq<Doc>, cursorId: int, notFound: bool)

  /** What is sent: a query or a getMore, with the number of documents asked for. */
  datatype Request = Query(n: int) | GetMore(n: int, cursorId: int)

  /** The number asked for: the batch size, the number still wanted, or the smaller one when both are given. */
  predicate AsksFor(wanted: int, batchSize: int, n: int) {
    && (wanted == 0 ==> n == batchSize)
    && (batchSize == 0 ==> n == wanted)
    && (wanted != 0 && batchSize != 0 ==> n <= wanted && n <= batchSize && n in {wanted, batchSize})
  }

  /** The other end. It decides freely how to cut its results into replies. */
  class Server {
    const results: seq<Doc>
    const tailable: bool
    const id: int
    var sent: nat
    ghost var failures: nat  // calls that failed or found the cursor gone
    ghost var asked: seq<Request>

    ghost predicate Valid()
      reads this
    {
      sent <= |results| && id != 0
    }

    constructor (results: seq<Doc>, tailable: bool, id: int)
      requires id != 0
      ensures Valid() && sent == 0 && failures == 0 && asked == [] && this.results == results && this.tailable == tailable
    {
      this.results, this.tailable, this.id, sent, failures, asked := results, tailable, id, 0, 0, [];
    }

    /**
     * A query or getMore, the latter for this server's cursor. A reply continues where the last one ended, and is empty only when
     * nothing is left or the cursor is tailable. The cursor is closed only when nothing is left or when the number
     * asked for is 1 or negative, which the wire protocol reads as "these and no more". A call can fail, and a cursor can be gone.
     */
    method Call(request: Request) returns (r: Option<Reply>)
      requires Valid() && (request.GetMore? ==> request.cursorId == id)
      modifies this
      ensures Valid() && asked == old(asked) + [request]
      ensures failures == old(failures) + if r.None? || r.value.notFound then 1 else 0
      ensures r.None? || r.value.notFound ==> sent == old(sent)
      ensures r.Some? && r.value.notFound ==> r.value.cursorId == 0 && r.value.docs == []
      ensures r.Some? && !r.value.notFound ==>
        && sent == old(sent) + |r.value.docs|
        && r.value.docs == results[old(sent)..sent]
        && (r.value.docs == [] && !tailable ==> sent == |results|)
        && r.value.cursorId in {0, id}
        && (r.value.cursorId == 0 ==> sent == |results| || request.n == 1 || request.n < 0)
    {
      asked := asked + [request];
      var lost: bool, gone: bool, closing: bool := *, *, *;
      if lost {
        failures := failures + 1;
        return None;
      }
      if gone {
        failures := failures + 1;
        return Some(Reply([], 0, true));
      }
      var left := |results| - sent;
      var k: nat :| k <= left && (k == 0 && !tailable ==> left == 0);
      var docs := results[sent..sent + k];
      sent := sent + k;
      return Some(Reply(docs, if closing && (k == left || request.n == 1 || request.n < 0) then 0 else id, false));
    }
  }

  /** A stack listed from the top down. */
  function Popped(s: seq<Doc>): (r: seq<Doc>)
    ensures |r| == |s|
  {
    if s == [] then [] else [s[|s| - 1]] + Popped(s[..|s| - 1])
  }

  function Min(a: int, b: int): int {
    if a < b then a else b
  }

  /** The documents wanted of `n` under a limit; `None` is no limit. */
  function Wanted(limit: Option<int>, n: nat): int {
    if limit.Some? then Min(limit.value, n) else n
  }

  lemma TopFirst(s: seq<Doc>, rest: seq<Doc>)
    requires s != []
    ensures Popped(s) + rest == [s[|s| - 1]] + (Popped(s[..|s| - 1]) + rest)
  {
    var top, below := s[|s| - 1], Popped(s[..|s| - 1]);
    assert Popped(s) == [top] + below;
    hide Popped;
    Associates([top], below, rest);
  }

  lemma NothingPutBack(s: seq<Doc>)
    ensures Popped([]) + s == s
  {
  }

  function Between(s: seq<Doc>, a: int, b: int): seq<Doc>
    requires 0 <= a && b <= |s|
  {
    if a < b then s[a..b] else []
  }

  lemma BetweenStep(s: seq<Doc>, a: int, b: int)
    requires 0 <= a < |s| && b <= |s|
    ensures a < b ==> Between(s, a, b) == [s[a]] + Between(s, a + 1, b)
    ensures a >= b ==> Between(s, a, b) == []
  {
  }

  lemma BetweenFromStart(s: seq<Doc>, b: nat)
    requires b <= |s|
    ensures Between(s, 0, b) == s[..b]
  {
  }

  predicate StandsAt(part: seq<Doc>, s: seq<Doc>, at: int) {
    0 <= at <= at + |part| <= |s| && part == s[at..at + |part|]
  }

  lemma ElementStandsAt(part: seq<Doc>, s: seq<Doc>, at: int, i: nat)
    requires StandsAt(part, s, at) && i < |part|
    ensures at + i < |s| && part[i] == s[at + i]
  {
  }

  lemma BatchFits(part: seq<Doc>, s: seq<Doc>, at: int)
    requires StandsAt(part, s, at)
    ensures 0 <= at <= at + |part| <= |s|
  {
  }

  lemma WantedAtMost(limit: Option<int>, n: nat)
    ensures Wanted(limit, n) <= n
    ensures limit.Some? ==> Wanted(limit, n) <= limit.value
    ensures limit.None? || limit.value >= 0 ==> Wanted(limit, n) >= 0
  {
  }

  class DBClientCursor {
    const server: Server
    const haveLimit: bool
    const tailable: bool
    const batchSize: int
    var nToReturn: int
    var cursorId: int
    var putBack: seq<Doc>
    var batch: seq<Doc>
    var pos: nat
    ghost const complete: bool  // not tailable, and no negative sizes, which ask for one reply only
    ghost var limit: int        // how many of the results the limit lets through
    ghost var started: bool
    ghost var gone: bool        // the server has said that it does not know the cursor

    ghost predicate Valid()
      reads this, server
    {
      && server.Valid() && server.tailable == tailable && cursorId in {0, server.id}
      && pos <= |batch| <= server.sent
      && StandsAt(batch, server.results, server.sent - |batch|)
      && batchSize != 1
      && (haveLimit ==> 0 < nToReturn == limit - (server.sent - |batch|) && !tailable)
      && (complete ==> !tailable && batchSize >= 0 && (haveLimit || nToReturn == 0))
      && (complete && started && !gone && cursorId == 0 ==> server.sent >= Wanted(Limit(), |server.results|))
    }

    ghost function Limit(): Option<int>
      reads this
    {
      if haveLimit then Some(limit) else None
    }

    /** How many results have been handed to the client. */
    ghost function Taken(): int
      reads this, server
    {
      server.sent - |batch| + pos
    }

    /** The results the cursor has still to deliver. */
    ghost function Remaining(): seq<Doc>
      reads this, server
      requires Valid()
    {
      Between(server.results, Taken(), Wanted(Limit(), |server.results|))
    }

    /** What a client that only calls `more` and `next` will see. */
    ghost function Future(): seq<Doc>
      reads this, server
      requires Valid()
    {
      Popped(putBack) + Remaining()
    }

    constructor (server: Server, nToReturn: int, tailable: bool, bs: int)
      requires server.Valid() && server.sent == 0 && server.tailable == tailable
      ensures this.server == server && this.tailable == tailable
      ensures haveLimit <==> nToReturn > 0 && !tailable
      ensures complete <==> !tailable && nToReturn >= 0 && bs >= 0
      ensures this.nToReturn == nToReturn && limit == nToReturn && putBack == [] && batch == [] && pos == 0 && cursorId == 0
      ensures batchSize == if bs == 1 then 2 else bs
      ensures Valid() && !started && !gone
    {
      this.server, this.nToReturn, this.tailable := server, nToReturn, tailable;
      haveLimit := nToReturn > 0 && !tailable;
      batchSize := if bs == 1 then 2 else bs;
      cursorId, putBack, batch, pos := 0, [], [], 0;
      complete, limit := !tailable && nToReturn >= 0 && bs >= 0, nToReturn;
      started, gone := false, false;
    }

    method NextBatchSize() returns (n: int)
      ensures AsksFor(nToReturn, batchSize, n)
    {
      if nToReturn == 0 {
        return batchSize;
      }
      if batchSize == 0 {
        return nToReturn;
      }
      return if batchSize < nToReturn then batchSize else nToReturn;
    }

    /** `dataReceived`: takes a reply over as the current batch. */
    method DataReceived(r: Reply) returns (o: Outcome)
      requires r.notFound ==> r.cursorId == 0
      modifies this
      ensures r.notFound && !tailable ==>
        o == Fail(CURSOR_NOT_FOUND) && gone && cursorId == 0 && batch == old(batch) && pos == old(pos)
      ensures !(r.notFound && !tailable) ==>
        && o == Pass && batch == r.docs && pos == 0 && gone == (old(gone) || r.notFound)
        && cursorId == (if !r.notFound && old(cursorId) != 0 && tailable then old(cursorId) else r.cursorId)
      ensures unchanged(`nToReturn, `putBack, `limit, `started)
    {
      if r.notFound {
        gone := true;
        cursorId := 0;
        if !tailable {
          return Fail(CURSOR_NOT_FOUND);
        }
      }
      if cursorId == 0 || !tailable {
        cursorId := r.cursorId;
      }
      batch, pos := r.docs, 0;
      return Pass;
    }

    /** One exchange with the server: sends a request and takes the reply over. */
    method Exchange(request: Request) returns (o: Outcome)
      requires server.Valid() && server.tailable == tailable && cursorId in {0, server.id}
      requires request.GetMore? ==> request.cursorId == server.id
      modifies this, server
      ensures server.Valid() && server.asked == old(server.asked) + [request] && cursorId in {0, server.id}
      ensures unchanged(`nToReturn, `putBack, `limit, `started)
      ensures o.Fail? ==> server.failures == old(server.failures) + 1
      ensures o.Pass? ==> server.failures >= old(server.failures) && (!tailable ==> server.failures == old(server.failures))
      ensures o.Fail? ==>
        && o.code in {CALL_FAILED, CURSOR_NOT_FOUND} && server.sent == old(server.sent)
        && batch == old(batch) && pos == old(pos)
        && (if o.code == CURSOR_NOT_FOUND then gone && cursorId == 0 else gone == old(gone) && cursorId == old(cursorId))
      ensures o.Pass? ==>
        && server.sent == old(server.sent) + |batch| && StandsAt(batch, server.results, old(server.sent)) && pos == 0
        && (!tailable ==> gone == old(gone) && (batch == [] ==> server.sent == |server.results|))
        && (!tailable && cursorId == 0 ==> server.sent == |server.results| || request.n == 1 || request.n < 0)
    {
      var reply := server.Call(request);
      if reply.None? {
        return Fail(CALL_FAILED);
      }
      o := DataReceived(reply.value);
    }

    /** Sends the query, asking for what the limit and the batch size say, and takes the first batch. */
    method Init() returns (r: Result<bool>)
      requires Valid() && !started && !gone && server.sent == 0 && cursorId == 0
      modifies this, server
      ensures Valid() && putBack == old(putBack) && limit == old(limit)
      ensures exists n :: AsksFor(nToReturn, batchSize, n) && server.asked == old(server.asked) + [Query(n)]
      ensures nToReturn == old(nToReturn)
      ensures r.Success? ==> started == r.value
      ensures r != Success(true) ==> server.failures == old(server.failures) + 1
      ensures r == Success(true) && !tailable ==> server.failures == old(server.failures)
      ensures r == Success(true) ==> Remaining() == server.results[..Wanted(Limit(), |server.results|)] && (!tailable ==> !gone)
      ensures r.Failure? ==> r.code == CURSOR_NOT_FOUND
    {
      hide Between;
      hide Wanted;
      hide StandsAt;
      var n := NextBatchSize();
      var o := Exchange(Query(n));
      if o.Fail? {
        if o.code == CURSOR_NOT_FOUND {
          return Failure(o.code);
        }
        return Success(false);
      }
      started := true;
      assert Taken() == 0;
      WantedAtMost(Limit(), |server.results|);
      BetweenFromStart(server.results, Wanted(Limit(), |server.results|));
      return Success(true);
    }

    /**
     * Asks for the next batch of this cursor, for no more than is still wanted. The limit counts a batch when the next one is requested, so a request that fails
     * has still used the last batch up: the limit then lets that many fewer results through.
     */
    method RequestMore() returns (o: Outcome)
      requires Valid() && started && cursorId != 0 && pos == |batch|
      requires haveLimit ==> nToReturn > |batch|
      modifies this, server
      ensures Valid() && started && putBack == old(putBack) && Taken() == old(Taken())
      ensures o.Fail? ==> server.failures == old(server.failures) + 1
      ensures o.Pass? ==> server.failures >= old(server.failures) && (!tailable ==> server.failures == old(server.failures))
      ensures exists n :: AsksFor(nToReturn, batchSize, n) && server.asked == old(server.asked) + [GetMore(n, old(cursorId))]
      ensures o.Pass? ==> limit == old(limit) && pos == 0 && nToReturn == old(nToReturn) - (if haveLimit then |old(batch)| else 0)
      ensures o.Pass? && !tailable ==> gone == old(gone) && (batch == [] ==> server.sent == |server.results|)
      ensures o.Fail? ==>
        && o.code in {CALL_FAILED, CURSOR_NOT_FOUND} && pos == |batch| && (o.code == CALL_FAILED ==> gone == old(gone))
        && limit == old(limit) - (if haveLimit then |old(batch)| else 0)
    {
      hide Between;
      hide Wanted;
      hide StandsAt;
      BatchFits(batch, server.results, server.sent - |batch|);
      WantedAtMost(Limit(), |server.results|);
      if haveLimit {
        nToReturn := nToReturn - |batch|;
        assert nToReturn > 0;
      }
      ghost var used := if haveLimit then |batch| else 0;
      var n := NextBatchSize();
      o := Exchange(GetMore(n, cursorId));
      if o.Fail? {
        limit := limit - used;
        WantedAtMost(Limit(), |server.results|);
      } else {
        BatchFits(batch, server.results, server.sent - |batch|);
      }
    }

    /** If true, `Next` delivers. If false, nothing more will come, provided the cursor is complete and not lost. */
    method More() returns (r: Result<bool>)
      requires Valid() && started
      modifies this, server
      ensures Valid() && started && putBack == old(putBack) && Taken() == old(Taken())
      ensures r.Failure? ==> server.failures == old(server.failures) + 1
      ensures r.Success? ==> server.failures >= old(server.failures) && (!tailable ==> server.failures == old(server.failures))
      ensures r.Success? ==> limit == old(limit) && Future() == old(Future()) && (!tailable ==> gone == old(gone))
      ensures old(putBack != [] || (haveLimit && pos >= nToReturn) || pos < |batch| || cursorId == 0) ==> server.asked == old(server.asked)
      ensures !old(putBack != [] || (haveLimit && pos >= nToReturn) || pos < |batch| || cursorId == 0) ==>
        exists n :: AsksFor(nToReturn, batchSize, n) && server.asked == old(server.asked) + [GetMore(n, old(cursorId))]
      ensures r == Success(true) ==> Future() != [] && (putBack != [] || pos < |batch|)
      ensures r == Success(false) && complete && !gone ==> Future() == []
      ensures r.Failure? ==>
        && r.code in {CALL_FAILED, CURSOR_NOT_FOUND} && putBack == []
        && limit == old(limit) - (if haveLimit then |old(batch)| else 0)
    {
      if putBack != [] {
        return Success(true);
      }
      if haveLimit && pos >= nToReturn {
        return Success(false);
      }
      if pos < |batch| {
        return Success(true);
      }
      if cursorId == 0 {
        return Success(false);
      }
      var o := RequestMore();
      if o.Fail? {
        return Failure(o.code);
      }
      return Success(pos < |batch|);
    }

    /** Delivers what was put back last, or else the next result of the batch, without looking at the limit. */
    method Next() returns (r: Result<Doc>)
      requires Valid()
      modifies this`putBack, this`pos
      ensures Valid()
      ensures r.Failure? <==> old(putBack == [] && pos == |batch|)
      ensures r.Failure? ==> r.code == NEXT_AT_END && putBack == old(putBack) && pos == old(pos)
      ensures old(putBack) != [] ==> r == Success(old(putBack)[|old(putBack)| - 1]) && Taken() == old(Taken())
      ensures old(putBack) == [] && r.Success? ==> r.value == server.results[old(Taken())] && Taken() == old(Taken()) + 1
      ensures old(Future()) != [] && r.Success? ==> [r.value] + Future() == old(Future())
    {
      hide Popped;
      hide Between;
      hide StandsAt;
      hide Wanted;
      WantedAtMost(Limit(), |server.results|);
      if putBack != [] {
        r := Success(putBack[|putBack| - 1]);
        TopFirst(putBack, Remaining());
        putBack := putBack[..|putBack| - 1];
        return;
      }
      if pos >= |batch| {
        return Failure(NEXT_AT_END);
      }
      NothingPutBack(Remaining());
      ElementStandsAt(batch, server.results, Taken() - pos, pos);
      BetweenStep(server.results, Taken(), Wanted(Limit(), |server.results|));
      pos := pos + 1;
      NothingPutBack(Remaining());
      return Success(batch[pos - 1]);
    }

    method PutBack(o: Doc)
      requires Valid()
      modifies this`putBack
      ensures Valid() && Future() == [o] + old(Future())
    {
      putBack := putBack + [o];
      assert putBack[..|putBack| - 1] == old(putBack);
    }

    /** `itcount`: the loop of `more` and `next` every client runs. */
    method ItCount() returns (c: Result<nat>, ghost seen: seq<Doc>)
      requires Valid() && started
      modifies this, server
      ensures Valid() && started
      ensures seen <= old(Future())
      ensures c.Success? ==> c.value == |seen| && (complete && !gone ==> seen == old(Future())) && (!tailable ==> gone == old(gone))
      ensures c.Failure? ==> c.code in {CALL_FAILED, CURSOR_NOT_FOUND}
      ensures c.Failure? ==> server.failures > old(server.failures)
      ensures c.Success? && !tailable ==> server.failures == old(server.failures)
    {
      hide Valid;
      hide Future;
      seen := [];
      var n := 0;
      assert [] + Future() == Future();
      while true
        invariant Valid() && started && n == |seen|
        invariant !tailable ==> gone == old(gone) && server.failures == old(server.failures)
        invariant server.failures >= old(server.failures)
        invariant seen + Future() == old(Future())
        decreases |Future()|
      {
        var more := More();
        if more.Failure? {
          return Failure(more.code), seen;
        }
        if !more.value {
          assert seen + [] == seen;
          return Success(n), seen;
        }
        var o := Next();
        Associates(seen, [o.value], Future());
        seen := seen + [o.value];
        n := n + 1;
      }
    }
  }

  /**
   * A query read to its end delivers exactly the first `nToReturn` of the server's results (all of them for 0),
   * in order, however the server cuts them into replies. It fails exactly when a call failed or the cursor was lost.
   */
  method ReadAll(server: Server, nToReturn: nat, bs: nat) returns (c: Result<nat>, ghost seen: seq<Doc>)
    requires server.Valid() && server.sent == 0 && !server.tailable
    modifies server
    ensures var wanted := server.results[..if 0 < nToReturn < |server.results| then nToReturn else |server.results|];
      && seen <= wanted
      && (c.Success? ==> seen == wanted && c.value == |seen|)
    ensures c.Success? <==> server.failures == old(server.failures)
  {
    var cursor := new DBClientCursor(server, nToReturn, false, bs);
    var ok := cursor.Init();
    if ok.Failure? {
      return Failure(ok.code), [];
    }
    if !ok.value {
      return Failure(CALL_FAILED), [];
    }
    NothingPutBack(cursor.Remaining());
    c, seen := cursor.ItCount();
  }
}
