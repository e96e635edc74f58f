/** The connection pool's classes: each critical section is a step of the model, and every deletion a real one. */
module ConnectionPool {
  import opened Wrappers
  import opened Bytes
  import opened ServerName
  import opened PoolModel
  import opened PoolRuns
  import opened Sequences

  const HOOK_THREW := -1
  const VERIFY_FAILED := -2
  const CONNECT_FAILED := 13328

  /** The connection objects. They are numbered as they are made, and `live` are those not yet deleted. */
  class Connections {
    var live: set<nat>
    var timeouts: map<nat, real>  // the socket timeout of every connection ever made
    var next: nat

    constructor ()
      ensures live == {} && timeouts == map[] && next == 0
    {
      live, timeouts, next := {}, map[], 0;
    }

    method Connect(timeout: real) returns (c: nat)
      modifies this
      ensures c == old(next) && next == c + 1 && live == old(live) + {c} && timeouts == old(timeouts)[c := timeout]
    {
      c := next;
      live, timeouts, next := live + {c}, timeouts[c := timeout], next + 1;
    }

    /** `delete`, allowed once. */
    method Delete(c: nat)
      requires c in live
      modifies this`live
      ensures live == old(live) - {c}
    {
      live := live - {c};
    }

    method SetSoTimeout(c: nat, timeout: real)
      requires c in live
      modifies this`timeouts
      ensures timeouts == old(timeouts)[c := timeout]
    {
      timeouts := timeouts[c := timeout];
    }
  }

  /** The hooks a program may install. Each is given a connection that still exists, and any call may throw. */
  class Hooks {
    ghost var destroyThrew: nat
    ghost var otherThrew: nat

    constructor ()
      ensures destroyThrew == 0 && otherThrew == 0
    {
      destroyThrew, otherThrew := 0, 0;
    }

    method OnDestroy(conns: Connections, c: nat) returns (threw: bool)
      requires c in conns.live
      modifies this`destroyThrew
      ensures destroyThrew == old(destroyThrew) + if threw then 1 else 0
    {
      threw := *;
      if threw {
        destroyThrew := destroyThrew + 1;
      }
    }

    /** `onHandedOut`; also `onCreate` followed by it, whichever of the two throws. */
    method OnHandedOut(conns: Connections, c: nat) returns (threw: bool)
      requires c in conns.live
      modifies this`otherThrew
      ensures otherThrew == old(otherThrew) + if threw then 1 else 0
    {
      threw := *;
      if threw {
        otherThrew := otherThrew + 1;
      }
    }
  }

  /** The pool of one host; the top of the stack is the last entry. */
  class PoolForHost {
    var pool: seq<Stored>
    var created: nat

    constructor ()
      ensures pool == [] && created == 0
    {
      pool, created := [], 0;
    }

    /** Every entry is a connection that exists, and none occurs twice. */
    ghost predicate Holding(conns: Connections)
      reads this, conns
    {
      Distinct(pool) && Conns(pool) <= conns.live && forall x :: x in pool ==> x.conn in conns.timeouts
    }

    /**
     * Pops until a connection that is not stale turns up, deleting the stale ones above it. Entry `n` is the one it
     * stops at. It is not deleted, not even when it is stale and the hook throws.
     */
    method Get(conns: Connections, hooks: Hooks, socketTimeout: real, now: int) returns (r: Result<Option<nat>>, ghost how: Taken)
      requires Holding(conns)
      modifies this`pool, conns`live, hooks`destroyThrew
      ensures match how
        case Found(n) =>
          && n < |old(pool)| && Ok(old(pool)[n], now) && StaleFrom(old(pool), n + 1, now)
          && pool == old(pool)[..n] && conns.live == old(conns.live) - Conns(old(pool)[n + 1..])
          && r == if conns.timeouts[old(pool)[n].conn] == socketTimeout then Success(Some(old(pool)[n].conn)) else Failure(VERIFY_FAILED)
        case Nothing =>
          StaleFrom(old(pool), 0, now) && pool == [] && conns.live == old(conns.live) - Conns(old(pool)) && r == Success(None)
        case Threw(n) =>
          && n < |old(pool)| && StaleFrom(old(pool), n, now)
          && pool == old(pool)[..n] && conns.live == old(conns.live) - Conns(old(pool)[n + 1..])
          && r == Failure(HOOK_THREW)
      ensures hooks.destroyThrew == old(hooks.destroyThrew) + if how.Threw? then 1 else 0
    {
      ghost var was := pool;
      FromTop(was);
      NoneLeft(was, Recent(now));
      hide Conns;
      hide Distinct;
      hide PoppedWhere;
      while pool != []
        invariant |pool| <= |was| && pool == was[..|pool|] && StaleFrom(was, |pool|, now)
        invariant conns.live == old(conns.live) - Conns(was[|pool|..])
        invariant hooks.destroyThrew == old(hooks.destroyThrew)
        decreases |pool|
      {
        PopOne(was, |pool|);
        ghost var n := |pool| - 1;
        var sc := pool[|pool| - 1];
        pool := pool[..|pool| - 1];
        if !Ok(sc, now) {
          var threw := hooks.OnDestroy(conns, sc.conn);
          if threw {
            return Failure(HOOK_THREW), Taken.Threw(n);
          }
          conns.Delete(sc.conn);
          continue;
        }
        if conns.timeouts[sc.conn] != socketTimeout {
          return Failure(VERIFY_FAILED), Found(n);
        }
        return Success(Some(sc.conn)), Found(n);
      }
      return Success(None), Nothing;
    }

    /** Takes a connection back, or deletes it when the pool is full. */
    method Done(conns: Connections, hooks: Hooks, c: nat, now: int, maxPerHost: nat) returns (o: Outcome)
      requires c in conns.live
      modifies this`pool, conns`live, hooks`destroyThrew
      ensures |old(pool)| < maxPerHost ==> o.Pass? && pool == old(pool) + [Stored(c, now)] && conns.live == old(conns.live)
      ensures |old(pool)| >= maxPerHost ==>
        pool == old(pool) && conns.live == if o.Pass? then old(conns.live) - {c} else old(conns.live)
      ensures o.Fail? ==> o.code == HOOK_THREW
      ensures hooks.destroyThrew == old(hooks.destroyThrew) + if o.Fail? then 1 else 0
    {
      if |pool| >= maxPerHost {
        var threw := hooks.OnDestroy(conns, c);
        if threw {
          return Fail(HOOK_THREW);
        }
        conns.Delete(c);
      } else {
        pool := pool + [Stored(c, now)];
      }
      return Pass;
    }

    /** Deletes the connections that do not answer. What stays keeps its time but ends up in the opposite order. */
    method Flush(conns: Connections, alive: set<nat>)
      requires Holding(conns)
      modifies this`pool, conns`live
      ensures pool == PoppedWhere(old(pool), Answering(alive))
      ensures conns.live == old(conns.live) - (Conns(old(pool)) - alive)
    {
      var all := PopAnswering(conns, alive);
      PushAll(all);
    }

    method PopAnswering(conns: Connections, alive: set<nat>) returns (all: seq<Stored>)
      requires Holding(conns)
      modifies this`pool, conns`live
      ensures pool == [] && all == PoppedWhere(old(pool), Answering(alive))
      ensures conns.live == old(conns.live) - (Conns(old(pool)) - alive)
    {
      ghost var was := pool;
      all := [];
      FromTop(was);
      NoneLeft(was, Answering(alive));
      hide Conns;
      hide Distinct;
      hide PoppedWhere;
      while pool != []
        invariant |pool| <= |was| && pool == was[..|pool|]
        invariant conns.live == old(conns.live) - (Conns(was[|pool|..]) - alive)
        invariant all + PoppedWhere(pool, Answering(alive)) == PoppedWhere(was, Answering(alive))
        decreases |pool|
      {
        PopOne(was, |pool|);
        PoppedStep(pool, Answering(alive), all);
        var c := pool[|pool| - 1];
        pool := pool[..|pool| - 1];
        if c.conn in alive {
          all := all + [c];
        } else {
          conns.Delete(c.conn);
        }
      }
      NoneLeft(was, Answering(alive));
      assert all + [] == all;
    }

    method GetStaleConnections(now: int) returns (stale: seq<nat>)
      modifies this`pool
      ensures pool == PoppedWhere(old(pool), Recent(now))
      ensures stale == ConnSeq(PoppedWhere(old(pool), Stale(now)))
    {
      var all: seq<Stored> := [];
      ghost var out: seq<Stored> := [];
      stale := [];
      while pool != []
        invariant stale == ConnSeq(out)
        invariant all + PoppedWhere(pool, Recent(now)) == PoppedWhere(old(pool), Recent(now))
        invariant out + PoppedWhere(pool, Stale(now)) == PoppedWhere(old(pool), Stale(now))
        decreases |pool|
      {
        PoppedStep(pool, Recent(now), all);
        PoppedStep(pool, Stale(now), out);
        var c := pool[|pool| - 1];
        pool := pool[..|pool| - 1];
        hide PoppedWhere;
        if Ok(c, now) {
          all := all + [c];
        } else {
          stale, out := stale + [c.conn], out + [c];
        }
      }
      PushAll(all);
    }

    method PushAll(all: seq<Stored>)
      requires pool == []
      modifies this`pool
      ensures pool == all
    {
      for i := 0 to |all|
        invariant pool == all[..i]
      {
        pool := pool + [all[i]];
      }
    }

    /** Deletes every entry. */
    method Clear(conns: Connections)
      requires Holding(conns)
      modifies this`pool, conns`live
      ensures pool == [] && conns.live == old(conns.live) - Conns(old(pool))
    {
      ghost var was := pool;
      FromTop(was);
      NoneLeft(was, Recent(0));
      hide Conns;
      hide Distinct;
      while pool != []
        invariant |pool| <= |was| && pool == was[..|pool|]
        invariant conns.live == old(conns.live) - Conns(was[|pool|..])
        decreases |pool|
      {
        PopOne(was, |pool|);
        conns.Delete(pool[|pool| - 1].conn);
        pool := pool[..|pool| - 1];
      }
    }
  }

  lemma FromTop(s: seq<Stored>)
    ensures s[..|s|] == s && Conns(s[|s|..]) == {}
  {
  }

  lemma NoneLeft(s: seq<Stored>, f: Stored -> bool)
    ensures Conns(s[0..]) == Conns(s) && s[..0] == [] && PoppedWhere([], f) == []
  {
    assert s[0..] == s;
  }

  /** One entry of the first `n` is popped: which it is, and that it is no other. */
  lemma PopOne(s: seq<Stored>, n: nat)
    requires Distinct(s) && 0 < n <= |s|
    ensures s[..n][n - 1] == s[n - 1] && s[..n][..n - 1] == s[..n - 1] && s[n - 1] in s
    ensures Conns(s[n - 1..]) == {s[n - 1].conn} + Conns(s[n..]) && s[n - 1].conn !in Conns(s[n..]) && s[n - 1].conn in Conns(s)
  {
    PrefixThinner(s, n - 1);
  }

  lemma PoppedStep(s: seq<Stored>, f: Stored -> bool, before: seq<Stored>)
    requires s != []
    ensures before + PoppedWhere(s, f)
         == (if f(s[|s| - 1]) then before + [s[|s| - 1]] else before) + PoppedWhere(s[..|s| - 1], f)
  {
    var top, rest := s[|s| - 1], PoppedWhere(s[..|s| - 1], f);
    if f(top) {
      Associates(before, [top], rest);
    } else {
      NothingInFront(rest);
    }
  }

  lemma NothingInFront(s: seq<Stored>)
    ensures [] + s == s
  {
  }

  function ConnSeq(s: seq<Stored>): seq<nat> {
    seq(|s|, i requires 0 <= i < |s| => s[i].conn)
  }

  /** What the invariant says of one stack. */
  lemma StackFacts(s: State, k: PoolKey)
    requires Inv(s)
    ensures Distinct(s.At(k)) && Conns(s.At(k)) <= Pooled(s.stacks) <= s.live
    ensures forall x :: x in s.At(k) ==> x.conn in s.timeouts && s.timeouts[x.conn] == k.timeout
    ensures forall c :: c in s.held || c in s.doomed ==> c in s.live && c in s.timeouts
    ensures |s.At(k)| <= s.room
  {
    assert Distinct([]) && Conns([]) == {};
    hide Conns;
  }

  lemma Overwrite(stacks: Stacks, k: PoolKey, a: seq<Stored>, b: seq<Stored>)
    ensures stacks[k := a][k := b] == stacks[k := b]
  {
  }

  /** The part of the state after a take that memory shows. */
  lemma TakeFields(s: State, key: PoolKey, now: int, how: Taken)
    requires var stack := s.At(Canonical(key)); match how
      case Found(n) => n < |stack| && Ok(stack[n], now) && StaleFrom(stack, n + 1, now)
      case Nothing => StaleFrom(stack, 0, now)
      case Threw(n) => n < |stack| && StaleFrom(stack, n, now)
    ensures Enabled(s, Take(key, now, how))
    ensures var (k, s') := (Canonical(key), After(s, Take(key, now, how)));
      && s'.room == s.room && s'.timeouts == s.timeouts && s'.next == s.next
      && s'.stacks == s.stacks[k := if how.Nothing? then [] else s.At(k)[..how.n]]
      && s'.live == s.live - Conns(s.At(k)[if how.Nothing? then 0 else how.n + 1..])
  {
    hide StaleFrom;
    hide Canonical;
    var stack := s.At(Canonical(key));
    assert stack[0..] == stack;
    hide Conns;
  }

  /** How `get` ends: with entry `n` of the stack or a new connection, or with one of four exceptions. */
  datatype Got = Reused(n: nat) | HandOutThrew(n: nat) | StaleThrew(n: nat) | Created | CreateThrew | Unreachable

  ghost function GetSteps(s: State, key: PoolKey, now: int, how: Got): seq<Step> {
    var stack := s.At(Canonical(key));
    match how
    case Reused(n) => [Take(key, now, Found(n))]
    case HandOutThrew(n) => [Take(key, now, Found(n))] + [Delete(if n < |stack| then stack[n].conn else 0)]
    case StaleThrew(n) => [Take(key, now, Threw(n))]
    case Unreachable => [Take(key, now, Nothing)]
    case Created => [Take(key, now, Nothing)] + [Connect(key.timeout)] + [Touch(key)]
    case CreateThrew => [Take(key, now, Nothing)] + [Connect(key.timeout)] + [Touch(key)] + [Delete(s.next)]
  }

  lemma LastStep(s: State, steps: seq<Step>, step: Step)
    requires Legal(s, steps + [step])
    ensures Legal(s, steps) && Enabled(Run(s, steps), step) && Run(s, steps + [step]) == After(Run(s, steps), step)
  {
    assert (steps + [step])[..|steps|] == steps;
    RunSnoc(s, steps, step);
    hide Run;
    hide Enabled;
  }

  lemma OnlyStep(s: State, step: Step)
    requires Legal(s, [step])
    ensures Enabled(s, step) && Run(s, [step]) == After(s, step)
  {
    assert [] + [step] == [step];
    LastStep(s, [], step);
  }

  /**
   * What a `get` leaves behind. No stack but the one asked for has changed; in that one what is below the entry it stops
   * at stays, and what is above is stale and has been deleted.
   */
  lemma GetMeans(s: State, key: PoolKey, now: int, how: Got)
    requires Inv(s) && Legal(s, GetSteps(s, key, now, how))
    ensures var (k, s') := (Canonical(key), Run(s, GetSteps(s, key, now, how)));
      var stack := s.At(k);
      match how
      case Reused(n) =>
        && n < |stack| && Ok(stack[n], now) && StaleFrom(stack, n + 1, now)
        && s' == s.(stacks := s.stacks[k := stack[..n]], live := s.live - Conns(stack[n + 1..]), held := s.held + {stack[n].conn})
      case HandOutThrew(n) =>
        && n < |stack| && Ok(stack[n], now) && StaleFrom(stack, n + 1, now)
        && s' == s.(stacks := s.stacks[k := stack[..n]], live := s.live - Conns(stack[n..]))
      case StaleThrew(n) =>
        && n < |stack| && StaleFrom(stack, n, now)
        && s' == s.(stacks := s.stacks[k := stack[..n]], live := s.live - Conns(stack[n + 1..]), lost := s.lost + {stack[n].conn})
      case Unreachable =>
        StaleFrom(stack, 0, now) && s' == s.(stacks := s.stacks[k := []], live := s.live - Conns(stack))
      case Created =>
        && StaleFrom(stack, 0, now)
        && s' == s.(stacks := s.stacks[k := []], timeouts := s.timeouts[s.next := key.timeout], next := s.next + 1,
                    live := s.live - Conns(stack) + {s.next}, held := s.held + {s.next})
      case CreateThrew =>
        && StaleFrom(stack, 0, now)
        && s' == s.(stacks := s.stacks[k := []], timeouts := s.timeouts[s.next := key.timeout], next := s.next + 1,
                    live := s.live - Conns(stack))
  {
    hide Inv;
    hide Legal;
    hide Run;
    hide StaleFrom;
    hide Canonical;
    hide Conns;
    match how {
      case Reused(n) => OnlyStep(s, Take(key, now, Found(n)));
      case HandOutThrew(n) => HandOutThrewMeans(s, key, now, n);
      case StaleThrew(n) => OnlyStep(s, Take(key, now, Threw(n)));
      case Unreachable => OnlyStep(s, Take(key, now, Nothing));
      case Created => CreatedMeans(s, key, now);
      case CreateThrew =>
        LastStep(s, GetSteps(s, key, now, Created), Delete(s.next));
        CreatedMeans(s, key, now);
        NextIsNew(s);
    }
  }

  lemma NextIsNew(s: State)
    requires Inv(s)
    ensures s.next !in s.live && s.next !in s.held
  {
    hide Sound;
    hide Pooled;
  }

  lemma NotHeld(s: State, k: PoolKey, n: nat)
    requires Inv(s) && n < |s.At(k)|
    ensures s.At(k)[n].conn !in s.held && Conns(s.At(k)[n..]) == {s.At(k)[n].conn} + Conns(s.At(k)[n + 1..])
  {
    InPool(s, k, s.At(k)[n]);
    PlacesAreApart(s, s.At(k)[n].conn);
    StackFacts(s, k);
    PrefixThinner(s.At(k), n);
    hide Conns;
    hide Inv;
    hide Pooled;
    hide Distinct;
  }

  lemma FoundMeans(s: State, key: PoolKey, now: int, n: nat)
    requires Enabled(s, Take(key, now, Found(n)))
    ensures var stack := s.At(Canonical(key));
      && n < |stack| && Ok(stack[n], now) && StaleFrom(stack, n + 1, now)
      && After(s, Take(key, now, Found(n)))
         == s.(stacks := s.stacks[Canonical(key) := stack[..n]], live := s.live - Conns(stack[n + 1..]), held := s.held + {stack[n].conn})
  {
    hide StaleFrom;
    hide Canonical;
    hide Conns;
    hide Ok;
  }

  lemma DeletedAgain(s: State, stacks: Stacks, c: nat, rest: set<nat>)
    requires c !in s.held
    ensures After(s.(stacks := stacks, live := s.live - rest, held := s.held + {c}), Delete(c))
         == s.(stacks := stacks, live := s.live - ({c} + rest))
  {
    assert s.held + {c} - {c} == s.held;
  }

  lemma HandOutThrewMeans(s: State, key: PoolKey, now: int, n: nat)
    requires Inv(s) && Legal(s, GetSteps(s, key, now, HandOutThrew(n)))
    ensures var (k, s') := (Canonical(key), Run(s, GetSteps(s, key, now, HandOutThrew(n))));
      var stack := s.At(k);
      && n < |stack| && Ok(stack[n], now) && StaleFrom(stack, n + 1, now)
      && s' == s.(stacks := s.stacks[k := stack[..n]], live := s.live - Conns(stack[n..]))
  {
    hide Legal;
    hide Run;
    hide After;
    hide Enabled;
    hide StaleFrom;
    hide Canonical;
    hide Conns;
    hide Ok;
    hide Inv;
    var stack := s.At(Canonical(key));
    LastStep(s, [Take(key, now, Found(n))], Delete(if n < |stack| then stack[n].conn else 0));
    OnlyStep(s, Take(key, now, Found(n)));
    FoundMeans(s, key, now, n);
    NotHeld(s, Canonical(key), n);
    DeletedAgain(s, s.stacks[Canonical(key) := stack[..n]], stack[n].conn, Conns(stack[n + 1..]));
  }

  lemma CreatedMeans(s: State, key: PoolKey, now: int)
    requires Legal(s, GetSteps(s, key, now, Created))
    ensures var (k, s') := (Canonical(key), Run(s, GetSteps(s, key, now, Created)));
      && StaleFrom(s.At(k), 0, now)
      && s' == s.(stacks := s.stacks[k := []], timeouts := s.timeouts[s.next := key.timeout], next := s.next + 1,
                  live := s.live - Conns(s.At(k)) + {s.next}, held := s.held + {s.next})
  {
    hide Legal;
    hide Run;
    hide StaleFrom;
    hide Canonical;
    hide Conns;
    LastStep(s, [Take(key, now, Nothing)] + [Connect(key.timeout)], Touch(key));
    LastStep(s, [Take(key, now, Nothing)], Connect(key.timeout));
    OnlyStep(s, Take(key, now, Nothing));
    Overwrite(s.stacks, Canonical(key), [], []);
  }

  /** `release` when it returns, or when the `onDestroy` hook throws, after which the caller still holds the connection. */
  ghost function ReleaseSteps(s: State, ident: seq<byte>, c: nat, failed: bool, now: int, returned: bool): seq<Step> {
    var k := s.KeyFor(ident, c);
    if failed then (if returned then [Delete(c)] else [])
    else if |s.At(k)| < s.room then [PutBack(ident, c, now)]
    else if returned then [Touch(k)] + [Delete(c)] else [Touch(k)]
  }

  /** What a `release` leaves behind: one stack has one entry more, of this moment, or the connection is deleted. */
  lemma ReleaseMeans(s: State, ident: seq<byte>, c: nat, failed: bool, now: int, returned: bool)
    requires Legal(s, ReleaseSteps(s, ident, c, failed, now, returned))
    ensures var (k, s') := (s.KeyFor(ident, c), Run(s, ReleaseSteps(s, ident, c, failed, now, returned)));
      var entered := if failed then s else s.(stacks := s.stacks[k := s.At(k)]);
      s' == if !failed && |s.At(k)| < s.room then s.(stacks := s.stacks[k := s.At(k) + [Stored(c, now)]], held := s.held - {c})
            else if returned then entered.(live := s.live - {c}, held := s.held - {c})
            else entered
  {
    hide Prefix;
    var k := s.KeyFor(ident, c);
    CanonicalTwice(PoolKey(ident, if c in s.timeouts then s.timeouts[c] else 0.0));
    NoSteps([], s);
    if failed && returned {
      OnlyStep(s, Delete(c));
    } else if !failed && |s.At(k)| < s.room {
      OnlyStep(s, PutBack(ident, c, now));
    } else if !failed && returned {
      LastStep(s, [Touch(k)], Delete(c));
      OnlyStep(s, Touch(k));
    } else if !failed {
      OnlyStep(s, Touch(k));
    }
    hide Run;
    hide Legal;
  }

  lemma NoSteps(h: seq<Step>, s: State)
    ensures h + [] == h && Legal(s, []) && Run(s, []) == s
  {
  }

  lemma Compose(h0: seq<Step>, s0: State, a: seq<Step>, h1: seq<Step>, s1: State, b: seq<Step>, h2: seq<Step>, s2: State)
    requires h1 == h0 + a && Legal(s0, a) && s1 == Run(s0, a)
    requires h2 == h1 + b && Legal(s1, b) && s2 == Run(s1, b)
    ensures h2 == h0 + (a + b) && Legal(s0, a + b) && s2 == Run(s0, a + b)
  {
    hide Run;
    hide Legal;
    LegalAppend(s0, a, b);
    RunAppend(s0, a, b);
    Associates(h0, a, b);
  }

  class DBConnectionPool {
    const maxPerHost: nat
    const conns: Connections
    const hooks: Hooks
    var pools: map<PoolKey, PoolForHost>
    ghost var history: seq<Step>  // the steps taken so far, by any thread

    /** The stacks behind the map. A `std::map` ordered by `poolKeyCompare` has one entry for each canonical key. */
    ghost function Stacks(): (r: Stacks)
      reads this`pools, pools.Values
      ensures r.Keys == pools.Keys
    {
      map k | k in pools :: pools[k].pool
    }

    /** What a `std::map` lookup of `k` would find; an absent entry counts as empty. */
    ghost function StackOf(k: PoolKey): seq<Stored>
      reads this`pools, pools.Values
    {
      if k in pools then pools[k].pool else []
    }

    lemma StackIs(s: State, k: PoolKey)
      requires Shows(s)
      ensures StackOf(k) == s.At(k)
    {
    }

    /** What the steps taken make of an empty pool. */
    ghost function Now(): State
      reads this`history
    {
      Run(Empty(maxPerHost), history)
    }

    /** Different keys have different pools. */
    ghost predicate Linked()
      reads this`pools
    {
      forall k, l :: k in pools && l in pools && k != l ==> pools[k] != pools[l]
    }

    /** The stacks and the connections that exist are those of `s`. */
    ghost predicate Shows(s: State)
      reads this`pools, pools.Values, conns
    {
      && Linked()
      && s.room == maxPerHost && s.stacks == Stacks()
      && s.timeouts == conns.timeouts && s.next == conns.next && s.live == conns.live
    }

    ghost predicate Valid()
      reads this, pools.Values, conns
    {
      Shows(Now())
    }

    constructor (maxPerHost: nat, hooks: Hooks)
      ensures Valid() && history == [] && this.maxPerHost == maxPerHost && this.hooks == hooks && fresh(conns)
    {
      this.maxPerHost, this.hooks := maxPerHost, hooks;
      conns := new Connections();
      pools, history := map[], [];
    }

    /** These steps have been taken since, and nothing else has happened. */
    twostate predicate Took(steps: seq<Step>)
      reads this`history
    {
      history == old(history) + steps && Legal(old(Now()), steps) && Now() == Run(old(Now()), steps)
    }

    /** Enters a step that has been carried out. */
    ghost method Log(step: Step)
      requires Enabled(Now(), step) && Shows(After(Now(), step))
      modifies this`history
      ensures Valid() && Took([step]) && Now() == After(old(Now()), step)
    {
      hide After;
      hide Enabled;
      hide Run;
      hide Legal;
      RunSnoc(Empty(maxPerHost), history, step);
      RunOne(Now(), step);
      LegalOne(Now(), step);
      history := history + [step];
    }

    /** `_pools[key]`, which makes an empty entry for a new key. */
    method Entry(key: PoolKey) returns (k: PoolKey)
      requires Linked()
      modifies this`pools
      ensures Linked() && k == Canonical(key) && k in pools && pools[k].pool == old(StackOf(k))
      ensures StackOf(k) == old(StackOf(k)) && Stacks() == old(Stacks())[k := old(StackOf(k))]
      ensures fresh(pools.Values - old(pools.Values))
    {
      k := Canonical(key);
      if k !in pools {
        var p := new PoolForHost();
        ghost var after := Stacks()[k := []];
        pools := pools[k := p];
        assert Stacks() == after;
      }
    }

    /** `PoolForHost::get` on an entry whose connections have the timeout asked for, so that the `verify` holds. */
    method GetAt(k: PoolKey, now: int, ghost stack: seq<Stored>) returns (r: Result<Option<nat>>, ghost how: Taken)
      requires Linked() && k in pools && stack == pools[k].pool && Distinct(stack) && Conns(stack) <= conns.live
      requires forall x :: x in stack ==> x.conn in conns.timeouts && conns.timeouts[x.conn] == k.timeout
      modifies pools.Values, conns`live, hooks`destroyThrew
      ensures match how
        case Found(n) => n < |stack| && Ok(stack[n], now) && StaleFrom(stack, n + 1, now) && r == Success(Some(stack[n].conn))
        case Nothing => StaleFrom(stack, 0, now) && r == Success(None)
        case Threw(n) => n < |stack| && StaleFrom(stack, n, now) && r == Failure(HOOK_THREW)
      ensures Stacks() == old(Stacks())[k := if how.Nothing? then [] else stack[..how.n]]
      ensures conns.live == old(conns.live) - Conns(stack[if how.Nothing? then 0 else how.n + 1..])
      ensures hooks.destroyThrew == old(hooks.destroyThrew) + if how.Threw? then 1 else 0
    {
      hide Conns;
      hide Distinct;
      hide StaleFrom;
      hide Ok;
      ghost var was := Stacks();
      assert stack[0..] == stack;
      var p := pools[k];
      r, how := p.Get(conns, hooks, k.timeout, now);
      ghost var kept := was[k := p.pool];
      assert Stacks() == kept;
    }

    /** The same after `_pools[key]`, in memory. */
    method TakeOut(key: PoolKey, now: int, ghost stack: seq<Stored>) returns (r: Result<Option<nat>>, ghost how: Taken)
      requires Linked() && stack == StackOf(Canonical(key)) && Distinct(stack) && Conns(stack) <= conns.live
      requires forall x :: x in stack ==> x.conn in conns.timeouts && conns.timeouts[x.conn] == key.timeout
      modifies this`pools, pools.Values, conns`live, hooks`destroyThrew
      ensures Linked() && fresh(pools.Values - old(pools.Values))
      ensures match how
        case Found(n) => n < |stack| && Ok(stack[n], now) && StaleFrom(stack, n + 1, now) && r == Success(Some(stack[n].conn))
        case Nothing => StaleFrom(stack, 0, now) && r == Success(None)
        case Threw(n) => n < |stack| && StaleFrom(stack, n, now) && r == Failure(HOOK_THREW)
      ensures Stacks() == old(Stacks())[Canonical(key) := if how.Nothing? then [] else stack[..how.n]]
      ensures conns.live == old(conns.live) - Conns(stack[if how.Nothing? then 0 else how.n + 1..])
      ensures hooks.destroyThrew == old(hooks.destroyThrew) + if how.Threw? then 1 else 0
    {
      hide Conns;
      hide Distinct;
      hide StaleFrom;
      hide Ok;
      hide Canonical;
      hide Stacks;
      hide StackOf;
      CanonicalTwice(key);
      ghost var was := Stacks();
      var k := Entry(key);
      r, how := GetAt(k, now, stack);
      Overwrite(was, k, stack, if how.Nothing? then [] else stack[..how.n]);
    }

    /** `_get`, under the mutex: a connection out of the pool, if there is one that is not stale. */
    method TakeFrom(key: PoolKey, now: int) returns (r: Result<Option<nat>>, ghost how: Taken)
      requires Valid()
      modifies this`pools, this`history, pools.Values, conns`live, hooks`destroyThrew
      ensures Valid() && Took([Take(key, now, how)]) && fresh(pools.Values - old(pools.Values))
      ensures Enabled(old(Now()), Take(key, now, how)) && Now() == After(old(Now()), Take(key, now, how))
      ensures r == match how
        case Found(n) => Success(Some(old(Now()).At(Canonical(key))[n].conn))
        case Nothing => Success(None)
        case Threw(_) => Failure(HOOK_THREW)
      ensures hooks.destroyThrew == old(hooks.destroyThrew) + if how.Threw? then 1 else 0
    {
      hide Run;
      hide Canonical;
      hide Conns;
      hide Distinct;
      hide Inv;
      hide After;
      hide StaleFrom;
      hide Ok;
      hide Enabled;
      hide Stacks;
      ghost var s := Now();
      InvRun(maxPerHost, history);
      CanonicalTwice(key);
      StackFacts(s, Canonical(key));
      hide Pooled;
      StackIs(s, Canonical(key));
      r, how := TakeOut(key, now, s.At(Canonical(key)));
      TakeFields(s, key, now, how);
      Log(Take(key, now, how));
    }

    /** `ScopedDbConnection::kill`; so do the pool's own methods delete a connection they hold. */
    method Kill(c: nat)
      requires Valid() && c in Now().held
      modifies this`history, conns`live
      ensures Valid() && Took([Delete(c)]) && Now() == After(old(Now()), Delete(c))
    {
      HeldIsLive(c);
      hide Run;
      hide Stacks;
      conns.Delete(c);
      Log(Delete(c));
    }

    lemma HeldIsLive(c: nat)
      requires Valid() && (c in Now().held || c in Now().doomed)
      ensures c in conns.live && c in conns.timeouts
    {
      InvRun(maxPerHost, history);
      hide Run;
      hide Sound;
      hide Pooled;
    }

    /** A client may change the timeout of a connection it holds. */
    method SetSoTimeout(c: nat, timeout: real)
      requires Valid() && c in Now().held
      modifies this`history, conns`timeouts
      ensures Valid() && Took([SetTimeout(c, timeout)]) && Now() == After(old(Now()), SetTimeout(c, timeout))
    {
      HeldIsLive(c);
      hide Run;
      hide Stacks;
      conns.SetSoTimeout(c, timeout);
      Log(SetTimeout(c, timeout));
    }

    /** Connects to a server; the new connection is in the caller's hands. */
    method ConnectTo(timeout: real) returns (c: nat)
      requires Valid()
      modifies this`history, conns
      ensures Valid() && Took([Connect(timeout)]) && Now() == After(old(Now()), Connect(timeout))
      ensures c == old(Now()).next && c in Now().held
    {
      hide Run;
      hide Stacks;
      c := conns.Connect(timeout);
      Log(Connect(timeout));
    }

    /** `createdOne`, under the mutex. */
    method CountCreated(key: PoolKey)
      requires Valid()
      modifies this`pools, this`history, pools.Values
      ensures Valid() && Took([Touch(key)]) && Now() == After(old(Now()), Touch(key))
    {
      hide Run;
      hide Canonical;
      ghost var s := Now();
      StackIs(s, Canonical(key));
      hide StackOf;
      var k := Entry(key);
      ghost var was := Stacks();
      pools[k].created := pools[k].created + 1;
      assert Stacks() == was;
      hide Stacks;
      Log(Touch(key));
    }

    /** A connection about to be handed out; a hook that throws deletes it. */
    method HandOut(c: nat) returns (threw: bool)
      requires Valid() && c in Now().held
      modifies this`history, conns`live, hooks`otherThrew
      ensures Valid() && Took(if threw then [Delete(c)] else [])
      ensures hooks.otherThrew == old(hooks.otherThrew) + if threw then 1 else 0
    {
      HeldIsLive(c);
      hide Run;
      hide Stacks;
      hide Valid;
      threw := hooks.OnHandedOut(conns, c);
      if threw {
        Kill(c);
      }
    }

    /** A pooled connection is handed out. */
    method Reuse(c: nat, ghost h0: seq<Step>, ghost s0: State, ghost a: seq<Step>) returns (r: Result<nat>)
      requires Valid() && c in Now().held && history == h0 + a && Legal(s0, a) && Now() == Run(s0, a)
      modifies this`history, conns`live, hooks`otherThrew
      ensures Valid() && r in {Success(c), Failure(HOOK_THREW)}
      ensures var all := if r.Success? then a else a + [Delete(c)];
        history == h0 + all && Legal(s0, all) && Now() == Run(s0, all)
      ensures hooks.otherThrew == old(hooks.otherThrew) + if r.Failure? then 1 else 0
    {
      hide Valid;
      hide Legal;
      ghost var h1, s1 := history, Now();
      var threw := HandOut(c);
      Compose(h0, s0, a, h1, s1, if threw then [Delete(c)] else [], history, Now());
      assert a + [] == a;
      hide Run;
      return if threw then Failure(HOOK_THREW) else Success(c);
    }

    /** Connecting and `_finishCreate`: a hook that throws deletes the new connection at once. */
    method Create(key: PoolKey, ghost h0: seq<Step>, ghost s0: State, ghost a: seq<Step>) returns (r: Result<nat>)
      requires Valid() && history == h0 + a && Legal(s0, a) && Now() == Run(s0, a)
      modifies this, pools.Values, conns, hooks`otherThrew
      ensures Valid() && r in {Success(old(Now()).next), Failure(HOOK_THREW)}
      ensures var made := a + [Connect(key.timeout)] + [Touch(key)];
        var all := if r.Success? then made else made + [Delete(old(Now()).next)];
        history == h0 + all && Legal(s0, all) && Now() == Run(s0, all)
      ensures hooks.otherThrew == old(hooks.otherThrew) + if r.Failure? then 1 else 0
    {
      hide Valid;
      hide Legal;
      hide Run;
      ghost var h1, s1 := history, Now();
      var c := ConnectTo(key.timeout);
      ghost var h2, s2 := history, Now();
      Compose(h0, s0, a, h1, s1, [Connect(key.timeout)], h2, s2);
      CountCreated(key);
      Compose(h0, s0, a + [Connect(key.timeout)], h2, s2, [Touch(key)], history, Now());
      r := Reuse(c, h0, s0, a + [Connect(key.timeout)] + [Touch(key)]);
    }

    /**
     * Hands out the topmost pooled connection that is not stale, or else a new one. What is stale above it is deleted;
     * what is below it stays. A hook that throws over a stale connection loses that one; a hook that throws over the
     * connection to be handed out deletes it.
     */
    method Get(key: PoolKey, now: int, reachable: bool) returns (r: Result<nat>, ghost how: Got)
      requires Valid()
      modifies this, pools.Values, conns, hooks
      ensures Valid() && Took(GetSteps(old(Now()), key, now, how))
      ensures how.Reused? ==> how.n < |old(Now()).At(Canonical(key))|
      ensures r == match how
        case Reused(n) => Success(old(Now()).At(Canonical(key))[n].conn)
        case Created => Success(old(Now()).next)
        case Unreachable => Failure(CONNECT_FAILED)
        case _ => Failure(HOOK_THREW)
      ensures how.Unreachable? ==> !reachable
      ensures hooks.destroyThrew == old(hooks.destroyThrew) + if how.StaleThrew? then 1 else 0
      ensures hooks.otherThrew == old(hooks.otherThrew) + if how.HandOutThrew? || how.CreateThrew? then 1 else 0
    {
      hide Valid;
      hide Legal;
      hide Run;
      hide After;
      hide Canonical;
      hide StaleFrom;
      ghost var h0, s0 := history, Now();
      var taken, step := TakeFrom(key, now);
      ghost var a := [Take(key, now, step)];
      match taken {
        case Failure(code) =>
          return Failure(code), StaleThrew(step.n);
        case Success(Some(c)) =>
          FoundIsHeld(s0, key, now, step);
          r := Reuse(c, h0, s0, a);
          how := if r.Success? then Reused(step.n) else HandOutThrew(step.n);
        case Success(None) =>
          if !reachable {
            return Failure(CONNECT_FAILED), Unreachable;
          }
          NoneKeepsNext(s0, key, now, step);
          r := Create(key, h0, s0, a);
          how := if r.Success? then Created else CreateThrew;
      }
    }

    /** `PoolForHost::done` on the entry of `k`, in memory. */
    method DoneAt(k: PoolKey, c: nat, now: int) returns (o: Outcome)
      requires Linked() && Canonical(k) == k && c in conns.live
      modifies this`pools, pools.Values, conns`live, hooks`destroyThrew
      ensures Linked()
      ensures var stack := old(StackOf(k));
        if |stack| < maxPerHost then o.Pass? && Stacks() == old(Stacks())[k := stack + [Stored(c, now)]] && conns.live == old(conns.live)
        else Stacks() == old(Stacks())[k := stack] && conns.live == if o.Pass? then old(conns.live) - {c} else old(conns.live)
      ensures o.Fail? ==> o.code == HOOK_THREW
      ensures hooks.destroyThrew == old(hooks.destroyThrew) + if o.Fail? then 1 else 0
    {
      hide Canonical;
      hide Stacks;
      hide StackOf;
      ghost var was := Stacks();
      var e := Entry(k);
      ghost var stack := pools[e].pool;
      o := DoneOn(e, c, now);
      Overwrite(was, k, stack, Stacks()[k]);
    }

    method DoneOn(k: PoolKey, c: nat, now: int) returns (o: Outcome)
      requires Linked() && k in pools && c in conns.live
      modifies pools.Values, conns`live, hooks`destroyThrew
      ensures var stack := old(pools[k].pool);
        if |stack| < maxPerHost then o.Pass? && Stacks() == old(Stacks())[k := stack + [Stored(c, now)]] && conns.live == old(conns.live)
        else Stacks() == old(Stacks())[k := stack] && conns.live == if o.Pass? then old(conns.live) - {c} else old(conns.live)
      ensures o.Fail? ==> o.code == HOOK_THREW
      ensures hooks.destroyThrew == old(hooks.destroyThrew) + if o.Fail? then 1 else 0
    {
      ghost var was := Stacks();
      var p := pools[k];
      o := p.Done(conns, hooks, c, now, maxPerHost);
      ghost var kept := was[k := p.pool];
      assert Stacks() == kept;
    }

    /** The mutex part of `release`. */
    method ReleaseTo(ident: seq<byte>, c: nat, now: int) returns (o: Outcome)
      requires Valid() && c in Now().held
      modifies this`pools, this`history, pools.Values, conns`live, hooks`destroyThrew
      ensures Valid() && Took(ReleaseSteps(old(Now()), ident, c, false, now, o.Pass?))
      ensures o.Fail? ==> o.code == HOOK_THREW
      ensures hooks.destroyThrew == old(hooks.destroyThrew) + if o.Fail? then 1 else 0
    {
      hide Run;
      hide Canonical;
      hide Legal;
      ghost var s, h := Now(), history;
      HeldIsLive(c);
      var k := Canonical(PoolKey(ident, conns.timeouts[c]));
      CanonicalTwice(PoolKey(ident, conns.timeouts[c]));
      StackIs(s, k);
      hide StackOf;
      hide Stacks;
      o := DoneAt(k, c, now);
      if |s.At(k)| < s.room {
        Log(PutBack(ident, c, now));
      } else {
        LogFull(k, c, o.Pass?);
      }
    }

    /** Enters that a full pool has been found, and that the connection has been deleted. */
    ghost method LogFull(k: PoolKey, c: nat, deleted: bool)
      requires Canonical(k) == k && c in Now().held
      requires Shows(if deleted then After(After(Now(), Touch(k)), Delete(c)) else After(Now(), Touch(k)))
      modifies this`history
      ensures Valid() && Took(if deleted then [Touch(k)] + [Delete(c)] else [Touch(k)])
    {
      hide Run;
      hide Canonical;
      hide Legal;
      hide After;
      ghost var h0, s0 := history, Now();
      if !deleted {
        Log(Touch(k));
        return;
      }
      TouchKeepsHeld(s0, k, c);
      RunSnoc(Empty(maxPerHost), history, Touch(k));
      RunOne(s0, Touch(k));
      LegalOne(s0, Touch(k));
      history := history + [Touch(k)];
      ghost var h1, s1 := history, Now();
      Log(Delete(c));
      Compose(h0, s0, [Touch(k)], h1, s1, [Delete(c)], history, Now());
    }

    /** `release`: a failed connection is deleted; any other is pooled under its present timeout, or deleted if there is no room. */
    method Release(ident: seq<byte>, c: nat, failed: bool, now: int) returns (o: Outcome)
      requires Valid() && c in Now().held
      modifies this`pools, this`history, pools.Values, conns`live, hooks`destroyThrew
      ensures Valid() && Took(ReleaseSteps(old(Now()), ident, c, failed, now, o.Pass?))
      ensures o.Fail? ==> o.code == HOOK_THREW
      ensures hooks.destroyThrew == old(hooks.destroyThrew) + if o.Fail? then 1 else 0
    {
      hide Run;
      hide Canonical;
      hide Stacks;
      if failed {
        HeldIsLive(c);
        NoSteps(history, Now());
        var threw := hooks.OnDestroy(conns, c);
        if threw {
          return Fail(HOOK_THREW);
        }
        Kill(c);
        return Pass;
      }
      o := ReleaseTo(ident, c, now);
    }

    /** Room for a loop over the entries: what is pooled exists, and the pool is sound. */
    ghost predicate Steady()
      reads this`pools, pools.Values, conns
    {
      Linked() && Sound(Stacks(), conns.timeouts, maxPerHost) && Pooled(Stacks()) <= conns.live
    }

    /** The entry has become `after`, and exactly what it has lost has been deleted. */
    twostate predicate Dropped(k: PoolKey, after: seq<Stored>)
      reads this`pools, pools.Values, conns
    {
      && Steady() && Stacks() == old(Stacks())[k := after]
      && Shed(old(Stacks()), old(conns.live), Stacks(), conns.live)
    }

    lemma EntryFacts(k: PoolKey)
      requires Steady() && k in pools
      ensures pools[k].Holding(conns) && Distinct(pools[k].pool) && Conns(pools[k].pool) <= Pooled(Stacks())
    {
      assert Stacks()[k] == pools[k].pool;
      hide Stacks;
      hide Distinct;
      hide Conns;
    }

    method FlushEntry(k: PoolKey, alive: set<nat>)
      requires Steady() && k in pools
      modifies pools.Values, conns`live
      ensures Dropped(k, PoppedWhere(old(Stacks())[k], Answering(alive)))
    {
      hide Sound;
      hide Distinct;
      EntryFacts(k);
      ghost var was, stack := Stacks(), pools[k].pool;
      ghost var after := PoppedWhere(stack, Answering(alive));
      PoppedThinner(stack, Answering(alive));
      AnsweringConns(stack, alive);
      ThinnerStack(was, k, after, conns.timeouts, maxPerHost);
      hide PoppedWhere;
      hide Pooled;
      hide Conns;
      pools[k].Flush(conns, alive);
      ghost var flushed := was[k := pools[k].pool];
      assert Stacks() == flushed;
    }

    method ClearEntry(k: PoolKey)
      requires Steady() && k in pools
      modifies pools.Values, conns`live
      ensures Dropped(k, [])
    {
      hide Sound;
      EntryFacts(k);
      ghost var was, stack := Stacks(), pools[k].pool;
      assert Distinct([]) && Conns([]) == {};
      hide Distinct;
      ThinnerStack(was, k, [], conns.timeouts, maxPerHost);
      hide Pooled;
      hide Conns;
      pools[k].Clear(conns);
      ghost var cleared := was[k := pools[k].pool];
      assert Stacks() == cleared;
    }

    /** The pool has become `after`, and exactly what is no longer pooled has been deleted. */
    twostate predicate DroppedAll(after: Stacks)
      reads this`pools, pools.Values, conns
    {
      Steady() && Stacks() == after && Shed(old(Stacks()), old(conns.live), after, conns.live)
    }

    method FlushStacks(alive: set<nat>)
      requires Steady()
      modifies pools.Values, conns`live
      ensures DroppedAll(Sifted(old(Stacks()), pools.Keys, Answering(alive)))
    {
      hide Sound;
      hide Sifted;
      hide Pooled;
      hide PoppedWhere;
      hide Answering;
      hide Shed;
      ghost var was, live := Stacks(), conns.live;
      hide Stacks;
      hide Steady;
      SiftedNone(was, Answering(alive));
      ShedNothing(was, live);
      var done: set<PoolKey> := {};
      while pools.Keys - done != {}
        invariant Steady() && done <= pools.Keys
        invariant Stacks() == Sifted(was, done, Answering(alive)) && Shed(was, live, Stacks(), conns.live)
        decreases pools.Keys - done
      {
        var k :| k in pools.Keys - done;
        SiftedMore(was, done, k, Answering(alive));
        ghost var stacks, before := Stacks(), conns.live;
        FlushEntry(k, alive);
        ShedMore(was, live, stacks, before, Stacks(), conns.live);
        done := done + {k};
      }
      AllDone(pools.Keys, done);
    }

    /** `flush`, under the mutex: deletes every pooled connection that does not answer, and no other. */
    method FlushAll(alive: set<nat>)
      requires Valid()
      modifies this`history, pools.Values, conns`live
      ensures Valid() && Took([Flush(alive)]) && Now() == After(old(Now()), Flush(alive))
    {
      hide Run;
      hide Inv;
      hide Sound;
      hide Sifted;
      hide Pooled;
      hide Stacks;
      InvMeans();
      FlushStacks(alive);
      FlushFields(Now(), alive);
      hide After;
      Log(Flush(alive));
    }

    /** What the invariant says of memory. */
    lemma InvMeans()
      requires Valid()
      ensures Steady() && Inv(Now())
    {
      InvRun(maxPerHost, history);
      hide Run;
      hide Sound;
      hide Pooled;
      hide Stacks;
    }

    method RemoveEntry(k: PoolKey, host: seq<byte>)
      requires Steady() && k in pools
      modifies pools.Values, conns`live
      ensures Dropped(k, if Prefix(k.ident) == Prefix(host) then [] else old(Stacks())[k])
    {
      hide Sound;
      hide Pooled;
      hide Prefix;
      hide Less;
      ghost var was := Stacks();
      var before := ServerNameCompare(host, k.ident);
      var behind := ServerNameCompare(k.ident, host);
      SameServerIffSamePrefix(host, k.ident);
      assert was[k := was[k]] == was;
      hide Stacks;
      if !before && !behind {
        ClearEntry(k);
      }
    }

    method ClearStacks(host: seq<byte>)
      requires Steady()
      modifies pools.Values, conns`live
      ensures DroppedAll(Emptied(old(Stacks()), SameHost(pools.Keys, host)))
    {
      hide Sound;
      hide Emptied;
      hide SameHost;
      hide Pooled;
      hide Prefix;
      hide Shed;
      ghost var was, live := Stacks(), conns.live;
      hide Stacks;
      hide Steady;
      EmptiedNone(was, host);
      ShedNothing(was, live);
      var done: set<PoolKey> := {};
      while pools.Keys - done != {}
        invariant Steady() && done <= pools.Keys
        invariant Stacks() == Emptied(was, SameHost(done, host)) && Shed(was, live, Stacks(), conns.live)
        decreases pools.Keys - done
      {
        var k :| k in pools.Keys - done;
        EmptiedMore(was, done, k, host);
        ghost var stacks, before := Stacks(), conns.live;
        RemoveEntry(k, host);
        ShedMore(was, live, stacks, before, Stacks(), conns.live);
        done := done + {k};
      }
      AllDone(pools.Keys, done);
    }

    /** `removeHost`, under the mutex: deletes what is pooled for the server, whatever the timeout, and nothing else. */
    method RemoveAll(host: seq<byte>)
      requires Valid()
      modifies this`history, pools.Values, conns`live
      ensures Valid() && Took([RemoveHost(host)]) && Now() == After(old(Now()), RemoveHost(host))
    {
      hide Run;
      hide Inv;
      hide Sound;
      hide Emptied;
      hide SameHost;
      hide Pooled;
      hide Stacks;
      InvMeans();
      ClearStacks(host);
      RemoveFields(Now(), host);
      hide After;
      Log(RemoveHost(host));
    }

    /** What one entry contributes to the cleaner's list. Nothing is deleted under the mutex. */
    method CollectEntry(k: PoolKey, now: int) returns (stale: seq<nat>)
      requires Steady() && k in pools
      modifies pools.Values
      ensures Steady() && Stacks() == old(Stacks())[k := PoppedWhere(old(Stacks())[k], Recent(now))]
      ensures Out(old(Stacks()), Stacks(), stale)
    {
      hide Sound;
      hide Distinct;
      EntryFacts(k);
      ghost var was, stack := Stacks(), pools[k].pool;
      PoppedThinner(stack, Recent(now));
      StaleConns(stack, now);
      ThinnerStack(was, k, PoppedWhere(stack, Recent(now)), conns.timeouts, maxPerHost);
      hide PoppedWhere;
      hide Pooled;
      hide Conns;
      hide ConnSeq;
      stale := pools[k].GetStaleConnections(now);
      ghost var kept := was[k := pools[k].pool];
      assert Stacks() == kept;
    }

    method CollectStacks(now: int) returns (toDelete: seq<nat>)
      requires Steady()
      modifies pools.Values
      ensures Steady() && Stacks() == Sifted(old(Stacks()), pools.Keys, Recent(now))
      ensures Out(old(Stacks()), Stacks(), toDelete)
    {
      hide Sifted;
      hide PoppedWhere;
      hide Recent;
      hide Out;
      ghost var was := Stacks();
      hide Stacks;
      hide Steady;
      SiftedNone(was, Recent(now));
      NothingOut(was);
      toDelete := [];
      var done: set<PoolKey> := {};
      while pools.Keys - done != {}
        invariant Steady() && done <= pools.Keys
        invariant Stacks() == Sifted(was, done, Recent(now)) && Out(was, Stacks(), toDelete)
        decreases pools.Keys - done
      {
        var k :| k in pools.Keys - done;
        SiftedMore(was, done, k, Recent(now));
        ghost var stacks := Stacks();
        var stale := CollectEntry(k, now);
        MoreOut(was, stacks, toDelete, Stacks(), stale);
        toDelete := toDelete + stale;
        done := done + {k};
      }
      AllDone(pools.Keys, done);
    }

    /** The cleaner under the mutex: takes every stale connection out of every pool. */
    method CollectStale(now: int) returns (toDelete: seq<nat>)
      requires Valid()
      modifies this`history, pools.Values
      ensures Valid() && Took([Collect(now)]) && Now() == After(old(Now()), Collect(now))
      ensures Out(old(Now()).stacks, Now().stacks, toDelete)
    {
      hide Run;
      hide Inv;
      hide Sound;
      hide Sifted;
      hide Pooled;
      hide Stacks;
      hide Out;
      InvMeans();
      toDelete := CollectStacks(now);
      CollectFields(Now(), now);
      hide After;
      Log(Collect(now));
    }

    /**
     * The cleaner outside the mutex: deletes one after the other. A throw is swallowed, and the connection it was about
     * is lost; `unlucky` are the lost ones, as many as throws.
     */
    method DeleteAll(toDelete: seq<nat>) returns (ghost unlucky: set<nat>)
      requires Valid() && Members(toDelete) <= Now().doomed && Unrepeated(toDelete)
      modifies this`history, conns`live, hooks`destroyThrew
      ensures Valid() && OnlyDiscards(old(history), history)
      ensures unlucky <= Members(toDelete) && hooks.destroyThrew == old(hooks.destroyThrew) + |unlucky|
      ensures Now() == Discarded(old(Now()), Members(toDelete), unlucky)
    {
      hide Run;
      hide Stacks;
      hide Valid;
      hide After;
      hide Legal;
      ghost var s := Now();
      NoMembers(toDelete, s);
      hide Unrepeated;
      unlucky := {};
      for i := 0 to |toDelete|
        invariant Valid() && OnlyDiscards(old(history), history)
        invariant unlucky <= Members(toDelete[..i]) && hooks.destroyThrew == old(hooks.destroyThrew) + |unlucky|
        invariant Now() == Discarded(s, Members(toDelete[..i]), unlucky)
      {
        var c := toDelete[i];
        OneMember(toDelete, i);
        hide Members;
        hide OnlyDiscards;
        ghost var h := history;
        DiscardOne(s, Members(toDelete[..i]), unlucky, c);
        hide Discarded;
        var threw := DeleteOne(c);
        MoreDiscards(old(history), h, c, threw);
        unlucky := if threw then unlucky + {c} else unlucky;
      }
      assert toDelete[..|toDelete|] == toDelete;
    }

    method DeleteOne(c: nat) returns (threw: bool)
      requires Valid() && c in Now().doomed
      modifies this`history, conns`live, hooks`destroyThrew
      ensures Valid() && Took([Discard(c, threw)]) && Now() == After(old(Now()), Discard(c, threw))
      ensures hooks.destroyThrew == old(hooks.destroyThrew) + if threw then 1 else 0
    {
      HeldIsLive(c);
      hide Run;
      hide Stacks;
      threw := hooks.OnDestroy(conns, c);
      if !threw {
        conns.Delete(c);
      }
      Log(Discard(c, threw));
    }

    /**
     * The cleaner. Every connection idle for the limit leaves the pool; each is deleted, but for those over which a hook
     * throws, which are lost. Everything else stays where it is.
     */
    method TaskDoWork(now: int) returns (ghost unlucky: set<nat>)
      requires Valid()
      modifies this`history, pools.Values, conns`live, hooks`destroyThrew
      ensures Valid() && old(history) + [Collect(now)] <= history && OnlyDiscards(old(history) + [Collect(now)], history)
      ensures var (s, after) := (old(Now()), Sifted(old(Now()).stacks, old(Now()).stacks.Keys, Recent(now)));
        var stale := IdleIn(s.stacks, now);
        && unlucky <= stale
        && Now() == s.(stacks := after, live := s.live - (stale - unlucky), lost := s.lost + unlucky)
      ensures hooks.destroyThrew == old(hooks.destroyThrew) + |unlucky|
    {
      hide Run;
      hide Stacks;
      hide Valid;
      hide Sifted;
      hide Pooled;
      hide Legal;
      ghost var s := Now();
      InvRun(maxPerHost, history);
      var toDelete := CollectStale(now);
      CollectFields(s, now);
      CollectTakesIdle(s, now);
      hide After;
      hide IdleIn;
      hide Inv;
      unlucky := DeleteAll(toDelete);
      BackToDoomed(s, Pooled(s.stacks) - Pooled(Sifted(s.stacks, s.stacks.Keys, Recent(now))));
    }
  }

  lemma TouchKeepsHeld(s: State, k: PoolKey, c: nat)
    requires c in s.held
    ensures Enabled(s, Touch(k)) && Enabled(After(s, Touch(k)), Delete(c))
  {
  }

  lemma FoundIsHeld(s: State, key: PoolKey, now: int, how: Taken)
    requires Enabled(s, Take(key, now, how)) && how.Found?
    ensures s.At(Canonical(key))[how.n].conn in After(s, Take(key, now, how)).held
  {
  }

  lemma NoneKeepsNext(s: State, key: PoolKey, now: int, how: Taken)
    ensures After(s, Take(key, now, how)).next == s.next
  {
  }

  lemma AnsweringConns(s: seq<Stored>, alive: set<nat>)
    ensures Conns(PoppedWhere(s, Answering(alive))) == Conns(s) * alive
  {
    PoppedMembers(s, Answering(alive));
    hide PoppedWhere;
    forall c
      ensures c in Conns(PoppedWhere(s, Answering(alive))) <==> c in Conns(s) && c in alive
    {
      if c in Conns(s) && c in alive {
        var x :| x in s && x.conn == c;
        assert x in PoppedWhere(s, Answering(alive));
      }
    }
  }

  /** Fewer connections are pooled, and exactly those that are no longer have been deleted. */
  ghost predicate Shed(was: Stacks, live: set<nat>, stacks: Stacks, left: set<nat>) {
    Pooled(stacks) <= Pooled(was) && left == live - (Pooled(was) - Pooled(stacks))
  }

  lemma AllDone(keys: set<PoolKey>, done: set<PoolKey>)
    requires done <= keys && keys - done == {}
    ensures done == keys
  {
    assert keys <= done + (keys - done);
  }

  lemma ShedNothing(was: Stacks, live: set<nat>)
    ensures Shed(was, live, was, live)
  {
    hide Pooled;
  }

  lemma ShedMore(was: Stacks, live: set<nat>, stacks: Stacks, left: set<nat>, stacks': Stacks, left': set<nat>)
    requires Shed(was, live, stacks, left) && Shed(stacks, left, stacks', left')
    ensures Shed(was, live, stacks', left')
  {
    hide Pooled;
  }

  lemma SiftedNone(stacks: Stacks, f: Stored -> bool)
    ensures Sifted(stacks, {}, f) == stacks
  {
  }

  lemma SiftedMore(stacks: Stacks, done: set<PoolKey>, k: PoolKey, f: Stored -> bool)
    requires k in stacks && k !in done
    ensures Sifted(stacks, done, f)[k] == stacks[k]
    ensures Sifted(stacks, done, f)[k := PoppedWhere(stacks[k], f)] == Sifted(stacks, done + {k}, f)
  {
    hide PoppedWhere;
  }

  lemma EmptiedNone(stacks: Stacks, host: seq<byte>)
    ensures Emptied(stacks, SameHost({}, host)) == stacks
  {
  }

  lemma EmptiedMore(stacks: Stacks, done: set<PoolKey>, k: PoolKey, host: seq<byte>)
    requires k in stacks && k !in done
    ensures var before := Emptied(stacks, SameHost(done, host));
      before[k := if Prefix(k.ident) == Prefix(host) then [] else before[k]] == Emptied(stacks, SameHost(done + {k}, host))
  {
    hide Prefix;
  }

  // ----- The cleaner's list -----

  ghost function Members(s: seq<nat>): set<nat> {
    set c | c in s
  }

  ghost predicate Unrepeated(s: seq<nat>) {
    forall i, j :: 0 <= i < j < |s| ==> s[i] != s[j]
  }

  /** The list holds once each connection that was pooled and is no longer. */
  ghost predicate Out(was: Stacks, stacks: Stacks, list: seq<nat>) {
    Pooled(stacks) <= Pooled(was) && Members(list) == Pooled(was) - Pooled(stacks) && Unrepeated(list)
  }

  lemma NothingOut(was: Stacks)
    ensures Out(was, was, [])
  {
    hide Pooled;
  }

  lemma MoreOut(was: Stacks, stacks: Stacks, list: seq<nat>, stacks': Stacks, more: seq<nat>)
    requires Out(was, stacks, list) && Out(stacks, stacks', more)
    ensures Out(was, stacks', list + more)
  {
    hide Pooled;
    hide Unrepeated;
    hide Members;
    MembersAppend(list, more);
  }

  lemma MembersAppend(a: seq<nat>, b: seq<nat>)
    requires Unrepeated(a) && Unrepeated(b) && Members(a) !! Members(b)
    ensures Members(a + b) == Members(a) + Members(b) && Unrepeated(a + b)
  {
    assert forall c :: c in a + b <==> c in a || c in b;
    forall i, j | 0 <= i < |a| && 0 <= j < |b|
      ensures a[i] != b[j]
    {
      assert a[i] in Members(a) && b[j] in Members(b);
    }
  }

  lemma {:induction false} StaleConns(s: seq<Stored>, now: int)
    requires Distinct(s)
    ensures var stale := ConnSeq(PoppedWhere(s, Stale(now)));
      Members(stale) == Conns(s) - Conns(PoppedWhere(s, Recent(now))) && Unrepeated(stale)
  {
    PoppedThinner(s, Stale(now));
    var out, kept := PoppedWhere(s, Stale(now)), PoppedWhere(s, Recent(now));
    PoppedMembers(s, Stale(now));
    PoppedMembers(s, Recent(now));
    hide PoppedWhere;
    forall c
      ensures c in Members(ConnSeq(out)) <==> c in Conns(s) && c !in Conns(kept)
    {
      if c in ConnSeq(out) {
        var i :| 0 <= i < |out| && out[i].conn == c;
        assert out[i] in out;
        if y :| y in kept && y.conn == c {
          SameEntry(s, y, out[i]);
        }
      }
      if c in Conns(s) && c !in Conns(kept) {
        var x :| x in s && x.conn == c;
        assert x in out;
        var i :| 0 <= i < |out| && out[i] == x;
        assert ConnSeq(out)[i] == c;
      }
    }
  }

  /** The state after the cleaner has been through `gone` and has lost `unlucky`. */
  ghost function Discarded(s: State, gone: set<nat>, unlucky: set<nat>): State {
    s.(doomed := s.doomed - gone, live := s.live - (gone - unlucky), lost := s.lost + unlucky)
  }

  /** Since `h0` nothing but deletions by the cleaner. */
  ghost predicate OnlyDiscards(h0: seq<Step>, h: seq<Step>) {
    h0 <= h && forall j :: |h0| <= j < |h| ==> h[j].Discard?
  }

  lemma MoreDiscards(h0: seq<Step>, h: seq<Step>, c: nat, threw: bool)
    requires OnlyDiscards(h0, h)
    ensures OnlyDiscards(h0, h + [Discard(c, threw)])
  {
  }

  lemma NoMembers(list: seq<nat>, s: State)
    ensures Members(list[..0]) == {} && Discarded(s, {}, {}) == s
  {
  }

  lemma OneMember(s: seq<nat>, i: nat)
    requires i < |s| && Unrepeated(s)
    ensures s[i] in Members(s) && s[i] !in Members(s[..i]) && Members(s[..i + 1]) == Members(s[..i]) + {s[i]}
  {
    assert s[..i + 1] == s[..i] + [s[i]];
  }

  lemma DiscardOne(s: State, gone: set<nat>, unlucky: set<nat>, c: nat)
    requires c in s.doomed && c !in gone && unlucky <= gone
    ensures c in Discarded(s, gone, unlucky).doomed
    ensures After(Discarded(s, gone, unlucky), Discard(c, true)) == Discarded(s, gone + {c}, unlucky + {c})
    ensures After(Discarded(s, gone, unlucky), Discard(c, false)) == Discarded(s, gone + {c}, unlucky)
  {
  }

  lemma BackToDoomed(s: State, gone: set<nat>)
    requires Inv(s) && gone <= Pooled(s.stacks)
    ensures s.doomed + gone - gone == s.doomed
  {
    hide Sound;
    hide Pooled;
  }
}
