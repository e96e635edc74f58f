/** The connection pool as values: what one critical section does, and what every run of them keeps. */
module PoolModel {
  import opened ServerName
  import opened Bytes

  const IDLE_LIMIT := 1800

  /** A pooled connection and the time it was put back. */
  datatype Stored = Stored(conn: nat, when: int)

  type Stacks = map<PoolKey, seq<Stored>>

  predicate Ok(s: Stored, now: int) {
    now - s.when < IDLE_LIMIT
  }

  function Answering(alive: set<nat>): Stored -> bool {
    (s: Stored) => s.conn in alive
  }

  function Recent(now: int): Stored -> bool {
    (s: Stored) => Ok(s, now)
  }

  function Stale(now: int): Stored -> bool {
    (s: Stored) => !Ok(s, now)
  }

  /** The entries that satisfy `f`, from the top of the stack down. */
  function PoppedWhere(s: seq<Stored>, f: Stored -> bool): seq<Stored> {
    if s == [] then []
    else (if f(s[|s| - 1]) then [s[|s| - 1]] else []) + PoppedWhere(s[..|s| - 1], f)
  }

  ghost function Conns(s: seq<Stored>): set<nat> {
    set x | x in s :: x.conn
  }

  ghost function Pooled(stacks: Stacks): set<nat> {
    set k, c | k in stacks && c in Conns(stacks[k]) :: c
  }

  ghost predicate Distinct(s: seq<Stored>) {
    forall i, j :: 0 <= i < j < |s| ==> s[i].conn != s[j].conn
  }

  /** `a` holds some of the entries of `b`. */
  ghost predicate Thinner(a: seq<Stored>, b: seq<Stored>) {
    |a| <= |b| && Distinct(a) && forall x :: x in a ==> x in b
  }

  /** The stacks of `keys` sifted by `f`, the others as they are. */
  ghost function Sifted(stacks: Stacks, keys: set<PoolKey>, f: Stored -> bool): (r: Stacks)
    ensures r.Keys == stacks.Keys
  {
    map k | k in stacks :: if k in keys then PoppedWhere(stacks[k], f) else stacks[k]
  }

  /** The stacks of `keys` emptied. */
  ghost function Emptied(stacks: Stacks, keys: set<PoolKey>): (r: Stacks)
    ensures r.Keys == stacks.Keys
  {
    map k | k in stacks :: if k in keys then [] else stacks[k]
  }

  /** The keys that name the same server as `host`. */
  ghost function SameHost(keys: set<PoolKey>, host: seq<byte>): set<PoolKey> {
    set k | k in keys && Prefix(k.ident) == Prefix(host)
  }

  // ----- The state and its steps -----

  /**
   * `live` are the connection objects not yet deleted. Of these some are in the hands of callers (`held`), some have
   * been taken out by the cleaner but not yet deleted (`doomed`), and some nobody refers to any more (`lost`).
   */
  datatype State = State(
    room: nat,
    stacks: Stacks,
    timeouts: map<nat, real>,
    next: nat,
    live: set<nat>,
    held: set<nat>,
    doomed: set<nat>,
    lost: set<nat>)
  {
    /** What a lookup of `k` finds; an absent entry counts as empty. */
    function At(k: PoolKey): seq<Stored> {
      if k in stacks then stacks[k] else []
    }

    /** The key `release` makes of a connection's present timeout. */
    function KeyFor(ident: seq<byte>, c: nat): PoolKey {
      Canonical(PoolKey(ident, if c in timeouts then timeouts[c] else 0.0))
    }
  }

  function Empty(room: nat): State {
    State(room, map[], map[], 0, {}, {}, {}, {})
  }

  /** How `PoolForHost::get` ends: with entry `n`, with none, or with a hook that throws on the stale entry `n`. */
  datatype Taken = Found(n: nat) | Nothing | Threw(n: nat)

  /** What one thread does between two moments at which another may run. */
  datatype Step =
    | Take(key: PoolKey, now: int, how: Taken)
    | Touch(key: PoolKey)                            // `_pools[key]` makes an entry
    | Connect(timeout: real)
    | Delete(c: nat)                                 // by the caller that holds it
    | PutBack(ident: seq<byte>, c: nat, now: int)
    | Flush(alive: set<nat>)
    | RemoveHost(host: seq<byte>)
    | Collect(now: int)
    | Discard(c: nat, threw: bool)                   // the cleaner, after collecting
    | SetTimeout(c: nat, timeout: real)

  predicate StaleFrom(s: seq<Stored>, n: nat, now: int) {
    forall i :: n <= i < |s| ==> !Ok(s[i], now)
  }

  predicate Enabled(s: State, step: Step) {
    match step
    case Take(key, now, how) =>
      var stack := s.At(Canonical(key));
      (match how
       case Found(n) => n < |stack| && Ok(stack[n], now) && StaleFrom(stack, n + 1, now)
       case Nothing => StaleFrom(stack, 0, now)
       case Threw(n) => n < |stack| && StaleFrom(stack, n, now))
    case Delete(c) => c in s.held
    case PutBack(ident, c, _) => c in s.held && |s.At(s.KeyFor(ident, c))| < s.room
    case Discard(c, _) => c in s.doomed
    case SetTimeout(c, _) => c in s.held
    case _ => true
  }

  ghost function AfterTake(s: State, k: PoolKey, how: Taken): State {
    var stack := s.At(k);
    match how
    case Found(n) =>
      if n < |stack|
      then s.(stacks := s.stacks[k := stack[..n]], live := s.live - Conns(stack[n + 1..]), held := s.held + {stack[n].conn})
      else s
    case Nothing => s.(stacks := s.stacks[k := []], live := s.live - Conns(stack))
    case Threw(n) =>
      if n < |stack|
      then s.(stacks := s.stacks[k := stack[..n]], live := s.live - Conns(stack[n + 1..]), lost := s.lost + {stack[n].conn})
      else s
  }

  /** The stacks become `after`; what was pooled and is no longer is deleted. */
  ghost function Drop(s: State, after: Stacks): State {
    s.(stacks := after, live := s.live - (Pooled(s.stacks) - Pooled(after)))
  }

  /** The state after a step; a step that is not enabled does nothing. */
  ghost function After(s: State, step: Step): State {
    if !Enabled(s, step) then s else
    match step
    case Take(key, _, how) => AfterTake(s, Canonical(key), how)
    case Touch(key) => s.(stacks := s.stacks[Canonical(key) := s.At(Canonical(key))])
    case Connect(timeout) =>
      s.(timeouts := s.timeouts[s.next := timeout], next := s.next + 1, live := s.live + {s.next}, held := s.held + {s.next})
    case Delete(c) => s.(live := s.live - {c}, held := s.held - {c})
    case PutBack(ident, c, now) =>
      var k := s.KeyFor(ident, c);
      s.(stacks := s.stacks[k := s.At(k) + [Stored(c, now)]], held := s.held - {c})
    case Flush(alive) => Drop(s, Sifted(s.stacks, s.stacks.Keys, Answering(alive)))
    case RemoveHost(host) => Drop(s, Emptied(s.stacks, SameHost(s.stacks.Keys, host)))
    case Collect(now) =>
      var after := Sifted(s.stacks, s.stacks.Keys, Recent(now));
      s.(stacks := after, doomed := s.doomed + (Pooled(s.stacks) - Pooled(after)))
    case Discard(c, threw) =>
      if threw then s.(doomed := s.doomed - {c}, lost := s.lost + {c})
      else s.(doomed := s.doomed - {c}, live := s.live - {c})
    case SetTimeout(c, timeout) => s.(timeouts := s.timeouts[c := timeout])
  }

  lemma FlushFields(s: State, alive: set<nat>)
    ensures var (s', after) := (After(s, Flush(alive)), Sifted(s.stacks, s.stacks.Keys, Answering(alive)));
      s' == s.(stacks := after, live := s.live - (Pooled(s.stacks) - Pooled(after)))
  {
    hide Sifted;
    hide Pooled;
  }

  lemma RemoveFields(s: State, host: seq<byte>)
    ensures var (s', after) := (After(s, RemoveHost(host)), Emptied(s.stacks, SameHost(s.stacks.Keys, host)));
      s' == s.(stacks := after, live := s.live - (Pooled(s.stacks) - Pooled(after)))
  {
    hide Emptied;
    hide Pooled;
  }

  lemma CollectFields(s: State, now: int)
    ensures var (s', after) := (After(s, Collect(now)), Sifted(s.stacks, s.stacks.Keys, Recent(now)));
      s' == s.(stacks := after, doomed := s.doomed + (Pooled(s.stacks) - Pooled(after)))
  {
    hide Sifted;
    hide Pooled;
  }

  /** Any steps of any threads, one after the other. */
  ghost function Run(s: State, steps: seq<Step>): State {
    if steps == [] then s else After(Run(s, steps[..|steps| - 1]), steps[|steps| - 1])
  }

  lemma RunSnoc(s: State, steps: seq<Step>, step: Step)
    ensures Run(s, steps + [step]) == After(Run(s, steps), step)
  {
    assert (steps + [step])[..|steps|] == steps;
    hide After;
  }

  lemma {:induction false} RunAppend(s: State, a: seq<Step>, b: seq<Step>)
    ensures Run(s, a + b) == Run(Run(s, a), b)
    decreases |b|
  {
    hide After;
    if b == [] {
      assert a + b == a;
    } else {
      assert (a + b)[..|a + b| - 1] == a + b[..|b| - 1];
      RunAppend(s, a, b[..|b| - 1]);
    }
  }

  lemma RunOne(s: State, step: Step)
    ensures Run(s, [step]) == After(s, step)
  {
    assert [step] == [] + [step];
    RunSnoc(s, [], step);
  }

  /** Every step is enabled when it is taken. */
  ghost predicate Legal(s: State, steps: seq<Step>) {
    steps == []
    || (Legal(s, steps[..|steps| - 1]) && Enabled(Run(s, steps[..|steps| - 1]), steps[|steps| - 1]))
  }

  lemma {:induction false} LegalAppend(s: State, a: seq<Step>, b: seq<Step>)
    requires Legal(s, a) && Legal(Run(s, a), b)
    ensures Legal(s, a + b)
    decreases |b|
  {
    hide Run;
    hide Enabled;
    if b == [] {
      assert a + b == a;
    } else {
      assert (a + b)[..|a + b| - 1] == a + b[..|b| - 1];
      LegalAppend(s, a, b[..|b| - 1]);
      RunAppend(s, a, b[..|b| - 1]);
    }
  }

  lemma LegalOne(s: State, step: Step)
    requires Enabled(s, step)
    ensures Legal(s, [step])
  {
    hide Enabled;
    assert [step][..0] == [];
    assert Legal(s, []) && Run(s, []) == s;
  }

  // ----- The invariant -----

  /** No connection is in two stacks. */
  ghost predicate Apart(stacks: Stacks) {
    forall k, l :: k in stacks && l in stacks && k != l ==> Conns(stacks[k]) !! Conns(stacks[l])
  }

  /** A pool holds a connection once, under its timeout, and holds no more than there is room for. */
  ghost predicate Sound(stacks: Stacks, timeouts: map<nat, real>, room: nat) {
    && (forall k :: k in stacks ==> Canonical(k) == k && |stacks[k]| <= room && Distinct(stacks[k]))
    && (forall k, x :: k in stacks && x in stacks[k] ==> x.conn in timeouts && timeouts[x.conn] == k.timeout)
    && Apart(stacks)
  }

  /** Every connection that exists is in one of the four places, and in one only. */
  ghost predicate Conserved(s: State) {
    && s.live == Pooled(s.stacks) + s.held + s.doomed + s.lost
    && Pooled(s.stacks) !! s.held !! s.doomed !! s.lost
  }

  ghost predicate Inv(s: State) {
    && Sound(s.stacks, s.timeouts, s.room)
    && Conserved(s)
    && (forall c :: c in s.live ==> c < s.next)
    && (forall c: nat :: c in s.timeouts <==> c < s.next)
  }

  // ----- What sifting, cutting and emptying do to a stack -----

  lemma {:induction false} PoppedMembers(s: seq<Stored>, f: Stored -> bool)
    ensures |PoppedWhere(s, f)| <= |s|
    ensures forall x :: x in PoppedWhere(s, f) <==> x in s && f(x)
  {
    if s != [] {
      assert s == s[..|s| - 1] + [s[|s| - 1]];
      PoppedMembers(s[..|s| - 1], f);
    }
  }

  lemma ConsDistinct(x: Stored, s: seq<Stored>)
    requires Distinct(s) && x.conn !in Conns(s)
    ensures Distinct([x] + s)
  {
    forall j | 0 <= j < |s|
      ensures s[j].conn != x.conn
    {
      assert s[j] in s;
    }
  }

  lemma InitDistinct(s: seq<Stored>)
    requires Distinct(s) && s != []
    ensures Distinct(s[..|s| - 1]) && s[|s| - 1].conn !in Conns(s[..|s| - 1])
  {
  }

  lemma {:induction false} PoppedThinner(s: seq<Stored>, f: Stored -> bool)
    requires Distinct(s)
    ensures Thinner(PoppedWhere(s, f), s)
  {
    if s != [] {
      var rest, top := s[..|s| - 1], s[|s| - 1];
      InitDistinct(s);
      PoppedThinner(rest, f);
      PoppedMembers(s, f);
      PoppedMembers(rest, f);
      ThinnerConns(PoppedWhere(rest, f), rest);
      assert [] + PoppedWhere(rest, f) == PoppedWhere(rest, f);
      if f(top) {
        ConsDistinct(top, PoppedWhere(rest, f));
      }
      hide Distinct;
    }
  }

  lemma ThinnerConns(a: seq<Stored>, b: seq<Stored>)
    requires forall x :: x in a ==> x in b
    ensures Conns(a) <= Conns(b)
  {
  }

  lemma PrefixThinner(s: seq<Stored>, n: nat)
    requires Distinct(s) && n <= |s|
    ensures Thinner(s[..n], s)
    ensures Conns(s) == Conns(s[..n]) + Conns(s[n..]) && Conns(s[..n]) !! Conns(s[n..])
    ensures n < |s| ==> Conns(s[n..]) == {s[n].conn} + Conns(s[n + 1..]) && s[n].conn !in Conns(s[n + 1..])
  {
    assert s == s[..n] + s[n..];
    if n < |s| {
      assert s[n..] == [s[n]] + s[n + 1..];
    }
  }

  /** Replacing one stack by a thinner one takes exactly what it has lost out of the pool. */
  lemma ThinnerStack(stacks: Stacks, k: PoolKey, after: seq<Stored>, timeouts: map<nat, real>, room: nat)
    requires Sound(stacks, timeouts, room) && k in stacks && Thinner(after, stacks[k])
    ensures Sound(stacks[k := after], timeouts, room)
    ensures Conns(after) <= Conns(stacks[k]) <= Pooled(stacks)
    ensures Pooled(stacks[k := after]) == Pooled(stacks) - (Conns(stacks[k]) - Conns(after))
  {
    ThinnerConns(after, stacks[k]);
    hide Distinct;
    ThinnerTimeouts(stacks, k, after, timeouts);
    hide Conns;
    PooledAfter(stacks, k, after);
  }

  lemma ThinnerTimeouts(stacks: Stacks, k: PoolKey, after: seq<Stored>, timeouts: map<nat, real>)
    requires k in stacks && forall x :: x in after ==> x in stacks[k]
    requires forall l, x :: l in stacks && x in stacks[l] ==> x.conn in timeouts && timeouts[x.conn] == l.timeout
    ensures forall l, x :: l in stacks && x in stacks[k := after][l] ==> x.conn in timeouts && timeouts[x.conn] == l.timeout
  {
  }

  lemma PooledAfter(stacks: Stacks, k: PoolKey, after: seq<Stored>)
    requires Apart(stacks) && k in stacks && Conns(after) <= Conns(stacks[k])
    ensures Apart(stacks[k := after]) && Conns(stacks[k]) <= Pooled(stacks)
    ensures Pooled(stacks[k := after]) == Pooled(stacks) - (Conns(stacks[k]) - Conns(after))
  {
    hide Conns;
    var stacks' := stacks[k := after];
    forall c
      ensures c in Pooled(stacks') <==> c in Pooled(stacks) && !(c in Conns(stacks[k]) && c !in Conns(after))
    {
      if c in Pooled(stacks) && c !in Conns(stacks[k]) {
        var l :| l in stacks && c in Conns(stacks[l]);
        assert l in stacks' && c in Conns(stacks'[l]);
      }
      assert c in Conns(after) ==> c in Conns(stacks'[k]);
    }
  }

  /** The same for all stacks at once. */
  lemma ThinnerStacks(before: Stacks, after: Stacks, timeouts: map<nat, real>, room: nat)
    requires Sound(before, timeouts, room) && after.Keys == before.Keys
    requires forall k :: k in before ==> Thinner(after[k], before[k])
    ensures Sound(after, timeouts, room) && Pooled(after) <= Pooled(before)
  {
    forall k | k in before
      ensures Conns(after[k]) <= Conns(before[k])
    {
      ThinnerConns(after[k], before[k]);
    }
    hide Conns;
    hide Distinct;
    assert Apart(after);
    forall c | c in Pooled(after)
      ensures c in Pooled(before)
    {
      var k :| k in after && c in Conns(after[k]);
      assert c in Conns(before[k]);
    }
  }

  lemma SiftedSound(stacks: Stacks, keys: set<PoolKey>, f: Stored -> bool, timeouts: map<nat, real>, room: nat)
    requires Sound(stacks, timeouts, room)
    ensures Sound(Sifted(stacks, keys, f), timeouts, room) && Pooled(Sifted(stacks, keys, f)) <= Pooled(stacks)
  {
    forall k | k in stacks
      ensures Thinner(Sifted(stacks, keys, f)[k], stacks[k])
    {
      PoppedThinner(stacks[k], f);
    }
    ThinnerStacks(stacks, Sifted(stacks, keys, f), timeouts, room);
  }

  lemma EmptiedSound(stacks: Stacks, keys: set<PoolKey>, timeouts: map<nat, real>, room: nat)
    requires Sound(stacks, timeouts, room)
    ensures Sound(Emptied(stacks, keys), timeouts, room) && Pooled(Emptied(stacks, keys)) <= Pooled(stacks)
  {
    ThinnerStacks(stacks, Emptied(stacks, keys), timeouts, room);
  }

  /** A new entry starts empty. */
  lemma EntrySound(s: State, k: PoolKey)
    requires Sound(s.stacks, s.timeouts, s.room) && Canonical(k) == k
    ensures Sound(s.stacks[k := s.At(k)], s.timeouts, s.room) && Pooled(s.stacks[k := s.At(k)]) == Pooled(s.stacks)
  {
    assert Conns([]) == {} && Distinct([]);
    hide Distinct;
    hide Conns;
    EntryPooled(s, k);
    hide Pooled;
    assert s.stacks[k := s.At(k)] == if k in s.stacks then s.stacks else s.stacks[k := []];
  }

  lemma EntryPooled(s: State, k: PoolKey)
    ensures Pooled(s.stacks[k := s.At(k)]) == Pooled(s.stacks)
  {
    var stacks := s.stacks[k := s.At(k)];
    assert Conns([]) == {};
    hide Conns;
    forall c
      ensures c in Pooled(stacks) <==> c in Pooled(s.stacks)
    {
      if c in Pooled(s.stacks) {
        var l :| l in s.stacks && c in Conns(s.stacks[l]);
        assert l in stacks && c in Conns(stacks[l]);
      }
    }
  }

  lemma SnocConns(s: seq<Stored>, x: Stored)
    ensures Conns(s + [x]) == Conns(s) + {x.conn}
    ensures Distinct(s) && x.conn !in Conns(s) ==> Distinct(s + [x])
  {
    assert forall y :: y in s + [x] <==> y in s || y == x;
    if Distinct(s) && x.conn !in Conns(s) {
      assert forall i :: 0 <= i < |s| ==> s[i] in s;
    }
  }

  /** Putting a connection back pools it once more and changes nothing else. */
  lemma GrownStack(s: State, k: PoolKey, x: Stored)
    requires Sound(s.stacks, s.timeouts, s.room) && Canonical(k) == k && |s.At(k)| < s.room
    requires x.conn !in Pooled(s.stacks) && x.conn in s.timeouts && s.timeouts[x.conn] == k.timeout
    ensures Sound(s.stacks[k := s.At(k) + [x]], s.timeouts, s.room)
    ensures Pooled(s.stacks[k := s.At(k) + [x]]) == Pooled(s.stacks) + {x.conn}
  {
    var stack := s.At(k);
    assert Conns([]) == {} && Distinct([]);
    NotInStacks(s.stacks, x.conn);
    SnocConns(stack, x);
    hide Distinct;
    hide Conns;
    GrownPooled(s.stacks, k, stack, stack + [x], x.conn);
    hide Apart;
    hide Pooled;
    assert forall y :: y in stack + [x] <==> y in stack || y == x;
  }

  lemma NotInStacks(stacks: Stacks, c: nat)
    requires c !in Pooled(stacks)
    ensures forall k :: k in stacks ==> c !in Conns(stacks[k])
  {
  }

  lemma GrownPooled(stacks: Stacks, k: PoolKey, before: seq<Stored>, after: seq<Stored>, c: nat)
    requires Apart(stacks) && c !in Pooled(stacks) && Conns(after) == Conns(before) + {c}
    requires if k in stacks then before == stacks[k] else Conns(before) == {}
    ensures Apart(stacks[k := after]) && Pooled(stacks[k := after]) == Pooled(stacks) + {c}
  {
    NotInStacks(stacks, c);
    hide Conns;
    var stacks' := stacks[k := after];
    forall d
      ensures d in Pooled(stacks') <==> d in Pooled(stacks) || d == c
    {
      if d in Pooled(stacks) {
        var l :| l in stacks && d in Conns(stacks[l]);
        assert l in stacks' && d in Conns(stacks'[l]);
      }
      assert c in Conns(stacks'[k]);
    }
  }

  // ----- Every step keeps the invariant -----

  lemma CanonicalTwice(k: PoolKey)
    ensures Canonical(Canonical(k)) == Canonical(k) && Canonical(k).timeout == k.timeout
  {
    PrefixOfPrefix(k.ident);
  }

  lemma {:induction false} PrefixOfPrefix(s: seq<byte>)
    ensures Prefix(Prefix(s)) == Prefix(s)
  {
    if !EndsAt(s, 0) {
      PrefixOfPrefix(s[1..]);
      assert Prefix(s)[1..] == Prefix(s[1..]);
    }
  }

  /** What is pooled after the first `n` entries have been kept. */
  lemma CutStack(s: State, k: PoolKey, n: nat)
    requires Sound(s.stacks, s.timeouts, s.room) && Canonical(k) == k && n <= |s.At(k)|
    ensures Sound(s.stacks[k := s.At(k)[..n]], s.timeouts, s.room)
    ensures Pooled(s.stacks[k := s.At(k)[..n]]) == Pooled(s.stacks) - Conns(s.At(k)[n..])
    ensures Conns(s.At(k)[n..]) <= Pooled(s.stacks)
  {
    var stack, stacks := s.At(k), s.stacks[k := s.At(k)];
    EntrySound(s, k);
    PrefixThinner(stack, n);
    ThinnerStack(stacks, k, stack[..n], s.timeouts, s.room);
    hide Sound;
    hide Pooled;
    assert stacks[k := stack[..n]] == s.stacks[k := stack[..n]];
  }

  /** Of what leaves the stacks, `b` is deleted and the rest goes to callers, or is lost. */
  lemma Redistribute(s: State, after: Stacks, a: set<nat>, b: set<nat>)
    requires Conserved(s) && Pooled(after) == Pooled(s.stacks) - a && b <= a <= Pooled(s.stacks)
    ensures Conserved(s.(stacks := after, live := s.live - b, held := s.held + (a - b)))
    ensures Conserved(s.(stacks := after, live := s.live - b, lost := s.lost + (a - b)))
  {
    hide Pooled;
  }

  lemma TakeKeeps(s: State, k: PoolKey, how: Taken)
    requires Inv(s) && Canonical(k) == k
    ensures Inv(AfterTake(s, k, how))
  {
    var stack := s.At(k);
    var n := if how.Nothing? then 0 else how.n;
    if n <= |stack| {
      assert stack[..0] == [] && stack[0..] == stack && Distinct([]);
      CutStack(s, k, n);
      PrefixThinner(stack, n);
      hide Conns;
      hide Distinct;
      hide Thinner;
      hide Sound;
      hide Pooled;
      var a := Conns(stack[n..]);
      if n < |stack| {
        Redistribute(s, s.stacks[k := stack[..n]], a, Conns(stack[n + 1..]));
        assert a - Conns(stack[n + 1..]) == {stack[n].conn};
      }
      Redistribute(s, s.stacks[k := stack[..n]], a, a);
      assert s.held + (a - a) == s.held;
      hide Conserved;
    }
  }

  lemma DropKeeps(s: State, after: Stacks)
    requires Inv(s) && Sound(after, s.timeouts, s.room) && Pooled(after) <= Pooled(s.stacks)
    ensures Inv(Drop(s, after))
  {
    hide Sound;
    hide Pooled;
  }

  lemma RetimedSound(s: State, c: nat, timeout: real)
    requires Sound(s.stacks, s.timeouts, s.room) && c !in Pooled(s.stacks)
    ensures Sound(s.stacks, s.timeouts[c := timeout], s.room)
  {
    hide Distinct;
    forall k, x | k in s.stacks && x in s.stacks[k]
      ensures x.conn != c
    {
      assert x.conn in Conns(s.stacks[k]);
    }
  }

  lemma InvStep(s: State, step: Step)
    requires Inv(s)
    ensures Inv(After(s, step))
  {
    hide StaleFrom;
    hide Sifted;
    hide Emptied;
    hide Prefix;
    hide Sound;
    hide Pooled;
    hide AfterTake;
    hide Drop;
    hide Canonical;
    match step {
      case Take(key, _, how) =>
        CanonicalTwice(key);
        TakeKeeps(s, Canonical(key), how);
      case Touch(key) =>
        CanonicalTwice(key);
        EntrySound(s, Canonical(key));
      case Connect(timeout) => RetimedSound(s, s.next, timeout);
      case PutBack(ident, c, now) => PutBackKeeps(s, ident, c, now);
      case Flush(alive) =>
        SiftedSound(s.stacks, s.stacks.Keys, Answering(alive), s.timeouts, s.room);
        DropKeeps(s, Sifted(s.stacks, s.stacks.Keys, Answering(alive)));
      case RemoveHost(host) =>
        EmptiedSound(s.stacks, SameHost(s.stacks.Keys, host), s.timeouts, s.room);
        DropKeeps(s, Emptied(s.stacks, SameHost(s.stacks.Keys, host)));
      case Collect(now) => SiftedSound(s.stacks, s.stacks.Keys, Recent(now), s.timeouts, s.room);
      case SetTimeout(c, timeout) =>
        if c in s.held {
          RetimedSound(s, c, timeout);
        }
      case _ =>
    }
  }

  lemma PutBackKeeps(s: State, ident: seq<byte>, c: nat, now: int)
    requires Inv(s)
    ensures Inv(After(s, PutBack(ident, c, now)))
  {
    hide Prefix;
    if Enabled(s, PutBack(ident, c, now)) {
      var k := s.KeyFor(ident, c);
      CanonicalTwice(PoolKey(ident, s.timeouts[c]));
      GrownStack(s, k, Stored(c, now));
    }
    hide Sound;
    hide Pooled;
  }

  /** Whatever the threads do, in every order. */
  lemma {:induction false} InvRun(room: nat, steps: seq<Step>)
    ensures Inv(Run(Empty(room), steps))
  {
    hide After;
    if steps == [] {
      EmptyInv(room);
    } else {
      InvRun(room, steps[..|steps| - 1]);
      hide Inv;
      InvStep(Run(Empty(room), steps[..|steps| - 1]), steps[|steps| - 1]);
    }
  }

  lemma EmptyInv(room: nat)
    ensures Inv(Empty(room))
  {
  }
}
