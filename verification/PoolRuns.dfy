/** What holds over every run of the connection pool, whichever threads take the steps and in whatever order. */
module PoolRuns {
  import opened Bytes
  import opened ServerName
  import opened PoolModel

  /** The state after the first `i` steps. */
  ghost function StateAt(room: nat, steps: seq<Step>, i: nat): State
    requires i <= |steps|
  {
    Run(Empty(room), steps[..i])
  }

  lemma StateStep(room: nat, steps: seq<Step>, i: nat)
    requires i < |steps|
    ensures StateAt(room, steps, i + 1) == After(StateAt(room, steps, i), steps[i])
  {
    hide Run;
    assert steps[..i + 1] == steps[..i] + [steps[i]];
    RunSnoc(Empty(room), steps[..i], steps[i]);
  }

  // ----- Conservation -----

  /**
   * Every connection ever made has either been deleted or is in exactly one place: at one position of one stack, with
   * a caller, with the cleaner, or lost.
   */
  lemma EveryConnectionIsSomewhere(room: nat, steps: seq<Step>, c: nat)
    ensures var s := Run(Empty(room), steps);
      && (c in s.live ==> c < s.next)
      && (c in s.live <==> c in Pooled(s.stacks) || c in s.held || c in s.doomed || c in s.lost)
      && Pooled(s.stacks) !! s.held !! s.doomed !! s.lost
      && forall k, i, l, j ::
           (k in s.stacks && l in s.stacks && 0 <= i < |s.stacks[k]| && 0 <= j < |s.stacks[l]|
            && s.stacks[k][i].conn == c && s.stacks[l][j].conn == c) ==> k == l && i == j
  {
    hide Run;
    InvRun(room, steps);
    var s := Run(Empty(room), steps);
    forall k, i, l, j | k in s.stacks && l in s.stacks && 0 <= i < |s.stacks[k]| && 0 <= j < |s.stacks[l]|
      && s.stacks[k][i].conn == c && s.stacks[l][j].conn == c
      ensures k == l && i == j
    {
      assert s.stacks[k][i] in s.stacks[k] && s.stacks[l][j] in s.stacks[l];
      assert c in Conns(s.stacks[k]) && c in Conns(s.stacks[l]);
    }
    hide Sound;
  }

  /** What a step deletes existed, and what did not exist before comes from connecting only. */
  lemma LiveAfter(s: State, step: Step)
    requires Inv(s)
    ensures After(s, step).live <= s.live + {s.next} && s.next <= After(s, step).next
    ensures s.next in After(s, step).live ==> After(s, step).next == s.next + 1
  {
    hide Sound;
    hide Pooled;
    hide Conns;
    hide StaleFrom;
    hide Sifted;
    hide Emptied;
    hide Canonical;
  }

  /** A deleted connection stays deleted: it is never pooled, handed out or deleted again. */
  lemma {:induction false} DeletedForGood(room: nat, steps: seq<Step>, i: nat, c: nat)
    requires i <= |steps| && c < StateAt(room, steps, i).next && c !in StateAt(room, steps, i).live
    ensures c < StateAt(room, steps, |steps|).next && c !in StateAt(room, steps, |steps|).live
    decreases |steps| - i
  {
    hide After;
    hide Run;
    hide StateAt;
    if i < |steps| {
      StateStep(room, steps, i);
      StateInv(room, steps, i);
      hide Inv;
      LiveAfter(StateAt(room, steps, i), steps[i]);
      DeletedForGood(room, steps, i + 1, c);
    }
  }

  lemma StateInv(room: nat, steps: seq<Step>, i: nat)
    requires i <= |steps|
    ensures Inv(StateAt(room, steps, i))
  {
    InvRun(room, steps[..i]);
    hide Run;
    hide Inv;
  }

  // ----- Lost connections -----

  /** A step on which an `onDestroy` hook throws over a connection nobody else refers to. */
  predicate Loses(s: State, step: Step) {
    Enabled(s, step) && ((step.Take? && step.how.Threw?) || (step.Discard? && step.threw))
  }

  ghost function Losses(s: State, steps: seq<Step>): nat {
    if steps == [] then 0
    else
      var before := steps[..|steps| - 1];
      Losses(s, before) + if Loses(Run(s, before), steps[|steps| - 1]) then 1 else 0
  }

  lemma LostAfter(s: State, step: Step)
    requires Inv(s)
    ensures s.lost <= After(s, step).lost
    ensures |After(s, step).lost| == |s.lost| + if Loses(s, step) then 1 else 0
  {
    hide StaleFrom;
    hide Sifted;
    hide Emptied;
    hide Canonical;
    hide Conns;
    hide Pooled;
    match step {
      case Take(key, _, how) =>
        if Enabled(s, step) && how.Threw? {
          EntryIsNotLost(s, Canonical(key), how.n);
        }
        hide Inv;
      case Discard(c, threw) => hide Sound;
      case _ => hide Inv;
    }
  }

  lemma InPool(s: State, k: PoolKey, x: Stored)
    requires Inv(s) && k in s.stacks && x in s.stacks[k]
    ensures x.conn in Conns(s.stacks[k]) && x.conn in Pooled(s.stacks) && x.conn in s.live
  {
    assert x.conn in Conns(s.stacks[k]);
    hide Conns;
    hide Sound;
  }

  lemma EntryIsNotLost(s: State, k: PoolKey, n: nat)
    requires Inv(s) && n < |s.At(k)|
    ensures s.At(k)[n].conn !in s.lost
  {
    var x := s.At(k)[n];
    InPool(s, k, x);
    PlacesAreApart(s, x.conn);
    hide Inv;
    hide Pooled;
    hide Conns;
  }

  lemma PlacesAreApart(s: State, c: nat)
    requires Inv(s) && c in Pooled(s.stacks)
    ensures c !in s.held && c !in s.doomed && c !in s.lost
  {
    hide Sound;
    hide Pooled;
  }

  /** As many connections are lost as hooks have thrown over a connection nobody else refers to; none comes back. */
  lemma {:induction false} LostExactly(room: nat, steps: seq<Step>)
    ensures |Run(Empty(room), steps).lost| == Losses(Empty(room), steps)
  {
    hide After;
    hide Loses;
    if steps != [] {
      var before := steps[..|steps| - 1];
      LostExactly(room, before);
      InvRun(room, before);
      hide Inv;
      LostAfter(Run(Empty(room), before), steps[|steps| - 1]);
    }
  }

  // ----- What leaves a stack, and why -----

  /** A `get` on stack `k` takes the pooled entry `x` out, and this is where it goes. */
  ghost predicate GetTakesOut(s: State, now: int, how: Taken, k: PoolKey, x: Stored, s': State) {
    match how
    case Found(n) =>
      n < |s.At(k)|
      && ((x == s.At(k)[n] && x.conn in s'.held) || (x in s.At(k)[n + 1..] && !Ok(x, now) && x.conn !in s'.live))
    case Nothing => !Ok(x, now) && x.conn !in s'.live
    case Threw(n) =>
      n < |s.At(k)| && !Ok(x, now)
      && ((x == s.At(k)[n] && x.conn in s'.lost) || (x in s.At(k)[n + 1..] && x.conn !in s'.live))
  }

  /** The step takes the pooled entry `x` out of stack `k`, and this is where it goes. */
  ghost predicate TakesOut(s: State, step: Step, k: PoolKey, x: Stored) {
    var s' := After(s, step);
    Enabled(s, step) &&
    match step
    case Take(key, now, how) => Canonical(key) == k && GetTakesOut(s, now, how, k, x, s')
    case Flush(alive) => x.conn !in alive && x.conn !in s'.live
    case RemoveHost(host) => Prefix(k.ident) == Prefix(host) && x.conn !in s'.live
    case Collect(now) => !Ok(x, now) && x.conn in s'.doomed
    case _ => false
  }

  lemma SameEntry(stack: seq<Stored>, x: Stored, y: Stored)
    requires Distinct(stack) && x in stack && y in stack && x.conn == y.conn
    ensures x == y
  {
  }

  lemma NotPooledAfter(s: State, k: PoolKey, x: Stored, after: Stacks)
    requires Inv(s) && k in s.stacks && x in s.stacks[k] && after.Keys == s.stacks.Keys && x !in after[k]
    requires forall l :: l in after ==> forall y :: y in after[l] ==> y in s.stacks[l]
    ensures x.conn !in Pooled(after)
  {
    if x.conn in Pooled(after) {
      var l :| l in after && x.conn in Conns(after[l]);
      var y :| y in after[l] && y.conn == x.conn;
      assert x.conn in Conns(s.stacks[l]) && x.conn in Conns(s.stacks[k]);
      assert l == k;
      SameEntry(s.stacks[k], x, y);
    }
  }

  lemma SiftedLeaves(s: State, k: PoolKey, x: Stored, f: Stored -> bool)
    requires Inv(s) && k in s.stacks && x in s.stacks[k]
    ensures var after := Sifted(s.stacks, s.stacks.Keys, f);
      (x in after[k] <==> f(x)) && (!f(x) ==> x.conn !in Pooled(after))
  {
    var after := Sifted(s.stacks, s.stacks.Keys, f);
    forall l | l in s.stacks
      ensures forall y :: y in after[l] <==> y in s.stacks[l] && f(y)
    {
      PoppedMembers(s.stacks[l], f);
    }
    hide PoppedWhere;
    hide Inv;
    if !f(x) {
      NotPooledAfter(s, k, x, after);
    }
  }

  lemma FlushLeaves(s: State, alive: set<nat>, k: PoolKey, x: Stored)
    requires Inv(s) && k in s.stacks && x in s.stacks[k]
    ensures x in After(s, Flush(alive)).At(k) <==> !TakesOut(s, Flush(alive), k, x)
  {
    InPool(s, k, x);
    SiftedLeaves(s, k, x, Answering(alive));
    FlushFields(s, alive);
    hide After;
    hide GetTakesOut;
    hide Inv;
    hide Pooled;
    hide Conns;
    hide Sifted;
  }

  lemma RemoveLeaves(s: State, host: seq<byte>, k: PoolKey, x: Stored)
    requires Inv(s) && k in s.stacks && x in s.stacks[k]
    ensures x in After(s, RemoveHost(host)).At(k) <==> !TakesOut(s, RemoveHost(host), k, x)
  {
    InPool(s, k, x);
    EmptiedLeaves(s, k, x, host);
    RemoveFields(s, host);
    hide After;
    hide GetTakesOut;
    hide Inv;
    hide Pooled;
    hide Conns;
    hide Emptied;
    hide Prefix;
  }

  lemma CollectLeaves(s: State, now: int, k: PoolKey, x: Stored)
    requires Inv(s) && k in s.stacks && x in s.stacks[k]
    ensures x in After(s, Collect(now)).At(k) <==> !TakesOut(s, Collect(now), k, x)
  {
    InPool(s, k, x);
    SiftedLeaves(s, k, x, Recent(now));
    CollectFields(s, now);
    hide After;
    hide GetTakesOut;
    hide Inv;
    hide Pooled;
    hide Conns;
    hide Sifted;
  }

  lemma OthersLeaveNothing(s: State, step: Step, k: PoolKey, x: Stored)
    requires k in s.stacks && x in s.stacks[k] && !step.Take? && !step.Flush? && !step.RemoveHost? && !step.Collect?
    ensures x in After(s, step).At(k) && !TakesOut(s, step, k, x)
  {
    hide Canonical;
  }

  /** An entry is in its stack after a step exactly if the step does not take it out in one of these ways. */
  lemma EntryLeavesIff(s: State, step: Step, k: PoolKey, x: Stored)
    requires Inv(s) && k in s.stacks && x in s.stacks[k]
    ensures x in After(s, step).At(k) <==> !TakesOut(s, step, k, x)
  {
    hide Inv;
    hide After;
    hide TakesOut;
    match step {
      case Take(key, now, how) => TakeLeaves(s, key, now, how, k, x);
      case Flush(alive) => FlushLeaves(s, alive, k, x);
      case RemoveHost(host) => RemoveLeaves(s, host, k, x);
      case Collect(now) => CollectLeaves(s, now, k, x);
      case _ => OthersLeaveNothing(s, step, k, x);
    }
  }

  lemma EmptiedLeaves(s: State, k: PoolKey, x: Stored, host: seq<byte>)
    requires Inv(s) && k in s.stacks && x in s.stacks[k]
    ensures var after := Emptied(s.stacks, SameHost(s.stacks.Keys, host));
      (x in after[k] <==> Prefix(k.ident) != Prefix(host)) && (x !in after[k] ==> x.conn !in Pooled(after))
  {
    var after := Emptied(s.stacks, SameHost(s.stacks.Keys, host));
    hide Prefix;
    hide Inv;
    if x !in after[k] {
      NotPooledAfter(s, k, x, after);
    }
  }

  lemma TakeLeaves(s: State, key: PoolKey, now: int, how: Taken, k: PoolKey, x: Stored)
    requires Inv(s) && k in s.stacks && x in s.stacks[k]
    ensures x in After(s, Take(key, now, how)).At(k) <==> !TakesOut(s, Take(key, now, how), k, x)
  {
    hide Canonical;
    if Canonical(key) == k && Enabled(s, Take(key, now, how)) {
      InPool(s, k, x);
      var stack := s.stacks[k];
      var n := if how.Nothing? then 0 else how.n;
      assert Distinct(stack);
      PrefixThinner(stack, n);
      SplitAt(stack, n, x);
      StaleMembers(stack, if how.Found? then n + 1 else n, now);
    }
    hide Inv;
    hide Pooled;
    hide Distinct;
  }

  lemma StaleMembers(stack: seq<Stored>, n: nat, now: int)
    requires StaleFrom(stack, n, now) && n <= |stack|
    ensures forall x :: x in stack[n..] ==> !Ok(x, now)
  {
  }

  lemma SplitAt(stack: seq<Stored>, n: nat, x: Stored)
    requires Distinct(stack) && x in stack && n <= |stack|
    ensures x in stack[..n] <==> x !in stack[n..]
    ensures x in stack[n..] ==> x.conn in Conns(stack[n..])
    ensures n < |stack| ==> (x in stack[n..] <==> x == stack[n] || x in stack[n + 1..])
    ensures n < |stack| ==> (x in stack[n + 1..] ==> x.conn in Conns(stack[n + 1..]))
  {
    assert stack == stack[..n] + stack[n..];
    if n < |stack| {
      assert stack[n..] == [stack[n]] + stack[n + 1..];
    }
  }

  /** The pooled connections that have been idle for the limit. */
  ghost function IdleIn(stacks: Stacks, now: int): set<nat> {
    set k, x | k in stacks && x in stacks[k] && !Ok(x, now) :: x.conn
  }

  /** What the cleaner takes out is what has been idle for the limit. */
  lemma CollectTakesIdle(s: State, now: int)
    requires Inv(s)
    ensures Pooled(s.stacks) - Pooled(Sifted(s.stacks, s.stacks.Keys, Recent(now))) == IdleIn(s.stacks, now)
  {
    var after := Sifted(s.stacks, s.stacks.Keys, Recent(now));
    forall k, x | k in s.stacks && x in s.stacks[k]
      ensures x.conn in Pooled(s.stacks) && (x in after[k] <==> Ok(x, now)) && (x.conn in Pooled(after) <==> Ok(x, now))
    {
      InPool(s, k, x);
      SiftedLeaves(s, k, x, Recent(now));
      assert x in after[k] ==> x.conn in Conns(after[k]);
    }
    hide Inv;
    hide Sifted;
    forall c | c in Pooled(s.stacks)
      ensures exists k, x :: k in s.stacks && x in s.stacks[k] && x.conn == c
    {
    }
  }

  // ----- Where a pooled entry comes from -----

  /** The step puts the entry `x` on stack `k`: its connection, at this time, under its timeout of the moment. */
  predicate PutsIn(s: State, step: Step, k: PoolKey, x: Stored) {
    Enabled(s, step) && step.PutBack? && x == Stored(step.c, step.now) && k == s.KeyFor(step.ident, step.c)
  }

  lemma EntryComesFrom(s: State, step: Step, k: PoolKey, x: Stored)
    requires x in After(s, step).At(k)
    ensures x in s.At(k) || PutsIn(s, step, k, x)
  {
    hide Canonical;
    hide StaleFrom;
    if k in s.stacks {
      PoppedMembers(s.stacks[k], if step.Flush? then Answering(step.alive) else Recent(if step.Collect? then step.now else 0));
    }
    hide PoppedWhere;
    hide Conns;
    hide Pooled;
  }

  /** A pooled entry was put in by one step, and has been in its stack ever since. */
  lemma {:induction false} PutInBefore(room: nat, steps: seq<Step>, i: nat, k: PoolKey, x: Stored) returns (j: nat)
    requires i <= |steps| && x in StateAt(room, steps, i).At(k)
    ensures j < i && PutsIn(StateAt(room, steps, j), steps[j], k, x)
    ensures forall m :: j < m <= i ==> x in StateAt(room, steps, m).At(k)
  {
    hide After;
    hide PutsIn;
    if i > 0 {
      StateStep(room, steps, i - 1);
      hide StateAt;
      EntryComesFrom(StateAt(room, steps, i - 1), steps[i - 1], k, x);
      if PutsIn(StateAt(room, steps, i - 1), steps[i - 1], k, x) {
        j := i - 1;
      } else {
        j := PutInBefore(room, steps, i - 1, k, x);
      }
    }
  }

  /**
   * No pooled connection idle for the limit is ever handed out: whenever `get` finds one, in any run, some earlier
   * `release` has put it back less than 1800 seconds before, under the server and timeout now asked for, and no thread
   * has touched it in between.
   */
  lemma HandedOutRecently(room: nat, steps: seq<Step>, i: nat, key: PoolKey, now: int, n: nat) returns (j: nat, x: Stored)
    requires i < |steps| && steps[i] == Take(key, now, Found(n)) && Enabled(StateAt(room, steps, i), steps[i])
    ensures x == StateAt(room, steps, i).At(Canonical(key))[n] && now - x.when < 1800
    ensures j < i && PutsIn(StateAt(room, steps, j), steps[j], Canonical(key), x)
    ensures forall m :: j < m <= i ==> x in StateAt(room, steps, m).At(Canonical(key))
    ensures var s := StateAt(room, steps, i); x.conn in s.timeouts && s.timeouts[x.conn] == key.timeout
    ensures x.conn in StateAt(room, steps, i + 1).held
  {
    hide StateAt;
    hide PutsIn;
    hide Prefix;
    x := StateAt(room, steps, i).At(Canonical(key))[n];
    j := PutInBefore(room, steps, i, Canonical(key), x);
    StateInv(room, steps, i);
    StateStep(room, steps, i);
  }

  /** A pooled entry that is gone later was taken out by one step, for one of the reasons there are. */
  lemma {:induction false} TakenOutBetween(room: nat, steps: seq<Step>, i: nat, l: nat, k: PoolKey, x: Stored) returns (j: nat)
    requires i <= l <= |steps| && x in StateAt(room, steps, i).At(k) && x !in StateAt(room, steps, l).At(k)
    ensures i <= j < l && TakesOut(StateAt(room, steps, j), steps[j], k, x)
    ensures forall m :: i <= m <= j ==> x in StateAt(room, steps, m).At(k)
    decreases l - i
  {
    hide After;
    hide TakesOut;
    hide StateAt;
    StateInv(room, steps, i);
    hide Inv;
    StateStep(room, steps, i);
    EntryLeavesIff(StateAt(room, steps, i), steps[i], k, x);
    if TakesOut(StateAt(room, steps, i), steps[i], k, x) {
      j := i;
    } else {
      j := TakenOutBetween(room, steps, i + 1, l, k, x);
    }
  }

  /**
   * The step does not ask for stack `k` at a time by which `x` has been idle for the limit, does not hand `x` out, is
   * no flush in which it does not answer, and does not remove its server.
   */
  predicate Spares(s: State, step: Step, k: PoolKey, x: Stored) {
    match step
    case Take(key, now, how) =>
      Canonical(key) == k ==> Ok(x, now) && !(how.Found? && how.n < |s.At(k)| && s.At(k)[how.n] == x)
    case Flush(alive) => x.conn in alive
    case RemoveHost(host) => Prefix(k.ident) != Prefix(host)
    case Collect(now) => Ok(x, now)
    case _ => true
  }

  lemma SparedStays(s: State, step: Step, k: PoolKey, x: Stored)
    requires Inv(s) && Spares(s, step, k, x)
    ensures !TakesOut(s, step, k, x)
  {
    hide Inv;
    hide After;
    hide StaleFrom;
    hide Canonical;
    hide Prefix;
    if step.Take? && Canonical(step.key) == k && Enabled(s, step) {
      GetSpares(s, step.now, step.how, k, x, After(s, step));
    }
    hide GetTakesOut;
  }

  lemma GetSpares(s: State, now: int, how: Taken, k: PoolKey, x: Stored, s': State)
    requires Ok(x, now) && !(how.Found? && how.n < |s.At(k)| && s.At(k)[how.n] == x)
    ensures !GetTakesOut(s, now, how, k, x, s')
  {
  }

  /** Every other connection stays: what no step between takes for such a reason is still pooled, with its time. */
  lemma OthersStay(room: nat, steps: seq<Step>, i: nat, l: nat, k: PoolKey, x: Stored)
    requires i <= l <= |steps| && x in StateAt(room, steps, i).At(k)
    requires forall j :: i <= j < l ==> Spares(StateAt(room, steps, j), steps[j], k, x)
    ensures x in StateAt(room, steps, l).At(k)
  {
    hide StateAt;
    hide Spares;
    hide TakesOut;
    hide Inv;
    if x !in StateAt(room, steps, l).At(k) {
      var j := TakenOutBetween(room, steps, i, l, k, x);
      StateInv(room, steps, j);
      SparedStays(StateAt(room, steps, j), steps[j], k, x);
    }
  }
}
