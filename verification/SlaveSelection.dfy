/** The older selection of a secondary, which keeps its place in `_nextSlave`. */
module SlaveSelection {
  import opened Wrappers
  import opened ReplicaNode
  import opened NodeSelection
  import opened Fairness

  const NO_SECONDARY := 15899

  predicate Suitable(nodes: seq<Node>, master: int, i: int) {
    0 <= i < |nodes| && i != master && nodes[i].OkForSecondaryQueries()
  }

  function MasterIfUp(nodes: seq<Node>, master: int): Result<Host> {
    if 0 <= master < |nodes| && nodes[master].ok then Success(nodes[master].addr) else Failure(NO_SECONDARY)
  }

  /** `getSlave(bool)` with `left` more nodes to visit: the result, and the new `_nextSlave`. */
  function Slave(nodes: seq<Node>, master: int, next: nat, left: nat, fallback: Host, preferLocal: bool, threshold: int): (Result<Host>, nat)
    requires left > 0 ==> nodes != []
    decreases left
  {
    if left == 0 then (if fallback != NoHost then Success(fallback) else MasterIfUp(nodes, master), next)
    else
      var n := Next(next, |nodes|);
      if !Suitable(nodes, master, n) then Slave(nodes, master, n, left - 1, fallback, preferLocal, threshold)
      else if !preferLocal || nodes[n].IsLocalSecondary(threshold) then (Success(nodes[n].addr), n)
      else Slave(nodes, master, n, left - 1, nodes[n].addr, preferLocal, threshold)
  }

  method GetSlave(nodes: seq<Node>, master: int, nextSlave: nat, preferLocal: bool, threshold: int)
    returns (r: Result<Host>, nextSlave': nat)
    ensures (r, nextSlave') == Slave(nodes, master, nextSlave, |nodes|, NoHost, preferLocal, threshold)
  {
    hide Next;
    var fallback := NoHost;
    nextSlave' := nextSlave;
    for it := 0 to |nodes|
      invariant Slave(nodes, master, nextSlave', |nodes| - it, fallback, preferLocal, threshold)
             == Slave(nodes, master, nextSlave, |nodes|, NoHost, preferLocal, threshold)
    {
      nextSlave' := Next(nextSlave', |nodes|);
      if nextSlave' != master {
        if nodes[nextSlave'].OkForSecondaryQueries() {
          fallback := nodes[nextSlave'].addr;
          if !preferLocal {
            return Success(fallback), nextSlave';
          } else if nodes[nextSlave'].IsLocalSecondary(threshold) {
            return Success(fallback), nextSlave';
          }
        }
      }
    }
    if fallback != NoHost {
      return Success(fallback), nextSlave';
    }
    return MasterIfUp(nodes, master), nextSlave';
  }

  // ----- What is selected -----

  /** Some node still to be visited after offset `i` is suitable. */
  ghost predicate Ahead(nodes: seq<Node>, master: int, s: nat, i: nat) {
    exists d :: i < d <= |nodes| && Suitable(nodes, master, Cyclic(s, d, |nodes|))
  }

  ghost predicate SuitableHost(nodes: seq<Node>, master: int, h: Host) {
    exists i :: Suitable(nodes, master, i) && nodes[i].addr == h
  }

  lemma {:induction false} SlaveFrom(nodes: seq<Node>, master: int, s: nat, i: nat, fallback: Host, preferLocal: bool, threshold: int)
    requires nodes != [] && i <= |nodes|
    ensures var r := Slave(nodes, master, Cyclic(s, i, |nodes|), |nodes| - i, fallback, preferLocal, threshold).0;
      if Ahead(nodes, master, s, i) then r.Success? && (r.value == fallback || SuitableHost(nodes, master, r.value))
      else r == if fallback != NoHost then Success(fallback) else MasterIfUp(nodes, master)
    ensures fallback == NoHost && Ahead(nodes, master, s, i) ==>
      Slave(nodes, master, Cyclic(s, i, |nodes|), |nodes| - i, fallback, preferLocal, threshold).0.value != NoHost
    decreases |nodes| - i
  {
    hide Cyclic;
    hide Next;
    if i < |nodes| {
      CyclicStep(s, i, |nodes|);
      var n := Cyclic(s, i + 1, |nodes|);
      if Suitable(nodes, master, n) {
        SlaveFrom(nodes, master, s, i + 1, nodes[n].addr, preferLocal, threshold);
      } else {
        SlaveFrom(nodes, master, s, i + 1, fallback, preferLocal, threshold);
      }
    }
  }

  /** A node the search ends on: suitable, and local when a local one is preferred. */
  ghost predicate Target(nodes: seq<Node>, master: int, preferLocal: bool, threshold: int, i: int) {
    Suitable(nodes, master, i) && (preferLocal ==> nodes[i].IsLocalSecondary(threshold))
  }

  lemma {:induction false} SlaveReaches(nodes: seq<Node>, master: int, s: nat, i: nat, hit: nat, fallback: Host, preferLocal: bool, threshold: int)
    requires nodes != [] && i < hit <= |nodes| && Target(nodes, master, preferLocal, threshold, Cyclic(s, hit, |nodes|))
    requires forall k :: i < k < hit ==> !Target(nodes, master, preferLocal, threshold, Cyclic(s, k, |nodes|))
    ensures Slave(nodes, master, Cyclic(s, i, |nodes|), |nodes| - i, fallback, preferLocal, threshold)
         == (Success(nodes[Cyclic(s, hit, |nodes|)].addr), Cyclic(s, hit, |nodes|))
    decreases hit - i
  {
    hide Cyclic;
    hide Next;
    CyclicStep(s, i, |nodes|);
    if i + 1 < hit {
      var n := Cyclic(s, i + 1, |nodes|);
      var next := if Suitable(nodes, master, n) then nodes[n].addr else fallback;
      SlaveReaches(nodes, master, s, i + 1, hit, next, preferLocal, threshold);
    }
  }

  lemma {:induction false} SlaveMisses(nodes: seq<Node>, master: int, s: nat, i: nat, fallback: Host, preferLocal: bool, threshold: int)
    requires nodes != [] && i <= |nodes|
    requires forall k :: i < k <= |nodes| ==> !Target(nodes, master, preferLocal, threshold, Cyclic(s, k, |nodes|))
    ensures Slave(nodes, master, Cyclic(s, i, |nodes|), |nodes| - i, fallback, preferLocal, threshold).1 == Cyclic(s, |nodes|, |nodes|)
    decreases |nodes| - i
  {
    hide Cyclic;
    hide Next;
    if i < |nodes| {
      CyclicStep(s, i, |nodes|);
      var n := Cyclic(s, i + 1, |nodes|);
      var next := if Suitable(nodes, master, n) then nodes[n].addr else fallback;
      SlaveMisses(nodes, master, s, i + 1, next, preferLocal, threshold);
    }
  }

  /** The place `_nextSlave` stands for. */
  function Place(next: nat, n: nat): (r: nat)
    requires n > 0
    ensures r < n
  {
    Cyclic(next, 0, n)
  }

  /**
   * If there is a target, the call returns the nearest one after `_nextSlave` in cyclic order and leaves
   * `_nextSlave` on it; otherwise `_nextSlave` ends where it stood.
   */
  lemma NearestTarget(nodes: seq<Node>, master: int, next: nat, preferLocal: bool, threshold: int)
    requires nodes != []
    ensures var (r, next') := Slave(nodes, master, next, |nodes|, NoHost, preferLocal, threshold);
      var s := Place(next, |nodes|);
      if exists i :: Target(nodes, master, preferLocal, threshold, i) then
        && Target(nodes, master, preferLocal, threshold, next') && r == Success(nodes[next'].addr)
        && forall i :: Target(nodes, master, preferLocal, threshold, i) ==> Offset(s, next', |nodes|) <= Offset(s, i, |nodes|)
      else next' == s
  {
    var n := |nodes|;
    var s := Place(next, n);
    SlaveAnyStart(nodes, master, next, preferLocal, threshold);
    CyclicStart(s, n);
    hide Slave;
    hide Place;
    var hit := 1;
    while hit <= n && !Target(nodes, master, preferLocal, threshold, Cyclic(s, hit, n))
      invariant 1 <= hit <= n + 1
      invariant forall k :: 0 < k < hit ==> !Target(nodes, master, preferLocal, threshold, Cyclic(s, k, n))
    {
      hit := hit + 1;
    }
    forall i | Target(nodes, master, preferLocal, threshold, i)
      ensures hit <= Offset(s, i, n)
    {
      OffsetReaches(s, i, n);
    }
    if hit <= n {
      SlaveReaches(nodes, master, s, 0, hit, NoHost, preferLocal, threshold);
      CyclicCases(s, hit, n);
    } else {
      SlaveMisses(nodes, master, s, 0, NoHost, preferLocal, threshold);
      CyclicCases(s, n, n);
    }
  }

  /** With two targets or more, no two calls in a row return the same node. */
  lemma SlaveRotates(nodes: seq<Node>, master: int, next: nat, preferLocal: bool, threshold: int, i: int, j: int)
    requires i != j && Target(nodes, master, preferLocal, threshold, i) && Target(nodes, master, preferLocal, threshold, j)
    ensures var next' := Slave(nodes, master, next, |nodes|, NoHost, preferLocal, threshold).1;
      Slave(nodes, master, next', |nodes|, NoHost, preferLocal, threshold).1 != next'
  {
    hide Slave;
    hide Cyclic;
    hide Target;
    TargetInRange(nodes, master, preferLocal, threshold, i);
    TargetInRange(nodes, master, preferLocal, threshold, j);
    NearestTarget(nodes, master, next, preferLocal, threshold);
    var next' := Slave(nodes, master, next, |nodes|, NoHost, preferLocal, threshold).1;
    TargetInRange(nodes, master, preferLocal, threshold, next');
    CyclicStart(next', |nodes|);
    NearestTarget(nodes, master, next', preferLocal, threshold);
  }

  lemma TargetInRange(nodes: seq<Node>, master: int, preferLocal: bool, threshold: int, i: int)
    requires Target(nodes, master, preferLocal, threshold, i)
    ensures 0 <= i < |nodes|
  {
  }

  lemma SlaveCases(nodes: seq<Node>, master: int, next: nat, preferLocal: bool, threshold: int)
    ensures var r := Slave(nodes, master, next, |nodes|, NoHost, preferLocal, threshold).0;
      if exists i :: Suitable(nodes, master, i) then r.Success? && SuitableHost(nodes, master, r.value)
      else r == MasterIfUp(nodes, master)
    ensures (exists i :: Target(nodes, master, preferLocal, threshold, i)) ==>
      exists i :: Target(nodes, master, preferLocal, threshold, i)
        && Slave(nodes, master, next, |nodes|, NoHost, preferLocal, threshold).0 == Success(nodes[i].addr)
  {
    var n := |nodes|;
    if nodes != [] {
      hide Next;
      NearestTarget(nodes, master, next, preferLocal, threshold);
      SlaveAnyStart(nodes, master, next, preferLocal, threshold);
      var s := Cyclic(next, 0, n);
      SlaveFrom(nodes, master, s, 0, NoHost, preferLocal, threshold);
      CyclicStart(s, n);
      if i :| Suitable(nodes, master, i) {
        OffsetReaches(s, i, n);
        assert Suitable(nodes, master, Cyclic(s, Offset(s, i, n), n));
      }
      hide Cyclic;
    }
  }

  /**
   * Wherever `_nextSlave` stands: if some node other than the master is up, a secondary and not hidden, such a node is
   * returned, and when local ones are preferred one with a ping time below the threshold if there is one. Otherwise the
   * master is returned if it is up, and the call fails if not.
   */
  lemma SlaveIsSuitable(nodes: seq<Node>, master: int, next: nat, preferLocal: bool, threshold: int)
    ensures var r := Slave(nodes, master, next, |nodes|, NoHost, preferLocal, threshold).0;
      if exists i :: 0 <= i < |nodes| && i != master && nodes[i].ok && nodes[i].secondary && !nodes[i].hidden then
        exists i :: 0 <= i < |nodes| && i != master && nodes[i].ok && nodes[i].secondary && !nodes[i].hidden
          && r == Success(nodes[i].addr)
          && (preferLocal && (exists k :: 0 <= k < |nodes| && k != master && nodes[k].ok && nodes[k].secondary && !nodes[k].hidden
                                          && nodes[k].pingTimeMillis < threshold)
              ==> nodes[i].pingTimeMillis < threshold)
      else if 0 <= master < |nodes| && nodes[master].ok then r == Success(nodes[master].addr)
      else r == Failure(NO_SECONDARY)
  {
    SlaveCases(nodes, master, next, preferLocal, threshold);
    hide Slave;
    if i :| 0 <= i < |nodes| && i != master && nodes[i].ok && nodes[i].secondary && !nodes[i].hidden {
      assert Suitable(nodes, master, i);
      if k :| 0 <= k < |nodes| && k != master && nodes[k].ok && nodes[k].secondary && !nodes[k].hidden && nodes[k].pingTimeMillis < threshold {
        assert Target(nodes, master, preferLocal, threshold, k);
      }
    }
  }

  /** Only the place modulo the number of nodes matters. */
  lemma SlaveAnyStart(nodes: seq<Node>, master: int, next: nat, preferLocal: bool, threshold: int)
    requires nodes != []
    ensures Slave(nodes, master, next, |nodes|, NoHost, preferLocal, threshold)
         == Slave(nodes, master, Cyclic(next, 0, |nodes|), |nodes|, NoHost, preferLocal, threshold)
  {
    ModStep(next, |nodes|);
    assert Next(next, |nodes|) == Next(Cyclic(next, 0, |nodes|), |nodes|);
    hide Next;
    hide Cyclic;
  }
}
