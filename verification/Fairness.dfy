/** What repeated selection over an unchanged node list visits. */
module Fairness {
  import opened ReplicaNode
  import opened NodeSelection

  ghost predicate DistinctAddresses(nodes: seq<Node>) {
    forall i, j :: 0 <= i < j < |nodes| ==> nodes[i].addr != nodes[j].addr
  }

  // ----- Cyclic offsets -----

  /** The offset in 1..n that leads from `s` to `r`. */
  function Offset(s: nat, r: nat, n: nat): (i: nat)
    requires s < n && r < n
    ensures 1 <= i <= n
  {
    if r > s then r - s else n - s + r
  }

  lemma OffsetReaches(s: nat, r: nat, n: nat)
    requires s < n && r < n
    ensures Cyclic(s, Offset(s, r, n), n) == r
  {
    if r > s {
      ModIs(r, n, 0, r);
    } else {
      ModIs(n + r, n, 1, r);
    }
  }

  lemma CyclicCases(s: nat, i: nat, n: nat)
    requires s < n && i <= n
    ensures Cyclic(s, i, n) == if s + i < n then s + i else s + i - n
  {
    if s + i < n {
      ModIs(s + i, n, 0, s + i);
    } else {
      ModIs(s + i, n, 1, s + i - n);
    }
  }

  // ----- One call -----

  /** A local match ends the search at once: the nearest local node in cyclic order wins. */
  lemma {:induction false} NearestLocal(w: Wanted, nodes: seq<Node>, s: nat, i: nat, fallback: Host, hit: nat)
    requires nodes != [] && i <= hit <= |nodes| && Local(w, After(nodes, s, hit))
    requires forall k :: i <= k < hit ==> !Local(w, After(nodes, s, k))
    ensures Scan(w, nodes, s, i, fallback) == After(nodes, s, hit).addr
    decreases hit - i
  {
    hide Cyclic;
    ScanStep(w, nodes, s, i, fallback);
    if i < hit {
      NearestLocal(w, nodes, s, i + 1, if Eligible(w, After(nodes, s, i)) then After(nodes, s, i).addr else fallback, hit);
    }
  }

  /** Without a local match the fallback is overwritten at every match, so the last one in cyclic order wins. */
  lemma {:induction false} LastEligible(w: Wanted, nodes: seq<Node>, s: nat, i: nat, fallback: Host, hit: nat)
    requires nodes != [] && i <= hit <= |nodes| && Eligible(w, After(nodes, s, hit))
    requires forall k :: i <= k <= |nodes| ==> !Local(w, After(nodes, s, k))
    requires forall k :: hit < k <= |nodes| ==> !Eligible(w, After(nodes, s, k))
    ensures Scan(w, nodes, s, i, fallback) == After(nodes, s, hit).addr
    decreases |nodes| - i
  {
    hide Cyclic;
    ScanStep(w, nodes, s, i, fallback);
    if i < hit {
      LastEligible(w, nodes, s, i + 1, if Eligible(w, After(nodes, s, i)) then After(nodes, s, i).addr else fallback, hit);
    } else {
      NothingMore(w, nodes, s, i + 1, After(nodes, s, i).addr);
    }
  }

  lemma {:induction false} NothingMore(w: Wanted, nodes: seq<Node>, s: nat, i: nat, fallback: Host)
    requires nodes != []
    requires forall k :: i <= k <= |nodes| ==> !Eligible(w, After(nodes, s, k))
    ensures Scan(w, nodes, s, i, fallback) == fallback
    decreases |nodes| + 1 - i
  {
    hide Cyclic;
    if i <= |nodes| {
      ScanStep(w, nodes, s, i, fallback);
      NothingMore(w, nodes, s, i + 1, fallback);
    }
  }

  /** The greatest offset of an eligible node. */
  lemma {:induction false} GreatestEligible(w: Wanted, nodes: seq<Node>, s: nat, i: nat, top: nat) returns (hit: nat)
    requires nodes != [] && i <= top && Eligible(w, After(nodes, s, i))
    ensures i <= hit <= top && Eligible(w, After(nodes, s, hit))
    ensures forall k :: hit < k <= top ==> !Eligible(w, After(nodes, s, k))
    decreases top
  {
    if Eligible(w, After(nodes, s, top)) {
      hit := top;
    } else {
      hit := GreatestEligible(w, nodes, s, i, top - 1);
    }
  }

  lemma {:induction false} LeastLocal(w: Wanted, nodes: seq<Node>, s: nat, from: nat, i: nat) returns (hit: nat)
    requires nodes != [] && from <= i && Local(w, After(nodes, s, i))
    ensures from <= hit <= i && Local(w, After(nodes, s, hit))
    ensures forall k :: from <= k < hit ==> !Local(w, After(nodes, s, k))
    decreases i - from
  {
    if Local(w, After(nodes, s, from)) {
      hit := from;
    } else {
      hit := LeastLocal(w, nodes, s, from + 1, i);
    }
  }

  /** The offset at which the selected node stands, and why it was taken. */
  lemma Selected(w: Wanted, nodes: seq<Node>, last: Host, r: nat) returns (hit: nat)
    requires r < |nodes| && Eligible(w, nodes[r])
    ensures var s := StartIndex(nodes, last);
      && 1 <= hit <= |nodes|
      && Select(w, nodes, last) == After(nodes, s, hit).addr && Eligible(w, After(nodes, s, hit))
      && if exists i :: 0 <= i < |nodes| && Local(w, nodes[i])
         then Local(w, After(nodes, s, hit)) && forall k :: 1 <= k < hit ==> !Local(w, After(nodes, s, k))
         else forall k :: hit < k <= |nodes| ==> !Eligible(w, After(nodes, s, k))
  {
    hide Cyclic;
    var s, n := StartIndex(nodes, last), |nodes|;
    if i :| 0 <= i < n && Local(w, nodes[i]) {
      OffsetReaches(s, i, n);
      hit := LeastLocal(w, nodes, s, 1, Offset(s, i, n));
      NearestLocal(w, nodes, s, 1, NoHost, hit);
    } else {
      OffsetReaches(s, r, n);
      hit := GreatestEligible(w, nodes, s, Offset(s, r, n), n);
      LastEligible(w, nodes, s, 1, NoHost, hit);
    }
  }

  /** The result is empty exactly when no node is eligible. */
  lemma EmptyIffNoneEligible(w: Wanted, nodes: seq<Node>, last: Host)
    ensures Select(w, nodes, last) == NoHost <==> forall i :: 0 <= i < |nodes| ==> !Eligible(w, nodes[i])
  {
    if r :| 0 <= r < |nodes| && Eligible(w, nodes[r]) {
      var hit := Selected(w, nodes, last, r);
    } else if nodes != [] {
      NothingMore(w, nodes, StartIndex(nodes, last), 1, NoHost);
    }
  }

  /** Up, for secondaries only one that is not hidden, and every criterion of the tag is a tag of the node with that value. */
  ghost predicate Fits(n: Node, tag: Criteria, secOnly: bool) {
    && n.ok && (secOnly ==> n.secondary && !n.hidden)
    && forall i :: 0 <= i < |tag| ==> n.tags.Some? && tag[i].0 in n.tags.value && n.tags.value[tag[i].0] == tag[i].1
  }

  lemma FitsIsEligible(n: Node, w: Wanted)
    ensures Fits(n, w.tag, w.secOnly) <==> Eligible(w, n)
  {
    if w.tag != [] && Fits(n, w.tag, w.secOnly) {
      var first := w.tag[0];
      assert n.tags.Some?;
    }
  }

  /** A node that fits is selected if there is one, and one with a ping time below the threshold if such a one fits. */
  lemma SelectedFits(w: Wanted, nodes: seq<Node>, last: Host)
    ensures var h := Select(w, nodes, last);
      if exists i :: 0 <= i < |nodes| && Fits(nodes[i], w.tag, w.secOnly) then
        exists i :: 0 <= i < |nodes| && Fits(nodes[i], w.tag, w.secOnly) && h == nodes[i].addr
          && ((exists k :: 0 <= k < |nodes| && Fits(nodes[k], w.tag, w.secOnly) && nodes[k].pingTimeMillis < w.threshold)
              ==> nodes[i].pingTimeMillis < w.threshold)
      else h == NoHost
  {
    forall i | 0 <= i < |nodes|
      ensures Fits(nodes[i], w.tag, w.secOnly) <==> Eligible(w, nodes[i])
      ensures Local(w, nodes[i]) <==> Eligible(w, nodes[i]) && nodes[i].pingTimeMillis < w.threshold
    {
      FitsIsEligible(nodes[i], w);
    }
    hide Fits;
    hide Eligible;
    hide Local;
    hide Cyclic;
    EmptyIffNoneEligible(w, nodes, last);
    if r :| 0 <= r < |nodes| && Eligible(w, nodes[r]) {
      var hit := Selected(w, nodes, last, r);
      var i := Cyclic(StartIndex(nodes, last), hit, |nodes|);
      assert Eligible(w, nodes[i]) && nodes[i].addr == Select(w, nodes, last);
    }
    hide Select;
  }

  // ----- Many calls -----

  /** The hosts returned by `m` consecutive calls that thread `lastHost`. */
  ghost function Calls(w: Wanted, nodes: seq<Node>, last: Host, m: nat): (hs: seq<Host>)
    ensures |hs| == m
    decreases m
  {
    if m == 0 then []
    else
      var h := Select(w, nodes, last);
      [h] + Calls(w, nodes, if h == NoHost then last else h, m - 1)
  }

  /** The indices of the eligible local nodes among the first `m`, ascending. */
  ghost function Locals(w: Wanted, nodes: seq<Node>, m: nat): (e: seq<nat>)
    requires m <= |nodes|
    ensures forall j :: 0 <= j < |e| ==> e[j] < m && Local(w, nodes[e[j]])
    ensures forall i, j :: 0 <= i < j < |e| ==> e[i] < e[j]
    ensures forall i :: 0 <= i < m && Local(w, nodes[i]) ==> i in e
  {
    if m == 0 then []
    else Locals(w, nodes, m - 1) + if Local(w, nodes[m - 1]) then [m - 1] else []
  }

  lemma StartsAtOwner(nodes: seq<Node>, i: nat)
    requires DistinctAddresses(nodes) && i < |nodes|
    ensures StartIndex(nodes, nodes[i].addr) == i
  {
  }

  /** From one local node the search moves to the next one, wrapping after the last. */
  lemma NextLocal(w: Wanted, nodes: seq<Node>, j: nat)
    requires DistinctAddresses(nodes)
    requires j < |Locals(w, nodes, |nodes|)|
    ensures var e := Locals(w, nodes, |nodes|);
      Select(w, nodes, nodes[e[j]].addr) == nodes[e[Cyclic(j, 1, |e|)]].addr
  {
    var e, n := Locals(w, nodes, |nodes|), |nodes|;
    var k := |e|;
    CyclicCases(j, 1, k);
    var s, t := e[j], e[Cyclic(j, 1, k)];
    StartsAtOwner(nodes, s);
    var hit := Offset(s, t, n);
    OffsetReaches(s, t, n);
    forall i | 1 <= i < hit
      ensures !Local(w, After(nodes, s, i))
    {
      CyclicCases(s, i, n);
      NotBetween(w, nodes, j, Cyclic(s, i, n));
    }
    NearestLocal(w, nodes, s, 1, NoHost, hit);
  }

  /** No local node lies strictly between two neighbours of the ascending list, nor outside it. */
  lemma NotBetween(w: Wanted, nodes: seq<Node>, j: nat, r: nat)
    requires j < |Locals(w, nodes, |nodes|)| && r < |nodes|
    requires var e := Locals(w, nodes, |nodes|);
      if j + 1 < |e| then e[j] < r < e[j + 1] else r > e[j] || r < e[0]
    ensures !Local(w, nodes[r])
  {
  }

  lemma {:induction false} CallsRotate(w: Wanted, nodes: seq<Node>, j: nat, m: nat, i: nat)
    requires DistinctAddresses(nodes)
    requires j < |Locals(w, nodes, |nodes|)| && i < m
    ensures var e := Locals(w, nodes, |nodes|);
      Calls(w, nodes, nodes[e[j]].addr, m)[i] == nodes[e[Cyclic(j, i + 1, |e|)]].addr
    decreases m
  {
    hide Cyclic;
    hide Select;
    hide Locals;
    var e := Locals(w, nodes, |nodes|);
    NextLocal(w, nodes, j);
    if i > 0 {
      CallsRotate(w, nodes, Cyclic(j, 1, |e|), m - 1, i - 1);
      CyclicShift(j, i, |e|);
    }
  }

  lemma CyclicShift(j: nat, i: nat, n: nat)
    requires n > 0
    ensures Cyclic(Cyclic(j, 1, n), i, n) == Cyclic(j, i + 1, n)
  {
    var a := j + 1;
    var q, r := a / n, a % n;
    assert a == n * q + r && Cyclic(j, 1, n) == r && Cyclic(j, i + 1, n) == (a + i) % n;
    ModOfSum(n, q, r, i);
  }

  lemma ModOfSum(n: nat, q: int, r: nat, i: nat)
    requires n > 0
    ensures (r + i) % n == (n * q + r + i) % n
  {
    var p, t := (r + i) / n, (r + i) % n;
    assert r + i == n * p + t;
    Sum(n, q, p);
    ModIs(n * q + r + i, n, q + p, t);
  }

  lemma Sum(n: int, q: int, p: int)
    ensures n * (q + p) == n * q + n * p
  {
  }

  /** Any `k` consecutive calls go round the `k` local nodes once, from wherever the first call lands. */
  lemma RoundFrom(w: Wanted, nodes: seq<Node>, last: Host, l: nat) returns (j0: nat)
    requires DistinctAddresses(nodes)
    requires Locals(w, nodes, |nodes|) != [] && l < |Locals(w, nodes, |nodes|)|
    ensures var e := Locals(w, nodes, |nodes|);
      && j0 < |e| && Select(w, nodes, last) == nodes[e[j0]].addr
      && Calls(w, nodes, last, |e|)[l] == nodes[e[Cyclic(j0, l, |e|)]].addr
  {
    hide Cyclic;
    hide Select;
    hide Locals;
    var e := Locals(w, nodes, |nodes|);
    j0 := FirstLocal(w, nodes, last);
    CyclicCases(j0, 0, |e|);
    if l > 0 {
      CallsRotate(w, nodes, j0, |e| - 1, l - 1);
    }
  }

  /** `host` occurs exactly once in `hs`. */
  ghost predicate Once(hs: seq<Host>, host: Host) {
    exists i :: 0 <= i < |hs| && hs[i] == host && forall l :: 0 <= l < |hs| && hs[l] == host ==> l == i
  }

  /** Any `k` consecutive calls return each of the `k` eligible local nodes exactly once, whatever `last` was. */
  lemma FairRound(w: Wanted, nodes: seq<Node>, last: Host, r: nat)
    requires DistinctAddresses(nodes)
    requires r < |nodes| && Local(w, nodes[r])
    ensures Once(Calls(w, nodes, last, |Locals(w, nodes, |nodes|)|), nodes[r].addr)
  {
    hide Cyclic;
    hide Select;
    hide Locals;
    hide Calls;
    var e := Locals(w, nodes, |nodes|);
    var k, hs := |e|, Calls(w, nodes, last, |e|);
    var j0 := FirstLocal(w, nodes, last);
    var j :| 0 <= j < k && e[j] == r;
    var i := if j >= j0 then j - j0 else k - j0 + j;
    CyclicCases(j0, i, k);
    VisitAt(w, nodes, last, j0, i);
    forall l | 0 <= l < k && hs[l] == nodes[r].addr
      ensures l == i
    {
      CyclicCases(j0, l, k);
      VisitAt(w, nodes, last, j0, l);
    }
  }

  lemma VisitAt(w: Wanted, nodes: seq<Node>, last: Host, j0: nat, l: nat)
    requires DistinctAddresses(nodes)
    requires var e := Locals(w, nodes, |nodes|);
      j0 < |e| && l < |e| && Select(w, nodes, last) == nodes[e[j0]].addr
    ensures var e := Locals(w, nodes, |nodes|);
      Calls(w, nodes, last, |e|)[l] == nodes[e[Cyclic(j0, l, |e|)]].addr
  {
    hide Select;
    hide Locals;
    var j := RoundFrom(w, nodes, last, l);
    assert j == j0;
  }

  /** The first call already lands on a local node. */
  lemma FirstLocal(w: Wanted, nodes: seq<Node>, last: Host) returns (j0: nat)
    requires Locals(w, nodes, |nodes|) != []
    ensures var e := Locals(w, nodes, |nodes|);
      j0 < |e| && Select(w, nodes, last) == nodes[e[j0]].addr
  {
    var e := Locals(w, nodes, |nodes|);
    var hit := Selected(w, nodes, last, e[0]);
    var r := Cyclic(StartIndex(nodes, last), hit, |nodes|);
    assert Local(w, nodes[r]);
    j0 :| 0 <= j0 < |e| && e[j0] == r;
  }

  /** With eligible but no local nodes there is no rotation: once selected, a node is selected for ever. */
  lemma NoRotationWithoutLocals(w: Wanted, nodes: seq<Node>, last: Host)
    requires DistinctAddresses(nodes) && Locals(w, nodes, |nodes|) == []
    requires Select(w, nodes, last) != NoHost
    ensures var h := Select(w, nodes, last); Select(w, nodes, h) == h
  {
    EmptyIffNoneEligible(w, nodes, last);
    var n := |nodes|;
    var r :| 0 <= r < n && Eligible(w, nodes[r]);
    var hit := Selected(w, nodes, last, r);
    var s := Cyclic(StartIndex(nodes, last), hit, n);
    StartsAtOwner(nodes, s);
    var again := Selected(w, nodes, nodes[s].addr, s);
    CyclicCases(s, n, n);
    assert Eligible(w, After(nodes, s, n));
    assert again == n;
  }
}
