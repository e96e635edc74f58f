/** Round-robin selection of a node, and how fair it is. */
module NodeSelection {
  import opened Bytes
  import opened ReplicaNode

  /** What `_selectNode` is asked for. */
  datatype Wanted = Wanted(tag: Criteria, secOnly: bool, threshold: int)

  ghost predicate Eligible(w: Wanted, n: Node) {
    n.ok && (w.secOnly ==> n.OkForSecondaryQueries()) && n.Matches(w.tag)
  }

  ghost predicate Local(w: Wanted, n: Node) {
    Eligible(w, n) && n.IsLocalSecondary(w.threshold)
  }

  /** The first index holding `last`, or 0. */
  function StartIndex(nodes: seq<Node>, last: Host): (r: nat)
    ensures nodes != [] ==> r < |nodes|
  {
    if exists i :: 0 <= i < |nodes| && nodes[i].addr == last then FirstIndex(nodes, last, 0) else 0
  }

  function FirstIndex(nodes: seq<Node>, last: Host, from: nat): (r: nat)
    requires exists i :: from <= i < |nodes| && nodes[i].addr == last
    ensures from <= r < |nodes| && nodes[r].addr == last
    ensures forall i :: from <= i < r ==> nodes[i].addr != last
    decreases |nodes| - from
  {
    if nodes[from].addr == last then from else FirstIndex(nodes, last, from + 1)
  }

  /** The index `i` places after `s` in the cyclic order of `n` indices. */
  function Cyclic(s: nat, i: nat, n: nat): (r: nat)
    requires n > 0
    ensures r < n
  {
    (s + i) % n
  }

  function After(nodes: seq<Node>, s: nat, i: nat): Node
    requires nodes != []
  {
    nodes[Cyclic(s, i, |nodes|)]
  }

  /** What visiting offsets `i` to `|nodes|` in turn yields, having `fallback` already. */
  ghost function Scan(w: Wanted, nodes: seq<Node>, s: nat, i: nat, fallback: Host): Host
    requires nodes != []
    decreases |nodes| + 1 - i
  {
    if i > |nodes| then fallback
    else
      var n := After(nodes, s, i);
      if Local(w, n) then n.addr
      else Scan(w, nodes, s, i + 1, if Eligible(w, n) then n.addr else fallback)
  }

  ghost function Select(w: Wanted, nodes: seq<Node>, last: Host): Host {
    if nodes == [] then NoHost else Scan(w, nodes, StartIndex(nodes, last), 1, NoHost)
  }

  /** The first loop: where the search starts. */
  method FindStart(nodes: seq<Node>, lastHost: Host) returns (start: nat)
    ensures start == StartIndex(nodes, lastHost)
  {
    start := 0;
    if lastHost != NoHost {
      for x := 0 to |nodes|
        invariant start == 0 && forall i :: 0 <= i < x ==> nodes[i].addr != lastHost
      {
        if lastHost == nodes[x].addr {
          return x;
        }
      }
    }
  }

  function Next(i: nat, n: nat): (r: nat)
    requires n > 0
    ensures r < n
  {
    (i + 1) % n
  }

  /** `_selectNode`; `lastHost'` is the new value of the in/out argument. */
  method SelectNode(w: Wanted, nodes: seq<Node>, lastHost: Host) returns (host: Host, lastHost': Host)
    ensures host == Select(w, nodes, lastHost)
    ensures lastHost' == if host == NoHost then lastHost else host
  {
    hide Next;
    hide Cyclic;
    hide StartIndex;
    hide Scan;
    host := NoHost;
    var next := FindStart(nodes, lastHost);
    ghost var s := next;
    if nodes != [] {
      CyclicStart(s, |nodes|);
    }
    for it := 0 to |nodes|
      invariant nodes != [] ==> next == Cyclic(s, it, |nodes|)
      invariant nodes != [] ==> Scan(w, nodes, s, it + 1, host) == Select(w, nodes, lastHost)
      invariant nodes == [] ==> host == NoHost
    {
      CyclicStep(s, it, |nodes|);
      ScanStep(w, nodes, s, it + 1, host);
      next := Next(next, |nodes|);
      var node := nodes[next];
      if !node.ok {
        continue;
      }
      if w.secOnly && !node.OkForSecondaryQueries() {
        continue;
      }
      var matched := node.MatchesTag(w.tag);
      if matched {
        host := node.addr;
        if node.IsLocalSecondary(w.threshold) {
          return host, host;
        }
      }
    }
    if nodes != [] {
      ScanEnd(w, nodes, s, host);
    }
    lastHost' := if host != NoHost then host else lastHost;
  }

  lemma ScanStep(w: Wanted, nodes: seq<Node>, s: nat, i: nat, fallback: Host)
    requires nodes != [] && i <= |nodes|
    ensures var n := After(nodes, s, i);
      Scan(w, nodes, s, i, fallback)
      == if Local(w, n) then n.addr else Scan(w, nodes, s, i + 1, if Eligible(w, n) then n.addr else fallback)
  {
    hide Cyclic;
  }

  lemma ScanEnd(w: Wanted, nodes: seq<Node>, s: nat, fallback: Host)
    requires nodes != []
    ensures Scan(w, nodes, s, |nodes| + 1, fallback) == fallback
  {
  }

  lemma CyclicStart(s: nat, n: nat)
    requires s < n
    ensures Cyclic(s, 0, n) == s
  {
  }

  lemma CyclicStep(s: nat, i: nat, n: nat)
    requires n > 0
    ensures Next(Cyclic(s, i, n), n) == Cyclic(s, i + 1, n)
  {
    ModStep(s + i, n);
  }

  lemma ModStep(a: nat, n: nat)
    requires n > 0
    ensures (a % n + 1) % n == (a + 1) % n
  {
    var q, r := a / n, a % n;
    assert a == n * q + r;
    if r + 1 < n {
      ModIs(a + 1, n, q, r + 1);
      ModIs(r + 1, n, 0, r + 1);
    } else {
      ModIs(a + 1, n, q + 1, 0);
      ModIs(n, n, 1, 0);
    }
  }

  lemma ModIs(a: int, n: int, q: int, r: int)
    requires 0 <= r < n && a == n * q + r
    ensures a % n == r && a / n == q
  {
    var q', r' := a / n, a % n;
    if q' < q {
      ProductGap(n, q', q);
    } else if q < q' {
      ProductGap(n, q, q');
    }
  }
}
