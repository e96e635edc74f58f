/** When reconciliation succeeds, what it leaves, and exactly when it goes wrong. */
module ReconciliationLaws {
  import opened Wrappers
  import opened ReplicaNode
  import opened Fairness
  import opened HostReconciliation

  // ----- Sequences as sets -----

  ghost function Elements(s: seq<Host>): set<Host> {
    set x | x in s
  }

  ghost predicate Distinct(s: seq<Host>) {
    forall i, j :: 0 <= i < j < |s| ==> s[i] != s[j]
  }

  lemma ElementsSnoc(s: seq<Host>, x: Host)
    ensures Elements(s + [x]) == Elements(s) + {x} && (x in Elements(s) <==> x in s)
  {
    assert forall y :: y in s + [x] <==> y in s || y == x;
  }

  lemma DistinctSnoc(s: seq<Host>, x: Host)
    ensures Distinct(s + [x]) <==> Distinct(s) && x !in s
  {
    var t := s + [x];
    if Distinct(t) {
      forall i, j | 0 <= i < j < |s|
        ensures s[i] != s[j]
      {
        assert t[i] != t[j];
      }
      forall i | 0 <= i < |s|
        ensures s[i] != x
      {
        assert t[i] != t[|s|];
      }
    }
  }

  /** A sequence has as many elements as entries exactly when it has no repetition. */
  lemma {:induction false} Cardinality(s: seq<Host>)
    ensures |Elements(s)| <= |s|
    ensures |Elements(s)| == |s| <==> Distinct(s)
  {
    if s != [] {
      var t, x := s[..|s| - 1], s[|s| - 1];
      Cardinality(t);
      assert s == t + [x];
      ElementsSnoc(t, x);
      DistinctSnoc(t, x);
      hide Elements;
      hide Distinct;
    }
  }

  // ----- Reported hosts -----

  /** Every entry is a string that parses. */
  predicate WellFormed(hosts: HostList) {
    forall j :: 0 <= j < |hosts| ==> hosts[j].Some? && Parse(hosts[j].value).Success?
  }

  function Reported(hosts: HostList): (s: seq<Host>)
    requires WellFormed(hosts)
    ensures |s| == |hosts|
    ensures forall j :: 0 <= j < |s| ==> s[j] == Parse(hosts[j].value).value
  {
    seq(|hosts|, j requires 0 <= j < |hosts| => Parse(hosts[j].value).value)
  }

  function Addresses(nodes: seq<Node>): (s: seq<Host>)
    ensures |s| == |nodes|
    ensures forall i :: 0 <= i < |s| ==> s[i] == nodes[i].addr
  {
    seq(|nodes|, i requires 0 <= i < |nodes| => nodes[i].addr)
  }

  lemma FindMeans(nodes: seq<Node>, server: string)
    requires Parse(server).Success?
    ensures Find(nodes, server).Success?
    ensures Find(nodes, server).value >= 0 <==> Parse(server).value in Addresses(nodes)
  {
    var h := Parse(server).value;
    if h in Addresses(nodes) {
      var i :| 0 <= i < |nodes| && Addresses(nodes)[i] == h;
    }
  }

  lemma {:induction false} CountKnownMeans(nodes: seq<Node>, hosts: HostList, j: nat)
    requires WellFormed(hosts) && j <= |hosts|
    ensures var r := CountKnown(nodes, hosts, j);
      r.Success? && (r.value.0 <==> exists k :: j <= k < |hosts| && Reported(hosts)[k] !in Addresses(nodes))
    decreases |hosts| - j
  {
    hide Find;
    hide Parse;
    if j < |hosts| {
      FindMeans(nodes, hosts[j].value);
      assert Reported(hosts)[j] == Parse(hosts[j].value).value;
      CountKnownMeans(nodes, hosts, j + 1);
    }
  }

  /** `added` holds exactly the unknown strings and `found` exactly the indices of the known hosts. */
  ghost predicate DiffMeaning(nodes: seq<Node>, hosts: HostList, j: nat, added: seq<string>, found: set<int>)
    requires WellFormed(hosts) && j <= |hosts|
  {
    && (forall s :: s in added ==> exists k :: 0 <= k < j && hosts[k].value == s && Reported(hosts)[k] !in Addresses(nodes))
    && (forall k :: 0 <= k < j && Reported(hosts)[k] !in Addresses(nodes) ==> hosts[k].value in added)
    && (forall i :: i in found ==> 0 <= i < |nodes| && FirstHolder(nodes, i) && nodes[i].addr in Reported(hosts)[..j])
    && (forall i :: 0 <= i < |nodes| && FirstHolder(nodes, i) && nodes[i].addr in Reported(hosts)[..j] ==> i in found)
  }

  /** No earlier node has the address of node `i`. */
  ghost predicate FirstHolder(nodes: seq<Node>, i: int)
    requires 0 <= i < |nodes|
  {
    forall k :: 0 <= k < i ==> nodes[k].addr != nodes[i].addr
  }

  lemma {:induction false} DiffMeans(nodes: seq<Node>, hosts: HostList, j: nat, added: seq<string>, found: set<int>)
    requires WellFormed(hosts) && j <= |hosts| && Ascending(added)
    requires DiffMeaning(nodes, hosts, j, added, found)
    ensures var r := Diff(nodes, hosts, j, added, found);
      r.Success? && DiffMeaning(nodes, hosts, |hosts|, r.value.0, r.value.1)
    decreases |hosts| - j
  {
    hide Parse;
    hide Find;
    hide DiffMeaning;
    if j < |hosts| {
      FindMeans(nodes, hosts[j].value);
      var index := Find(nodes, hosts[j].value).value;
      if index < 0 {
        UnknownMeans(nodes, hosts, j, added, found);
        DiffMeans(nodes, hosts, j + 1, Insert(added, hosts[j].value), found);
      } else {
        KnownMeans(nodes, hosts, j, added, found);
        DiffMeans(nodes, hosts, j + 1, added, found + {index});
      }
    }
  }

  lemma UnknownMeans(nodes: seq<Node>, hosts: HostList, j: nat, added: seq<string>, found: set<int>)
    requires WellFormed(hosts) && j < |hosts| && Ascending(added)
    requires DiffMeaning(nodes, hosts, j, added, found) && Reported(hosts)[j] !in Addresses(nodes)
    ensures DiffMeaning(nodes, hosts, j + 1, Insert(added, hosts[j].value), found)
  {
    hide Parse;
    hide Insert;
    assert Reported(hosts)[..j + 1] == Reported(hosts)[..j] + [Reported(hosts)[j]];
  }

  lemma KnownMeans(nodes: seq<Node>, hosts: HostList, j: nat, added: seq<string>, found: set<int>)
    requires WellFormed(hosts) && j < |hosts|
    requires DiffMeaning(nodes, hosts, j, added, found)
    requires Find(nodes, hosts[j].value).Success? && Find(nodes, hosts[j].value).value >= 0
    ensures DiffMeaning(nodes, hosts, j + 1, added, found + {Find(nodes, hosts[j].value).value})
  {
    hide Parse;
    FoundFirst(nodes, hosts[j].value);
    FindMeans(nodes, hosts[j].value);
    hide Find;
    assert Reported(hosts)[..j + 1] == Reported(hosts)[..j] + [Reported(hosts)[j]];
  }

  lemma FoundFirst(nodes: seq<Node>, server: string)
    requires var r := Find(nodes, server); r.Success? && r.value >= 0
    ensures var i := Find(nodes, server).value;
      FirstHolder(nodes, i) && Parse(server) == Success(nodes[i].addr)
      && forall k :: 0 <= k < |nodes| && FirstHolder(nodes, k) && nodes[k].addr == nodes[i].addr ==> k == i
  {
  }

  // ----- Survivors -----

  /** The old indices of the survivors. */
  function KeptIndices(nodes: seq<Node>, found: set<int>, i: nat): seq<int>
    requires i <= |nodes|
    decreases |nodes| - i
  {
    if i == |nodes| then []
    else (if i in found then [i as int] else []) + KeptIndices(nodes, found, i + 1)
  }

  /** `e` lists, in ascending order, the indices from `i` on that are in `found`, and `kept` the nodes there. */
  ghost predicate Survivors(nodes: seq<Node>, found: set<int>, i: nat, e: seq<int>, kept: seq<Node>) {
    && |e| == |kept|
    && (forall p :: 0 <= p < |e| ==> i <= e[p] < |nodes| && e[p] in found && kept[p] == nodes[e[p]])
    && (forall p, q :: 0 <= p < q < |e| ==> e[p] < e[q])
    && (forall k :: i <= k < |nodes| && k in found ==> k in e)
  }

  lemma {:induction false} KeptSurvive(nodes: seq<Node>, found: set<int>, i: nat)
    requires i <= |nodes|
    ensures Survivors(nodes, found, i, KeptIndices(nodes, found, i), Keep(nodes, found, i))
    decreases |nodes| - i
  {
    if i < |nodes| {
      hide Survivors;
      KeptSurvive(nodes, found, i + 1);
      var e, kept := KeptIndices(nodes, found, i + 1), Keep(nodes, found, i + 1);
      if i in found {
        SurvivorsStep(nodes, found, i, e, kept);
      } else {
        SurvivorsSkip(nodes, found, i, e, kept);
        assert [] + e == e && [] + kept == kept;
      }
    }
  }

  lemma SurvivorsSkip(nodes: seq<Node>, found: set<int>, i: nat, e: seq<int>, kept: seq<Node>)
    requires i < |nodes| && i !in found && Survivors(nodes, found, i + 1, e, kept)
    ensures Survivors(nodes, found, i, e, kept)
  {
  }

  lemma SurvivorsStep(nodes: seq<Node>, found: set<int>, i: nat, e: seq<int>, kept: seq<Node>)
    requires i < |nodes| && i in found && Survivors(nodes, found, i + 1, e, kept)
    ensures Survivors(nodes, found, i, [i as int] + e, [nodes[i]] + kept)
  {
    var e', kept' := [i as int] + e, [nodes[i]] + kept;
    forall p | 0 <= p < |e'|
      ensures i <= e'[p] < |nodes| && e'[p] in found && kept'[p] == nodes[e'[p]] && (0 < p ==> i < e'[p])
    {
      if p > 0 {
        assert e'[p] == e[p - 1] && kept'[p] == kept[p - 1];
      }
    }
    forall p, q | 0 <= p < q < |e'|
      ensures e'[p] < e'[q]
    {
      if p > 0 {
        assert e'[p] == e[p - 1] && e'[q] == e[q - 1];
      }
    }
    forall k | i <= k < |nodes| && k in found
      ensures k in e'
    {
      assert e'[0] == i;
      if k != i {
        var p :| 0 <= p < |e| && e[p] == k;
        assert e'[p + 1] == k;
      }
    }
  }

  /** `added` gives one node per string, behind the nodes already there. */
  ghost predicate Appended(nodes: seq<Node>, added: seq<string>, after: seq<Node>) {
    && |after| == |nodes| + |added|
    && (forall i :: 0 <= i < |nodes| ==> after[i] == nodes[i])
    && (forall i :: |nodes| <= i < |after| ==> Parse(added[i - |nodes|]) == Success(after[i].addr))
  }

  lemma {:induction false} AddAllAppends(nodes: seq<Node>, added: seq<string>)
    requires forall s :: s in added ==> Parse(s).Success?
    ensures AddAll(nodes, added).Changed? && Appended(nodes, added, AddAll(nodes, added).nodes)
    decreases |added|
  {
    hide Parse;
    hide Appended;
    if added == [] {
      AppendedNone(nodes);
    } else {
      assert added[0] in added;
      var h := Parse(added[0]).value;
      var more := nodes + [NewNode(h, ConnectionName(h))];
      AddAllAppends(more, added[1..]);
      AppendedOne(nodes, added, more, AddAll(more, added[1..]).nodes);
    }
  }

  lemma AppendedNone(nodes: seq<Node>)
    ensures Appended(nodes, [], nodes)
  {
    hide Parse;
  }

  lemma AppendedOne(nodes: seq<Node>, added: seq<string>, more: seq<Node>, after: seq<Node>)
    requires added != [] && Appended(more, added[1..], after)
    requires |more| == |nodes| + 1 && more[..|nodes|] == nodes && Parse(added[0]) == Success(more[|nodes|].addr)
    ensures Appended(nodes, added, after)
  {
    hide Parse;
    forall i | |nodes| < i < |after|
      ensures Parse(added[i - |nodes|]) == Success(after[i].addr)
    {
      assert added[i - |nodes|] == added[1..][i - |more|];
    }
  }

  // ----- The laws -----

  /** Two different unknown strings never name the same address. */
  ghost predicate NoAliases(nodes: seq<Node>, hosts: HostList)
    requires WellFormed(hosts)
  {
    forall i, j :: 0 <= i < |hosts| && 0 <= j < |hosts| && hosts[i] != hosts[j] && Reported(hosts)[i] !in Addresses(nodes) ==>
      Reported(hosts)[i] != Reported(hosts)[j]
  }

  /** Which of the three outcomes occurs, in terms of the two lists alone. */
  lemma WhichOutcome(nodes: seq<Node>, hosts: HostList)
    requires WellFormed(hosts)
    ensures var known := forall k :: 0 <= k < |hosts| ==> Reported(hosts)[k] in Addresses(nodes);
      && (Reconcile(nodes, hosts).Unchanged? <==> hosts == [] || (known && |hosts| == |nodes|))
      && (Reconcile(nodes, hosts).Threw? <==>
            hosts != [] && known && |hosts| != |nodes|
            && forall i :: 0 <= i < |nodes| ==> FirstHolder(nodes, i) && nodes[i].addr in Reported(hosts))
  {
    hide Parse;
    hide Find;
    hide DiffMeaning;
    hide Insert;
    CountKnownMeans(nodes, hosts, 0);
    DiffStarts(nodes, hosts);
    DiffMeans(nodes, hosts, 0, [], {});
    var (added, found) := Diff(nodes, hosts, 0, [], {}).value;
    AddedParse(nodes, hosts, added, found);
    AddAllParses(Keep(nodes, found, 0), added);
    ReconcileCases(nodes, hosts, added, found);
    hide Reconcile;
    hide CountKnown;
    hide Diff;
    hide AddAll;
    hide Keep;
    NothingNew(nodes, hosts, added, found);
  }

  lemma ReconcileCases(nodes: seq<Node>, hosts: HostList, added: seq<string>, found: set<int>)
    requires CountKnown(nodes, hosts, 0).Success? && Diff(nodes, hosts, 0, [], {}) == Success((added, found))
    requires AddAll(Keep(nodes, found, 0), added).Changed?
    ensures var (r, (changed, counted)) := (Reconcile(nodes, hosts), CountKnown(nodes, hosts, 0).value);
      && (r.Unchanged? <==> counted == 0 || (!changed && |nodes| == counted))
      && (r.Threw? <==> !r.Unchanged? && added == [] && forall i :: 0 <= i < |nodes| ==> i in found)
  {
    hide CountKnown;
    hide Diff;
    hide AddAll;
    hide Keep;
  }

  lemma NothingNew(nodes: seq<Node>, hosts: HostList, added: seq<string>, found: set<int>)
    requires WellFormed(hosts) && DiffMeaning(nodes, hosts, |hosts|, added, found)
    ensures added == [] <==> forall k :: 0 <= k < |hosts| ==> Reported(hosts)[k] in Addresses(nodes)
    ensures (forall i :: 0 <= i < |nodes| ==> i in found)
      <==> forall i :: 0 <= i < |nodes| ==> FirstHolder(nodes, i) && nodes[i].addr in Reported(hosts)
  {
    hide Parse;
    assert Reported(hosts)[..|hosts|] == Reported(hosts);
    if added != [] {
      assert added[0] in added;
    }
  }

  /**
   * A change leaves exactly the reported addresses: first the survivors in their old order, then the new hosts.
   * The new list is free of duplicates exactly when no two different new strings alias one address.
   */
  lemma ChangedList(nodes: seq<Node>, hosts: HostList) returns (kept: seq<int>)
    requires WellFormed(hosts) && Reconcile(nodes, hosts).Changed?
    ensures var after := Reconcile(nodes, hosts).nodes;
      && Elements(Addresses(after)) == Elements(Reported(hosts))
      && (DistinctAddresses(after) <==> NoAliases(nodes, hosts))
      && |kept| <= |after|
      && (forall p :: 0 <= p < |kept| ==> 0 <= kept[p] < |nodes| && after[p] == nodes[kept[p]])
      && (forall p, q :: 0 <= p < q < |kept| ==> kept[p] < kept[q])
      && (forall p :: |kept| <= p < |after| ==> after[p].addr !in Addresses(nodes))
  {
    hide Parse;
    hide Find;
    hide AddAll;
    hide NoAliases;
    hide DiffMeaning;
    hide Insert;
    CountKnownMeans(nodes, hosts, 0);
    DiffStarts(nodes, hosts);
    DiffMeans(nodes, hosts, 0, [], {});
    var (added, found) := Diff(nodes, hosts, 0, [], {}).value;
    hide Diff;
    AddedParse(nodes, hosts, added, found);
    AddAllAppends(Keep(nodes, found, 0), added);
    kept := KeptIndices(nodes, found, 0);
    KeptSurvive(nodes, found, 0);
    var after := Reconcile(nodes, hosts).nodes;
    assert after == AddAll(Keep(nodes, found, 0), added).nodes;
    hide Reconcile;
    ShapeHolds(nodes, hosts, added, found, kept, after);
    SameAddresses(nodes, hosts, added, found, kept, after);
    DistinctIff(nodes, hosts, added, found, kept, after);
    hide Keep;
  }

  lemma DiffStarts(nodes: seq<Node>, hosts: HostList)
    requires WellFormed(hosts)
    ensures DiffMeaning(nodes, hosts, 0, [], {})
  {
    hide Parse;
  }

  lemma AddedParse(nodes: seq<Node>, hosts: HostList, added: seq<string>, found: set<int>)
    requires WellFormed(hosts) && DiffMeaning(nodes, hosts, |hosts|, added, found)
    ensures forall s :: s in added ==> Parse(s).Success?
  {
    hide Parse;
  }

  lemma ShapeHolds(nodes: seq<Node>, hosts: HostList, added: seq<string>, found: set<int>, kept: seq<int>, after: seq<Node>)
    requires WellFormed(hosts) && DiffMeaning(nodes, hosts, |hosts|, added, found) && Ascending(added)
    requires Survivors(nodes, found, 0, kept, Keep(nodes, found, 0)) && Appended(Keep(nodes, found, 0), added, after)
    ensures Shape(nodes, hosts, added, found, kept, after)
  {
    hide Parse;
    hide Ascending;
    hide Keep;
    assert Reported(hosts)[..|hosts|] == Reported(hosts);
    forall k | k in found
      ensures k in kept
    {
      assert DiffMeaning(nodes, hosts, |hosts|, added, found);
    }
    hide DiffMeaning;
  }

  ghost predicate Shape(nodes: seq<Node>, hosts: HostList, added: seq<string>, found: set<int>, kept: seq<int>, after: seq<Node>)
    requires WellFormed(hosts)
  {
    && DiffMeaning(nodes, hosts, |hosts|, added, found) && Reported(hosts)[..|hosts|] == Reported(hosts)
    && Ascending(added)
    && |after| == |kept| + |added|
    && (forall p :: 0 <= p < |kept| ==> 0 <= kept[p] < |nodes| && kept[p] in found && after[p] == nodes[kept[p]])
    && (forall p, q :: 0 <= p < q < |kept| ==> kept[p] < kept[q])
    && (forall k :: k in found ==> k in kept)
    && (forall p :: |kept| <= p < |after| ==> Parse(added[p - |kept|]) == Success(after[p].addr))
  }

  lemma SameAddresses(nodes: seq<Node>, hosts: HostList, added: seq<string>, found: set<int>, kept: seq<int>, after: seq<Node>)
    requires WellFormed(hosts) && Shape(nodes, hosts, added, found, kept, after)
    ensures Elements(Addresses(after)) == Elements(Reported(hosts))
    ensures forall p :: |kept| <= p < |after| ==> after[p].addr !in Addresses(nodes)
  {
    hide Parse;
    var a, r := Addresses(after), Reported(hosts);
    forall p | 0 <= p < |after|
      ensures a[p] in r && (p >= |kept| ==> a[p] !in Addresses(nodes))
    {
      if p >= |kept| {
        assert added[p - |kept|] in added;
        assert after[|kept| + (p - |kept|)] == after[p];
      }
    }
    forall j | 0 <= j < |r|
      ensures r[j] in a
    {
      if r[j] in Addresses(nodes) {
        var i := FirstOf(nodes, r[j]);
        assert i in found;
        var p :| 0 <= p < |kept| && kept[p] == i;
        assert a[p] == r[j];
      } else {
        var p :| 0 <= p < |added| && added[p] == hosts[j].value;
        assert a[|kept| + p] == r[j];
      }
    }
  }

  lemma FirstOf(nodes: seq<Node>, h: Host) returns (i: int)
    requires h in Addresses(nodes)
    ensures 0 <= i < |nodes| && nodes[i].addr == h && FirstHolder(nodes, i)
  {
    i := 0;
    while nodes[i].addr != h
      invariant 0 <= i < |nodes| && forall k :: 0 <= k < i ==> nodes[k].addr != h
      invariant h in Addresses(nodes)[i..]
      decreases |nodes| - i
    {
      assert Addresses(nodes)[i..] == [nodes[i].addr] + Addresses(nodes)[i + 1..];
      i := i + 1;
    }
  }

  lemma DistinctIff(nodes: seq<Node>, hosts: HostList, added: seq<string>, found: set<int>, kept: seq<int>, after: seq<Node>)
    requires WellFormed(hosts) && Shape(nodes, hosts, added, found, kept, after)
    ensures DistinctAddresses(after) <==> NoAliases(nodes, hosts)
  {
    hide Parse;
    hide Shape;
    if NoAliases(nodes, hosts) {
      forall p, q | 0 <= p < q < |after|
        ensures after[p].addr != after[q].addr
      {
        PairDiffers(nodes, hosts, added, found, kept, after, p, q);
      }
    } else {
      var i, j :| 0 <= i < |hosts| && 0 <= j < |hosts| && hosts[i] != hosts[j]
        && Reported(hosts)[i] !in Addresses(nodes) && Reported(hosts)[i] == Reported(hosts)[j];
      AliasDoubles(nodes, hosts, added, found, kept, after, i, j);
    }
  }

  lemma AliasDoubles(nodes: seq<Node>, hosts: HostList, added: seq<string>, found: set<int>, kept: seq<int>, after: seq<Node>,
    i: nat, j: nat)
    requires WellFormed(hosts) && Shape(nodes, hosts, added, found, kept, after)
    requires i < |hosts| && j < |hosts| && hosts[i] != hosts[j]
    requires Reported(hosts)[i] !in Addresses(nodes) && Reported(hosts)[i] == Reported(hosts)[j]
    ensures !DistinctAddresses(after)
  {
    hide Parse;
    var p :| 0 <= p < |added| && added[p] == hosts[i].value;
    var q :| 0 <= q < |added| && added[q] == hosts[j].value;
    assert after[|kept| + p].addr == Reported(hosts)[i] && after[|kept| + q].addr == Reported(hosts)[j] by {
      assert added[|kept| + p - |kept|] == hosts[i].value && added[|kept| + q - |kept|] == hosts[j].value;
    }
  }

  lemma PairDiffers(nodes: seq<Node>, hosts: HostList, added: seq<string>, found: set<int>, kept: seq<int>, after: seq<Node>,
    p: nat, q: nat)
    requires WellFormed(hosts) && Shape(nodes, hosts, added, found, kept, after)
    requires NoAliases(nodes, hosts) && p < q < |after|
    ensures after[p].addr != after[q].addr
  {
    hide Parse;
    if q < |kept| {
      assert FirstHolder(nodes, kept[q]);
    } else if p < |kept| {
      SameAddresses(nodes, hosts, added, found, kept, after);
      assert after[p].addr == Addresses(nodes)[kept[p]];
    } else {
      NewDiffer(nodes, hosts, added, found, kept, after, p, q);
    }
  }

  lemma NewDiffer(nodes: seq<Node>, hosts: HostList, added: seq<string>, found: set<int>, kept: seq<int>, after: seq<Node>, p: nat, q: nat)
    requires WellFormed(hosts) && Shape(nodes, hosts, added, found, kept, after)
    requires NoAliases(nodes, hosts) && |kept| <= p < q < |after|
    ensures after[p].addr != after[q].addr
  {
    hide Parse;
    var x, y := added[p - |kept|], added[q - |kept|];
    assert x in added && y in added;
    assert after[|kept| + (p - |kept|)] == after[p] && after[|kept| + (q - |kept|)] == after[q];
    BeforeIrreflexive(x);
    var i :| 0 <= i < |hosts| && hosts[i].value == x && Reported(hosts)[i] !in Addresses(nodes);
    var j :| 0 <= j < |hosts| && hosts[j].value == y && Reported(hosts)[j] !in Addresses(nodes);
    assert hosts[i] != hosts[j];
  }

  /** On duplicate-free lists nothing goes wrong: no throw, and no change exactly when the two sets agree. */
  lemma DuplicateFree(nodes: seq<Node>, hosts: HostList)
    requires WellFormed(hosts) && hosts != []
    requires DistinctAddresses(nodes) && Distinct(Reported(hosts))
    ensures !Reconcile(nodes, hosts).Threw?
    ensures Reconcile(nodes, hosts).Unchanged? <==> Elements(Addresses(nodes)) == Elements(Reported(hosts))
    ensures Reconcile(nodes, hosts).Changed? ==> DistinctAddresses(Reconcile(nodes, hosts).nodes)
  {
    hide Parse;
    hide Reconcile;
    WhichOutcome(nodes, hosts);
    var a, r := Addresses(nodes), Reported(hosts);
    assert Distinct(a);
    Cardinality(a);
    Cardinality(r);
    KnownIsSubset(nodes, hosts);
    ListedIsSubset(nodes, hosts);
    assert Elements(a) == Elements(r) ==> |a| == |r|;
    if |a| == |r| && Elements(r) <= Elements(a) {
      SubsetOfSameSize(Elements(r), Elements(a));
    }
    if Reconcile(nodes, hosts).Changed? {
      var kept := ChangedList(nodes, hosts);
    }
  }

  lemma KnownIsSubset(nodes: seq<Node>, hosts: HostList)
    requires WellFormed(hosts)
    ensures (forall k :: 0 <= k < |hosts| ==> Reported(hosts)[k] in Addresses(nodes))
      <==> Elements(Reported(hosts)) <= Elements(Addresses(nodes))
  {
    hide Parse;
    if Elements(Reported(hosts)) <= Elements(Addresses(nodes)) {
      forall k | 0 <= k < |hosts|
        ensures Reported(hosts)[k] in Addresses(nodes)
      {
        assert Reported(hosts)[k] in Elements(Reported(hosts));
      }
    }
  }

  lemma ListedIsSubset(nodes: seq<Node>, hosts: HostList)
    requires WellFormed(hosts)
    ensures (forall i :: 0 <= i < |nodes| ==> nodes[i].addr in Reported(hosts))
      <==> Elements(Addresses(nodes)) <= Elements(Reported(hosts))
  {
    hide Parse;
    if Elements(Addresses(nodes)) <= Elements(Reported(hosts)) {
      forall i | 0 <= i < |nodes|
        ensures nodes[i].addr in Reported(hosts)
      {
        assert Addresses(nodes)[i] in Elements(Addresses(nodes));
      }
    }
  }

  lemma SubsetOfSameSize(s: set<Host>, t: set<Host>)
    requires s <= t && |s| == |t|
    ensures s == t
  {
    assert |t - s| == |t| - |s|;
  }

  /** On a duplicate-free node list the `verify` fails exactly when a member reports the current set with a host repeated. */
  lemma VerifyFailsIff(nodes: seq<Node>, hosts: HostList)
    requires WellFormed(hosts) && DistinctAddresses(nodes)
    ensures Reconcile(nodes, hosts).Threw?
      <==> Elements(Addresses(nodes)) == Elements(Reported(hosts)) && !Distinct(Reported(hosts))
  {
    hide Parse;
    hide Reconcile;
    WhichOutcome(nodes, hosts);
    var a, r := Addresses(nodes), Reported(hosts);
    assert Distinct(a);
    Cardinality(a);
    Cardinality(r);
    KnownIsSubset(nodes, hosts);
    ListedIsSubset(nodes, hosts);
    assert forall i :: 0 <= i < |nodes| ==> FirstHolder(nodes, i);
    assert Elements(a) == Elements(r) ==> (|a| != |r| <==> !Distinct(r));
    if Elements(a) == Elements(r) && !Distinct(r) {
      assert hosts != [];
    }
  }

  /** A departed member is overlooked exactly when all reported hosts are known, one is repeated, and the lengths agree. */
  lemma OverlookedIff(nodes: seq<Node>, hosts: HostList)
    requires WellFormed(hosts) && DistinctAddresses(nodes) && hosts != []
    ensures Reconcile(nodes, hosts).Unchanged? && Elements(Addresses(nodes)) != Elements(Reported(hosts))
      <==> Elements(Reported(hosts)) <= Elements(Addresses(nodes)) && |hosts| == |nodes| && !Distinct(Reported(hosts))
  {
    hide Parse;
    hide Reconcile;
    WhichOutcome(nodes, hosts);
    var a, r := Addresses(nodes), Reported(hosts);
    assert Distinct(a);
    Cardinality(a);
    Cardinality(r);
    KnownIsSubset(nodes, hosts);
    if Elements(r) <= Elements(a) && |Elements(r)| == |Elements(a)| {
      SubsetOfSameSize(Elements(r), Elements(a));
    }
  }

  // ----- What it takes to go wrong -----

  /** The listed node for a host name with the default port. */
  function Plain(name: string): Node {
    var h := At(name, DEFAULT_PORT);
    NewNode(h, ConnectionName(h))
  }

  lemma ParsesPlain()
    ensures Parse("a") == Success(At("a", DEFAULT_PORT))
  {
    assert LastIndex("a", ':') == None;
    hide LastIndex;
    hide AToI;
  }

  /** The name alone and the name with its port are two spellings of one address. */
  lemma OtherSpelling()
    ensures Parse(Plain("a").conn) == Parse("a") && Plain("a").conn != "a"
  {
    ParsesPlain();
    AddressRoundTrip(At("a", DEFAULT_PORT));
    hide Parse;
    assert Plain("a").conn[1] == ':';
  }

  /** A member that reports the only host twice makes the `verify` fail. */
  lemma RepeatedHostThrows()
    ensures Reconcile([Plain("a")], [Some("a"), Some("a")]).Threw?
  {
    ParsesPlain();
    hide Parse;
    hide Reconcile;
    var nodes, hosts := [Plain("a")], [Some("a"), Some("a")];
    assert Reported(hosts)[0] == Reported(hosts)[1] == Addresses(nodes)[0];
    VerifyFailsIff(nodes, hosts);
  }

  /** With two hosts listed, a report that names one of them twice leaves the other in place. */
  lemma RepeatedHostHidesDeparture()
    ensures var hosts := [Some("a"), Some("a")];
      WellFormed(hosts) && Plain("b").addr !in Reported(hosts) && Reconcile([Plain("a"), Plain("b")], hosts).Unchanged?
  {
    ParsesPlain();
    hide Parse;
    hide Reconcile;
    var nodes, hosts := [Plain("a"), Plain("b")], [Some("a"), Some("a")];
    assert Reported(hosts)[0] == Reported(hosts)[1] == Addresses(nodes)[0];
    WhichOutcome(nodes, hosts);
  }

  /** Two spellings of one new host, `a` and `a:27017`, are listed as two nodes. */
  lemma TwoSpellingsTwoNodes()
    ensures var r := Reconcile([], [Some("a"), Some(Plain("a").conn)]); r.Changed? && !DistinctAddresses(r.nodes)
  {
    ParsesPlain();
    OtherSpelling();
    hide Parse;
    hide Plain;
    hide Reconcile;
    var hosts := [Some("a"), Some(Plain("a").conn)];
    assert Reported(hosts)[0] == Reported(hosts)[1] && Reported(hosts)[0] !in Addresses([]) && hosts[0] != hosts[1];
    assert !NoAliases([], hosts);
    WhichOutcome([], hosts);
    var kept := ChangedList([], hosts);
  }

  /** Whatever the list contains, a throw never leaves the master index outside the node list. */
  lemma ThrowKeepsMasterInRange(nodes: seq<Node>, hosts: HostList, master: int)
    requires -1 <= master < |nodes| && Reconcile(nodes, hosts).Threw?
    ensures -1 <= master < |Reconcile(nodes, hosts).nodes|
    ensures nodes != [] ==> Reconcile(nodes, hosts).nodes == nodes
  {
    var d := Diff(nodes, hosts, 0, [], {});
    if d.Success? {
      KeptAreKnown(nodes, hosts, d.value.0, d.value.1);
      AddAllParses(Keep(nodes, d.value.1, 0), d.value.0);
    }
  }

  // ----- Duplicates come from aliases only -----

  predicate IsAddress(entry: Option<string>) {
    entry.Some? && Parse(entry.value).Success?
  }

  /** Different strings that parse name different addresses. */
  ghost predicate Clean(hosts: HostList) {
    forall i, j :: 0 <= i < |hosts| && 0 <= j < |hosts| && IsAddress(hosts[i]) && IsAddress(hosts[j]) && hosts[i] != hosts[j] ==>
      Parse(hosts[i].value) != Parse(hosts[j].value)
  }

  /** A reported string that names no node of the list. */
  ghost predicate Unknown(nodes: seq<Node>, hosts: HostList, x: string) {
    Some(x) in hosts && forall i :: 0 <= i < |nodes| ==> Parse(x) != Success(nodes[i].addr)
  }

  lemma {:induction false} DiffUnknown(nodes: seq<Node>, hosts: HostList, j: nat, added: seq<string>, found: set<int>)
    requires j <= |hosts| && Ascending(added) && forall x :: x in added ==> Unknown(nodes, hosts, x)
    ensures var r := Diff(nodes, hosts, j, added, found); r.Success? ==> forall x :: x in r.value.0 ==> Unknown(nodes, hosts, x)
    decreases |hosts| - j
  {
    hide Parse;
    hide Insert;
    hide IndexOf;
    if j < |hosts| {
      var index := FindEntry(nodes, hosts[j]);
      if index.Success? && index.value < 0 {
        assert hosts[j] in hosts && hosts[j] == Some(hosts[j].value);
        hide Unknown;
        DiffUnknown(nodes, hosts, j + 1, Insert(added, hosts[j].value), found);
      } else if index.Success? {
        DiffUnknown(nodes, hosts, j + 1, added, found + {index.value});
      }
    }
  }

  lemma AscendingRest(added: seq<string>)
    requires Ascending(added) && added != []
    ensures Ascending(added[1..]) && added[0] !in added[1..]
  {
    forall x | x in added[1..]
      ensures x != added[0]
    {
      BeforeIrreflexive(x);
    }
  }

  lemma UnknownDiffer(hosts: HostList, x: string, y: string)
    requires Clean(hosts) && Some(x) in hosts && Some(y) in hosts && x != y && Parse(x).Success?
    ensures Parse(x) != Parse(y)
  {
    hide Parse;
    var i :| 0 <= i < |hosts| && hosts[i] == Some(x);
    var j :| 0 <= j < |hosts| && hosts[j] == Some(y);
  }

  /** Adding unknown hosts, however far it gets, doubles no address. */
  lemma {:induction false} AddAllDistinct(nodes: seq<Node>, hosts: HostList, added: seq<string>)
    requires DistinctAddresses(nodes) && Clean(hosts) && Ascending(added)
    requires forall x :: x in added ==> Unknown(nodes, hosts, x)
    ensures DistinctAddresses(AddAll(nodes, added).nodes)
    decreases |added|
  {
    hide Parse;
    hide Clean;
    hide ConnectionName;
    if added != [] {
      assert added[0] in added;
      if Parse(added[0]).Success? {
        var h := Parse(added[0]).value;
        var more := nodes + [NewNode(h, ConnectionName(h))];
        AscendingRest(added);
        forall x | x in added[1..]
          ensures Unknown(more, hosts, x)
        {
          assert x in added;
          UnknownDiffer(hosts, added[0], x);
        }
        hide Unknown;
        hide Ascending;
        AddAllDistinct(more, hosts, added[1..]);
      }
    }
  }

  lemma KeepDistinct(nodes: seq<Node>, found: set<int>)
    requires DistinctAddresses(nodes)
    ensures DistinctAddresses(Keep(nodes, found, 0))
    ensures forall x, hosts :: Unknown(nodes, hosts, x) ==> Unknown(Keep(nodes, found, 0), hosts, x)
  {
    hide Parse;
    KeptSurvive(nodes, found, 0);
    hide Keep;
  }

  /** Whether the check changes the list or throws, a list without duplicates stays so unless two reported strings alias one address. */
  lemma NoAliasesNoDuplicates(nodes: seq<Node>, hosts: HostList)
    requires DistinctAddresses(nodes) && Clean(hosts)
    ensures var r := Reconcile(nodes, hosts); !r.Unchanged? ==> DistinctAddresses(r.nodes)
  {
    hide Parse;
    hide ShouldChange;
    hide AddAll;
    hide DistinctAddresses;
    hide Unknown;
    var d := Diff(nodes, hosts, 0, [], {});
    DiffUnknown(nodes, hosts, 0, [], {});
    if d.Success? {
      hide Diff;
      KeepDistinct(nodes, d.value.1);
      AddAllDistinct(Keep(nodes, d.value.1, 0), hosts, d.value.0);
    }
  }
}
