/** Bringing the node list in line with the hosts a member reports. */
module HostReconciliation {
  import opened Wrappers
  import opened ReplicaNode

  const NOT_A_STRING := 13111
  const VERIFY_FAILED := -2

  /** An entry of the reported list; `None` is an entry that is not a string. */
  type HostList = seq<Option<string>>

  // ----- Ordered sets of strings -----

  predicate Before(a: string, b: string) {
    b != "" && (a == "" || a[0] < b[0] || (a[0] == b[0] && Before(a[1..], b[1..])))
  }

  lemma {:induction false} BeforeTotal(a: string, b: string)
    ensures a == b || Before(a, b) || Before(b, a)
  {
    if a != "" && b != "" {
      BeforeTotal(a[1..], b[1..]);
      assert a == [a[0]] + a[1..] && b == [b[0]] + b[1..];
    }
  }

  lemma {:induction false} BeforeTransitive(a: string, b: string, c: string)
    requires Before(a, b) && Before(b, c)
    ensures Before(a, c) && a != c
  {
    if a != "" && a[0] == b[0] && b[0] == c[0] {
      BeforeTransitive(a[1..], b[1..], c[1..]);
    }
  }

  lemma {:induction false} BeforeIrreflexive(a: string)
    ensures !Before(a, a)
  {
    if a != "" {
      BeforeIrreflexive(a[1..]);
    }
  }

  /** At `k` the strings differ for the first time: `a` ends there or has the smaller character. */
  ghost predicate DifferAt(a: string, b: string, k: int) {
    0 <= k <= |a| && k < |b| && a[..k] == b[..k] && (k == |a| || a[k] < b[k])
  }

  /** The order of strings is dictionary order. */
  lemma {:induction false} BeforeIsDictionary(a: string, b: string)
    ensures Before(a, b) <==> exists k :: DifferAt(a, b, k)
  {
    if a != "" && b != "" && a[0] == b[0] {
      BeforeIsDictionary(a[1..], b[1..]);
      if k :| DifferAt(a, b, k) {
        assert k > 0;
        assert a[1..][..k - 1] == a[..k][1..] && b[1..][..k - 1] == b[..k][1..];
        assert DifferAt(a[1..], b[1..], k - 1);
      }
      if k :| DifferAt(a[1..], b[1..], k) {
        assert a[..k + 1] == [a[0]] + a[1..][..k] && b[..k + 1] == [b[0]] + b[1..][..k];
        assert DifferAt(a, b, k + 1);
      }
    } else {
      if k :| DifferAt(a, b, k) {
        OtherStart(a, b, k);
      }
      if Before(a, b) {
        assert DifferAt(a, b, 0);
      }
    }
  }

  lemma OtherStart(a: string, b: string, k: int)
    requires DifferAt(a, b, k) && (a == "" || b == "" || a[0] != b[0])
    ensures k == 0 && Before(a, b)
  {
  }

  ghost predicate Ascending(s: seq<string>) {
    forall i, j :: 0 <= i < j < |s| ==> Before(s[i], s[j])
  }

  /** `std::set<string>::insert` on the ascending list of its elements. */
  function Insert(s: seq<string>, x: string): (r: seq<string>)
    requires Ascending(s)
    ensures Ascending(r)
    ensures forall y :: y in r <==> y == x || y in s
    ensures |s| <= |r| && r != []
  {
    if s == [] then [x]
    else if s[0] == x then s
    else if Before(x, s[0]) then
      InsertFront(s, x);
      [x] + s
    else
      BeforeTotal(x, s[0]);
      var r := Insert(s[1..], x);
      InsertBehind(s, x, r);
      assert s == [s[0]] + s[1..];
      [s[0]] + r
  }

  lemma InsertFront(s: seq<string>, x: string)
    requires Ascending(s) && s != [] && Before(x, s[0])
    ensures Ascending([x] + s)
  {
    forall j | 0 < j < |s|
      ensures Before(x, s[j])
    {
      BeforeTransitive(x, s[0], s[j]);
    }
  }

  lemma InsertBehind(s: seq<string>, x: string, r: seq<string>)
    requires Ascending(s) && s != [] && Before(s[0], x) && Ascending(r)
    requires forall y :: y in r <==> y == x || y in s[1..]
    ensures Ascending([s[0]] + r)
  {
    forall j | 0 <= j < |r|
      ensures Before(s[0], r[j])
    {
      assert r[j] in r;
    }
  }

  // ----- The source's decisions as functions -----

  /** `_find_inlock`: comparing a node with a string first parses the string, which can throw. */
  function Find(nodes: seq<Node>, server: string): (r: Result<int>)
    ensures r.Success? ==> -1 <= r.value < |nodes|
    ensures r.Success? && r.value >= 0 ==> Parse(server) == Success(nodes[r.value].addr)
    ensures r.Success? && r.value < 0 ==> forall i :: 0 <= i < |nodes| ==> Parse(server) != Success(nodes[i].addr)
  {
    if nodes == [] then Success(-1) else
    var host :- Parse(server);
    Success(IndexOf(nodes, host, 0))
  }

  function IndexOf(nodes: seq<Node>, host: Host, i: nat): (r: int)
    requires i <= |nodes|
    ensures r == -1 || i <= r < |nodes|
    ensures r >= 0 ==> nodes[r].addr == host && forall k :: i <= k < r ==> nodes[k].addr != host
    ensures r == -1 ==> forall k :: i <= k < |nodes| ==> nodes[k].addr != host
    decreases |nodes| - i
  {
    if i == |nodes| then -1
    else if nodes[i].addr == host then i
    else IndexOf(nodes, host, i + 1)
  }

  function FindEntry(nodes: seq<Node>, entry: Option<string>): Result<int> {
    if entry.None? then Failure(NOT_A_STRING) else Find(nodes, entry.value)
  }

  /** The scan of `_shouldChangeHosts`: whether an unknown host was met, and how many entries were counted. */
  function CountKnown(nodes: seq<Node>, hosts: HostList, j: nat): (r: Result<(bool, nat)>)
    requires j <= |hosts|
    ensures r.Success? ==> j <= r.value.1 <= |hosts| && (r.value.0 ==> 0 < r.value.1) && (!r.value.0 ==> r.value.1 == |hosts|)
    decreases |hosts| - j
  {
    if j == |hosts| then Success((false, j)) else
    var index :- FindEntry(nodes, hosts[j]);
    if index >= 0 then CountKnown(nodes, hosts, j + 1) else Success((true, j + 1))
  }

  function ShouldChange(nodes: seq<Node>, hosts: HostList): Result<bool> {
    var (changed, numHosts) :- CountKnown(nodes, hosts, 0);
    Success((changed || |nodes| != numHosts) && numHosts > 0)
  }

  /** `_getHostDiff_inlock`: unknown host strings in ascending order, and the indices that were reported. */
  function Diff(nodes: seq<Node>, hosts: HostList, j: nat, added: seq<string>, found: set<int>): (r: Result<(seq<string>, set<int>)>)
    requires j <= |hosts| && Ascending(added)
    ensures r.Success? ==> Ascending(r.value.0)
    decreases |hosts| - j
  {
    if j == |hosts| then Success((added, found)) else
    var index :- FindEntry(nodes, hosts[j]);
    if index < 0 then Diff(nodes, hosts, j + 1, Insert(added, hosts[j].value), found)
    else Diff(nodes, hosts, j + 1, added, found + {index})
  }

  /** The nodes whose index is in `found`, in their old order. */
  function Keep(nodes: seq<Node>, found: set<int>, i: nat): seq<Node>
    requires i <= |nodes|
    decreases |nodes| - i
  {
    if i == |nodes| then []
    else (if i in found then [nodes[i]] else []) + Keep(nodes, found, i + 1)
  }

  /** The server address the connection of a new node reports. */
  function ConnectionName(h: Host): string {
    if h.At? then h.name + ":" + Decimal.OfInt(h.port) else ""
  }

  lemma LastIs(s: string, c: char, i: nat)
    requires i < |s| && s[i] == c && c !in s[i + 1..]
    ensures LastIndex(s, c) == Some(i)
  {
    var r := LastIndex(s, c);
    assert r.Some?;
    assert forall k :: i < k < |s| ==> s[k] == s[i + 1..][k - i - 1];
    assert forall k :: r.value < k < |s| ==> s[r.value + 1..][k - r.value - 1] == s[k];
  }

  /** The last colon of an address is the one before its port. */
  lemma ColonBeforePort(name: string, digits: string)
    requires ':' !in digits
    ensures var s := name + ":" + digits;
      s != "" && LastIndex(s, ':') == Some(|name|) && s[..|name|] == name && s[|name| + 1..] == digits
  {
    var s := name + ":" + digits;
    assert s[|name|] == ':' && s[|name| + 1..] == digits && s[..|name|] == name;
    LastIs(s, ':', |name|);
  }

  lemma OnlyDigits(s: string)
    requires s != "" && forall i :: 0 <= i < |s| ==> Decimal.Value(s[i]).Some?
    ensures ':' !in s && AToI(s) == Digits(s)
  {
    hide Digits;
    assert Decimal.Value(s[0]).Some?;
  }

  lemma NumeralDigits(n: nat)
    ensures Digits(Decimal.OfNat(n)) == n
  {
    hide Decimal.Inverse;
    hide Decimal.Value;
    Decimal.DigitsRead();
    Decimal.ReadsBack(n, Decimal.Digit, Decimal.Value);
  }

  /** `atoi` reads a numeral back. */
  lemma NumeralIsRead(n: nat)
    ensures ':' !in Decimal.OfNat(n) && AToI(Decimal.OfNat(n)) == n
  {
    hide AToI;
    hide Digits;
    hide Decimal.Value;
    hide Decimal.Inverse;
    hide Decimal.Read;
    hide Decimal.Write;
    NumeralDigits(n);
    Decimal.DigitsRead();
    Decimal.WritesDigits(n, Decimal.Digit, Decimal.Value);
    OnlyDigits(Decimal.OfNat(n));
  }

  /** The address a connection reports parses back to the host it was made to. */
  lemma AddressRoundTrip(h: Host)
    requires h.At? && h.port > 0
    ensures Parse(ConnectionName(h)) == Success(h)
  {
    hide LastIndex;
    hide AToI;
    NumeralIsRead(h.port);
    ColonBeforePort(h.name, Decimal.OfNat(h.port));
  }

  /** The characters `atoi` skips. */
  predicate IsSpaceChar(c: char) {
    c in {' ', '\t', '\n', '\r'} || c == 11 as char || c == 12 as char
  }

  lemma {:induction false} ReadStops(s: string, rest: string, value: nat)
    requires rest == "" || !('0' <= rest[0] <= '9')
    ensures Decimal.Read(s + rest, value, Decimal.Value).0 == Decimal.Read(s, value, Decimal.Value).0
    decreases |s|
  {
    if s == "" {
      assert s + rest == rest;
    } else {
      assert (s + rest)[1..] == s[1..] + rest;
      if Decimal.Value(s[0]).Some? {
        ReadStops(s[1..], rest, value * 10 + Decimal.Value(s[0]).value);
      }
    }
  }

  /** `atoi`: blanks are skipped, one sign counts, the number ends at the first character that is no digit, and none is 0. */
  lemma AToIReads(n: nat, c: char, rest: string)
    requires rest == "" || !('0' <= rest[0] <= '9')
    ensures var s := Decimal.OfNat(n) + rest;
      AToI(s) == n && AToI("+" + s) == n && AToI("-" + s) == 0 - n
    ensures IsSpaceChar(c) ==> AToI([c] + rest) == AToI(rest)
    ensures rest == "" || (!IsSpaceChar(rest[0]) && rest[0] != '-' && rest[0] != '+') ==> AToI(rest) == 0
  {
    hide Decimal.OfNat;
    hide Decimal.Read;
    hide AToI;
    hide Digits;
    var digits := Decimal.OfNat(n);
    NumeralDigits(n);
    DigitsStop(digits, rest);
    FirstDigit(n);
    assert (digits + rest)[0] == digits[0];
    SignedNumber(digits + rest);
    OtherStarts(c, rest);
  }

  lemma DigitsStop(s: string, rest: string)
    requires rest == "" || !('0' <= rest[0] <= '9')
    ensures Digits(s + rest) == Digits(s)
  {
    ReadStops(s, rest, 0);
  }

  lemma SignedNumber(s: string)
    requires s != "" && '0' <= s[0] <= '9'
    ensures AToI(s) == Digits(s) && AToI("+" + s) == Digits(s) && AToI("-" + s) == 0 - Digits(s)
  {
    hide Digits;
    assert ("+" + s)[1..] == s && ("-" + s)[1..] == s;
  }

  lemma OtherStarts(c: char, rest: string)
    requires rest == "" || !('0' <= rest[0] <= '9')
    ensures IsSpaceChar(c) ==> AToI([c] + rest) == AToI(rest)
    ensures rest == "" || (!IsSpaceChar(rest[0]) && rest[0] != '-' && rest[0] != '+') ==> AToI(rest) == 0
  {
    assert ([c] + rest)[1..] == rest;
    assert Digits(rest) == 0;
    hide Digits;
  }

  lemma FirstDigit(n: nat)
    ensures var c := Decimal.OfNat(n)[0]; '0' <= c <= '9'
  {
    Decimal.DigitsRead();
    Decimal.WritesDigits(n, Decimal.Digit, Decimal.Value);
  }

  /** Host and port: without a colon the default port; behind the last colon the port, which must be positive. */
  lemma ParseReads(name: string, port: string)
    requires ':' !in port
    ensures Parse("") == Failure(EMPTY_HOST)
    ensures port != "" ==> Parse(port) == Success(At(port, 27017))
    ensures Parse(name + ":" + port) == if AToI(port) > 0 then Success(At(name, AToI(port))) else Failure(BAD_PORT)
  {
    hide AToI;
    hide LastIndex;
    ColonBeforePort(name, port);
    NoColon(port);
  }

  lemma NoColon(s: string)
    requires ':' !in s
    ensures LastIndex(s, ':').None?
  {
  }

  datatype Reconciled = Unchanged | Changed(nodes: seq<Node>) | Threw(nodes: seq<Node>, code: int)

  function AddAll(nodes: seq<Node>, added: seq<string>): (r: Reconciled)
    ensures !r.Unchanged? && |nodes| <= |r.nodes|
    decreases |added|
  {
    if added == [] then Changed(nodes)
    else
      match Parse(added[0])
      case Failure(code) => Threw(nodes, code)
      case Success(h) => AddAll(nodes + [NewNode(h, ConnectionName(h))], added[1..])
  }

  /** The slow path of `_checkHosts`. */
  function Reconcile(nodes: seq<Node>, hosts: HostList): Reconciled {
    match ShouldChange(nodes, hosts)
    case Failure(code) => Threw(nodes, code)
    case Success(false) => Unchanged
    case Success(true) =>
      match Diff(nodes, hosts, 0, [], {})
      case Failure(code) => Threw(nodes, code)
      case Success((added, found)) =>
        if added == [] && (forall i :: 0 <= i < |nodes| ==> i in found) then Threw(nodes, VERIFY_FAILED)
        else AddAll(Keep(nodes, found, 0), added)
  }

  // ----- The monitor's list, updated in place -----

  class NodeList {
    var nodes: seq<Node>
    var master: int

    predicate Valid()
      reads this
    {
      -1 <= master < |nodes|
    }

    method FindInLock(server: string) returns (r: Result<int>)
      ensures r == Find(nodes, server)
    {
      var i := 0;
      while i < |nodes|
        invariant 0 <= i <= |nodes|
        invariant i > 0 ==> Parse(server).Success?
        invariant Parse(server).Success? ==> IndexOf(nodes, Parse(server).value, i) == IndexOf(nodes, Parse(server).value, 0)
      {
        var host :- Parse(server);
        if nodes[i].addr == host {
          return Success(i);
        }
        i := i + 1;
      }
      return Success(-1);
    }

    method FindEntryInLock(entry: Option<string>) returns (r: Result<int>)
      ensures r == FindEntry(nodes, entry)
    {
      if entry.None? {
        return Failure(NOT_A_STRING);
      }
      r := FindInLock(entry.value);
    }

    method ShouldChangeHosts(hosts: HostList) returns (r: Result<bool>)
      ensures r == ShouldChange(nodes, hosts)
    {
      var origHosts := |nodes|;
      var numHosts, changed := 0, false;
      while numHosts < |hosts|
        invariant numHosts <= |hosts| && !changed
        invariant CountKnown(nodes, hosts, numHosts) == CountKnown(nodes, hosts, 0)
      {
        var index :- FindEntryInLock(hosts[numHosts]);
        numHosts := numHosts + 1;
        if index >= 0 {
          continue;
        }
        changed := true;
        break;
      }
      return Success((changed || origHosts != numHosts) && numHosts > 0);
    }

    method GetHostDiff(hosts: HostList) returns (r: Result<(seq<string>, set<int>)>)
      ensures r == Diff(nodes, hosts, 0, [], {})
    {
      var added: seq<string>, found: set<int> := [], {};
      for j := 0 to |hosts|
        invariant Ascending(added)
        invariant Diff(nodes, hosts, j, added, found) == Diff(nodes, hosts, 0, [], {})
      {
        var index :- FindEntryInLock(hosts[j]);
        if index < 0 {
          added := Insert(added, hosts[j].value);
        } else {
          found := found + {index};
        }
      }
      return Success((added, found));
    }

    /** Erases every index outside `found`, highest first so that no index still to be erased moves. */
    method EraseMissing(found: set<int>)
      modifies this`nodes
      ensures nodes == Keep(old(nodes), found, 0)
    {
      ghost var was := nodes;
      var i := |nodes|;
      assert was[..i] + Keep(was, found, i) == was;
      while i > 0
        invariant 0 <= i <= |was| && i <= |nodes|
        invariant nodes == was[..i] + Keep(was, found, i)
      {
        i := i - 1;
        assert was[..i + 1] == was[..i] + [was[i]];
        if i !in found {
          nodes := nodes[..i] + nodes[i + 1..];
        }
      }
    }

    /** The slow path of `_checkHosts`, with the lock held. */
    method CheckHosts(hosts: HostList) returns (r: Result<bool>)
      requires Valid()
      modifies this
      ensures Valid()
      ensures match Reconcile(old(nodes), hosts)
        case Unchanged => r == Success(false) && nodes == old(nodes) && master == old(master)
        case Changed(after) => r == Success(true) && nodes == after && master == -1
        case Threw(after, code) => r == Failure(code) && nodes == after && master == old(master)
    {
      var change :- ShouldChangeHosts(hosts);
      if !change {
        return Success(false);
      }
      var diff :- GetHostDiff(hosts);
      var (added, found) := diff;
      ghost var was := nodes;
      if added == [] && (forall i :: 0 <= i < |nodes| ==> i in found) {
        return Failure(VERIFY_FAILED);
      }
      KeptAreKnown(nodes, hosts, added, found);
      EraseMissing(found);
      ghost var kept := nodes;
      var grown := AddNew(added);
      if grown.Fail? {
        AddAllParses(kept, added);
        KeepNothing(found);
        return Failure(grown.code);
      }
      master := -1;
      return Success(true);
    }

    /** Adds a node for every host, in order; a host that does not parse ends the loop with what is there. */
    method AddNew(added: seq<string>) returns (r: Outcome)
      modifies this`nodes
      ensures match AddAll(old(nodes), added)
        case Unchanged => false
        case Changed(after) => r == Pass && nodes == after
        case Threw(after, code) => r == Fail(code) && nodes == after
    {
      var rest := added;
      while rest != []
        invariant AddAll(nodes, rest) == AddAll(old(nodes), added)
        decreases |rest|
      {
        var h := Parse(rest[0]);
        if h.Failure? {
          return Fail(h.code);
        }
        nodes := nodes + [NewNode(h.value, ConnectionName(h.value))];
        rest := rest[1..];
      }
      return Pass;
    }
  }

  lemma {:induction false} AddAllParses(nodes: seq<Node>, added: seq<string>)
    ensures (forall s :: s in added ==> Parse(s).Success?) ==> AddAll(nodes, added).Changed?
    decreases |added|
  {
    hide Parse;
    if added != [] && Parse(added[0]).Success? {
      var h := Parse(added[0]).value;
      AddAllParses(nodes + [NewNode(h, ConnectionName(h))], added[1..]);
    }
  }

  lemma KeepNothing(found: set<int>)
    ensures Keep([], found, 0) == []
  {
  }

  /** With a non-empty node list every host string has already been parsed when the erasing starts. */
  lemma KeptAreKnown(nodes: seq<Node>, hosts: HostList, added: seq<string>, found: set<int>)
    requires Diff(nodes, hosts, 0, [], {}) == Success((added, found))
    ensures nodes != [] ==> forall s :: s in added ==> Parse(s).Success?
  {
    if nodes != [] {
      DiffParses(nodes, hosts, 0, [], {});
    }
  }

  lemma {:induction false} DiffParses(nodes: seq<Node>, hosts: HostList, j: nat, added: seq<string>, found: set<int>)
    requires j <= |hosts| && Ascending(added) && nodes != []
    requires forall s :: s in added ==> Parse(s).Success?
    ensures var r := Diff(nodes, hosts, j, added, found);
      r.Success? ==> forall s :: s in r.value.0 ==> Parse(s).Success?
    decreases |hosts| - j
  {
    hide Parse;
    hide IndexOf;
    if j < |hosts| {
      var index := FindEntry(nodes, hosts[j]);
      if index.Success? && index.value < 0 {
        DiffParses(nodes, hosts, j + 1, Insert(added, hosts[j].value), found);
      } else if index.Success? {
        DiffParses(nodes, hosts, j + 1, added, found + {index.value});
      }
    }
  }
}
