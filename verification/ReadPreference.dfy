/** Tag sets, read preferences, and whether selection agrees with compatibility. */
module ReadPreference {
  import opened Wrappers
  import opened ReplicaNode
  import opened NodeSelection
  import opened Fairness

  datatype Preference = PrimaryOnly | PrimaryPreferred | SecondaryOnly | SecondaryPreferred | Nearest

  /** An entry of the tag list as received; anything but a document is an error when it is reached. */
  datatype TagEntry = Document(criteria: Criteria) | Other

  const TAG_NOT_OBJECT := 16357
  const TAG_NOT_OBJECT_CHECK := 16358

  class TagSet {
    const tags: seq<TagEntry>
    var isExhausted: bool
    var currentTag: Criteria
    var handedOut: nat  // entries the tag iterator has handed out

    ghost predicate Valid()
      reads this
    {
      && handedOut <= |tags|
      && (!isExhausted ==> handedOut > 0 && tags[handedOut - 1] == Document(currentTag))
    }

    /** The index of the current entry; the length of the list when it is exhausted. */
    ghost function Position(): nat
      reads this
      requires Valid()
    {
      if isExhausted then |tags| else handedOut - 1
    }

    constructor Fields(tags: seq<TagEntry>)
      ensures this.tags == tags && !isExhausted && handedOut == 0
    {
      this.tags := tags;
      isExhausted, currentTag, handedOut := false, [], 0;
    }

    /** `TagSet(const BSONArray&)`: moves to the first entry at once. */
    static method Create(tags: seq<TagEntry>) returns (r: Result<TagSet>)
      ensures r.Success? <==> tags == [] || tags[0].Document?
      ensures r.Success? ==> fresh(r.value) && r.value.Valid() && r.value.tags == tags && r.value.Position() == 0
    {
      var t := new TagSet.Fields(tags);
      var next := t.Next();
      if next.Fail? {
        return Failure(next.code);
      }
      return Success(t);
    }

    /** Advances; the list is exhausted when there is no further entry. */
    method Next() returns (r: Outcome)
      requires handedOut <= |tags|
      modifies this
      ensures handedOut <= |tags|
      ensures old(handedOut) == |tags| ==> r.Pass? && isExhausted && handedOut == old(handedOut)
      ensures old(handedOut) < |tags| && tags[old(handedOut)].Document? ==>
        r.Pass? && handedOut == old(handedOut) + 1 && isExhausted == old(isExhausted)
        && tags[handedOut - 1] == Document(currentTag)
      ensures old(handedOut) < |tags| && tags[old(handedOut)].Other? ==> r == Fail(TAG_NOT_OBJECT)
    {
      if handedOut < |tags| {
        var nextTag := tags[handedOut];
        handedOut := handedOut + 1;
        if nextTag.Other? {
          return Fail(TAG_NOT_OBJECT);
        }
        currentTag := nextTag.criteria;
      } else {
        isExhausted := true;
      }
      return Pass;
    }
  }

  // ----- Selection -----

  /** Trying the entries from index `j` on: the outcome, and the index on which the list comes to rest. */
  ghost function Try(nodes: seq<Node>, tags: seq<TagEntry>, j: nat, secOnly: bool, threshold: int, last: Host): (p: (Result<Host>, nat))
    requires j <= |tags|
    ensures j <= p.1 <= |tags|
    ensures p.0 == Success(NoHost) ==> p.1 == |tags|
    decreases |tags| - j
  {
    if j == |tags| then (Success(NoHost), j)
    else if tags[j].Other? then (Failure(TAG_NOT_OBJECT), j)
    else
      var h := Select(Wanted(tags[j].criteria, secOnly, threshold), nodes, last);
      if h != NoHost then (Success(h), j) else Try(nodes, tags, j + 1, secOnly, threshold, last)
  }

  /** The loop shared by `SecondaryOnly` and `Nearest`. */
  method SelectByTags(nodes: seq<Node>, tags: TagSet, secOnly: bool, threshold: int, lastHost: Host)
    returns (r: Result<Host>, lastHost': Host)
    requires tags.Valid()
    modifies tags
    ensures r == Try(nodes, tags.tags, old(tags.Position()), secOnly, threshold, lastHost).0
    ensures r.Success? ==>
      tags.Valid() && tags.Position() == Try(nodes, tags.tags, old(tags.Position()), secOnly, threshold, lastHost).1
    ensures lastHost' == if r.Success? && r.value != NoHost then r.value else lastHost
  {
    hide Select;
    lastHost' := lastHost;
    while !tags.isExhausted
      invariant tags.Valid() && lastHost' == lastHost
      invariant Try(nodes, tags.tags, tags.Position(), secOnly, threshold, lastHost)
             == Try(nodes, tags.tags, old(tags.Position()), secOnly, threshold, lastHost)
      decreases |tags.tags| - tags.handedOut, !tags.isExhausted
    {
      var candidate;
      candidate, lastHost' := SelectNode(Wanted(tags.currentTag, secOnly, threshold), nodes, lastHost);
      if candidate != NoHost {
        return Success(candidate), lastHost';
      }
      var next := tags.Next();
      if next.Fail? {
        return Failure(next.code), lastHost;
      }
    }
    return Success(NoHost), lastHost;
  }

  /** The first primary in list order. */
  ghost function Primary(nodes: seq<Node>): Host {
    if nodes == [] then NoHost
    else if nodes[0].ismaster && nodes[0].ok then nodes[0].addr
    else Primary(nodes[1..])
  }

  method SelectPrimary(nodes: seq<Node>) returns (h: Host)
    ensures h == Primary(nodes)
  {
    var i := 0;
    while i < |nodes|
      invariant 0 <= i <= |nodes| && Primary(nodes[i..]) == Primary(nodes)
    {
      if nodes[i].ismaster && nodes[i].ok {
        return nodes[i].addr;
      }
      assert nodes[i..][1..] == nodes[i + 1..];
      i := i + 1;
    }
    return NoHost;
  }

  /** `ReplicaSetMonitor::selectNode` as a function of the entries and the index to start from. */
  ghost function Choice(nodes: seq<Node>, preference: Preference, tags: seq<TagEntry>, j: nat, threshold: int, last: Host): Result<Host>
    requires j <= |tags|
  {
    match preference
    case PrimaryOnly => Success(Primary(nodes))
    case PrimaryPreferred =>
      if Primary(nodes) != NoHost then Success(Primary(nodes)) else Try(nodes, tags, j, true, threshold, last).0
    case SecondaryOnly => Try(nodes, tags, j, true, threshold, last).0
    case SecondaryPreferred =>
      var sec := Try(nodes, tags, j, true, threshold, last).0;
      if sec == Success(NoHost) then Success(Primary(nodes)) else sec
    case Nearest => Try(nodes, tags, j, false, threshold, last).0
  }

  /** The whole result of `selectNode`: what it returns, where the tag list comes to rest, and the new `lastHost`. */
  ghost function Chosen(nodes: seq<Node>, preference: Preference, tags: seq<TagEntry>, j: nat, threshold: int, last: Host)
    : (p: (Result<Host>, nat, Host))
    requires j <= |tags|
    ensures j <= p.1 <= |tags|
  {
    var r := Choice(nodes, preference, tags, j, threshold, last);
    if preference.PrimaryOnly? || (preference.PrimaryPreferred? && Primary(nodes) != NoHost) then (r, j, last)
    else
      var (tried, rest) := Try(nodes, tags, j, !preference.Nearest?, threshold, last);
      (r, rest, if tried.Success? && tried.value != NoHost then tried.value else last)
  }

  method SelectNodeFor(nodes: seq<Node>, preference: Preference, tags: TagSet, threshold: int, lastHost: Host)
    returns (r: Result<Host>, lastHost': Host)
    requires tags.Valid()
    modifies tags
    ensures r == Choice(nodes, preference, tags.tags, old(tags.Position()), threshold, lastHost)
    ensures lastHost' == Chosen(nodes, preference, tags.tags, old(tags.Position()), threshold, lastHost).2
    ensures preference.PrimaryOnly? ==> unchanged(tags)
    ensures r.Success? ==>
      tags.Valid() && tags.Position() == Chosen(nodes, preference, tags.tags, old(tags.Position()), threshold, lastHost).1
    decreases preference.PrimaryPreferred? || preference.SecondaryPreferred?
  {
    hide Try;
    lastHost' := lastHost;
    match preference {
      case PrimaryOnly =>
        var primary := SelectPrimary(nodes);
        return Success(primary), lastHost;
      case PrimaryPreferred =>
        r, lastHost' := SelectNodeFor(nodes, PrimaryOnly, tags, threshold, lastHost);
        if r.Success? && r.value != NoHost {
          return;
        }
        r, lastHost' := SelectNodeFor(nodes, SecondaryOnly, tags, threshold, lastHost);
      case SecondaryOnly =>
        r, lastHost' := SelectByTags(nodes, tags, true, threshold, lastHost);
      case SecondaryPreferred =>
        r, lastHost' := SelectNodeFor(nodes, SecondaryOnly, tags, threshold, lastHost);
        if r.Failure? || r.value != NoHost {
          return;
        }
        r, lastHost' := SelectNodeFor(nodes, PrimaryOnly, tags, threshold, lastHost);
      case Nearest =>
        r, lastHost' := SelectByTags(nodes, tags, false, threshold, lastHost);
    }
  }

  // ----- Compatibility -----

  /** The part of `isCompatible` that looks at the node's state only. */
  predicate RightKind(n: Node, preference: Preference) {
    && n.ok
    && ((preference.SecondaryOnly? || preference.SecondaryPreferred?) ==> n.OkForSecondaryQueries())
    && ((preference.PrimaryOnly? || preference.PrimaryPreferred?) ==> !n.secondary)
  }

  ghost predicate Compatible(n: Node, preference: Preference, tags: seq<TagEntry>) {
    RightKind(n, preference) && (tags == [] || exists i :: 0 <= i < |tags| && tags[i].Document? && n.Matches(tags[i].criteria))
  }

  ghost predicate AllDocuments(tags: seq<TagEntry>) {
    forall i :: 0 <= i < |tags| ==> tags[i].Document?
  }

  /** The index of the first entry that is no document or that the node matches; the length of the list if there is none. */
  ghost function Decisive(n: Node, tags: seq<TagEntry>): (k: nat)
    ensures k <= |tags|
    ensures k < |tags| ==> tags[k].Other? || n.Matches(tags[k].criteria)
    ensures forall i :: 0 <= i < k ==> tags[i].Document? && !n.Matches(tags[i].criteria)
  {
    if tags == [] || tags[0].Other? || n.Matches(tags[0].criteria) then 0 else 1 + Decisive(n, tags[1..])
  }

  /** What `isCompatible` answers yes to: an entry the node matches comes before any that is no document. */
  ghost predicate Accepted(n: Node, preference: Preference, tags: seq<TagEntry>) {
    RightKind(n, preference) && (tags == [] || (Decisive(n, tags) < |tags| && tags[Decisive(n, tags)].Document?))
  }

  /**
   * `Node::isCompatible`. It fails exactly when the node is of the right kind and an entry that is no document comes
   * before any that matches.
   */
  method IsCompatible(n: Node, preference: Preference, tags: seq<TagEntry>) returns (r: Result<bool>)
    ensures r.Failure? <==>
      RightKind(n, preference) && Decisive(n, tags) < |tags| && tags[Decisive(n, tags)].Other?
    ensures r.Failure? ==> r.code == TAG_NOT_OBJECT_CHECK
    ensures r.Success? ==> r.value == Compatible(n, preference, tags)
    ensures r == Success(true) <==> Accepted(n, preference, tags)
  {
    if !n.ok {
      return Success(false);
    }
    if (preference.SecondaryOnly? || preference.SecondaryPreferred?) && !n.OkForSecondaryQueries() {
      return Success(false);
    }
    if (preference.PrimaryOnly? || preference.PrimaryPreferred?) && n.secondary {
      return Success(false);
    }
    if tags == [] {
      return Success(true);
    }
    for i := 0 to |tags|
      invariant forall j :: 0 <= j < i ==> tags[j].Document? && !n.Matches(tags[j].criteria)
    {
      if tags[i].Other? {
        return Failure(TAG_NOT_OBJECT_CHECK);
      }
      var matched := n.MatchesTag(tags[i].criteria);
      if matched {
        return Success(true);
      }
    }
    return Success(false);
  }

  // ----- Selection against compatibility -----

  /** Some node of the right kind matches entry `j`. */
  ghost predicate Matched(nodes: seq<Node>, tags: seq<TagEntry>, j: nat, secOnly: bool, threshold: int)
    requires j < |tags| && tags[j].Document?
  {
    exists i :: 0 <= i < |nodes| && Eligible(Wanted(tags[j].criteria, secOnly, threshold), nodes[i])
  }

  /**
   * The loop stops on the earliest entry that some candidate matches or that is no document. It throws exactly when that
   * entry is no document, and exhausts the list exactly when there is no such entry.
   */
  lemma {:induction false} TryEarliest(nodes: seq<Node>, tags: seq<TagEntry>, j: nat, secOnly: bool, threshold: int, last: Host)
    requires j <= |tags|
    ensures var (r, rest) := Try(nodes, tags, j, secOnly, threshold, last);
      && (forall k :: j <= k < rest ==> tags[k].Document? && !Matched(nodes, tags, k, secOnly, threshold))
      && (r == Success(NoHost) <==> rest == |tags|)
      && (r == Failure(TAG_NOT_OBJECT) <==> rest < |tags| && tags[rest].Other?)
      && (r.Failure? ==> r == Failure(TAG_NOT_OBJECT))
      && (rest < |tags| && tags[rest].Document? ==>
            Matched(nodes, tags, rest, secOnly, threshold)
            && r == Success(Select(Wanted(tags[rest].criteria, secOnly, threshold), nodes, last)))
    decreases |tags| - j
  {
    hide Select;
    if j < |tags| && tags[j].Document? {
      EmptyIffNoneEligible(Wanted(tags[j].criteria, secOnly, threshold), nodes, last);
      TryEarliest(nodes, tags, j + 1, secOnly, threshold, last);
    }
  }

  predicate ByTags(preference: Preference) {
    preference.SecondaryOnly? || preference.Nearest?
  }

  /** For `SecondaryOnly` and `Nearest`, eligibility for one entry is compatibility with that entry. */
  lemma EligibleIsCompatible(n: Node, preference: Preference, tags: seq<TagEntry>, threshold: int)
    requires ByTags(preference) && tags != []
    ensures Compatible(n, preference, tags)
      <==> exists j :: 0 <= j < |tags| && tags[j].Document?
             && Eligible(Wanted(tags[j].criteria, preference.SecondaryOnly?, threshold), n)
  {
    if j :| 0 <= j < |tags| && tags[j].Document? && n.Matches(tags[j].criteria) {
      assert RightKind(n, preference) ==> Eligible(Wanted(tags[j].criteria, preference.SecondaryOnly?, threshold), n);
    }
  }

  /** A node `isCompatible` accepts, found by the entry that decides for it. */
  lemma AcceptedIsMatched(nodes: seq<Node>, i: nat, preference: Preference, tags: seq<TagEntry>, threshold: int)
    requires ByTags(preference) && i < |nodes| && tags != [] && Accepted(nodes[i], preference, tags)
    ensures Matched(nodes, tags, Decisive(nodes[i], tags), preference.SecondaryOnly?, threshold)
  {
    assert Eligible(Wanted(tags[Decisive(nodes[i], tags)].criteria, preference.SecondaryOnly?, threshold), nodes[i]);
  }

  /**
   * With a fresh tag list, a host is selected exactly when the list is non-empty and `isCompatible` would answer yes for
   * some node; it belongs to such a node, no other is decided by an earlier entry, and among the nodes that match this entry
   * it is the one the round robin picks. Selection throws exactly when some
   * entry is no document and `isCompatible` would answer yes for none.
   */
  lemma SelectedIffCompatible(nodes: seq<Node>, preference: Preference, tags: seq<TagEntry>, threshold: int, last: Host)
    requires ByTags(preference)
    ensures var r := Choice(nodes, preference, tags, 0, threshold, last);
      var some := exists i :: 0 <= i < |nodes| && Accepted(nodes[i], preference, tags);
      && (r.Success? && r.value != NoHost <==> tags != [] && some)
      && (r.Failure? <==> !AllDocuments(tags) && !some)
      && (r.Success? && r.value != NoHost ==>
            exists i :: 0 <= i < |nodes| && nodes[i].addr == r.value && Accepted(nodes[i], preference, tags)
              && r.value == Select(Wanted(tags[Decisive(nodes[i], tags)].criteria, preference.SecondaryOnly?, threshold), nodes, last)
              && forall m :: 0 <= m < |nodes| && RightKind(nodes[m], preference) ==>
                   Decisive(nodes[i], tags) <= Decisive(nodes[m], tags))
  {
    hide Select;
    hide Try;
    var secOnly := preference.SecondaryOnly?;
    TryEarliest(nodes, tags, 0, secOnly, threshold, last);
    var (r, j) := Try(nodes, tags, 0, secOnly, threshold, last);
    NoneAcceptedBefore(nodes, preference, tags, j, threshold);
    if j < |tags| && tags[j].Document? {
      var i := SelectedNode(nodes, Wanted(tags[j].criteria, secOnly, threshold), last);
      DecidedAt(nodes, i, preference, tags, j, threshold);
    }
  }

  lemma SelectedNode(nodes: seq<Node>, w: Wanted, last: Host) returns (i: nat)
    requires exists k :: 0 <= k < |nodes| && Eligible(w, nodes[k])
    ensures i < |nodes| && Eligible(w, nodes[i]) && nodes[i].addr == Select(w, nodes, last)
  {
    var k :| 0 <= k < |nodes| && Eligible(w, nodes[k]);
    var hit := Selected(w, nodes, last, k);
    i := Cyclic(StartIndex(nodes, last), hit, |nodes|);
  }

  /** Of the entries before `j` none decides for a node that is a candidate. */
  lemma NoneAcceptedBefore(nodes: seq<Node>, preference: Preference, tags: seq<TagEntry>, j: nat, threshold: int)
    requires ByTags(preference) && j <= |tags|
    requires forall k :: 0 <= k < j ==> tags[k].Document? && !Matched(nodes, tags, k, preference.SecondaryOnly?, threshold)
    ensures forall m :: 0 <= m < |nodes| && RightKind(nodes[m], preference) ==> j <= Decisive(nodes[m], tags)
  {
    forall m | 0 <= m < |nodes| && RightKind(nodes[m], preference)
      ensures j <= Decisive(nodes[m], tags)
    {
      if Decisive(nodes[m], tags) < j {
        AcceptedIsMatched(nodes, m, preference, tags, threshold);
      }
    }
  }

  lemma DecidedAt(nodes: seq<Node>, i: nat, preference: Preference, tags: seq<TagEntry>, j: nat, threshold: int)
    requires ByTags(preference) && i < |nodes| && j < |tags| && tags[j].Document? && j <= Decisive(nodes[i], tags)
    requires Eligible(Wanted(tags[j].criteria, preference.SecondaryOnly?, threshold), nodes[i])
    ensures Decisive(nodes[i], tags) == j && Accepted(nodes[i], preference, tags)
  {
  }

  /**
   * With a fresh tag list, the two preferring modes come away empty exactly when neither kind of node will do and every
   * entry is a document. They throw exactly when some entry is none and no secondary will do, `PrimaryPreferred` only
   * when there is no primary either.
   */
  lemma PreferredEmptyIff(nodes: seq<Node>, preference: Preference, tags: seq<TagEntry>, threshold: int, last: Host)
    requires preference.PrimaryPreferred? || preference.SecondaryPreferred?
    ensures var r := Choice(nodes, preference, tags, 0, threshold, last);
      var primary := exists i :: 0 <= i < |nodes| && nodes[i].ismaster && nodes[i].ok;
      var secondary := exists i :: 0 <= i < |nodes| && Accepted(nodes[i], SecondaryOnly, tags);
      && (r == Success(NoHost) <==> !primary && AllDocuments(tags) && (tags == [] || !secondary))
      && (r.Failure? <==> !AllDocuments(tags) && !secondary && (preference.PrimaryPreferred? ==> !primary))
  {
    hide Try;
    hide Primary;
    hide Accepted;
    SelectedIffCompatible(nodes, SecondaryOnly, tags, threshold, last);
    PrimaryAgreement(nodes, tags);
  }

  ghost predicate FirstPrimary(nodes: seq<Node>, i: int) {
    && 0 <= i < |nodes| && nodes[i].ismaster && nodes[i].ok
    && forall k :: 0 <= k < i ==> !(nodes[k].ismaster && nodes[k].ok)
  }

  lemma {:induction false} PrimaryIsFirst(nodes: seq<Node>)
    ensures forall i :: FirstPrimary(nodes, i) ==> Primary(nodes) == nodes[i].addr
    ensures Primary(nodes) != NoHost ==> exists i :: FirstPrimary(nodes, i) && nodes[i].addr == Primary(nodes)
    decreases |nodes|
  {
    if nodes != [] {
      PrimaryIsFirst(nodes[1..]);
      if nodes[0].ismaster && nodes[0].ok {
        assert FirstPrimary(nodes, 0);
      } else {
        forall i | FirstPrimary(nodes, i)
          ensures Primary(nodes) == nodes[i].addr
        {
          assert FirstPrimary(nodes[1..], i - 1);
        }
        if Primary(nodes) != NoHost {
          var i :| FirstPrimary(nodes[1..], i) && nodes[1..][i].addr == Primary(nodes[1..]);
          assert FirstPrimary(nodes, i + 1);
        }
      }
    }
  }

  /**
   * Which kind is preferred. With `PrimaryPreferred` and `PrimaryOnly` the first primary in list order is taken if there is one,
   * whatever the tags; with `SecondaryPreferred` a secondary that `isCompatible` accepts, if there is one. The other kind is
   * taken only when there is none, and as the mode for that kind alone takes it.
   */
  lemma PreferredKind(nodes: seq<Node>, tags: seq<TagEntry>, j: nat, threshold: int, last: Host)
    requires j <= |tags|
    ensures forall i :: FirstPrimary(nodes, i) ==>
      && Choice(nodes, PrimaryOnly, tags, j, threshold, last) == Success(nodes[i].addr)
      && Choice(nodes, PrimaryPreferred, tags, j, threshold, last) == Success(nodes[i].addr)
    ensures (forall i :: 0 <= i < |nodes| ==> !(nodes[i].ismaster && nodes[i].ok)) ==>
      && Choice(nodes, PrimaryOnly, tags, j, threshold, last) == Success(NoHost)
      && Choice(nodes, PrimaryPreferred, tags, j, threshold, last) == Choice(nodes, SecondaryOnly, tags, j, threshold, last)
    ensures tags != [] && (exists i :: 0 <= i < |nodes| && Accepted(nodes[i], SecondaryOnly, tags)) ==>
      exists i :: 0 <= i < |nodes| && Accepted(nodes[i], SecondaryOnly, tags)
        && Choice(nodes, SecondaryPreferred, tags, 0, threshold, last) == Success(nodes[i].addr)
    ensures Choice(nodes, SecondaryPreferred, tags, j, threshold, last)
         == if Choice(nodes, SecondaryOnly, tags, j, threshold, last) == Success(NoHost) then Choice(nodes, PrimaryOnly, tags, j, threshold, last)
            else Choice(nodes, SecondaryOnly, tags, j, threshold, last)
  {
    hide Try;
    hide Accepted;
    SelectedIffCompatible(nodes, SecondaryOnly, tags, threshold, last);
    PrimaryIsFirst(nodes);
    hide Primary;
    hide Decisive;
    hide Select;
  }

  function HostOf(r: Result<Host>): Host {
    if r.Success? then r.value else NoHost
  }

  /**
   * The host remembered for the next round is the one the tags have selected; a primary taken for being primary, an empty
   * result and an exception leave it as it was. Where the tag list comes to rest: on the entry that decides, at its end when
   * none does; a primary that is preferred does not touch it.
   */
  lemma LastHostIs(nodes: seq<Node>, preference: Preference, tags: seq<TagEntry>, threshold: int, last: Host)
    ensures var (r, rest, last') := Chosen(nodes, preference, tags, 0, threshold, last);
      var primary := exists i :: 0 <= i < |nodes| && nodes[i].ismaster && nodes[i].ok;
      var secondary := tags != [] && exists i :: 0 <= i < |nodes| && Accepted(nodes[i], SecondaryOnly, tags);
      && (preference.PrimaryOnly? ==> last' == last && rest == 0)
      && (preference.PrimaryPreferred? ==> last' == (if !primary && secondary then HostOf(r) else last) && (primary ==> rest == 0))
      && (preference.SecondaryPreferred? ==> last' == if secondary then HostOf(r) else last)
      && (ByTags(preference) ==> last' == if HostOf(r) != NoHost then HostOf(r) else last)
      && (r.Success? && (preference.SecondaryOnly? || preference.SecondaryPreferred? || (preference.PrimaryPreferred? && !primary)) ==>
            (rest == |tags| <==> !secondary))
      && (r.Success? && preference.Nearest? ==> (rest == |tags| <==> r.value == NoHost))
  {
    SelectedIffCompatible(nodes, SecondaryOnly, tags, threshold, last);
    PrimaryAgreement(nodes, tags);
    TryRests(nodes, tags, true, threshold, last);
    TryRests(nodes, tags, false, threshold, last);
    hide Primary;
    hide Try;
    hide Accepted;
    hide Select;
    hide Decisive;
  }

  lemma TryRests(nodes: seq<Node>, tags: seq<TagEntry>, secOnly: bool, threshold: int, last: Host)
    ensures var (r, rest) := Try(nodes, tags, 0, secOnly, threshold, last);
      r.Success? ==> (rest == |tags| <==> r.value == NoHost)
  {
    TryEarliest(nodes, tags, 0, secOnly, threshold, last);
    hide Try;
    hide Select;
    hide Matched;
  }

  /**
   * With the preferring modes, selection and compatibility disagree on the kind that is second best: `isCompatible` never
   * accepts a secondary for `PrimaryPreferred`, nor a node that is no usable secondary for `SecondaryPreferred`. For the kind
   * that is preferred it decides as for that kind alone.
   */
  lemma SecondBestIsRejected(n: Node, tags: seq<TagEntry>)
    ensures n.ok && n.secondary ==> !Accepted(n, PrimaryPreferred, tags)
    ensures !(n.ok && n.secondary && !n.hidden) ==> !Accepted(n, SecondaryPreferred, tags)
    ensures Accepted(n, PrimaryPreferred, tags) <==> Accepted(n, PrimaryOnly, tags)
    ensures Accepted(n, SecondaryPreferred, tags) <==> Accepted(n, SecondaryOnly, tags)
    ensures Accepted(n, Nearest, tags) && !n.secondary <==> Accepted(n, PrimaryOnly, tags)
    ensures Accepted(n, Nearest, tags) && n.secondary && !n.hidden <==> Accepted(n, SecondaryOnly, tags)
    ensures Accepted(n, Nearest, []) <==> n.ok
  {
  }

  /** An empty tag list matches every node for `isCompatible` but stops selection before it looks at any. */
  lemma EmptyTagListSelectsNothing(nodes: seq<Node>, n: Node, threshold: int, last: Host)
    requires n in nodes && n.OkForSecondaryQueries()
    ensures Compatible(n, SecondaryOnly, [])
    ensures Choice(nodes, SecondaryOnly, [], 0, threshold, last) == Success(NoHost)
    ensures Choice(nodes, SecondaryPreferred, [], 0, threshold, last) == Success(Primary(nodes))
  {
  }

  /** For `PrimaryOnly` the two notions differ: selection asks for `ismaster`, compatibility for "not a secondary" and the tags. */
  lemma {:induction false} PrimaryAgreement(nodes: seq<Node>, tags: seq<TagEntry>)
    ensures Primary(nodes) != NoHost ==>
      exists i :: 0 <= i < |nodes| && nodes[i].addr == Primary(nodes) && nodes[i].ismaster && nodes[i].ok
        && (Compatible(nodes[i], PrimaryOnly, tags)
            <==> !nodes[i].secondary
                 && (tags == [] || exists j :: 0 <= j < |tags| && tags[j].Document? && nodes[i].Matches(tags[j].criteria)))
    ensures Primary(nodes) == NoHost <==> forall i :: 0 <= i < |nodes| ==> !(nodes[i].ismaster && nodes[i].ok)
    decreases |nodes|
  {
    if nodes != [] && !(nodes[0].ismaster && nodes[0].ok) {
      PrimaryAgreement(nodes[1..], tags);
      if Primary(nodes) != NoHost {
        var i :| 0 <= i < |nodes[1..]| && nodes[1..][i].addr == Primary(nodes) && nodes[1..][i].ismaster && nodes[1..][i].ok;
        assert nodes[i + 1] == nodes[1..][i];
      }
      assert forall i :: 0 < i < |nodes| ==> nodes[i] == nodes[1..][i - 1];
    } else if nodes != [] {
      assert nodes[0].addr == Primary(nodes);
    }
  }
}
