/** What the monitor believes of a node is what that node's own server has answered. */
module MonitorAnswers {
  import opened ReplicaNode
  import opened NodeSelection
  import opened HostReconciliation
  import opened ReadPreference
  import opened SlaveSelection
  import opened MonitorProtocol
  import opened MonitorSafety
  import opened MonitorTheorems

  /** The node is listed as what `r` said of it; a claim to be master may have been withdrawn since. */
  predicate Describes(n: Node, r: Reply) {
    r.Answer? && n.secondary == r.secondary && n.hidden == r.hidden && n.tags == r.tags && (n.ismaster ==> r.isMaster)
  }

  /** Nothing has been heard from the node's server yet. */
  predicate Unheard(n: Node) {
    !n.secondary && !n.hidden && !n.ismaster && n.tags.None?
  }

  /** Apart from its health and a withdrawn claim to be master the node is as it was. */
  predicate SameAnswer(n: Node, n': Node) {
    n' == n.(ok := n'.ok, ismaster := n'.ismaster) && (n'.ismaster ==> n.ismaster)
  }

  /** The node has just been given what its own connection answered. */
  ghost predicate JustAnswered(s: State, t: Tid, n': Node) {
    var pc := s.At(t);
    pc.Update? && pc.reply.Answer? && s.ConnMatch(pc.call) && n' == Updated(s.nodes[pc.call.offset], pc.reply)
  }

  /** Where a node comes from that is in the list after a step of `t` from `s`. */
  ghost predicate Origin(s: State, t: Tid, n': Node) {
    || Unheard(n')
    || (exists n :: n in s.nodes && SameAnswer(n, n') && (n'.ismaster == n.ismaster || s.At(t).NoPrimary?))
    || JustAnswered(s, t, n')
  }

  ghost predicate Origins(s: State, t: Tid, nodes: seq<Node>) {
    forall n' :: n' in nodes ==> Origin(s, t, n')
  }

  lemma OriginsOfSame(s: State, t: Tid)
    ensures Origins(s, t, s.nodes)
  {
    forall n | n in s.nodes
      ensures Origin(s, t, n)
    {
      assert SameAnswer(n, n);
    }
  }

  lemma OriginsOfOk(s: State, t: Tid, i: nat, ok: bool)
    requires i < |s.nodes|
    ensures Origins(s, t, s.nodes[i := s.nodes[i].(ok := ok)])
  {
    OriginsOfSame(s, t);
    assert SameAnswer(s.nodes[i], s.nodes[i].(ok := ok));
    assert Origin(s, t, s.nodes[i].(ok := ok));
  }

  lemma OriginsOfNotMasters(s: State, t: Tid)
    requires s.At(t).NoPrimary?
    ensures Origins(s, t, NotMasters(s.nodes))
  {
    forall n' | n' in NotMasters(s.nodes)
      ensures Origin(s, t, n')
    {
      var i :| 0 <= i < |s.nodes| && NotMasters(s.nodes)[i] == n';
      assert SameAnswer(s.nodes[i], n');
    }
  }

  lemma {:induction false} KeepComesFrom(nodes: seq<Node>, found: set<int>, i: nat)
    requires i <= |nodes|
    ensures forall n :: n in Keep(nodes, found, i) ==> n in nodes
    decreases |nodes| - i
  {
    if i < |nodes| {
      KeepComesFrom(nodes, found, i + 1);
    }
  }

  lemma {:induction false} OriginsOfAdded(s: State, t: Tid, nodes: seq<Node>, added: seq<string>)
    requires Origins(s, t, nodes)
    ensures Origins(s, t, AddAll(nodes, added).nodes)
    decreases |added|
  {
    hide Parse;
    hide Origin;
    hide ConnectionName;
    if added != [] && Parse(added[0]).Success? {
      var h := Parse(added[0]).value;
      var n := NewNode(h, ConnectionName(h));
      NewIsUnheard(s, t, h, ConnectionName(h));
      OriginsOfAdded(s, t, nodes + [n], added[1..]);
    }
  }

  lemma NewIsUnheard(s: State, t: Tid, h: Host, conn: string)
    requires h.At?
    ensures Origin(s, t, NewNode(h, conn))
  {
  }

  lemma OriginsOfReconciled(s: State, t: Tid, hosts: HostList)
    ensures var r := Reconcile(s.nodes, hosts); !r.Unchanged? ==> Origins(s, t, r.nodes)
  {
    hide ShouldChange;
    hide Diff;
    hide AddAll;
    OriginsOfSame(s, t);
    var d := Diff(s.nodes, hosts, 0, [], {});
    if d.Success? {
      KeepComesFrom(s.nodes, d.value.1, 0);
      hide Keep;
      OriginsOfAdded(s, t, Keep(s.nodes, d.value.1, 0), d.value.0);
    }
  }

  lemma ConnectionOrigins(s: State, t: Tid, e: Event)
    requires Ready(s, t)
    ensures Origins(s, t, StepConnection(s, t, e).nodes)
  {
    hide Origins;
    hide Reconcile;
    hide FindEntry;
    hide Parse;
    hide CountKnown;
    hide ShouldChange;
    hide Updated;
    hide CallOk;
    hide InSets;
    OriginsOfSame(s, t);
    match s.At(t) {
      case WrongSet(call) => OriginsOfOk(s, t, call.offset, false);
      case Caught(call) =>
        if s.ConnMatch(call) {
          OriginsOfOk(s, t, call.offset, false);
        }
      case StatusSet(_, members, m) => OriginsOfOk(s, t, m, members[0].healthy.value);
      case Update(call, r) => OriginsOfUpdate(s, t);
      case Slow(_, hosts) => OriginsOfReconciled(s, t, hosts);
      case _ =>
    }
  }

  lemma OriginsOfUpdate(s: State, t: Tid)
    requires s.At(t).Update? && s.At(t).reply.Answer? && s.ConnMatch(s.At(t).call)
    ensures var call := s.At(t).call;
      Origins(s, t, s.nodes[call.offset := Updated(s.nodes[call.offset], s.At(t).reply)])
  {
    hide Updated;
    OriginsOfSame(s, t);
    var call := s.At(t).call;
    assert Origin(s, t, Updated(s.nodes[call.offset], s.At(t).reply));
  }

  lemma BeginOrigins(s: State, t: Tid)
    requires Ready(s, t) && s.At(t).Begin?
    ensures Origins(s, t, StepBegin(s, t, s.At(t).op).nodes)
  {
    hide Origins;
    hide Find;
    hide IndexOf;
    hide Slave;
    hide Chosen;
    hide PcOk;
    OriginsOfSame(s, t);
    match s.At(t).op {
      case NotifyFailure(server) =>
        if 0 <= s.master < |s.nodes| {
          OriginsOfOk(s, t, s.master, false);
        }
      case NotifySlaveFailure(text) =>
        var x := Find(s.nodes, text);
        if x.Success? && x.value >= 0 {
          OriginsOfOk(s, t, x.value, false);
        }
      case _ =>
    }
  }

  lemma RoundOrigins(s: State, t: Tid)
    ensures Origins(s, t, StepRound(s, t).nodes)
  {
    hide Origins;
    hide Find;
    OriginsOfSame(s, t);
    if s.At(t).NoPrimary? {
      OriginsOfNotMasters(s, t);
    }
  }

  lemma SeedsOrigins(s: State, t: Tid, e: Event)
    ensures Origins(s, t, StepSeeds(s, t, e).nodes)
  {
    hide Origins;
    hide Find;
    hide ConnectionName;
    OriginsOfSame(s, t);
  }

  /**
   * Between two answers of its own server a node only changes its health and, when a check has found no primary, loses a
   * claim to be master: after any step a node is new, or an old one but for these, or has just been given what its own
   * connection answered.
   */
  lemma NodeOrigin(s: State, t: Tid, e: Event)
    requires Ready(s, t)
    ensures Origins(s, t, Step(s, t, e).nodes)
  {
    hide StepConnection;
    hide StepRound;
    hide StepSeeds;
    hide StepBegin;
    hide Origins;
    hide Chosen;
    OriginsOfSame(s, t);
    ConnectionOrigins(s, t, e);
    RoundOrigins(s, t);
    SeedsOrigins(s, t, e);
    if s.At(t).Begin? {
      BeginOrigins(s, t);
    }
  }

  /** So between two answers of its server what a node is eligible for changes with its health only. */
  lemma EligibilityFollowsAnswers(s: State, t: Tid, e: Event, n': Node, w: Wanted)
    requires Ready(s, t) && n' in Step(s, t, e).nodes && !Unheard(n') && !JustAnswered(s, t, n')
    ensures exists n ::
      && n in s.nodes && n.conn == n'.conn && n.addr == n'.addr
      && (Eligible(w, n') <==> n'.ok && Eligible(w, n.(ok := true)))
  {
    NodeOrigin(s, t, e);
    hide Step;
    hide Ready;
    hide Updated;
    assert Origin(s, t, n');
    var n :| n in s.nodes && SameAnswer(n, n');
    assert n.(ok := true).Matches(w.tag) <==> n'.Matches(w.tag);
  }

  // ----- Over whole runs -----

  predicate Asking(s: State, t: Tid, conn: string) {
    s.At(t).Ask? && s.At(t).call.conn == conn
  }

  /** In the course of the run the server behind `conn` has given the answer `r`, and as a member of the set. */
  ghost predicate Heard(start: State, moves: seq<Move>, conn: string, r: Reply) {
    && r.Answer? && r.rightSet
    && exists k :: 0 <= k < |moves| && moves[k].event == Replied(r) && Asking(Run(start, moves[..k]), moves[k].thread, conn)
  }

  lemma HeardStays(start: State, moves: seq<Move>, conn: string, r: Reply)
    requires moves != [] && Heard(start, moves[..|moves| - 1], conn, r)
    ensures Heard(start, moves, conn, r)
  {
    hide Run;
    var before := moves[..|moves| - 1];
    var k :| 0 <= k < |before| && before[k].event == Replied(r) && Asking(Run(start, before[..k]), before[k].thread, conn);
    assert before[..k] == moves[..k];
  }

  ghost predicate NodeKnown(start: State, moves: seq<Move>, n: Node) {
    Unheard(n) || exists r :: Describes(n, r) && Heard(start, moves, n.conn, r)
  }

  ghost predicate PcKnown(start: State, moves: seq<Move>, pc: Pc) {
    pc.Update? ==> Heard(start, moves, pc.call.conn, pc.reply)
  }

  /** Where a thread that goes to the update comes from. */
  predicate UpdateOrigin(s: State, t: Tid, e: Event, pc: Pc) {
    pc.Update? ==> s.At(t) == pc || (e == Replied(pc.reply) && pc.reply.Answer? && pc.reply.rightSet && Asking(s, t, pc.call.conn))
  }

  lemma ConnectionUpdates(s: State, t: Tid, e: Event)
    requires Ready(s, t)
    ensures UpdateOrigin(s, t, e, StepConnection(s, t, e).At(t))
  {
    hide Reconcile;
    hide FindEntry;
    hide Parse;
    hide Updated;
    hide CountKnown;
    hide ShouldChange;
    hide CallOk;
    hide InSets;
  }

  lemma RoundUpdates(s: State, t: Tid, e: Event)
    ensures UpdateOrigin(s, t, e, StepRound(s, t).At(t))
  {
    hide Find;
  }

  lemma SeedsUpdates(s: State, t: Tid, e: Event)
    ensures UpdateOrigin(s, t, e, StepSeeds(s, t, e).At(t))
  {
    hide Find;
    hide ConnectionName;
  }

  lemma BeginUpdates(s: State, t: Tid, e: Event)
    requires s.At(t).Begin?
    ensures UpdateOrigin(s, t, e, StepBegin(s, t, s.At(t).op).At(t))
  {
    hide Find;
    hide IndexOf;
    hide Slave;
    hide Chosen;
  }

  /** Only an answer makes a thread carry one to the update. */
  lemma UpdateComesFromAsk(s: State, t: Tid, e: Event)
    requires Ready(s, t)
    ensures UpdateOrigin(s, t, e, Step(s, t, e).At(t))
  {
    hide StepConnection;
    hide StepRound;
    hide StepSeeds;
    hide StepBegin;
    hide Chosen;
    hide PcOk;
    ConnectionUpdates(s, t, e);
    RoundUpdates(s, t, e);
    SeedsUpdates(s, t, e);
    if s.At(t).Begin? {
      BeginUpdates(s, t, e);
    }
  }

  lemma NodeStaysKnown(start: State, moves: seq<Move>, n: Node, n': Node)
    requires moves != [] && NodeKnown(start, moves[..|moves| - 1], n) && SameAnswer(n, n')
    ensures NodeKnown(start, moves, n')
  {
    hide Heard;
    if !Unheard(n) {
      var r :| Describes(n, r) && Heard(start, moves[..|moves| - 1], n.conn, r);
      HeardStays(start, moves, n.conn, r);
      assert Describes(n', r);
    }
  }

  lemma UpdatedIsKnown(start: State, moves: seq<Move>, n: Node, r: Reply)
    requires r.Answer? && moves != [] && Heard(start, moves[..|moves| - 1], n.conn, r)
    ensures NodeKnown(start, moves, Updated(n, r))
  {
    hide Heard;
    HeardStays(start, moves, n.conn, r);
    assert Describes(Updated(n, r), r);
  }

  lemma KnownStep(start: State, moves: seq<Move>, n': Node)
    requires moves != []
    requires var m, s := moves[|moves| - 1], Run(start, moves[..|moves| - 1]);
      && Origin(s, m.thread, n')
      && (forall n :: n in s.nodes ==> NodeKnown(start, moves[..|moves| - 1], n))
      && PcKnown(start, moves[..|moves| - 1], s.At(m.thread))
    ensures NodeKnown(start, moves, n')
  {
    hide Run;
    hide Heard;
    hide Updated;
    hide SameAnswer;
    var m, s := moves[|moves| - 1], Run(start, moves[..|moves| - 1]);
    if !Unheard(n') {
      if n :| n in s.nodes && SameAnswer(n, n') {
        hide NodeKnown;
        NodeStaysKnown(start, moves, n, n');
      } else {
        var pc := s.At(m.thread);
        UpdatedIsKnown(start, moves, s.nodes[pc.call.offset], pc.reply);
      }
    }
  }

  lemma PcStaysKnown(start: State, moves: seq<Move>, u: Tid)
    requires moves != []
    requires var m, s := moves[|moves| - 1], Run(start, moves[..|moves| - 1]);
      && Ready(s, m.thread)
      && PcKnown(start, moves[..|moves| - 1], s.At(u))
      && (u != m.thread ==> Run(start, moves).At(u) == s.At(u))
    ensures PcKnown(start, moves, Run(start, moves).At(u))
  {
    var m, s := moves[|moves| - 1], Run(start, moves[..|moves| - 1]);
    UpdateComesFromAsk(s, m.thread, m.event);
    assert Run(start, moves) == Step(s, m.thread, m.event);
    hide Run;
    hide Step;
    hide Ready;
    var pc := Run(start, moves).At(u);
    if pc.Update? {
      if s.At(u) == pc {
        HeardStays(start, moves, pc.call.conn, pc.reply);
      } else {
        assert moves[|moves| - 1] == m;
      }
    }
  }

  lemma {:induction false} RunIsKnown(seeds: seq<Host>, threshold: int, moves: seq<Move>)
    ensures var start, s := Init(seeds, threshold), Run(Init(seeds, threshold), moves);
      && (forall n :: n in s.nodes ==> NodeKnown(start, moves, n))
      && (forall t :: PcKnown(start, moves, s.At(t)))
    decreases |moves|
  {
    hide Step;
    hide NodeKnown;
    hide PcKnown;
    hide Origin;
    var start, s' := Init(seeds, threshold), Run(Init(seeds, threshold), moves);
    if moves == [] {
      NoneKnown(start);
    } else {
      var before, m := moves[..|moves| - 1], moves[|moves| - 1];
      RunIsKnown(seeds, threshold, before);
      InvRun(seeds, threshold, before);
      var s := Run(start, before);
      InvStep(s, m.thread, m.event);
      NodeOrigin(s, m.thread, m.event);
      assert s' == Step(s, m.thread, m.event);
      hide Run;
      hide Init;
      forall n' | n' in s'.nodes
        ensures NodeKnown(start, moves, n')
      {
        KnownStep(start, moves, n');
      }
      forall u: Tid
        ensures PcKnown(start, moves, s'.At(u))
      {
        PcStaysKnown(start, moves, u);
      }
    }
  }

  lemma NoneKnown(start: State)
    requires start.threads == map[]
    ensures forall t :: PcKnown(start, [], start.At(t))
  {
  }

  /**
   * In every reachable state a node passes for a secondary, matches a tag set or passes for master only if its own
   * server has answered so.
   */
  lemma EligibleAsAnswered(seeds: seq<Host>, threshold: int, moves: seq<Move>, n: Node, w: Wanted)
    requires n in Run(Init(seeds, threshold), moves).nodes
    ensures Eligible(w, n) && (w.secOnly || w.tag != []) ==>
      exists r :: Heard(Init(seeds, threshold), moves, n.conn, r)
        && (w.secOnly ==> r.secondary && !r.hidden) && n.(tags := r.tags).Matches(w.tag)
    ensures n.ismaster ==> exists r :: Heard(Init(seeds, threshold), moves, n.conn, r) && r.isMaster
  {
    hide Run;
    hide Heard;
    RunIsKnown(seeds, threshold, moves);
    var start := Init(seeds, threshold);
    assert NodeKnown(start, moves, n);
    if !Unheard(n) {
      var r :| Describes(n, r) && Heard(start, moves, n.conn, r);
      assert n.(tags := r.tags) == n;
    }
  }
}
