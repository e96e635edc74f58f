/** The main results about the replica-set monitor, over all schedules of any number of threads. */
module MonitorTheorems {
  import opened Wrappers
  import opened ReplicaNode
  import opened Fairness
  import opened HostReconciliation
  import opened ReconciliationLaws
  import opened ReadPreference
  import opened SlaveSelection
  import opened MonitorProtocol
  import opened MonitorSafety

  lemma {:induction false} InvRun(seeds: seq<Host>, threshold: int, moves: seq<Move>)
    ensures Inv(Run(Init(seeds, threshold), moves))
    decreases |moves|
  {
    hide Step;
    if moves != [] {
      var before := moves[..|moves| - 1];
      InvRun(seeds, threshold, before);
      hide Inv;
      InvStep(Run(Init(seeds, threshold), before), moves[|moves| - 1].thread, moves[|moves| - 1].event);
    }
  }

  /**
   * In every state of every run no access has left the node list, the cached master is in range and has answered
   * as primary, at most one thread is inside `_checkConnection`, and the index it carries still names the
   * connection it was checked against.
   */
  lemma EveryRunIsSafe(seeds: seq<Host>, threshold: int, moves: seq<Move>, t: Tid, u: Tid)
    ensures var s := Run(Init(seeds, threshold), moves);
      && !s.fault
      && -1 <= s.master < |s.nodes|
      && (s.master >= 0 ==> s.nodes[s.master].conn in s.claimed)
      && (InConnection(s.At(t)) && InConnection(s.At(u)) ==> t == u)
      && (InSets(s.At(t)) && InSets(s.At(u)) ==> t == u)
      && (s.At(t).WrongSet? || s.At(t).Update? ==> s.ConnMatch(s.At(t).call))
      && (s.At(t).StatusSet? ==> s.At(t).m < |s.nodes|)
  {
    hide Run;
    hide Init;
    InvRun(seeds, threshold, moves);
    PairIsSafe(Run(Init(seeds, threshold), moves), t, u);
    hide InSets;
  }

  lemma PairIsSafe(s: State, t: Tid, u: Tid)
    requires Inv(s)
    ensures InConnection(s.At(t)) && InConnection(s.At(u)) ==> t == u
    ensures InSets(s.At(t)) && InSets(s.At(u)) ==> t == u
    ensures s.At(t).WrongSet? || s.At(t).Update? ==> s.ConnMatch(s.At(t).call)
    ensures s.At(t).StatusSet? ==> s.At(t).m < |s.nodes|
  {
    assert PcOk(s, t) && PcOk(s, u);
    hide InSets;
  }

  /** Only the thread in the slow path of `_checkHosts`, and only while it holds the lock, changes which nodes there are. */
  lemma OnlyTheHolderReshapes(s: State, t: Tid, e: Event)
    requires Inv(s)
    ensures var s' := Step(s, t, e);
      SameShape(s.nodes, s'.nodes)
      || (s.At(t).Slow? && s.checkLock == Some(t) && !Reconcile(s.nodes, s.At(t).hosts).Unchanged?
          && s'.nodes == Reconcile(s.nodes, s.At(t).hosts).nodes)
  {
    InvStep(s, t, e);
    assert PcOk(s, t);
    if s.At(t).Slow? {
      assert ShouldChange(s.nodes, s.At(t).hosts) == Success(true);
      hide ShouldChange;
      hide Diff;
      hide AddAll;
      hide Keep;
    } else {
      hide Step;
    }
  }

  /**
   * `_checkHosts` drops the lock between entries on its fast path, yet decides what the locked check decides on
   * the list as it is now; the second check under the lock therefore always agrees.
   */
  lemma HostCheckIsAtomic(s: State, t: Tid, e: Event)
    requires Inv(s)
    ensures s.At(t).FastFind? ==>
      match Step(s, t, e).At(t)
      case AskStatus(_) => Reconcile(s.nodes, s.At(t).hosts) == Unchanged
      case Caught(_) => exists code :: Reconcile(s.nodes, s.At(t).hosts) == Threw(s.nodes, code)
      case Slow(_, hosts) => hosts == s.At(t).hosts && ShouldChange(s.nodes, hosts) == Success(true)
      case FastFind(_, hosts, j, _) => hosts == s.At(t).hosts && j == s.At(t).j + 1
      case _ => false
    ensures s.At(t).Slow? ==> Reconcile(s.nodes, s.At(t).hosts) != Unchanged
  {
    assert PcOk(s, t);
    hide Find;
    hide Diff;
    hide AddAll;
    hide Keep;
    if s.At(t).FastFind? {
      var call, hosts, j := s.At(t).call, s.At(t).hosts, s.At(t).j;
      if j < |hosts| && FindEntry(s.nodes, hosts[j]).Failure? {
        assert Reconcile(s.nodes, hosts) == Threw(s.nodes, FindEntry(s.nodes, hosts[j]).code);
      }
    }
  }

  // ----- Answers -----

  /** A host that `getMaster` returns is the cached master at that moment, and has answered as primary of the set. */
  lemma MasterAnswered(s: State, t: Tid, e: Event)
    requires Inv(s) && (s.At(t).MasterLast? || s.At(t) == Begin(GetMaster))
    ensures var pc := Step(s, t, e).At(t);
      match pc
      case Idle(Success(h)) => 0 <= s.master < |s.nodes| && h == s.nodes[s.master].addr && s.nodes[s.master].conn in s.claimed
      case Idle(Failure(code)) => code == NO_MASTER && s.master == -1 && s.At(t).MasterLast?
      case RoundHead(r) => s.At(t).Begin? && !r.all && r.after == ToGetMaster && (s.master == -1 || !s.nodes[s.master].ok)
      case _ => false
  {
    assert PcOk(s, t);
    hide PcOk;
  }

  /**
   * The retry of `selectAndCheckNode` uses the tag list the first try exhausted: whatever the refresh found, it
   * yields no secondary, only the primary where the preference allows one.
   */
  lemma SecondTryFindsNoSecondary(s: State, t: Tid, e: Event)
    requires Inv(s) && s.At(t).SelectLast?
    ensures Step(s, t, e).At(t)
      == Idle(Success(if ByTags(s.At(t).preference) then NoHost else Primary(s.nodes)))
  {
    assert PcOk(s, t);
    hide Primary;
  }

  /**
   * After `notifyFailure` the failed server is not the cached master, whatever it was. If it was, its node is out of use and
   * there is no cached master; if not, nothing has changed.
   */
  lemma FailureIsHeeded(s: State, t: Tid, e: Event, server: Host)
    requires Inv(s) && s.At(t) == Begin(NotifyFailure(server))
    ensures var s' := Step(s, t, e);
      && (s'.master >= 0 ==> s'.master < |s'.nodes| && s'.nodes[s'.master].addr != server)
      && if s.master >= 0 && s.nodes[s.master].addr == server then s'.master == -1 && s'.nodes == s.nodes[s.master := s.nodes[s.master].(ok := false)]
         else s'.master == s.master && s'.nodes == s.nodes
  {
    InvStep(s, t, e);
    hide PcOk;
  }

  /**
   * When a check has found no primary, no node passes for one until the next reply. A full check also counts how often in a
   * row it has found every node out of use.
   */
  lemma FailedCheckLeavesNoPrimary(s: State, t: Tid, e: Event)
    requires Inv(s) && s.At(t).NoPrimary?
    ensures var s' := Step(s, t, e); s'.master == -1 && Primary(s'.nodes) == NoHost && SameShape(s.nodes, s'.nodes)
    ensures var s' := Step(s, t, e);
      && (forall i :: 0 <= i < |s.nodes| ==> s'.nodes[i] == s.nodes[i].(ismaster := false))
      && (s.At(t).round.all && (forall i :: 0 <= i < |s.nodes| ==> !s.nodes[i].ok) ==> s'.failedChecks == s.failedChecks + 1)
      && (s.At(t).round.all && (exists i :: 0 <= i < |s.nodes| && s.nodes[i].ok) ==> s'.failedChecks == 0)
      && (!s.At(t).round.all ==> s'.failedChecks == s.failedChecks)
  {
    NoneIsPrimary(NotMasters(s.nodes));
    hide PcOk;
    hide Primary;
  }

  lemma {:induction false} NoneIsPrimary(nodes: seq<Node>)
    requires forall i :: 0 <= i < |nodes| ==> !nodes[i].ismaster
    ensures Primary(nodes) == NoHost
    decreases |nodes|
  {
    if nodes != [] {
      NoneIsPrimary(nodes[1..]);
    }
  }

  /**
   * The first ping time is taken as it is. From then on the smoothed one lies between the old one and the latest, and moves by
   * a quarter of the distance, rounded down.
   */
  lemma PingIsSmoothed(n: Node, r: Reply)
    requires r.Answer?
    ensures n.pingTimeMillis == 0 ==> Updated(n, r).pingTimeMillis == r.millis
    ensures n.pingTimeMillis != 0 ==>
      var (before, after, latest) := (n.pingTimeMillis, Updated(n, r).pingTimeMillis, r.millis);
      && (before <= latest ==> before <= after <= latest && 4 * (after - before) <= latest - before < 4 * (after - before) + 4)
      && (latest <= before ==> latest <= after <= before && 4 * (before - after) <= before - latest < 4 * (before - after) + 4)
  {
  }

  /**
   * A member's health is written to the node with that member's address, although the lock was dropped between
   * finding it and writing.
   */
  lemma StatusIsHeeded(s: State, t: Tid, e: Event)
    requires Inv(s) && s.At(t).StatusSet?
    ensures var (s', m, members) := (Step(s, t, e), s.At(t).m, s.At(t).members);
      && m < |s.nodes| == |s'.nodes|
      && members != [] && members[0].name.Some? && Parse(members[0].name.value) == Success(s'.nodes[m].addr)
      && members[0].healthy == Some(s'.nodes[m].ok)
      && forall i :: 0 <= i < |s.nodes| && i != m ==> s'.nodes[i] == s.nodes[i]
  {
    assert PcOk(s, t);
    hide Parse;
    hide InSets;
  }

  /** A connection that answers for another set, or fails, takes its own node out of use and no other. */
  lemma FailureMarksItsNode(s: State, t: Tid, e: Event)
    requires Inv(s) && (s.At(t).WrongSet? || s.At(t).Caught?)
    ensures var (s', call) := (Step(s, t, e), s.At(t).call);
      && |s'.nodes| == |s.nodes|
      && (s.At(t).WrongSet? ==> s.ConnMatch(call))
      && (s.ConnMatch(call) ==> s'.nodes[call.offset].conn == call.conn && !s'.nodes[call.offset].ok)
      && forall i :: 0 <= i < |s.nodes| && !(s.ConnMatch(call) && i == call.offset) ==> s'.nodes[i] == s.nodes[i]
  {
    assert PcOk(s, t);
    hide InSets;
  }

  /** Only the node whose connection answered as primary becomes the master, and only while it still has its place. */
  lemma ClaimElectsTheAnswerer(s: State, t: Tid, e: Event)
    requires Inv(s) && s.At(t).Claim?
    ensures var (s', call) := (Step(s, t, e), s.At(t).call);
      && s'.nodes == s.nodes && call.conn in s.claimed
      && if s.ConnMatch(call) then s'.master == call.offset && s'.nodes[s'.master].conn == call.conn else s'.master == s.master
  {
    assert PcOk(s, t);
    hide InSets;
  }

  // ----- No deadlock -----

  /** Waiting for a lock another thread holds. */
  predicate Blocked(s: State, t: Tid) {
    (s.At(t).Acquire? && s.checkLock.Some?) || (s.At(t).TakeSets? && s.setsLock.Some?)
  }

  /** What the environment has to supply for a thread to go on. */
  function Stimulus(pc: Pc): Event {
    match pc
    case Idle(_) => Start(GetMaster)
    case Ask(_) => Replied(Lost)
    case AskStatus(_) => StatusArrived(NoStatus)
    case SeedConnect(_) => Connected(false)
    case _ => Tick
  }

  lemma ConnectionMoves(s: State, t: Tid)
    requires Ready(s, t) && InConnection(s.At(t))
    ensures StepConnection(s, t, Stimulus(s.At(t))).At(t) != s.At(t)
  {
    hide Reconcile;
    hide FindEntry;
    hide Parse;
    hide CountKnown;
    hide ShouldChange;
    hide CallOk;
  }

  lemma AcquireMoves(s: State, t: Tid)
    requires s.At(t).Acquire? && s.checkLock.None?
    ensures StepConnection(s, t, Tick).At(t) != s.At(t)
  {
  }

  lemma RoundMoves(s: State, t: Tid)
    requires Ready(s, t)
    requires s.At(t).RoundHead? || s.At(t).RoundNext? || s.At(t).Claim? || s.At(t).FindProbable? || s.At(t).NoPrimary?
    ensures StepRound(s, t).At(t) != s.At(t)
  {
    hide Find;
    hide InSets;
    hide RoundOk;
  }

  lemma SeedsMove(s: State, t: Tid)
    requires Ready(s, t) && !Blocked(s, t)
    requires s.At(t).TakeSets? || s.At(t).SeedsStart? || s.At(t).SeedFind? || s.At(t).SeedConnect? || s.At(t).ReleaseSets?
    ensures StepSeeds(s, t, Stimulus(s.At(t))).At(t) != s.At(t)
  {
    hide Find;
    hide ConnectionName;
    hide InSets;
  }

  lemma BeginMoves(s: State, t: Tid)
    requires Ready(s, t) && s.At(t).Begin?
    ensures StepBegin(s, t, s.At(t).op).At(t) != s.At(t)
  {
    hide Find;
    hide IndexOf;
    hide Slave;
    hide Chosen;
    hide InSets;
  }

  /** A thread inside an operation that is not waiting for a taken lock goes on. */
  lemma UnblockedMoves(s: State, t: Tid)
    requires Ready(s, t) && !s.At(t).Idle? && !Blocked(s, t)
    ensures Step(s, t, Stimulus(s.At(t))).At(t) != s.At(t)
  {
    hide StepConnection;
    hide StepRound;
    hide StepSeeds;
    hide StepBegin;
    if InConnection(s.At(t)) {
      ConnectionMoves(s, t);
    } else if s.At(t).Acquire? {
      AcquireMoves(s, t);
    } else if s.At(t).Begin? {
      BeginMoves(s, t);
    } else if s.At(t).TakeSets? || s.At(t).SeedsStart? || s.At(t).SeedFind? || s.At(t).SeedConnect? || s.At(t).ReleaseSets? {
      SeedsMove(s, t);
    } else if s.At(t).RoundHead? || s.At(t).RoundNext? || s.At(t).Claim? || s.At(t).FindProbable? || s.At(t).NoPrimary? {
      RoundMoves(s, t);
    }
    hide Chosen;
  }

  /** No deadlock: while some thread is inside an operation, some thread inside an operation can take a step. */
  lemma NoDeadlock(s: State, t: Tid) returns (u: Tid)
    requires Inv(s) && !s.At(t).Idle?
    ensures !s.At(u).Idle? && Step(s, u, Stimulus(s.At(u))).At(u) != s.At(u)
    ensures !Blocked(s, t) ==> u == t
  {
    hide Step;
    hide Carried;
    u := t;
    if s.At(u).TakeSets? && s.setsLock.Some? {
      u := s.setsLock.value;
      assert PcOk(s, u);
    }
    if s.At(u).Acquire? && s.checkLock.Some? {
      u := s.checkLock.value;
      assert PcOk(s, u);
    }
    assert PcOk(s, u);
    UnblockedMoves(s, u);
  }

  // ----- Duplicate-free runs -----

  ghost predicate CleanEvent(e: Event) {
    e.Replied? && e.reply.Answer? ==> Clean(e.reply.hosts)
  }

  /** The host list a thread carries through `_checkConnection`. */
  ghost predicate CleanPc(pc: Pc) {
    match pc
    case Update(_, r) => r.Answer? ==> Clean(r.hosts)
    case FastSize(_, hosts) => Clean(hosts)
    case FastFind(_, hosts, _, _) => Clean(hosts)
    case Slow(_, hosts) => Clean(hosts)
    case _ => true
  }

  ghost predicate CleanState(s: State) {
    DistinctAddresses(s.nodes) && forall t :: CleanPc(s.At(t))
  }

  lemma ConnectionStaysClean(s: State, t: Tid, e: Event)
    requires Ready(s, t) && CleanPc(s.At(t)) && CleanEvent(e) && (InConnection(s.At(t)) || s.At(t).Acquire?)
    ensures CleanPc(StepConnection(s, t, e).At(t))
  {
    hide Clean;
    hide Reconcile;
    hide FindEntry;
    hide ShouldChange;
    hide CountKnown;
    hide Parse;
  }

  lemma RoundStaysClean(s: State, t: Tid)
    requires CleanPc(s.At(t))
    ensures CleanPc(StepRound(s, t).At(t))
  {
    hide Clean;
    hide Find;
  }

  lemma SeedsStayClean(s: State, t: Tid, e: Event)
    requires CleanPc(s.At(t))
    ensures CleanPc(StepSeeds(s, t, e).At(t))
  {
    hide Clean;
    hide Find;
    hide ConnectionName;
  }

  lemma BeginStaysClean(s: State, t: Tid)
    requires s.At(t).Begin?
    ensures CleanPc(StepBegin(s, t, s.At(t).op).At(t))
  {
    hide Clean;
    hide Find;
    hide IndexOf;
    hide Slave;
    hide Chosen;
  }

  lemma OthersStayClean(s: State, t: Tid, e: Event)
    requires !InConnection(s.At(t)) && !s.At(t).Acquire? && CleanPc(s.At(t))
    ensures CleanPc(Step(s, t, e).At(t))
  {
    hide Clean;
    hide StepConnection;
    hide StepRound;
    hide StepSeeds;
    hide StepBegin;
    hide Chosen;
    RoundStaysClean(s, t);
    SeedsStayClean(s, t, e);
    if s.At(t).Begin? {
      BeginStaysClean(s, t);
    }
  }

  lemma ShapeDistinct(a: seq<Node>, b: seq<Node>)
    requires SameShape(a, b) && DistinctAddresses(a)
    ensures DistinctAddresses(b)
  {
  }

  lemma CleanStep(s: State, t: Tid, e: Event)
    requires Inv(s) && CleanState(s) && CleanEvent(e)
    ensures CleanState(Step(s, t, e))
  {
    var s' := Step(s, t, e);
    InvStep(s, t, e);
    OnlyTheHolderReshapes(s, t, e);
    assert CleanPc(s.At(t)) && PcOk(s, t);
    if SameShape(s.nodes, s'.nodes) {
      ShapeDistinct(s.nodes, s'.nodes);
    } else {
      NoAliasesNoDuplicates(s.nodes, s.At(t).hosts);
    }
    hide Reconcile;
    if InConnection(s.At(t)) || s.At(t).Acquire? {
      ConnectionStaysClean(s, t, e);
      StepIsConnection(s, t, e);
    } else {
      OthersStayClean(s, t, e);
    }
    hide Step;
    hide StepConnection;
    hide Carried;
    hide InSets;
    hide CleanPc;
    forall u: Tid
      ensures CleanPc(s'.At(u))
    {
      if u != t {
        assert s'.At(u) == s.At(u);
      }
    }
  }

  lemma StepIsConnection(s: State, t: Tid, e: Event)
    requires InConnection(s.At(t)) || s.At(t).Acquire?
    ensures Step(s, t, e) == StepConnection(s, t, e)
  {
    hide StepConnection;
  }

  /**
   * If no reply ever lists one address under two names, no run ever puts an address into the list twice. Entries that
   * are no strings or do not parse, and exceptions, make no difference.
   */
  lemma {:induction false} NodesStayDistinct(seeds: seq<Host>, threshold: int, moves: seq<Move>)
    requires forall i :: 0 <= i < |moves| ==> CleanEvent(moves[i].event)
    ensures DistinctAddresses(Run(Init(seeds, threshold), moves).nodes)
    ensures CleanState(Run(Init(seeds, threshold), moves))
    decreases |moves|
  {
    hide Step;
    hide CleanEvent;
    if moves != [] {
      var before := moves[..|moves| - 1];
      NodesStayDistinct(seeds, threshold, before);
      InvRun(seeds, threshold, before);
      hide Inv;
      hide CleanState;
      CleanStep(Run(Init(seeds, threshold), before), moves[|moves| - 1].thread, moves[|moves| - 1].event);
      CleanIsDistinct(Run(Init(seeds, threshold), moves));
    }
  }

  lemma CleanIsDistinct(s: State)
    requires CleanState(s)
    ensures DistinctAddresses(s.nodes)
  {
  }
}
