/** What every run of the replica-set monitor keeps, whatever the threads and the network do. */
module MonitorSafety {
  import opened Wrappers
  import opened ReplicaNode
  import opened HostReconciliation
  import opened ReconciliationLaws
  import opened ReadPreference
  import opened SlaveSelection
  import opened MonitorProtocol

  // ----- Which locks a thread holds -----

  /** Inside `_checkConnection`, from acquiring `_checkConnectionLock` to releasing it. */
  predicate InConnection(pc: Pc) {
    pc.Match? || pc.Ask? || pc.WrongSet? || pc.Update? || pc.FastSize? || pc.FastFind? || pc.Slow? || pc.AskStatus?
    || pc.StatusFind? || pc.StatusSet? || pc.Caught? || pc.Release?
  }

  predicate SiteInSets(site: Site) {
    match site
    case AtIndex(r) => r.after.ToSets?
    case AtProbable(r, _) => r.after.ToSets?
    case AtMaster(_) => false
    case AtSeed(_) => true
  }

  /** Inside `_populateHosts_inSetsLock`, whatever it has called. */
  predicate InSets(pc: Pc) {
    match pc
    case SeedsStart => true
    case SeedFind(_) => true
    case SeedConnect(_) => true
    case ReleaseSets(_) => true
    case RoundHead(r) => r.after.ToSets?
    case RoundNext(r) => r.after.ToSets?
    case FindProbable(r, _) => r.after.ToSets?
    case NoPrimary(r) => r.after.ToSets?
    case Claim(call) => SiteInSets(call.site)
    case Acquire(call) => SiteInSets(call.site)
    case _ => InConnection(pc) && SiteInSets(pc.call.site)
  }

  // ----- The invariant -----

  /** What a thread between two selections still has to try: only `PrimaryOnly` keeps its tag list unused. */
  predicate SelectOk(preference: Preference, tags: seq<TagEntry>, position: nat) {
    position <= |tags| && (preference != PrimaryOnly ==> position == |tags|)
  }

  predicate RoundOk(r: Round) {
    r.after.ToSelect? ==> SelectOk(r.after.preference, r.after.tags, r.after.position)
  }

  predicate SiteOk(site: Site) {
    match site
    case AtIndex(r) => RoundOk(r)
    case AtProbable(r, _) => RoundOk(r)
    case _ => true
  }

  predicate CallOk(s: State, call: Call) {
    (call.isMaster ==> call.conn in s.claimed) && SiteOk(call.site)
  }

  /** The index a thread carries from one critical section to the next still means what it meant when it was found. */
  predicate Carried(s: State, pc: Pc) {
    match pc
    case SeedConnect(seeds) => seeds != []
    case Match(call) => call.offset >= 0
    case Ask(call) => call.offset >= 0 ==> s.ConnMatch(call)
    case WrongSet(call) => s.ConnMatch(call)
    case Update(call, r) => r.Answer? && s.ConnMatch(call)
    case FastFind(call, hosts, j, origHosts) =>
      j <= |hosts| && origHosts == |s.nodes| && CountKnown(s.nodes, hosts, j) == CountKnown(s.nodes, hosts, 0)
    case Slow(call, hosts) => ShouldChange(s.nodes, hosts) == Success(true)
    case StatusSet(call, members, m) =>
      && members != [] && members[0].name.Some? && members[0].healthy.Some?
      && m < |s.nodes| && Parse(members[0].name.value) == Success(s.nodes[m].addr)
    case _ => true
  }

  predicate PcOk(s: State, t: Tid) {
    var pc := s.At(t);
    && (InConnection(pc) <==> s.checkLock == Some(t))
    && (InSets(pc) <==> s.setsLock == Some(t))
    && Carried(s, pc)
    && match pc
       case SelectLast(preference, tags, position) => SelectOk(preference, tags, position)
       case RoundHead(r) => RoundOk(r)
       case RoundNext(r) => RoundOk(r)
       case FindProbable(r, _) => RoundOk(r)
       case NoPrimary(r) => RoundOk(r)
       case Acquire(call) => CallOk(s, call)
       case Claim(call) => call.isMaster && CallOk(s, call) && (call.site.AtIndex? || call.site.AtProbable?)
       case _ => InConnection(pc) ==> CallOk(s, pc.call)
  }

  /** The cached master is in range, and its connection has answered as primary of the set. */
  predicate MasterOk(s: State) {
    -1 <= s.master < |s.nodes| && (s.master >= 0 ==> s.nodes[s.master].conn in s.claimed)
  }

  ghost predicate Inv(s: State) {
    !s.fault && MasterOk(s) && forall t :: PcOk(s, t)
  }

  // ----- What a step leaves alone -----

  /** The same members in the same places; their health may differ. */
  predicate SameShape(a: seq<Node>, b: seq<Node>) {
    |a| == |b| && forall i :: 0 <= i < |a| ==> a[i].addr == b[i].addr && a[i].conn == b[i].conn
  }

  predicate LockFrame(before: Option<Tid>, after: Option<Tid>, t: Tid) {
    before == after || (before in {None, Some(t)} && after in {None, Some(t)})
  }

  /** What thread `t` may do to the rest: reshape the list only while it holds the connection lock. */
  ghost predicate Frame(s: State, s': State, t: Tid) {
    && (SameShape(s.nodes, s'.nodes) || s.At(t).Slow?)
    && s.claimed <= s'.claimed
    && LockFrame(s.checkLock, s'.checkLock, t)
    && LockFrame(s.setsLock, s'.setsLock, t)
    && forall u :: u != t ==> s'.At(u) == s.At(u)
  }

  ghost predicate Kept(s: State, s': State, t: Tid) {
    !s'.fault && MasterOk(s') && PcOk(s', t) && Frame(s, s', t)
  }

  // ----- Steps inside `_checkConnection` -----

  lemma FindShape(a: seq<Node>, b: seq<Node>, server: string)
    requires SameShape(a, b)
    ensures Find(a, server) == Find(b, server)
  {
    hide Parse;
    if a != [] && Parse(server).Success? {
      var host := Parse(server).value;
      var i, j := IndexOf(a, host, 0), IndexOf(b, host, 0);
      assert i >= 0 ==> b[i].addr == host;
      assert j >= 0 ==> a[j].addr == host;
    }
  }

  lemma {:induction false} CountShape(a: seq<Node>, b: seq<Node>, hosts: HostList, j: nat)
    requires SameShape(a, b) && j <= |hosts|
    ensures CountKnown(a, hosts, j) == CountKnown(b, hosts, j)
    decreases |hosts| - j
  {
    hide Find;
    hide SameShape;
    if j < |hosts| {
      if hosts[j].Some? {
        FindShape(a, b, hosts[j].value);
      }
      CountShape(a, b, hosts, j + 1);
    }
  }

  /** A step starts from here: the shared invariant and the stepping thread's own part. */
  ghost predicate Ready(s: State, t: Tid) {
    !s.fault && MasterOk(s) && PcOk(s, t)
  }

  lemma AcquireKeeps(s: State, t: Tid, e: Event)
    requires Ready(s, t) && s.At(t).Acquire?
    ensures Kept(s, StepConnection(s, t, e), t)
  {
    hide CountKnown;
    hide ShouldChange;
    hide Parse;
  }

  lemma MatchKeeps(s: State, t: Tid, e: Event)
    requires Ready(s, t) && s.At(t).Match?
    ensures Kept(s, StepConnection(s, t, e), t)
  {
    hide CountKnown;
    hide ShouldChange;
    hide Parse;
  }

  lemma AskKeeps(s: State, t: Tid, e: Event)
    requires Ready(s, t) && s.At(t).Ask?
    ensures Kept(s, StepConnection(s, t, e), t)
  {
    if e.Replied? {
      ReplyKeeps(s, t, s.At(t).call, e.reply);
    }
    hide StepReply;
    hide PcOk;
  }

  lemma ReplyKeeps(s: State, t: Tid, call: Call, r: Reply)
    requires Ready(s, t) && s.At(t) == Ask(call)
    ensures Kept(s, StepReply(s, t, call, r), t)
  {
    hide CountKnown;
    hide ShouldChange;
    hide Parse;
  }

  lemma WrongSetKeeps(s: State, t: Tid, e: Event)
    requires Ready(s, t) && s.At(t).WrongSet?
    ensures Kept(s, StepConnection(s, t, e), t)
  {
    hide CountKnown;
    hide ShouldChange;
    hide Parse;
  }

  lemma UpdateKeeps(s: State, t: Tid, e: Event)
    requires Ready(s, t) && s.At(t).Update?
    ensures Kept(s, StepConnection(s, t, e), t)
  {
    hide CountKnown;
    hide ShouldChange;
    hide Parse;
  }

  lemma FastSizeKeeps(s: State, t: Tid, e: Event)
    requires Ready(s, t) && s.At(t).FastSize?
    ensures Kept(s, StepConnection(s, t, e), t)
  {
    hide CountKnown;
    hide ShouldChange;
    hide Parse;
  }

  lemma FastFindKeeps(s: State, t: Tid, e: Event)
    requires Ready(s, t) && s.At(t).FastFind?
    ensures Kept(s, StepConnection(s, t, e), t)
  {
    hide FindEntry;
    hide Parse;
  }

  lemma SlowKeeps(s: State, t: Tid, e: Event)
    requires Ready(s, t) && s.At(t).Slow?
    ensures Kept(s, StepConnection(s, t, e), t)
  {
    hide Kept;
    hide PcOk;
    hide Reconcile;
    var call, hosts := s.At(t).call, s.At(t).hosts;
    match Reconcile(s.nodes, hosts) {
      case Unchanged => NoChangeKeeps(s, t);
      case Changed(after) => ReshapeKeeps(s, t, after, -1, AskStatus(call));
      case Threw(after, _) =>
        ThrowKeepsMasterInRange(s.nodes, hosts, s.master);
        ReshapeKeeps(s, t, after, s.master, Caught(call));
    }
  }

  lemma NoChangeKeeps(s: State, t: Tid)
    requires Ready(s, t) && s.At(t).Slow?
    ensures Kept(s, s.Go(t, AskStatus(s.At(t).call)), t)
  {
    hide CountKnown;
    hide ShouldChange;
    hide Parse;
  }

  /** Replacing the list, by the holder of the connection lock only. */
  lemma ReshapeKeeps(s: State, t: Tid, after: seq<Node>, master: int, pc: Pc)
    requires Ready(s, t) && s.At(t).Slow? && (pc == AskStatus(s.At(t).call) || pc == Caught(s.At(t).call))
    requires master == -1 || (master == s.master && s.nodes != [] && after == s.nodes)
    ensures Kept(s, s.(nodes := after, master := master).Go(t, pc), t)
  {
    hide CountKnown;
    hide ShouldChange;
    hide Parse;
  }

  lemma AskStatusKeeps(s: State, t: Tid, e: Event)
    requires Ready(s, t) && s.At(t).AskStatus?
    ensures Kept(s, StepConnection(s, t, e), t)
  {
    hide CountKnown;
    hide ShouldChange;
    hide Parse;
  }

  lemma StatusFindKeeps(s: State, t: Tid, e: Event)
    requires Ready(s, t) && s.At(t).StatusFind?
    ensures Kept(s, StepConnection(s, t, e), t)
  {
    hide CountKnown;
    hide ShouldChange;
    hide Parse;
    hide IndexOf;
  }

  lemma StatusSetKeeps(s: State, t: Tid, e: Event)
    requires Ready(s, t) && s.At(t).StatusSet?
    ensures Kept(s, StepConnection(s, t, e), t)
  {
    hide CountKnown;
    hide ShouldChange;
    hide Parse;
  }

  lemma CaughtKeeps(s: State, t: Tid, e: Event)
    requires Ready(s, t) && s.At(t).Caught?
    ensures Kept(s, StepConnection(s, t, e), t)
  {
    hide CountKnown;
    hide ShouldChange;
    hide Parse;
  }

  lemma ReleaseKeeps(s: State, t: Tid, e: Event)
    requires Ready(s, t) && s.At(t).Release?
    ensures Kept(s, StepConnection(s, t, e), t)
  {
    hide CountKnown;
    hide ShouldChange;
    hide Parse;
  }

  // ----- Steps of `_check` -----

  lemma RoundHeadKeeps(s: State, t: Tid)
    requires Ready(s, t) && s.At(t).RoundHead?
    ensures Kept(s, StepRound(s, t), t)
  {
    hide CountKnown;
    hide ShouldChange;
    hide Parse;
  }

  lemma RoundNextKeeps(s: State, t: Tid)
    requires Ready(s, t) && s.At(t).RoundNext?
    ensures Kept(s, StepRound(s, t), t)
  {
    hide CountKnown;
    hide ShouldChange;
    hide Parse;
  }

  lemma ClaimKeeps(s: State, t: Tid)
    requires Ready(s, t) && s.At(t).Claim?
    ensures Kept(s, StepRound(s, t), t)
  {
    var call := s.At(t).call;
    if call.site.AtIndex? {
      IndexClaimKeeps(s, t, call);
    } else {
      ProbableClaimKeeps(s, t, call);
    }
    hide StepClaim;
    hide Kept;
  }

  lemma IndexClaimKeeps(s: State, t: Tid, call: Call)
    requires Ready(s, t) && s.At(t) == Claim(call) && call.site.AtIndex?
    ensures Kept(s, StepClaim(s, t, call), t)
  {
    hide CountKnown;
    hide ShouldChange;
    hide Parse;
  }

  lemma ProbableClaimKeeps(s: State, t: Tid, call: Call)
    requires Ready(s, t) && s.At(t) == Claim(call) && call.site.AtProbable?
    ensures Kept(s, StepClaim(s, t, call), t)
  {
    hide CountKnown;
    hide ShouldChange;
    hide Parse;
  }

  lemma FindProbableKeeps(s: State, t: Tid)
    requires Ready(s, t) && s.At(t).FindProbable?
    ensures Kept(s, StepRound(s, t), t)
  {
    hide CountKnown;
    hide ShouldChange;
    hide Parse;
    hide IndexOf;
  }

  lemma NoPrimaryKeeps(s: State, t: Tid)
    requires Ready(s, t) && s.At(t).NoPrimary?
    ensures Kept(s, StepRound(s, t), t)
  {
    hide CountKnown;
    hide ShouldChange;
    hide Parse;
  }

  // ----- Steps of the operations -----

  lemma TakeSetsKeeps(s: State, t: Tid, e: Event)
    requires Ready(s, t) && s.At(t).TakeSets?
    ensures Kept(s, StepSeeds(s, t, e), t)
  {
    hide CountKnown;
    hide ShouldChange;
    hide Parse;
  }

  lemma SeedsStartKeeps(s: State, t: Tid, e: Event)
    requires Ready(s, t) && s.At(t).SeedsStart?
    ensures Kept(s, StepSeeds(s, t, e), t)
  {
    hide CountKnown;
    hide ShouldChange;
    hide Parse;
  }

  lemma SeedFindKeeps(s: State, t: Tid, e: Event)
    requires Ready(s, t) && s.At(t).SeedFind?
    ensures Kept(s, StepSeeds(s, t, e), t)
  {
    hide CountKnown;
    hide ShouldChange;
    hide Parse;
    hide IndexOf;
    hide ConnectionName;
  }

  lemma SeedConnectKeeps(s: State, t: Tid, e: Event)
    requires Ready(s, t) && s.At(t).SeedConnect?
    ensures Kept(s, StepSeeds(s, t, e), t)
  {
    hide CountKnown;
    hide ShouldChange;
    hide Parse;
  }

  lemma ReleaseSetsKeeps(s: State, t: Tid, e: Event)
    requires Ready(s, t) && s.At(t).ReleaseSets?
    ensures Kept(s, StepSeeds(s, t, e), t)
  {
    hide CountKnown;
    hide ShouldChange;
    hide Parse;
  }

  lemma SelectKeeps(s: State, t: Tid)
    requires Ready(s, t) && s.At(t).Begin? && s.At(t).op.SelectAndCheck?
    ensures Kept(s, StepBegin(s, t, s.At(t).op), t)
  {
    hide CountKnown;
    hide ShouldChange;
    hide Parse;
    hide Try;
    hide Primary;
  }

  lemma SlaveKeeps(s: State, t: Tid)
    requires Ready(s, t) && s.At(t).Begin? && (s.At(t).op.GetSlave? || s.At(t).op.GetAnySlave?)
    ensures Kept(s, StepBegin(s, t, s.At(t).op), t)
  {
    hide CountKnown;
    hide ShouldChange;
    hide Parse;
    hide Slave;
    hide IndexOf;
  }

  lemma NotifyFailureKeeps(s: State, t: Tid, server: Host)
    requires Ready(s, t) && s.At(t).Begin?
    ensures Kept(s, StepNotifyFailure(s, t, server), t)
  {
    hide CountKnown;
    hide ShouldChange;
    hide Parse;
  }

  lemma NotifySlaveKeeps(s: State, t: Tid)
    requires Ready(s, t) && s.At(t).Begin? && s.At(t).op.NotifySlaveFailure?
    ensures Kept(s, StepBegin(s, t, s.At(t).op), t)
  {
    hide IndexOf;
    hide CountKnown;
    hide ShouldChange;
    hide Parse;
  }

  lemma BeginKeeps(s: State, t: Tid)
    requires Ready(s, t) && s.At(t).Begin?
    ensures Kept(s, StepBegin(s, t, s.At(t).op), t)
  {
    match s.At(t).op {
      case SelectAndCheck(_, _) => SelectKeeps(s, t);
      case GetSlave(_) => SlaveKeeps(s, t);
      case GetAnySlave(_) => SlaveKeeps(s, t);
      case NotifyFailure(server) => NotifyFailureKeeps(s, t, server);
      case NotifySlaveFailure(_) => NotifySlaveKeeps(s, t);
      case _ =>
    }
    hide StepSelect;
    hide StepNotifyFailure;
    hide Slave;
    hide IndexOf;
    hide Find;
    hide CountKnown;
    hide ShouldChange;
    hide Parse;
  }

  lemma IdleKeeps(s: State, t: Tid, e: Event)
    requires Ready(s, t) && s.At(t).Idle?
    ensures Kept(s, Step(s, t, e), t)
  {
    hide CountKnown;
    hide ShouldChange;
    hide Parse;
  }

  lemma MasterLastKeeps(s: State, t: Tid, e: Event)
    requires Ready(s, t) && s.At(t).MasterLast?
    ensures Kept(s, Step(s, t, e), t)
  {
    hide CountKnown;
    hide ShouldChange;
    hide Parse;
  }

  lemma SelectLastKeeps(s: State, t: Tid, e: Event)
    requires Ready(s, t) && s.At(t).SelectLast?
    ensures Kept(s, Step(s, t, e), t)
  {
    hide CountKnown;
    hide ShouldChange;
    hide Parse;
    hide Choice;
    hide Try;
    hide Primary;
  }

  lemma CheckMasterKeeps(s: State, t: Tid, e: Event)
    requires Ready(s, t) && s.At(t).CheckMaster?
    ensures Kept(s, Step(s, t, e), t)
  {
    hide CountKnown;
    hide ShouldChange;
    hide Parse;
  }

  lemma CheckUnlockedKeeps(s: State, t: Tid, e: Event)
    requires Ready(s, t) && s.At(t).CheckUnlocked?
    ensures Kept(s, Step(s, t, e), t)
  {
    hide CountKnown;
    hide ShouldChange;
    hide Parse;
  }

  lemma StepKeeps(s: State, t: Tid, e: Event)
    requires Ready(s, t)
    ensures Kept(s, Step(s, t, e), t)
  {
    hide Ready;
    hide Kept;
    hide StepBegin;
    hide StepConnection;
    hide StepRound;
    hide StepSeeds;
    match s.At(t) {
      case Idle(_) => IdleKeeps(s, t, e);
      case Begin(_) => BeginKeeps(s, t);
      case MasterLast => MasterLastKeeps(s, t, e);
      case SelectLast(_, _, _) => SelectLastKeeps(s, t, e);
      case CheckMaster(_) => CheckMasterKeeps(s, t, e);
      case CheckUnlocked(_, _) => CheckUnlockedKeeps(s, t, e);
      case TakeSets => TakeSetsKeeps(s, t, e);
      case SeedsStart => SeedsStartKeeps(s, t, e);
      case SeedFind(_) => SeedFindKeeps(s, t, e);
      case SeedConnect(_) => SeedConnectKeeps(s, t, e);
      case ReleaseSets(_) => ReleaseSetsKeeps(s, t, e);
      case RoundHead(_) => RoundHeadKeeps(s, t);
      case RoundNext(_) => RoundNextKeeps(s, t);
      case Claim(_) => ClaimKeeps(s, t);
      case FindProbable(_, _) => FindProbableKeeps(s, t);
      case NoPrimary(_) => NoPrimaryKeeps(s, t);
      case Acquire(_) => AcquireKeeps(s, t, e);
      case Match(_) => MatchKeeps(s, t, e);
      case Ask(_) => AskKeeps(s, t, e);
      case WrongSet(_) => WrongSetKeeps(s, t, e);
      case Update(_, _) => UpdateKeeps(s, t, e);
      case FastSize(_, _) => FastSizeKeeps(s, t, e);
      case FastFind(_, _, _, _) => FastFindKeeps(s, t, e);
      case Slow(_, _) => SlowKeeps(s, t, e);
      case AskStatus(_) => AskStatusKeeps(s, t, e);
      case StatusFind(_, _) => StatusFindKeeps(s, t, e);
      case StatusSet(_, _, _) => StatusSetKeeps(s, t, e);
      case Caught(_) => CaughtKeeps(s, t, e);
      case Release(_) => ReleaseKeeps(s, t, e);
    }
  }

  // ----- The other threads -----

  /** What another thread carries survives any step that does not reshape the list. */
  lemma CarriedSurvives(s: State, s': State, pc: Pc)
    requires Carried(s, pc) && SameShape(s.nodes, s'.nodes)
    ensures Carried(s', pc)
  {
    if pc.FastFind? {
      CountShape(s.nodes, s'.nodes, pc.hosts, pc.j);
      CountShape(s.nodes, s'.nodes, pc.hosts, 0);
    } else if pc.Slow? {
      CountShape(s.nodes, s'.nodes, pc.hosts, 0);
    }
    hide Parse;
    hide CountKnown;
  }

  /** Outside `_checkConnection` a thread carries nothing that depends on the list. */
  lemma OthersKept(s: State, s': State, t: Tid, u: Tid)
    requires u != t && PcOk(s, t) && PcOk(s, u) && Frame(s, s', t)
    ensures PcOk(s', u)
  {
    if SameShape(s.nodes, s'.nodes) {
      CarriedSurvives(s, s', s.At(u));
    }
    hide Carried;
    hide SameShape;
  }

  // ----- The theorems -----

  lemma InvStep(s: State, t: Tid, e: Event)
    requires Inv(s)
    ensures Inv(Step(s, t, e)) && Frame(s, Step(s, t, e), t)
  {
    hide PcOk;
    hide MasterOk;
    hide Step;
    var s' := Step(s, t, e);
    StepKeeps(s, t, e);
    forall u: Tid
      ensures PcOk(s', u)
    {
      if u != t {
        OthersKept(s, s', t, u);
      }
    }
  }
}
