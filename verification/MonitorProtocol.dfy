/**
 * The replica-set monitor as a state machine. Any number of threads run its operations; one step is one
 * critical section of `_lock`, one acquisition or release of `_checkConnectionLock` or `_setsLock`, one answer
 * from the network, or the one read of `_master` that holds no lock.
 */
module MonitorProtocol {
  import opened CArithmetic
  import opened Wrappers
  import opened ReplicaNode
  import opened HostReconciliation
  import opened ReadPreference
  import opened SlaveSelection

  const NO_MASTER := 10009

  type Tid = nat

  // ----- What happens outside the monitor -----

  datatype Operation =
    | Construct
    | Check(all: bool)
    | GetMaster
    | GetSlave(prev: Host)
    | GetAnySlave(preferLocal: bool)
    | SelectAndCheck(preference: Preference, tags: seq<TagEntry>)
    | NotifyFailure(server: Host)
    | NotifySlaveFailure(text: string)
    | SetThreshold(millis: int)

  /** The answer to `isMaster`. `primary` is empty and `hosts` holds what was reported, as the source reads them. */
  datatype Reply =
    | Lost
    | Answer(isMaster: bool, rightSet: bool, millis: int, hidden: bool, secondary: bool,
             tags: Option<map<string, TagValue>>, primary: string, hosts: HostList)

  /** A member of `replSetGetStatus`; `None` stands for a field of the wrong type, which throws when read. */
  datatype Member = Member(name: Option<string>, healthy: Option<bool>)

  datatype Status = NoStatus | StatusLost | Members(members: seq<Member>)

  datatype Event = Tick | Start(op: Operation) | Replied(reply: Reply) | StatusArrived(status: Status) | Connected(ok: bool)

  // ----- Where a thread is -----

  /** Where `_check` returns to. */
  datatype After = ToCaller | ToSets | ToGetMaster | ToSelect(preference: Preference, tags: seq<TagEntry>, position: nat)

  /** The locals of `_check`. */
  datatype Round = Round(all: bool, retry: nat, i: nat, newMaster: int, tried: bool, after: After)

  /** Where `_checkConnection` returns to. */
  datatype Site = AtIndex(round: Round) | AtProbable(round: Round, probable: nat) | AtMaster(all: bool) | AtSeed(rest: seq<Host>)

  /** The arguments and locals of `_checkConnection`. */
  datatype Call = Call(conn: string, offset: int, site: Site, isMaster: bool, primary: string)

  datatype Pc =
    | Idle(last: Result<Host>)
    | Begin(op: Operation)
    | MasterLast
    | SelectLast(preference: Preference, tags: seq<TagEntry>, position: nat)
    // check
    | CheckMaster(all: bool)
    | CheckUnlocked(all: bool, conn: string)
    // _populateHosts_inSetsLock
    | TakeSets
    | SeedsStart
    | SeedFind(seeds: seq<Host>)
    | SeedConnect(seeds: seq<Host>)
    | ReleaseSets(outcome: Result<Host>)
    // _check
    | RoundHead(round: Round)
    | RoundNext(round: Round)
    | Claim(call: Call)
    | FindProbable(round: Round, primary: string)
    | NoPrimary(round: Round)
    // _checkConnection
    | Acquire(call: Call)
    | Match(call: Call)
    | Ask(call: Call)
    | WrongSet(call: Call)
    | Update(call: Call, reply: Reply)
    | FastSize(call: Call, hosts: HostList)
    | FastFind(call: Call, hosts: HostList, j: nat, origHosts: nat)
    | Slow(call: Call, hosts: HostList)
    | AskStatus(call: Call)
    | StatusFind(call: Call, members: seq<Member>)
    | StatusSet(call: Call, members: seq<Member>, m: nat)
    | Caught(call: Call)
    | Release(call: Call)

  /**
   * The shared state and every thread. `claimed` is history: the connections that have answered as primary of
   * the set. `fault` is raised by an access outside `_nodes` and by a failed `verify( _master < size )`.
   */
  datatype State = State(
    seeds: seq<Host>,
    nodes: seq<Node>,
    master: int,
    nextSlave: nat,
    lastHost: Host,
    failedChecks: nat,
    threshold: int,
    checkLock: Option<Tid>,
    setsLock: Option<Tid>,
    threads: map<Tid, Pc>,
    claimed: set<string>,
    fault: bool)
  {
    function At(t: Tid): Pc {
      if t in threads then threads[t] else Idle(Success(NoHost))
    }

    function Go(t: Tid, pc: Pc): State {
      this.(threads := threads[t := pc])
    }

    function Faulty(t: Tid): State {
      this.(fault := true)
    }

    /** `_checkConnMatch_inlock`. */
    predicate ConnMatch(call: Call) {
      0 <= call.offset < |nodes| && nodes[call.offset].conn == call.conn
    }
  }

  function Init(seeds: seq<Host>, threshold: int): State {
    State(seeds, [], -1, 0, NoHost, 0, threshold, None, None, map[], {}, false)
  }

  // ----- Returning from the two inner functions -----

  function EndCheck(after: After): Pc {
    match after
    case ToCaller => Idle(Success(NoHost))
    case ToSets => ReleaseSets(Success(NoHost))
    case ToGetMaster => MasterLast
    case ToSelect(preference, tags, position) => SelectLast(preference, tags, position)
  }

  /** An exception leaves `_check` and the operation that called it. */
  function ThrowFrom(after: After, code: int): Pc {
    if after.ToSets? then ReleaseSets(Failure(code)) else Idle(Failure(code))
  }

  /** The end of the loop over the nodes. */
  function EndRound(r: Round): Pc {
    if r.newMaster >= 0 then EndCheck(r.after)
    else if r.retry == 0 then RoundHead(r.(retry := 1, i := 0, tried := false))
    else NoPrimary(r)
  }

  function NextIndex(r: Round): Pc {
    RoundNext(r.(i := r.i + 1))
  }

  function QuickCheck(r: Round, primary: string): Pc {
    if !r.tried && primary != "" then FindProbable(r, primary) else NextIndex(r)
  }

  function EndConnection(call: Call): Pc {
    match call.site
    case AtIndex(r) => if call.isMaster then Claim(call) else QuickCheck(r, call.primary)
    case AtProbable(r, _) => if call.isMaster then Claim(call) else NextIndex(r)
    case AtMaster(all) => if call.isMaster && !all then Idle(Success(NoHost)) else RoundHead(Round(all, 0, 0, -1, false, ToCaller))
    case AtSeed(rest) => SeedFind(rest)
  }

  // ----- `_checkConnection` -----

  function Updated(n: Node, r: Reply): (n': Node)
    requires r.Answer?
    ensures n'.addr == n.addr && n'.conn == n.conn
  {
    var ping := if n.pingTimeMillis == 0 then r.millis else n.pingTimeMillis + Truncated(r.millis - n.pingTimeMillis, 4);
    n.(pingTimeMillis := ping, hidden := r.hidden, secondary := r.secondary, ismaster := r.isMaster, tags := r.tags)
  }

  /** Writes one node; outside the list it is a fault. */
  function SetNode(s: State, t: Tid, i: int, n: Node, pc: Pc): State {
    if 0 <= i < |s.nodes| then s.(nodes := s.nodes[i := n]).Go(t, pc) else s.Faulty(t)
  }

  function SetOk(s: State, t: Tid, i: int, ok: bool, pc: Pc): State {
    if 0 <= i < |s.nodes| then SetNode(s, t, i, s.nodes[i].(ok := ok), pc) else s.Faulty(t)
  }

  function StepReply(s: State, t: Tid, call: Call, r: Reply): State {
    match r
    case Lost => s.Go(t, Caught(call))
    case Answer(isMaster, rightSet, _, _, _, _, primary, hosts) =>
      if !rightSet then
        s.Go(t, if call.offset >= 0 then WrongSet(call.(isMaster := false)) else Release(call.(isMaster := false)))
      else
        var call' := call.(isMaster := isMaster, primary := primary);
        s.(claimed := if isMaster then s.claimed + {call.conn} else s.claimed)
         .Go(t, if call.offset >= 0 then Update(call', r) else FastSize(call', hosts))
  }

  function StepFast(s: State, t: Tid, call: Call, hosts: HostList, j: nat, origHosts: nat): Pc {
    if j >= |hosts| then
      if origHosts != j && j > 0 then Slow(call, hosts) else AskStatus(call)
    else
      match FindEntry(s.nodes, hosts[j])
      case Failure(_) => Caught(call)
      case Success(index) => if index >= 0 then FastFind(call, hosts, j + 1, origHosts) else Slow(call, hosts)
  }

  function StepSlow(s: State, t: Tid, call: Call, hosts: HostList): State {
    match Reconcile(s.nodes, hosts)
    case Unchanged => s.Go(t, AskStatus(call))
    case Changed(after) => s.(nodes := after, master := -1).Go(t, AskStatus(call))
    case Threw(after, _) => s.(nodes := after).Go(t, Caught(call))
  }

  function StepStatus(s: State, t: Tid, call: Call, members: seq<Member>): Pc {
    if members == [] then Release(call) else
    match FindEntry(s.nodes, members[0].name)
    case Failure(_) => Caught(call)
    case Success(m) =>
      if m < 0 then StatusFind(call, members[1..])
      else if members[0].healthy.None? then Caught(call)
      else StatusSet(call, members, m)
  }

  function StepConnection(s: State, t: Tid, e: Event): State {
    match s.At(t)
    case Acquire(call) =>
      if s.checkLock.Some? then s
      else s.(checkLock := Some(t)).Go(t, if call.offset >= 0 then Match(call) else Ask(call))
    case Match(call) => s.Go(t, if s.ConnMatch(call) then Ask(call) else Release(call.(isMaster := false)))
    case Ask(call) => if e.Replied? then StepReply(s, t, call, e.reply) else s
    case WrongSet(call) => SetOk(s, t, call.offset, false, Release(call))
    case Update(call, r) =>
      if r.Answer? && 0 <= call.offset < |s.nodes|
      then SetNode(s, t, call.offset, Updated(s.nodes[call.offset], r), FastSize(call, r.hosts))
      else s.Faulty(t)
    case FastSize(call, hosts) => s.Go(t, FastFind(call, hosts, 0, |s.nodes|))
    case FastFind(call, hosts, j, origHosts) => s.Go(t, StepFast(s, t, call, hosts, j, origHosts))
    case Slow(call, hosts) => StepSlow(s, t, call, hosts)
    case AskStatus(call) =>
      if !e.StatusArrived? then s
      else s.Go(t, match e.status case NoStatus => Release(call) case StatusLost => Caught(call) case Members(ms) => StatusFind(call, ms))
    case StatusFind(call, members) => s.Go(t, StepStatus(s, t, call, members))
    case StatusSet(call, members, m) =>
      if members != [] && members[0].healthy.Some?
      then SetOk(s, t, m, members[0].healthy.value, StatusFind(call, members[1..]))
      else s.Faulty(t)
    case Caught(call) =>
      if s.ConnMatch(call) then SetOk(s, t, call.offset, false, Release(call)) else s.Go(t, Release(call))
    case Release(call) => s.(checkLock := None).Go(t, EndConnection(call))
    case _ => s
  }

  // ----- `_check` -----

  function StepClaim(s: State, t: Tid, call: Call): State {
    match call.site
    case AtIndex(r) =>
      if !s.ConnMatch(call) then s.Go(t, EndRound(r))
      else
        var r' := r.(newMaster := call.offset);
        s.(master := call.offset).Go(t, if !r.all then EndCheck(r.after) else QuickCheck(r', call.primary))
    case AtProbable(r, probable) =>
      if !s.ConnMatch(call) then s.Go(t, EndRound(r))
      else s.(master := call.offset).Go(t, if !r.all then EndCheck(r.after) else NextIndex(r.(newMaster := probable)))
    case _ => s.Faulty(t)
  }

  function AllOk(nodes: seq<Node>): bool {
    exists i :: 0 <= i < |nodes| && nodes[i].ok
  }

  function NotMasters(nodes: seq<Node>): (r: seq<Node>)
    ensures |r| == |nodes| && forall i :: 0 <= i < |r| ==> r[i] == nodes[i].(ismaster := false)
  {
    seq(|nodes|, i requires 0 <= i < |nodes| => nodes[i].(ismaster := false))
  }

  function StepRound(s: State, t: Tid): State {
    match s.At(t)
    case RoundHead(r) =>
      if r.all then s.Go(t, RoundNext(r))
      else if s.master >= |s.nodes| then s.Faulty(t)
      else if s.master >= 0 && s.nodes[s.master].ok then s.Go(t, EndCheck(r.after))
      else s.Go(t, RoundNext(r))
    case RoundNext(r) =>
      if r.i >= |s.nodes| then s.Go(t, EndRound(r))
      else s.Go(t, Acquire(Call(s.nodes[r.i].conn, r.i, AtIndex(r), false, "")))
    case Claim(call) => StepClaim(s, t, call)
    case FindProbable(r, primary) =>
      (match Find(s.nodes, primary)
       case Failure(code) => s.Go(t, ThrowFrom(r.after, code))
       case Success(p) =>
         if p < 0 then s.Go(t, NextIndex(r))
         else s.Go(t, Acquire(Call(s.nodes[p].conn, p, AtProbable(r.(tried := true), p), false, ""))))
    case NoPrimary(r) =>
      s.(nodes := NotMasters(s.nodes), master := -1,
         failedChecks := if !r.all then s.failedChecks else if AllOk(s.nodes) then 0 else s.failedChecks + 1)
       .Go(t, EndCheck(r.after))
    case _ => s
  }

  // ----- The operations -----

  ghost function StepSelect(s: State, t: Tid, preference: Preference, tags: seq<TagEntry>): State {
    var (r, rest, last) := Chosen(s.nodes, preference, tags, 0, s.threshold, s.lastHost);
    s.(lastHost := last).Go(t,
      if r == Success(NoHost) then RoundHead(Round(false, 0, 0, -1, false, ToSelect(preference, tags, rest))) else Idle(r))
  }

  ghost function StepSelectLast(s: State, t: Tid, preference: Preference, tags: seq<TagEntry>, position: nat): State {
    if position > |tags| then s.Faulty(t) else
    var (r, _, last) := Chosen(s.nodes, preference, tags, position, s.threshold, s.lastHost);
    s.(lastHost := last).Go(t, Idle(r))
  }

  function StepMasterLast(s: State, t: Tid): State {
    if s.master < 0 then s.Go(t, Idle(Failure(NO_MASTER)))
    else if s.master >= |s.nodes| then s.Faulty(t)
    else s.Go(t, Idle(Success(s.nodes[s.master].addr)))
  }

  function StepNotifyFailure(s: State, t: Tid, server: Host): State {
    if 0 <= s.master < |s.nodes| && server == s.nodes[s.master].addr
    then SetOk(s, t, s.master, false, Idle(Success(NoHost))).(master := -1)
    else s.Go(t, Idle(Success(NoHost)))
  }

  ghost function StepBegin(s: State, t: Tid, op: Operation): State {
    match op
    case Construct => s.Go(t, TakeSets)
    case Check(all) => s.Go(t, if s.nodes == [] then TakeSets else CheckMaster(all))
    case GetMaster =>
      if s.master >= |s.nodes| then s.Faulty(t)
      else if s.master >= 0 && s.nodes[s.master].ok then s.Go(t, Idle(Success(s.nodes[s.master].addr)))
      else s.Go(t, RoundHead(Round(false, 0, 0, -1, false, ToGetMaster)))
    case GetSlave(prev) =>
      var i := if prev.NoHost? || prev.name == "" then -1 else IndexOf(s.nodes, prev, 0);
      s.Go(t, if i >= 0 && s.nodes[i].OkForSecondaryQueries() then Idle(Success(prev)) else Begin(GetAnySlave(true)))
    case GetAnySlave(preferLocal) =>
      var (r, next) := Slave(s.nodes, s.master, s.nextSlave, |s.nodes|, NoHost, preferLocal, s.threshold);
      s.(nextSlave := next).Go(t, Idle(r))
    case SelectAndCheck(preference, tags) => StepSelect(s, t, preference, tags)
    case NotifyFailure(server) => StepNotifyFailure(s, t, server)
    case NotifySlaveFailure(text) =>
      (match Find(s.nodes, text)
       case Failure(code) => s.Go(t, Idle(Failure(code)))
       case Success(x) => if x < 0 then s.Go(t, Idle(Success(NoHost))) else SetOk(s, t, x, false, Idle(Success(NoHost))))
    case SetThreshold(millis) => s.(threshold := millis).Go(t, Idle(Success(NoHost)))
  }

  function StepSeeds(s: State, t: Tid, e: Event): State {
    match s.At(t)
    case TakeSets => if s.setsLock.Some? then s else s.(setsLock := Some(t)).Go(t, SeedsStart)
    case SeedsStart => s.Go(t, if s.nodes != [] then ReleaseSets(Failure(VERIFY_FAILED)) else SeedFind(s.seeds))
    case SeedFind(seeds) =>
      if seeds == [] then s.Go(t, RoundHead(Round(true, 0, 0, -1, false, ToSets)))
      else
        (match Find(s.nodes, ConnectionName(seeds[0]))
         case Failure(code) => s.Go(t, ReleaseSets(Failure(code)))
         case Success(i) => s.Go(t, if i >= 0 then SeedFind(seeds[1..]) else SeedConnect(seeds)))
    case SeedConnect(seeds) =>
      if !e.Connected? || seeds == [] then s
      else s.Go(t, if e.ok then Acquire(Call(ConnectionName(seeds[0]), -1, AtSeed(seeds[1..]), false, "")) else SeedFind(seeds[1..]))
    case ReleaseSets(outcome) => s.(setsLock := None).Go(t, Idle(outcome))
    case _ => s
  }

  /** One step of thread `t`. An event a thread is not waiting for, and a lock that is taken, leave everything as it is. */
  ghost function Step(s: State, t: Tid, e: Event): State {
    match s.At(t)
    case Idle(_) => if e.Start? then s.Go(t, Begin(e.op)) else s
    case Begin(op) => StepBegin(s, t, op)
    case MasterLast => StepMasterLast(s, t)
    case SelectLast(preference, tags, position) => StepSelectLast(s, t, preference, tags, position)
    case CheckMaster(all) =>
      if s.master < 0 then s.Go(t, RoundHead(Round(all, 0, 0, -1, false, ToCaller)))
      else if s.master >= |s.nodes| then s.Faulty(t)
      else s.Go(t, CheckUnlocked(all, s.nodes[s.master].conn))
    case CheckUnlocked(all, conn) => s.Go(t, Acquire(Call(conn, s.master, AtMaster(all), false, "")))
    case TakeSets => StepSeeds(s, t, e)
    case SeedsStart => StepSeeds(s, t, e)
    case SeedFind(_) => StepSeeds(s, t, e)
    case SeedConnect(_) => StepSeeds(s, t, e)
    case ReleaseSets(_) => StepSeeds(s, t, e)
    case RoundHead(_) => StepRound(s, t)
    case RoundNext(_) => StepRound(s, t)
    case Claim(_) => StepRound(s, t)
    case FindProbable(_, _) => StepRound(s, t)
    case NoPrimary(_) => StepRound(s, t)
    case _ => StepConnection(s, t, e)
  }

  datatype Move = Move(thread: Tid, event: Event)

  /** The state after a schedule of moves. */
  ghost function Run(s: State, moves: seq<Move>): State {
    if moves == [] then s else
    var m := moves[|moves| - 1];
    Step(Run(s, moves[..|moves| - 1]), m.thread, m.event)
  }
}
