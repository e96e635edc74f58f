/** What each operation of the replica-set monitor returns, over all schedules. */
module MonitorOperations {
  import opened Wrappers
  import opened ReplicaNode
  import opened HostReconciliation
  import opened ReadPreference
  import opened SlaveSelection
  import opened MonitorProtocol
  import opened MonitorSafety
  import opened MonitorTheorems
  import opened MonitorRounds
  import opened Sequences

  /** The operation that `t` was last asked for. */
  ghost function Asked(moves: seq<Move>, start: State, t: Tid): Option<Operation> {
    if moves == [] then None else
    var before, m := moves[..|moves| - 1], moves[|moves| - 1];
    if m.thread == t && Run(start, before).At(t).Idle? && m.event.Start? then Some(m.event.op) else Asked(before, start, t)
  }

  /** A check on behalf of this operation, and whether it is to ask every member. */
  predicate ChecksFor(op: Operation, all: bool, after: After) {
    match after
    case ToCaller => op == Check(all)
    case ToSets => (op.Construct? || op.Check?) && all
    case ToGetMaster => op.GetMaster? && !all
    case ToSelect(preference, tags, _) => op == SelectAndCheck(preference, tags) && !all
  }

  predicate CallsFor(op: Operation, site: Site) {
    match site
    case AtIndex(r) => ChecksFor(op, r.all, r.after)
    case AtProbable(r, _) => ChecksFor(op, r.all, r.after)
    case AtMaster(all) => op == Check(all)
    case AtSeed(_) => op.Construct? || op.Check?
  }

  /** Where a thread can be in the course of this operation. */
  predicate Serves(op: Operation, pc: Pc) {
    match pc
    case Idle(_) => true
    case Begin(o) => o == op || (op.GetSlave? && o == GetAnySlave(true))
    case MasterLast => op.GetMaster?
    case SelectLast(preference, tags, _) => op == SelectAndCheck(preference, tags)
    case CheckMaster(all) => op == Check(all)
    case CheckUnlocked(all, _) => op == Check(all)
    case RoundHead(r) => ChecksFor(op, r.all, r.after)
    case RoundNext(r) => ChecksFor(op, r.all, r.after)
    case FindProbable(r, _) => ChecksFor(op, r.all, r.after)
    case NoPrimary(r) => ChecksFor(op, r.all, r.after)
    case _ => if Calling(pc) then CallsFor(op, pc.call.site) else op.Construct? || op.Check?
  }

  /** In a call, what counts is where it was made. */
  lemma CallServes(op: Operation, pc: Pc)
    requires Calling(pc)
    ensures Serves(op, pc) <==> CallsFor(op, pc.call.site)
  {
  }

  lemma ConnectionServes(s: State, t: Tid, e: Event, op: Operation)
    requires Ready(s, t) && Serves(op, s.At(t)) && (s.At(t).Acquire? || InConnection(s.At(t)))
    ensures Serves(op, StepConnection(s, t, e).At(t))
  {
    hide Ready;
    hide Serves;
    hide CallsFor;
    hide StepConnection;
    hide EndConnection;
    var pc := s.At(t);
    ConnectionStep(s, t, e);
    CallServes(op, pc);
    if pc.Release? {
      ReleaseServes(op, pc.call);
    } else {
      CallServes(op, StepConnection(s, t, e).At(t));
    }
  }

  lemma ReleaseServes(op: Operation, call: Call)
    requires CallsFor(op, call.site)
    ensures Serves(op, EndConnection(call))
  {
    if call.site.AtIndex? || call.site.AtProbable? {
      GoingOnServes(op, call.site.round, call.primary);
      CallServes(op, Claim(call));
    }
    hide QuickCheck;
    hide NextIndex;
  }

  lemma RoundServes(s: State, t: Tid, op: Operation)
    requires Serves(op, s.At(t)) && InRound(s.At(t))
    ensures Serves(op, StepRound(s, t).At(t))
  {
    var pc := s.At(t);
    if pc.Claim? {
      CallServes(op, pc);
      ClaimServes(s, t, op);
    } else {
      assert ChecksFor(op, pc.round.all, pc.round.after);
      GoingOnServes(op, pc.round, "");
      RoundServesAs(op, pc.round);
      if StepRound(s, t).At(t).Acquire? {
        CallServes(op, StepRound(s, t).At(t));
      }
    }
    hide Serves;
    hide Find;
    hide StepClaim;
    hide EndRound;
    hide EndCheck;
    hide ThrowFrom;
    hide QuickCheck;
    hide NextIndex;
  }

  /** Whatever a round goes on with is for the same operation. */
  lemma GoingOnServes(op: Operation, r: Round, primary: string)
    requires ChecksFor(op, r.all, r.after)
    ensures Serves(op, EndRound(r)) && Serves(op, EndCheck(r.after)) && Serves(op, QuickCheck(r, primary)) && Serves(op, NextIndex(r))
    ensures forall code :: Serves(op, ThrowFrom(r.after, code))
  {
    EndServes(op, r);
    NextServes(op, r, primary);
    hide Serves;
    hide EndCheck;
    hide ThrowFrom;
    hide QuickCheck;
    hide NextIndex;
    if r.newMaster < 0 {
      RoundServesAs(op, r);
      RoundServesAs(op, r.(retry := 1, i := 0, tried := false));
    }
  }

  lemma EndServes(op: Operation, r: Round)
    requires ChecksFor(op, r.all, r.after)
    ensures Serves(op, EndCheck(r.after)) && forall code :: Serves(op, ThrowFrom(r.after, code))
  {
  }

  lemma RoundServesAs(op: Operation, r: Round)
    requires ChecksFor(op, r.all, r.after)
    ensures Serves(op, RoundHead(r)) && Serves(op, RoundNext(r)) && Serves(op, NoPrimary(r))
  {
  }

  lemma NextServes(op: Operation, r: Round, primary: string)
    requires ChecksFor(op, r.all, r.after)
    ensures Serves(op, QuickCheck(r, primary)) && Serves(op, NextIndex(r))
  {
    RoundServesAs(op, r.(i := r.i + 1));
    assert Serves(op, FindProbable(r, primary));
    hide Serves;
  }

  lemma ClaimServes(s: State, t: Tid, op: Operation)
    requires s.At(t).Claim? && CallsFor(op, s.At(t).call.site) && Serves(op, s.At(t))
    ensures Serves(op, StepClaim(s, t, s.At(t).call).At(t))
  {
    hide Serves;
    var call := s.At(t).call;
    match call.site {
      case AtIndex(r) =>
        GoingOnServes(op, r, call.primary);
        GoingOnServes(op, r.(newMaster := call.offset), call.primary);
      case AtProbable(r, probable) =>
        GoingOnServes(op, r, call.primary);
        GoingOnServes(op, r.(newMaster := probable), call.primary);
      case _ =>
    }
    hide EndRound;
    hide EndCheck;
    hide QuickCheck;
    hide NextIndex;
  }

  lemma SeedsServes(s: State, t: Tid, e: Event, op: Operation)
    requires Serves(op, s.At(t)) && InSeeds(s.At(t))
    ensures Serves(op, StepSeeds(s, t, e).At(t))
  {
    hide Find;
    hide ConnectionName;
  }

  lemma BeginServes(s: State, t: Tid, op: Operation)
    requires Serves(op, s.At(t)) && s.At(t).Begin?
    ensures Serves(op, StepBegin(s, t, s.At(t).op).At(t))
  {
    match s.At(t).op {
      case NotifyFailure(server) => NotifyServes(s, t, op);
      case SelectAndCheck(preference, tags) => SelectServes(s, t, op);
      case _ =>
    }
    hide Find;
    hide IndexOf;
    hide Slave;
    hide StepSelect;
    hide StepNotifyFailure;
  }

  lemma NotifyServes(s: State, t: Tid, op: Operation)
    requires Serves(op, s.At(t)) && s.At(t).Begin? && s.At(t).op.NotifyFailure?
    ensures Serves(op, StepNotifyFailure(s, t, s.At(t).op.server).At(t))
  {
  }

  lemma SelectServes(s: State, t: Tid, op: Operation)
    requires Serves(op, s.At(t)) && s.At(t).Begin? && s.At(t).op.SelectAndCheck?
    ensures Serves(op, StepSelect(s, t, s.At(t).op.preference, s.At(t).op.tags).At(t))
  {
    hide Chosen;
  }

  lemma SingleServes(s: State, t: Tid, e: Event, op: Operation)
    requires var pc := s.At(t); pc.MasterLast? || pc.SelectLast? || pc.CheckMaster? || pc.CheckUnlocked?
    requires Serves(op, s.At(t))
    ensures Serves(op, Step(s, t, e).At(t))
  {
    hide Chosen;
  }

  lemma StepServes(s: State, t: Tid, e: Event, op: Operation)
    requires Ready(s, t) && Serves(op, s.At(t)) && !s.At(t).Idle?
    ensures Serves(op, Step(s, t, e).At(t))
  {
    hide Step;
    hide StepConnection;
    hide StepRound;
    hide StepSeeds;
    hide StepBegin;
    hide Ready;
    hide Serves;
    var pc := s.At(t);
    StepBelongs(s, t, e);
    if pc.Acquire? || InConnection(pc) {
      ConnectionServes(s, t, e, op);
    } else if InRound(pc) {
      RoundServes(s, t, op);
    } else if InSeeds(pc) {
      SeedsServes(s, t, e, op);
    } else if pc.Begin? {
      BeginServes(s, t, op);
    } else {
      SingleServes(s, t, e, op);
    }
  }

  lemma {:induction false} RunServes(seeds: seq<Host>, threshold: int, moves: seq<Move>, t: Tid)
    ensures var start := Init(seeds, threshold);
      var (pc, op) := (Run(start, moves).At(t), Asked(moves, start, t));
      if op.Some? then Serves(op.value, pc) else pc.Idle?
    decreases |moves|
  {
    var start := Init(seeds, threshold);
    if moves != [] {
      var before, m := moves[..|moves| - 1], moves[|moves| - 1];
      RunServes(seeds, threshold, before, t);
      InvRun(seeds, threshold, before);
      var s := Run(start, before);
      assert Run(start, moves) == Step(s, m.thread, m.event);
      hide Run;
      hide Init;
      if m.thread != t {
        OtherStays(s, m.thread, m.event, t);
        hide Step;
        hide Serves;
      } else if s.At(t).Idle? {
        IdleStep(s, t, m.event);
        hide Step;
      } else {
        assert Ready(s, t);
        hide Step;
        StepServes(s, t, m.event, Asked(before, start, t).value);
        hide Serves;
      }
      hide Inv;
    }
  }

  lemma IdleStep(s: State, t: Tid, e: Event)
    requires s.At(t).Idle?
    ensures var pc' := Step(s, t, e).At(t); if e.Start? then pc' == Begin(e.op) else pc' == s.At(t)
  {
  }

  // ----- What operations return -----

  /**
   * `getMaster` returns the cached master of that moment, which has answered as primary of the set, or fails because there
   * is none; any other exception comes from a reply that names a primary that is no address.
   */
  lemma GetMasterReturns(seeds: seq<Host>, threshold: int, moves: seq<Move>, t: Tid, e: Event, r: Result<Host>)
    ensures var start, s := Init(seeds, threshold), Run(Init(seeds, threshold), moves);
      var pc := s.At(t);
      Asked(moves, start, t) == Some(GetMaster) && !pc.Idle? && Step(s, t, e).At(t) == Idle(r) ==>
        match r
        case Success(h) => 0 <= s.master < |s.nodes| && h == s.nodes[s.master].addr && s.nodes[s.master].conn in s.claimed
        case Failure(code) => (code == NO_MASTER && s.master == -1) || (pc.FindProbable? && Parse(pc.primary) == Failure(code))
  {
    RunServes(seeds, threshold, moves, t);
    InvRun(seeds, threshold, moves);
    var s := Run(Init(seeds, threshold), moves);
    if !s.At(t).Idle? && Asked(moves, Init(seeds, threshold), t) == Some(GetMaster) && Step(s, t, e).At(t) == Idle(r) {
      MasterReturned(s, t, e);
    }
    hide Run;
    hide Init;
    hide Step;
    hide Inv;
  }

  lemma MasterReturned(s: State, t: Tid, e: Event)
    requires Inv(s) && Serves(GetMaster, s.At(t)) && !s.At(t).Idle? && Step(s, t, e).At(t).Idle?
    ensures var pc, r := s.At(t), Step(s, t, e).At(t).last;
      match r
      case Success(h) => 0 <= s.master < |s.nodes| && h == s.nodes[s.master].addr && s.nodes[s.master].conn in s.claimed
      case Failure(code) => (code == NO_MASTER && s.master == -1) || (pc.FindProbable? && Parse(pc.primary) == Failure(code))
  {
    var pc := s.At(t);
    assert Ready(s, t);
    if pc.MasterLast? || pc.Begin? {
      MasterAnswered(s, t, e);
    } else {
      StepBelongs(s, t, e);
      hide Step;
      if pc.Acquire? || InConnection(pc) {
        CallGoesOn(s, t, e);
      } else {
        RoundReturns(s, t);
      }
    }
    hide Step;
    hide StepConnection;
    hide StepRound;
    hide Inv;
    hide Parse;
    hide Ready;
  }

  /** A thread does not return from within `_check` but by an exception or the last step. */
  lemma RoundReturns(s: State, t: Tid)
    requires InRound(s.At(t)) && Serves(GetMaster, s.At(t)) && StepRound(s, t).At(t).Idle?
    ensures s.At(t).FindProbable? && var r := StepRound(s, t).At(t).last; r.Failure? && Parse(s.At(t).primary) == Failure(r.code)
  {
    hide Parse;
    hide IndexOf;
  }

  lemma CallGoesOn(s: State, t: Tid, e: Event)
    requires Ready(s, t) && Serves(GetMaster, s.At(t)) && (s.At(t).Acquire? || InConnection(s.At(t)))
    ensures !StepConnection(s, t, e).At(t).Idle?
  {
    hide Ready;
    hide StepConnection;
    ConnectionStep(s, t, e);
  }

  /**
   * `selectAndCheckNode` returns what the first selection yields, on the tags asked for, if it yields a host. Otherwise it
   * checks and selects again with what is left of the tags, and returns what that yields.
   */
  lemma SelectReturns(seeds: seq<Host>, threshold: int, moves: seq<Move>, t: Tid, e: Event, preference: Preference, tags: seq<TagEntry>)
    ensures var start, s := Init(seeds, threshold), Run(Init(seeds, threshold), moves);
      var (pc, s') := (s.At(t), Step(s, t, e));
      Asked(moves, start, t) == Some(SelectAndCheck(preference, tags)) && !pc.Idle? ==>
        var first := Choice(s.nodes, preference, tags, 0, s.threshold, s.lastHost);
        && (pc.Begin? ==> if first == Success(NoHost) then FirstHead(s'.At(t)) else s'.At(t) == Idle(first))
        && (pc.SelectLast? ==> s'.At(t) == Idle(Success(if ByTags(preference) then NoHost else Primary(s.nodes))))
        && (s'.At(t).Idle? ==> pc.Begin? || pc.SelectLast? || pc.FindProbable?)
  {
    RunServes(seeds, threshold, moves, t);
    InvRun(seeds, threshold, moves);
    var s := Run(Init(seeds, threshold), moves);
    hide Run;
    hide Init;
    hide Asked;
    if !s.At(t).Idle? && Asked(moves, Init(seeds, threshold), t) == Some(SelectAndCheck(preference, tags)) {
      Selects(s, t, e, preference, tags);
    }
    hide Inv;
    hide Step;
    hide Serves;
    hide Choice;
    hide Primary;
  }

  lemma Selects(s: State, t: Tid, e: Event, preference: Preference, tags: seq<TagEntry>)
    requires Inv(s) && Serves(SelectAndCheck(preference, tags), s.At(t)) && !s.At(t).Idle?
    ensures var (pc, s') := (s.At(t), Step(s, t, e));
      var first := Choice(s.nodes, preference, tags, 0, s.threshold, s.lastHost);
      && (pc.Begin? ==> if first == Success(NoHost) then FirstHead(s'.At(t)) else s'.At(t) == Idle(first))
      && (pc.SelectLast? ==> s'.At(t) == Idle(Success(if ByTags(preference) then NoHost else Primary(s.nodes))))
      && (s'.At(t).Idle? ==> pc.Begin? || pc.SelectLast? || pc.FindProbable?)
  {
    var pc := s.At(t);
    assert Ready(s, t);
    StepBelongs(s, t, e);
    if pc.SelectLast? {
      SecondTryFindsNoSecondary(s, t, e);
    }
    hide Step;
    if pc.Acquire? || InConnection(pc) {
      SelectCallGoesOn(s, t, e, preference, tags);
    } else if InRound(pc) && StepRound(s, t).At(t).Idle? {
      SelectRoundGoesOn(s, t, preference, tags);
    }
    hide StepConnection;
    hide StepRound;
    hide Choice;
    hide Try;
    hide Primary;
    hide Inv;
    hide Ready;
  }

  lemma SelectRoundGoesOn(s: State, t: Tid, preference: Preference, tags: seq<TagEntry>)
    requires InRound(s.At(t)) && Serves(SelectAndCheck(preference, tags), s.At(t)) && StepRound(s, t).At(t).Idle?
    ensures s.At(t).FindProbable?
  {
    hide Find;
  }

  lemma SelectCallGoesOn(s: State, t: Tid, e: Event, preference: Preference, tags: seq<TagEntry>)
    requires Ready(s, t) && Serves(SelectAndCheck(preference, tags), s.At(t)) && (s.At(t).Acquire? || InConnection(s.At(t)))
    ensures !StepConnection(s, t, e).At(t).Idle?
  {
    hide Ready;
    hide StepConnection;
    ConnectionStep(s, t, e);
  }

  /** The first node with this address serves secondary reads. */
  ghost predicate ServesReads(nodes: seq<Node>, h: Host) {
    exists i :: 0 <= i < |nodes| && nodes[i].addr == h && nodes[i].OkForSecondaryQueries()
      && forall k :: 0 <= k < i ==> nodes[k].addr != h
  }

  /** `getSlave(prev)` keeps to `prev` exactly while that serves reads; otherwise it looks for another, a local one if possible. */
  lemma SlaveKeepsTo(s: State, t: Tid, e: Event, prev: Host)
    requires s.At(t) == Begin(GetSlave(prev))
    ensures var s' := Step(s, t, e);
      s'.At(t) == if prev.At? && prev.name != "" && ServesReads(s.nodes, prev) then Idle(Success(prev)) else Begin(GetAnySlave(true))
    ensures var s' := Step(s, t, e); s'.nodes == s.nodes && s'.nextSlave == s.nextSlave && s'.master == s.master
  {
    if prev.At? {
      var i := IndexOf(s.nodes, prev, 0);
      assert i >= 0 ==> s.nodes[i].addr == prev;
    }
    hide IndexOf;
  }

  /** `notifySlaveFailure` takes the first node with that address out of use, and nothing else. */
  lemma SlaveFailureIsHeeded(s: State, t: Tid, e: Event, text: string)
    requires s.At(t) == Begin(NotifySlaveFailure(text))
    ensures var s' := Step(s, t, e);
      && |s'.nodes| == |s.nodes| && s'.master == s.master
      && forall i :: 0 <= i < |s.nodes| ==>
           s'.nodes[i] == if Parse(text) == Success(s.nodes[i].addr) && (forall k :: 0 <= k < i ==> s.nodes[k].addr != s.nodes[i].addr)
                          then s.nodes[i].(ok := false) else s.nodes[i]
  {
    hide Parse;
  }

  // ----- Filling the list from the seeds -----

  /** What comes of a seed: it is listed already, it does not connect, or it is asked. */
  datatype Trial = Listed(seed: Host) | Refused(seed: Host) | Contacted(seed: Host)

  function TrialOf(s: State, t: Tid, e: Event): seq<Trial> {
    match s.At(t)
    case SeedFind(seeds) =>
      var i := if seeds == [] then Success(-1) else Find(s.nodes, ConnectionName(seeds[0]));
      if i.Success? && i.value >= 0 then [Listed(seeds[0])] else []
    case SeedConnect(seeds) =>
      if !e.Connected? || seeds == [] then [] else if e.ok then [Contacted(seeds[0])] else [Refused(seeds[0])]
    case _ => []
  }

  /** The trials of `t` since it last began to fill the list. */
  ghost function Trials(start: State, moves: seq<Move>, t: Tid): seq<Trial> {
    if moves == [] then [] else
    var before, m := moves[..|moves| - 1], moves[|moves| - 1];
    var s := Run(start, before);
    if m.thread != t then Trials(start, before, t)
    else if s.At(t).SeedsStart? then []
    else Trials(start, before, t) + TrialOf(s, t, m.event)
  }

  function Seeds(trials: seq<Trial>): (hosts: seq<Host>)
    ensures |hosts| == |trials|
  {
    seq(|trials|, i requires 0 <= i < |trials| => trials[i].seed)
  }

  /** The seeds still to be tried. */
  function SeedsLeft(pc: Pc): Option<seq<Host>> {
    match pc
    case SeedFind(seeds) => Some(seeds)
    case SeedConnect(seeds) => Some(seeds)
    case _ => if Calling(pc) && pc.call.site.AtSeed? then Some(pc.call.site.rest) else None
  }

  predicate SeedsTracked(all: seq<Host>, pc: Pc, trials: seq<Trial>) {
    SeedsLeft(pc).Some? ==> Seeds(trials) + SeedsLeft(pc).value == all
  }

  lemma SeedsGrow(trials: seq<Trial>, d: Trial, rest: seq<Host>)
    ensures Seeds(trials + [d]) + rest == Seeds(trials) + ([d.seed] + rest)
    ensures trials + [] == trials
  {
    assert Seeds(trials + [d]) == Seeds(trials) + [d.seed];
    Associates(Seeds(trials), [d.seed], rest);
  }

  lemma SeedStepTracked(s: State, t: Tid, e: Event, trials: seq<Trial>)
    requires SeedsTracked(s.seeds, s.At(t), trials) && InSeeds(s.At(t))
    ensures SeedsTracked(s.seeds, StepSeeds(s, t, e).At(t), if s.At(t).SeedsStart? then [] else trials + TrialOf(s, t, e))
    ensures StepSeeds(s, t, e).seeds == s.seeds
  {
    hide Seeds;
    hide StepSeeds;
    hide TrialOf;
    SeedGoes(s, t, e);
    var left := SeedsLeft(s.At(t));
    if left.Some? && left.value != [] {
      assert left.value == [left.value[0]] + left.value[1..];
      SeedsGrow(trials, Listed(left.value[0]), left.value[1..]);
      SeedsGrow(trials, Refused(left.value[0]), left.value[1..]);
      SeedsGrow(trials, Contacted(left.value[0]), left.value[1..]);
    }
    assert trials + [] == trials && Seeds([]) == [];
  }

  /** A trial is for the first seed that is left, and leaves the others. */
  lemma SeedGoes(s: State, t: Tid, e: Event)
    requires InSeeds(s.At(t))
    ensures var (pc, s') := (s.At(t), StepSeeds(s, t, e));
      var (left, left', trial) := (SeedsLeft(pc), SeedsLeft(s'.At(t)), TrialOf(s, t, e));
      && s'.seeds == s.seeds
      && (pc.SeedsStart? ==> left'.None? || left'.value == s.seeds)
      && (!pc.SeedsStart? && left'.Some? ==>
            && left.Some?
            && ((trial == [] && left' == left)
                || (left.value != [] && left'.value == left.value[1..]
                    && trial in {[Listed(left.value[0])], [Refused(left.value[0])], [Contacted(left.value[0])]})))
  {
    hide Find;
    hide ConnectionName;
  }

  lemma CallSeeds(s: State, t: Tid, e: Event)
    requires Ready(s, t) && (s.At(t).Acquire? || InConnection(s.At(t)))
    ensures var s' := StepConnection(s, t, e); SeedsLeft(s'.At(t)) == SeedsLeft(s.At(t))
  {
    hide Ready;
    hide StepConnection;
    ConnectionStep(s, t, e);
  }

  lemma RoundSeeds(s: State, t: Tid)
    requires Ready(s, t) && InRound(s.At(t))
    ensures SeedsLeft(StepRound(s, t).At(t)).None?
  {
    RoundSaid(s, t);
    hide Find;
    hide PcOk;
  }

  lemma SingleSeeds(s: State, t: Tid, e: Event)
    requires var pc := s.At(t); pc.Idle? || pc.MasterLast? || pc.SelectLast? || pc.CheckMaster? || pc.CheckUnlocked?
    ensures SeedsLeft(Step(s, t, e).At(t)).None?
  {
    hide Chosen;
  }

  lemma OwnSeedsTracked(s: State, t: Tid, e: Event, trials: seq<Trial>)
    requires Ready(s, t) && SeedsTracked(s.seeds, s.At(t), trials)
    ensures SeedsTracked(s.seeds, Step(s, t, e).At(t), if s.At(t).SeedsStart? then [] else trials + TrialOf(s, t, e))
  {
    hide Step;
    hide StepConnection;
    hide StepRound;
    hide StepSeeds;
    hide StepBegin;
    hide Ready;
    hide Seeds;
    var pc := s.At(t);
    StepBelongs(s, t, e);
    assert trials + [] == trials;
    if pc.Acquire? || InConnection(pc) {
      CallSeeds(s, t, e);
    } else if InRound(pc) {
      RoundSeeds(s, t);
    } else if InSeeds(pc) {
      SeedStepTracked(s, t, e, trials);
    } else if pc.Begin? {
      OperationBegins(s, t);
    } else {
      SingleSeeds(s, t, e);
    }
  }

  lemma CallKeepsSeeds(s: State, t: Tid, e: Event)
    ensures StepConnection(s, t, e).seeds == s.seeds
  {
    hide FindEntry;
    hide Reconcile;
    hide Updated;
  }

  lemma RoundKeepsSeeds(s: State, t: Tid)
    ensures StepRound(s, t).seeds == s.seeds
  {
    hide Find;
  }

  lemma BeginKeepsSeeds(s: State, t: Tid, op: Operation)
    ensures StepBegin(s, t, op).seeds == s.seeds
  {
    hide Find;
    hide IndexOf;
    hide Slave;
    hide Chosen;
  }

  lemma SeedsAreKept(s: State, t: Tid, e: Event)
    ensures Step(s, t, e).seeds == s.seeds
  {
    CallKeepsSeeds(s, t, e);
    RoundKeepsSeeds(s, t);
    if s.At(t).Begin? {
      BeginKeepsSeeds(s, t, s.At(t).op);
    }
    hide StepConnection;
    hide StepRound;
    hide StepBegin;
    hide Chosen;
    hide Find;
    hide ConnectionName;
  }

  lemma {:induction false} RunSeedsTracked(seeds: seq<Host>, threshold: int, moves: seq<Move>, t: Tid)
    ensures var start, s := Init(seeds, threshold), Run(Init(seeds, threshold), moves);
      s.seeds == seeds && SeedsTracked(seeds, s.At(t), Trials(start, moves, t))
    decreases |moves|
  {
    var start := Init(seeds, threshold);
    if moves != [] {
      var before, m := moves[..|moves| - 1], moves[|moves| - 1];
      RunSeedsTracked(seeds, threshold, before, t);
      InvRun(seeds, threshold, before);
      var s := Run(start, before);
      assert Run(start, moves) == Step(s, m.thread, m.event);
      SeedsAreKept(s, m.thread, m.event);
      hide Run;
      hide Init;
      hide Step;
      hide SeedsTracked;
      hide TrialOf;
      if m.thread != t {
        OtherStays(s, m.thread, m.event, t);
      } else {
        assert Ready(s, t);
        OwnSeedsTracked(s, t, m.event, Trials(start, before, t));
      }
      hide Inv;
    }
  }

  /**
   * When the list is filled, every seed has been tried, once for each time it is given and in that order: it was listed by
   * then, or did not connect, or was asked. Then follows a check of every member.
   */
  lemma EverySeedIsTried(seeds: seq<Host>, threshold: int, moves: seq<Move>, t: Tid, e: Event)
    ensures var start, s := Init(seeds, threshold), Run(Init(seeds, threshold), moves);
      var (pc, pc', trials) := (s.At(t), Step(s, t, e).At(t), Trials(start, moves, t));
      && (InSeeds(pc) && pc'.RoundHead? ==> Seeds(trials) == seeds && FirstHead(pc') && pc'.round.all && pc'.round.after == ToSets)
      && (TrialOf(s, t, e) != [] ==>
            match TrialOf(s, t, e)[0]
            case Listed(h) => (exists i :: 0 <= i < |s.nodes| && Parse(ConnectionName(h)) == Success(s.nodes[i].addr))
            case Refused(h) => e == Connected(false)
            case Contacted(h) => e == Connected(true) && pc'.Acquire? && pc'.call.conn == ConnectionName(h))
  {
    hide Run;
    hide Init;
    hide Trials;
    hide Step;
    hide StepSeeds;
    hide TrialOf;
    hide Seeds;
    hide SeedsTracked;
    hide InSeeds;
    hide ConnectionName;
    hide Parse;
    RunSeedsTracked(seeds, threshold, moves, t);
    var s := Run(Init(seeds, threshold), moves);
    if InSeeds(s.At(t)) {
      StepBelongs(s, t, e);
      TrialMeans(s, t, e);
      if StepSeeds(s, t, e).At(t).RoundHead? {
        SeedsEnd(s, t, e, Trials(Init(seeds, threshold), moves, t));
      }
    } else {
      NoTrial(s, t, e);
    }
  }

  lemma NoTrial(s: State, t: Tid, e: Event)
    requires !InSeeds(s.At(t))
    ensures TrialOf(s, t, e) == []
  {
  }

  lemma SeedsEnd(s: State, t: Tid, e: Event, trials: seq<Trial>)
    requires InSeeds(s.At(t)) && SeedsTracked(s.seeds, s.At(t), trials) && StepSeeds(s, t, e).At(t).RoundHead?
    ensures var pc' := StepSeeds(s, t, e).At(t); Seeds(trials) == s.seeds && FirstHead(pc') && pc'.round.all && pc'.round.after == ToSets
  {
    hide Find;
    hide ConnectionName;
    assert Seeds(trials) + [] == Seeds(trials);
    hide Seeds;
  }

  lemma TrialMeans(s: State, t: Tid, e: Event)
    requires InSeeds(s.At(t))
    ensures TrialOf(s, t, e) != [] ==>
      var pc' := StepSeeds(s, t, e).At(t);
      match TrialOf(s, t, e)[0]
      case Listed(h) => (exists i :: 0 <= i < |s.nodes| && Parse(ConnectionName(h)) == Success(s.nodes[i].addr))
      case Refused(h) => e == Connected(false)
      case Contacted(h) => e == Connected(true) && pc'.Acquire? && pc'.call.conn == ConnectionName(h)
  {
    hide ConnectionName;
    hide Parse;
    hide IndexOf;
  }
}
