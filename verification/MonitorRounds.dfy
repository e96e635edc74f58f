/** Every check of the replica-set monitor asks every member, and what its outcome means. */
module MonitorRounds {
  import opened Wrappers
  import opened ReplicaNode
  import opened HostReconciliation
  import opened ReadPreference
  import opened SlaveSelection
  import opened MonitorProtocol
  import opened MonitorSafety
  import opened MonitorTheorems

  // ----- What a thread does in one round of `_check` -----

  /**
   * A thread enters `_checkConnection` for the node at `offset`; finds there that this node has another connection
   * by now; gets a reply from its server; elects it; or turns to the node that a reply has named as the primary.
   */
  datatype Deed =
    | Entered(offset: int, conn: string)
    | Missed(offset: int, conn: string)
    | Heard(offset: int, conn: string, reply: Reply)
    | Elected(offset: int, conn: string)
    | Turned(primary: string)

  /** The deed of `t` when it takes a step from `s`. */
  function DeedOf(s: State, t: Tid, e: Event): seq<Deed> {
    match s.At(t)
    case Acquire(call) => if s.checkLock.None? then [Entered(call.offset, call.conn)] else []
    case Match(call) => if s.ConnMatch(call) then [] else [Missed(call.offset, call.conn)]
    case Ask(call) => if e.Replied? then [Heard(call.offset, call.conn, e.reply)] else []
    case Claim(call) => if s.ConnMatch(call) then [Elected(call.offset, call.conn)] else []
    case FindProbable(_, primary) =>
      var p := Find(s.nodes, primary);
      if p.Success? && p.value >= 0 then [Turned(primary)] else []
    case _ => []
  }

  /** Here a thread's log starts anew: it begins an operation, or a round of `_check`. */
  predicate Afresh(pc: Pc) {
    pc.Begin? || pc.RoundHead?
  }

  /** What `t` has done since then. */
  ghost function Deeds(start: State, moves: seq<Move>, t: Tid): seq<Deed> {
    if moves == [] then [] else
    var before, m := moves[..|moves| - 1], moves[|moves| - 1];
    var s := Run(start, before);
    if m.thread != t then Deeds(start, before, t)
    else if Afresh(s.At(t)) then []
    else Deeds(start, before, t) + DeedOf(s, t, m.event)
  }

  /** No thread has changed which nodes there are since `t` last left the head of a round. */
  ghost predicate Steady(start: State, moves: seq<Move>, t: Tid) {
    moves == [] ||
    var before, m := moves[..|moves| - 1], moves[|moves| - 1];
    var s := Run(start, before);
    (m.thread == t && s.At(t).RoundHead?)
    || (Steady(start, before, t) && SameShape(s.nodes, Step(s, m.thread, m.event).nodes))
  }

  /** The thread is in `_check`, or in a `_checkConnection` that `_check` has called for a member. */
  predicate InCheck(pc: Pc) {
    match pc
    case RoundHead(_) => true
    case RoundNext(_) => true
    case FindProbable(_, _) => true
    case NoPrimary(_) => true
    case Claim(call) => call.site.AtIndex? || call.site.AtProbable?
    case Acquire(call) => call.site.AtIndex? || call.site.AtProbable?
    case _ => InConnection(pc) && (pc.call.site.AtIndex? || pc.call.site.AtProbable?)
  }

  /** How many rounds `t` has begun in the check it is in. */
  ghost function Rounds(start: State, moves: seq<Move>, t: Tid): nat {
    if moves == [] then 0 else
    var before, m := moves[..|moves| - 1], moves[|moves| - 1];
    var s := Run(start, before);
    if m.thread != t then Rounds(start, before, t)
    else if !InCheck(s.At(t)) then 0
    else Rounds(start, before, t) + if s.At(t).RoundHead? then 1 else 0
  }

  /** The server has answered as primary of the set. */
  predicate SaysPrimary(r: Reply) {
    r.Answer? && r.rightSet && r.isMaster
  }

  ghost predicate Answered(deeds: seq<Deed>, k: int, conn: string) {
    exists r :: Heard(k, conn, r) in deeds
  }

  /** The node at `k` has been called, and its server has replied unless the node had another connection by then. */
  ghost predicate Polled(deeds: seq<Deed>, k: int) {
    exists conn :: Entered(k, conn) in deeds && (Missed(k, conn) in deeds || Answered(deeds, k, conn))
  }

  ghost predicate PolledBelow(deeds: seq<Deed>, n: int) {
    forall k :: 0 <= k < n ==> Polled(deeds, k)
  }

  ghost predicate NoneSaysPrimary(deeds: seq<Deed>) {
    forall d :: d in deeds && d.Heard? ==> !SaysPrimary(d.reply)
  }

  /** The server has replied as primary of the set. */
  ghost predicate Said(deeds: seq<Deed>, k: int, conn: string) {
    exists r :: Heard(k, conn, r) in deeds && SaysPrimary(r)
  }

  /** Whoever was elected had said so. */
  ghost predicate ElectedSaid(deeds: seq<Deed>) {
    forall d :: d in deeds && d.Elected? ==> Said(deeds, d.offset, d.conn)
  }

  ghost predicate NoneMissed(deeds: seq<Deed>) {
    forall d :: d in deeds ==> !d.Missed?
  }

  ghost predicate SomeTurned(deeds: seq<Deed>) {
    exists d :: d in deeds && d.Turned?
  }

  ghost predicate SomeElected(deeds: seq<Deed>) {
    exists d :: d in deeds && d.Elected?
  }

  /** The server has replied, and not as primary of the set. */
  ghost predicate Denied(deeds: seq<Deed>, k: int, conn: string) {
    exists r :: Heard(k, conn, r) in deeds && !SaysPrimary(r)
  }

  ghost predicate AllDenied(deeds: seq<Deed>, nodes: seq<Node>) {
    forall k :: 0 <= k < |nodes| ==> Denied(deeds, k, nodes[k].conn)
  }

  // ----- What holds of a thread in a round -----

  function RoundOf(pc: Pc): Round
    requires InCheck(pc)
  {
    match pc
    case RoundHead(r) => r
    case RoundNext(r) => r
    case FindProbable(r, _) => r
    case NoPrimary(r) => r
    case _ => pc.call.site.round
  }

  /** The thread has not had its reply yet. */
  predicate Asks(pc: Pc) {
    pc.Acquire? || pc.Match? || pc.Ask?
  }

  predicate Calling(pc: Pc) {
    pc.Acquire? || pc.Claim? || InConnection(pc)
  }

  /** The nodes below this index have been polled. */
  function Reach(pc: Pc): int
    requires InCheck(pc)
  {
    var i := RoundOf(pc).i;
    if pc.RoundNext? || (Asks(pc) && pc.call.site.AtIndex?) then i else i + 1
  }

  ghost predicate HeardBelow(deeds: seq<Deed>, nodes: seq<Node>, n: int) {
    forall k :: 0 <= k < n && k < |nodes| ==> Answered(deeds, k, nodes[k].conn)
  }

  /** What is true of the call a thread is in. */
  ghost predicate CallTracked(s: State, pc: Pc, deeds: seq<Deed>, steady: bool)
    requires Calling(pc)
  {
    && (pc.call.site.AtIndex? ==> pc.call.offset == pc.call.site.round.i)
    && (pc.call.site.AtProbable? ==> pc.call.offset == pc.call.site.probable)
    && (pc.Match? || pc.Ask? ==> Entered(pc.call.offset, pc.call.conn) in deeds)
    && (steady ==> s.ConnMatch(pc.call))
  }

  ghost predicate RoundTracked(s: State, pc: Pc, deeds: seq<Deed>, steady: bool)
    requires InCheck(pc)
  {
    var r := RoundOf(pc);
    && 0 <= r.i && -1 <= r.newMaster
    && (r.newMaster >= 0 <==> SomeElected(deeds))
    && (r.tried <==> SomeTurned(deeds))
    && ElectedSaid(deeds)
    && (steady ==> NoneMissed(deeds))
    && (r.newMaster < 0 && (Calling(pc) ==> !pc.call.isMaster) ==> NoneSaysPrimary(deeds))
    && PolledBelow(deeds, Reach(pc))
    && (steady ==> HeardBelow(deeds, s.nodes, Reach(pc)))
    && (Calling(pc) ==> CallTracked(s, pc, deeds, steady))
  }

  /** The primary that a member of the set has named. */
  function Named(r: Reply): string {
    if r.Answer? && r.rightSet then r.primary else ""
  }

  predicate Reflects(call: Call, d: Deed) {
    match d
    case Heard(k, conn, r) => k == call.offset && conn == call.conn && call.isMaster == SaysPrimary(r) && call.primary == Named(r)
    case Missed(k, conn) => k == call.offset && conn == call.conn && !call.isMaster && call.primary == ""
    case _ => false
  }

  /** A call holds what the server has just replied, and nothing before that or when its node had another connection. */
  predicate CallSaid(pc: Pc, deeds: seq<Deed>) {
    Calling(pc) ==>
      if Asks(pc) then !pc.call.isMaster && pc.call.primary == ""
      else deeds != [] && Reflects(pc.call, deeds[|deeds| - 1])
  }

  ghost predicate CheckTracked(s: State, pc: Pc, deeds: seq<Deed>, steady: bool, rounds: nat)
    requires InCheck(pc)
  {
    var r := RoundOf(pc);
    && r.retry <= 1
    && rounds == r.retry + (if pc.RoundHead? then 0 else 1)
    && (pc.RoundHead? ==> r.i == 0 && r.newMaster == -1 && !r.tried)
    && (pc.NoPrimary? ==> r.retry == 1 && (steady ==> NoneSaysPrimary(deeds) && AllDenied(deeds, s.nodes)))
    && (!pc.RoundHead? && !pc.NoPrimary? ==> RoundTracked(s, pc, deeds, steady))
  }

  ghost predicate Tracked(s: State, pc: Pc, deeds: seq<Deed>, steady: bool, rounds: nat) {
    InCheck(pc) ==> CheckTracked(s, pc, deeds, steady, rounds)
  }

  /** What the definitions say of a thread in a call. */
  lemma CallShape(pc: Pc)
    requires Calling(pc)
    ensures !pc.RoundHead? && !pc.RoundNext? && !pc.FindProbable? && !pc.NoPrimary?
    ensures InCheck(pc) <==> pc.call.site.AtIndex? || pc.call.site.AtProbable?
    ensures InCheck(pc) ==>
      && RoundOf(pc) == pc.call.site.round
      && Reach(pc) == pc.call.site.round.i + (if Asks(pc) && pc.call.site.AtIndex? then 0 else 1)
  {
  }

  /** ... and of one between calls. */
  lemma RoundShape(pc: Pc, r: Round)
    requires pc == RoundHead(r) || pc == RoundNext(r) || pc == NoPrimary(r) || (pc.FindProbable? && pc.round == r)
    ensures InCheck(pc) && RoundOf(pc) == r && !Calling(pc) && Reach(pc) == r.i + if pc.RoundNext? then 0 else 1
  {
  }

  // ----- Every step keeps it -----

  lemma AnswersStay(deeds: seq<Deed>, more: seq<Deed>, k: int, conn: string)
    requires Answered(deeds, k, conn)
    ensures Answered(deeds + more, k, conn)
  {
    var r :| Heard(k, conn, r) in deeds;
    assert Heard(k, conn, r) in deeds + more;
  }

  lemma PolledStays(deeds: seq<Deed>, more: seq<Deed>, k: int)
    requires Polled(deeds, k)
    ensures Polled(deeds + more, k)
  {
    var conn :| Entered(k, conn) in deeds && (Missed(k, conn) in deeds || Answered(deeds, k, conn));
    if Answered(deeds, k, conn) {
      AnswersStay(deeds, more, k, conn);
    }
    hide Answered;
    assert Entered(k, conn) in deeds + more;
  }

  lemma SaidStays(deeds: seq<Deed>, more: seq<Deed>)
    ensures forall k, conn :: Said(deeds, k, conn) ==> Said(deeds + more, k, conn)
  {
    hide SaysPrimary;
    forall k, conn | Said(deeds, k, conn)
      ensures Said(deeds + more, k, conn)
    {
      var r :| Heard(k, conn, r) in deeds && SaysPrimary(r);
      assert Heard(k, conn, r) in deeds + more;
    }
  }

  /** What is true of the log stays true when something is added that is neither an election nor a miss. */
  lemma DeedsGrow(deeds: seq<Deed>, more: seq<Deed>, nodes: seq<Node>, n: int)
    ensures PolledBelow(deeds, n) ==> PolledBelow(deeds + more, n)
    ensures HeardBelow(deeds, nodes, n) ==> HeardBelow(deeds + more, nodes, n)
    ensures more == [] ==> deeds + more == deeds
    ensures (forall d :: d in more ==> !d.Elected?) ==>
      (ElectedSaid(deeds) ==> ElectedSaid(deeds + more)) && (SomeElected(deeds) <==> SomeElected(deeds + more))
    ensures (forall d :: d in more ==> !d.Turned?) ==> (SomeTurned(deeds) <==> SomeTurned(deeds + more))
    ensures (forall d :: d in more ==> !d.Missed?) && NoneMissed(deeds) ==> NoneMissed(deeds + more)
    ensures (forall d :: d in more && d.Heard? ==> !SaysPrimary(d.reply)) && NoneSaysPrimary(deeds) ==> NoneSaysPrimary(deeds + more)
  {
    SaidStays(deeds, more);
    hide Said;
    hide Polled;
    hide Answered;
    hide SaysPrimary;
    if PolledBelow(deeds, n) {
      forall k | 0 <= k < n
        ensures Polled(deeds + more, k)
      {
        PolledStays(deeds, more, k);
      }
    }
    if HeardBelow(deeds, nodes, n) {
      forall k | 0 <= k < n && k < |nodes|
        ensures Answered(deeds + more, k, nodes[k].conn)
      {
        AnswersStay(deeds, more, k, nodes[k].conn);
      }
    }
    assert forall d :: d in deeds + more <==> d in deeds || d in more;
  }

  /** The list may change as long as it keeps its shape, or the round is no longer steady. */
  predicate Follows(s: State, s': State, steady: bool, steady': bool) {
    steady' ==> steady && SameShape(s.nodes, s'.nodes)
  }

  lemma ShapeKeeps(s: State, s': State, deeds: seq<Deed>, n: int)
    requires SameShape(s.nodes, s'.nodes)
    ensures HeardBelow(deeds, s.nodes, n) ==> HeardBelow(deeds, s'.nodes, n)
    ensures AllDenied(deeds, s.nodes) ==> AllDenied(deeds, s'.nodes)
    ensures forall call :: s.ConnMatch(call) ==> s'.ConnMatch(call)
  {
    hide Answered;
    hide SaysPrimary;
  }

  lemma StillTracked(s: State, s': State, pc: Pc, deeds: seq<Deed>, steady: bool, steady': bool, rounds: nat)
    requires Tracked(s, pc, deeds, steady, rounds) && Follows(s, s', steady, steady')
    ensures Tracked(s', pc, deeds, steady', rounds)
  {
    if steady' && InCheck(pc) {
      ShapeKeeps(s, s', deeds, Reach(pc));
    }
    hide PolledBelow;
    hide HeardBelow;
    hide AllDenied;
    hide NoneSaysPrimary;
    hide SomeElected;
    hide SomeTurned;
    hide NoneMissed;
    hide SameShape;
  }

  /** Between the reply and the release, `_checkConnection` keeps to its call. */
  lemma InsideStep(s: State, t: Tid, e: Event)
    requires Ready(s, t) && InConnection(s.At(t)) && !Asks(s.At(t)) && !s.At(t).Release?
    ensures var (pc, pc') := (s.At(t), StepConnection(s, t, e).At(t));
      InConnection(pc') && !Asks(pc') && pc'.call == pc.call
  {
    hide Reconcile;
    hide FindEntry;
    hide Parse;
    hide CountKnown;
    hide ShouldChange;
    hide Updated;
    hide CallOk;
    hide InSets;
  }

  /** A call stays where it was made from, until its last step goes on from there. */
  lemma ConnectionStep(s: State, t: Tid, e: Event)
    requires Ready(s, t) && (s.At(t).Acquire? || InConnection(s.At(t)))
    ensures var (pc, pc') := (s.At(t), StepConnection(s, t, e).At(t));
      if pc.Release? then pc' == EndConnection(pc.call) else Calling(pc') && !pc'.Claim? && pc'.call.site == pc.call.site
  {
    hide Ready;
    if Asks(s.At(t)) || s.At(t).Release? {
      hide EndConnection;
    } else {
      InsideStep(s, t, e);
      hide StepConnection;
    }
  }

  lemma InsideTracked(s: State, s': State, pc: Pc, pc': Pc, deeds: seq<Deed>, steady: bool, steady': bool, rounds: nat)
    requires InCheck(pc) && InConnection(pc) && InConnection(pc') && !Asks(pc) && !Asks(pc') && pc'.call == pc.call
    requires Tracked(s, pc, deeds, steady, rounds) && Follows(s, s', steady, steady')
    ensures Tracked(s', pc', deeds, steady', rounds)
  {
    hide InCheck;
    hide InConnection;
    hide RoundOf;
    hide Reach;
    hide PolledBelow;
    hide HeardBelow;
    hide AllDenied;
    hide NoneSaysPrimary;
    hide SomeElected;
    hide SomeTurned;
    hide ElectedSaid;
    hide NoneMissed;
    hide Follows;
    StillTracked(s, s', pc, deeds, steady, steady', rounds);
    CallShape(pc);
    CallShape(pc');
  }

  lemma AcquireTracked(s: State, t: Tid, e: Event, deeds: seq<Deed>, steady: bool, rounds: nat)
    requires Ready(s, t) && s.At(t).Acquire? && InCheck(s.At(t)) && Tracked(s, s.At(t), deeds, steady, rounds)
    ensures var s' := StepConnection(s, t, e); Tracked(s', s'.At(t), deeds + DeedOf(s, t, e), steady, rounds)
  {
    hide InCheck;
    hide RoundOf;
    hide Reach;
    CallShape(s.At(t));
    CallShape(StepConnection(s, t, e).At(t));
    DeedsGrow(deeds, DeedOf(s, t, e), s.nodes, Reach(s.At(t)));
    hide Ready;
    hide PolledBelow;
    hide HeardBelow;
    hide SomeElected;
    hide SomeTurned;
    hide ElectedSaid;
    hide NoneMissed;
    hide NoneSaysPrimary;
  }

  /** The node at this index is polled as well. */
  lemma OneMore(deeds: seq<Deed>, k: int, conn: string)
    requires PolledBelow(deeds, k) && Entered(k, conn) in deeds && (Missed(k, conn) in deeds || Answered(deeds, k, conn))
    ensures PolledBelow(deeds, k + 1)
  {
    assert Polled(deeds, k);
    hide Answered;
  }

  lemma MatchTracked(s: State, t: Tid, e: Event, deeds: seq<Deed>, steady: bool, rounds: nat)
    requires Ready(s, t) && s.At(t).Match? && InCheck(s.At(t)) && Tracked(s, s.At(t), deeds, steady, rounds)
    requires CallSaid(s.At(t), deeds)
    ensures var s' := StepConnection(s, t, e); Tracked(s', s'.At(t), deeds + DeedOf(s, t, e), steady, rounds)
  {
    hide InCheck;
    hide RoundOf;
    hide Reach;
    CallShape(s.At(t));
    CallShape(StepConnection(s, t, e).At(t));
    var pc := s.At(t);
    hide Ready;
    hide PolledBelow;
    hide HeardBelow;
    hide SomeElected;
    hide SomeTurned;
    hide ElectedSaid;
    hide NoneMissed;
    hide NoneSaysPrimary;
    DeedsGrow(deeds, DeedOf(s, t, e), s.nodes, Reach(pc));
    if !s.ConnMatch(pc.call) && pc.call.site.AtIndex? {
      var deeds' := deeds + [Missed(pc.call.offset, pc.call.conn)];
      assert Missed(pc.call.offset, pc.call.conn) in deeds' && Entered(pc.call.offset, pc.call.conn) in deeds';
      OneMore(deeds', pc.call.offset, pc.call.conn);
    }
  }

  lemma AskTracked(s: State, t: Tid, e: Event, deeds: seq<Deed>, steady: bool, rounds: nat)
    requires Ready(s, t) && s.At(t).Ask? && InCheck(s.At(t)) && Tracked(s, s.At(t), deeds, steady, rounds)
    requires CallSaid(s.At(t), deeds)
    ensures var s' := StepConnection(s, t, e); Tracked(s', s'.At(t), deeds + DeedOf(s, t, e), steady, rounds)
  {
    if e.Replied? {
      HeardTracked(s, t, s.At(t).call, e.reply, deeds, steady, rounds);
    } else {
      assert deeds + [] == deeds;
    }
    hide Ready;
    hide Tracked;
    hide CallSaid;
    hide StepReply;
  }

  lemma ReplyGoes(s: State, t: Tid, call: Call, r: Reply)
    requires s.At(t) == Ask(call) && !call.isMaster
    ensures var pc' := StepReply(s, t, call, r).At(t);
      && StepReply(s, t, call, r).nodes == s.nodes && InConnection(pc') && !Asks(pc')
      && pc'.call.offset == call.offset && pc'.call.conn == call.conn && pc'.call.site == call.site && pc'.call.isMaster == SaysPrimary(r)
  {
  }

  lemma HeardTracked(s: State, t: Tid, call: Call, r: Reply, deeds: seq<Deed>, steady: bool, rounds: nat)
    requires s.At(t) == Ask(call) && InCheck(s.At(t)) && Tracked(s, s.At(t), deeds, steady, rounds) && !call.isMaster
    ensures var s' := StepReply(s, t, call, r); Tracked(s', s'.At(t), deeds + [Heard(call.offset, call.conn, r)], steady, rounds)
  {
    ReplyGoes(s, t, call, r);
    hide StepReply;
    hide InCheck;
    hide InConnection;
    hide RoundOf;
    hide Reach;
    hide SaysPrimary;
    hide PolledBelow;
    hide HeardBelow;
    hide SomeElected;
    hide SomeTurned;
    hide ElectedSaid;
    hide NoneMissed;
    hide NoneSaysPrimary;
    hide Answered;
    CallShape(s.At(t));
    CallShape(StepReply(s, t, call, r).At(t));
    var deeds' := deeds + [Heard(call.offset, call.conn, r)];
    DeedsGrow(deeds, [Heard(call.offset, call.conn, r)], s.nodes, Reach(s.At(t)));
    JustHeard(s, deeds, call.offset, call.conn, r);
    if call.site.AtIndex? {
      OneMore(deeds', call.offset, call.conn);
      if steady {
        OneMoreHeard(deeds', s.nodes, call.offset);
      }
    }
  }

  lemma JustHeard(s: State, deeds: seq<Deed>, k: int, conn: string, r: Reply)
    ensures Heard(k, conn, r) in deeds + [Heard(k, conn, r)] && Answered(deeds + [Heard(k, conn, r)], k, conn)
    ensures Entered(k, conn) in deeds ==> Entered(k, conn) in deeds + [Heard(k, conn, r)]
  {
    assert Heard(k, conn, r) in deeds + [Heard(k, conn, r)];
  }

  lemma OneMoreHeard(deeds: seq<Deed>, nodes: seq<Node>, k: int)
    requires HeardBelow(deeds, nodes, k) && 0 <= k < |nodes| && Answered(deeds, k, nodes[k].conn)
    ensures HeardBelow(deeds, nodes, k + 1)
  {
    hide Answered;
  }

  lemma ReleaseTracked(s: State, t: Tid, e: Event, deeds: seq<Deed>, steady: bool, rounds: nat)
    requires Ready(s, t) && s.At(t).Release? && InCheck(s.At(t)) && Tracked(s, s.At(t), deeds, steady, rounds)
    ensures var s' := StepConnection(s, t, e); Tracked(s', s'.At(t), deeds, steady, rounds)
  {
    hide InCheck;
    hide RoundOf;
    hide Reach;
    hide PolledBelow;
    hide HeardBelow;
    hide NoneSaysPrimary;
    hide SomeElected;
    hide SomeTurned;
    hide ElectedSaid;
    hide NoneMissed;
    hide InSets;
    hide Carried;
    var pc, pc' := s.At(t), StepConnection(s, t, e).At(t);
    CallShape(pc);
    if pc'.Claim? {
      CallShape(pc');
    } else {
      RoundShape(pc', pc'.round);
    }
  }

  lemma RoundNextTracked(s: State, t: Tid, deeds: seq<Deed>, steady: bool, rounds: nat)
    requires Ready(s, t) && s.At(t).RoundNext? && Tracked(s, s.At(t), deeds, steady, rounds)
    ensures var s' := StepRound(s, t); Tracked(s', s'.At(t), deeds, steady, rounds)
  {
    hide InCheck;
    hide RoundOf;
    hide Reach;
    hide Answered;
    hide PolledBelow;
    hide HeardBelow;
    hide NoneSaysPrimary;
    hide AllDenied;
    hide SomeElected;
    hide SomeTurned;
    hide ElectedSaid;
    hide NoneMissed;
    hide PcOk;
    var pc, pc' := s.At(t), StepRound(s, t).At(t);
    RoundShape(pc, pc.round);
    if steady && pc.round.i >= |s.nodes| && pc.round.newMaster < 0 {
      NoneLeft(deeds, s.nodes, pc.round.i);
    }
    if pc.round.i < |s.nodes| {
      CallShape(pc');
    } else if pc.round.newMaster < 0 {
      RoundShape(pc', pc'.round);
    } else {
      EndIsOutside(pc.round.after);
    }
  }

  lemma EndIsOutside(after: After)
    ensures !InCheck(EndCheck(after)) && !Calling(EndCheck(after)) && forall code :: !InCheck(ThrowFrom(after, code)) && !Calling(ThrowFrom(after, code))
  {
  }

  lemma NoneLeft(deeds: seq<Deed>, nodes: seq<Node>, n: int)
    requires HeardBelow(deeds, nodes, n) && NoneSaysPrimary(deeds) && n >= |nodes|
    ensures AllDenied(deeds, nodes)
  {
    hide SaysPrimary;
    forall k | 0 <= k < |nodes|
      ensures Denied(deeds, k, nodes[k].conn)
    {
      assert Answered(deeds, k, nodes[k].conn);
      var r :| Heard(k, nodes[k].conn, r) in deeds;
      var d := Heard(k, nodes[k].conn, r);
      assert d in deeds && d.Heard? && !SaysPrimary(d.reply);
    }
  }

  lemma FindProbableTracked(s: State, t: Tid, e: Event, deeds: seq<Deed>, steady: bool, rounds: nat)
    requires Ready(s, t) && s.At(t).FindProbable? && Tracked(s, s.At(t), deeds, steady, rounds)
    ensures var s' := StepRound(s, t); Tracked(s', s'.At(t), deeds + DeedOf(s, t, e), steady, rounds)
  {
    hide InCheck;
    hide RoundOf;
    hide Reach;
    hide PcOk;
    hide PolledBelow;
    hide HeardBelow;
    hide SomeElected;
    hide SomeTurned;
    hide ElectedSaid;
    hide NoneMissed;
    hide NoneSaysPrimary;
    hide AllDenied;
    hide Find;
    var pc, pc' := s.At(t), StepRound(s, t).At(t);
    RoundShape(pc, pc.round);
    TurnLogged(deeds, pc.primary);
    DeedsGrow(deeds, DeedOf(s, t, e), s.nodes, Reach(pc));
    EndIsOutside(pc.round.after);
    if pc'.Acquire? {
      CallShape(pc');
    } else if pc'.RoundNext? {
      RoundShape(pc', pc'.round);
    }
  }

  lemma TurnLogged(deeds: seq<Deed>, primary: string)
    ensures SomeTurned(deeds + [Turned(primary)])
  {
    assert Turned(primary) in deeds + [Turned(primary)];
  }

  lemma ElectionLogged(deeds: seq<Deed>, offset: int, conn: string)
    requires Said(deeds, offset, conn)
    ensures SomeElected(deeds + [Elected(offset, conn)])
    ensures SomeTurned(deeds) <==> SomeTurned(deeds + [Elected(offset, conn)])
    ensures NoneMissed(deeds) ==> NoneMissed(deeds + [Elected(offset, conn)])
    ensures ElectedSaid(deeds) ==> ElectedSaid(deeds + [Elected(offset, conn)])
  {
    SaidStays(deeds, [Elected(offset, conn)]);
    hide Said;
    assert Elected(offset, conn) in deeds + [Elected(offset, conn)];
  }

  lemma ClaimTracked(s: State, t: Tid, e: Event, deeds: seq<Deed>, steady: bool, rounds: nat)
    requires Ready(s, t) && s.At(t).Claim? && InCheck(s.At(t)) && Tracked(s, s.At(t), deeds, steady, rounds)
    requires CallSaid(s.At(t), deeds)
    ensures var s' := StepRound(s, t); Tracked(s', s'.At(t), deeds + DeedOf(s, t, e), steady, rounds)
  {
    var call := s.At(t).call;
    assert call.isMaster;
    hide Ready;
    hide Tracked;
    hide StepRound;
    if !s.ConnMatch(call) {
      LostClaimTracked(s, t, deeds, steady, rounds);
      assert deeds + [] == deeds;
    } else if call.site.AtIndex? {
      IndexClaimTracked(s, t, deeds, steady, rounds);
    } else {
      ProbableClaimTracked(s, t, deeds, steady, rounds);
    }
  }

  lemma LostClaimTracked(s: State, t: Tid, deeds: seq<Deed>, steady: bool, rounds: nat)
    requires s.At(t).Claim? && InCheck(s.At(t)) && Tracked(s, s.At(t), deeds, steady, rounds) && !s.ConnMatch(s.At(t).call)
    ensures var s' := StepRound(s, t); Tracked(s', s'.At(t), deeds, steady, rounds)
  {
    hide InCheck;
    hide RoundOf;
    hide Reach;
    CallShape(s.At(t));
    EndIsOutside(s.At(t).call.site.round.after);
    if StepRound(s, t).At(t).RoundHead? || StepRound(s, t).At(t).NoPrimary? {
      RoundShape(StepRound(s, t).At(t), StepRound(s, t).At(t).round);
    }
    hide PolledBelow;
    hide HeardBelow;
    hide SomeElected;
    hide SomeTurned;
    hide ElectedSaid;
    hide NoneMissed;
    hide NoneSaysPrimary;
    hide AllDenied;
  }

  /** After an election a round goes on with that master, further along the list or with the probable primary. */
  lemma GoesOn(s: State, s': State, pc: Pc, pc': Pc, deeds: seq<Deed>, steady: bool, rounds: nat)
    requires pc.Claim? && InCheck(pc) && Tracked(s, pc, deeds, steady, rounds) && s.ConnMatch(pc.call)
    requires pc'.RoundNext? || pc'.FindProbable?
    requires s'.nodes == s.nodes && Reach(pc') == Reach(pc)
    requires var (r, r') := (RoundOf(pc), RoundOf(pc')); r'.newMaster >= 0 && r'.retry == r.retry && r'.i >= r.i && r'.tried == r.tried
    requires CallSaid(pc, deeds) && pc.call.isMaster
    ensures Tracked(s', pc', deeds + [Elected(pc.call.offset, pc.call.conn)], steady, rounds)
  {
    hide InCheck;
    hide RoundOf;
    hide Reach;
    CallShape(pc);
    RoundShape(pc', pc'.round);
    ElectionLogged(deeds, pc.call.offset, pc.call.conn);
    hide CallSaid;
    DeedsGrow(deeds, [Elected(pc.call.offset, pc.call.conn)], s.nodes, Reach(pc));
    hide PolledBelow;
    hide HeardBelow;
    hide SomeElected;
    hide SomeTurned;
    hide ElectedSaid;
    hide NoneMissed;
    hide NoneSaysPrimary;
    hide AllDenied;
  }

  lemma IndexClaimTracked(s: State, t: Tid, deeds: seq<Deed>, steady: bool, rounds: nat)
    requires s.At(t).Claim? && s.At(t).call.site.AtIndex? && s.ConnMatch(s.At(t).call)
    requires Tracked(s, s.At(t), deeds, steady, rounds)
    requires CallSaid(s.At(t), deeds) && s.At(t).call.isMaster
    ensures var (s', call) := (StepRound(s, t), s.At(t).call);
      Tracked(s', s'.At(t), deeds + [Elected(call.offset, call.conn)], steady, rounds)
  {
    var s' := StepRound(s, t);
    hide RoundTracked;
    if s'.At(t).RoundNext? || s'.At(t).FindProbable? {
      GoesOn(s, s', s.At(t), s'.At(t), deeds, steady, rounds);
    }
    hide Tracked;
  }

  lemma ProbableClaimTracked(s: State, t: Tid, deeds: seq<Deed>, steady: bool, rounds: nat)
    requires s.At(t).Claim? && s.At(t).call.site.AtProbable? && s.ConnMatch(s.At(t).call)
    requires Tracked(s, s.At(t), deeds, steady, rounds)
    requires CallSaid(s.At(t), deeds) && s.At(t).call.isMaster
    ensures var (s', call) := (StepRound(s, t), s.At(t).call);
      Tracked(s', s'.At(t), deeds + [Elected(call.offset, call.conn)], steady, rounds)
  {
    var s' := StepRound(s, t);
    assert RoundTracked(s, s.At(t), deeds, steady);
    hide PolledBelow;
    hide HeardBelow;
    if s'.At(t).RoundNext? {
      GoesOn(s, s', s.At(t), s'.At(t), deeds, steady, rounds);
    }
    hide RoundTracked;
  }

  lemma RoundHeadTracked(s: State, t: Tid, deeds: seq<Deed>, steady: bool, rounds: nat)
    requires Ready(s, t) && s.At(t).RoundHead? && Tracked(s, s.At(t), deeds, steady, rounds)
    ensures var s' := StepRound(s, t); Tracked(s', s'.At(t), [], true, rounds + 1)
  {
    hide InCheck;
    hide RoundOf;
    hide Reach;
    RoundShape(s.At(t), s.At(t).round);
    EndIsOutside(s.At(t).round.after);
    if StepRound(s, t).At(t).RoundNext? {
      RoundShape(StepRound(s, t).At(t), StepRound(s, t).At(t).round);
    }
    hide PcOk;
    hide Polled;
    hide Answered;
    hide AllDenied;
  }

  /** The head of the first round of a check. */
  predicate FirstHead(pc: Pc) {
    pc.RoundHead? && pc.round.i == 0 && pc.round.newMaster == -1 && pc.round.retry == 0 && !pc.round.tried
  }

  lemma ConnectionBegins(s: State, t: Tid, e: Event)
    requires (InConnection(s.At(t)) || s.At(t).Acquire?) && !InCheck(s.At(t)) && Ready(s, t)
    ensures var pc' := StepConnection(s, t, e).At(t); InCheck(pc') ==> FirstHead(pc')
  {
    hide Ready;
    hide StepConnection;
    ConnectionStep(s, t, e);
  }

  lemma SeedsBegin(s: State, t: Tid, e: Event)
    requires !InCheck(s.At(t))
    ensures var pc' := StepSeeds(s, t, e).At(t); InCheck(pc') ==> FirstHead(pc')
  {
    hide Find;
    hide ConnectionName;
  }

  lemma OperationBegins(s: State, t: Tid)
    requires s.At(t).Begin?
    ensures var pc' := StepBegin(s, t, s.At(t).op).At(t);
      && (FirstHead(pc') || pc'.TakeSets? || pc'.CheckMaster? || pc'.Begin? || pc'.Idle?)
      && (InCheck(pc') ==> FirstHead(pc')) && !Calling(pc')
  {
    match s.At(t).op {
      case NotifyFailure(server) => NotifyEnds(s, t, server);
      case SelectAndCheck(preference, tags) => SelectEnds(s, t, preference, tags);
      case _ =>
    }
    hide Find;
    hide IndexOf;
    hide Slave;
    hide StepSelect;
    hide StepNotifyFailure;
  }

  lemma NotifyEnds(s: State, t: Tid, server: Host)
    requires s.At(t).Begin?
    ensures var pc' := StepNotifyFailure(s, t, server).At(t); pc'.Idle? || pc'.Begin?
  {
  }

  lemma SelectEnds(s: State, t: Tid, preference: Preference, tags: seq<TagEntry>)
    ensures var pc' := StepSelect(s, t, preference, tags).At(t); FirstHead(pc') || pc'.Idle?
  {
    hide Chosen;
  }

  predicate InRound(pc: Pc) {
    pc.RoundHead? || pc.RoundNext? || pc.Claim? || pc.FindProbable? || pc.NoPrimary?
  }

  predicate InSeeds(pc: Pc) {
    pc.TakeSets? || pc.SeedsStart? || pc.SeedFind? || pc.SeedConnect? || pc.ReleaseSets?
  }

  /** Which part of the monitor a step belongs to. */
  lemma StepBelongs(s: State, t: Tid, e: Event)
    ensures var pc, s' := s.At(t), Step(s, t, e);
      && (InConnection(pc) || pc.Acquire? ==> s' == StepConnection(s, t, e))
      && (InRound(pc) ==> s' == StepRound(s, t))
      && (InSeeds(pc) ==> s' == StepSeeds(s, t, e))
      && (pc.Begin? ==> s' == StepBegin(s, t, pc.op))
  {
    hide StepConnection;
    hide StepRound;
    hide StepSeeds;
    hide StepBegin;
  }

  /** The steps of no part. */
  lemma SingleStep(s: State, t: Tid, e: Event)
    requires var pc := s.At(t); pc.Idle? || pc.MasterLast? || pc.SelectLast? || pc.CheckMaster? || pc.CheckUnlocked?
    ensures var pc' := Step(s, t, e).At(t);
      (InCheck(pc') ==> FirstHead(pc')) && (Calling(pc') ==> pc'.Acquire? && !pc'.call.isMaster && pc'.call.primary == "")
  {
    hide Chosen;
  }

  /** A check begins at the head of its first round. */
  lemma CheckBegins(s: State, t: Tid, e: Event)
    requires Ready(s, t) && !InCheck(s.At(t))
    ensures var pc' := Step(s, t, e).At(t); InCheck(pc') ==> FirstHead(pc')
  {
    StepBelongs(s, t, e);
    SeedsBegin(s, t, e);
    if InRound(s.At(t)) {
      ForeignClaim(s, t);
    }
    if s.At(t).Begin? {
      OperationBegins(s, t);
    } else if InConnection(s.At(t)) || s.At(t).Acquire? {
      ConnectionBegins(s, t, e);
    } else if !InSeeds(s.At(t)) {
      SingleStep(s, t, e);
    }
    hide Step;
    hide StepConnection;
    hide StepRound;
    hide StepSeeds;
    hide StepBegin;
    hide Ready;
  }

  lemma ForeignClaim(s: State, t: Tid)
    requires Ready(s, t) && InRound(s.At(t))
    ensures InCheck(s.At(t))
  {
    hide Carried;
    hide InSets;
    hide CallOk;
  }

  lemma CallStepTracked(s: State, t: Tid, e: Event, deeds: seq<Deed>, steady: bool, rounds: nat)
    requires Ready(s, t) && InCheck(s.At(t)) && (s.At(t).Acquire? || InConnection(s.At(t))) && Tracked(s, s.At(t), deeds, steady, rounds)
    requires CallSaid(s.At(t), deeds)
    ensures var s' := StepConnection(s, t, e);
      Tracked(s', s'.At(t), deeds + DeedOf(s, t, e), steady && SameShape(s.nodes, s'.nodes), rounds)
  {
    hide Tracked;
    hide Ready;
    hide StepConnection;
    hide SameShape;
    assert deeds + [] == deeds;
    if Asks(s.At(t)) || s.At(t).Release? {
      AskingKeepsNodes(s, t, e);
    }
    match s.At(t) {
      case Acquire(_) => AcquireTracked(s, t, e, deeds, steady, rounds);
      case Match(_) => MatchTracked(s, t, e, deeds, steady, rounds);
      case Ask(_) => AskTracked(s, t, e, deeds, steady, rounds);
      case Release(_) => ReleaseTracked(s, t, e, deeds, steady, rounds);
      case _ =>
        var s' := StepConnection(s, t, e);
        InsideStep(s, t, e);
        InsideTracked(s, s', s.At(t), s'.At(t), deeds, steady, steady && SameShape(s.nodes, s'.nodes), rounds);
    }
  }

  lemma AskingKeepsNodes(s: State, t: Tid, e: Event)
    requires Asks(s.At(t)) || s.At(t).Release?
    ensures SameShape(s.nodes, StepConnection(s, t, e).nodes)
  {
  }

  lemma RoundKeepsShape(s: State, t: Tid)
    ensures SameShape(s.nodes, StepRound(s, t).nodes)
  {
    hide Find;
  }

  lemma RoundStepTracked(s: State, t: Tid, e: Event, deeds: seq<Deed>, steady: bool, rounds: nat)
    requires Ready(s, t) && InCheck(s.At(t)) && !s.At(t).Acquire? && !InConnection(s.At(t)) && !s.At(t).RoundHead?
    requires Tracked(s, s.At(t), deeds, steady, rounds)
    requires CallSaid(s.At(t), deeds)
    ensures var s' := StepRound(s, t);
      Tracked(s', s'.At(t), deeds + DeedOf(s, t, e), steady && SameShape(s.nodes, s'.nodes), rounds)
  {
    hide Tracked;
    match s.At(t) {
      case RoundNext(_) => RoundNextTracked(s, t, deeds, steady, rounds);
      case Claim(_) => ClaimTracked(s, t, e, deeds, steady, rounds);
      case FindProbable(_, _) => FindProbableTracked(s, t, e, deeds, steady, rounds);
      case _ => CheckIsOver(s, t, deeds + DeedOf(s, t, e), steady, rounds);
    }
    assert deeds + [] == deeds;
    RoundKeepsShape(s, t);
    hide StepRound;
    hide Ready;
  }

  lemma CheckIsOver(s: State, t: Tid, deeds: seq<Deed>, steady: bool, rounds: nat)
    requires s.At(t).NoPrimary?
    ensures var s' := StepRound(s, t); Tracked(s', s'.At(t), deeds, steady, rounds)
  {
  }

  lemma OwnStepSaid(s: State, t: Tid, e: Event, deeds: seq<Deed>)
    requires Ready(s, t) && CallSaid(s.At(t), deeds)
    ensures CallSaid(Step(s, t, e).At(t), if Afresh(s.At(t)) then [] else deeds + DeedOf(s, t, e))
  {
    hide Step;
    hide StepConnection;
    hide StepRound;
    hide StepSeeds;
    hide StepBegin;
    hide Ready;
    hide Said;
    var pc := s.At(t);
    StepBelongs(s, t, e);
    if pc.Acquire? || InConnection(pc) {
      ConnectionSaid(s, t, e, deeds);
    } else if InRound(pc) {
      RoundSaid(s, t);
    } else if InSeeds(pc) {
      SeedsSaid(s, t, e);
    } else if pc.Begin? {
      OperationBegins(s, t);
    } else {
      SingleStep(s, t, e);
    }
  }

  /** Nothing a round goes on with is a call. */
  lemma NoCall(r: Round, primary: string)
    ensures !Calling(EndRound(r)) && !Calling(EndCheck(r.after)) && !Calling(QuickCheck(r, primary)) && !Calling(NextIndex(r))
    ensures forall code :: !Calling(ThrowFrom(r.after, code))
  {
  }

  lemma RoundSaid(s: State, t: Tid)
    requires Ready(s, t) && InRound(s.At(t))
    ensures var pc' := StepRound(s, t).At(t); Calling(pc') ==> pc'.Acquire? && !pc'.call.isMaster && pc'.call.primary == ""
  {
    if s.At(t).Claim? {
      ClaimGoesOn(s, t);
    } else {
      NoCall(s.At(t).round, "");
    }
    hide Find;
    hide StepClaim;
    hide EndRound;
    hide EndCheck;
    hide QuickCheck;
    hide NextIndex;
    hide ThrowFrom;
    hide PcOk;
  }

  lemma ClaimGoesOn(s: State, t: Tid)
    requires Ready(s, t) && s.At(t).Claim?
    ensures !Calling(StepClaim(s, t, s.At(t).call).At(t))
  {
    var call := s.At(t).call;
    assert call.site.AtIndex? || call.site.AtProbable?;
    var r := call.site.round;
    NoCall(r, call.primary);
    NoCall(r.(newMaster := call.offset), call.primary);
    NoCall(r.(newMaster := if call.site.AtProbable? then call.site.probable else -1), call.primary);
    hide EndRound;
    hide EndCheck;
    hide QuickCheck;
    hide NextIndex;
    hide Ready;
  }

  lemma SeedsSaid(s: State, t: Tid, e: Event)
    requires !Calling(s.At(t))
    ensures var pc' := StepSeeds(s, t, e).At(t); Calling(pc') ==> pc'.Acquire? && !pc'.call.isMaster && pc'.call.primary == ""
  {
    hide Find;
    hide ConnectionName;
  }

  lemma ConnectionSaid(s: State, t: Tid, e: Event, deeds: seq<Deed>)
    requires Ready(s, t) && CallSaid(s.At(t), deeds) && (s.At(t).Acquire? || InConnection(s.At(t)))
    ensures CallSaid(StepConnection(s, t, e).At(t), deeds + DeedOf(s, t, e))
  {
    assert deeds + [] == deeds;
    if Asks(s.At(t)) {
      AskSaid(s, t, e, deeds);
    } else if s.At(t).Release? {
      ReleaseSaid(s, t, e);
    } else {
      InsideStep(s, t, e);
    }
    hide StepConnection;
    hide Ready;
    hide Reflects;
  }

  lemma AskSaid(s: State, t: Tid, e: Event, deeds: seq<Deed>)
    requires CallSaid(s.At(t), deeds) && Asks(s.At(t))
    ensures CallSaid(StepConnection(s, t, e).At(t), deeds + DeedOf(s, t, e))
  {
    assert deeds + [] == deeds;
  }

  lemma ReleaseSaid(s: State, t: Tid, e: Event)
    requires Ready(s, t) && s.At(t).Release?
    ensures var pc' := StepConnection(s, t, e).At(t); Calling(pc') ==> pc' == Claim(s.At(t).call)
  {
    var site := s.At(t).call.site;
    if site.AtIndex? || site.AtProbable? {
      NoCall(site.round, s.At(t).call.primary);
    }
    hide QuickCheck;
    hide NextIndex;
    hide Ready;
  }

  ghost predicate ThreadTracked(start: State, moves: seq<Move>, t: Tid) {
    var s := Run(start, moves);
    CallSaid(s.At(t), Deeds(start, moves, t))
    && Tracked(s, s.At(t), Deeds(start, moves, t), Steady(start, moves, t), Rounds(start, moves, t))
  }

  /** What the logs are after a move. */
  lemma LogsAfter(start: State, moves: seq<Move>, t: Tid)
    requires moves != []
    ensures var (before, m) := (moves[..|moves| - 1], moves[|moves| - 1]);
      var s := Run(start, before);
      var s' := Step(s, m.thread, m.event);
      && Run(start, moves) == s'
      && (m.thread != t ==>
            && Deeds(start, moves, t) == Deeds(start, before, t) && Rounds(start, moves, t) == Rounds(start, before, t)
            && Steady(start, moves, t) == (Steady(start, before, t) && SameShape(s.nodes, s'.nodes)))
      && (m.thread == t ==>
            && Deeds(start, moves, t) == (if Afresh(s.At(t)) then [] else Deeds(start, before, t) + DeedOf(s, t, m.event))
            && Steady(start, moves, t) == (s.At(t).RoundHead? || (Steady(start, before, t) && SameShape(s.nodes, s'.nodes)))
            && Rounds(start, moves, t)
               == if InCheck(s.At(t)) then Rounds(start, before, t) + (if s.At(t).RoundHead? then 1 else 0) else 0)
  {
    hide Step;
    hide DeedOf;
    hide SameShape;
    hide InCheck;
  }

  lemma OwnStepTracked(s: State, t: Tid, e: Event, deeds: seq<Deed>, steady: bool, rounds: nat)
    requires Ready(s, t) && Tracked(s, s.At(t), deeds, steady, rounds)
    requires CallSaid(s.At(t), deeds)
    ensures var s' := Step(s, t, e);
      Tracked(s', s'.At(t), if Afresh(s.At(t)) then [] else deeds + DeedOf(s, t, e),
              s.At(t).RoundHead? || (steady && SameShape(s.nodes, s'.nodes)),
              if InCheck(s.At(t)) then rounds + (if s.At(t).RoundHead? then 1 else 0) else 0)
  {
    hide Tracked;
    hide Step;
    hide StepConnection;
    hide StepRound;
    hide CallSaid;
    hide Ready;
    hide InCheck;
    hide SameShape;
    var s', pc := Step(s, t, e), s.At(t);
    StepBelongs(s, t, e);
    if !InCheck(pc) {
      NotAtHead(pc);
      CheckBegins(s, t, e);
      HeadTracked(s', if Afresh(pc) then [] else deeds + DeedOf(s, t, e), steady && SameShape(s.nodes, s'.nodes), s'.At(t));
    } else if pc.RoundHead? {
      RoundHeadTracked(s, t, deeds, steady, rounds);
    } else if pc.Acquire? || InConnection(pc) {
      CallStepTracked(s, t, e, deeds, steady, rounds);
    } else {
      CheckPcs(pc);
      RoundStepTracked(s, t, e, deeds, steady, rounds);
    }
  }

  lemma NotAtHead(pc: Pc)
    requires !InCheck(pc)
    ensures !pc.RoundHead?
  {
  }

  lemma HeadTracked(s: State, deeds: seq<Deed>, steady: bool, pc: Pc)
    requires InCheck(pc) ==> FirstHead(pc)
    ensures Tracked(s, pc, deeds, steady, 0)
  {
  }

  lemma {:induction false} RunTracked(seeds: seq<Host>, threshold: int, moves: seq<Move>, t: Tid)
    ensures ThreadTracked(Init(seeds, threshold), moves, t)
    decreases |moves|
  {
    var start := Init(seeds, threshold);
    if moves != [] {
      var before, m := moves[..|moves| - 1], moves[|moves| - 1];
      RunTracked(seeds, threshold, before, t);
      InvRun(seeds, threshold, before);
      MoveTracked(start, moves, t);
      hide ThreadTracked;
    }
  }

  lemma MoveTracked(start: State, moves: seq<Move>, t: Tid)
    requires moves != [] && Inv(Run(start, moves[..|moves| - 1])) && ThreadTracked(start, moves[..|moves| - 1], t)
    ensures ThreadTracked(start, moves, t)
  {
    var before, m := moves[..|moves| - 1], moves[|moves| - 1];
    var s := Run(start, before);
    LogsAfter(start, moves, t);
    hide Run;
    hide Deeds;
    hide Steady;
    hide Rounds;
    hide Tracked;
    hide CallSaid;
    hide Step;
    if m.thread == t {
      OwnStepTracked(s, t, m.event, Deeds(start, before, t), Steady(start, before, t), Rounds(start, before, t));
      OwnStepSaid(s, t, m.event, Deeds(start, before, t));
    } else {
      StillTracked(s, Step(s, m.thread, m.event), s.At(t), Deeds(start, before, t), Steady(start, before, t),
                   Steady(start, moves, t), Rounds(start, before, t));
      OtherStays(s, m.thread, m.event, t);
    }
  }

  lemma OtherStays(s: State, u: Tid, e: Event, t: Tid)
    requires Inv(s) && t != u
    ensures Step(s, u, e).At(t) == s.At(t)
  {
    StepKeeps(s, u, e);
    hide Step;
    hide PcOk;
  }

  // ----- The theorems -----

  /**
   * When a thread comes to the end of the loop over the nodes, it has called every node since the round began, and every
   * server has replied but for those whose node had another connection by then. If no node came or went, every
   * node's own server has replied.
   */
  lemma EveryMemberIsAsked(seeds: seq<Host>, threshold: int, moves: seq<Move>, t: Tid, e: Event)
    ensures var start, s := Init(seeds, threshold), Run(Init(seeds, threshold), moves);
      s.At(t).RoundNext? && !Step(s, t, e).At(t).Acquire? ==>
        forall k :: 0 <= k < |s.nodes| ==>
          && Polled(Deeds(start, moves, t), k)
          && (Steady(start, moves, t) ==> Answered(Deeds(start, moves, t), k, s.nodes[k].conn))
  {
    RunTracked(seeds, threshold, moves, t);
    hide Polled;
    hide Answered;
    hide Run;
    hide Init;
    hide Deeds;
    hide Steady;
    hide Rounds;
  }

  /**
   * When a thread has given up looking for a primary it has begun two rounds, and if no node came or went in the second,
   * every node's own server has replied in it and none has said that it is primary of the set.
   */
  lemma NoPrimaryMeansDenied(seeds: seq<Host>, threshold: int, moves: seq<Move>, t: Tid)
    ensures var start, s := Init(seeds, threshold), Run(Init(seeds, threshold), moves);
      s.At(t).NoPrimary? ==>
        && Rounds(start, moves, t) == 2
        && (Steady(start, moves, t) ==>
              && (forall k :: 0 <= k < |s.nodes| ==> Denied(Deeds(start, moves, t), k, s.nodes[k].conn))
              && forall k, conn :: !Said(Deeds(start, moves, t), k, conn))
  {
    RunTracked(seeds, threshold, moves, t);
    hide Run;
    hide Init;
    hide Deeds;
    hide Steady;
    hide Rounds;
    hide Denied;
    hide SaysPrimary;
  }

  /** So a primary that answers is found: while no node comes or goes, the round in which it says so does not end that way. */
  lemma PrimaryIsFound(seeds: seq<Host>, threshold: int, moves: seq<Move>, t: Tid, k: int, conn: string)
    requires Steady(Init(seeds, threshold), moves, t) && Said(Deeds(Init(seeds, threshold), moves, t), k, conn)
    ensures !Run(Init(seeds, threshold), moves).At(t).NoPrimary?
  {
    NoPrimaryMeansDenied(seeds, threshold, moves, t);
    hide Run;
    hide Said;
    hide Deeds;
    hide Steady;
  }

  /** A round is broken off, other than by success or an exception, only when nodes have come or gone in it. */
  lemma BrokenOffByReshaping(seeds: seq<Host>, threshold: int, moves: seq<Move>, t: Tid, e: Event)
    ensures var start, s := Init(seeds, threshold), Run(Init(seeds, threshold), moves);
      var pc' := Step(s, t, e).At(t);
      s.At(t).Claim? && (pc'.RoundHead? || pc'.NoPrimary?) ==> !Steady(start, moves, t)
  {
    InvRun(seeds, threshold, moves);
    RunTracked(seeds, threshold, moves, t);
    hide Run;
    hide Init;
    hide Deeds;
    hide Steady;
    hide Rounds;
  }

  ghost predicate ElectedLately(deeds: seq<Deed>) {
    exists k, conn :: Elected(k, conn) in deeds && Said(deeds, k, conn)
  }

  /**
   * How a check can end: another thread's master is up; a primary has been elected that said so in this round; a reply
   * names a primary that is no address; or there is none. A full check does not stop at an election while no node comes or
   * goes, so with `EveryMemberIsAsked` it asks every member.
   */
  lemma CheckEnds(seeds: seq<Host>, threshold: int, moves: seq<Move>, t: Tid, e: Event)
    ensures var start, s := Init(seeds, threshold), Run(Init(seeds, threshold), moves);
      var pc := s.At(t);
      InCheck(pc) && !InCheck(Step(s, t, e).At(t)) ==>
        || pc.NoPrimary?
        || (pc.RoundHead? && !pc.round.all && 0 <= s.master < |s.nodes| && s.nodes[s.master].ok)
        || (pc.FindProbable? && Parse(pc.primary).Failure?)
        || (pc.RoundNext? && ElectedLately(Deeds(start, moves, t)))
        || (pc.Claim? && if s.ConnMatch(pc.call) then !RoundOf(pc).all && Said(Deeds(start, moves, t), pc.call.offset, pc.call.conn)
                         else !Steady(start, moves, t) && ElectedLately(Deeds(start, moves, t)))
  {
    InvRun(seeds, threshold, moves);
    RunTracked(seeds, threshold, moves, t);
    var start, s := Init(seeds, threshold), Run(Init(seeds, threshold), moves);
    LeavingCheck(s, t, e, Deeds(start, moves, t), Steady(start, moves, t), Rounds(start, moves, t));
    hide Run;
    hide Init;
    hide Deeds;
    hide Steady;
    hide Rounds;
    hide Step;
    hide Inv;
    hide ElectedLately;
  }

  lemma LeavingCheck(s: State, t: Tid, e: Event, deeds: seq<Deed>, steady: bool, rounds: nat)
    requires Inv(s) && CallSaid(s.At(t), deeds) && Tracked(s, s.At(t), deeds, steady, rounds)
    ensures var pc := s.At(t);
      InCheck(pc) && !InCheck(Step(s, t, e).At(t)) ==>
        || pc.NoPrimary?
        || (pc.RoundHead? && !pc.round.all && 0 <= s.master < |s.nodes| && s.nodes[s.master].ok)
        || (pc.FindProbable? && Parse(pc.primary).Failure?)
        || (pc.RoundNext? && ElectedLately(deeds))
        || (pc.Claim? && if s.ConnMatch(pc.call) then !RoundOf(pc).all && Said(deeds, pc.call.offset, pc.call.conn)
                         else !steady && ElectedLately(deeds))
  {
    hide Inv;
    hide InCheck;
    hide RoundOf;
    hide Step;
    hide StepConnection;
    hide StepRound;
    hide CallSaid;
    hide ElectedLately;
    hide Said;
    hide Parse;
    var pc := s.At(t);
    StepBelongs(s, t, e);
    if InCheck(pc) && !InCheck(Step(s, t, e).At(t)) {
      CheckPcs(pc);
      InvReady(s, t);
      if pc.Acquire? || InConnection(pc) {
        CallStaysInCheck(s, t, e);
      } else if pc.RoundHead? {
        HeadLeaves(s, t);
      } else if pc.FindProbable? {
        ProbableLeaves(s, t);
      } else if pc.RoundNext? {
        RoundShape(pc, pc.round);
        NextLeaves(s, t);
        LatelyElected(deeds);
      } else if pc.Claim? {
        CallShape(pc);
        ClaimHasSaid(s, t, deeds);
        ClaimLeaves(s, t);
        if SomeElected(deeds) {
          LatelyElected(deeds);
        }
      }
    }
    hide Ready;
  }

  lemma InvReady(s: State, t: Tid)
    requires Inv(s)
    ensures Ready(s, t)
  {
    hide PcOk;
  }

  lemma CheckPcs(pc: Pc)
    requires InCheck(pc)
    ensures pc.Acquire? || InConnection(pc) || InRound(pc)
  {
  }

  lemma HeadLeaves(s: State, t: Tid)
    requires Ready(s, t) && s.At(t).RoundHead? && !InCheck(StepRound(s, t).At(t))
    ensures !s.At(t).round.all && 0 <= s.master < |s.nodes| && s.nodes[s.master].ok
  {
    hide PcOk;
  }

  lemma NextLeaves(s: State, t: Tid)
    requires s.At(t).RoundNext? && !InCheck(StepRound(s, t).At(t))
    ensures s.At(t).round.newMaster >= 0
  {
  }

  lemma ProbableLeaves(s: State, t: Tid)
    requires s.At(t).FindProbable? && !InCheck(StepRound(s, t).At(t))
    ensures Parse(s.At(t).primary).Failure?
  {
    hide Parse;
    hide IndexOf;
  }

  lemma ClaimLeaves(s: State, t: Tid)
    requires s.At(t).Claim? && (s.At(t).call.site.AtIndex? || s.At(t).call.site.AtProbable?) && !InCheck(StepRound(s, t).At(t))
    ensures var (call, r) := (s.At(t).call, s.At(t).call.site.round); if s.ConnMatch(call) then !r.all else r.newMaster >= 0
  {
  }

  lemma LatelyElected(deeds: seq<Deed>)
    requires ElectedSaid(deeds) && SomeElected(deeds)
    ensures ElectedLately(deeds)
  {
    hide Said;
    var d :| d in deeds && d.Elected?;
    assert Elected(d.offset, d.conn) in deeds;
  }

  lemma ClaimHasSaid(s: State, t: Tid, deeds: seq<Deed>)
    requires Ready(s, t) && s.At(t).Claim? && CallSaid(s.At(t), deeds)
    ensures Said(deeds, s.At(t).call.offset, s.At(t).call.conn)
  {
    hide Carried;
    hide InSets;
    var d := deeds[|deeds| - 1];
    assert d in deeds && d.Heard?;
  }

  lemma CallStaysInCheck(s: State, t: Tid, e: Event)
    requires Ready(s, t) && InCheck(s.At(t)) && (s.At(t).Acquire? || InConnection(s.At(t)))
    ensures InCheck(StepConnection(s, t, e).At(t))
  {
    hide Ready;
    hide StepConnection;
    ConnectionStep(s, t, e);
  }

  /**
   * A primary that the node asked in turn has just named, and that is not that node, is asked next, unless another such
   * has been in the same round; it is the first node with that address.
   */
  lemma NamedPrimaryIsNext(seeds: seq<Host>, threshold: int, moves: seq<Move>, t: Tid, e: Event)
    ensures var start, s := Init(seeds, threshold), Run(Init(seeds, threshold), moves);
      var (pc, pc', deeds) := (s.At(t), Step(s, t, e).At(t), Deeds(start, moves, t));
      && (pc.Release? && pc.call.site.AtIndex? ==>
            && deeds != []
            && match deeds[|deeds| - 1]
               case Heard(_, _, r) =>
                 if SaysPrimary(r) then pc' == Claim(pc.call)
                 else pc'.FindProbable? <==> !SomeTurned(deeds) && Named(r) != ""
               case _ => pc'.RoundNext?)
      && (pc'.FindProbable? && pc.Release? ==> deeds != [] && deeds[|deeds| - 1].Heard? && pc'.primary == Named(deeds[|deeds| - 1].reply))
      && (pc.FindProbable? ==>
            if pc'.Acquire? then
              && s.ConnMatch(pc'.call) && Parse(pc.primary) == Success(s.nodes[pc'.call.offset].addr)
              && forall i :: 0 <= i < pc'.call.offset ==> s.nodes[i].addr != s.nodes[pc'.call.offset].addr
            else forall i :: 0 <= i < |s.nodes| ==> Parse(pc.primary) != Success(s.nodes[i].addr))
  {
    hide Run;
    hide Init;
    hide Deeds;
    hide Steady;
    hide Rounds;
    hide Parse;
    hide Named;
    hide SaysPrimary;
    hide SomeTurned;
    hide Step;
    hide StepConnection;
    hide StepRound;
    hide CallSaid;
    hide Tracked;
    hide EndConnection;
    hide Ready;
    hide Inv;
    RunTracked(seeds, threshold, moves, t);
    InvRun(seeds, threshold, moves);
    var start, s := Init(seeds, threshold), Run(Init(seeds, threshold), moves);
    InvReady(s, t);
    StepBelongs(s, t, e);
    if s.At(t).Release? {
      ConnectionStep(s, t, e);
      ReleaseNames(s, s.At(t), Deeds(start, moves, t), Steady(start, moves, t), Rounds(start, moves, t));
    } else if s.At(t).FindProbable? {
      ProbableIsFound(s, t);
    }
  }

  lemma ReleaseNames(s: State, pc: Pc, deeds: seq<Deed>, steady: bool, rounds: nat)
    requires pc.Release? && CallSaid(pc, deeds) && Tracked(s, pc, deeds, steady, rounds)
    ensures var pc' := EndConnection(pc.call);
      && (pc.call.site.AtIndex? ==>
            && deeds != []
            && match deeds[|deeds| - 1]
               case Heard(_, _, r) =>
                 if SaysPrimary(r) then pc' == Claim(pc.call)
                 else pc'.FindProbable? <==> !SomeTurned(deeds) && Named(r) != ""
               case _ => pc'.RoundNext?)
      && (pc'.FindProbable? ==> deeds != [] && deeds[|deeds| - 1].Heard? && pc'.primary == Named(deeds[|deeds| - 1].reply))
  {
    CallShape(pc);
    hide SaysPrimary;
    hide SomeTurned;
    hide InCheck;
    hide RoundOf;
    hide Reach;
    hide PolledBelow;
    hide HeardBelow;
    hide NoneSaysPrimary;
    hide SomeElected;
    hide ElectedSaid;
    hide NoneMissed;
  }

  lemma ProbableIsFound(s: State, t: Tid)
    requires s.At(t).FindProbable?
    ensures var (pc, pc') := (s.At(t), StepRound(s, t).At(t));
      if pc'.Acquire? then
        && s.ConnMatch(pc'.call) && Parse(pc.primary) == Success(s.nodes[pc'.call.offset].addr)
        && forall i :: 0 <= i < pc'.call.offset ==> s.nodes[i].addr != s.nodes[pc'.call.offset].addr
      else forall i :: 0 <= i < |s.nodes| ==> Parse(pc.primary) != Success(s.nodes[i].addr)
  {
    hide Parse;
  }

  /** `check` asks the cached master first, and is content with it only if it has just said that it is primary of the set. */
  lemma CachedMasterFirst(seeds: seq<Host>, threshold: int, moves: seq<Move>, t: Tid, e: Event)
    ensures var start, s := Init(seeds, threshold), Run(Init(seeds, threshold), moves);
      var (pc, pc', deeds) := (s.At(t), Step(s, t, e).At(t), Deeds(start, moves, t));
      && (pc.CheckMaster? ==>
            if s.master >= 0 then s.master < |s.nodes| && pc' == CheckUnlocked(pc.all, s.nodes[s.master].conn) else FirstHead(pc'))
      && (pc.Release? && pc.call.site.AtMaster? ==>
            if !pc.call.site.all && deeds != [] && deeds[|deeds| - 1].Heard? && SaysPrimary(deeds[|deeds| - 1].reply) then pc' == Idle(Success(NoHost))
            else FirstHead(pc') && pc'.round.all == pc.call.site.all && pc'.round.after == ToCaller)
  {
    InvRun(seeds, threshold, moves);
    RunTracked(seeds, threshold, moves, t);
    var start, s := Init(seeds, threshold), Run(Init(seeds, threshold), moves);
    if s.At(t).CheckMaster? {
      CheckMasterGoes(s, t, e);
    } else if s.At(t).Release? && s.At(t).call.site.AtMaster? {
      MasterReleased(s, t, e, Deeds(start, moves, t));
    }
    hide Step;
    hide Run;
    hide Init;
    hide Deeds;
    hide Steady;
    hide Rounds;
    hide SaysPrimary;
    hide Tracked;
    hide Inv;
  }

  lemma CheckMasterGoes(s: State, t: Tid, e: Event)
    requires Inv(s) && s.At(t).CheckMaster?
    ensures var pc' := Step(s, t, e).At(t);
      if s.master >= 0 then s.master < |s.nodes| && pc' == CheckUnlocked(s.At(t).all, s.nodes[s.master].conn) else FirstHead(pc')
  {
    hide PcOk;
  }

  lemma MasterReleased(s: State, t: Tid, e: Event, deeds: seq<Deed>)
    requires s.At(t).Release? && s.At(t).call.site.AtMaster? && CallSaid(s.At(t), deeds)
    ensures var (pc, pc') := (s.At(t), Step(s, t, e).At(t));
      if !pc.call.site.all && deeds != [] && deeds[|deeds| - 1].Heard? && SaysPrimary(deeds[|deeds| - 1].reply) then pc' == Idle(Success(NoHost))
      else FirstHead(pc') && pc'.round.all == pc.call.site.all && pc'.round.after == ToCaller
  {
    StepBelongs(s, t, e);
    hide Step;
    hide SaysPrimary;
  }
}
