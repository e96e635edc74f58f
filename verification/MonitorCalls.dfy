/** What one `_checkConnection` does between taking its lock and releasing it, over all schedules. */
module MonitorCalls {
  import opened Wrappers
  import opened ReplicaNode
  import opened HostReconciliation
  import opened MonitorProtocol
  import opened MonitorSafety
  import opened MonitorTheorems
  import opened MonitorRounds
  import opened CArithmetic

  /**
   * The server replies; the node of a stranger is taken out of use; the node is written; the reported hosts have been
   * brought in line; the status arrives; a member of it has been seen to, having been found in the list or not; something
   * throws.
   */
  datatype Act =
    | HadReply(reply: Reply)
    | Refused
    | Wrote
    | Checked(hosts: HostList)
    | Got(status: Status)
    | Seen(member: Member, found: bool)
    | Failed

  function ActOf(s: State, t: Tid, e: Event, pc': Pc): seq<Act> {
    match s.At(t)
    case Ask(_) => if !e.Replied? then [] else [HadReply(e.reply)] + if pc'.Caught? then [Failed] else []
    case WrongSet(_) => [Refused]
    case Update(_, _) => [Wrote]
    case FastFind(_, hosts, _, _) => if pc'.Caught? then [Failed] else if pc'.AskStatus? then [Checked(hosts)] else []
    case Slow(_, hosts) => if pc'.Caught? then [Failed] else [Checked(hosts)]
    case AskStatus(_) => if !e.StatusArrived? then [] else [Got(e.status)] + if pc'.Caught? then [Failed] else []
    case StatusFind(_, members) =>
      if pc'.Caught? then [Failed] else if members != [] && pc'.StatusFind? then [Seen(members[0], false)] else []
    case StatusSet(_, members, _) => if members != [] then [Seen(members[0], true)] else []
    case _ => []
  }

  /** The acts of `t` since it last took `_checkConnectionLock`. */
  ghost function Acts(start: State, moves: seq<Move>, t: Tid): seq<Act> {
    if moves == [] then [] else
    var before, m := moves[..|moves| - 1], moves[|moves| - 1];
    var s := Run(start, before);
    if m.thread != t then Acts(start, before, t)
    else if s.At(t).Acquire? then []
    else Acts(start, before, t) + ActOf(s, t, m.event, Step(s, t, m.event).At(t))
  }

  // ----- A complete call -----

  /** Every member of the status is seen to, in order, unless something throws. */
  predicate AfterStatus(acts: seq<Act>, members: seq<Member>) {
    if members == [] then acts == []
    else acts != [] && (acts == [Failed] || (acts[0].Seen? && acts[0].member == members[0] && AfterStatus(acts[1..], members[1..])))
  }

  predicate AfterHosts(acts: seq<Act>) {
    && acts != [] && acts[0].Got?
    && match acts[0].status
       case NoStatus => acts[1..] == []
       case StatusLost => acts[1..] == [Failed]
       case Members(members) => AfterStatus(acts[1..], members)
  }

  /** The hosts of the reply are brought in line before the status is asked for. */
  predicate AfterNode(acts: seq<Act>, hosts: HostList) {
    acts == [Failed] || (acts != [] && acts[0] == Checked(hosts) && AfterHosts(acts[1..]))
  }

  /** All that a call does; `own` if it is for a node of the list. Nothing, if that node had another connection by then. */
  predicate Complete(acts: seq<Act>, own: bool) {
    acts == [] || (acts[0].HadReply? &&
      match acts[0].reply
      case Lost => acts[1..] == [Failed]
      case Answer(_, rightSet, _, _, _, _, _, hosts) =>
        if !rightSet then acts[1..] == if own then [Refused] else []
        else if own then |acts| > 1 && acts[1] == Wrote && AfterNode(acts[2..], hosts)
        else AfterNode(acts[1..], hosts))
  }

  // ----- A call under way -----

  function Opening(call: Call, r: Reply): seq<Act> {
    [HadReply(r)] + if call.offset >= 0 then [Wrote] else []
  }

  predicate InSet(r: Reply) {
    r.Answer? && r.rightSet
  }

  /** The members of the status that have been seen to. */
  function SeenTo(acts: seq<Act>): (r: seq<Member>)
    ensures |r| == |acts|
  {
    seq(|acts|, i requires 0 <= i < |acts| => if acts[i].Seen? then acts[i].member else Member(None, None))
  }

  ghost predicate AllSeen(acts: seq<Act>) {
    forall i :: 0 <= i < |acts| ==> acts[i].Seen?
  }

  /** With these members of the status still to come. */
  ghost predicate UnderWay(call: Call, acts: seq<Act>, left: seq<Member>) {
    exists r, marks :: AllSeen(marks) && InSet(r)
      && acts == Opening(call, r) + [Checked(r.hosts)] + [Got(Members(SeenTo(marks) + left))] + marks
  }

  ghost predicate Fits(pc: Pc, acts: seq<Act>) {
    match pc
    case Match(_) => acts == []
    case Ask(_) => acts == []
    case WrongSet(call) => call.offset >= 0 && acts != [] && acts == [acts[0]] && acts[0].HadReply? && acts[0].reply.Answer? && !acts[0].reply.rightSet
    case Update(call, r) => call.offset >= 0 && InSet(r) && acts == [HadReply(r)]
    case FastSize(call, hosts) => exists r :: InSet(r) && r.hosts == hosts && acts == Opening(call, r)
    case FastFind(call, hosts, _, _) => exists r :: InSet(r) && r.hosts == hosts && acts == Opening(call, r)
    case Slow(call, hosts) => exists r :: InSet(r) && r.hosts == hosts && acts == Opening(call, r)
    case AskStatus(call) => exists r :: InSet(r) && acts == Opening(call, r) + [Checked(r.hosts)]
    case StatusFind(call, members) => UnderWay(call, acts, members)
    case StatusSet(call, members, _) => UnderWay(call, acts, members)
    case Caught(call) => acts != [] && acts[|acts| - 1] == Failed && Complete(acts, call.offset >= 0)
    case Release(call) => Complete(acts, call.offset >= 0)
    case _ => true
  }

  // ----- Every step keeps it -----

  lemma {:induction false} MarksThen(marks: seq<Act>, rest: seq<Act>, left: seq<Member>)
    requires AllSeen(marks) && AfterStatus(rest, left)
    ensures AfterStatus(marks + rest, SeenTo(marks) + left)
    decreases |marks|
  {
    if marks == [] {
      assert marks + rest == rest && SeenTo(marks) + left == left;
    } else {
      MarksThen(marks[1..], rest, left);
      assert (marks + rest)[1..] == marks[1..] + rest;
      assert (SeenTo(marks) + left)[1..] == SeenTo(marks[1..]) + left;
    }
  }

  lemma HostsThen(hosts: HostList, members: seq<Member>, rest: seq<Act>)
    requires AfterStatus(rest, members)
    ensures AfterNode([Checked(hosts)] + ([Got(Members(members))] + rest), hosts)
  {
    hide AfterStatus;
    assert ([Got(Members(members))] + rest)[1..] == rest;
    assert ([Checked(hosts)] + ([Got(Members(members))] + rest))[1..] == [Got(Members(members))] + rest;
  }

  lemma Regrouped(a: seq<Act>, b: seq<Act>, c: seq<Act>, d: seq<Act>, e: seq<Act>)
    ensures a + b + c + d + e == a + (b + (c + (d + e)))
  {
  }

  /** A call whose status has been seen to up to `left`, and then to the end. */
  lemma Completes(call: Call, acts: seq<Act>, left: seq<Member>, rest: seq<Act>)
    requires UnderWay(call, acts, left) && AfterStatus(rest, left)
    ensures Complete(acts + rest, call.offset >= 0)
  {
    var r, marks :| AllSeen(marks) && InSet(r)
      && acts == Opening(call, r) + [Checked(r.hosts)] + [Got(Members(SeenTo(marks) + left))] + marks;
    hide AfterStatus;
    hide Complete;
    hide AfterNode;
    hide Opening;
    hide SeenTo;
    hide AllSeen;
    MarksThen(marks, rest, left);
    HostsThen(r.hosts, SeenTo(marks) + left, marks + rest);
    OpeningThen(call, r, [Checked(r.hosts)] + ([Got(Members(SeenTo(marks) + left))] + (marks + rest)));
    Regrouped(Opening(call, r), [Checked(r.hosts)], [Got(Members(SeenTo(marks) + left))], marks, rest);
  }

  lemma OpeningThen(call: Call, r: Reply, rest: seq<Act>)
    requires InSet(r)
    ensures Complete(Opening(call, r) + rest, call.offset >= 0) <==> AfterNode(rest, r.hosts)
  {
    var acts := Opening(call, r) + rest;
    if call.offset >= 0 {
      assert acts == [HadReply(r), Wrote] + rest && acts[2..] == rest;
    } else {
      assert acts == [HadReply(r)] + rest && acts[1..] == rest;
    }
    hide AfterNode;
  }

  lemma AskFits(s: State, t: Tid, e: Event, acts: seq<Act>)
    requires Ready(s, t) && s.At(t).Ask? && Fits(s.At(t), acts)
    ensures var pc' := StepConnection(s, t, e).At(t); Fits(pc', acts + ActOf(s, t, e, pc'))
  {
    var call := s.At(t).call;
    if e.Replied? {
      var r := e.reply;
      assert [] + [HadReply(r)] == [HadReply(r)] && [] + [HadReply(r), Failed] == [HadReply(r), Failed];
      assert [HadReply(r)] + [Failed] == [HadReply(r), Failed] && [HadReply(r), Failed][1..] == [Failed];
      assert call.offset < 0 ==> Opening(call, r) == [HadReply(r)];
    }
    hide Ready;
    hide AfterNode;
    hide UnderWay;
  }

  lemma UpdateFits(s: State, t: Tid, e: Event, acts: seq<Act>)
    requires Ready(s, t) && (s.At(t).Update? || s.At(t).WrongSet?) && Fits(s.At(t), acts)
    ensures var pc' := StepConnection(s, t, e).At(t); Fits(pc', acts + ActOf(s, t, e, pc'))
  {
    var pc := s.At(t);
    assert pc.Update? ==> acts + [Wrote] == Opening(pc.call, pc.reply);
    hide AfterNode;
    hide UnderWay;
    hide Updated;
    hide CallOk;
    hide InSets;
  }

  lemma HostsGo(s: State, t: Tid, e: Event)
    requires s.At(t).FastSize? || s.At(t).FastFind? || s.At(t).Slow?
    ensures var (pc, pc') := (s.At(t), StepConnection(s, t, e).At(t));
      || ((pc'.FastFind? || pc'.Slow?) && !pc.Slow? && pc'.call == pc.call && pc'.hosts == pc.hosts)
      || (!pc.FastSize? && pc' in {AskStatus(pc.call), Caught(pc.call)})
    ensures var (pc, pc') := (s.At(t), StepConnection(s, t, e).At(t));
      ActOf(s, t, e, pc') == if pc'.Caught? then [Failed] else if pc'.AskStatus? then [Checked(pc.hosts)] else []
  {
    hide FindEntry;
    hide Reconcile;
  }

  lemma HostsFit(s: State, t: Tid, e: Event, acts: seq<Act>)
    requires (s.At(t).FastSize? || s.At(t).FastFind? || s.At(t).Slow?) && Fits(s.At(t), acts)
    ensures var pc' := StepConnection(s, t, e).At(t); Fits(pc', acts + ActOf(s, t, e, pc'))
  {
    var pc := s.At(t);
    HostsGo(s, t, e);
    hide StepConnection;
    hide ActOf;
    hide Complete;
    hide UnderWay;
    hide Opening;
    var r :| InSet(r) && r.hosts == pc.hosts && acts == Opening(pc.call, r);
    ThrowsOnHosts(pc.call, r);
    assert acts + [] == acts && (acts + [Failed])[|acts + [Failed]| - 1] == Failed;
  }

  lemma ThrowsOnHosts(call: Call, r: Reply)
    requires InSet(r)
    ensures Complete(Opening(call, r) + [Failed], call.offset >= 0)
  {
    OpeningThen(call, r, [Failed]);
    hide Complete;
  }

  lemma StatusFits(s: State, t: Tid, e: Event, acts: seq<Act>)
    requires Ready(s, t) && s.At(t).AskStatus? && Fits(s.At(t), acts)
    ensures var pc' := StepConnection(s, t, e).At(t); Fits(pc', acts + ActOf(s, t, e, pc'))
  {
    var call := s.At(t).call;
    var r :| InSet(r) && acts == Opening(call, r) + [Checked(r.hosts)];
    hide Ready;
    hide Complete;
    if e.StatusArrived? {
      StatusThen(call, r, acts, e.status);
    }
    assert acts + [] == acts;
    hide UnderWay;
    hide Opening;
  }

  lemma StatusThen(call: Call, r: Reply, acts: seq<Act>, status: Status)
    requires InSet(r) && acts == Opening(call, r) + [Checked(r.hosts)]
    ensures status.NoStatus? ==> Complete(acts + [Got(status)], call.offset >= 0)
    ensures status.StatusLost? ==> Complete(acts + ([Got(status)] + [Failed]), call.offset >= 0)
    ensures status.Members? ==> UnderWay(call, acts + [Got(status)], status.members)
    ensures acts + ([Got(status)] + []) == acts + [Got(status)]
  {
    var rest := [Got(status)] + if status.StatusLost? then [Failed] else [];
    hide Complete;
    hide Opening;
    assert ([Checked(r.hosts)] + rest)[1..] == rest && rest[1..] == if status.StatusLost? then [Failed] else [];
    OpeningThen(call, r, [Checked(r.hosts)] + rest);
    assert acts + rest == Opening(call, r) + ([Checked(r.hosts)] + rest);
    if status.Members? {
      assert SeenTo([]) + status.members == status.members;
      assert acts + [Got(status)] == Opening(call, r) + [Checked(r.hosts)] + [Got(Members(SeenTo([]) + status.members))] + [];
      assert AllSeen([]);
    } else {
      assert AfterHosts(rest);
      assert rest == if status.StatusLost? then [Got(status)] + [Failed] else [Got(status)];
    }
  }

  /** One member more has been seen to. */
  lemma SeeOne(call: Call, acts: seq<Act>, left: seq<Member>, found: bool)
    requires UnderWay(call, acts, left) && left != []
    ensures UnderWay(call, acts + [Seen(left[0], found)], left[1..])
  {
    var r, marks :| AllSeen(marks) && InSet(r)
      && acts == Opening(call, r) + [Checked(r.hosts)] + [Got(Members(SeenTo(marks) + left))] + marks;
    var more := marks + [Seen(left[0], found)];
    assert SeenTo(more) + left[1..] == SeenTo(marks) + left;
    assert AllSeen(more);
    hide SeenTo;
    hide AllSeen;
    hide Opening;
    assert acts + [Seen(left[0], found)] == Opening(call, r) + [Checked(r.hosts)] + [Got(Members(SeenTo(more) + left[1..]))] + more;
  }

  lemma MembersGo(s: State, t: Tid, e: Event)
    requires Ready(s, t) && (s.At(t).StatusFind? || s.At(t).StatusSet?)
    ensures var (pc, pc') := (s.At(t), StepConnection(s, t, e).At(t));
      var act := ActOf(s, t, e, pc');
      if pc.members == [] then pc' == Release(pc.call) && act == []
      else
        || (pc.StatusFind? && pc' == Caught(pc.call) && act == [Failed])
        || (pc.StatusFind? && pc'.StatusSet? && pc'.call == pc.call && pc'.members == pc.members && act == [])
        || (pc' == StatusFind(pc.call, pc.members[1..]) && act == [Seen(pc.members[0], pc.StatusSet?)])
  {
    hide FindEntry;
    hide Parse;
    hide CallOk;
    hide InSets;
  }

  lemma MembersFit(s: State, t: Tid, e: Event, acts: seq<Act>)
    requires Ready(s, t) && (s.At(t).StatusFind? || s.At(t).StatusSet?) && Fits(s.At(t), acts)
    ensures var pc' := StepConnection(s, t, e).At(t); Fits(pc', acts + ActOf(s, t, e, pc'))
  {
    var pc := s.At(t);
    MembersGo(s, t, e);
    hide StepConnection;
    hide ActOf;
    assert acts + [] == acts;
    if pc.members == [] {
      Completes(pc.call, acts, [], []);
    } else {
      Completes(pc.call, acts, pc.members, [Failed]);
      SeeOne(pc.call, acts, pc.members, pc.StatusSet?);
      assert (acts + [Failed])[|acts + [Failed]| - 1] == Failed;
    }
    hide UnderWay;
    hide Complete;
    hide Ready;
  }

  /** Outside `_checkConnection` nothing is asked of the log. */
  lemma CallFits(s: State, t: Tid, e: Event, acts: seq<Act>)
    requires Ready(s, t) && InConnection(s.At(t)) && Fits(s.At(t), acts)
    ensures var pc' := StepConnection(s, t, e).At(t); Fits(pc', acts + ActOf(s, t, e, pc'))
  {
    hide Fits;
    match s.At(t) {
      case Ask(_) => AskFits(s, t, e, acts);
      case WrongSet(_) => UpdateFits(s, t, e, acts);
      case Update(_, _) => UpdateFits(s, t, e, acts);
      case FastSize(_, _) => HostsFit(s, t, e, acts);
      case FastFind(_, _, _, _) => HostsFit(s, t, e, acts);
      case Slow(_, _) => HostsFit(s, t, e, acts);
      case AskStatus(_) => StatusFits(s, t, e, acts);
      case StatusFind(_, _) => MembersFit(s, t, e, acts);
      case StatusSet(_, _, _) => MembersFit(s, t, e, acts);
      case _ => PlainFits(s, t, e, acts);
    }
    hide StepConnection;
    hide ActOf;
    hide Ready;
  }

  lemma PlainFits(s: State, t: Tid, e: Event, acts: seq<Act>)
    requires Ready(s, t) && (s.At(t).Match? || s.At(t).Caught? || s.At(t).Release?) && Fits(s.At(t), acts)
    ensures var pc' := StepConnection(s, t, e).At(t); Fits(pc', acts + ActOf(s, t, e, pc'))
  {
    assert acts + [] == acts;
    hide PcOk;
    hide AfterNode;
    hide UnderWay;
  }

  lemma OwnStepFits(s: State, t: Tid, e: Event, acts: seq<Act>)
    requires Ready(s, t) && Fits(s.At(t), acts)
    ensures var pc' := Step(s, t, e).At(t); Fits(pc', if s.At(t).Acquire? then [] else acts + ActOf(s, t, e, pc'))
  {
    hide Step;
    hide StepConnection;
    hide StepRound;
    hide StepSeeds;
    hide StepBegin;
    hide ActOf;
    hide Complete;
    hide UnderWay;
    var pc := s.At(t);
    StepBelongs(s, t, e);
    if InConnection(pc) {
      CallFits(s, t, e, acts);
    } else if pc.Acquire? {
      AcquireFits(s, t, e);
    } else if InRound(pc) {
      RoundSaid(s, t);
    } else if InSeeds(pc) {
      SeedsSaid(s, t, e);
    } else if pc.Begin? {
      OperationBegins(s, t);
    } else {
      SingleStep(s, t, e);
    }
    hide Ready;
  }

  lemma AcquireFits(s: State, t: Tid, e: Event)
    requires s.At(t).Acquire?
    ensures Fits(StepConnection(s, t, e).At(t), [])
  {
  }

  lemma {:induction false} RunFits(seeds: seq<Host>, threshold: int, moves: seq<Move>, t: Tid)
    ensures var start := Init(seeds, threshold); Fits(Run(start, moves).At(t), Acts(start, moves, t))
    decreases |moves|
  {
    var start := Init(seeds, threshold);
    if moves != [] {
      var before, m := moves[..|moves| - 1], moves[|moves| - 1];
      RunFits(seeds, threshold, before, t);
      InvRun(seeds, threshold, before);
      var s := Run(start, before);
      assert Run(start, moves) == Step(s, m.thread, m.event);
      hide Run;
      hide Init;
      hide Step;
      hide Fits;
      hide ActOf;
      if m.thread != t {
        OtherStays(s, m.thread, m.event, t);
      } else {
        assert Ready(s, t);
        OwnStepFits(s, t, m.event, Acts(start, before, t));
      }
      hide Inv;
    }
  }

  // ----- The theorems -----

  /**
   * When `_checkConnection` gives its lock back it has done all there is to do: after a reply from a member of the set it has
   * written the node, brought the reported hosts in line, asked for the status and seen to every member of it, in
   * that order, unless something has thrown; a stranger's node has been taken out of use; and it has done nothing only if
   * its node had another connection by then.
   */
  lemma CallIsComplete(seeds: seq<Host>, threshold: int, moves: seq<Move>, t: Tid)
    ensures var start, s := Init(seeds, threshold), Run(Init(seeds, threshold), moves);
      s.At(t).Release? ==> Complete(Acts(start, moves, t), s.At(t).call.offset >= 0)
  {
    RunFits(seeds, threshold, moves, t);
    hide Run;
    hide Acts;
    hide Init;
    hide Complete;
  }

  /** What writing the node means: it is what the server has just replied, and no other node changes. */
  lemma AnswerIsTaken(s: State, t: Tid, e: Event)
    requires Ready(s, t) && s.At(t).Update?
    ensures var (s', call) := (Step(s, t, e), s.At(t).call);
      && s.ConnMatch(call) && s.At(t).reply.Answer? && |s'.nodes| == |s.nodes| && s'.master == s.master
      && forall i :: 0 <= i < |s.nodes| && i != call.offset ==> s'.nodes[i] == s.nodes[i]
    ensures var (n, n', r) := (s.nodes[s.At(t).call.offset], Step(s, t, e).nodes[s.At(t).call.offset], s.At(t).reply);
      && n'.addr == n.addr && n'.conn == n.conn && n'.ok == n.ok
      && n'.ismaster == r.isMaster && n'.secondary == r.secondary && n'.hidden == r.hidden && n'.tags == r.tags
      && (n.pingTimeMillis == 0 ==> n'.pingTimeMillis == r.millis)
      && (n.pingTimeMillis <= r.millis ==> n.pingTimeMillis <= n'.pingTimeMillis <= r.millis)
      && (r.millis <= n.pingTimeMillis ==> r.millis <= n'.pingTimeMillis <= n.pingTimeMillis)
  {
    var n, r := s.nodes[s.At(t).call.offset], s.At(t).reply;
    PingIsSmoothed(n, r);
    hide CallOk;
    hide InSets;
    hide Truncated;
  }

  /** What bringing the hosts in line means: the list as it is now agrees with what was reported, or is made to agree. */
  lemma HostsAreTaken(s: State, t: Tid, e: Event)
    requires Inv(s) && (s.At(t).FastFind? || s.At(t).Slow?)
    ensures var (s', r) := (Step(s, t, e), Reconcile(s.nodes, s.At(t).hosts));
      match s'.At(t)
      case AskStatus(_) => if r.Unchanged? then s'.nodes == s.nodes && s'.master == s.master else r.Changed? && s'.nodes == r.nodes && s'.master == -1
      case Caught(_) => r.Threw? && s'.nodes == r.nodes && s'.master == s.master
      case _ => s'.nodes == s.nodes && s'.master == s.master
  {
    HostCheckIsAtomic(s, t, e);
    hide Reconcile;
    hide Inv;
    hide FindEntry;
  }

  /** What seeing to a member of the status means when it is not found: no listed node has its address. */
  lemma UnknownMemberIsSkipped(s: State, t: Tid, e: Event)
    requires s.At(t).StatusFind? && s.At(t).members != []
    ensures var (pc', member) := (Step(s, t, e).At(t), s.At(t).members[0]);
      && Step(s, t, e).nodes == s.nodes
      && (pc'.StatusFind? ==>
            pc'.members == s.At(t).members[1..] && member.name.Some?
            && forall i :: 0 <= i < |s.nodes| ==> Parse(member.name.value) != Success(s.nodes[i].addr))
      && (pc'.Caught? ==> member.name.None? || member.healthy.None? || Parse(member.name.value).Failure?)
  {
    hide Parse;
  }
}
