/** The launching code, the agent and everybody else, run together.

    A run interleaves three things: entries of the launch log, which the launching code
    only ever writes lawfully; the arrival at the agent of messages that log has sent; and
    whatever else happens at the agent. The clock is one. An answer the log hears as a
    grant is a grant the agent gave to that request. Every such run is a joint run of the
    two-party model, so what holds of all of those holds of the code. */
module WholeSystem {
  import opened Prelude
  import opened Lease
  import opened Authority
  import opened Launcher
  import opened LaunchLog
  import opened LaunchReleases
  import opened TwoParty

  datatype WholeEvent =
    | Did(entry: Entry)
    | Arrives(message: Event)
    | Other(event: Event)

  datatype Whole = Whole(joint: Joint, log: Log)

  function ProgressOf(party: Party, w: Whole): Option<Progress> { Watch(party.request, w.log) }

  /** What an entry of the log means for the joint run. */
  function MoveOf(m: Progress, e: Entry): Option<JointEvent> {
    match e.deed
    case ClockRead =>
      if m.control == ToReadBase then Some(BeginAttempt)
      else if m.control == ToReadTurn && e.at >= m.deadline then Some(WorkloadOver) else None
    case Heard(answer) =>
      if m.control.Asking? then Some(if GrantOf(answer).Some? then Adopt else GiveUp) else None
    case HandlersInstalled(ok) => if ok then None else Some(WorkloadOver)
    case SpawnTried(child) => if child.Some? then None else Some(WorkloadOver)
    case Polled(status) => if m.control == ToPoll && status.Some? then Some(WorkloadOver) else None
    case _ => None
  }

  function JointEventOf(party: Party, w: Whole, e: WholeEvent): Option<JointEvent> {
    match e
    case Did(entry) => if ProgressOf(party, w).Some? then MoveOf(ProgressOf(party, w).value, entry) else None
    case Arrives(message) => Some(if message.RequestLease? then Ask(message) else HandBack(message))
    case Other(event) => Some(AgentSide(event))
  }

  function Moved(config: Config, party: Party, j: Joint, move: Option<JointEvent>): Joint {
    if move.Some? then JointStep(config, party, j, move.value).0 else j
  }

  function WholeStep(config: Config, party: Party, w: Whole, e: WholeEvent): Whole {
    Whole(
      Moved(config, party, w.joint, JointEventOf(party, w, e)),
      if e.Did? then w.log + [e.entry] else w.log)
  }

  function WholeAfter(config: Config, party: Party, events: seq<WholeEvent>): Whole
    decreases |events|
  {
    if events == [] then Whole(Opening(config), [])
    else WholeStep(config, party, WholeAfter(config, party, events[..|events| - 1]), events[|events| - 1])
  }

  /** The joint events of a run, in order. */
  function JointRun(config: Config, party: Party, events: seq<WholeEvent>): seq<JointEvent>
    decreases |events|
  {
    if events == [] then []
    else
      var before := events[..|events| - 1];
      var move := JointEventOf(party, WholeAfter(config, party, before), events[|events| - 1]);
      JointRun(config, party, before) + if move.Some? then [move.value] else []
  }

  predicate SentRelease(log: Log, id: LeaseId) {
    exists k :: 0 <= k < |log| && log[k].deed == Sent(ReleaseMessage(id))
  }

  /** How the parts are connected. The log is lawful and its times are the agent's; a
      grant is heard only if the agent gave it to the request being waited for; only
      messages that were sent arrive, a request while its answer is awaited; and nobody
      else is observed as the launcher when releasing, nor the launcher as anybody else
      when asking. Messages and answers may be lost, late or repeated. */
  predicate Connected(party: Party, w: Whole, e: WholeEvent) {
    match e
    case Did(entry) =>
      && Lawful(party.request, w.log + [entry])
      && entry.at == w.joint.agent.clock
      && (entry.deed.Heard? && GrantOf(entry.deed.answer).Some? && ProgressOf(party, w).Some? && ProgressOf(party, w).value.control.Asking? ==>
            w.joint.attempt.Delivered? && w.joint.attempt.view == GrantOf(entry.deed.answer).value)
    case Arrives(message) =>
      if message.RequestLease? then
        ProgressOf(party, w).Some? && ProgressOf(party, w).value.control.Asking? && OnlyItself(party, Ask(message))
      else message.ReleaseLease? && SentRelease(w.log, message.id)
    case Other(event) => OnlyItself(party, AgentSide(event))
  }

  predicate ConnectedRun(config: Config, party: Party, events: seq<WholeEvent>)
    decreases |events|
  {
    events == [] || (
      && ConnectedRun(config, party, events[..|events| - 1])
      && Connected(party, WholeAfter(config, party, events[..|events| - 1]), events[|events| - 1]))
  }

  // ----- the code's bookkeeping and the joint launcher's

  predicate AttemptAgrees(m: Progress, attempt: Attempt) {
    match m.control
    case ToAsk(base) => attempt == Begun(base)
    case Asking(base) => !attempt.NoAttempt? && attempt.at == base
    case _ => true
  }

  /** The youngest lease is held with the code's deadline, the older ones are superseded,
      and every id the code has sent back is one the joint launcher may hand back. */
  ghost predicate Agrees(party: Party, w: Whole) {
    && ProgressOf(party, w).Some?
    && var m := ProgressOf(party, w).value;
       && w.joint.over == m.over
       && (w.joint.held.Holds? <==> m.granted != [])
       && (m.granted != [] ==> w.joint.held == Holds(m.granted[|m.granted| - 1], m.deadline))
       && (forall k :: 0 <= k < |m.granted| - 1 ==> m.granted[k] in w.joint.superseded)
       && AttemptAgrees(m, w.joint.attempt)
       && (forall id :: SentRelease(w.log, id) ==> MayReturn(w.joint, id))
  }

  predicate MayReturn(j: Joint, id: LeaseId) {
    id in j.superseded || (j.over && j.held.Holds? && j.held.id == id)
  }

  /** What an entry does to the bookkeeping, by the move it is. */
  predicate Follows(m: Progress, e: Entry, n: Progress) {
    match MoveOf(m, e)
    case Some(Adopt) =>
      && m.control.Asking? && e.deed.Heard? && GrantOf(e.deed.answer).Some? && n.over == m.over
      && n.granted == m.granted + [GrantOf(e.deed.answer).value.leaseId]
      && n.deadline == SafeDeadline(m.control.base, GrantOf(e.deed.answer).value.remaining)
    case Some(WorkloadOver) => n.over && n.granted == m.granted && n.deadline == m.deadline
    case Some(BeginAttempt) => n.over == m.over && n.granted == m.granted && n.deadline == m.deadline && !m.over
    case _ => n.over == m.over && n.granted == m.granted && n.deadline == m.deadline
  }

  lemma MessagesFollow(m: Progress, e: Entry)
    requires LeasesOut(m)
    ensures e.deed.Sent? && AdvanceSent(m, e.deed.message).Some? ==> Follows(m, e, AdvanceSent(m, e.deed.message).value)
    ensures e.deed.Heard? && AdvanceHeard(m, e.deed.answer).Some? ==> Follows(m, e, AdvanceHeard(m, e.deed.answer).value)
  {
  }

  lemma StartFollows(m: Progress, e: Entry)
    requires LeasesOut(m) && AdvanceStart(m, e.deed).Some?
    ensures Follows(m, e, AdvanceStart(m, e.deed).value)
  {
  }

  lemma PollsFollow(m: Progress, e: Entry)
    requires LeasesOut(m) && e.deed.Polled? && AdvancePolled(m, e.deed.status).Some?
    ensures Follows(m, e, AdvancePolled(m, e.deed.status).value)
  {
  }

  lemma WaitsFollow(m: Progress, e: Entry)
    requires LeasesOut(m) && e.deed.Waited? && AdvanceWaited(m, e.deed.status).Some?
    ensures Follows(m, e, AdvanceWaited(m, e.deed.status).value)
  {
  }

  lemma ReadingsFollow(m: Progress, e: Entry)
    requires LeasesOut(m) && e.deed == ClockRead && AdvanceRead(m, e.at).Some?
    ensures Follows(m, e, AdvanceRead(m, e.at).value)
  {
  }

  lemma EntryFollows(m: Progress, since: nat, e: Entry)
    requires LeasesOut(m) && Proceed(m, since, e).Some?
    ensures Follows(m, e, Proceed(m, since, e).value)
  {
    hide LeasesOut;
    match e.deed
    case ClockRead => ReadingsFollow(m, e);
    case Sent(_) => MessagesFollow(m, e);
    case Heard(_) => MessagesFollow(m, e);
    case Polled(_) => PollsFollow(m, e);
    case Waited(_) => WaitsFollow(m, e);
    case Slept(_) =>
    case Signalled(_, _) =>
    case _ => StartFollows(m, e);
  }

  /** The launch before and after one more lawful entry. */
  lemma OneMoreEntry(party: Party, log: Log, e: Entry) returns (m: Progress, n: Progress)
    requires Lawful(party.request, log) && Lawful(party.request, log + [e])
    ensures Watch(party.request, log) == Some(m) && Watch(party.request, log + [e]) == Some(n)
    ensures LeasesOut(m) && Follows(m, e, n) && LeadsTo(m, e, n)
    ensures Returns(e) ==>
      m.returned < |m.granted| && e.deed.message.id == m.granted[m.returned] && (m.over || m.returned + 1 < |m.granted|)
  {
    hide Proceed, Follows, LeadsTo, MoveOf;
    WatchMore(party.request, log, e);
    LedgerHolds(party.request, log);
    m, n := Watch(party.request, log).value, Watch(party.request, log + [e]).value;
    EntryFollows(m, Latest(log), e);
    EntryLeads(m, Latest(log), e);
    WhereItHappens(m, Latest(log), e);
  }

  lemma OneMoreSent(log: Log, e: Entry, id: LeaseId)
    ensures SentRelease(log + [e], id) <==> SentRelease(log, id) || e.deed == Sent(ReleaseMessage(id))
  {
    var longer := log + [e];
    if SentRelease(log, id) {
      var k :| 0 <= k < |log| && log[k].deed == Sent(ReleaseMessage(id));
      assert longer[k] == log[k];
    }
    if e.deed == Sent(ReleaseMessage(id)) {
      assert longer[|log|] == e;
    }
  }

  /** The bookkeeping part of agreement, attempt and sent messages aside. */
  ghost predicate BooksAgree(m: Progress, j: Joint) {
    && j.over == m.over
    && (j.held.Holds? <==> m.granted != [])
    && (m.granted != [] ==> j.held == Holds(m.granted[|m.granted| - 1], m.deadline))
    && (forall k :: 0 <= k < |m.granted| - 1 ==> m.granted[k] in j.superseded)
  }

  lemma EntryKeepsBooks(config: Config, party: Party, w: Whole, e: Entry, m: Progress, n: Progress)
    requires BooksAgree(m, w.joint) && AttemptAgrees(m, w.joint.attempt) && Follows(m, e, n)
    requires e.deed.Heard? && GrantOf(e.deed.answer).Some? && m.control.Asking? ==>
      w.joint.attempt.Delivered? && w.joint.attempt.view == GrantOf(e.deed.answer).value
    ensures BooksAgree(n, Moved(config, party, w.joint, MoveOf(m, e)))
  {
  }

  lemma EntryKeepsAttempt(config: Config, party: Party, w: Whole, e: Entry, m: Progress, n: Progress)
    requires AttemptAgrees(m, w.joint.attempt) && LeasesOut(m) && LeadsTo(m, e, n) && w.joint.over == m.over
    requires e.at == w.joint.agent.clock
    ensures AttemptAgrees(n, Moved(config, party, w.joint, MoveOf(m, e)).attempt)
  {
  }

  /** A permission to hand an id back is never withdrawn. */
  lemma ReturnStaysPermitted(config: Config, party: Party, j: Joint, e: JointEvent, id: LeaseId)
    requires MayReturn(j, id)
    ensures MayReturn(JointStep(config, party, j, e).0, id)
  {
  }

  /** What the code may send back by the ledger, the joint launcher may hand back. */
  lemma LedgerPermits(m: Progress, j: Joint, id: LeaseId)
    requires BooksAgree(m, j) && m.returned < |m.granted| && id == m.granted[m.returned]
    requires m.over || m.returned + 1 < |m.granted|
    requires m.over ==> m.returned + 1 <= |m.granted|
    ensures MayReturn(j, id)
  {
  }

  ghost predicate SentAgrees(log: Log, j: Joint) {
    forall id :: SentRelease(log, id) ==> MayReturn(j, id)
  }

  lemma EntryKeepsSent(config: Config, party: Party, w: Whole, e: Entry, m: Progress)
    requires SentAgrees(w.log, w.joint)
    requires Returns(e) ==> MayReturn(w.joint, e.deed.message.id)
    ensures SentAgrees(w.log + [e], Moved(config, party, w.joint, MoveOf(m, e)))
  {
    var j := Moved(config, party, w.joint, MoveOf(m, e));
    forall id | SentRelease(w.log + [e], id)
      ensures MayReturn(j, id)
    {
      OneMoreSent(w.log, e, id);
      if MoveOf(m, e).Some? {
        ReturnStaysPermitted(config, party, w.joint, MoveOf(m, e).value, id);
      }
    }
  }

  lemma DidKeeps(config: Config, party: Party, w: Whole, e: WholeEvent)
    requires Agrees(party, w) && Connected(party, w, e) && e.Did?
    ensures Agrees(party, WholeStep(config, party, w, e))
  {
    hide Watch, LeasesOut, Follows, LeadsTo, MoveOf, Moved, AttemptAgrees;
    var m, n := OneMoreEntry(party, w.log, e.entry);
    assert BooksAgree(m, w.joint);
    EntryKeepsBooks(config, party, w, e.entry, m, n);
    EntryKeepsAttempt(config, party, w, e.entry, m, n);
    if Returns(e.entry) {
      LedgerPermits(m, w.joint, e.entry.deed.message.id);
    }
    EntryKeepsSent(config, party, w, e.entry, m);
  }

  /** Whatever happens at the agent touches at most the attempt, and not the reading it
      is counted from. */
  lemma AgentLeavesBooks(config: Config, party: Party, j: Joint, e: JointEvent)
    requires e.AgentSide? || e.Ask? || e.HandBack?
    ensures var n := JointStep(config, party, j, e).0;
      && n.held == j.held && n.superseded == j.superseded && n.over == j.over
      && (j.attempt.Begun? && !e.Ask? ==> n.attempt == j.attempt)
      && (!j.attempt.NoAttempt? ==> !n.attempt.NoAttempt? && n.attempt.at == j.attempt.at)
  {
  }

  lemma AgentKeeps(config: Config, party: Party, w: Whole, e: WholeEvent)
    requires Agrees(party, w) && Connected(party, w, e) && !e.Did?
    ensures Agrees(party, WholeStep(config, party, w, e))
  {
    hide Watch;
    AgentLeavesBooks(config, party, w.joint, JointEventOf(party, w, e).value);
    hide JointStep;
  }

  // ----- whole runs

  lemma {:induction false} RunAgrees(config: Config, party: Party, events: seq<WholeEvent>)
    requires ConnectedRun(config, party, events)
    ensures Agrees(party, WholeAfter(config, party, events))
    decreases |events|
  {
    if events != [] {
      var before, e := events[..|events| - 1], events[|events| - 1];
      RunAgrees(config, party, before);
      if e.Did? {
        DidKeeps(config, party, WholeAfter(config, party, before), e);
      } else {
        AgentKeeps(config, party, WholeAfter(config, party, before), e);
      }
    }
  }

  lemma MovesAreOwn(party: Party, w: Whole, e: WholeEvent)
    requires Connected(party, w, e) && JointEventOf(party, w, e).Some?
    ensures OnlyItself(party, JointEventOf(party, w, e).value)
  {
    hide Watch;
  }

  /** A run of the launching code against an agent among other clients is a joint run. */
  lemma {:induction false} RunIsJoint(config: Config, party: Party, events: seq<WholeEvent>)
    requires ConnectedRun(config, party, events)
    ensures WholeAfter(config, party, events).joint == JointAfter(config, party, JointRun(config, party, events))
    ensures AllOnlyItself(party, JointRun(config, party, events))
    decreases |events|
  {
    hide JointStep, JointEventOf, Connected, OnlyItself, Watch;
    if events != [] {
      var before, e := events[..|events| - 1], events[|events| - 1];
      RunIsJoint(config, party, before);
      var w := WholeAfter(config, party, before);
      var move := JointEventOf(party, w, e);
      if move.Some? {
        MovesAreOwn(party, w, e);
        var run := JointRun(config, party, before) + [move.value];
        assert JointRun(config, party, events) == run;
        assert run[..|run| - 1] == JointRun(config, party, before) && run[|run| - 1] == move.value;
        assert JointAfter(config, party, run) == JointStep(config, party, w.joint, move.value).0;
      } else {
        assert JointRun(config, party, events) == JointRun(config, party, before);
      }
    }
  }

  /** In every run, at every moment, the deadline the code works to is no later than the
      agent's own expiry of the youngest lease it was granted. */
  lemma CodeDeadlineNeverPassesExpiry(config: Config, party: Party, events: seq<WholeEvent>)
    requires ConnectedRun(config, party, events)
    ensures var w := WholeAfter(config, party, events);
      && ProgressOf(party, w).Some?
      && var m := ProgressOf(party, w).value;
         m.granted != [] ==>
           var id := m.granted[|m.granted| - 1];
           id.sequence < |w.joint.agent.issued| && m.deadline <= w.joint.agent.issued[id.sequence].expiresAt
  {
    hide Watch, JointAfter, JointRun, WholeAfter;
    RunAgrees(config, party, events);
    RunIsJoint(config, party, events);
    DeadlineNeverPassesExpiry(config, party, JointRun(config, party, events));
  }

  /** What an event makes the agent do to the backend. */
  function OutputOf(config: Config, party: Party, w: Whole, e: WholeEvent): Output {
    var move := JointEventOf(party, w, e);
    if move.Some? then JointStep(config, party, w.joint, move.value).1 else SILENT
  }

  // ----- the ids the code is granted

  predicate Ascending(ids: seq<LeaseId>) {
    forall i, j :: 0 <= i < j < |ids| ==> ids[i].sequence < ids[j].sequence
  }

  lemma AscendingMore(ids: seq<LeaseId>, id: LeaseId)
    requires Ascending(ids) && (ids != [] ==> ids[|ids| - 1].sequence < id.sequence)
    ensures Ascending(ids + [id])
  {
  }

  /** A grant heard now is younger than any lease granted before. */
  lemma HeardIsYounger(config: Config, party: Party, w: Whole, e: Entry, m: Progress, n: Progress)
    requires BooksAgree(m, w.joint) && AttemptOk(config, party, w.joint) && Follows(m, e, n) && Ascending(m.granted)
    requires e.deed.Heard? && GrantOf(e.deed.answer).Some? && m.control.Asking? ==>
      w.joint.attempt.Delivered? && w.joint.attempt.view == GrantOf(e.deed.answer).value
    ensures Ascending(n.granted)
  {
    hide Protected, MintedFor;
    if MoveOf(m, e) == Some(Adopt) {
      AscendingMore(m.granted, GrantOf(e.deed.answer).value.leaseId);
    }
  }

  lemma StepKeepsAscending(config: Config, party: Party, w: Whole, e: WholeEvent)
    requires Agrees(party, w) && AttemptOk(config, party, w.joint) && Connected(party, w, e)
    requires Ascending(ProgressOf(party, w).value.granted)
    ensures ProgressOf(party, WholeStep(config, party, w, e)).Some?
    ensures Ascending(ProgressOf(party, WholeStep(config, party, w, e)).value.granted)
  {
    hide Watch, LeasesOut, Follows, LeadsTo, Moved, AttemptAgrees, Ascending, AttemptOk;
    if e.Did? {
      var m, n := OneMoreEntry(party, w.log, e.entry);
      HeardIsYounger(config, party, w, e.entry, m, n);
    }
  }

  lemma AttemptIsOk(config: Config, party: Party, events: seq<WholeEvent>)
    requires ConnectedRun(config, party, events)
    ensures AttemptOk(config, party, WholeAfter(config, party, events).joint)
  {
    hide Watch, JointAfter, JointRun, WholeAfter, AttemptOk, HeldOk, SupersededOk, ReturnedOk;
    RunIsJoint(config, party, events);
    JointReachable(config, party, JointRun(config, party, events));
  }

  /** In every connected run the ids granted to the code ascend, so none comes twice. */
  lemma {:induction false} GrantedIdsAscend(config: Config, party: Party, events: seq<WholeEvent>)
    requires ConnectedRun(config, party, events)
    ensures var w := WholeAfter(config, party, events);
      ProgressOf(party, w).Some? && Ascending(ProgressOf(party, w).value.granted)
    decreases |events|
  {
    hide Watch, WholeStep, Ascending, AttemptOk, Connected;
    if events == [] {
      NothingWatched(party.request);
      NoneAscend(party);
    } else {
      var before := events[..|events| - 1];
      GrantedIdsAscend(config, party, before);
      RunAgrees(config, party, before);
      AttemptIsOk(config, party, before);
      StepKeepsAscending(config, party, WholeAfter(config, party, before), events[|events| - 1]);
    }
  }

  lemma NoneAscend(party: Party)
    ensures Ascending(Begin(party.request).granted)
  {
  }

  /** So the code sends at most three release messages for any one lease, and none for a
      lease it was not granted. */
  lemma CodeTriesAtMostThreeTimes(config: Config, party: Party, events: seq<WholeEvent>, id: LeaseId)
    requires ConnectedRun(config, party, events)
    ensures var log := WholeAfter(config, party, events).log;
      Messages(log, id) <= 3 && (id !in GrantedIds(log) ==> Messages(log, id) == 0)
  {
    hide Watch, WholeAfter, Messages, GrantedIds, Remembers;
    var log := WholeAfter(config, party, events).log;
    GrantedIdsAscend(config, party, events);
    LawfulLogRemembers(party.request, log);
    GrantedAreRemembered(log, Watch(party.request, log).value);
    AtMostThreeAttempts(party.request, log, id);
  }

  lemma GrantedAreRemembered(log: Log, m: Progress)
    requires Remembers(log, m)
    ensures m.granted == GrantedIds(log)
  {
    hide LeasesOut, TailOk, ReturnsOk, RenewalOk, GraceOk, EndsSomewhere, ChildOf, NothingReturnedYet, GrantedIds, LastGrant;
  }

  // ----- until the last lease goes back

  /** A release message naming the id has reached the agent. */
  predicate ReleaseArrived(events: seq<WholeEvent>, id: LeaseId) {
    exists k :: 0 <= k < |events| && events[k].Arrives? && events[k].message.ReleaseLease? && events[k].message.id == id
  }

  lemma ArrivedMore(events: seq<WholeEvent>, e: WholeEvent, id: LeaseId)
    ensures ReleaseArrived(events + [e], id) <==>
      ReleaseArrived(events, id) || (e.Arrives? && e.message.ReleaseLease? && e.message.id == id)
  {
    var longer := events + [e];
    if ReleaseArrived(events, id) {
      var k :| 0 <= k < |events| && events[k].Arrives? && events[k].message.ReleaseLease? && events[k].message.id == id;
      assert longer[k] == events[k];
    }
    if e.Arrives? && e.message.ReleaseLease? && e.message.id == id {
      assert longer[|events|] == e;
    }
  }

  lemma ReturnedMore(config: Config, party: Party, j: Joint, e: JointEvent, id: LeaseId)
    requires id in JointStep(config, party, j, e).0.returned
    ensures id in j.returned || (e.HandBack? && e.release.ReleaseLease? && e.release.id == id)
  {
  }

  lemma StepReturnsOnlyArrivals(config: Config, party: Party, w: Whole, e: WholeEvent, id: LeaseId)
    requires id in WholeStep(config, party, w, e).joint.returned && id !in w.joint.returned
    ensures e.Arrives? && e.message.ReleaseLease? && e.message.id == id
  {
    hide JointStep, Watch;
    var move := JointEventOf(party, w, e);
    if move.Some? {
      ReturnedMore(config, party, w.joint, move.value, id);
    }
  }

  lemma {:induction false} ReturnedHaveArrived(config: Config, party: Party, events: seq<WholeEvent>, id: LeaseId)
    requires id in WholeAfter(config, party, events).joint.returned
    ensures ReleaseArrived(events, id)
    decreases |events|
  {
    hide WholeStep, ReleaseArrived;
    if events != [] {
      var before, e := events[..|events| - 1], events[|events| - 1];
      assert events == before + [e];
      ArrivedMore(before, e, id);
      var w := WholeAfter(config, party, before);
      if id in w.joint.returned {
        ReturnedHaveArrived(config, party, before, id);
      } else {
        StepReturnsOnlyArrivals(config, party, w, e, id);
      }
    }
  }

  /** The youngest lease granted to the code is unexpired at the agent, and no release of it
      has reached the agent, nor does one now. */
  predicate YoungestStays(party: Party, w: Whole, events: seq<WholeEvent>, e: WholeEvent) {
    && ProgressOf(party, w).Some? && ProgressOf(party, w).value.granted != []
    && var granted := ProgressOf(party, w).value.granted;
       var id := granted[|granted| - 1];
       Unexpired(w.joint.agent, id) && !ReleaseArrived(events + [e], id)
  }

  lemma YoungestIsHeld(config: Config, party: Party, events: seq<WholeEvent>, e: WholeEvent)
    requires Agrees(party, WholeAfter(config, party, events))
    requires YoungestStays(party, WholeAfter(config, party, events), events, e)
    ensures var w := WholeAfter(config, party, events);
      HoldsLive(w.joint) && (JointEventOf(party, w, e).Some? ==> !LetsGo(w.joint, JointEventOf(party, w, e).value))
  {
    hide Watch, WholeAfter, ReleaseArrived, Unexpired;
    var id := WholeAfter(config, party, events).joint.held.id;
    ArrivedMore(events, e, id);
    if id in WholeAfter(config, party, events).joint.returned {
      ReturnedHaveArrived(config, party, events, id);
    }
  }

  /** No event by anybody makes the agent tear the code's resource down as long as a lease
      of the code's is unexpired: one just granted, or the youngest it knows of, until a
      release of that one reaches the agent. That the workload is over makes no
      difference. */
  lemma CodeIsCoveredByAnyLease(config: Config, party: Party, events: seq<WholeEvent>, e: WholeEvent)
    requires ConnectedRun(config, party, events) && Connected(party, WholeAfter(config, party, events), e)
    requires GrantedLive(WholeAfter(config, party, events).joint)
      || YoungestStays(party, WholeAfter(config, party, events), events, e)
    ensures RevokeCall(party.request.resource) !in OutputOf(config, party, WholeAfter(config, party, events), e).calls
  {
    hide Watch, JointAfter, JointRun, WholeAfter, Connected, HoldsLive, GrantedLive, LetsGo, YoungestStays;
    var w := WholeAfter(config, party, events);
    RunAgrees(config, party, events);
    RunIsJoint(config, party, events);
    if YoungestStays(party, w, events, e) {
      YoungestIsHeld(config, party, events, e);
    }
    var move := JointEventOf(party, w, e);
    if move.Some? {
      MovesAreOwn(party, w, e);
      NoTeardownWhileCovered(config, party, JointRun(config, party, events), move.value);
    }
  }

  /** In particular while the clock has not reached the code's own deadline. */
  lemma CodeIsCoveredToItsDeadline(config: Config, party: Party, events: seq<WholeEvent>, e: WholeEvent)
    requires ConnectedRun(config, party, events) && Connected(party, WholeAfter(config, party, events), e)
    requires var w := WholeAfter(config, party, events);
      && ProgressOf(party, w).Some?
      && var m := ProgressOf(party, w).value;
         m.granted != [] && !ReleaseArrived(events + [e], m.granted[|m.granted| - 1]) && w.joint.agent.clock < m.deadline
    ensures RevokeCall(party.request.resource) !in OutputOf(config, party, WholeAfter(config, party, events), e).calls
  {
    hide Watch, WholeAfter, ConnectedRun, Connected, ReleaseArrived, OutputOf;
    CodeDeadlineNeverPassesExpiry(config, party, events);
    CodeIsCoveredByAnyLease(config, party, events, e);
  }

  /** A release the code sent for a superseded lease never tears the resource down before a
      release of the youngest reaches the agent, however late the two arrive. */
  lemma CodeRenewalNeverTearsDown(config: Config, party: Party, events: seq<WholeEvent>, message: Event)
    requires ConnectedRun(config, party, events) && message.ReleaseLease?
    requires var w := WholeAfter(config, party, events);
      && ProgressOf(party, w).Some?
      && var granted := ProgressOf(party, w).value.granted;
         granted != [] ==> !ReleaseArrived(events + [Arrives(message)], granted[|granted| - 1])
    ensures RevokeCall(party.request.resource) !in
      OutputOf(config, party, WholeAfter(config, party, events), Arrives(message)).calls
  {
    hide Watch, JointAfter, JointRun, WholeAfter, JointStep, ReleaseArrived;
    RunAgrees(config, party, events);
    RunIsJoint(config, party, events);
    var j := WholeAfter(config, party, events).joint;
    if j.held.Holds? {
      ArrivedMore(events, Arrives(message), j.held.id);
      if j.held.id in j.returned {
        ReturnedHaveArrived(config, party, events, j.held.id);
      }
    }
    RenewalNeverTearsDown(config, party, JointRun(config, party, events), message);
  }

  // ----- while the workload may be running

  lemma {:induction false} ArrivedWasSent(config: Config, party: Party, events: seq<WholeEvent>, id: LeaseId)
    requires ConnectedRun(config, party, events) && ReleaseArrived(events, id)
    ensures SentRelease(WholeAfter(config, party, events).log, id)
    decreases |events|
  {
    hide Watch, SentRelease, ReleaseArrived, JointEventOf, Moved;
    if events == [] {
      NothingArrived(id);
    } else {
      var before, e := events[..|events| - 1], events[|events| - 1];
      assert events == before + [e];
      ArrivedMore(before, e, id);
      var log := WholeAfter(config, party, before).log;
      if ReleaseArrived(before, id) {
        ArrivedWasSent(config, party, before, id);
      }
      if e.Did? {
        OneMoreSent(log, e.entry, id);
      }
    }
  }

  lemma NothingArrived(id: LeaseId)
    ensures !ReleaseArrived([], id)
  {
  }

  lemma {:induction false} SentIsCounted(log: Log, id: LeaseId)
    requires SentRelease(log, id)
    ensures Messages(log, id) > 0
    decreases |log|
  {
    var before := log[..|log| - 1];
    if log[|log| - 1].deed != Sent(ReleaseMessage(id)) {
      var k :| 0 <= k < |log| && log[k].deed == Sent(ReleaseMessage(id));
      assert before[k] == log[k];
      SentIsCounted(before, id);
    }
  }

  /** Once a release of the youngest lease is sent, its hand-back is under way or complete. */
  lemma HandBackHasBegun(m: Progress, id: LeaseId, count: nat)
    requires LeasesOut(m) && m.granted != [] && id == m.granted[|m.granted| - 1] && Ascending(m.granted)
    requires m.returned <= |m.granted| && CountFits(count, m, id) && count > 0
    ensures m.control.ToRelease? || m.control.Releasing? || m.control.ToBackOff? || m.control == ToTearDown || m.control == Done
  {
    if id in m.granted[..m.returned] {
      var k :| 0 <= k < m.returned && m.granted[..m.returned][k] == id;
      assert m.granted[k] == id;
    }
  }

  lemma AscendingIsDistinct(ids: seq<LeaseId>)
    requires Ascending(ids)
    ensures Distinct(ids)
  {
  }

  /** The youngest lease is released only once the workload, if it can be signalled, is gone. */
  lemma ReleasedOnlyWhenGone(config: Config, party: Party, events: seq<WholeEvent>)
    requires ConnectedRun(config, party, events)
    requires var w := WholeAfter(config, party, events);
      && ProgressOf(party, w).Some?
      && var m := ProgressOf(party, w).value;
         && m.granted != [] && m.child.Some? && Signalable(m.child.value)
         && SentRelease(w.log, m.granted[|m.granted| - 1])
    ensures GoneIn(WholeAfter(config, party, events).log)
  {
    hide Watch, WholeAfter, ConnectedRun, SentRelease, Messages, GoneIn, LeasesOut, CountFits, Ascending, Distinct, AttemptAgrees, Lawful;
    var w := WholeAfter(config, party, events);
    var m := ProgressOf(party, w).value;
    var id := m.granted[|m.granted| - 1];
    RunAgrees(config, party, events);
    GrantedIdsAscend(config, party, events);
    AscendingIsDistinct(m.granted);
    SentIsCounted(w.log, id);
    OverWhenSent(config, party, events, id);
    LogIsLawful(party, w);
    LedgerHolds(party.request, w.log);
    CountsFit(party.request, w.log, id);
    HandBackHasBegun(m, id, Messages(w.log, id));
    GoneWhenPastEnd(party.request, w.log);
  }

  lemma LogIsLawful(party: Party, w: Whole)
    requires ProgressOf(party, w).Some?
    ensures Lawful(party.request, w.log)
  {
  }

  lemma OverWhenSent(config: Config, party: Party, events: seq<WholeEvent>, id: LeaseId)
    requires ConnectedRun(config, party, events) && SentRelease(WholeAfter(config, party, events).log, id)
    requires var w := WholeAfter(config, party, events);
      && ProgressOf(party, w).Some?
      && var m := ProgressOf(party, w).value; m.granted != [] && id == m.granted[|m.granted| - 1]
    ensures ProgressOf(party, WholeAfter(config, party, events)).value.over
  {
    hide Watch, WholeAfter, ConnectedRun, SentRelease, AttemptAgrees;
    RunAgrees(config, party, events);
    SupersededIsOlder(config, party, events);
  }

  lemma SupersededIsOlder(config: Config, party: Party, events: seq<WholeEvent>)
    requires ConnectedRun(config, party, events)
    ensures SupersededOk(config, WholeAfter(config, party, events).joint)
  {
    hide Watch, JointAfter, JointRun, WholeAfter, AttemptOk, HeldOk, SupersededOk, ReturnedOk;
    RunIsJoint(config, party, events);
    JointReachable(config, party, JointRun(config, party, events));
  }

  /** Before its workload is over no release of the youngest lease arrives. */
  lemma NothingArrivesBeforeOver(config: Config, party: Party, events: seq<WholeEvent>, e: WholeEvent)
    requires ConnectedRun(config, party, events) && Connected(party, WholeAfter(config, party, events), e)
    requires var w := WholeAfter(config, party, events);
      ProgressOf(party, w).Some? && ProgressOf(party, w).value.granted != [] && !ProgressOf(party, w).value.over
    ensures var granted := ProgressOf(party, WholeAfter(config, party, events)).value.granted;
      !ReleaseArrived(events + [e], granted[|granted| - 1])
  {
    hide Watch, WholeAfter, ConnectedRun, ReleaseArrived, SentRelease, Lawful;
    var w := WholeAfter(config, party, events);
    var granted := ProgressOf(party, w).value.granted;
    var id := granted[|granted| - 1];
    if SentRelease(w.log, id) {
      OverWhenSent(config, party, events, id);
    }
    ArrivedMore(events, e, id);
    if ReleaseArrived(events, id) {
      ArrivedWasSent(config, party, events, id);
    }
  }

  /** As long as nothing in the log shows that the workload is gone, through a lapse's
      whole grace period, its kill and the wait for its exit, an unexpired lease keeps
      everybody from having the resource torn down under it. */
  lemma RunningWorkloadIsCovered(config: Config, party: Party, events: seq<WholeEvent>, e: WholeEvent)
    requires ConnectedRun(config, party, events) && Connected(party, WholeAfter(config, party, events), e)
    requires var w := WholeAfter(config, party, events);
      && ProgressOf(party, w).Some?
      && var m := ProgressOf(party, w).value;
         && m.child.Some? && Signalable(m.child.value) && !GoneIn(w.log)
         && m.granted != [] && Unexpired(w.joint.agent, m.granted[|m.granted| - 1])
    ensures RevokeCall(party.request.resource) !in OutputOf(config, party, WholeAfter(config, party, events), e).calls
  {
    hide Watch, WholeAfter, ConnectedRun, ReleaseArrived, OutputOf, SentRelease, GoneIn, Unexpired, Lawful;
    var w := WholeAfter(config, party, events);
    var granted := ProgressOf(party, w).value.granted;
    var id := granted[|granted| - 1];
    if SentRelease(w.log, id) {
      ReleasedOnlyWhenGone(config, party, events);
    }
    ArrivedMore(events, e, id);
    if ReleaseArrived(events, id) {
      ArrivedWasSent(config, party, events, id);
    }
    CodeIsCoveredByAnyLease(config, party, events, e);
  }
}
