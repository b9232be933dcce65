/** The launcher and the agent together: one launcher holding, renewing and returning
    leases on one resource, against an agent serving any number of other clients.

    The launcher here may do everything the supervising code does, in any order the
    code and the network could produce: begin an attempt (reading its clock first),
    have the request reach the agent any time later, learn the answer any time after
    it was given or never, adopt a grant, and hand back superseded ids any number of
    times. Only after it has declared the workload over may it hand back the lease it
    still holds. Both clocks share one time base. */
module TwoParty {
  import opened Identity
  import opened Resource
  import opened Lease
  import opened Authority
  import opened AuthorityInvariant
  import opened AuthorityProperties
  import opened Launcher

  datatype Attempt =
    | NoAttempt
    | Begun(at: nat)
    | Waiting(at: nat, sequence: nat)
    | Delivered(at: nat, view: LeaseView)

  datatype Held = Nothing | Holds(id: LeaseId, deadline: nat)

  /** `superseded` are the ids the launcher has replaced; `returned` is history: the ids
      of which a release message of the launcher's has reached the agent. */
  datatype Joint = Joint(
    agent: Agent,
    held: Held,
    attempt: Attempt,
    superseded: set<LeaseId>,
    returned: set<LeaseId>,
    over: bool)

  datatype JointEvent =
    | AgentSide(event: Event)
    | BeginAttempt
    | Ask(asking: Event)
    | Adopt
    | GiveUp
    | WorkloadOver
    | HandBack(release: Event)

  /** Who the launcher is, and what it asks for. */
  datatype Party = Party(self: WorkloadIdentity, request: ComputeRequest)

  function Opening(config: Config): Joint { Joint(Initial(config), Nothing, NoAttempt, {}, {}, false) }

  /** The answer the launcher is waiting for, when this output carries it. */
  function Hears(attempt: Attempt, output: Output): Attempt {
    if attempt.Waiting? && output.reply.Some? && output.reply.value.response.LeaseGranted?
       && output.reply.value.response.lease.leaseId.sequence == attempt.sequence
    then Delivered(attempt.at, output.reply.value.response.lease)
    else attempt
  }

  function JointStep(config: Config, party: Party, j: Joint, e: JointEvent): (Joint, Output) {
    match e
    case AgentSide(event) =>
      var (agent, output) := Step(config, j.agent, event);
      (j.(agent := agent, attempt := Hears(j.attempt, output)), output)
    case BeginAttempt =>
      (if j.over then j else j.(attempt := Begun(j.agent.clock)), SILENT)
    case Ask(asking) =>
      if !j.attempt.Begun? || !asking.RequestLease? || asking.request != party.request then (j, SILENT)
      else
        var (agent, output) := Step(config, j.agent, asking);
        var minted := |agent.issued| > |j.agent.issued|;
        (j.(agent := agent, attempt := if minted then Waiting(j.attempt.at, |j.agent.issued|) else j.attempt), output)
    case Adopt =>
      if !j.attempt.Delivered? then (j, SILENT)
      else
        (j.(held := Holds(j.attempt.view.leaseId, SafeDeadline(j.attempt.at, j.attempt.view.remaining)),
            superseded := j.superseded + if j.held.Holds? then {j.held.id} else {},
            attempt := NoAttempt),
         SILENT)
    case GiveUp => (j.(attempt := NoAttempt), SILENT)
    case WorkloadOver => (j.(over := true), SILENT)
    case HandBack(release) =>
      if MayHandBack(j, release) then
        var (agent, output) := Step(config, j.agent, release);
        (j.(agent := agent, returned := j.returned + {release.id}), output)
      else (j, SILENT)
  }

  /** Superseded ids at any time; the lease still held only once the workload is over. */
  predicate MayHandBack(j: Joint, release: Event) {
    release.ReleaseLease? && (release.id in j.superseded || (j.over && j.held.Holds? && j.held.id == release.id))
  }

  /** Nobody else is observed as the launcher's process when releasing, and the
      launcher is always observed as itself when asking. */
  predicate OnlyItself(party: Party, e: JointEvent) {
    match e
    case AgentSide(ReleaseLease(_, peer, _)) =>
      peer.consistency.Consistent? ==> CompareProcess(party.self, peer.observed.workload) != Same
    case Ask(RequestLease(_, _, peer)) =>
      peer.consistency.Consistent? ==> CompareProcess(party.self, peer.observed.workload) == Same
    case _ => true
  }

  // ----- what every joint event keeps

  /** A lease minted for the launcher. */
  ghost predicate MintedFor(party: Party, lease: ComputeLease) {
    lease.origin.request == party.request && CompareProcess(party.self, lease.origin.context.workload) == Same
  }

  /** Granted to the launcher, and since then neither released nor lost: still stored,
      or gone only because it expired. */
  ghost predicate Protected(config: Config, party: Party, s: Agent, id: LeaseId) {
    && id == LeaseId(config.instance, id.sequence)
    && id.sequence < |s.issued|
    && MintedFor(party, s.issued[id.sequence])
    && (HasFate(s, id.sequence, InStore) || HasFate(s, id.sequence, PrunedByExpiry))
  }

  ghost predicate HeldOk(config: Config, party: Party, j: Joint) {
    j.held.Holds? ==>
      && j.held.id == LeaseId(config.instance, j.held.id.sequence)
      && j.held.id.sequence < |j.agent.issued|
      && j.held.deadline <= j.agent.issued[j.held.id.sequence].expiresAt
      && (j.held.id !in j.returned ==> Protected(config, party, j.agent, j.held.id))
  }

  ghost predicate AttemptOk(config: Config, party: Party, j: Joint) {
    match j.attempt
    case NoAttempt => true
    case Begun(at) => at <= j.agent.clock
    case Waiting(at, sequence) =>
      && sequence < |j.agent.issued|
      && at <= j.agent.issued[sequence].issuedAt
      && MintedFor(party, j.agent.issued[sequence])
      && (j.held.Holds? ==> j.held.id.sequence < sequence)
    case Delivered(at, view) =>
      && Protected(config, party, j.agent, view.leaseId)
      && at + view.remaining <= j.agent.issued[view.leaseId.sequence].expiresAt
      && (j.held.Holds? ==> j.held.id.sequence < view.leaseId.sequence)
  }

  ghost predicate SupersededOk(config: Config, j: Joint) {
    forall id :: id in j.superseded ==> j.held.Holds? && id.sequence < j.held.id.sequence
  }

  /** Only superseded ids are handed back, and the held one once the workload is over. */
  ghost predicate ReturnedOk(j: Joint) {
    forall id :: id in j.returned ==> id in j.superseded || (j.over && j.held.Holds? && j.held.id == id)
  }

  ghost predicate JointInv(config: Config, party: Party, j: Joint) {
    && Inv(config, j.agent)
    && HeldOk(config, party, j)
    && AttemptOk(config, party, j)
    && SupersededOk(config, j)
    && ReturnedOk(j)
  }

  /** Whatever the agent does, a protected lease stays protected, except that it may be
      released by a peer that is the launcher's own process. */
  lemma ProtectionLasts(config: Config, party: Party, s: Agent, event: Event, id: LeaseId)
    requires Inv(config, s) && Protected(config, party, s, id)
    requires event.ReleaseLease? && event.id == id ==>
      (event.peer.consistency.Consistent? ==> CompareProcess(party.self, event.peer.observed.workload) != Same)
    ensures Protected(config, party, Step(config, s, event).0, id)
  {
    hide Inv, Step, LedgerOk, StoreOk, ThreadsOk, PlacesOk, SlotsOk;
    var n := Step(config, s, event).0;
    StepKeeps(config, s, event);
    StepExtends(config, s, event);
    var before := if HasFate(s, id.sequence, InStore) then InStore else PrunedByExpiry;
    InvGives(config, n);
    ExactlyOneFate(config, n, id.sequence);
    var after :| HasFate(n, id.sequence, after);
    FateMoves(config, s, event, id.sequence, before, after);
    if after == Withdrawn {
      WithdrawnOnlyByRelease(config, s, event, id);
      assert false;
    }
  }

  lemma NewlyRevoked(config: Config, s: Agent, event: Event, sequence: nat)
    requires Inv(config, s)
    requires sequence !in s.store.issuer.revoked && sequence in Step(config, s, event).0.store.issuer.revoked
    ensures || (event.Settle? && sequence in InFlight(s.threads))
            || (event.ReleaseLease? && event.id.sequence == sequence && MayRelease(s, event.id, event.peer))
  {
    if event.ReleaseLease? {
      ReleaseAnswersExactly(config, s, event);
    } else if event.Settle? {
      SettleRevokesItsOwn(config, s, event.thread, sequence);
    } else {
      OthersRevokeNothing(config, s, event);
    }
  }

  lemma SettleRevokesItsOwn(config: Config, s: Agent, thread: nat, sequence: nat)
    requires Inv(config, s)
    requires sequence !in s.store.issuer.revoked && sequence in StepSettle(s, thread).0.store.issuer.revoked
    ensures sequence in InFlight(s.threads)
  {
    SettleEffect(s, thread);
    var lease := s.threads[thread].lease;
    assert lease.id.sequence in InFlight(s.threads);
  }

  lemma OthersRevokeNothing(config: Config, s: Agent, event: Event)
    requires !event.Settle? && !event.ReleaseLease?
    ensures Step(config, s, event).0.store.issuer.revoked == s.store.issuer.revoked
  {
  }

  lemma StoredUnderItsId(config: Config, s: Agent, sequence: nat)
    requires Inv(config, s) && sequence in Stored(s.store.leases)
    ensures var id := LeaseId(config.instance, sequence);
      id in s.store.leases && sequence < |s.issued| && s.store.leases[id] == s.issued[sequence]
  {
    var id :| id in s.store.leases && id.sequence == sequence;
    StoredIsOurs(config, s, id);
  }

  /** A stored lease is withdrawn only by a successful release of its own id. */
  lemma WithdrawnOnlyByRelease(config: Config, s: Agent, event: Event, id: LeaseId)
    requires Inv(config, s) && id == LeaseId(config.instance, id.sequence)
    requires HasFate(s, id.sequence, InStore) && HasFate(Step(config, s, event).0, id.sequence, Withdrawn)
    ensures event.ReleaseLease? && event.id == id && MayRelease(s, id, event.peer)
    ensures s.store.leases[id] == s.issued[id.sequence]
  {
    hide Step, LedgerOk, StoreOk, ThreadsOk, LapsedOnly, SlotsOk;
    StoredUnderItsId(config, s, id.sequence);
    NewlyRevoked(config, s, event, id.sequence);
    if event.ReleaseLease? {
      StoredIsOurs(config, s, event.id);
    }
  }

  /** The agent moved on to `n`; what the launcher relies on survived. */
  lemma AgentAdvances(config: Config, party: Party, j: Joint, n: Agent)
    requires HeldOk(config, party, j) && AttemptOk(config, party, j) && SupersededOk(config, j) && ReturnedOk(j)
    requires Inv(config, n) && Extends(j.agent, n)
    requires j.held.Holds? && j.held.id !in j.returned ==> Protected(config, party, n, j.held.id)
    requires j.attempt.Delivered? ==> Protected(config, party, n, j.attempt.view.leaseId)
    ensures JointInv(config, party, j.(agent := n))
  {
  }

  /** No event by anyone but the launcher disturbs what the launcher relies on. */
  lemma LauncherUndisturbed(config: Config, party: Party, j: Joint, event: Event)
    requires JointInv(config, party, j)
    requires event.ReleaseLease? ==>
      || (event.peer.consistency.Consistent? ==> CompareProcess(party.self, event.peer.observed.workload) != Same)
      || (&& (j.held.Holds? && j.held.id !in j.returned ==> event.id != j.held.id)
          && (j.attempt.Delivered? ==> event.id != j.attempt.view.leaseId))
    ensures JointInv(config, party, j.(agent := Step(config, j.agent, event).0))
  {
    hide Inv, Step, Protected, MintedFor;
    StepKeeps(config, j.agent, event);
    StepExtends(config, j.agent, event);
    if j.held.Holds? && j.held.id !in j.returned {
      ProtectionLasts(config, party, j.agent, event, j.held.id);
    }
    if j.attempt.Delivered? {
      ProtectionLasts(config, party, j.agent, event, j.attempt.view.leaseId);
    }
    AgentAdvances(config, party, j, Step(config, j.agent, event).0);
  }

  /** Hearing the awaited grant: the lease is in the store and the announced time is true. */
  lemma HearingKeeps(config: Config, party: Party, j: Joint, event: Event)
    requires JointInv(config, party, j) && JointInv(config, party, j.(agent := Step(config, j.agent, event).0))
    ensures var (n, output) := Step(config, j.agent, event);
      AttemptOk(config, party, j.(agent := n, attempt := Hears(j.attempt, output)))
  {
    hide Inv, Step;
    var (n, output) := Step(config, j.agent, event);
    if Hears(j.attempt, output) != j.attempt {
      GrantIsTruthful(config, j.agent, event, output.reply.value.response.lease.leaseId);
      StepExtends(config, j.agent, event);
    }
  }

  lemma AgentSideKeeps(config: Config, party: Party, j: Joint, e: JointEvent)
    requires JointInv(config, party, j) && OnlyItself(party, e) && e.AgentSide?
    ensures JointInv(config, party, JointStep(config, party, j, e).0)
  {
    hide Inv, Step;
    LauncherUndisturbed(config, party, j, e.event);
    HearingKeeps(config, party, j, e.event);
  }

  lemma AskKeeps(config: Config, party: Party, j: Joint, e: JointEvent)
    requires JointInv(config, party, j) && OnlyItself(party, e) && e.Ask?
    ensures JointInv(config, party, JointStep(config, party, j, e).0)
  {
    var asking := e.asking;
    if j.attempt.Begun? && asking.RequestLease? && asking.request == party.request {
      LauncherUndisturbed(config, party, j, asking);
      RequestEffect(config, j.agent, asking.thread, party.request, asking.peer);
    }
  }

  /** What goes back is no longer relied on, and is never the lease just granted. */
  lemma HandsBackNothingNeeded(config: Config, party: Party, j: Joint, release: Event)
    requires JointInv(config, party, j) && MayHandBack(j, release)
    ensures JointInv(config, party, j.(returned := j.returned + {release.id}))
    ensures j.attempt.Delivered? ==> release.id != j.attempt.view.leaseId
  {
    hide Inv, Protected, MintedFor;
  }

  /** The launcher returns only superseded ids, or anything once the workload is over. */
  lemma HandBackKeeps(config: Config, party: Party, j: Joint, e: JointEvent)
    requires JointInv(config, party, j) && e.HandBack?
    ensures JointInv(config, party, JointStep(config, party, j, e).0)
  {
    hide Inv, Step;
    if MayHandBack(j, e.release) {
      HandsBackNothingNeeded(config, party, j, e.release);
      LauncherUndisturbed(config, party, j.(returned := j.returned + {e.release.id}), e.release);
    }
  }

  /** The launcher's own moves leave the agent alone. */
  lemma OwnMoveKeeps(config: Config, party: Party, j: Joint, e: JointEvent)
    requires JointInv(config, party, j) && (e.BeginAttempt? || e.Adopt? || e.GiveUp? || e.WorkloadOver?)
    ensures JointInv(config, party, JointStep(config, party, j, e).0)
  {
    hide Inv, Step, Protected, SafeDeadline;
    if e.Adopt? && j.attempt.Delivered? {
      ProtectedIsIssued(config, party, j.agent, j.attempt.view.leaseId);
      var expiresAt := j.agent.issued[j.attempt.view.leaseId.sequence].expiresAt;
      SafeDeadlineIsSafe(j.attempt.at, expiresAt - j.attempt.view.remaining, expiresAt);
    }
  }

  lemma ProtectedIsIssued(config: Config, party: Party, s: Agent, id: LeaseId)
    requires Protected(config, party, s, id)
    ensures id == LeaseId(config.instance, id.sequence) && id.sequence < |s.issued|
  {
  }

  lemma JointStepKeeps(config: Config, party: Party, j: Joint, e: JointEvent)
    requires JointInv(config, party, j) && OnlyItself(party, e)
    ensures JointInv(config, party, JointStep(config, party, j, e).0)
  {
    hide JointInv, JointStep, OnlyItself;
    match e
    case AgentSide(_) => AgentSideKeeps(config, party, j, e);
    case Ask(_) => AskKeeps(config, party, j, e);
    case HandBack(_) => HandBackKeeps(config, party, j, e);
    case _ => OwnMoveKeeps(config, party, j, e);
  }

  // ----- joint runs

  function JointAfter(config: Config, party: Party, events: seq<JointEvent>): Joint
    decreases |events|
  {
    if events == [] then Opening(config)
    else JointStep(config, party, JointAfter(config, party, events[..|events| - 1]), events[|events| - 1]).0
  }

  lemma {:induction false} JointReachable(config: Config, party: Party, events: seq<JointEvent>)
    requires forall k :: 0 <= k < |events| ==> OnlyItself(party, events[k])
    ensures JointInv(config, party, JointAfter(config, party, events))
    decreases |events|
  {
    hide Inv, Step, JointStep;
    if events == [] {
      ReachableInv(config, []);
    } else {
      JointReachable(config, party, events[..|events| - 1]);
      JointStepKeeps(config, party, JointAfter(config, party, events[..|events| - 1]), events[|events| - 1]);
    }
  }

  /** Through any number of renewals, the launcher's deadline is never later than the
      agent's own expiry of the lease it holds. */
  lemma DeadlineNeverPassesExpiry(config: Config, party: Party, events: seq<JointEvent>)
    requires forall k :: 0 <= k < |events| ==> OnlyItself(party, events[k])
    ensures var j := JointAfter(config, party, events);
      j.held.Holds? ==> j.held.id.sequence < |j.agent.issued| && j.held.deadline <= j.agent.issued[j.held.id.sequence].expiresAt
  {
    JointReachable(config, party, events);
  }

  // ----- no teardown under the launcher

  /** The lease at `id` has not expired. */
  predicate Unexpired(s: Agent, id: LeaseId) {
    id.sequence < |s.issued| && s.issued[id.sequence].expiresAt > s.clock
  }

  /** The launcher holds an unexpired lease no release of which has reached the agent. */
  predicate HoldsLive(j: Joint) {
    j.held.Holds? && j.held.id !in j.returned && Unexpired(j.agent, j.held.id)
  }

  /** One has just been granted to it. */
  predicate GrantedLive(j: Joint) {
    j.attempt.Delivered? && Unexpired(j.agent, j.attempt.view.leaseId)
  }

  /** Some lease of the launcher's, held or just granted, is stored and unexpired. */
  predicate Covered(j: Joint) { HoldsLive(j) || GrantedLive(j) }

  /** A release of the very lease the launcher holds reaches the agent. */
  predicate LetsGo(j: Joint, e: JointEvent) {
    e.HandBack? && MayHandBack(j, e.release) && j.held.Holds? && e.release.id == j.held.id
  }

  lemma StaysStored(config: Config, s: Agent, event: Event, id: LeaseId)
    requires Inv(config, s) && event.ReleaseLease? && event.id != id
    requires id in s.store.leases && s.store.leases[id].expiresAt > s.clock
    ensures id in Step(config, s, event).0.store.leases
    ensures Step(config, s, event).0.store.leases[id] == s.store.leases[id]
  {
    hide Inv, StepRelease;
    ReleaseEffect(config, s, event.id, event.peer, event.answer);
  }

  /** A protected, unexpired lease keeps its resource named through any release of another id. */
  lemma ProtectedKeepsNamed(config: Config, party: Party, s: Agent, event: Event, id: LeaseId)
    requires Inv(config, s) && Protected(config, party, s, id) && s.issued[id.sequence].expiresAt > s.clock
    requires event.ReleaseLease? && event.id != id
    ensures RevokeCall(party.request.resource) !in Step(config, s, event).1.calls
  {
    hide Inv, Step;
    StoredUnderItsId(config, s, id.sequence);
    StaysStored(config, s, event, id);
    assert NamesResource(Step(config, s, event).0.store.leases, party.request.resource);
    RevokeCalledExactly(config, s, event, party.request.resource);
  }

  /** Nobody but the launcher can release a lease of the launcher's. */
  lemma OthersCannotRelease(config: Config, party: Party, s: Agent, event: Event, id: LeaseId)
    requires Inv(config, s) && Protected(config, party, s, id)
    requires event.ReleaseLease? && event.id == id
    requires event.peer.consistency.Consistent? ==> CompareProcess(party.self, event.peer.observed.workload) != Same
    ensures Step(config, s, event).1.calls == []
  {
    hide Step, LedgerOk, ThreadsOk, PlacesOk, LapsedOnly, SlotsOk;
    ReleaseAnswersExactly(config, s, event);
    if MayRelease(s, id, event.peer) {
      StoredIsOurs(config, s, id);
      SameProcessComparesAlike(party.self, s.issued[id.sequence].origin.context.workload, event.peer.observed.workload);
      assert false;
    }
  }

  /** The lease that covers the launcher is protected, and this event is no release of it
      by the launcher itself. */
  lemma CoverIsProtected(config: Config, party: Party, j: Joint, e: JointEvent) returns (id: LeaseId)
    requires JointInv(config, party, j) && Covered(j) && (LetsGo(j, e) ==> GrantedLive(j))
    ensures Protected(config, party, j.agent, id) && j.agent.issued[id.sequence].expiresAt > j.agent.clock
    ensures e.HandBack? && MayHandBack(j, e.release) ==> e.release.id != id
  {
    hide Inv, Protected;
    if GrantedLive(j) {
      id := j.attempt.view.leaseId;
      ProtectedIsIssued(config, party, j.agent, id);
    } else {
      id := j.held.id;
      ProtectedIsIssued(config, party, j.agent, id);
    }
  }

  /** From its first grant until the release of the lease it holds reaches the agent, and
      for as long as that lease or one just granted is unexpired, no event by anybody makes
      the backend tear the launcher's resource down: neither its own renewals nor, once
      its workload is over, anything that comes before that release. */
  lemma NoTeardownWhileCovered(config: Config, party: Party, events: seq<JointEvent>, e: JointEvent)
    requires forall k :: 0 <= k < |events| ==> OnlyItself(party, events[k])
    requires OnlyItself(party, e)
    requires var j := JointAfter(config, party, events); Covered(j) && (LetsGo(j, e) ==> GrantedLive(j))
    ensures RevokeCall(party.request.resource) !in JointStep(config, party, JointAfter(config, party, events), e).1.calls
  {
    hide Inv, Step, Protected, Covered, LetsGo, GrantedLive;
    JointReachable(config, party, events);
    var j := JointAfter(config, party, events);
    var id := CoverIsProtected(config, party, j, e);
    match e
    case AgentSide(event) =>
      if !event.ReleaseLease? {
        OnlyReleasesRevoke(config, j.agent, event, party.request.resource);
      } else if event.id == id {
        OthersCannotRelease(config, party, j.agent, event, id);
      } else {
        ProtectedKeepsNamed(config, party, j.agent, event, id);
      }
    case HandBack(release) =>
      if MayHandBack(j, release) {
        ProtectedKeepsNamed(config, party, j.agent, release, id);
      }
    case Ask(asking) =>
      if asking.RequestLease? {
        OnlyReleasesRevoke(config, j.agent, asking, party.request.resource);
      }
    case _ =>
  }

  lemma OnlyTicksMoveTheClock(config: Config, s: Agent, event: Event)
    requires !event.Tick?
    ensures Step(config, s, event).0.clock == s.clock
  {
  }

  lemma AgentKeepsCover(config: Config, j: Joint, n: Agent, attempt: Attempt)
    requires Covered(j) && Extends(j.agent, n) && n.clock == j.agent.clock
    requires j.attempt.Delivered? ==> attempt == j.attempt
    ensures Covered(j.(agent := n, attempt := attempt))
  {
  }

  /** Adopting a grant never shortens the cover: the new lease was minted later, so it
      expires no earlier than the one it replaces. */
  lemma AdoptingKeepsCover(config: Config, party: Party, j: Joint)
    requires JointInv(config, party, j) && Covered(j) && j.attempt.Delivered?
    ensures HoldsLive(JointStep(config, party, j, Adopt).0)
  {
    hide LedgerOk, StoreOk, ThreadsOk, PlacesOk, LapsedOnly, SlotsOk;
    if j.held.Holds? {
      LedgerInExpiryOrder(config, j.agent.issued, j.agent.clock, j.held.id.sequence, j.attempt.view.leaseId.sequence);
    }
  }

  /** What endangers the cover: time, forgetting an answer while holding nothing live, and
      letting go of the lease held. */
  ghost predicate RenewedInTime(config: Config, party: Party, j: Joint, e: JointEvent) {
    && (e.AgentSide? && e.event.Tick? ==> Covered(JointStep(config, party, j, e).0))
    && ((e.GiveUp? || e.BeginAttempt?) && j.attempt.Delivered? ==> HoldsLive(j))
    && (LetsGo(j, e) ==> GrantedLive(j))
  }

  lemma CoverLasts(config: Config, party: Party, j: Joint, e: JointEvent)
    requires JointInv(config, party, j) && Covered(j) && RenewedInTime(config, party, j, e)
    ensures Covered(JointStep(config, party, j, e).0)
  {
    hide Inv, Step;
    match e
    case AgentSide(event) =>
      if !event.Tick? {
        OnlyTicksMoveTheClock(config, j.agent, event);
        StepExtends(config, j.agent, event);
        var (n, output) := Step(config, j.agent, event);
        AgentKeepsCover(config, j, n, Hears(j.attempt, output));
      }
    case Ask(asking) =>
      if asking.RequestLease? {
        OnlyTicksMoveTheClock(config, j.agent, asking);
        StepExtends(config, j.agent, asking);
      }
    case HandBack(release) =>
      if release.ReleaseLease? {
        OnlyTicksMoveTheClock(config, j.agent, release);
        StepExtends(config, j.agent, release);
      }
    case Adopt =>
      if j.attempt.Delivered? {
        AdoptingKeepsCover(config, party, j);
      }
    case BeginAttempt =>
    case GiveUp =>
    case WorkloadOver =>
  }

  ghost predicate InTimeAt(config: Config, party: Party, events: seq<JointEvent>, k: nat)
    requires k < |events|
  {
    RenewedInTime(config, party, JointAfter(config, party, events[..k]), events[k])
  }

  ghost predicate AllOnlyItself(party: Party, events: seq<JointEvent>) {
    forall k :: 0 <= k < |events| ==> OnlyItself(party, events[k])
  }

  lemma JointAfterOneMore(config: Config, party: Party, events: seq<JointEvent>, k: nat)
    requires k < |events|
    ensures JointAfter(config, party, events[..k + 1]) == JointStep(config, party, JointAfter(config, party, events[..k]), events[k]).0
  {
    assert events[..k + 1][..k] == events[..k];
  }

  lemma CoverOneStep(config: Config, party: Party, events: seq<JointEvent>, k: nat)
    requires k < |events| && AllOnlyItself(party, events)
    requires Covered(JointAfter(config, party, events[..k])) && InTimeAt(config, party, events, k)
    ensures Covered(JointAfter(config, party, events[..k + 1]))
  {
    JointAfterOneMore(config, party, events, k);
    JointReachable(config, party, events[..k]);
    CoverLasts(config, party, JointAfter(config, party, events[..k]), events[k]);
  }

  lemma {:induction false} CoverThroughout(config: Config, party: Party, events: seq<JointEvent>, first: nat, last: nat)
    requires first <= last <= |events| && AllOnlyItself(party, events)
    requires Covered(JointAfter(config, party, events[..first]))
    requires forall k :: first <= k < last ==> InTimeAt(config, party, events, k)
    ensures Covered(JointAfter(config, party, events[..last]))
    decreases last
  {
    if first < last {
      CoverThroughout(config, party, events, first, last - 1);
      CoverOneStep(config, party, events, last - 1);
    }
  }

  /** The whole stretch from a first grant on, through any number of renewals and past the
      end of the workload, until the lease then held goes back: as long as every renewal
      is granted before its predecessor expires, nothing anybody does, at any point `k` in
      between, has the backend tear the resource down. */
  lemma QuietWhileRenewedInTime(config: Config, party: Party, events: seq<JointEvent>, first: nat, k: nat)
    requires first <= k < |events| && AllOnlyItself(party, events)
    requires Covered(JointAfter(config, party, events[..first]))
    requires forall i :: first <= i <= k ==> InTimeAt(config, party, events, i)
    ensures RevokeCall(party.request.resource) !in
      JointStep(config, party, JointAfter(config, party, events[..k]), events[k]).1.calls
  {
    CoverThroughout(config, party, events, first, k);
    assert InTimeAt(config, party, events, k);
    NoTeardownWhileCovered(config, party, events[..k], events[k]);
  }

  /** In particular while the launcher's own clock has not reached its own deadline, unless
      the lease has gone back by then. */
  lemma NoTeardownBeforeDeadline(config: Config, party: Party, events: seq<JointEvent>, e: JointEvent)
    requires forall k :: 0 <= k < |events| ==> OnlyItself(party, events[k])
    requires OnlyItself(party, e)
    requires var j := JointAfter(config, party, events);
      j.held.Holds? && j.held.id !in j.returned && !LetsGo(j, e) && j.agent.clock < j.held.deadline
    ensures RevokeCall(party.request.resource) !in JointStep(config, party, JointAfter(config, party, events), e).1.calls
  {
    JointReachable(config, party, events);
    NoTeardownWhileCovered(config, party, events, e);
  }

  /** Until its workload is over the launcher does not let go. */
  lemma HeldUntilOver(config: Config, party: Party, events: seq<JointEvent>, e: JointEvent)
    requires forall k :: 0 <= k < |events| ==> OnlyItself(party, events[k])
    requires var j := JointAfter(config, party, events); j.held.Holds? && !j.over
    ensures var j := JointAfter(config, party, events); j.held.id !in j.returned && !LetsGo(j, e)
  {
    hide Inv, Protected, JointStep;
    JointReachable(config, party, events);
  }

  /** Handing back a superseded lease never tears the resource down before a release of the
      lease held reaches the agent, not even when it is so late that leases are expiring:
      the successor, minted later, expires no earlier, so whenever the old lease is still
      there to release so is the new one. */
  lemma RenewalNeverTearsDown(config: Config, party: Party, events: seq<JointEvent>, release: Event)
    requires forall k :: 0 <= k < |events| ==> OnlyItself(party, events[k])
    requires var j := JointAfter(config, party, events); j.held.Holds? ==> j.held.id !in j.returned && !LetsGo(j, HandBack(release))
    ensures RevokeCall(party.request.resource) !in JointStep(config, party, JointAfter(config, party, events), HandBack(release)).1.calls
  {
    JointReachable(config, party, events);
    if MayHandBack(JointAfter(config, party, events), release) {
      SupersededReleasesQuietly(config, party, JointAfter(config, party, events), release);
    }
  }

  lemma SupersededReleasesQuietly(config: Config, party: Party, j: Joint, release: Event)
    requires JointInv(config, party, j) && release.ReleaseLease? && release.id in j.superseded
    requires j.held.Holds? ==> j.held.id !in j.returned
    ensures RevokeCall(party.request.resource) !in Step(config, j.agent, release).1.calls
  {
    hide Step, StoreOk, ThreadsOk, PlacesOk, LapsedOnly, SlotsOk;
    if MayRelease(j.agent, release.id, release.peer) {
      StoredIsOurs(config, j.agent, release.id);
      StoredUnderItsId(config, j.agent, release.id.sequence);
      LedgerInExpiryOrder(config, j.agent.issued, j.agent.clock, release.id.sequence, j.held.id.sequence);
      ProtectedKeepsNamed(config, party, j.agent, release, j.held.id);
    } else {
      ReleaseAnswersExactly(config, j.agent, release);
    }
  }
}
