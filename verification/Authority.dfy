/** The lease authority as a state machine over any number of threads.

    Every event is one atomic section of a request: the locked issue-and-reserve
    section, the return of the unlocked backend call, the unlocked clock reading,
    the locked section that inserts or compensates, and the release section, which
    holds the lock across its own backend call. Backend answers, peers and the
    passage of time are part of the events, so a run is an arbitrary interleaving
    against an arbitrary backend under a monotone clock. */
module Authority {
  import opened Prelude
  import opened Identity
  import opened Resource
  import opened Peer
  import opened Policy
  import opened Lease
  import opened LeaseStore

  datatype Config = Config(instance: string, policy: PolicyDocument, leaseTtl: nat, maxOutstanding: nat)

  /** A configuration is refused unless its ttl is positive. */
  predicate ValidConfig(config: Config) { config.leaseTtl > 0 }

  type BackendAnswer = Result<EnforcementResult, BackendError>

  datatype BackendCall = EnforceCall(request: ComputeRequest) | RevokeCall(resource: ResourceIdentity)

  datatype DenialReason = DenialNoMatchingRule | DenialExplicit | DenialIndeterminate

  datatype LeaseView = LeaseView(leaseId: LeaseId, remaining: nat)

  datatype AgentResponse =
    | LeaseGranted(lease: LeaseView)
    | LeaseRefused(reason: DenialReason)
    | LeaseReleased(released: bool)
    | Status(protocolVersion: nat)
    | InternalError

  datatype AuthorizationOutcome =
    | Granted(leaseId: LeaseId, expiresAt: u64)
    | PolicyDenied(decision: PolicyDecision)
    | PeerNotAuthorizable
    | LeaseIssueFailed(error: LeaseError)
    | EnforcementRefused(result: EnforcementResult)
    | BackendFailed(backendError: BackendError)
    | CapacityExhausted(outstanding: nat)
    | Released(revocation: RevocationOutcome, backend: Option<EnforcementResult>)
    | ReleaseRefused(validity: LeaseValidity)
    | ReleaseUnknownLease
    | StatusReported

  datatype Reply = Reply(outcome: AuthorizationOutcome, response: AgentResponse)

  /** What one event makes visible: backend calls, in order, and the answer sent, if any. */
  datatype Output = Output(calls: seq<BackendCall>, reply: Option<Reply>)

  const SILENT := Output([], None)

  /** Where a thread serving a grant stands between its two locked sections. */
  datatype Phase =
    | Enforcing(lease: ComputeLease)
    | Enforced(lease: ComputeLease)
    | Timed(lease: ComputeLease, readAt: u64)
    | Refused(lease: ComputeLease, answer: BackendAnswer)

  datatype Event =
    | Tick(elapsed: nat)
    | RequestLease(thread: nat, request: ComputeRequest, peer: PeerContext)
    | EnforceReturns(thread: nat, answer: BackendAnswer)
    | EnforceUnwinds(thread: nat)
    | ReadClock(thread: nat)
    | Settle(thread: nat)
    | ReleaseLease(id: LeaseId, peer: PeerContext, answer: BackendAnswer)
    | AgentStatus

  /** The agent at one moment. `issued` and `unwound` are history: every lease ever
      minted, by sequence number, and the sequence numbers whose thread panicked in
      the backend and so never gave its reservation back. */
  datatype Agent = Agent(
    store: StoreView,
    clock: u64,
    threads: map<nat, Phase>,
    issued: seq<ComputeLease>,
    unwound: set<nat>)

  function Initial(config: Config): Agent {
    Agent(StoreView(IssuerView(config.instance, config.leaseTtl, 0, {}), map[], config.maxOutstanding, 0), 0, map[], [], {})
  }

  function Advance(clock: u64, elapsed: nat): u64 {
    if clock + elapsed < U64_LIMIT then clock + elapsed else U64_LIMIT - 1
  }

  function DenialReasonFor(reason: DecisionReason): DenialReason {
    match reason
    case ExplicitDeny(_, _) => DenialExplicit
    case IndeterminateEvidence(_) => DenialIndeterminate
    case NoMatchingRule => DenialNoMatchingRule
    case ExplicitAllow(_) => DenialNoMatchingRule
  }

  // ----- the locked sections

  datatype IssueFailure = AtCapacityFailure(outstanding: nat) | DeniedFailure(decision: PolicyDecision) | OtherFailure(error: LeaseError)

  function IssueReservingCapacity(config: Config, store: StoreView, provenance: ProvenanceRecord, now: u64)
    : (StoreView, Result<ComputeLease, IssueFailure>)
  {
    var pruned := Prune(store, now);
    if AtCapacity(pruned) then (pruned, Err(AtCapacityFailure(config.maxOutstanding)))
    else
      var issued := IssueFrom(pruned.issuer, config.policy, provenance, now, config.leaseTtl);
      match issued.1
      case Ok(lease) => (Reserve(pruned.(issuer := issued.0)), Ok(lease))
      case Err(LeaseDenied(decision)) => (pruned.(issuer := issued.0), Err(DeniedFailure(decision)))
      case Err(error) => (pruned.(issuer := issued.0), Err(OtherFailure(error)))
  }

  function IssueFailureReply(failure: IssueFailure): Reply {
    match failure
    case AtCapacityFailure(outstanding) => Reply(CapacityExhausted(outstanding), InternalError)
    case DeniedFailure(decision) => Reply(PolicyDenied(decision), LeaseRefused(DenialReasonFor(decision.reason)))
    case OtherFailure(error) => Reply(LeaseIssueFailed(error), InternalError)
  }

  /** The failure paths after a successful issue: revoke, and give the slot back. */
  function Compensate(store: StoreView, id: LeaseId): StoreView {
    ReleaseReservation(store.(issuer := RevokeFrom(store.issuer, id).0))
  }

  function SettleLease(store: StoreView, phase: Phase): (StoreView, Reply)
    requires phase.Timed? || phase.Refused?
  {
    match phase
    case Timed(lease, readAt) =>
      var remaining := SaturatingSub(lease.expiresAt, readAt);
      if remaining == 0 then
        (Compensate(store, lease.id), Reply(LeaseIssueFailed(ExpiryOverflow), InternalError))
      else
        (Insert(store, lease), Reply(Granted(lease.id, lease.expiresAt), LeaseGranted(LeaseView(lease.id, remaining))))
    case Refused(lease, Ok(result)) =>
      (Compensate(store, lease.id), Reply(EnforcementRefused(result), InternalError))
    case Refused(lease, Err(error)) =>
      (Compensate(store, lease.id), Reply(BackendFailed(error), InternalError))
  }

  const REFUSAL := LeaseReleased(false)

  function ReleaseSection(store: StoreView, id: LeaseId, observed: ExecutionContext, now: u64, answer: BackendAnswer)
    : (StoreView, Output)
  {
    var pruned := Prune(store, now);
    if id !in pruned.leases then (pruned, Output([], Some(Reply(ReleaseUnknownLease, REFUSAL))))
    else
      var stored := pruned.leases[id];
      var presented := ProvenanceRecord(observed, stored.origin.request);
      var validity := ValidateAgainst(pruned.issuer, stored, presented, now);
      if !validity.Valid? then (pruned, Output([], Some(Reply(ReleaseRefused(validity), REFUSAL))))
      else
        var revokeBackend := !OtherLeaseOnResource(pruned.leases, id);
        var revoked := RevokeFrom(pruned.issuer, id);
        (Remove(pruned.(issuer := revoked.0), id),
         Output(
           if revokeBackend then [RevokeCall(stored.origin.request.resource)] else [],
           Some(Reply(
             Released(revoked.1, if revokeBackend && answer.Ok? then Some(answer.value) else None),
             LeaseReleased(true)))))
  }

  // ----- one event

  function Step(config: Config, s: Agent, event: Event): (Agent, Output) {
    match event
    case Tick(elapsed) => (s.(clock := Advance(s.clock, elapsed)), SILENT)
    case RequestLease(thread, request, peer) => StepRequest(config, s, thread, request, peer)
    case EnforceReturns(thread, answer) => StepEnforceReturns(s, thread, answer)
    case EnforceUnwinds(thread) => StepEnforceUnwinds(s, thread)
    case ReadClock(thread) => StepReadClock(s, thread)
    case Settle(thread) => StepSettle(s, thread)
    case ReleaseLease(id, peer, answer) => StepRelease(s, id, peer, answer)
    case AgentStatus => (s, Output([], Some(Reply(StatusReported, Status(DOMAIN_SCHEMA_VERSION)))))
  }

  /** A thread that is already serving a grant cannot begin another. */
  function StepRequest(config: Config, s: Agent, thread: nat, request: ComputeRequest, peer: PeerContext): (Agent, Output) {
    if thread in s.threads then (s, SILENT)
    else
      match Authorizable(peer)
      case None => (s, Output([], Some(Reply(PeerNotAuthorizable, LeaseRefused(DenialIndeterminate)))))
      case Some(observed) =>
        var section := IssueReservingCapacity(config, s.store, ProvenanceRecord(observed, request), s.clock);
        match section.1
        case Ok(lease) =>
          (s.(store := section.0, threads := s.threads[thread := Enforcing(lease)], issued := s.issued + [lease]), SILENT)
        case Err(failure) =>
          (s.(store := section.0), Output([], Some(IssueFailureReply(failure))))
  }

  function StepEnforceReturns(s: Agent, thread: nat, answer: BackendAnswer): (Agent, Output) {
    if thread in s.threads && s.threads[thread].Enforcing? then
      var lease := s.threads[thread].lease;
      (s.(threads := s.threads[thread := if answer == Ok(Allowed) then Enforced(lease) else Refused(lease, answer)]),
       Output([EnforceCall(lease.origin.request)], None))
    else (s, SILENT)
  }

  function StepEnforceUnwinds(s: Agent, thread: nat): (Agent, Output) {
    if thread in s.threads && s.threads[thread].Enforcing? then
      var lease := s.threads[thread].lease;
      (s.(threads := s.threads - {thread}, unwound := s.unwound + {lease.id.sequence}),
       Output([EnforceCall(lease.origin.request)], None))
    else (s, SILENT)
  }

  function StepReadClock(s: Agent, thread: nat): (Agent, Output) {
    if thread in s.threads && s.threads[thread].Enforced? then
      (s.(threads := s.threads[thread := Timed(s.threads[thread].lease, s.clock)]), SILENT)
    else (s, SILENT)
  }

  function StepSettle(s: Agent, thread: nat): (Agent, Output) {
    if thread in s.threads && (s.threads[thread].Timed? || s.threads[thread].Refused?) then
      var settled := SettleLease(s.store, s.threads[thread]);
      (s.(store := settled.0, threads := s.threads - {thread}), Output([], Some(settled.1)))
    else (s, SILENT)
  }

  function StepRelease(s: Agent, id: LeaseId, peer: PeerContext, answer: BackendAnswer): (Agent, Output) {
    match Authorizable(peer)
    case None => (s, Output([], Some(Reply(PeerNotAuthorizable, REFUSAL))))
    case Some(observed) =>
      var section := ReleaseSection(s.store, id, observed, s.clock, answer);
      (s.(store := section.0), section.1)
  }

  // ----- runs

  /** The state after all of `events`. */
  function After(config: Config, s: Agent, events: seq<Event>): Agent
    decreases |events|
  {
    if events == [] then s
    else Step(config, After(config, s, events[..|events| - 1]), events[|events| - 1]).0
  }

  /** What each of `events` makes visible, in order. */
  function Trace(config: Config, s: Agent, events: seq<Event>): (outputs: seq<Output>)
    ensures |outputs| == |events|
    decreases |events|
  {
    if events == [] then []
    else
      var before := events[..|events| - 1];
      Trace(config, s, before) + [Step(config, After(config, s, before), events[|events| - 1]).1]
  }

  lemma {:induction false} TraceAt(config: Config, s: Agent, events: seq<Event>, k: nat)
    requires k < |events|
    ensures Trace(config, s, events)[k] == Step(config, After(config, s, events[..k]), events[k]).1
    ensures After(config, s, events[..k + 1]) == Step(config, After(config, s, events[..k]), events[k]).0
    decreases |events|
  {
    var before := events[..|events| - 1];
    assert events[..k + 1][..k] == events[..k];
    if k == |events| - 1 {
    } else {
      TraceAt(config, s, before, k);
      assert before[..k] == events[..k];
    }
  }

  lemma {:induction false} AfterConcat(config: Config, s: Agent, first: seq<Event>, second: seq<Event>)
    ensures After(config, s, first + second) == After(config, After(config, s, first), second)
    decreases |second|
  {
    var whole := first + second;
    if second == [] {
      assert whole == first;
    } else {
      AfterConcat(config, s, first, second[..|second| - 1]);
      assert whole[..|whole| - 1] == first + second[..|second| - 1];
    }
  }
}
