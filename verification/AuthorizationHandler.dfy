/** The handler object: the mutex-protected store, and the threads that serve grants
    between their two locked sections. Each method is one atomic section, updating the
    fields in place; `Execute` drives any interleaving of them. */
module AuthorizationHandler {
  import opened Prelude
  import opened Identity
  import opened Resource
  import opened Peer
  import opened Policy
  import opened Lease
  import opened LeaseStore
  import opened Authority
  import opened AuthorityHistory

  class Handler {
    const config: Config
    const state: LeaseState
    var clock: u64
    var threads: map<nat, Phase>
    ghost var issued: seq<ComputeLease>
    ghost var unwound: set<nat>

    ghost function View(): Agent
      reads this, state, state.issuer
    {
      Agent(state.View(), clock, threads, issued, unwound)
    }

    /** The issuer's own bound on a ttl is the one ttl every issue uses. */
    constructor (config: Config)
      ensures this.config == config && fresh(state) && fresh(state.issuer)
      ensures View() == Initial(config)
    {
      this.config := config;
      var issuer := new LeaseIssuer(config.instance, config.leaseTtl);
      state := new LeaseState(issuer, config.maxOutstanding);
      clock := 0;
      threads := map[];
      issued := [];
      unwound := {};
    }

    /** Prune, check capacity, issue and reserve, under one lock. */
    method IssueUnderLock(provenance: ProvenanceRecord) returns (result: Result<ComputeLease, IssueFailure>)
      modifies state, state.issuer
      ensures (state.View(), result) == IssueReservingCapacity(config, old(state.View()), provenance, clock)
    {
      state.PruneExpired(clock);
      var full := state.IsAtCapacity();
      if full {
        return Err(AtCapacityFailure(config.maxOutstanding));
      }
      var attempt := state.issuer.Issue(config.policy, provenance, clock, config.leaseTtl);
      match attempt {
        case Ok(lease) =>
          state.ReserveSlot();
          return Ok(lease);
        case Err(LeaseDenied(decision)) => return Err(DeniedFailure(decision));
        case Err(error) => return Err(OtherFailure(error));
      }
    }

    method BeginGrant(thread: nat, request: ComputeRequest, peer: PeerContext) returns (output: Output)
      modifies this, state, state.issuer
      ensures (View(), output) == StepRequest(config, old(View()), thread, request, peer)
    {
      if thread in threads {
        return SILENT;
      }
      match Authorizable(peer) {
        case None => return Output([], Some(Reply(PeerNotAuthorizable, LeaseRefused(DenialIndeterminate))));
        case Some(observed) =>
          var result := IssueUnderLock(ProvenanceRecord(observed, request));
          match result {
            case Ok(lease) =>
              threads := threads[thread := Enforcing(lease)];
              issued := issued + [lease];
              return SILENT;
            case Err(failure) => return Output([], Some(IssueFailureReply(failure)));
          }
      }
    }

    /** The unlocked backend call returned. */
    method BackendReturned(thread: nat, answer: BackendAnswer) returns (output: Output)
      modifies this`threads
      ensures (View(), output) == StepEnforceReturns(old(View()), thread, answer)
    {
      if thread !in threads || !threads[thread].Enforcing? {
        return SILENT;
      }
      var lease := threads[thread].lease;
      if answer == Ok(Allowed) {
        threads := threads[thread := Enforced(lease)];
      } else {
        threads := threads[thread := Refused(lease, answer)];
      }
      output := Output([EnforceCall(lease.origin.request)], None);
    }

    /** The unlocked backend call panicked: the thread is gone, its reservation stays. */
    method BackendUnwound(thread: nat) returns (output: Output)
      modifies this`threads, this`unwound
      ensures (View(), output) == StepEnforceUnwinds(old(View()), thread)
    {
      if thread !in threads || !threads[thread].Enforcing? {
        return SILENT;
      }
      var lease := threads[thread].lease;
      threads := threads - {thread};
      unwound := unwound + {lease.id.sequence};
      output := Output([EnforceCall(lease.origin.request)], None);
    }

    method ReadRemaining(thread: nat)
      modifies this`threads
      ensures (View(), SILENT) == StepReadClock(old(View()), thread)
    {
      if thread in threads && threads[thread].Enforced? {
        threads := threads[thread := Timed(threads[thread].lease, clock)];
      }
    }

    method CompensateUnderLock(id: LeaseId)
      modifies state, state.issuer
      ensures state.View() == Compensate(old(state.View()), id)
    {
      var revocation := state.issuer.Revoke(id);
      state.ReleaseSlot();
    }

    /** The second locked section of a grant: insert, or compensate. */
    method SettleGrant(thread: nat) returns (output: Output)
      modifies this`threads, state, state.issuer
      ensures (View(), output) == StepSettle(old(View()), thread)
    {
      if thread !in threads || !(threads[thread].Timed? || threads[thread].Refused?) {
        return SILENT;
      }
      var phase := threads[thread];
      threads := threads - {thread};
      match phase {
        case Timed(lease, readAt) =>
          var remaining := SaturatingSub(lease.expiresAt, readAt);
          if remaining == 0 {
            CompensateUnderLock(lease.id);
            return Output([], Some(Reply(LeaseIssueFailed(ExpiryOverflow), InternalError)));
          }
          state.InsertReserved(lease);
          return Output([], Some(Reply(Granted(lease.id, lease.expiresAt), LeaseGranted(LeaseView(lease.id, remaining)))));
        case Refused(lease, Ok(result)) =>
          CompensateUnderLock(lease.id);
          return Output([], Some(Reply(EnforcementRefused(result), InternalError)));
        case Refused(lease, Err(error)) =>
          CompensateUnderLock(lease.id);
          return Output([], Some(Reply(BackendFailed(error), InternalError)));
      }
    }

    /** A release, its own backend call included, under one lock. */
    method HandleRelease(id: LeaseId, peer: PeerContext, answer: BackendAnswer) returns (output: Output)
      modifies state, state.issuer
      ensures (View(), output) == StepRelease(old(View()), id, peer, answer)
    {
      match Authorizable(peer) {
        case None => return Output([], Some(Reply(PeerNotAuthorizable, REFUSAL)));
        case Some(observed) => output := ReleaseUnderLock(id, observed, answer);
      }
    }

    method ReleaseUnderLock(id: LeaseId, observed: ExecutionContext, answer: BackendAnswer) returns (output: Output)
      modifies state, state.issuer
      ensures (state.View(), output) == ReleaseSection(old(state.View()), id, observed, clock, answer)
    {
      state.PruneExpired(clock);
      if id !in state.leases {
        return Output([], Some(Reply(ReleaseUnknownLease, REFUSAL)));
      }
      var stored := state.leases[id];
      var validity := state.issuer.Validate(stored, ProvenanceRecord(observed, stored.origin.request), clock);
      if !validity.Valid? {
        return Output([], Some(Reply(ReleaseRefused(validity), REFUSAL)));
      }
      var resource := stored.origin.request.resource;
      var shared := state.AnyOtherLiveLeaseForSameResource(id);
      var revocation := state.issuer.Revoke(id);
      state.RemoveLease(id);
      var backend := if !shared && answer.Ok? then Some(answer.value) else None;
      return Output(
        if shared then [] else [RevokeCall(resource)],
        Some(Reply(Released(revocation, backend), LeaseReleased(true))));
    }

    method Handle(event: Event) returns (output: Output)
      modifies this, state, state.issuer
      ensures (View(), output) == Step(config, old(View()), event)
    {
      match event {
        case Tick(elapsed) =>
          clock := Advance(clock, elapsed);
          return SILENT;
        case RequestLease(thread, request, peer) => output := BeginGrant(thread, request, peer);
        case EnforceReturns(thread, answer) => output := BackendReturned(thread, answer);
        case EnforceUnwinds(thread) => output := BackendUnwound(thread);
        case ReadClock(thread) =>
          ReadRemaining(thread);
          return SILENT;
        case Settle(thread) => output := SettleGrant(thread);
        case ReleaseLease(id, peer, answer) => output := HandleRelease(id, peer, answer);
        case AgentStatus => return Output([], Some(Reply(StatusReported, Status(DOMAIN_SCHEMA_VERSION))));
      }
    }
  }

  /** Builds a handler and drives one interleaving through it: in-place updates and all,
      its answers and backend calls are those of the plain history of grants and
      releases. */
  method Execute(config: Config, events: seq<Event>) returns (outputs: seq<Output>)
    requires ValidConfig(config)
    ensures outputs == HistoryTrace(config, events)
  {
    var handler := new Handler(config);
    outputs := [];
    for k := 0 to |events|
      invariant fresh(handler) && fresh(handler.state) && fresh(handler.state.issuer) && handler.config == config
      invariant handler.View() == After(config, Initial(config), events[..k])
      invariant outputs == Trace(config, Initial(config), events[..k])
    {
      var output := handler.Handle(events[k]);
      assert events[..k + 1][..k] == events[..k];
      outputs := outputs + [output];
    }
    assert events[..|events|] == events;
    AgentRefinesHistory(config, events);
  }
}
