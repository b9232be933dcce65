/** The agent's answers, each with all it says and what it does to the state. */
module AuthorityAnswers {
  import opened Prelude
  import opened Identity
  import opened Resource
  import opened Peer
  import opened Policy
  import opened Lease
  import opened LeaseStore
  import opened Authority
  import opened AuthorityInvariant
  import opened AuthorityProperties
  import opened AuthorityEnforcement

  // ----- a request

  /** Why policy said no, as the peer is told. */
  function ToldReason(reason: DecisionReason): DenialReason {
    match reason
    case ExplicitDeny(_, _) => DenialExplicit
    case IndeterminateEvidence(_) => DenialIndeterminate
    case _ => DenialNoMatchingRule
  }

  /** Leases that still count against the bound. */
  ghost function StillLive(s: Agent): set<LeaseId> { set id | id in s.store.leases && Live(s, id) }

  lemma LiveAreCounted(s: Agent)
    ensures |Pruned(s).store.leases| == |StillLive(s)|
  {
    var leases := Pruned(s).store.leases;
    assert leases.Keys == StillLive(s);
  }

  /** What a request meets, in the order of the checks: the gate, room among the unexpired
      leases and the grants in progress, policy, the clock. Only past all of them is a lease
      minted, and then nothing is answered yet. */
  lemma RequestAnswersExactly(config: Config, s: Agent, thread: nat, request: ComputeRequest, peer: PeerContext)
    requires Inv(config, s) && ValidConfig(config) && thread !in s.threads
    ensures var (n, output) := Step(config, s, RequestLease(thread, request, peer));
      var decision := Decide(config.policy, peer.observed, request);
      var full := |StillLive(s)| + |s.threads| + |s.unwound| >= config.maxOutstanding;
      && output.calls == []
      && output.reply == (
           if !peer.consistency.Consistent? then Some(Reply(PeerNotAuthorizable, LeaseRefused(DenialIndeterminate)))
           else if full then Some(Reply(CapacityExhausted(config.maxOutstanding), InternalError))
           else if decision.effect == Deny then Some(Reply(PolicyDenied(decision), LeaseRefused(ToldReason(decision.reason))))
           else if s.clock + config.leaseTtl >= 0x1_0000_0000_0000_0000 then Some(Reply(LeaseIssueFailed(ExpiryOverflow), InternalError))
           else None)
      && (output.reply.None? <==> thread in n.threads)
      && (output.reply.None? ==>
            n.threads[thread] == Enforcing(ComputeLease(
              LeaseId(config.instance, |s.issued|), ProvenanceRecord(peer.observed, request),
              decision.policy, decision.reason, s.clock, s.clock + config.leaseTtl)))
  {
    hide LedgerOk, StoreOk, ThreadsOk, PlacesOk, LapsedOnly, Decide;
    LiveAreCounted(s);
    AllowedReasonIsNotDenied(config.policy, peer.observed, request);
  }

  lemma AllowedReasonIsNotDenied(policy: PolicyDocument, context: ExecutionContext, request: ComputeRequest)
    ensures Decide(policy, context, request).effect == Deny ==> !Decide(policy, context, request).reason.ExplicitAllow?
  {
  }

  // ----- the end of a grant

  /** A grant settles with the truth about its own lease: stored, and announced with what
      was left of it at the thread's reading; or, with nothing left or the backend not
      allowing it, not stored, and an internal error that names the cause for the record. */
  lemma SettlingAnswersExactly(config: Config, s: Agent, thread: nat)
    requires thread in s.threads && (s.threads[thread].Timed? || s.threads[thread].Refused?)
    ensures var (n, output) := Step(config, s, Settle(thread));
      var lease := s.threads[thread].lease;
      && output.calls == [] && thread !in n.threads
      && if s.threads[thread].Timed? && s.threads[thread].readAt < lease.expiresAt then
           var remaining := lease.expiresAt - s.threads[thread].readAt;
           && n.store.leases == s.store.leases[lease.id := lease]
           && output.reply == Some(Reply(Granted(lease.id, lease.expiresAt), LeaseGranted(LeaseView(lease.id, remaining))))
         else
           && n.store.leases == s.store.leases
           && output.reply == Some(Reply(
                if s.threads[thread].Timed? then LeaseIssueFailed(ExpiryOverflow)
                else if s.threads[thread].answer.Ok? then EnforcementRefused(s.threads[thread].answer.value)
                else BackendFailed(s.threads[thread].answer.error),
                InternalError))
  {
  }

  /** The thread read its clock at event `j`, with this lease past its enforce call. */
  ghost predicate ReadAt(config: Config, events: seq<Event>, j: nat, thread: nat, phase: Phase)
    requires j < |events|
  {
    && events[j] == ReadClock(thread) && phase.Timed?
    && var s := StateAt(config, events, j);
       thread in s.threads && s.threads[thread] == Enforced(phase.lease) && phase.readAt == s.clock
  }

  lemma TimedComesFrom(config: Config, s: Agent, event: Event, thread: nat)
    requires thread in Step(config, s, event).0.threads && Step(config, s, event).0.threads[thread].Timed?
    ensures var phase := Step(config, s, event).0.threads[thread];
      || (thread in s.threads && s.threads[thread] == phase)
      || (&& event == ReadClock(thread) && thread in s.threads
          && s.threads[thread] == Enforced(phase.lease) && phase.readAt == s.clock)
  {
  }

  lemma {:induction false} TimedWasRead(config: Config, events: seq<Event>, k: nat, thread: nat) returns (j: nat)
    requires k <= |events| && thread in StateAt(config, events, k).threads && StateAt(config, events, k).threads[thread].Timed?
    ensures j < k && ReadAt(config, events, j, thread, StateAt(config, events, k).threads[thread])
    decreases k
  {
    hide Step;
    assert k > 0 by {
      assert events[..0] == [];
    }
    TraceAt(config, Initial(config), events, k - 1);
    TimedComesFrom(config, StateAt(config, events, k - 1), events[k - 1], thread);
    if ReadAt(config, events, k - 1, thread, StateAt(config, events, k).threads[thread]) {
      j := k - 1;
    } else {
      j := TimedWasRead(config, events, k - 1, thread);
    }
  }

  /** In every run, what a grant says is left is what the lease's expiry left at the very
      reading its thread made after the backend had allowed it. */
  lemma GrantTellsItsReading(config: Config, events: seq<Event>, k: nat) returns (j: nat)
    requires k < |events|
    requires var reply := Trace(config, Initial(config), events)[k].reply;
      reply.Some? && reply.value.response.LeaseGranted?
    ensures j < k && events[k].Settle? && events[j] == ReadClock(events[k].thread)
    ensures var (s, view) := (StateAt(config, events, j), Trace(config, Initial(config), events)[k].reply.value.response.lease);
      && events[k].thread in s.threads && s.threads[events[k].thread].Enforced?
      && var lease := s.threads[events[k].thread].lease;
         view.leaseId == lease.id && view.remaining == lease.expiresAt - s.clock > 0
  {
    hide StepRelease, StepRequest;
    TraceAt(config, Initial(config), events, k);
    var s := StateAt(config, events, k);
    OnlySettlingGrants(config, s, events[k], Trace(config, Initial(config), events)[k].reply.value.response.lease.leaseId);
    SettlingAnswersExactly(config, s, events[k].thread);
    j := TimedWasRead(config, events, k, events[k].thread);
  }

  // ----- a release

  /** What a release meets, in the order of the checks: the gate, whether the lease is still
      there, the process, the executable. Past them it is released, the backend's own answer
      going on record exactly if it was asked. */
  lemma ReleaseOutcomesExactly(config: Config, s: Agent, id: LeaseId, peer: PeerContext, answer: BackendAnswer)
    requires Inv(config, s)
    ensures var (n, output) := Step(config, s, ReleaseLease(id, peer, answer));
      && output.reply.Some?
      && output.reply.value.outcome == (
           if !peer.consistency.Consistent? then PeerNotAuthorizable
           else if !Live(s, id) then ReleaseUnknownLease
           else
             var holder := s.store.leases[id].origin.context.workload;
             var process := CompareProcess(holder, peer.observed.workload);
             var executable := CompareExecutable(holder, peer.observed.workload);
             if process == Different then ReleaseRefused(WorkloadMismatch)
             else if process == Same && executable == Different then ReleaseRefused(ExecutableMismatch)
             else if process != Same || executable != Same then ReleaseRefused(WorkloadIndeterminate)
             else Released(Revoked, if output.calls != [] && answer.Ok? then Some(answer.value) else None))
  {
    hide Inv;
    InvIssuer(config, s);
    if Live(s, id) {
      StoredIsOurs(config, s, id);
    }
  }
}
