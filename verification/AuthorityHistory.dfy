/** The lease authority as its clients see it: a plain history of what was granted
    and released. There is no store, no pruning, no reservation counter and no
    revocation set; a lease is live when it was granted, not released, and has not
    expired. The agent's machine gives the same answers and makes the same backend
    calls as this one, event for event, under every interleaving. */
module AuthorityHistory {
  import opened Prelude
  import opened Identity
  import opened Resource
  import opened Peer
  import opened Policy
  import opened Lease
  import opened LeaseStore
  import opened Authority
  import opened AuthorityInvariant

  datatype History = History(
    clock: u64,
    minted: nat,
    granted: map<LeaseId, ComputeLease>,
    released: set<LeaseId>,
    inProgress: map<nat, Phase>,
    lost: nat)

  function Beginning(): History { History(0, 0, map[], {}, map[], 0) }

  function Live(h: History): map<LeaseId, ComputeLease> {
    map id | id in h.granted && id !in h.released && h.granted[id].expiresAt > h.clock :: h.granted[id]
  }

  function Answer(outcome: AuthorizationOutcome, response: AgentResponse): Output {
    Output([], Some(Reply(outcome, response)))
  }

  function Request(config: Config, h: History, thread: nat, request: ComputeRequest, peer: PeerContext): (History, Output) {
    if thread in h.inProgress then (h, SILENT)
    else if !peer.consistency.Consistent? then (h, Answer(PeerNotAuthorizable, LeaseRefused(DenialIndeterminate)))
    else if |Live(h)| + |h.inProgress| + h.lost >= config.maxOutstanding then
      (h, Answer(CapacityExhausted(config.maxOutstanding), InternalError))
    else
      var decision := Decide(config.policy, peer.observed, request);
      if decision.effect == Deny then (h, Answer(PolicyDenied(decision), LeaseRefused(DenialReasonFor(decision.reason))))
      else if h.clock + config.leaseTtl >= U64_LIMIT then (h, Answer(LeaseIssueFailed(ExpiryOverflow), InternalError))
      else
        var lease := ComputeLease(
          LeaseId(config.instance, h.minted), ProvenanceRecord(peer.observed, request),
          decision.policy, decision.reason, h.clock, h.clock + config.leaseTtl);
        (h.(minted := h.minted + 1, inProgress := h.inProgress[thread := Enforcing(lease)]), SILENT)
  }

  function Settled(h: History, thread: nat): (History, Output)
    requires thread in h.inProgress
  {
    var done := h.(inProgress := h.inProgress - {thread});
    match h.inProgress[thread]
    case Timed(lease, readAt) =>
      if lease.expiresAt <= readAt then (done, Answer(LeaseIssueFailed(ExpiryOverflow), InternalError))
      else
        (done.(granted := h.granted[lease.id := lease]),
         Answer(Granted(lease.id, lease.expiresAt), LeaseGranted(LeaseView(lease.id, lease.expiresAt - readAt))))
    case Refused(_, Ok(result)) => (done, Answer(EnforcementRefused(result), InternalError))
    case Refused(_, Err(error)) => (done, Answer(BackendFailed(error), InternalError))
    case _ => (h, SILENT)
  }

  function Release(h: History, id: LeaseId, peer: PeerContext, answer: BackendAnswer): (History, Output) {
    if !peer.consistency.Consistent? then (h, Answer(PeerNotAuthorizable, LeaseReleased(false)))
    else if id !in Live(h) then (h, Answer(ReleaseUnknownLease, LeaseReleased(false)))
    else
      var lease := h.granted[id];
      var process := CompareProcess(lease.origin.context.workload, peer.observed.workload);
      var executable := CompareExecutable(lease.origin.context.workload, peer.observed.workload);
      if process.Different? then (h, Answer(ReleaseRefused(WorkloadMismatch), LeaseReleased(false)))
      else if process.Same? && executable.Different? then (h, Answer(ReleaseRefused(ExecutableMismatch), LeaseReleased(false)))
      else if !process.Same? || !executable.Same? then (h, Answer(ReleaseRefused(WorkloadIndeterminate), LeaseReleased(false)))
      else
        var resource := lease.origin.request.resource;
        var shared := exists other :: other in Live(h) && other != id && Live(h)[other].origin.request.resource == resource;
        (h.(released := h.released + {id}),
         Output(
           if shared then [] else [RevokeCall(resource)],
           Some(Reply(Released(Revoked, if !shared && answer.Ok? then Some(answer.value) else None), LeaseReleased(true)))))
  }

  /** The unlocked stretch of a grant: the backend call and the clock reading after it. */
  function MovedOn(h: History, thread: nat, next: Phase): History {
    h.(inProgress := h.inProgress[thread := next])
  }

  function Happens(config: Config, h: History, event: Event): (History, Output) {
    match event
    case Tick(elapsed) =>
      (h.(clock := if h.clock + elapsed < 0x1_0000_0000_0000_0000 then h.clock + elapsed else 0xFFFF_FFFF_FFFF_FFFF), SILENT)
    case RequestLease(thread, request, peer) => Request(config, h, thread, request, peer)
    case EnforceReturns(thread, answer) =>
      if thread !in h.inProgress || !h.inProgress[thread].Enforcing? then (h, SILENT)
      else
        var lease := h.inProgress[thread].lease;
        (MovedOn(h, thread, if answer == Ok(Allowed) then Enforced(lease) else Refused(lease, answer)),
         Output([EnforceCall(lease.origin.request)], None))
    case EnforceUnwinds(thread) =>
      if thread !in h.inProgress || !h.inProgress[thread].Enforcing? then (h, SILENT)
      else
        (h.(inProgress := h.inProgress - {thread}, lost := h.lost + 1),
         Output([EnforceCall(h.inProgress[thread].lease.origin.request)], None))
    case ReadClock(thread) =>
      if thread !in h.inProgress || !h.inProgress[thread].Enforced? then (h, SILENT)
      else (MovedOn(h, thread, Timed(h.inProgress[thread].lease, h.clock)), SILENT)
    case Settle(thread) => if thread in h.inProgress then Settled(h, thread) else (h, SILENT)
    case ReleaseLease(id, peer, answer) => Release(h, id, peer, answer)
    case AgentStatus => (h, Answer(StatusReported, Status(1)))
  }

  function HistoryAfter(config: Config, events: seq<Event>): History
    decreases |events|
  {
    if events == [] then Beginning()
    else Happens(config, HistoryAfter(config, events[..|events| - 1]), events[|events| - 1]).0
  }

  function HistoryTrace(config: Config, events: seq<Event>): (outputs: seq<Output>)
    ensures |outputs| == |events|
    decreases |events|
  {
    if events == [] then []
    else
      var before := events[..|events| - 1];
      HistoryTrace(config, before) + [Happens(config, HistoryAfter(config, before), events[|events| - 1]).1]
  }

  // ----- the simulation

  /** The store may still hold expired leases the history has forgotten; what is
      unexpired in it is exactly what is live. */
  ghost predicate Represents(s: Agent, h: History) {
    && h.clock == s.clock
    && h.minted == |s.issued|
    && h.inProgress == s.threads
    && h.lost == |s.unwound|
    && Live(h) == Unexpired(s.store.leases, s.clock)
    && (forall id :: id in h.granted || id in h.released ==> id.sequence < |s.issued| && id.sequence !in InFlight(s.threads))
  }

  lemma TickAgrees(s: Agent, h: History, elapsed: nat)
    requires Represents(s, h)
    ensures Represents(s.(clock := Advance(s.clock, elapsed)), h.(clock := Advance(h.clock, elapsed)))
  {
    var later := s.(clock := Advance(s.clock, elapsed));
    var laterHistory := h.(clock := Advance(h.clock, elapsed));
    forall id
      ensures id in Live(laterHistory) <==> id in Unexpired(later.store.leases, later.clock)
      ensures id in Live(laterHistory) ==> Live(laterHistory)[id] == Unexpired(later.store.leases, later.clock)[id]
    {
      assert id in Live(h) <==> id in Unexpired(s.store.leases, s.clock);
      if id in Live(laterHistory) || id in Unexpired(later.store.leases, later.clock) {
        assert Live(h)[id] == Unexpired(s.store.leases, s.clock)[id];
      }
    }
  }

  lemma PruneTwice(leases: map<LeaseId, ComputeLease>, now: u64)
    ensures Unexpired(Unexpired(leases, now), now) == Unexpired(leases, now)
  {
  }

  /** The locked issue section, read without its bookkeeping. */
  lemma IssueAgrees(config: Config, store: StoreView, origin: ProvenanceRecord, now: u64)
    requires ValidConfig(config) && store.issuer.maxTtl == config.leaseTtl && store.issuer.instance == config.instance
    ensures var decision := Decide(config.policy, origin.context, origin.request);
      IssueReservingCapacity(config, store, origin, now).1 ==
        if |Unexpired(store.leases, now)| + store.reserved >= store.maxOutstanding then Err(AtCapacityFailure(config.maxOutstanding))
        else if decision.effect == Deny then Err(DeniedFailure(decision))
        else if now + config.leaseTtl >= U64_LIMIT then Err(OtherFailure(ExpiryOverflow))
        else Ok(ComputeLease(
          LeaseId(config.instance, store.issuer.nextSequence), origin, decision.policy, decision.reason, now, now + config.leaseTtl))
  {
  }

  lemma RequestOutputsAgree(config: Config, s: Agent, h: History, thread: nat, request: ComputeRequest, peer: PeerContext)
    requires ValidConfig(config) && IssuerOk(config, s) && SlotsOk(s) && Represents(s, h)
    ensures StepRequest(config, s, thread, request, peer).1 == Request(config, h, thread, request, peer).1
  {
    hide IssueReservingCapacity, Decide, InFlight;
    IssueAgrees(config, s.store, ProvenanceRecord(peer.observed, request), s.clock);
  }

  lemma MintAgrees(s: Agent, h: History, n: Agent, k: History, thread: nat, lease: ComputeLease)
    requires Represents(s, h) && thread !in s.threads
    requires n.clock == s.clock && |n.issued| == |s.issued| + 1 && n.unwound == s.unwound && lease.id.sequence == |s.issued|
    requires n.store.leases == Unexpired(s.store.leases, s.clock)
    requires n.threads == s.threads[thread := Enforcing(lease)]
    requires k == h.(minted := h.minted + 1, inProgress := h.inProgress[thread := Enforcing(lease)])
    ensures Represents(n, k)
  {
    PruneTwice(s.store.leases, s.clock);
    InFlightAdds(s.threads, thread, Enforcing(lease));
    assert Live(k) == Live(h);
  }

  lemma PruneAgrees(s: Agent, h: History)
    requires Represents(s, h)
    ensures Represents(Pruned(s), h)
  {
    PruneTwice(s.store.leases, s.clock);
  }

  /** Both machines start the same grant, or neither starts one. */
  lemma RequestMintsAlike(config: Config, s: Agent, h: History, thread: nat, request: ComputeRequest, peer: PeerContext)
    requires ValidConfig(config) && IssuerOk(config, s) && SlotsOk(s) && Represents(s, h)
    requires thread !in s.threads && peer.consistency.Consistent?
    ensures match IssueReservingCapacity(config, s.store, ProvenanceRecord(peer.observed, request), s.clock).1
      case Err(_) => Request(config, h, thread, request, peer).0 == h
      case Ok(lease) =>
        && lease.id.sequence == |s.issued|
        && Request(config, h, thread, request, peer).0 == h.(minted := h.minted + 1, inProgress := h.inProgress[thread := Enforcing(lease)])
  {
    hide IssueReservingCapacity, Decide, InFlight;
    IssueAgrees(config, s.store, ProvenanceRecord(peer.observed, request), s.clock);
  }

  lemma RequestStatesAgree(config: Config, s: Agent, h: History, thread: nat, request: ComputeRequest, peer: PeerContext)
    requires ValidConfig(config) && IssuerOk(config, s) && SlotsOk(s) && Represents(s, h)
    ensures Represents(StepRequest(config, s, thread, request, peer).0, Request(config, h, thread, request, peer).0)
  {
    if thread !in s.threads && peer.consistency.Consistent? {
      var origin := ProvenanceRecord(peer.observed, request);
      RequestMintsAlike(config, s, h, thread, request, peer);
      IssueSectionShape(config, s.store, origin, s.clock);
      match IssueReservingCapacity(config, s.store, origin, s.clock).1
      case Err(_) => PruneAgrees(s, h);
      case Ok(lease) =>
        MintAgrees(s, h, StepRequest(config, s, thread, request, peer).0, Request(config, h, thread, request, peer).0, thread, lease);
    }
  }

  // ----- the unlocked stretch

  lemma AdvanceAgrees(s: Agent, h: History, thread: nat, phase: Phase)
    requires Represents(s, h) && thread in s.threads && phase.lease == s.threads[thread].lease
    ensures Represents(s.(threads := s.threads[thread := phase]), MovedOn(h, thread, phase))
  {
    InFlightStays(s.threads, thread, phase);
    assert Live(MovedOn(h, thread, phase)) == Live(h);
  }

  lemma UnwindAgrees(s: Agent, h: History, thread: nat)
    requires ThreadsOk(s.threads, s.issued, s.clock) && Represents(s, h)
    requires thread in s.threads && s.threads[thread].lease.id.sequence !in s.unwound
    ensures Represents(
      s.(threads := s.threads - {thread}, unwound := s.unwound + {s.threads[thread].lease.id.sequence}),
      h.(inProgress := h.inProgress - {thread}, lost := h.lost + 1))
  {
    hide ThreadsOk, InFlight;
    InFlightDrops(s.threads, thread, s.issued, s.clock);
    assert Live(h.(inProgress := h.inProgress - {thread}, lost := h.lost + 1)) == Live(h);
  }

  // ----- settling

  lemma SettleOutputsAgree(config: Config, s: Agent, h: History, thread: nat)
    requires Represents(s, h)
    ensures StepSettle(s, thread).1 == Happens(config, h, Settle(thread)).1
  {
  }

  lemma CompensateAgrees(s: Agent, h: History, thread: nat)
    requires ThreadsOk(s.threads, s.issued, s.clock) && Represents(s, h) && thread in s.threads
    ensures Represents(
      s.(store := Compensate(s.store, s.threads[thread].lease.id), threads := s.threads - {thread}),
      h.(inProgress := h.inProgress - {thread}))
  {
    InFlightDrops(s.threads, thread, s.issued, s.clock);
    assert Live(h.(inProgress := h.inProgress - {thread})) == Live(h);
  }

  lemma InFlightIsNotStored(config: Config, s: Agent, thread: nat)
    requires Inv(config, s) && thread in s.threads
    ensures s.threads[thread].lease.id !in s.store.leases
  {
    assert s.threads[thread].lease.id.sequence in InFlight(s.threads);
    assert forall id :: id in s.store.leases ==> id.sequence in Stored(s.store.leases);
  }

  lemma InsertAgrees(s: Agent, h: History, thread: nat)
    requires ThreadsOk(s.threads, s.issued, s.clock) && Represents(s, h) && thread in s.threads
    requires s.threads[thread].lease.id !in s.store.leases
    ensures var lease := s.threads[thread].lease; Represents(
      s.(store := Insert(s.store, lease), threads := s.threads - {thread}),
      h.(inProgress := h.inProgress - {thread}, granted := h.granted[lease.id := lease]))
  {
    var lease := s.threads[thread].lease;
    var k := h.(inProgress := h.inProgress - {thread}, granted := h.granted[lease.id := lease]);
    InFlightDrops(s.threads, thread, s.issued, s.clock);
    assert lease.id.sequence in InFlight(s.threads);
    assert Minted(s.issued, lease);
    assert lease.id !in h.released;
    LiveGains(h, k, lease);
    UnexpiredGains(s.store.leases, lease, s.clock);
  }

  lemma LiveGains(h: History, k: History, lease: ComputeLease)
    requires lease.id !in h.released && k.granted == h.granted[lease.id := lease] && k.released == h.released && k.clock == h.clock
    requires lease.id !in h.granted
    ensures Live(k) == if lease.expiresAt > h.clock then Live(h)[lease.id := lease] else Live(h)
  {
  }

  lemma UnexpiredGains(leases: map<LeaseId, ComputeLease>, lease: ComputeLease, now: u64)
    requires lease.id !in leases
    ensures Unexpired(leases[lease.id := lease], now)
         == if lease.expiresAt > now then Unexpired(leases, now)[lease.id := lease] else Unexpired(leases, now)
  {
  }

  lemma SettleStatesAgree(s: Agent, h: History, thread: nat)
    requires ThreadsOk(s.threads, s.issued, s.clock) && Represents(s, h)
    requires thread in s.threads && s.threads[thread].lease.id !in s.store.leases
    ensures Represents(StepSettle(s, thread).0, Settled(h, thread).0)
  {
    if s.threads[thread].Timed? || s.threads[thread].Refused? {
      SettleEffect(s, thread);
      InsertAgrees(s, h, thread);
      CompensateAgrees(s, h, thread);
    }
  }

  // ----- releasing

  /** A stored lease in good standing: under its own id, ours, and not revoked. */
  ghost predicate GoodStanding(store: StoreView, id: LeaseId) {
    && id in store.leases && store.leases[id].id == id && id.issuer == store.issuer.instance
    && id.sequence < store.issuer.nextSequence && id.sequence !in store.issuer.revoked
  }

  /** The locked release section, read without its bookkeeping. */
  lemma ReleaseSectionAgrees(store: StoreView, id: LeaseId, observed: ExecutionContext, now: u64, answer: BackendAnswer)
    requires id in store.leases ==> GoodStanding(store, id)
    ensures var (after, output) := ReleaseSection(store, id, observed, now, answer);
      var live := Unexpired(store.leases, now);
      if id !in live then after == Prune(store, now) && output == Answer(ReleaseUnknownLease, REFUSAL)
      else
        var process := CompareProcess(live[id].origin.context.workload, observed.workload);
        var executable := CompareExecutable(live[id].origin.context.workload, observed.workload);
        if process.Same? && executable.Same? then
          && after == Remove(Prune(store, now).(issuer := store.issuer.(revoked := store.issuer.revoked + {id.sequence})), id)
          && output == Output(
               if OtherLeaseOnResource(live, id) then [] else [RevokeCall(live[id].origin.request.resource)],
               Some(Reply(Released(Revoked, if !OtherLeaseOnResource(live, id) && answer.Ok? then Some(answer.value) else None), LeaseReleased(true))))
        else
          && after == Prune(store, now)
          && output == Answer(
               ReleaseRefused(
                 if process.Different? then WorkloadMismatch
                 else if process.Same? && executable.Different? then ExecutableMismatch
                 else WorkloadIndeterminate),
               REFUSAL)
  {
  }

  lemma StoredInGoodStanding(config: Config, s: Agent, id: LeaseId)
    requires Inv(config, s) && id in s.store.leases
    ensures GoodStanding(s.store, id) && id.sequence !in InFlight(s.threads)
  {
    MintedId(config, s.issued, s.clock, s.store.leases[id]);
    assert id.sequence in Stored(s.store.leases);
  }

  lemma ReleaseOutputsAgree(s: Agent, h: History, id: LeaseId, peer: PeerContext, answer: BackendAnswer)
    requires Represents(s, h) && (id in s.store.leases ==> GoodStanding(s.store, id))
    ensures StepRelease(s, id, peer, answer).1 == Release(h, id, peer, answer).1
  {
    ReleaseSectionAgrees(s.store, id, peer.observed, s.clock, answer);
  }

  lemma RetireAgrees(s: Agent, h: History, id: LeaseId)
    requires Represents(s, h) && id in Pruned(s).store.leases
    requires id.sequence < |s.issued| && id.sequence !in InFlight(s.threads)
    ensures Represents(Retire(Pruned(s), id), h.(released := h.released + {id}))
  {
    var k := h.(released := h.released + {id});
    PruneTwice(s.store.leases, s.clock);
    assert Live(k) == Live(h) - {id};
    assert Unexpired(Unexpired(s.store.leases, s.clock) - {id}, s.clock) == Unexpired(s.store.leases, s.clock) - {id};
  }

  lemma ReleaseRetiresAlike(s: Agent, h: History, id: LeaseId, peer: PeerContext, answer: BackendAnswer)
    requires Represents(s, h) && (id in s.store.leases ==> GoodStanding(s.store, id))
    ensures var n, k := StepRelease(s, id, peer, answer).0, Release(h, id, peer, answer).0;
      || (k == h && (n == s || n == Pruned(s)))
      || (id in Pruned(s).store.leases && n == Retire(Pruned(s), id) && k == h.(released := h.released + {id}))
  {
    ReleaseSectionAgrees(s.store, id, peer.observed, s.clock, answer);
  }

  lemma ReleaseStatesAgree(config: Config, s: Agent, h: History, id: LeaseId, peer: PeerContext, answer: BackendAnswer)
    requires Represents(s, h) && IssuerOk(config, s)
    requires id in s.store.leases ==> GoodStanding(s.store, id) && id.sequence !in InFlight(s.threads)
    ensures Represents(StepRelease(s, id, peer, answer).0, Release(h, id, peer, answer).0)
  {
    ReleaseRetiresAlike(s, h, id, peer, answer);
    PruneAgrees(s, h);
    if id in Pruned(s).store.leases {
      RetireAgrees(s, h, id);
    }
  }

  // ----- one event, and whole runs

  lemma InvParts(config: Config, s: Agent)
    requires Inv(config, s)
    ensures IssuerOk(config, s) && SlotsOk(s) && ThreadsOk(s.threads, s.issued, s.clock)
    ensures forall thread :: thread in s.threads ==> s.threads[thread].lease.id.sequence !in s.unwound
  {
    hide StoreOk, LedgerOk, LapsedOnly;
    forall thread | thread in s.threads ensures s.threads[thread].lease.id.sequence !in s.unwound {
      HeldInFlight(s.threads, thread);
    }
  }

  lemma RequestAgrees(config: Config, s: Agent, h: History, event: Event)
    requires ValidConfig(config) && Inv(config, s) && Represents(s, h) && event.RequestLease?
    ensures Step(config, s, event).1 == Happens(config, h, event).1
    ensures Represents(Step(config, s, event).0, Happens(config, h, event).0)
  {
    hide Inv, Represents, StepRequest, Request;
    InvParts(config, s);
    RequestOutputsAgree(config, s, h, event.thread, event.request, event.peer);
    RequestStatesAgree(config, s, h, event.thread, event.request, event.peer);
  }

  lemma UnlockedAgrees(config: Config, s: Agent, h: History, event: Event)
    requires Inv(config, s) && Represents(s, h) && (event.EnforceReturns? || event.EnforceUnwinds? || event.ReadClock?)
    ensures Step(config, s, event).1 == Happens(config, h, event).1
    ensures Represents(Step(config, s, event).0, Happens(config, h, event).0)
  {
    hide Inv;
    InvParts(config, s);
    assert h.inProgress == s.threads;
    MovedAgrees(config, s, h, event);
  }

  lemma MovedAgrees(config: Config, s: Agent, h: History, event: Event)
    requires ThreadsOk(s.threads, s.issued, s.clock) && Represents(s, h) && h.inProgress == s.threads && h.clock == s.clock
    requires forall thread :: thread in s.threads ==> s.threads[thread].lease.id.sequence !in s.unwound
    requires event.EnforceReturns? || event.EnforceUnwinds? || event.ReadClock?
    ensures Step(config, s, event).1 == Happens(config, h, event).1
    ensures Represents(Step(config, s, event).0, Happens(config, h, event).0)
  {
    hide ThreadsOk, Represents;
    var thread := event.thread;
    if thread in s.threads {
      var lease := s.threads[thread].lease;
      if event.EnforceReturns? {
        AdvanceAgrees(s, h, thread, if event.answer == Ok(Allowed) then Enforced(lease) else Refused(lease, event.answer));
      } else if event.EnforceUnwinds? {
        UnwindAgrees(s, h, thread);
      } else {
        AdvanceAgrees(s, h, thread, Timed(lease, s.clock));
      }
    }
  }

  lemma SettleAgrees(config: Config, s: Agent, h: History, event: Event)
    requires Inv(config, s) && Represents(s, h) && event.Settle?
    ensures Step(config, s, event).1 == Happens(config, h, event).1
    ensures Represents(Step(config, s, event).0, Happens(config, h, event).0)
  {
    hide Inv, Settled, SettleLease;
    InvParts(config, s);
    SettleOutputsAgree(config, s, h, event.thread);
    if event.thread in s.threads {
      InFlightIsNotStored(config, s, event.thread);
      SettleStatesAgree(s, h, event.thread);
    }
  }

  lemma ReleaseAgrees(config: Config, s: Agent, h: History, event: Event)
    requires Inv(config, s) && Represents(s, h) && event.ReleaseLease?
    ensures Step(config, s, event).1 == Happens(config, h, event).1
    ensures Represents(Step(config, s, event).0, Happens(config, h, event).0)
  {
    hide Inv, Represents, StepRelease, Release;
    InvParts(config, s);
    if event.id in s.store.leases {
      StoredInGoodStanding(config, s, event.id);
    }
    ReleaseOutputsAgree(s, h, event.id, event.peer, event.answer);
    ReleaseStatesAgree(config, s, h, event.id, event.peer, event.answer);
  }

  lemma EventAgrees(config: Config, s: Agent, h: History, event: Event)
    requires ValidConfig(config) && Inv(config, s) && Represents(s, h)
    ensures Step(config, s, event).1 == Happens(config, h, event).1
    ensures Represents(Step(config, s, event).0, Happens(config, h, event).0)
  {
    hide Inv;
    match event
    case Tick(elapsed) =>
      TickAgrees(s, h, elapsed);
      assert h.clock == s.clock;
    case RequestLease(_, _, _) => RequestAgrees(config, s, h, event);
    case Settle(_) => SettleAgrees(config, s, h, event);
    case ReleaseLease(_, _, _) => ReleaseAgrees(config, s, h, event);
    case AgentStatus =>
    case _ => UnlockedAgrees(config, s, h, event);
  }

  /** Every run of the agent shows, event for event, the replies and the backend calls
      of the plain history. */
  lemma {:induction false} AgentRefinesHistory(config: Config, events: seq<Event>)
    requires ValidConfig(config)
    ensures Trace(config, Initial(config), events) == HistoryTrace(config, events)
    ensures Represents(After(config, Initial(config), events), HistoryAfter(config, events))
    decreases |events|
  {
    if events != [] {
      var before := events[..|events| - 1];
      AgentRefinesHistory(config, before);
      ReachableInv(config, before);
      EventAgrees(config, After(config, Initial(config), before), HistoryAfter(config, before), events[|events| - 1]);
    }
  }
}
