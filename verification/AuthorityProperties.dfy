/** What clients of the lease authority can rely on, over every interleaving. */
module AuthorityProperties {
  import opened Prelude
  import opened Identity
  import opened Resource
  import opened Peer
  import opened Policy
  import opened Lease
  import opened LeaseStore
  import opened Authority
  import opened AuthorityInvariant

  // ----- capacity

  /** Stored leases and grants in progress never outgrow the bound; the reservation
      counter is exactly the threads between issue and settlement (and the panicked
      ones), so giving one back never saturates. */
  lemma CapacityHolds(config: Config, events: seq<Event>)
    ensures var s := After(config, Initial(config), events);
      && |s.store.leases| + s.store.reserved <= config.maxOutstanding
      && s.store.reserved == |s.threads| + |s.unwound|
      && forall thread :: thread in s.threads ==> ReleaseReservation(s.store).reserved + 1 == s.store.reserved
  {
    ReachableInv(config, events);
    var s := After(config, Initial(config), events);
    forall thread | thread in s.threads ensures |s.threads| >= 1 {
      RemoveKey(s.threads, thread);
    }
  }

  /** When every backend call returns, the counter is the number of grants in progress. */
  lemma ReservedIsInFlight(config: Config, events: seq<Event>)
    requires forall k :: 0 <= k < |events| ==> !events[k].EnforceUnwinds?
    ensures After(config, Initial(config), events).store.reserved == |After(config, Initial(config), events).threads|
  {
    ReachableInv(config, events);
    NobodyUnwinds(config, events);
  }

  /** The counter is the number of grants in progress exactly as long as no grant in
      progress has been lost to a panic. */
  lemma ReservedIsInFlightExactly(config: Config, events: seq<Event>)
    ensures var s := After(config, Initial(config), events); s.store.reserved == |s.threads| <==> s.unwound == {}
  {
    ReachableInv(config, events);
  }

  lemma {:induction false} NobodyUnwinds(config: Config, events: seq<Event>)
    requires forall k :: 0 <= k < |events| ==> !events[k].EnforceUnwinds?
    ensures After(config, Initial(config), events).unwound == {}
    decreases |events|
  {
    if events != [] {
      NobodyUnwinds(config, events[..|events| - 1]);
      UnwoundUnchanged(config, After(config, Initial(config), events[..|events| - 1]), events[|events| - 1]);
    }
  }

  lemma UnwoundUnchanged(config: Config, s: Agent, event: Event)
    requires !event.EnforceUnwinds?
    ensures Step(config, s, event).0.unwound == s.unwound
  {
  }

  // ----- what only grows

  ghost predicate Extends(s: Agent, t: Agent) {
    && s.clock <= t.clock
    && s.issued <= t.issued
    && s.store.issuer.revoked <= t.store.issuer.revoked
    && s.unwound <= t.unwound
    && s.store.issuer.instance == t.store.issuer.instance
  }

  lemma StepExtends(config: Config, s: Agent, event: Event)
    ensures Extends(s, Step(config, s, event).0)
  {
  }

  lemma {:induction false} RunExtends(config: Config, s: Agent, events: seq<Event>)
    ensures Extends(s, After(config, s, events))
    decreases |events|
  {
    if events != [] {
      var before := events[..|events| - 1];
      RunExtends(config, s, before);
      StepExtends(config, After(config, s, before), events[|events| - 1]);
    }
  }

  /** A lease once revoked, or once expired, is never valid again: not for any
      presented observation, at any later moment, nor for any narrowed copy. */
  lemma NeverValidAgain(config: Config, s: Agent, events: seq<Event>, lease: ComputeLease, presented: ProvenanceRecord)
    requires lease.id.sequence in s.store.issuer.revoked || lease.expiresAt <= s.clock
    ensures var t := After(config, s, events); !ValidateAgainst(t.store.issuer, lease, presented, t.clock).Valid?
  {
    RunExtends(config, s, events);
    var t := After(config, s, events);
    ValidExactly(t.store.issuer, lease, presented, t.clock);
  }

  lemma LedgerInExpiryOrder(config: Config, issued: seq<ComputeLease>, clock: u64, i: nat, j: nat)
    requires LedgerOk(config, issued, clock) && i <= j < |issued|
    ensures issued[i].expiresAt <= issued[j].expiresAt
  {
    assert WellMinted(config, issued[i], i) && WellMinted(config, issued[j], j);
  }

  /** One ttl and a clock read under the lock: a later number never expires earlier. */
  lemma LaterNeverExpiresEarlier(config: Config, events: seq<Event>, i: nat, j: nat)
    requires i <= j < |After(config, Initial(config), events).issued|
    ensures var issued := After(config, Initial(config), events).issued; issued[i].expiresAt <= issued[j].expiresAt
  {
    ReachableInv(config, events);
    var s := After(config, Initial(config), events);
    LedgerInExpiryOrder(config, s.issued, s.clock, i, j);
  }

  // ----- the fate of a number

  datatype Fate = AwaitingBackend | InStore | Withdrawn | LostToPanic | PrunedByExpiry

  ghost predicate HasFate(s: Agent, sequence: nat, fate: Fate) {
    match fate
    case AwaitingBackend => sequence in InFlight(s.threads)
    case InStore => sequence in Stored(s.store.leases)
    case Withdrawn => sequence in s.store.issuer.revoked
    case LostToPanic => sequence in s.unwound
    case PrunedByExpiry => sequence < |s.issued| && !Placed(s, sequence) && s.issued[sequence].expiresAt <= s.clock
  }

  /** Every minted number has exactly one fate; no other number has any. */
  lemma ExactlyOneFate(config: Config, s: Agent, sequence: nat)
    requires Inv(config, s)
    ensures sequence < s.store.issuer.nextSequence <==> exists fate :: HasFate(s, sequence, fate)
    ensures forall f, g :: HasFate(s, sequence, f) && HasFate(s, sequence, g) ==> f == g
  {
    if sequence < |s.issued| {
      var fate :=
        if sequence in InFlight(s.threads) then AwaitingBackend
        else if sequence in Stored(s.store.leases) then InStore
        else if sequence in s.store.issuer.revoked then Withdrawn
        else if sequence in s.unwound then LostToPanic
        else PrunedByExpiry;
      assert HasFate(s, sequence, fate);
    }
  }

  /** One event moves a number at most one stage on, and never back. */
  predicate MayBecome(before: Fate, after: Fate) {
    || before == after
    || (before == AwaitingBackend && after in {InStore, Withdrawn, LostToPanic})
    || (before == InStore && after in {Withdrawn, PrunedByExpiry})
  }

  /** Many events: in flight may end anywhere, stored only withdrawn or pruned, the rest is final. */
  predicate MayEnd(before: Fate, after: Fate) {
    before == after || before == AwaitingBackend || (before == InStore && after in {Withdrawn, PrunedByExpiry})
  }

  /** How one event shifts the four places: at most one number leaves or enters flight,
      the store only shrinks except by the number that left flight, and what left
      either is withdrawn, lost to a panic, or was pruned. */
  ghost predicate Shifts(s: Agent, n: Agent) {
    && s.issued <= n.issued
    && s.clock <= n.clock
    && s.store.issuer.revoked <= n.store.issuer.revoked
    && s.unwound <= n.unwound
    && (forall i :: i in InFlight(s.threads) ==>
          i in InFlight(n.threads) || i in Stored(n.store.leases) || i in n.store.issuer.revoked || i in n.unwound)
    && (forall i :: i in Stored(s.store.leases) ==> i !in InFlight(n.threads) && i !in n.unwound)
    && (forall i :: 0 <= i < |s.issued| && !Placed(s, i) ==> !Placed(n, i))
  }

  lemma StandingStillShifts(s: Agent, n: Agent)
    requires PlacesOk(InFlight(s.threads), Stored(s.store.leases), s.store.issuer.revoked, s.unwound, |s.issued|)
    requires n == s || (n == s.(clock := n.clock) && s.clock <= n.clock)
    ensures Shifts(s, n)
  {
  }

  lemma MintShifts(config: Config, s: Agent, thread: nat, lease: ComputeLease)
    requires Inv(config, s) && thread !in s.threads && lease.id.sequence == |s.issued|
    ensures Shifts(s, Mint(Pruned(s), thread, lease))
  {
    hide InFlight, Stored, LedgerOk, StoreOk, ThreadsOk, LapsedOnly, SlotsOk;
    PruneKeeps(config, s);
    InFlightAdds(s.threads, thread, Enforcing(lease));
  }

  lemma RequestShifts(config: Config, s: Agent, thread: nat, request: ComputeRequest, peer: PeerContext)
    requires Inv(config, s)
    ensures Shifts(s, StepRequest(config, s, thread, request, peer).0)
  {
    hide Inv, Shifts, StepRequest, LedgerOk, StoreOk, ThreadsOk, PlacesOk, SlotsOk;
    InvGives(config, s);
    StandingStillShifts(s, s);
    PruneShifts(config, s);
    RequestEffect(config, s, thread, request, peer);
    PruneKeeps(config, s);
    var n := StepRequest(config, s, thread, request, peer).0;
    if n != s && n != Pruned(s) {
      MintShifts(config, s, thread, n.issued[|s.issued|]);
    }
  }

  /** Dropping stored leases, some of them into the revoked set, touches nothing else. */
  lemma DroppingShifts(s: Agent, n: Agent)
    requires PlacesOk(InFlight(s.threads), Stored(s.store.leases), s.store.issuer.revoked, s.unwound, |s.issued|)
    requires n.issued == s.issued && n.clock == s.clock && n.threads == s.threads && n.unwound == s.unwound
    requires Stored(n.store.leases) <= Stored(s.store.leases)
    requires s.store.issuer.revoked <= n.store.issuer.revoked <= s.store.issuer.revoked + Stored(s.store.leases)
    ensures Shifts(s, n)
  {
  }

  lemma PruneShifts(config: Config, s: Agent)
    requires Inv(config, s)
    ensures Shifts(s, Pruned(s))
  {
    assert Stored(Pruned(s).store.leases) <= Stored(s.store.leases);
    DroppingShifts(s, Pruned(s));
  }

  lemma RetireShifts(config: Config, s: Agent, id: LeaseId)
    requires Inv(config, s) && id in Pruned(s).store.leases
    ensures Shifts(s, Retire(Pruned(s), id))
  {
    assert id in s.store.leases && id.sequence in Stored(s.store.leases);
    assert Stored(Retire(Pruned(s), id).store.leases) <= Stored(s.store.leases);
    DroppingShifts(s, Retire(Pruned(s), id));
  }

  lemma ReleaseShifts(config: Config, s: Agent, id: LeaseId, peer: PeerContext, answer: BackendAnswer)
    requires Inv(config, s)
    ensures Shifts(s, StepRelease(s, id, peer, answer).0)
  {
    hide Inv, Shifts, StepRelease, IssuerOk, LedgerOk, StoreOk, ThreadsOk, PlacesOk, SlotsOk;
    InvGives(config, s);
    StandingStillShifts(s, s);
    ReleaseEffect(config, s, id, peer, answer);
    PruneShifts(config, s);
    if id in Pruned(s).store.leases {
      RetireShifts(config, s, id);
    }
  }

  lemma InsertShifts(config: Config, s: Agent, thread: nat)
    requires Inv(config, s) && thread in s.threads
    ensures Shifts(s, s.(store := Insert(s.store, s.threads[thread].lease), threads := s.threads - {thread}))
  {
    hide InFlight, Stored, LedgerOk, StoreOk, ThreadsOk, LapsedOnly, SlotsOk;
    var lease := s.threads[thread].lease;
    InFlightDrops(s.threads, thread, s.issued, s.clock);
    StoredAdds(s.store.leases, lease);
    HeldInFlight(s.threads, thread);
  }

  lemma CompensateShifts(config: Config, s: Agent, thread: nat)
    requires Inv(config, s) && thread in s.threads
    ensures Shifts(s, s.(store := Compensate(s.store, s.threads[thread].lease.id), threads := s.threads - {thread}))
  {
    hide InFlight, Stored, LedgerOk, StoreOk, ThreadsOk, LapsedOnly, SlotsOk, Compensate, Minted;
    var lease := s.threads[thread].lease;
    InFlightDrops(s.threads, thread, s.issued, s.clock);
    HeldInFlight(s.threads, thread);
    ThreadIsMinted(s.threads, s.issued, s.clock, thread);
    CompensateRevokes(config, s, lease);
  }

  lemma SettleShifts(config: Config, s: Agent, thread: nat)
    requires Inv(config, s)
    ensures Shifts(s, StepSettle(s, thread).0)
  {
    hide Inv, Shifts, Compensate, Insert, IssuerOk, LedgerOk, StoreOk, ThreadsOk, PlacesOk, SlotsOk;
    InvGives(config, s);
    StandingStillShifts(s, s);
    if thread in s.threads && (s.threads[thread].Timed? || s.threads[thread].Refused?) {
      SettleEffect(s, thread);
      InsertShifts(config, s, thread);
      CompensateShifts(config, s, thread);
    }
  }

  lemma EnforceReturnsShifts(s: Agent, thread: nat, answer: BackendAnswer)
    requires PlacesOk(InFlight(s.threads), Stored(s.store.leases), s.store.issuer.revoked, s.unwound, |s.issued|)
    ensures Shifts(s, StepEnforceReturns(s, thread, answer).0)
  {
    if thread in s.threads && s.threads[thread].Enforcing? {
      InFlightStays(s.threads, thread, StepEnforceReturns(s, thread, answer).0.threads[thread]);
    }
  }

  lemma ReadClockShifts(s: Agent, thread: nat)
    requires PlacesOk(InFlight(s.threads), Stored(s.store.leases), s.store.issuer.revoked, s.unwound, |s.issued|)
    ensures Shifts(s, StepReadClock(s, thread).0)
  {
    if thread in s.threads && s.threads[thread].Enforced? {
      InFlightStays(s.threads, thread, StepReadClock(s, thread).0.threads[thread]);
    }
  }

  lemma EnforceUnwindsShifts(s: Agent, thread: nat)
    requires ThreadsOk(s.threads, s.issued, s.clock)
    requires PlacesOk(InFlight(s.threads), Stored(s.store.leases), s.store.issuer.revoked, s.unwound, |s.issued|)
    ensures Shifts(s, StepEnforceUnwinds(s, thread).0)
  {
    if thread in s.threads && s.threads[thread].Enforcing? {
      InFlightDrops(s.threads, thread, s.issued, s.clock);
      assert s.threads[thread].lease.id.sequence in InFlight(s.threads);
    }
  }

  lemma StepShifts(config: Config, s: Agent, event: Event)
    requires Inv(config, s)
    ensures Shifts(s, Step(config, s, event).0)
  {
    hide Inv, Shifts, LedgerOk, StoreOk, ThreadsOk, PlacesOk, SlotsOk;
    InvGives(config, s);
    StandingStillShifts(s, s);
    match event
    case Tick(elapsed) => StandingStillShifts(s, s.(clock := Advance(s.clock, elapsed)));
    case RequestLease(thread, request, peer) => RequestShifts(config, s, thread, request, peer);
    case EnforceReturns(thread, answer) => EnforceReturnsShifts(s, thread, answer);
    case EnforceUnwinds(thread) => EnforceUnwindsShifts(s, thread);
    case ReadClock(thread) => ReadClockShifts(s, thread);
    case Settle(thread) => SettleShifts(config, s, thread);
    case ReleaseLease(id, peer, answer) => ReleaseShifts(config, s, id, peer, answer);
    case AgentStatus =>
  }

  lemma FateMoves(config: Config, s: Agent, event: Event, sequence: nat, before: Fate, after: Fate)
    requires Inv(config, s) && HasFate(s, sequence, before) && HasFate(Step(config, s, event).0, sequence, after)
    ensures MayBecome(before, after)
  {
    hide Inv, Shifts, Step, HasFate;
    StepShifts(config, s, event);
    StepKeeps(config, s, event);
    ShiftedFate(config, s, Step(config, s, event).0, sequence, before, after);
  }

  lemma ShiftedFate(config: Config, s: Agent, n: Agent, sequence: nat, before: Fate, after: Fate)
    requires Inv(config, s) && Inv(config, n) && Shifts(s, n)
    requires HasFate(s, sequence, before) && HasFate(n, sequence, after)
    ensures MayBecome(before, after)
  {
  }

  /** No number ever moves back, over any number of events. */
  lemma {:induction false} FateNeverMovesBack(config: Config, s: Agent, events: seq<Event>, sequence: nat, before: Fate, after: Fate)
    requires Inv(config, s) && HasFate(s, sequence, before) && HasFate(After(config, s, events), sequence, after)
    ensures MayEnd(before, after)
    decreases |events|
  {
    hide Inv, Step, HasFate, LedgerOk, StoreOk, ThreadsOk, PlacesOk, SlotsOk;
    InvGives(config, s);
    if events == [] {
      ExactlyOneFate(config, s, sequence);
    } else {
      var earlier := events[..|events| - 1];
      var m := After(config, s, earlier);
      RunKeeps(config, s, earlier);
      RunExtends(config, s, earlier);
      ExactlyOneFate(config, s, sequence);
      InvGives(config, m);
      ExactlyOneFate(config, m, sequence);
      var middle :| HasFate(m, sequence, middle);
      FateNeverMovesBack(config, s, earlier, sequence, before, middle);
      FateMoves(config, m, events[|events| - 1], sequence, middle, after);
    }
  }

  // ----- releases

  /** What a release needs: a consistent peer, the id stored and unexpired, and the
      peer the same process running the same executable as at grant time. */
  ghost predicate MayRelease(s: Agent, id: LeaseId, peer: PeerContext) {
    && peer.consistency.Consistent?
    && id in s.store.leases
    && s.store.leases[id].expiresAt > s.clock
    && CompareProcess(s.store.leases[id].origin.context.workload, peer.observed.workload) == Same
    && CompareExecutable(s.store.leases[id].origin.context.workload, peer.observed.workload) == Same
  }

  lemma StoredIsOurs(config: Config, s: Agent, id: LeaseId)
    requires Inv(config, s) && id in s.store.leases
    ensures id == LeaseId(config.instance, id.sequence) && s.store.leases[id].id == id
    ensures id.sequence !in s.store.issuer.revoked && id.sequence < s.store.issuer.nextSequence
  {
    MintedId(config, s.issued, s.clock, s.store.leases[id]);
    assert id.sequence in Stored(s.store.leases);
  }

  /** In a reachable state a release answers Released exactly under `MayRelease`, and
      then the issuer's own verdict is always Revoked. Otherwise it is refused and
      nothing happens but pruning; of the refusal reasons only a workload or
      executable mismatch can arise for a stored lease. */
  lemma ReleaseAnswersExactly(config: Config, s: Agent, event: Event)
    requires Inv(config, s) && event.ReleaseLease?
    ensures var (n, output) := Step(config, s, event);
      var allowed := MayRelease(s, event.id, event.peer);
      && output.reply.Some?
      && output.reply.value.response == LeaseReleased(allowed)
      && (allowed ==>
            output.reply.value.outcome.Released? && output.reply.value.outcome.revocation == Revoked
            && n == Retire(Pruned(s), event.id))
      && (!allowed ==> output.calls == [] && (n == s || n == Pruned(s)))
      && (output.reply.value.outcome.ReleaseRefused? ==>
            output.reply.value.outcome.validity in {WorkloadMismatch, WorkloadIndeterminate, ExecutableMismatch})
  {
    var id, observed := event.id, event.peer.observed;
    if event.peer.consistency.Consistent? && id in Pruned(s).store.leases {
      PruneKeeps(config, s);
      StoredIsOurs(config, Pruned(s), id);
      RetireKeeps(config, Pruned(s), id);
      var stored := Pruned(s).store.leases[id];
      ValidExactly(s.store.issuer, stored, ProvenanceRecord(observed, stored.origin.request), s.clock);
    }
  }

  /** What speaks for another process, or another executable, than the lease was granted to. */
  predicate Impostor(holder: WorkloadIdentity, peer: WorkloadIdentity) {
    || (Trusted(holder.processStart) && Trusted(peer.processStart)
        && (holder.pid != peer.pid || holder.processStart.value != peer.processStart.value))
    || (Trusted(holder.executableHash) && Trusted(peer.executableHash) && holder.executableHash.value != peer.executableHash.value)
  }

  /** A reused process id, a restarted process or a replaced binary never releases a
      lease, and its attempt changes nothing but what time had already ended. */
  lemma ImpostorNeverReleases(config: Config, s: Agent, event: Event)
    requires Inv(config, s) && event.ReleaseLease? && event.id in s.store.leases
    requires Impostor(s.store.leases[event.id].origin.context.workload, event.peer.observed.workload)
    ensures var (n, output) := Step(config, s, event);
      && output.reply.Some? && output.reply.value.response == LeaseReleased(false)
      && output.calls == [] && (n == s || n == Pruned(s))
  {
    hide Step, Inv;
    ReleaseAnswersExactly(config, s, event);
  }

  ghost predicate NamesResource(leases: map<LeaseId, ComputeLease>, resource: ResourceIdentity) {
    exists id :: id in leases && leases[id].origin.request.resource == resource
  }

  /** The backend is told to revoke exactly by the successful release that leaves no
      stored lease naming the resource: once, for that resource, by nothing else. */
  lemma RevokeCalledExactly(config: Config, s: Agent, event: Event, resource: ResourceIdentity)
    requires Inv(config, s)
    ensures var (n, output) := Step(config, s, event);
      && (RevokeCall(resource) in output.calls <==>
            && event.ReleaseLease? && MayRelease(s, event.id, event.peer)
            && s.store.leases[event.id].origin.request.resource == resource
            && !NamesResource(n.store.leases, resource))
      && (RevokeCall(resource) in output.calls ==> output.calls == [RevokeCall(resource)])
  {
    hide Inv, Step, Retire;
    if event.ReleaseLease? {
      ReleaseAnswersExactly(config, s, event);
      if MayRelease(s, event.id, event.peer) {
        RevokeOnLastRelease(config, s, event);
      }
    } else {
      OnlyReleasesRevoke(config, s, event, resource);
    }
  }

  lemma OnlyReleasesRevoke(config: Config, s: Agent, event: Event, resource: ResourceIdentity)
    requires !event.ReleaseLease?
    ensures RevokeCall(resource) !in Step(config, s, event).1.calls
  {
  }

  lemma RemainingNames(leases: map<LeaseId, ComputeLease>, id: LeaseId)
    requires id in leases
    ensures OtherLeaseOnResource(leases, id) <==> NamesResource(leases - {id}, leases[id].origin.request.resource)
  {
    if OtherLeaseOnResource(leases, id) {
      var other :| other in leases && other != id && leases[other].origin.request.resource == leases[id].origin.request.resource;
      assert other in leases - {id};
    }
  }

  lemma RevokeOnLastRelease(config: Config, s: Agent, event: Event)
    requires Inv(config, s) && event.ReleaseLease? && MayRelease(s, event.id, event.peer)
    ensures var (n, output) := Step(config, s, event);
      var resource := s.store.leases[event.id].origin.request.resource;
      output.calls == if NamesResource(n.store.leases, resource) then [] else [RevokeCall(resource)]
  {
    hide Inv;
    ReleaseAnswersExactly(config, s, event);
    RemainingNames(Pruned(s).store.leases, event.id);
  }

  ghost predicate ReleasesId(event: Event, output: Output, id: LeaseId) {
    event.ReleaseLease? && event.id == id && output.reply.Some? && output.reply.value.response == LeaseReleased(true)
  }

  /** Two points of one run, the later one reached from the state just after the earlier event. */
  lemma SplitRun(config: Config, start: Agent, events: seq<Event>, j: nat, k: nat)
    requires j < k < |events|
    ensures Trace(config, start, events)[j] == Step(config, After(config, start, events[..j]), events[j]).1
    ensures Trace(config, start, events)[k] == Step(config, After(config, start, events[..k]), events[k]).1
    ensures After(config, start, events[..k]) == After(config, Step(config, After(config, start, events[..j]), events[j]).0, events[j + 1..k])
  {
    hide Step;
    TraceAt(config, start, events, j);
    TraceAt(config, start, events, k);
    assert events[..k] == events[..j + 1] + events[j + 1..k];
    AfterConcat(config, start, events[..j + 1], events[j + 1..k]);
  }

  lemma TwoPoints(config: Config, events: seq<Event>, j: nat, k: nat) returns (s: Agent, m: Agent)
    requires j < k < |events|
    ensures Inv(config, s) && Inv(config, m)
    ensures Trace(config, Initial(config), events)[j] == Step(config, s, events[j]).1
    ensures Trace(config, Initial(config), events)[k] == Step(config, m, events[k]).1
    ensures m == After(config, Step(config, s, events[j]).0, events[j + 1..k])
  {
    hide Step, Inv;
    s, m := After(config, Initial(config), events[..j]), After(config, Initial(config), events[..k]);
    SplitRun(config, Initial(config), events, j, k);
    ReachableInv(config, events[..j]);
    ReachableInv(config, events[..k]);
  }

  lemma ReleaseWithdraws(config: Config, s: Agent, event: Event, id: LeaseId)
    requires Inv(config, s) && ReleasesId(event, Step(config, s, event).1, id)
    ensures HasFate(s, id.sequence, InStore)
    ensures HasFate(Step(config, s, event).0, id.sequence, Withdrawn)
  {
    ReleaseAnswersExactly(config, s, event);
  }

  /** However often a release is retried, one lease id is released at most once, so
      its retries cause at most one backend revocation. */
  lemma ReleasedAtMostOnce(config: Config, events: seq<Event>, id: LeaseId, j: nat, k: nat)
    requires j < k < |events|
    requires ReleasesId(events[j], Trace(config, Initial(config), events)[j], id)
    ensures !ReleasesId(events[k], Trace(config, Initial(config), events)[k], id)
  {
    hide Inv, Step, HasFate, After, Trace;
    var s, m := TwoPoints(config, events, j, k);
    StepKeeps(config, s, events[j]);
    ReleaseWithdraws(config, s, events[j], id);
    if ReleasesId(events[k], Step(config, m, events[k]).1, id) {
      ReleaseWithdraws(config, m, events[k], id);
      FateNeverMovesBack(config, Step(config, s, events[j]).0, events[j + 1..k], id.sequence, Withdrawn, InStore);
    }
  }

  // ----- grants and denials

  /** Every lease on the ledger carries the reason and provenance of an Allow over its own origin. */
  ghost predicate Justified(config: Config, lease: ComputeLease) {
    var decision := Decide(config.policy, lease.origin.context, lease.origin.request);
    decision.effect == Allow && lease.policy == decision.policy && lease.decisionReason == decision.reason
  }

  /** What an issue request meets once its peer passed the gate, in the order the checks run. */
  lemma IssueAnswersExactly(config: Config, s: Agent, origin: ProvenanceRecord)
    requires IssuerOk(config, s) && ValidConfig(config)
    ensures var decision := Decide(config.policy, origin.context, origin.request);
      match IssueReservingCapacity(config, s.store, origin, s.clock).1
      case Err(AtCapacityFailure(outstanding)) => outstanding == config.maxOutstanding && AtCapacity(Pruned(s).store)
      case Err(DeniedFailure(d)) => d == decision && d.effect == Deny && !AtCapacity(Pruned(s).store)
      case Err(OtherFailure(error)) => error == ExpiryOverflow && decision.effect == Allow && s.clock + config.leaseTtl >= U64_LIMIT
      case Ok(lease) => Justified(config, lease) && lease.origin == origin && lease.id == LeaseId(config.instance, s.store.issuer.nextSequence)
  {
  }

  lemma MintsOnlyByRequest(config: Config, s: Agent, event: Event)
    ensures var n := Step(config, s, event).0;
      || n.issued == s.issued
      || (&& event.RequestLease? && event.peer.consistency.Consistent?
          && var section := IssueReservingCapacity(config, s.store, ProvenanceRecord(event.peer.observed, event.request), s.clock);
             section.1.Ok? && n.issued == s.issued + [section.1.value])
  {
  }

  /** In every reachable state every lease minted so far, stored, in flight or gone, is justified. */
  lemma {:induction false} EveryLeaseJustified(config: Config, events: seq<Event>, i: nat)
    requires ValidConfig(config) && i < |After(config, Initial(config), events).issued|
    ensures Justified(config, After(config, Initial(config), events).issued[i])
    decreases |events|
  {
    if events != [] {
      var before := events[..|events| - 1];
      var event := events[|events| - 1];
      var s := After(config, Initial(config), before);
      MintsOnlyByRequest(config, s, event);
      if i < |s.issued| {
        StepExtends(config, s, event);
        EveryLeaseJustified(config, before, i);
      } else {
        ReachableInv(config, before);
        IssueAnswersExactly(config, s, ProvenanceRecord(event.peer.observed, event.request));
      }
    }
  }

  ghost predicate GrantsId(output: Output, id: LeaseId) {
    output.reply.Some? && output.reply.value.response.LeaseGranted? && output.reply.value.response.lease.leaseId == id
  }

  lemma OnlySettlingGrants(config: Config, s: Agent, event: Event, id: LeaseId)
    requires GrantsId(Step(config, s, event).1, id)
    ensures event.Settle? && event.thread in s.threads && s.threads[event.thread].Timed?
    ensures id == s.threads[event.thread].lease.id
    ensures s.threads[event.thread].readAt < s.threads[event.thread].lease.expiresAt
    ensures Step(config, s, event).1.reply.value.response.lease.remaining
         == s.threads[event.thread].lease.expiresAt - s.threads[event.thread].readAt
  {
  }

  /** A grant hands out the settling thread's own lease, now in the store, with a
      positive remaining time that is truthful: what its expiry left at the reading,
      so never more than one ttl. */
  lemma GrantIsTruthful(config: Config, s: Agent, event: Event, id: LeaseId)
    requires Inv(config, s) && GrantsId(Step(config, s, event).1, id)
    ensures HasFate(s, id.sequence, AwaitingBackend)
    ensures HasFate(Step(config, s, event).0, id.sequence, InStore)
    ensures id in Step(config, s, event).0.store.leases
    ensures id.sequence < |s.issued| && id.issuer == config.instance
    ensures var remaining := Step(config, s, event).1.reply.value.response.lease.remaining;
      && 0 < remaining <= config.leaseTtl
      && s.issued[id.sequence].issuedAt <= s.issued[id.sequence].expiresAt - remaining <= s.clock
  {
    OnlySettlingGrants(config, s, event, id);
    var lease := s.threads[event.thread].lease;
    MintedId(config, s.issued, s.clock, lease);
    SettleEffect(s, event.thread);
    StoredAdds(s.store.leases, lease);
    assert lease.id.sequence in InFlight(s.threads);
  }

  /** No id is ever granted twice. */
  lemma GrantedIdsAreFresh(config: Config, events: seq<Event>, id: LeaseId, j: nat, k: nat)
    requires j < k < |events|
    requires GrantsId(Trace(config, Initial(config), events)[j], id)
    ensures !GrantsId(Trace(config, Initial(config), events)[k], id)
  {
    hide Inv, Step, HasFate, After, Trace;
    var s, m := TwoPoints(config, events, j, k);
    StepKeeps(config, s, events[j]);
    GrantIsTruthful(config, s, events[j], id);
    if GrantsId(Step(config, m, events[k]).1, id) {
      GrantIsTruthful(config, m, events[k], id);
      FateNeverMovesBack(config, Step(config, s, events[j]).0, events[j + 1..k], id.sequence, InStore, AwaitingBackend);
    }
  }

  /** A denial reaches a peer exactly when the gate stopped it, or when there was
      room and policy itself said Deny, and then with policy's own reason. */
  lemma DenialMeansDeny(config: Config, s: Agent, thread: nat, request: ComputeRequest, peer: PeerContext)
    requires Inv(config, s) && ValidConfig(config) && thread !in s.threads
    ensures var output := Step(config, s, RequestLease(thread, request, peer)).1;
      var decision := Decide(config.policy, peer.observed, request);
      (output.reply.Some? && output.reply.value.response.LeaseRefused?) <==>
        (!peer.consistency.Consistent? || (!AtCapacity(Pruned(s).store) && decision.effect == Deny))
    ensures var output := Step(config, s, RequestLease(thread, request, peer)).1;
      peer.consistency.Consistent? && output.reply.Some? && output.reply.value.response.LeaseRefused? ==>
        match Decide(config.policy, peer.observed, request).reason
        case ExplicitDeny(_, _) => output.reply.value.response.reason == DenialExplicit
        case IndeterminateEvidence(_) => output.reply.value.response.reason == DenialIndeterminate
        case NoMatchingRule => output.reply.value.response.reason == DenialNoMatchingRule
        case ExplicitAllow(_) => false
  {
    if peer.consistency.Consistent? {
      IssueAnswersExactly(config, s, ProvenanceRecord(peer.observed, request));
    }
  }

  /** No other event ever answers with a denial. */
  lemma OnlyRequestsAreDenied(config: Config, s: Agent, event: Event)
    requires !event.RequestLease?
    ensures var output := Step(config, s, event).1; !(output.reply.Some? && output.reply.value.response.LeaseRefused?)
  {
  }

  // ----- a grant, and its release

  /** What it takes for a process to be recognised as itself again. */
  predicate Recognisable(workload: WorkloadIdentity) {
    Trusted(workload.processStart) && (Trusted(workload.executableHash) || Trusted(workload.executablePath))
  }

  /** The same process and executable as far as they were observed. Its ids, its ancestors
      and where it runs may have changed since. */
  predicate SameHolder(granted: WorkloadIdentity, presented: WorkloadIdentity) {
    && granted.pid == presented.pid && granted.processStart == presented.processStart
    && granted.executableHash == presented.executableHash && granted.executablePath == presented.executablePath
  }

  /** The holder, with its process and executable observed as at grant time and anything
      else about it changed, can hand its lease back exactly if its own evidence suffices: a grant asks for none of it, so a client without a
      trusted start token or a trusted executable is granted leases it cannot release. */
  lemma HolderMayReleaseExactly(config: Config, s: Agent, event: Event)
    requires Inv(config, s) && event.ReleaseLease?
    requires event.id in s.store.leases && s.store.leases[event.id].expiresAt > s.clock
    requires event.peer.consistency.Consistent?
    requires SameHolder(s.store.leases[event.id].origin.context.workload, event.peer.observed.workload)
    ensures var reply := Step(config, s, event).1.reply;
      reply.Some? && reply.value.response == LeaseReleased(Recognisable(event.peer.observed.workload))
  {
    hide Inv, Step;
    ReleaseAnswersExactly(config, s, event);
    ProcessVerdictExactly(s.store.leases[event.id].origin.context.workload, event.peer.observed.workload);
    ExecutableVerdictExactly(s.store.leases[event.id].origin.context.workload, event.peer.observed.workload);
  }

  /** The lease an Allow mints at this moment. */
  function NextLease(config: Config, s: Agent, origin: ProvenanceRecord): ComputeLease
    requires s.clock + config.leaseTtl < U64_LIMIT
  {
    var decision := Decide(config.policy, origin.context, origin.request);
    ComputeLease(
      LeaseId(config.instance, s.store.issuer.nextSequence), origin, decision.policy, decision.reason,
      s.clock, s.clock + config.leaseTtl)
  }

  lemma RequestMints(config: Config, s: Agent, thread: nat, request: ComputeRequest, peer: PeerContext)
    requires IssuerOk(config, s) && ValidConfig(config) && thread !in s.threads && peer.consistency.Consistent?
    requires !AtCapacity(Pruned(s).store)
    requires Decide(config.policy, peer.observed, request).effect == Allow && s.clock + config.leaseTtl < U64_LIMIT
    ensures StepRequest(config, s, thread, request, peer).0
         == Mint(Pruned(s), thread, NextLease(config, s, ProvenanceRecord(peer.observed, request)))
  {
  }

  /** A grant in flight that nothing interrupts any more. */
  lemma FlightCompletes(m: Agent, thread: nat, lease: ComputeLease)
    requires thread in m.threads && m.threads[thread] == Enforcing(lease) && lease.expiresAt > m.clock
    ensures var enforced := StepEnforceReturns(m, thread, Ok(Allowed)).0;
      var timed := StepReadClock(enforced, thread).0;
      StepSettle(timed, thread) ==
        (m.(store := Insert(m.store, lease), threads := m.threads - {thread}),
         Output([], Some(Reply(Granted(lease.id, lease.expiresAt), LeaseGranted(LeaseView(lease.id, lease.expiresAt - m.clock))))))
  {
    var enforced := StepEnforceReturns(m, thread, Ok(Allowed)).0;
    var timed := StepReadClock(enforced, thread).0;
    assert timed == m.(threads := m.threads[thread := Timed(lease, m.clock)]);
    assert timed.threads - {thread} == m.threads - {thread};
  }

  /** The four events of one grant, back to back. */
  function GrantAlone(config: Config, s: Agent, thread: nat, request: ComputeRequest, peer: PeerContext): (Agent, Output) {
    var requested := StepRequest(config, s, thread, request, peer).0;
    var enforced := StepEnforceReturns(requested, thread, Ok(Allowed)).0;
    var timed := StepReadClock(enforced, thread).0;
    StepSettle(timed, thread)
  }

  lemma MintThenInsert(p: Agent, thread: nat, lease: ComputeLease)
    requires thread !in p.threads
    ensures var m := Mint(p, thread, lease);
      && Insert(m.store, lease) == p.store.(
           leases := p.store.leases[lease.id := lease],
           issuer := p.store.issuer.(nextSequence := p.store.issuer.nextSequence + 1))
      && m.threads - {thread} == p.threads && m.clock == p.clock
  {
  }

  lemma NextIdIsNew(config: Config, s: Agent, id: LeaseId)
    requires Inv(config, s) && id.sequence >= s.store.issuer.nextSequence
    ensures id !in s.store.leases
  {
    assert forall stored :: stored in s.store.leases ==> Minted(s.issued, s.store.leases[stored]);
  }

  /** `g` is `s` after one more grant and nothing else but pruning. */
  ghost predicate OneGrantLater(s: Agent, g: Agent, lease: ComputeLease) {
    && lease.id.sequence == s.store.issuer.nextSequence
    && g.store == Pruned(s).store.(
         leases := Pruned(s).store.leases[lease.id := lease],
         issuer := s.store.issuer.(nextSequence := s.store.issuer.nextSequence + 1))
    && g.threads == s.threads && g.clock == s.clock
  }

  /** A grant nothing interrupts: with room, an Allow and no overflow, an allowing
      backend and no time passing, the requester gets one full ttl under the next id,
      and reservations and threads are as they were. */
  lemma UninterruptedGrant(config: Config, s: Agent, thread: nat, request: ComputeRequest, peer: PeerContext)
    requires IssuerOk(config, s) && ValidConfig(config) && thread !in s.threads && peer.consistency.Consistent?
    requires !AtCapacity(Pruned(s).store)
    requires Decide(config.policy, peer.observed, request).effect == Allow && s.clock + config.leaseTtl < U64_LIMIT
    ensures var lease := NextLease(config, s, ProvenanceRecord(peer.observed, request));
      var (granted, output) := GrantAlone(config, s, thread, request, peer);
      && output.reply == Some(Reply(Granted(lease.id, lease.expiresAt), LeaseGranted(LeaseView(lease.id, config.leaseTtl))))
      && OneGrantLater(s, granted, lease)
  {
    var lease := NextLease(config, s, ProvenanceRecord(peer.observed, request));
    RequestMints(config, s, thread, request, peer);
    FlightCompletes(Mint(Pruned(s), thread, lease), thread, lease);
    MintThenInsert(Pruned(s), thread, lease);
  }

  lemma WithoutTheNewest(live: map<LeaseId, ComputeLease>, lease: ComputeLease, now: u64)
    requires lease.id !in live && lease.expiresAt > now && live == Unexpired(live, now)
    ensures Unexpired(live[lease.id := lease], now) - {lease.id} == live
  {
  }

  lemma RetireUndoes(s: Agent, g: Agent, lease: ComputeLease)
    requires OneGrantLater(s, g, lease) && lease.id !in s.store.leases && lease.expiresAt > s.clock
    ensures Retire(Pruned(g), lease.id).store == Pruned(s).store.(issuer := s.store.issuer.(
      nextSequence := lease.id.sequence + 1, revoked := s.store.issuer.revoked + {lease.id.sequence}))
    ensures lease.id in g.store.leases && g.store.leases[lease.id] == lease
  {
    WithoutTheNewest(Pruned(s).store.leases, lease, s.clock);
  }

  /** Releasing undoes granting: afterwards the store and the reservations are what
      pruning alone would have left, except that the number is spent and withdrawn; and
      the backend was told to revoke exactly if nothing live named the resource before. */
  lemma ReleaseUndoesGrant(config: Config, s: Agent, g: Agent, lease: ComputeLease, event: Event)
    requires Inv(config, s) && Inv(config, g) && OneGrantLater(s, g, lease) && lease.expiresAt > s.clock
    requires event.ReleaseLease? && event.id == lease.id && MayRelease(g, lease.id, event.peer)
    ensures var (released, output) := Step(config, g, event);
      && released.store == Pruned(s).store.(issuer := s.store.issuer.(
           nextSequence := lease.id.sequence + 1, revoked := s.store.issuer.revoked + {lease.id.sequence}))
      && output.calls == if NamesResource(Pruned(s).store.leases, lease.origin.request.resource) then []
                         else [RevokeCall(lease.origin.request.resource)]
  {
    hide Inv, Step, Retire;
    NextIdIsNew(config, s, lease.id);
    RetireUndoes(s, g, lease);
    ReleaseAnswersExactly(config, g, event);
    RevokeOnLastRelease(config, g, event);
  }
}
