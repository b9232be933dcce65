/** Runs of the authority that show what does not hold, each in a setting where one rule
    allows one client one resource. */
module AuthorityRuns {
  import opened Prelude
  import opened Identity
  import opened Resource
  import opened Peer
  import opened Policy
  import opened Lease
  import opened LeaseStore
  import opened Authority
  import opened AuthorityInvariant
  import opened AuthorityProperties
  import opened AuthorityEnforcement

  // ----- the setting

  const GPU: ResourceIdentity := ResourceIdentity("fake", "gpu", "0")
  const USE: ComputeRequest := ComputeRequest(GPU, Compute)
  const RULE: Rule := Rule("members", Allow, GPU, Compute, [Gid(EvidenceMatch(5, FloorBestEffort))])
  const SETTING: Config := Config("agent", PolicyDocument("p", 1, [RULE]), 10, 2)

  /** A client of the allowed group whose start token is observed as given. */
  function ClientWith(start: Evidence<u64>): PeerContext {
    PeerContext(
      PeerCredential(1, 9, 5),
      Consistent,
      ExecutionContext(
        WorkloadIdentity(
          1, start, Present(9, KernelObserved), Present(5, KernelObserved), Present("/opt/workload", KernelObserved), Unsupported, []),
        Unsupported, Unsupported, Unsupported, Unsupported))
  }

  lemma TheRuleAllows(start: Evidence<u64>)
    ensures Decide(SETTING.policy, ClientWith(start).observed, USE).effect == Allow
  {
    var context := ClientWith(start).observed;
    SingleCondition(RULE, context);
    AllowExactly(SETTING.policy, context, USE);
    assert SETTING.policy.rules == [RULE];
    assert RULE in SETTING.policy.rules && Fires(RULE, Allow, Matched, context, USE);
  }

  // ----- stepping through a list of events

  lemma NextState(config: Config, events: seq<Event>, k: nat)
    requires k < |events|
    ensures StateAt(config, events, k + 1) == Step(config, StateAt(config, events, k), events[k]).0
    ensures Trace(config, Initial(config), events)[k] == Step(config, StateAt(config, events, k), events[k]).1
  {
    TraceAt(config, Initial(config), events, k);
  }

  /** The two events that bring a grant past its enforce call, starting at `at`. */
  predicate Enforcement(events: seq<Event>, at: nat, thread: nat, peer: PeerContext) {
    at + 2 <= |events| && events[at] == RequestLease(thread, USE, peer) && events[at + 1] == EnforceReturns(thread, Ok(Allowed))
  }

  /** The two events that complete it. */
  predicate Completion(events: seq<Event>, at: nat, thread: nat) {
    at + 2 <= |events| && events[at] == ReadClock(thread) && events[at + 1] == Settle(thread)
  }

  /** A state that can take one more request from the client. */
  ghost predicate Open(s: Agent, thread: nat) {
    thread !in s.threads && |Pruned(s).store.leases| + s.store.reserved < 2 && s.clock + 10 < U64_LIMIT
  }

  lemma GrantPassesEnforcement(events: seq<Event>, at: nat, thread: nat, start: Evidence<u64>) returns (lease: ComputeLease)
    requires Enforcement(events, at, thread, ClientWith(start)) && Open(StateAt(SETTING, events, at), thread)
    ensures var s := StateAt(SETTING, events, at);
      && lease == NextLease(SETTING, s, ProvenanceRecord(ClientWith(start).observed, USE))
      && var m := Mint(Pruned(s), thread, lease);
         StateAt(SETTING, events, at + 2) == m.(threads := s.threads[thread := Enforced(lease)])
    ensures EnforcesAt(SETTING, events, at + 1, GPU)
  {
    hide Step, StateAt, Inv, NextLease;
    var s := StateAt(SETTING, events, at);
    TheRuleAllows(start);
    ReachesInv(SETTING, events, at);
    InvIssuer(SETTING, s);
    NextState(SETTING, events, at);
    NextState(SETTING, events, at + 1);
    lease := NextLease(SETTING, s, ProvenanceRecord(ClientWith(start).observed, USE));
    TwoSteps(SETTING, s, events[at], events[at + 1], thread, ClientWith(start), lease);
  }

  lemma TwoSteps(config: Config, s: Agent, request: Event, allowed: Event, thread: nat, peer: PeerContext, lease: ComputeLease)
    requires IssuerOk(config, s) && ValidConfig(config) && thread !in s.threads && peer.consistency.Consistent?
    requires !AtCapacity(Pruned(s).store)
    requires Decide(config.policy, peer.observed, USE).effect == Allow && s.clock + config.leaseTtl < U64_LIMIT
    requires lease == NextLease(config, s, ProvenanceRecord(peer.observed, USE))
    requires request == RequestLease(thread, USE, peer) && allowed == EnforceReturns(thread, Ok(Allowed))
    ensures var m := Step(config, s, request).0;
      && Enforces(m, allowed, GPU)
      && Step(config, m, allowed).0 == Mint(Pruned(s), thread, lease).(threads := s.threads[thread := Enforced(lease)])
  {
    RequestMints(config, s, thread, USE, peer);
  }

  lemma GrantCompletes(events: seq<Event>, at: nat, thread: nat, lease: ComputeLease)
    requires Completion(events, at, thread)
    requires var s := StateAt(SETTING, events, at);
      thread in s.threads && s.threads[thread] == Enforced(lease) && lease.expiresAt > s.clock
    ensures var s := StateAt(SETTING, events, at);
      && StateAt(SETTING, events, at + 2) == s.(store := Insert(s.store, lease), threads := s.threads - {thread})
      && Trace(SETTING, Initial(SETTING), events)[at + 1]
           == Output([], Some(Reply(Granted(lease.id, lease.expiresAt), LeaseGranted(LeaseView(lease.id, lease.expiresAt - s.clock)))))
  {
    hide StateAt, Inv;
    NextState(SETTING, events, at);
    NextState(SETTING, events, at + 1);
    ReadThenSettle(StateAt(SETTING, events, at), thread, lease);
  }

  lemma ReadThenSettle(s: Agent, thread: nat, lease: ComputeLease)
    requires thread in s.threads && s.threads[thread] == Enforced(lease) && lease.expiresAt > s.clock
    ensures StepSettle(StepReadClock(s, thread).0, thread) ==
      (s.(store := Insert(s.store, lease), threads := s.threads - {thread}),
       Output([], Some(Reply(Granted(lease.id, lease.expiresAt), LeaseGranted(LeaseView(lease.id, lease.expiresAt - s.clock))))))
  {
    var timed := StepReadClock(s, thread).0;
    assert timed == s.(threads := s.threads[thread := Timed(lease, s.clock)]);
    assert timed.threads - {thread} == s.threads - {thread};
  }

  /** The client hands back a live lease of its own. */
  lemma ReleasedNow(events: seq<Event>, at: nat, id: LeaseId)
    requires at < |events| && events[at].ReleaseLease? && events[at].id == id && MayRelease(StateAt(SETTING, events, at), id, events[at].peer)
    ensures StateAt(SETTING, events, at + 1) == Retire(Pruned(StateAt(SETTING, events, at)), id)
    ensures var resource := StateAt(SETTING, events, at).store.leases[id].origin.request.resource;
      RevokesAt(SETTING, events, at, resource) <==> !NamesResource(StateAt(SETTING, events, at + 1).store.leases, resource)
  {
    hide StateAt, Step, Inv, MayRelease;
    ReachesInv(SETTING, events, at);
    NextState(SETTING, events, at);
    ReleaseAnswersExactly(SETTING, StateAt(SETTING, events, at), events[at]);
    RevokeOnLastRelease(SETTING, StateAt(SETTING, events, at), events[at]);
  }

  lemma FirstLease(events: seq<Event>, start: Evidence<u64>)
    ensures StateAt(SETTING, events, 0) == Initial(SETTING) && Pruned(Initial(SETTING)).store.leases == map[]
    ensures var lease := NextLease(SETTING, Initial(SETTING), ProvenanceRecord(ClientWith(start).observed, USE));
      lease.id == LeaseId("agent", 0) && lease.origin == ProvenanceRecord(ClientWith(start).observed, USE) && lease.expiresAt == 10
  {
    assert events[..0] == [];
  }

  /** The first grant of all. */
  lemma FirstGrant(events: seq<Event>, thread: nat, start: Evidence<u64>) returns (lease: ComputeLease)
    requires Enforcement(events, 0, thread, ClientWith(start)) && Completion(events, 2, thread)
    ensures lease.id == LeaseId("agent", 0) && lease.origin == ProvenanceRecord(ClientWith(start).observed, USE) && lease.expiresAt == 10
    ensures var s := StateAt(SETTING, events, 4);
      && s.store.leases == map[lease.id := lease] && s.threads == map[] && s.clock == 0 && s.store.reserved == 0
      && s.store.issuer.nextSequence == 1
    ensures Trace(SETTING, Initial(SETTING), events)[3]
      == Output([], Some(Reply(Granted(lease.id, 10), LeaseGranted(LeaseView(lease.id, 10)))))
    ensures EnforcesAt(SETTING, events, 1, GPU)
  {
    hide Step, Inv, Enforces, Trace, StateAt, NextLease;
    FirstLease(events, start);
    lease := GrantPassesEnforcement(events, 0, thread, start);
    GrantCompletes(events, 2, thread, lease);
  }

  // ----- a lease its holder cannot hand back

  /** A client whose start token could not be read is granted a lease and, observed just
      the same, refused when it hands it back. */
  lemma GrantedWithoutWayBack() returns (events: seq<Event>, id: LeaseId, client: PeerContext)
    ensures |events| == 5 && events[4].ReleaseLease? && events[4].id == id && events[4].peer == client
    ensures client.consistency.Consistent? && !Recognisable(client.observed.workload)
    ensures var trace := Trace(SETTING, Initial(SETTING), events);
      && trace[3].reply.Some? && trace[3].reply.value.response == LeaseGranted(LeaseView(id, 10))
      && trace[4].reply.Some? && trace[4].reply.value.response == LeaseReleased(false)
  {
    hide Step, StateAt, Inv, Trace;
    var start := Missing("unreadable");
    client := ClientWith(start);
    id := LeaseId("agent", 0);
    events := [
      RequestLease(0, USE, client), EnforceReturns(0, Ok(Allowed)), ReadClock(0), Settle(0), ReleaseLease(id, client, Ok(Allowed))];
    var lease := FirstGrant(events, 0, start);
    ReachesInv(SETTING, events, 4);
    HolderMayReleaseExactly(SETTING, StateAt(SETTING, events, 4), events[4]);
    NextState(SETTING, events, 4);
  }

  // ----- a live lease whose enforcement is gone

  const START: Evidence<u64> := Present(7, KernelObserved)

  function Overtaken(): seq<Event> {
    var client := ClientWith(START);
    [RequestLease(0, USE, client), EnforceReturns(0, Ok(Allowed)), ReadClock(0), Settle(0),
     RequestLease(1, USE, client), EnforceReturns(1, Ok(Allowed)),
     ReleaseLease(LeaseId("agent", 0), client, Ok(Allowed)),
     ReadClock(1), Settle(1)]
  }

  /** A second grant is past its enforce call when the first lease goes back: no stored
      lease names the resource, it is revoked, and then the second lease is stored, live,
      granted, and no longer enforced. */
  lemma GrantedButRevoked() returns (id: LeaseId)
    ensures var s := StateAt(SETTING, Overtaken(), 9);
      Live(s, id) && s.store.leases[id].origin.request.resource == GPU
    ensures EnforcesAt(SETTING, Overtaken(), 5, GPU) && RevokesAt(SETTING, Overtaken(), 6, GPU)
    ensures !Stands(SETTING, Overtaken(), GPU)
  {
    hide Step, StateAt, Inv, Trace, Stands, Revokes;
    var events := Overtaken();
    var first := FirstGrant(events, 0, START);
    var second := SecondPastFirst(events, first);
    id := second.id;
    GrantCompletes(events, 7, 1, second);
    RevokeIsNoEnforce(SETTING, events, 6, GPU);
    StaysDown(SETTING, events, GPU, 6);
  }

  lemma NextOf(s: Agent)
    requires s.clock == 0 && s.store.issuer.nextSequence == 1
    ensures var lease := NextLease(SETTING, s, ProvenanceRecord(ClientWith(START).observed, USE));
      lease.id == LeaseId("agent", 1) && lease.expiresAt == 10 && lease.origin.request == USE
  {
  }

  lemma OnlyLease(s: Agent, lease: ComputeLease)
    requires s.store.leases == map[lease.id := lease]
    ensures Pruned(s).store.leases == if lease.expiresAt > s.clock then s.store.leases else map[]
    ensures lease.expiresAt > s.clock ==> Live(s, lease.id)
    ensures forall id :: Live(s, id) ==> id == lease.id
  {
  }

  lemma RetireOnly(m: Agent, lease: ComputeLease)
    requires m.store.leases == map[lease.id := lease] && lease.expiresAt > m.clock
    ensures var n := Retire(Pruned(m), lease.id);
      && n.store.leases == map[] && n.threads == m.threads && n.clock == m.clock && n.store.reserved == m.store.reserved
      && n.store.issuer.nextSequence == m.store.issuer.nextSequence
  {
    assert map[lease.id := lease] - {lease.id} == map[];
  }

  lemma SecondPastFirst(events: seq<Event>, first: ComputeLease) returns (second: ComputeLease)
    requires |events| >= 7 && events[..7] == Overtaken()[..7]
    requires first.id == LeaseId("agent", 0) && first.origin == ProvenanceRecord(ClientWith(START).observed, USE) && first.expiresAt == 10
    requires var s := StateAt(SETTING, events, 4);
      && s.store.leases == map[first.id := first] && s.threads == map[] && s.clock == 0 && s.store.reserved == 0
      && s.store.issuer.nextSequence == 1
    ensures second.id == LeaseId("agent", 1) && second.origin.request == USE && second.expiresAt == 10
    ensures var s := StateAt(SETTING, events, 7);
      && s.store.leases == map[] && s.threads == map[1 := Enforced(second)] && s.clock == 0
      && s.store.reserved == 1 && s.store.issuer.nextSequence == 2
    ensures EnforcesAt(SETTING, events, 5, GPU) && RevokesAt(SETTING, events, 6, GPU)
  {
    hide Step, StateAt, Inv, Revokes, Enforces, NextLease, Retire, Live;
    assert forall k :: 0 <= k < 7 ==> events[k] == events[..7][k] == Overtaken()[..7][k];
    OnlyLease(StateAt(SETTING, events, 4), first);
    NextOf(StateAt(SETTING, events, 4));
    second := GrantPassesEnforcement(events, 4, 1, START);
    ReleasedNow(events, 6, first.id);
    RetireOnly(StateAt(SETTING, events, 6), first);
  }

  // ----- a resource standing with nobody to hold it

  function LeftAlone(): seq<Event> {
    [RequestLease(0, USE, ClientWith(START)), EnforceReturns(0, Ok(Allowed)), ReadClock(0), Settle(0), Tick(10)]
  }

  lemma {:induction false} StaysUp(config: Config, events: seq<Event>, resource: ResourceIdentity, e: nat)
    requires e < |events| && EnforcesAt(config, events, e, resource)
    requires forall i :: e < i < |events| ==> !RevokesAt(config, events, i, resource)
    ensures Stands(config, events, resource)
    decreases |events|
  {
    hide Enforces, Revokes, StateAt;
    var n := |events| - 1;
    if e < n && !EnforcesAt(config, events, n, resource) {
      forall i | 0 <= i < n
        ensures EnforcesAt(config, events[..n], i, resource) <==> EnforcesAt(config, events, i, resource)
        ensures RevokesAt(config, events[..n], i, resource) <==> RevokesAt(config, events, i, resource)
      {
        PrefixAt(config, events, n, i);
      }
      StaysUp(config, events[..n], resource, e);
    }
  }

  /** A lease runs out: nobody holds the resource any more, and it still stands enforced. */
  lemma ExpiredButStanding()
    ensures !Held(StateAt(SETTING, LeftAlone(), 5), GPU) && Stands(SETTING, LeftAlone(), GPU)
  {
    hide Step, StateAt, Inv, Trace, Stands, Enforces;
    var events := LeftAlone();
    var lease := FirstGrant(events, 0, START);
    TickedNow(events, 4, 10);
    forall i | 1 < i < 5
      ensures !RevokesAt(SETTING, events, i, GPU)
    {
      NotRevokedAt(events, i);
    }
    StaysUp(SETTING, events, GPU, 1);
  }

  lemma NotRevokedAt(events: seq<Event>, i: nat)
    requires i < |events| && !events[i].ReleaseLease?
    ensures !RevokesAt(SETTING, events, i, GPU)
  {
    OnlyReleasesRevoke(SETTING, StateAt(SETTING, events, i), events[i], GPU);
  }

  lemma TickedNow(events: seq<Event>, at: nat, elapsed: nat)
    requires at < |events| && events[at] == Tick(elapsed)
    ensures var s := StateAt(SETTING, events, at); StateAt(SETTING, events, at + 1) == s.(clock := Advance(s.clock, elapsed))
  {
    hide StateAt;
    NextState(SETTING, events, at);
  }

  // ----- other holders matter

  function TakenUpAgain(): seq<Event> {
    var client := ClientWith(START);
    [RequestLease(0, USE, client), EnforceReturns(0, Ok(Allowed)), ReadClock(0), Settle(0),
     RequestLease(1, USE, client), EnforceReturns(1, Ok(Allowed)),
     ReleaseLease(LeaseId("agent", 0), client, Ok(Allowed)),
     ReadClock(1), Settle(1),
     RequestLease(2, USE, client), EnforceReturns(2, Ok(Allowed))]
  }

  lemma MintedStore(s: Agent, thread: nat, lease: ComputeLease, threads: map<nat, Phase>)
    ensures var n := Mint(Pruned(s), thread, lease).(threads := threads);
      n.store.leases == Pruned(s).store.leases && n.clock == s.clock
  {
  }

  lemma ThirdPastSecond(events: seq<Event>, second: ComputeLease)
    requires |events| == 11 && Enforcement(events, 9, 2, ClientWith(START)) && second.expiresAt == 10
    requires var s := StateAt(SETTING, events, 9);
      s.store.leases == map[second.id := second] && s.threads == map[] && s.clock == 0 && s.store.reserved == 0
    ensures EnforcesAt(SETTING, events, 10, GPU)
    ensures var s := StateAt(SETTING, events, 11); s.store.leases == map[second.id := second] && s.clock == 0
  {
    hide Step, StateAt, Inv, Enforces, NextLease, Mint, Live;
    var s := StateAt(SETTING, events, 9);
    OnlyLease(s, second);
    var third := GrantPassesEnforcement(events, 9, 2, START);
    MintedStore(s, 2, third, s.threads[2 := Enforced(third)]);
  }

  /** After the same overtaking a third grant gets past its enforce call: the live lease
      whose own enforcement was revoked stands enforced again, by a grant not its own. */
  lemma EnforcedByAnother() returns (id: LeaseId)
    ensures var s := StateAt(SETTING, TakenUpAgain(), 11);
      Live(s, id) && s.store.leases[id].origin.request.resource == GPU && forall other :: Live(s, other) ==> other == id
    ensures EnforcesAt(SETTING, TakenUpAgain(), 5, GPU) && RevokesAt(SETTING, TakenUpAgain(), 6, GPU)
    ensures Stands(SETTING, TakenUpAgain(), GPU)
  {
    hide Step, StateAt, Inv, Trace, Stands, Revokes, Enforces, Live, NextLease, Mint;
    var events := TakenUpAgain();
    assert events[..7] == Overtaken()[..7];
    var first := FirstGrant(events, 0, START);
    var second := SecondPastFirst(events, first);
    id := second.id;
    GrantCompletes(events, 7, 1, second);
    ThirdPastSecond(events, second);
    OnlyLease(StateAt(SETTING, events, 11), second);
    StaysUp(SETTING, events, GPU, 10);
  }

  function OneBackOneExpired(): seq<Event> {
    var client := ClientWith(START);
    [RequestLease(0, USE, client), EnforceReturns(0, Ok(Allowed)), ReadClock(0), Settle(0),
     RequestLease(1, USE, client), EnforceReturns(1, Ok(Allowed)), ReadClock(1), Settle(1),
     ReleaseLease(LeaseId("agent", 0), client, Ok(Allowed)), Tick(10)]
  }

  lemma TwoStored(events: seq<Event>) returns (first: ComputeLease, second: ComputeLease)
    requires events == OneBackOneExpired()
    ensures first.id == LeaseId("agent", 0) && first.origin == ProvenanceRecord(ClientWith(START).observed, USE) && first.expiresAt == 10
    ensures second.id == LeaseId("agent", 1) && second.expiresAt == 10 && second.origin.request == USE
    ensures var s := StateAt(SETTING, events, 8);
      s.store.leases == map[first.id := first, second.id := second] && s.threads == map[] && s.clock == 0
    ensures EnforcesAt(SETTING, events, 1, GPU)
  {
    hide Step, StateAt, Inv, Trace, Enforces, NextLease, Live;
    first := FirstGrant(events, 0, START);
    OnlyLease(StateAt(SETTING, events, 4), first);
    NextOf(StateAt(SETTING, events, 4));
    second := GrantPassesEnforcement(events, 4, 1, START);
    GrantCompletes(events, 6, 1, second);
  }

  lemma RetireFirst(s: Agent, first: ComputeLease, second: ComputeLease)
    requires s.store.leases == map[first.id := first, second.id := second] && first.id != second.id
    requires first.expiresAt > s.clock && second.expiresAt > s.clock
    ensures var n := Retire(Pruned(s), first.id);
      && n.store.leases == map[second.id := second] && n.threads == s.threads && n.clock == s.clock
      && first.id.sequence in n.store.issuer.revoked
  {
    assert Pruned(s).store.leases == s.store.leases;
    assert s.store.leases - {first.id} == map[second.id := second];
  }

  /** One holder goes by release while another is stored, and that one by expiring: the
      resource is left standing although not every holder expired. */
  lemma ReleasedThenExpired()
    ensures var s := StateAt(SETTING, OneBackOneExpired(), 10); !Held(s, GPU) && 0 in s.store.issuer.revoked
    ensures Stands(SETTING, OneBackOneExpired(), GPU)
    ensures forall i :: 0 <= i < 10 ==> !RevokesAt(SETTING, OneBackOneExpired(), i, GPU)
  {
    hide Step, StateAt, Inv, Trace, Stands, Revokes, Enforces, Retire;
    var events := OneBackOneExpired();
    var first, second := TwoStored(events);
    ReleasedNow(events, 8, first.id);
    RetireFirst(StateAt(SETTING, events, 8), first, second);
    assert StateAt(SETTING, events, 9).store.leases[second.id].origin.request.resource == GPU;
    TickedNow(events, 9, 10);
    forall i | 0 <= i < 10 && i != 8
      ensures !RevokesAt(SETTING, events, i, GPU)
    {
      NotRevokedAt(events, i);
    }
    StaysUp(SETTING, events, GPU, 1);
  }
}
