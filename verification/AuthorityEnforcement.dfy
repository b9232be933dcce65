/** What stands at the backend, against what the leases say. Enforcing happens before a
    lease is stored and outside the lock, a release counts only stored leases, and pruning
    calls nobody; so the two can come apart, in exactly the ways proved here. */
module AuthorityEnforcement {
  import opened Prelude
  import opened Resource
  import opened Lease
  import opened Authority
  import opened AuthorityInvariant
  import opened AuthorityProperties

  // ----- what stands at the backend

  /** The backend allows an enforce call for the resource. */
  predicate Enforces(s: Agent, event: Event, resource: ResourceIdentity) {
    && event.EnforceReturns? && event.answer == Ok(Allowed)
    && event.thread in s.threads && s.threads[event.thread].Enforcing?
    && s.threads[event.thread].lease.origin.request.resource == resource
  }

  predicate Revokes(config: Config, s: Agent, event: Event, resource: ResourceIdentity) {
    RevokeCall(resource) in Step(config, s, event).1.calls
  }

  function StateAt(config: Config, events: seq<Event>, k: nat): Agent
    requires k <= |events|
  {
    After(config, Initial(config), events[..k])
  }

  predicate EnforcesAt(config: Config, events: seq<Event>, k: nat, resource: ResourceIdentity)
    requires k < |events|
  {
    Enforces(StateAt(config, events, k), events[k], resource)
  }

  predicate RevokesAt(config: Config, events: seq<Event>, k: nat, resource: ResourceIdentity)
    requires k < |events|
  {
    Revokes(config, StateAt(config, events, k), events[k], resource)
  }

  /** The last call that concerns the resource was an allowed enforce call. */
  function Stands(config: Config, events: seq<Event>, resource: ResourceIdentity): bool
    decreases |events|
  {
    if events == [] then false
    else
      var k := |events| - 1;
      if EnforcesAt(config, events, k, resource) then true
      else if RevokesAt(config, events, k, resource) then false
      else Stands(config, events[..k], resource)
  }

  lemma PrefixAt(config: Config, events: seq<Event>, n: nat, k: nat)
    requires k <= n <= |events|
    ensures StateAt(config, events[..n], k) == StateAt(config, events, k)
    ensures k < n ==> events[..n][k] == events[k]
  {
    assert events[..n][..k] == events[..k];
  }

  lemma OneMore(config: Config, events: seq<Event>)
    requires events != []
    ensures var k := |events| - 1;
      StateAt(config, events, |events|) == Step(config, StateAt(config, events, k), events[k]).0
  {
    assert events[..|events|] == events;
    assert events[..|events|][..|events| - 1] == events[..|events| - 1];
  }

  lemma ReachesInv(config: Config, events: seq<Event>, k: nat)
    requires k <= |events|
    ensures Inv(config, StateAt(config, events, k))
  {
    ReachableInv(config, events[..k]);
  }

  /** A resource that once was enforced no longer stands exactly if some revoke call has
      had the last word. */
  lemma {:induction false} LastWord(config: Config, events: seq<Event>, resource: ResourceIdentity, e: nat) returns (k: nat)
    requires e < |events| && EnforcesAt(config, events, e, resource) && !Stands(config, events, resource)
    ensures e < k < |events| && RevokesAt(config, events, k, resource)
    ensures forall i :: k < i < |events| ==> !EnforcesAt(config, events, i, resource)
    decreases |events|
  {
    hide Enforces, Revokes, StateAt;
    var n := |events| - 1;
    if RevokesAt(config, events, n, resource) {
      k := n;
    } else {
      forall i | 0 <= i < n
        ensures EnforcesAt(config, events[..n], i, resource) <==> EnforcesAt(config, events, i, resource)
        ensures RevokesAt(config, events[..n], i, resource) <==> RevokesAt(config, events, i, resource)
      {
        PrefixAt(config, events, n, i);
      }
      k := LastWord(config, events[..n], resource, e);
    }
  }

  lemma {:induction false} StaysDown(config: Config, events: seq<Event>, resource: ResourceIdentity, k: nat)
    requires k < |events| && RevokesAt(config, events, k, resource) && !EnforcesAt(config, events, k, resource)
    requires forall i :: k < i < |events| ==> !EnforcesAt(config, events, i, resource)
    ensures !Stands(config, events, resource)
    decreases |events|
  {
    hide Enforces, Revokes, StateAt;
    var n := |events| - 1;
    if k < n {
      forall i | 0 <= i < n
        ensures EnforcesAt(config, events[..n], i, resource) <==> EnforcesAt(config, events, i, resource)
        ensures RevokesAt(config, events[..n], i, resource) <==> RevokesAt(config, events, i, resource)
      {
        PrefixAt(config, events, n, i);
      }
      StaysDown(config, events[..n], resource, k);
    }
  }

  // ----- a stored lease, and the two moments behind it

  /** The allowed enforce call of this number's own grant. */
  predicate EnforcedAt(config: Config, events: seq<Event>, e: nat, sequence: nat, resource: ResourceIdentity)
    requires e < |events|
  {
    && EnforcesAt(config, events, e, resource)
    && StateAt(config, events, e).threads[events[e].thread].lease.id.sequence == sequence
  }

  ghost predicate GrantedAt(config: Config, events: seq<Event>, t: nat, id: LeaseId)
    requires t < |events|
  {
    GrantsId(Step(config, StateAt(config, events, t), events[t]).1, id)
  }

  /** The lease's enforce call is somewhere behind us. */
  ghost predicate WasEnforced(config: Config, events: seq<Event>, lease: ComputeLease) {
    exists e :: 0 <= e < |events| && EnforcedAt(config, events, e, lease.id.sequence, lease.origin.request.resource)
  }

  /** Its enforce call and then its grant are behind us, and since the grant nothing has
      revoked the resource if the lease is still live. */
  ghost predicate WasGranted(config: Config, events: seq<Event>, lease: ComputeLease, live: bool) {
    exists e, t :: Behind(config, events, lease, live, e, t)
  }

  ghost predicate Behind(config: Config, events: seq<Event>, lease: ComputeLease, live: bool, e: nat, t: nat) {
    && e < t < |events|
    && EnforcedAt(config, events, e, lease.id.sequence, lease.origin.request.resource)
    && GrantedAt(config, events, t, lease.id)
    && (live ==> forall j :: t <= j < |events| ==> !RevokesAt(config, events, j, lease.origin.request.resource))
  }

  ghost predicate PastEnforcing(phase: Phase) { phase.Enforced? || phase.Timed? }

  ghost predicate Live(s: Agent, id: LeaseId) { id in s.store.leases && s.store.leases[id].expiresAt > s.clock }

  ghost predicate Recorded(config: Config, events: seq<Event>) {
    var s := StateAt(config, events, |events|);
    && (forall thread :: thread in s.threads && PastEnforcing(s.threads[thread]) ==> WasEnforced(config, events, s.threads[thread].lease))
    && (forall id :: id in s.store.leases ==> WasGranted(config, events, s.store.leases[id], Live(s, id)))
  }

  lemma MomentsStay(config: Config, events: seq<Event>, n: nat, k: nat)
    requires k < n <= |events|
    ensures forall sequence, resource :: EnforcedAt(config, events[..n], k, sequence, resource) <==> EnforcedAt(config, events, k, sequence, resource)
    ensures forall id :: GrantedAt(config, events[..n], k, id) <==> GrantedAt(config, events, k, id)
    ensures forall resource :: RevokesAt(config, events[..n], k, resource) <==> RevokesAt(config, events, k, resource)
  {
    PrefixAt(config, events, n, k);
  }

  lemma StillEnforced(config: Config, events: seq<Event>, lease: ComputeLease)
    requires events != [] && WasEnforced(config, events[..|events| - 1], lease)
    ensures WasEnforced(config, events, lease)
  {
    hide EnforcedAt;
    var e :| 0 <= e < |events| - 1 && EnforcedAt(config, events[..|events| - 1], e, lease.id.sequence, lease.origin.request.resource);
    MomentsStay(config, events, |events| - 1, e);
  }

  lemma StillGranted(config: Config, events: seq<Event>, lease: ComputeLease, before: bool, live: bool)
    requires events != [] && WasGranted(config, events[..|events| - 1], lease, before) && (live ==> before)
    requires live ==> !RevokesAt(config, events, |events| - 1, lease.origin.request.resource)
    ensures WasGranted(config, events, lease, live)
  {
    hide EnforcedAt, GrantedAt, RevokesAt;
    var n := |events| - 1;
    var e, t :| Behind(config, events[..n], lease, before, e, t);
    MomentsStay(config, events, n, e);
    MomentsStay(config, events, n, t);
    forall j | 0 <= j < n
      ensures RevokesAt(config, events, j, lease.origin.request.resource) <==> RevokesAt(config, events[..n], j, lease.origin.request.resource)
    {
      MomentsStay(config, events, n, j);
    }
    assert Behind(config, events, lease, live, e, t);
  }

  /** Where a thread past its enforce call comes from. */
  lemma PastEnforcingComesFrom(config: Config, s: Agent, event: Event, thread: nat)
    requires Inv(config, s)
    requires var n := Step(config, s, event).0; thread in n.threads && PastEnforcing(n.threads[thread])
    ensures var n := Step(config, s, event).0;
      && thread in s.threads && s.threads[thread].lease == n.threads[thread].lease
      && (PastEnforcing(s.threads[thread]) || (event.EnforceReturns? && event.thread == thread && Enforces(s, event, n.threads[thread].lease.origin.request.resource)))
  {
    hide Inv;
    if event.RequestLease? {
      assert IssuerOk(config, s) by { InvIssuer(config, s); }
      RequestEffect(config, s, event.thread, event.request, event.peer);
    }
  }

  lemma InvIssuer(config: Config, s: Agent)
    requires Inv(config, s)
    ensures IssuerOk(config, s)
  {
  }

  /** Where a stored lease comes from: it was stored before, or this is its grant. */
  lemma StoredComesFrom(config: Config, s: Agent, event: Event, id: LeaseId)
    requires Inv(config, s) && id in Step(config, s, event).0.store.leases
    ensures var (n, output) := Step(config, s, event);
      || (id in s.store.leases && s.store.leases[id] == n.store.leases[id])
      || (&& event.Settle? && event.thread in s.threads && PastEnforcing(s.threads[event.thread])
          && s.threads[event.thread].lease == n.store.leases[id] && n.store.leases[id].id == id && GrantsId(output, id))
  {
    hide Inv;
    InvIssuer(config, s);
    if event.RequestLease? {
      RequestEffect(config, s, event.thread, event.request, event.peer);
    } else if event.ReleaseLease? {
      ReleaseEffect(config, s, event.id, event.peer, event.answer);
    } else if event.Settle? {
      SettledLease(s, event.thread, id);
    }
  }

  lemma SettledLease(s: Agent, thread: nat, id: LeaseId)
    requires id in StepSettle(s, thread).0.store.leases
    ensures var (n, output) := StepSettle(s, thread);
      || (id in s.store.leases && s.store.leases[id] == n.store.leases[id])
      || (&& thread in s.threads && PastEnforcing(s.threads[thread])
          && s.threads[thread].lease == n.store.leases[id] && n.store.leases[id].id == id && GrantsId(output, id))
  {
  }

  /** A revoke call leaves no stored lease that is live on the resource. */
  lemma RevokedHasNoneLive(config: Config, s: Agent, event: Event, id: LeaseId, resource: ResourceIdentity)
    requires Inv(config, s) && Revokes(config, s, event, resource)
    requires id in Step(config, s, event).0.store.leases
    ensures Step(config, s, event).0.store.leases[id].origin.request.resource != resource
  {
    RevokeCalledExactly(config, s, event, resource);
    assert !NamesResource(Step(config, s, event).0.store.leases, resource);
  }

  lemma LiveWasLive(config: Config, s: Agent, event: Event, id: LeaseId)
    requires Live(Step(config, s, event).0, id) && id in s.store.leases
    requires s.store.leases[id] == Step(config, s, event).0.store.leases[id]
    ensures Live(s, id)
  {
    hide Step;
    StepExtends(config, s, event);
  }

  lemma ThreadsRecorded(config: Config, events: seq<Event>, thread: nat)
    requires events != [] && Recorded(config, events[..|events| - 1])
    requires var n := StateAt(config, events, |events|); thread in n.threads && PastEnforcing(n.threads[thread])
    ensures WasEnforced(config, events, StateAt(config, events, |events|).threads[thread].lease)
  {
    hide StateAt, Step, Inv, WasEnforced, WasGranted, PastEnforcing;
    var k := |events| - 1;
    var s, lease := StateAt(config, events, k), StateAt(config, events, |events|).threads[thread].lease;
    OneMore(config, events);
    PrefixAt(config, events, k, k);
    ReachesInv(config, events, k);
    PastEnforcingComesFrom(config, s, events[k], thread);
    if PastEnforcing(s.threads[thread]) {
      StillEnforced(config, events, lease);
    } else {
      EnforcedNow(config, events, lease);
    }
  }

  lemma EnforcedNow(config: Config, events: seq<Event>, lease: ComputeLease)
    requires events != [] && EnforcedAt(config, events, |events| - 1, lease.id.sequence, lease.origin.request.resource)
    ensures WasEnforced(config, events, lease)
  {
  }

  lemma StoreRecorded(config: Config, events: seq<Event>, id: LeaseId)
    requires events != [] && Recorded(config, events[..|events| - 1])
    requires id in StateAt(config, events, |events|).store.leases
    ensures var n := StateAt(config, events, |events|); WasGranted(config, events, n.store.leases[id], Live(n, id))
  {
    hide StateAt, Step, Inv, WasEnforced, WasGranted, Live, Revokes;
    var k := |events| - 1;
    var s, n := StateAt(config, events, k), StateAt(config, events, |events|);
    OneMore(config, events);
    PrefixAt(config, events, k, k);
    ReachesInv(config, events, k);
    StoredComesFrom(config, s, events[k], id);
    if RevokesAt(config, events, k, n.store.leases[id].origin.request.resource) {
      RevokedHasNoneLive(config, s, events[k], id, n.store.leases[id].origin.request.resource);
      assert false;
    }
    if id in s.store.leases && s.store.leases[id] == n.store.leases[id] {
      if Live(n, id) {
        LiveWasLive(config, s, events[k], id);
      }
      StillGranted(config, events, n.store.leases[id], Live(s, id), Live(n, id));
    } else {
      GrantedNow(config, events, n.store.leases[id], Live(n, id));
    }
  }

  lemma GrantedNow(config: Config, events: seq<Event>, lease: ComputeLease, live: bool)
    requires events != [] && WasEnforced(config, events[..|events| - 1], lease)
    requires GrantedAt(config, events, |events| - 1, lease.id)
    requires !RevokesAt(config, events, |events| - 1, lease.origin.request.resource)
    ensures WasGranted(config, events, lease, live)
  {
    hide EnforcedAt, GrantedAt, RevokesAt;
    var n := |events| - 1;
    var e :| 0 <= e < n && EnforcedAt(config, events[..n], e, lease.id.sequence, lease.origin.request.resource);
    MomentsStay(config, events, n, e);
    assert Behind(config, events, lease, live, e, n);
  }

  lemma {:induction false} RunIsRecorded(config: Config, events: seq<Event>)
    ensures Recorded(config, events)
    decreases |events|
  {
    hide WasEnforced, WasGranted;
    if events != [] {
      RunIsRecorded(config, events[..|events| - 1]);
      var n := StateAt(config, events, |events|);
      forall thread | thread in n.threads && PastEnforcing(n.threads[thread])
        ensures WasEnforced(config, events, n.threads[thread].lease)
      {
        ThreadsRecorded(config, events, thread);
      }
      forall id | id in n.store.leases
        ensures WasGranted(config, events, n.store.leases[id], Live(n, id))
      {
        StoreRecorded(config, events, id);
      }
    }
  }

  /** A live lease has lost its enforcement exactly if a revoke call fell between its own
      enforce call, at `e`, and its grant, at `t`, and nobody's enforce call was allowed on
      the resource after that one. From its grant on no revoke call can touch it. */
  lemma LostEnforcementExactly(config: Config, events: seq<Event>, id: LeaseId) returns (e: nat, t: nat)
    requires Live(StateAt(config, events, |events|), id)
    ensures var lease := StateAt(config, events, |events|).store.leases[id];
      var resource := lease.origin.request.resource;
      && e < t < |events| && EnforcedAt(config, events, e, lease.id.sequence, resource) && GrantedAt(config, events, t, lease.id)
      && (forall j :: t <= j < |events| ==> !RevokesAt(config, events, j, resource))
      && (!Stands(config, events, resource) <==>
            exists k :: e < k < t && RevokesAt(config, events, k, resource)
              && forall i :: k < i < |events| ==> !EnforcesAt(config, events, i, resource))
  {
    hide StateAt, Stands, RevokesAt, Enforces, GrantedAt;
    RunIsRecorded(config, events);
    var s := StateAt(config, events, |events|);
    var lease := s.store.leases[id];
    var resource := lease.origin.request.resource;
    e, t :| Behind(config, events, lease, true, e, t);
    if !Stands(config, events, resource) {
      var k := LastWord(config, events, resource, e);
      assert k < t;
    }
    if k :| e < k < t && RevokesAt(config, events, k, resource) && forall i :: k < i < |events| ==> !EnforcesAt(config, events, i, resource) {
      RevokeIsNoEnforce(config, events, k, resource);
      StaysDown(config, events, resource, k);
    }
  }

  lemma RevokeIsNoEnforce(config: Config, events: seq<Event>, k: nat, resource: ResourceIdentity)
    requires k < |events| && RevokesAt(config, events, k, resource)
    ensures !EnforcesAt(config, events, k, resource)
  {
    ReachesInv(config, events, k);
    if !events[k].ReleaseLease? {
      OnlyReleasesRevoke(config, StateAt(config, events, k), events[k], resource);
    }
  }

  // ----- standing with nobody to hold it

  /** Somebody holds the resource: a live lease names it, or a grant past its enforce call. */
  ghost predicate Held(s: Agent, resource: ResourceIdentity) {
    || (exists id :: Live(s, id) && s.store.leases[id].origin.request.resource == resource)
    || (exists thread :: thread in s.threads && PastEnforcing(s.threads[thread])
          && s.threads[thread].lease.origin.request.resource == resource)
  }

  lemma EnforcingHolds(config: Config, s: Agent, event: Event, resource: ResourceIdentity)
    requires Enforces(s, event, resource)
    ensures Held(Step(config, s, event).0, resource) && !Revokes(config, s, event, resource)
  {
    var n := StepEnforceReturns(s, event.thread, event.answer).0;
    assert n.threads[event.thread] == Enforced(s.threads[event.thread].lease);
  }

  lemma NobodyRevokesUnheld(config: Config, s: Agent, event: Event, resource: ResourceIdentity)
    requires Inv(config, s) && Revokes(config, s, event, resource)
    ensures Held(s, resource)
  {
    RevokeCalledExactly(config, s, event, resource);
    assert Live(s, event.id);
  }

  /** A resource nobody holds comes to be held exactly by an allowed enforce call. */
  lemma HoldingStartsExactly(config: Config, s: Agent, event: Event, resource: ResourceIdentity)
    requires Inv(config, s) && !Held(s, resource)
    ensures Held(Step(config, s, event).0, resource) <==> Enforces(s, event, resource)
  {
    hide Step, Inv, Enforces;
    var n := Step(config, s, event).0;
    if Enforces(s, event, resource) {
      EnforcingHolds(config, s, event, resource);
    } else if id :| Live(n, id) && n.store.leases[id].origin.request.resource == resource {
      StoredComesFrom(config, s, event, id);
      if id in s.store.leases && s.store.leases[id] == n.store.leases[id] {
        LiveWasLive(config, s, event, id);
      }
    } else if Held(n, resource) {
      var thread :| thread in n.threads && PastEnforcing(n.threads[thread]) && n.threads[thread].lease.origin.request.resource == resource;
      PastEnforcingComesFrom(config, s, event, thread);
    }
  }

  lemma PruningKeepsHolders(s: Agent, resource: ResourceIdentity)
    requires Held(s, resource)
    ensures Held(Pruned(s), resource)
  {
    if id :| Live(s, id) && s.store.leases[id].origin.request.resource == resource {
      assert Live(Pruned(s), id);
    } else {
      var thread :| thread in s.threads && PastEnforcing(s.threads[thread]) && s.threads[thread].lease.origin.request.resource == resource;
      assert PastEnforcing(Pruned(s).threads[thread]);
    }
  }

  lemma MintingKeepsHolders(s: Agent, thread: nat, lease: ComputeLease, resource: ResourceIdentity)
    requires Held(s, resource) && thread !in s.threads
    ensures Held(Mint(Pruned(s), thread, lease), resource)
  {
    PruningKeepsHolders(s, resource);
    var p, n := Pruned(s), Mint(Pruned(s), thread, lease);
    if id :| Live(p, id) && p.store.leases[id].origin.request.resource == resource {
      assert Live(n, id);
    } else {
      var other :| other in p.threads && PastEnforcing(p.threads[other]) && p.threads[other].lease.origin.request.resource == resource;
      assert n.threads[other] == p.threads[other];
    }
  }

  lemma RequestsKeepHolders(config: Config, s: Agent, event: Event, resource: ResourceIdentity)
    requires IssuerOk(config, s) && Held(s, resource) && event.RequestLease?
    ensures Held(Step(config, s, event).0, resource)
  {
    hide Held, StepRequest;
    RequestEffect(config, s, event.thread, event.request, event.peer);
    PruningKeepsHolders(s, resource);
    var n := StepRequest(config, s, event.thread, event.request, event.peer).0;
    if n != s && n != Pruned(s) {
      MintingKeepsHolders(s, event.thread, n.issued[|s.issued|], resource);
    }
  }

  /** Threads that move, or that vanish before their enforce call returned, hold no less. */
  lemma MovesKeepHolders(s: Agent, n: Agent, resource: ResourceIdentity)
    requires Held(s, resource) && n.store == s.store && n.clock == s.clock
    requires forall thread :: thread in s.threads && PastEnforcing(s.threads[thread]) ==>
      thread in n.threads && PastEnforcing(n.threads[thread]) && n.threads[thread].lease == s.threads[thread].lease
    ensures Held(n, resource)
  {
    if id :| Live(s, id) && s.store.leases[id].origin.request.resource == resource {
      assert Live(n, id);
    } else {
      var thread :| thread in s.threads && PastEnforcing(s.threads[thread]) && s.threads[thread].lease.origin.request.resource == resource;
      assert PastEnforcing(n.threads[thread]);
    }
  }

  lemma UnlockedKeepsHolders(config: Config, s: Agent, event: Event, resource: ResourceIdentity)
    requires Held(s, resource) && (event.EnforceReturns? || event.EnforceUnwinds? || event.ReadClock? || event.AgentStatus?)
    ensures Held(Step(config, s, event).0, resource)
  {
    hide Held;
    MovesKeepHolders(s, Step(config, s, event).0, resource);
  }

  lemma ReleaseOfLastRevokes(config: Config, s: Agent, event: Event, resource: ResourceIdentity)
    requires Inv(config, s) && Held(s, resource) && event.ReleaseLease? && !Held(Step(config, s, event).0, resource)
    ensures Revokes(config, s, event, resource)
  {
    hide Inv, Step;
    ReleaseAnswersExactly(config, s, event);
    PruningKeepsHolders(s, resource);
    RevokeCalledExactly(config, s, event, resource);
    var n := Step(config, s, event).0;
    assert n == Retire(Pruned(s), event.id);
    assert forall id :: id in n.store.leases ==> Live(n, id);
    assert s.store.leases[event.id].origin.request.resource == resource by {
      RetiredWasTheHolder(s, event.id, resource);
    }
  }

  lemma RetiredWasTheHolder(s: Agent, id: LeaseId, resource: ResourceIdentity)
    requires Held(s, resource) && !Held(Retire(Pruned(s), id), resource) && id in s.store.leases
    ensures s.store.leases[id].origin.request.resource == resource
  {
    var n := Retire(Pruned(s), id);
    assert n.threads == s.threads;
    assert forall other :: Live(s, other) && other != id ==> Live(n, other) && n.store.leases[other] == s.store.leases[other];
  }

  /** The last holder goes by time passing, by settling without a grant, or by a release,
      and then the release has the backend revoke. */
  lemma LastToGo(config: Config, s: Agent, event: Event, resource: ResourceIdentity)
    requires Inv(config, s) && Held(s, resource) && !Held(Step(config, s, event).0, resource)
    ensures if Revokes(config, s, event, resource) then event.ReleaseLease? else event.Tick? || event.Settle?
  {
    hide Held, Inv, Step;
    InvIssuer(config, s);
    if event.RequestLease? {
      RequestsKeepHolders(config, s, event, resource);
    } else if event.ReleaseLease? {
      ReleaseOfLastRevokes(config, s, event, resource);
    } else {
      OnlyReleasesRevoke(config, s, event, resource);
      if !event.Tick? && !event.Settle? {
        UnlockedKeepsHolders(config, s, event, resource);
      }
    }
  }

  /** Holding ended for good with event `k`. */
  ghost predicate EndedWith(config: Config, events: seq<Event>, resource: ResourceIdentity, k: nat)
    requires k < |events|
  {
    && Held(StateAt(config, events, k), resource)
    && forall j :: k < j <= |events| ==> !Held(StateAt(config, events, j), resource)
  }

  /** How it must have ended for the resource to be left standing. */
  ghost predicate LeftStanding(config: Config, events: seq<Event>, resource: ResourceIdentity, k: nat)
    requires k < |events|
  {
    && EndedWith(config, events, resource, k) && Stands(config, events[..k], resource)
    && (events[k].Tick? || events[k].Settle?)
  }

  lemma EndingStays(config: Config, events: seq<Event>, resource: ResourceIdentity, k: nat)
    requires 0 < |events| && k < |events| - 1
    ensures EndedWith(config, events, resource, k)
       <==> EndedWith(config, events[..|events| - 1], resource, k) && !Held(StateAt(config, events, |events|), resource)
    ensures events[..|events| - 1][..k] == events[..k]
  {
    hide Held, StateAt;
    var n := |events| - 1;
    forall j | 0 <= j <= n
      ensures StateAt(config, events[..n], j) == StateAt(config, events, j)
    {
      PrefixAt(config, events, n, j);
    }
  }

  /** The step that decides: whether the last event ended the holding, changed nothing
      for a resource already unheld, or left it held. */
  lemma UnheldStays(config: Config, events: seq<Event>, resource: ResourceIdentity)
    requires events != [] && !Held(StateAt(config, events, |events|), resource)
    ensures var n := |events| - 1;
      if Held(StateAt(config, events, n), resource)
      then Stands(config, events, resource) <==> Stands(config, events[..n], resource) && (events[n].Tick? || events[n].Settle?)
      else Stands(config, events, resource) <==> Stands(config, events[..n], resource)
  {
    hide Held, StateAt, Step, Inv, Enforces, Revokes;
    var n := |events| - 1;
    var s := StateAt(config, events, n);
    OneMore(config, events);
    ReachesInv(config, events, n);
    if Enforces(s, events[n], resource) {
      EnforcingHolds(config, s, events[n], resource);
    }
    if Held(s, resource) {
      LastToGo(config, s, events[n], resource);
    } else if Revokes(config, s, events[n], resource) {
      NobodyRevokesUnheld(config, s, events[n], resource);
    }
  }

  /** With nobody holding it, a resource is left standing exactly if it stood when its
      last holder went, and that one went by expiring or by settling without a grant, not
      by a release. */
  lemma {:induction false} LeftStandingExactly(config: Config, events: seq<Event>, resource: ResourceIdentity)
    requires !Held(StateAt(config, events, |events|), resource)
    ensures Stands(config, events, resource) <==> exists k :: 0 <= k < |events| && LeftStanding(config, events, resource, k)
    decreases |events|
  {
    hide Held, StateAt, Stands, EndedWith;
    if events == [] {
      StandsNothing(config, resource);
    } else {
      var n := |events| - 1;
      var before := events[..n];
      UnheldStays(config, events, resource);
      PrefixAt(config, events, n, n);
      forall k | 0 <= k < n
        ensures LeftStanding(config, events, resource, k) <==> LeftStanding(config, before, resource, k) && EndedWith(config, events, resource, k)
        ensures EndedWith(config, events, resource, k) ==> EndedWith(config, before, resource, k) && !Held(StateAt(config, events, n), resource)
        ensures EndedWith(config, before, resource, k) ==> EndedWith(config, events, resource, k)
      {
        EndingStays(config, events, resource, k);
        EndedMeansUnheld(config, before, resource, k);
      }
      if Held(StateAt(config, events, n), resource) {
        EndedNow(config, events, resource);
        assert LeftStanding(config, events, resource, n) <==> Stands(config, events, resource);
        assert forall k :: 0 <= k < n ==> !LeftStanding(config, events, resource, k);
      } else {
        LeftStandingExactly(config, before, resource);
        NotEndedNow(config, events, resource);
        assert forall k :: 0 <= k < n ==> (LeftStanding(config, events, resource, k) <==> LeftStanding(config, before, resource, k));
      }
    }
  }

  lemma StandsNothing(config: Config, resource: ResourceIdentity)
    ensures !Stands(config, [], resource)
  {
  }

  lemma EndedMeansUnheld(config: Config, events: seq<Event>, resource: ResourceIdentity, k: nat)
    requires k < |events|
    ensures EndedWith(config, events, resource, k) ==> !Held(StateAt(config, events, |events|), resource)
  {
  }

  lemma EndedNow(config: Config, events: seq<Event>, resource: ResourceIdentity)
    requires events != [] && Held(StateAt(config, events, |events| - 1), resource) && !Held(StateAt(config, events, |events|), resource)
    ensures EndedWith(config, events, resource, |events| - 1)
  {
  }

  lemma NotEndedNow(config: Config, events: seq<Event>, resource: ResourceIdentity)
    requires events != [] && !Held(StateAt(config, events, |events| - 1), resource)
    ensures !EndedWith(config, events, resource, |events| - 1)
  {
  }
}
