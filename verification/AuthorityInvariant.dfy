/** What every interleaving keeps: the inductive invariant of the lease authority,
    the fate of each sequence number, and capacity. */
module AuthorityInvariant {
  import opened Prelude
  import opened Identity
  import opened Resource
  import opened Peer
  import opened Lease
  import opened LeaseStore
  import opened Authority

  // ----- the invariant

  /** A lease as minted: keyed by its own number, expiring exactly one ttl after issue. */
  ghost predicate WellMinted(config: Config, lease: ComputeLease, sequence: nat) {
    lease.id == LeaseId(config.instance, sequence) && lease.expiresAt == lease.issuedAt + config.leaseTtl
  }

  /** The ledger of minted leases: well formed, stamped no later than now, in clock order. */
  ghost predicate LedgerOk(config: Config, issued: seq<ComputeLease>, clock: u64) {
    && (forall i :: 0 <= i < |issued| ==> WellMinted(config, issued[i], i) && issued[i].issuedAt <= clock)
    && (forall i, j :: 0 <= i < j < |issued| ==> issued[i].issuedAt <= issued[j].issuedAt)
  }

  ghost predicate IssuerOk(config: Config, s: Agent) {
    && s.store.issuer.instance == config.instance
    && s.store.issuer.maxTtl == config.leaseTtl
    && s.store.issuer.nextSequence == |s.issued|
    && s.store.maxOutstanding == config.maxOutstanding
  }

  /** The lease is the one this agent minted under its number. */
  ghost predicate Minted(issued: seq<ComputeLease>, lease: ComputeLease) {
    lease.id.sequence < |issued| && issued[lease.id.sequence] == lease
  }

  ghost predicate StoreOk(leases: map<LeaseId, ComputeLease>, issued: seq<ComputeLease>) {
    forall id :: id in leases ==> leases[id].id == id && Minted(issued, leases[id])
  }

  ghost predicate ThreadsOk(threads: map<nat, Phase>, issued: seq<ComputeLease>, clock: u64) {
    && (forall t :: t in threads ==> Minted(issued, threads[t].lease))
    && (forall t, u :: t in threads && u in threads && t != u ==> threads[t].lease.id.sequence != threads[u].lease.id.sequence)
    && (forall t :: t in threads && threads[t].Timed? ==> threads[t].lease.issuedAt <= threads[t].readAt <= clock)
  }

  /** The numbers held by threads between their two locked sections. */
  ghost function InFlight(threads: map<nat, Phase>): set<nat> {
    set t | t in threads :: threads[t].lease.id.sequence
  }

  /** The numbers in the store. */
  ghost function Stored(leases: map<LeaseId, ComputeLease>): set<nat> {
    set id | id in leases :: id.sequence
  }

  /** Each number is in one place at most, and was minted. */
  ghost predicate PlacesOk(inFlight: set<nat>, stored: set<nat>, revoked: set<nat>, unwound: set<nat>, minted: nat) {
    && (forall i :: i in inFlight ==> i < minted && i !in stored && i !in revoked && i !in unwound)
    && (forall i :: i in stored ==> i < minted && i !in revoked && i !in unwound)
    && (forall i :: i in revoked ==> i < minted && i !in unwound)
    && (forall i :: i in unwound ==> i < minted)
  }

  ghost predicate Placed(s: Agent, sequence: nat) {
    || sequence in InFlight(s.threads)
    || sequence in Stored(s.store.leases)
    || sequence in s.store.issuer.revoked
    || sequence in s.unwound
  }

  /** A number in none of the four places was pruned, and only its expiry can have done that. */
  ghost predicate LapsedOnly(s: Agent) {
    forall i :: 0 <= i < |s.issued| && !Placed(s, i) ==> s.issued[i].expiresAt <= s.clock
  }

  /** Reservations are exactly the grants in progress and those lost to a panic, and
      together with the store they fit the configured bound. */
  ghost predicate SlotsOk(s: Agent) {
    && s.store.reserved == |s.threads| + |s.unwound|
    && |s.store.leases| + s.store.reserved <= s.store.maxOutstanding
  }

  ghost predicate Inv(config: Config, s: Agent) {
    && IssuerOk(config, s)
    && LedgerOk(config, s.issued, s.clock)
    && StoreOk(s.store.leases, s.issued)
    && ThreadsOk(s.threads, s.issued, s.clock)
    && PlacesOk(InFlight(s.threads), Stored(s.store.leases), s.store.issuer.revoked, s.unwound, |s.issued|)
    && LapsedOnly(s)
    && SlotsOk(s)
  }

  /** The parts of the invariant, for proofs that need no more than some of them. */
  lemma InvGives(config: Config, s: Agent)
    requires Inv(config, s)
    ensures IssuerOk(config, s)
    ensures LedgerOk(config, s.issued, s.clock)
    ensures StoreOk(s.store.leases, s.issued)
    ensures ThreadsOk(s.threads, s.issued, s.clock)
    ensures PlacesOk(InFlight(s.threads), Stored(s.store.leases), s.store.issuer.revoked, s.unwound, |s.issued|)
    ensures SlotsOk(s)
  {
  }

  // ----- counting

  lemma SubmapIsSmaller<K, V>(small: map<K, V>, large: map<K, V>)
    requires small.Keys <= large.Keys
    ensures |small| <= |large|
  {
    SubsetIsSmaller(small.Keys, large.Keys);
  }

  lemma {:induction false} SubsetIsSmaller<T>(small: set<T>, large: set<T>)
    requires small <= large
    ensures |small| <= |large|
    decreases small
  {
    if x :| x in small {
      SubsetIsSmaller(small - {x}, large - {x});
    }
  }

  lemma RemoveKey<K, V>(m: map<K, V>, k: K)
    requires k in m
    ensures |m - {k}| == |m| - 1
  {
    assert (m - {k}).Keys == m.Keys - {k};
  }

  lemma AddKey<K, V>(m: map<K, V>, k: K, v: V)
    ensures |m[k := v]| == if k in m then |m| else |m| + 1
  {
    assert m[k := v].Keys == m.Keys + {k};
  }

  // ----- how the places change

  lemma InFlightAdds(threads: map<nat, Phase>, thread: nat, phase: Phase)
    requires thread !in threads
    ensures InFlight(threads[thread := phase]) == InFlight(threads) + {phase.lease.id.sequence}
  {
    var after := threads[thread := phase];
    forall i | i in InFlight(threads) + {phase.lease.id.sequence} ensures i in InFlight(after) {
      if i in InFlight(threads) {
        var t :| t in threads && threads[t].lease.id.sequence == i;
        assert after[t].lease.id.sequence == i;
      } else {
        assert after[thread].lease.id.sequence == i;
      }
    }
  }

  lemma InFlightStays(threads: map<nat, Phase>, thread: nat, phase: Phase)
    requires thread in threads && phase.lease == threads[thread].lease
    ensures InFlight(threads[thread := phase]) == InFlight(threads)
  {
    var after := threads[thread := phase];
    assert forall t :: t in threads ==> t in after && after[t].lease == threads[t].lease;
    assert forall t :: t in after ==> t in threads && after[t].lease == threads[t].lease;
  }

  lemma InFlightDrops(threads: map<nat, Phase>, thread: nat, issued: seq<ComputeLease>, clock: u64)
    requires ThreadsOk(threads, issued, clock) && thread in threads
    ensures InFlight(threads - {thread}) == InFlight(threads) - {threads[thread].lease.id.sequence}
    ensures ThreadsOk(threads - {thread}, issued, clock)
    ensures |threads - {thread}| == |threads| - 1
  {
    var after := threads - {thread};
    RemoveKey(threads, thread);
    forall i | i in InFlight(threads) - {threads[thread].lease.id.sequence} ensures i in InFlight(after) {
      var t :| t in threads && threads[t].lease.id.sequence == i;
      assert after[t].lease.id.sequence == i;
    }
  }

  lemma StoredAdds(leases: map<LeaseId, ComputeLease>, lease: ComputeLease)
    ensures Stored(leases[lease.id := lease]) == Stored(leases) + {lease.id.sequence}
  {
    var after := leases[lease.id := lease];
    forall i | i in Stored(leases) + {lease.id.sequence} ensures i in Stored(after) {
      if i in Stored(leases) {
        var id :| id in leases && id.sequence == i;
        assert id in after;
      } else {
        assert lease.id in after;
      }
    }
  }

  lemma StoredDrops(config: Config, leases: map<LeaseId, ComputeLease>, id: LeaseId, issued: seq<ComputeLease>, clock: u64)
    requires LedgerOk(config, issued, clock) && StoreOk(leases, issued) && id in leases
    ensures Stored(leases - {id}) == Stored(leases) - {id.sequence}
    ensures StoreOk(leases - {id}, issued)
    ensures |leases - {id}| == |leases| - 1
  {
    var after := leases - {id};
    RemoveKey(leases, id);
    forall other | other in leases ensures other == LeaseId(config.instance, other.sequence) {
      assert Minted(issued, leases[other]);
    }
    forall i | i in Stored(leases) - {id.sequence} ensures i in Stored(after) {
      var other :| other in leases && other.sequence == i;
      assert other in after;
    }
  }

  // ----- pruning

  /** The locked sections all start by pruning; that alone keeps the invariant and
      leaves exactly the unexpired leases. */
  function Pruned(s: Agent): Agent {
    s.(store := Prune(s.store, s.clock))
  }

  lemma PruneShrinks(leases: map<LeaseId, ComputeLease>, issued: seq<ComputeLease>, now: u64)
    requires StoreOk(leases, issued)
    ensures StoreOk(Unexpired(leases, now), issued)
    ensures Stored(Unexpired(leases, now)) <= Stored(leases) && |Unexpired(leases, now)| <= |leases|
  {
    hide Minted;
    SubmapIsSmaller(Unexpired(leases, now), leases);
  }

  lemma PruneKeeps(config: Config, s: Agent)
    requires Inv(config, s)
    ensures Inv(config, Pruned(s))
    ensures Stored(Pruned(s).store.leases) <= Stored(s.store.leases)
  {
    hide LedgerOk, StoreOk, ThreadsOk, LapsedOnly, Stored, InFlight, Unexpired;
    PruneShrinks(s.store.leases, s.issued, s.clock);
    PruneLapses(s);
  }

  /** What pruning drops had expired. */
  lemma PruneLapses(s: Agent)
    requires StoreOk(s.store.leases, s.issued) && LapsedOnly(s)
    ensures LapsedOnly(Pruned(s))
  {
    hide InFlight;
    var p := Pruned(s);
    forall i | 0 <= i < |p.issued| && !Placed(p, i)
      ensures p.issued[i].expiresAt <= p.clock
    {
      if i in Stored(s.store.leases) {
        var id :| id in s.store.leases && id.sequence == i;
        assert Minted(s.issued, s.store.leases[id]);
        assert id !in p.store.leases;
      }
    }
  }

  // ----- each event keeps the invariant

  /** Minting the next lease into a free thread, from a pruned store with room. */
  function Mint(p: Agent, thread: nat, lease: ComputeLease): Agent {
    p.(store := Reserve(p.store.(issuer := p.store.issuer.(nextSequence := p.store.issuer.nextSequence + 1))),
       threads := p.threads[thread := Enforcing(lease)],
       issued := p.issued + [lease])
  }

  lemma LedgerGrows(config: Config, issued: seq<ComputeLease>, clock: u64, lease: ComputeLease)
    requires LedgerOk(config, issued, clock)
    requires WellMinted(config, lease, |issued|) && lease.issuedAt == clock
    ensures LedgerOk(config, issued + [lease], clock)
    ensures forall known :: Minted(issued, known) ==> Minted(issued + [lease], known)
  {
  }

  lemma ThreadsGrow(threads: map<nat, Phase>, issued: seq<ComputeLease>, clock: u64, thread: nat, lease: ComputeLease)
    requires ThreadsOk(threads, issued, clock) && thread !in threads && lease.id.sequence == |issued|
    ensures ThreadsOk(threads[thread := Enforcing(lease)], issued + [lease], clock)
  {
    assert forall t :: t in threads ==> Minted(issued, threads[t].lease);
  }

  lemma ThreadsAdvance(threads: map<nat, Phase>, issued: seq<ComputeLease>, clock: u64, thread: nat, phase: Phase)
    requires ThreadsOk(threads, issued, clock) && thread in threads && phase.lease == threads[thread].lease
    requires phase.Timed? ==> phase.lease.issuedAt <= phase.readAt <= clock
    ensures ThreadsOk(threads[thread := phase], issued, clock)
  {
    var after := threads[thread := phase];
    assert forall t :: t in after ==> t in threads && after[t].lease == threads[t].lease;
  }

  /** A number that is still placed, or that time had ended, needs no new excuse. */
  lemma LapsedStays(s: Agent, n: Agent)
    requires LapsedOnly(s) && n.issued == s.issued && n.clock >= s.clock
    requires forall i :: 0 <= i < |s.issued| && Placed(s, i) ==> Placed(n, i)
    ensures LapsedOnly(n)
  {
    hide Placed;
  }

  lemma MintLapses(p: Agent, thread: nat, lease: ComputeLease)
    requires LapsedOnly(p) && thread !in p.threads && lease.id.sequence == |p.issued|
    ensures LapsedOnly(Mint(p, thread, lease))
  {
    hide InFlight, Stored;
    InFlightAdds(p.threads, thread, Enforcing(lease));
  }

  lemma StoreGrows(leases: map<LeaseId, ComputeLease>, issued: seq<ComputeLease>, lease: ComputeLease)
    requires StoreOk(leases, issued)
    ensures StoreOk(leases, issued + [lease])
  {
  }

  lemma MintKeeps(config: Config, p: Agent, thread: nat, lease: ComputeLease)
    requires Inv(config, p) && thread !in p.threads && !AtCapacity(p.store)
    requires WellMinted(config, lease, |p.issued|) && lease.issuedAt == p.clock
    ensures Inv(config, Mint(p, thread, lease))
  {
    hide LedgerOk, StoreOk, ThreadsOk, LapsedOnly, InFlight, Stored;
    AddKey(p.threads, thread, Enforcing(lease));
    MintLapses(p, thread, lease);
    StoreGrows(p.store.leases, p.issued, lease);
    InFlightAdds(p.threads, thread, Enforcing(lease));
    LedgerGrows(config, p.issued, p.clock, lease);
    ThreadsGrow(p.threads, p.issued, p.clock, thread, lease);
  }

  /** The locked issue section either only prunes, or prunes, mints and reserves. */
  lemma IssueSectionShape(config: Config, store: StoreView, origin: ProvenanceRecord, now: u64)
    ensures var section := IssueReservingCapacity(config, store, origin, now);
      var pruned := Prune(store, now);
      match section.1
      case Err(_) => section.0 == pruned
      case Ok(lease) =>
        && !AtCapacity(pruned)
        && lease.id == LeaseId(store.issuer.instance, store.issuer.nextSequence)
        && lease.issuedAt == now && lease.expiresAt == now + config.leaseTtl && lease.origin == origin
        && section.0 == Reserve(pruned.(issuer := store.issuer.(nextSequence := store.issuer.nextSequence + 1)))
  {
  }

  /** A request event leaves the state alone, or prunes, or prunes and mints the next lease. */
  lemma RequestEffect(config: Config, s: Agent, thread: nat, request: ComputeRequest, peer: PeerContext)
    requires IssuerOk(config, s)
    ensures var n := StepRequest(config, s, thread, request, peer).0;
      || n == s
      || n == Pruned(s)
      || (&& thread !in s.threads && !AtCapacity(Pruned(s).store) && |n.issued| == |s.issued| + 1
          && var lease := n.issued[|s.issued|];
             && WellMinted(config, lease, |s.issued|) && lease.issuedAt == s.clock
             && peer.consistency.Consistent? && lease.origin == ProvenanceRecord(peer.observed, request)
             && n == Mint(Pruned(s), thread, lease))
  {
    if thread !in s.threads && peer.consistency.Consistent? {
      IssueSectionShape(config, s.store, ProvenanceRecord(peer.observed, request), s.clock);
    }
  }

  lemma RequestKeeps(config: Config, s: Agent, thread: nat, request: ComputeRequest, peer: PeerContext)
    requires Inv(config, s)
    ensures Inv(config, StepRequest(config, s, thread, request, peer).0)
  {
    RequestEffect(config, s, thread, request, peer);
    PruneKeeps(config, s);
    var n := StepRequest(config, s, thread, request, peer).0;
    if n != s && n != Pruned(s) {
      MintKeeps(config, Pruned(s), thread, n.issued[|s.issued|]);
    }
  }

  /** Moving a thread along without touching its lease keeps everything else in place. */
  lemma AdvanceThreadKeeps(config: Config, s: Agent, thread: nat, phase: Phase)
    requires Inv(config, s) && thread in s.threads && phase.lease == s.threads[thread].lease
    requires phase.Timed? ==> phase.readAt == s.clock
    ensures Inv(config, s.(threads := s.threads[thread := phase]))
  {
    hide LedgerOk, StoreOk, LapsedOnly, InFlight, Stored, PlacesOk, Minted;
    var n := s.(threads := s.threads[thread := phase]);
    AddKey(s.threads, thread, phase);
    InFlightStays(s.threads, thread, phase);
    ThreadIsMinted(s.threads, s.issued, s.clock, thread);
    MintedId(config, s.issued, s.clock, phase.lease);
    ThreadsAdvance(s.threads, s.issued, s.clock, thread, phase);
    LapsedStays(s, n);
  }

  lemma UnwindKeeps(config: Config, s: Agent, thread: nat)
    requires Inv(config, s) && thread in s.threads
    ensures Inv(config, s.(threads := s.threads - {thread}, unwound := s.unwound + {s.threads[thread].lease.id.sequence}))
  {
    hide LedgerOk, StoreOk, ThreadsOk, LapsedOnly, InFlight, Stored;
    InFlightDrops(s.threads, thread, s.issued, s.clock);
    HeldInFlight(s.threads, thread);
    LapsedStays(s, s.(threads := s.threads - {thread}, unwound := s.unwound + {s.threads[thread].lease.id.sequence}));
  }

  lemma HeldInFlight(threads: map<nat, Phase>, thread: nat)
    requires thread in threads
    ensures threads[thread].lease.id.sequence in InFlight(threads)
  {
  }

  lemma ThreadIsMinted(threads: map<nat, Phase>, issued: seq<ComputeLease>, clock: u64, thread: nat)
    requires ThreadsOk(threads, issued, clock) && thread in threads
    ensures Minted(issued, threads[thread].lease)
  {
  }

  lemma StoredIsMinted(leases: map<LeaseId, ComputeLease>, issued: seq<ComputeLease>, id: LeaseId)
    requires StoreOk(leases, issued) && id in leases
    ensures Minted(issued, leases[id]) && leases[id].id == id && id.sequence in Stored(leases)
  {
  }

  lemma MintedId(config: Config, issued: seq<ComputeLease>, clock: u64, lease: ComputeLease)
    requires LedgerOk(config, issued, clock) && Minted(issued, lease)
    ensures WellMinted(config, lease, lease.id.sequence) && lease.issuedAt <= clock
  {
  }

  lemma CompensateRevokes(config: Config, s: Agent, lease: ComputeLease)
    requires IssuerOk(config, s) && LedgerOk(config, s.issued, s.clock) && Minted(s.issued, lease)
    requires lease.id.sequence !in s.store.issuer.revoked
    ensures Compensate(s.store, lease.id) ==
      s.store.(reserved := SaturatingSub(s.store.reserved, 1),
               issuer := s.store.issuer.(revoked := s.store.issuer.revoked + {lease.id.sequence}))
  {
    MintedId(config, s.issued, s.clock, lease);
  }

  lemma CompensateKeeps(config: Config, s: Agent, thread: nat)
    requires Inv(config, s) && thread in s.threads
    ensures Inv(config, s.(store := Compensate(s.store, s.threads[thread].lease.id), threads := s.threads - {thread}))
  {
    hide LedgerOk, StoreOk, ThreadsOk, LapsedOnly, InFlight, Stored, Minted, Compensate;
    var lease := s.threads[thread].lease;
    ThreadIsMinted(s.threads, s.issued, s.clock, thread);
    InFlightDrops(s.threads, thread, s.issued, s.clock);
    HeldInFlight(s.threads, thread);
    CompensateRevokes(config, s, lease);
    LapsedStays(s, s.(store := Compensate(s.store, lease.id), threads := s.threads - {thread}));
  }

  lemma StoreInserts(leases: map<LeaseId, ComputeLease>, issued: seq<ComputeLease>, lease: ComputeLease)
    requires StoreOk(leases, issued) && Minted(issued, lease)
    ensures StoreOk(leases[lease.id := lease], issued)
  {
  }

  lemma InsertKeeps(config: Config, s: Agent, thread: nat)
    requires Inv(config, s) && thread in s.threads
    ensures Inv(config, s.(store := Insert(s.store, s.threads[thread].lease), threads := s.threads - {thread}))
  {
    hide LedgerOk, StoreOk, ThreadsOk, LapsedOnly, InFlight, Stored, Minted;
    var lease := s.threads[thread].lease;
    ThreadIsMinted(s.threads, s.issued, s.clock, thread);
    AddKey(s.store.leases, lease.id, lease);
    InFlightDrops(s.threads, thread, s.issued, s.clock);
    StoredAdds(s.store.leases, lease);
    StoreInserts(s.store.leases, s.issued, lease);
    HeldInFlight(s.threads, thread);
    LapsedStays(s, s.(store := Insert(s.store, lease), threads := s.threads - {thread}));
  }

  /** A stored lease moves to the revoked set. */
  function Retire(p: Agent, id: LeaseId): Agent {
    p.(store := Remove(p.store.(issuer := p.store.issuer.(revoked := p.store.issuer.revoked + {id.sequence})), id))
  }

  lemma RetireRevokes(config: Config, p: Agent, id: LeaseId)
    requires IssuerOk(config, p) && LedgerOk(config, p.issued, p.clock) && StoreOk(p.store.leases, p.issued) && id in p.store.leases
    requires id.sequence !in p.store.issuer.revoked
    ensures RevokeFrom(p.store.issuer, id) == (p.store.issuer.(revoked := p.store.issuer.revoked + {id.sequence}), Revoked)
  {
    MintedId(config, p.issued, p.clock, p.store.leases[id]);
  }

  lemma RetireKeeps(config: Config, p: Agent, id: LeaseId)
    requires Inv(config, p) && id in p.store.leases
    ensures RevokeFrom(p.store.issuer, id) == (p.store.issuer.(revoked := p.store.issuer.revoked + {id.sequence}), Revoked)
    ensures Inv(config, Retire(p, id))
  {
    hide LedgerOk, StoreOk, ThreadsOk, LapsedOnly, InFlight, Stored, Minted, RevokeFrom;
    StoredIsMinted(p.store.leases, p.issued, id);
    StoredDrops(config, p.store.leases, id, p.issued, p.clock);
    RetireRevokes(config, p, id);
    LapsedStays(p, Retire(p, id));
  }

  /** The locked release section either only prunes, or prunes, revokes and removes. */
  lemma ReleaseSectionShape(store: StoreView, id: LeaseId, observed: ExecutionContext, now: u64, answer: BackendAnswer)
    ensures var section := ReleaseSection(store, id, observed, now, answer);
      var pruned := Prune(store, now);
      || section.0 == pruned
      || (id in pruned.leases && section.0 == Remove(pruned.(issuer := RevokeFrom(pruned.issuer, id).0), id))
  {
  }

  /** A release event leaves the state alone, or prunes, or prunes and retires its lease. */
  lemma ReleaseEffect(config: Config, s: Agent, id: LeaseId, peer: PeerContext, answer: BackendAnswer)
    requires Inv(config, s)
    ensures var n := StepRelease(s, id, peer, answer).0;
      || n == s
      || n == Pruned(s)
      || (id in Pruned(s).store.leases && n == Retire(Pruned(s), id))
  {
    hide Inv, ReleaseSection, RevokeFrom;
    if peer.consistency.Consistent? {
      ReleaseSectionShape(s.store, id, peer.observed, s.clock, answer);
      PruneKeeps(config, s);
      if id in Pruned(s).store.leases {
        RetireKeeps(config, Pruned(s), id);
      }
    }
  }

  lemma ReleaseKeeps(config: Config, s: Agent, id: LeaseId, peer: PeerContext, answer: BackendAnswer)
    requires Inv(config, s)
    ensures Inv(config, StepRelease(s, id, peer, answer).0)
  {
    hide Inv, StepRelease, Retire;
    ReleaseEffect(config, s, id, peer, answer);
    PruneKeeps(config, s);
    if id in Pruned(s).store.leases {
      RetireKeeps(config, Pruned(s), id);
    }
  }

  lemma EnforceReturnsKeeps(config: Config, s: Agent, thread: nat, answer: BackendAnswer)
    requires Inv(config, s)
    ensures Inv(config, StepEnforceReturns(s, thread, answer).0)
  {
    if thread in s.threads && s.threads[thread].Enforcing? {
      var lease := s.threads[thread].lease;
      AdvanceThreadKeeps(config, s, thread, if answer == Ok(Allowed) then Enforced(lease) else Refused(lease, answer));
    }
  }

  lemma EnforceUnwindsKeeps(config: Config, s: Agent, thread: nat)
    requires Inv(config, s)
    ensures Inv(config, StepEnforceUnwinds(s, thread).0)
  {
    if thread in s.threads && s.threads[thread].Enforcing? {
      UnwindKeeps(config, s, thread);
    }
  }

  lemma ReadClockKeeps(config: Config, s: Agent, thread: nat)
    requires Inv(config, s)
    ensures Inv(config, StepReadClock(s, thread).0)
  {
    if thread in s.threads && s.threads[thread].Enforced? {
      AdvanceThreadKeeps(config, s, thread, Timed(s.threads[thread].lease, s.clock));
    }
  }

  /** Settling a grant either inserts its lease or compensates for it. */
  lemma SettleEffect(s: Agent, thread: nat)
    requires thread in s.threads && (s.threads[thread].Timed? || s.threads[thread].Refused?)
    ensures var lease := s.threads[thread].lease;
      if s.threads[thread].Timed? && lease.expiresAt > s.threads[thread].readAt
      then StepSettle(s, thread).0 == s.(store := Insert(s.store, lease), threads := s.threads - {thread})
      else StepSettle(s, thread).0 == s.(store := Compensate(s.store, lease.id), threads := s.threads - {thread})
  {
  }

  lemma SettleKeeps(config: Config, s: Agent, thread: nat)
    requires Inv(config, s)
    ensures Inv(config, StepSettle(s, thread).0)
  {
    if thread in s.threads && (s.threads[thread].Timed? || s.threads[thread].Refused?) {
      SettleEffect(s, thread);
      CompensateKeeps(config, s, thread);
      InsertKeeps(config, s, thread);
    }
  }

  lemma TickKeeps(config: Config, s: Agent, elapsed: nat)
    requires Inv(config, s)
    ensures Inv(config, s.(clock := Advance(s.clock, elapsed)))
  {
    var n := s.(clock := Advance(s.clock, elapsed));
    assert forall i :: Placed(n, i) == Placed(s, i);
  }

  lemma StepKeeps(config: Config, s: Agent, event: Event)
    requires Inv(config, s)
    ensures Inv(config, Step(config, s, event).0)
  {
    hide Inv;
    match event
    case Tick(elapsed) => TickKeeps(config, s, elapsed);
    case RequestLease(thread, request, peer) => RequestKeeps(config, s, thread, request, peer);
    case EnforceReturns(thread, answer) => EnforceReturnsKeeps(config, s, thread, answer);
    case EnforceUnwinds(thread) => EnforceUnwindsKeeps(config, s, thread);
    case ReadClock(thread) => ReadClockKeeps(config, s, thread);
    case Settle(thread) => SettleKeeps(config, s, thread);
    case ReleaseLease(id, peer, answer) => ReleaseKeeps(config, s, id, peer, answer);
    case AgentStatus =>
  }

  /** Every state an agent can reach, under any interleaving, satisfies the invariant. */
  lemma {:induction false} ReachableInv(config: Config, events: seq<Event>)
    ensures Inv(config, After(config, Initial(config), events))
    decreases |events|
  {
    if events != [] {
      var before := events[..|events| - 1];
      ReachableInv(config, before);
      StepKeeps(config, After(config, Initial(config), before), events[|events| - 1]);
    }
  }

  lemma {:induction false} RunKeeps(config: Config, s: Agent, events: seq<Event>)
    requires Inv(config, s)
    ensures Inv(config, After(config, s, events))
    decreases |events|
  {
    if events != [] {
      var before := events[..|events| - 1];
      RunKeeps(config, s, before);
      StepKeeps(config, After(config, s, before), events[|events| - 1]);
    }
  }
}
