/** The outstanding leases of one agent and the capacity reserved for grants in
    progress; everything the handler's mutex protects. */
module LeaseStore {
  import opened Prelude
  import opened Lease

  /** The value of the store at one moment, its issuer included. */
  datatype StoreView = StoreView(
    issuer: IssuerView,
    leases: map<LeaseId, ComputeLease>,
    maxOutstanding: nat,
    reserved: nat)

  function Unexpired(leases: map<LeaseId, ComputeLease>, now: u64): map<LeaseId, ComputeLease> {
    map id | id in leases && leases[id].expiresAt > now :: leases[id]
  }

  function Prune(store: StoreView, now: u64): StoreView {
    store.(leases := Unexpired(store.leases, now))
  }

  predicate AtCapacity(store: StoreView) {
    |store.leases| + store.reserved >= store.maxOutstanding
  }

  function Reserve(store: StoreView): StoreView {
    store.(reserved := store.reserved + 1)
  }

  function ReleaseReservation(store: StoreView): StoreView {
    store.(reserved := SaturatingSub(store.reserved, 1))
  }

  function Insert(store: StoreView, lease: ComputeLease): StoreView {
    ReleaseReservation(store).(leases := store.leases[lease.id := lease])
  }

  function Remove(store: StoreView, id: LeaseId): StoreView {
    store.(leases := store.leases - {id})
  }

  /** Some other stored lease names the same resource as `id`'s. */
  predicate OtherLeaseOnResource(leases: map<LeaseId, ComputeLease>, id: LeaseId) {
    id in leases &&
    exists other :: other in leases && other != id
      && leases[other].origin.request.resource == leases[id].origin.request.resource
  }

  class LeaseState {
    const issuer: LeaseIssuer
    var leases: map<LeaseId, ComputeLease>
    const maxOutstanding: nat
    var reserved: nat

    ghost function View(): StoreView
      reads this, issuer
    {
      StoreView(issuer.View(), leases, maxOutstanding, reserved)
    }

    constructor (issuer: LeaseIssuer, maxOutstanding: nat)
      ensures this.issuer == issuer
      ensures View() == StoreView(issuer.View(), map[], maxOutstanding, 0)
    {
      this.issuer := issuer;
      this.maxOutstanding := maxOutstanding;
      leases := map[];
      reserved := 0;
    }

    method PruneExpired(now: u64)
      modifies this
      ensures View() == Prune(old(View()), now)
    {
      leases := map id | id in leases && leases[id].expiresAt > now :: leases[id];
    }

    method IsAtCapacity() returns (full: bool)
      ensures full <==> AtCapacity(View())
    {
      full := |leases| + reserved >= maxOutstanding;
    }

    method ReserveSlot()
      modifies this
      ensures View() == Reserve(old(View()))
    {
      reserved := reserved + 1;
    }

    method ReleaseSlot()
      modifies this
      ensures View() == ReleaseReservation(old(View()))
    {
      reserved := SaturatingSub(reserved, 1);
    }

    method InsertReserved(lease: ComputeLease)
      modifies this
      ensures View() == Insert(old(View()), lease)
    {
      ReleaseSlot();
      leases := leases[lease.id := lease];
    }

    method RemoveLease(id: LeaseId)
      modifies this
      ensures View() == Remove(old(View()), id)
    {
      leases := leases - {id};
    }

    method AnyOtherLiveLeaseForSameResource(id: LeaseId) returns (found: bool)
      ensures found <==> OtherLeaseOnResource(View().leases, id)
    {
      if id !in leases {
        return false;
      }
      var resource := leases[id].origin.request.resource;
      return exists other :: other in leases && other != id && leases[other].origin.request.resource == resource;
    }
  }
}
