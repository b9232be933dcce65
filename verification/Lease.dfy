/** Scoped, expiring compute leases and the issuer that mints, revokes and
    validates them. Time is injected: every reading is a parameter. */
module Lease {
  import opened Prelude
  import opened Identity
  import opened Resource
  import opened Policy

  datatype LeaseId = LeaseId(issuer: string, sequence: nat)

  datatype ProvenanceRecord = ProvenanceRecord(context: ExecutionContext, request: ComputeRequest)

  datatype ComputeLease = ComputeLease(
    id: LeaseId,
    origin: ProvenanceRecord,
    policy: PolicyProvenance,
    decisionReason: DecisionReason,
    issuedAt: u64,
    expiresAt: u64)

  datatype LeaseError =
    | LeaseDenied(decision: PolicyDecision)
    | NonPositiveTtl
    | TtlExceedsMaximum(requested: nat, maximum: nat)
    | ExpiryOverflow

  datatype RevocationOutcome = Revoked | AlreadyRevoked | NotIssued | ForeignIssuerId

  datatype LeaseValidity =
    | Valid(remaining: nat)
    | ForeignIssuer(issuedBy: string)
    | RevokedLease
    | ResourceMismatch
    | ActionMismatch
    | WorkloadMismatch
    | WorkloadIndeterminate
    | ExecutableMismatch
    | Expired(expiredAt: u64)

  /** Durations are nanosecond counts, wider than the clock: adding one can overflow. */
  function CheckedAdd(now: u64, duration: nat): Option<u64> {
    if now + duration < U64_LIMIT then Some(now + duration) else None
  }

  /** The only change a lease value ever undergoes: its expiry may move earlier. */
  function NarrowExpiry(lease: ComputeLease, notAfter: u64): ComputeLease {
    lease.(expiresAt := if lease.expiresAt <= notAfter then lease.expiresAt else notAfter)
  }

  /** The value of an issuer's fields at one moment. */
  datatype IssuerView = IssuerView(instance: string, maxTtl: nat, nextSequence: nat, revoked: set<nat>)

  function IssueFrom(issuer: IssuerView, policy: PolicyDocument, origin: ProvenanceRecord, now: u64, ttl: nat)
    : (IssuerView, Result<ComputeLease, LeaseError>)
  {
    if ttl == 0 then (issuer, Err(NonPositiveTtl))
    else if ttl > issuer.maxTtl then (issuer, Err(TtlExceedsMaximum(ttl, issuer.maxTtl)))
    else
      var decision := Decide(policy, origin.context, origin.request);
      if decision.effect != Allow then (issuer, Err(LeaseDenied(decision)))
      else
        match CheckedAdd(now, ttl)
        case None => (issuer, Err(ExpiryOverflow))
        case Some(expiresAt) =>
          (issuer.(nextSequence := issuer.nextSequence + 1),
           Ok(ComputeLease(LeaseId(issuer.instance, issuer.nextSequence), origin, decision.policy, decision.reason, now, expiresAt)))
  }

  function RevokeFrom(issuer: IssuerView, id: LeaseId): (IssuerView, RevocationOutcome) {
    if id.issuer != issuer.instance then (issuer, ForeignIssuerId)
    else if id.sequence >= issuer.nextSequence then (issuer, NotIssued)
    else if id.sequence in issuer.revoked then (issuer, AlreadyRevoked)
    else (issuer.(revoked := issuer.revoked + {id.sequence}), Revoked)
  }

  function ValidateAgainst(issuer: IssuerView, lease: ComputeLease, presented: ProvenanceRecord, now: u64): LeaseValidity {
    if lease.id.issuer != issuer.instance then ForeignIssuer(lease.id.issuer)
    else if lease.id.sequence in issuer.revoked then RevokedLease
    else if lease.origin.request.resource != presented.request.resource then ResourceMismatch
    else if lease.origin.request.action != presented.request.action then ActionMismatch
    else
      match CompareProcess(lease.origin.context.workload, presented.context.workload)
      case Different => WorkloadMismatch
      case Indeterminate => WorkloadIndeterminate
      case Same =>
        match CompareExecutable(lease.origin.context.workload, presented.context.workload)
        case Different => ExecutableMismatch
        case Indeterminate => WorkloadIndeterminate
        case Same =>
          if now >= lease.expiresAt then Expired(lease.expiresAt)
          else Valid(SaturatingSub(lease.expiresAt, now))
  }

  /** A lease is valid exactly when nothing speaks against it, and then it says
      truthfully how long it has left. */
  lemma ValidExactly(issuer: IssuerView, lease: ComputeLease, presented: ProvenanceRecord, now: u64)
    ensures ValidateAgainst(issuer, lease, presented, now).Valid? <==>
      && lease.id.issuer == issuer.instance
      && lease.id.sequence !in issuer.revoked
      && lease.origin.request == presented.request
      && CompareProcess(lease.origin.context.workload, presented.context.workload) == Same
      && CompareExecutable(lease.origin.context.workload, presented.context.workload) == Same
      && now < lease.expiresAt
    ensures ValidateAgainst(issuer, lease, presented, now).Valid? ==>
      ValidateAgainst(issuer, lease, presented, now).remaining == lease.expiresAt - now > 0
  {
    assert lease.origin.request == presented.request <==>
      lease.origin.request.resource == presented.request.resource && lease.origin.request.action == presented.request.action;
  }

  /** Any other verdict names the first thing that speaks against the lease. */
  lemma VerdictNamesFirstFault(issuer: IssuerView, lease: ComputeLease, presented: ProvenanceRecord, now: u64)
    ensures var verdict := ValidateAgainst(issuer, lease, presented, now);
      var (granted, claimed) := (lease.origin.request, presented.request);
      var process := CompareProcess(lease.origin.context.workload, presented.context.workload);
      var executable := CompareExecutable(lease.origin.context.workload, presented.context.workload);
      var ours := lease.id.issuer == issuer.instance;
      var standing := ours && lease.id.sequence !in issuer.revoked;
      && (!ours <==> verdict == ForeignIssuer(lease.id.issuer))
      && (ours && !standing <==> verdict == RevokedLease)
      && (standing && granted.resource != claimed.resource <==> verdict == ResourceMismatch)
      && (standing && granted.resource == claimed.resource && granted.action != claimed.action <==> verdict == ActionMismatch)
      && (standing && granted == claimed && process == Different <==> verdict == WorkloadMismatch)
      && (standing && granted == claimed && process == Same && executable == Different <==> verdict == ExecutableMismatch)
      && (verdict == WorkloadIndeterminate <==>
            standing && granted == claimed && (process == Indeterminate || (process == Same && executable == Indeterminate)))
      && (verdict == Expired(lease.expiresAt) <==>
            standing && granted == claimed && process == Same && executable == Same && now >= lease.expiresAt)
  {
    assert lease.origin.request == presented.request <==>
      lease.origin.request.resource == presented.request.resource && lease.origin.request.action == presented.request.action;
  }

  /** What an issuer mints, and when: only for a ttl it may give, only on an Allow over
      that very origin, and only if the expiry can be told. A refusal mints nothing. */
  lemma MintsExactly(issuer: IssuerView, policy: PolicyDocument, origin: ProvenanceRecord, now: u64, ttl: nat)
    ensures var (after, result) := IssueFrom(issuer, policy, origin, now, ttl);
      var decision := Decide(policy, origin.context, origin.request);
      && (result.Ok? <==> 0 < ttl <= issuer.maxTtl && decision.effect == Allow && now + ttl < 0x1_0000_0000_0000_0000)
      && (result.Ok? ==>
            && result.value.id == LeaseId(issuer.instance, issuer.nextSequence) && result.value.origin == origin
            && result.value.issuedAt == now && result.value.expiresAt == now + ttl
            && result.value.policy == decision.policy && result.value.decisionReason == decision.reason
            && after == IssuerView(issuer.instance, issuer.maxTtl, issuer.nextSequence + 1, issuer.revoked))
      && (result.Err? ==> after == issuer)
      && (result == Err(NonPositiveTtl) <==> ttl == 0)
      && (result == Err(TtlExceedsMaximum(ttl, issuer.maxTtl)) <==> 0 < ttl && ttl > issuer.maxTtl)
      && (result == Err(LeaseDenied(decision)) <==> 0 < ttl <= issuer.maxTtl && decision.effect == Deny)
      && (result.Err? ==>
            result.error == NonPositiveTtl || result.error == TtlExceedsMaximum(ttl, issuer.maxTtl)
            || result.error == LeaseDenied(decision) || result.error == ExpiryOverflow)
  {
  }

  /** Revoking withdraws exactly an issued number, and says which numbers it was not. */
  lemma WithdrawsExactly(issuer: IssuerView, id: LeaseId)
    ensures var (after, outcome) := RevokeFrom(issuer, id);
      var issued := id.issuer == issuer.instance && id.sequence < issuer.nextSequence;
      && (outcome == ForeignIssuerId <==> id.issuer != issuer.instance)
      && (outcome == NotIssued <==> id.issuer == issuer.instance && id.sequence >= issuer.nextSequence)
      && (outcome == AlreadyRevoked <==> issued && id.sequence in issuer.revoked)
      && (outcome == Revoked <==> issued && id.sequence !in issuer.revoked)
      && after == IssuerView(
           issuer.instance, issuer.maxTtl, issuer.nextSequence,
           if issued then issuer.revoked + {id.sequence} else issuer.revoked)
  {
    assert id.sequence in issuer.revoked ==> issuer.revoked + {id.sequence} == issuer.revoked;
  }

  /** Narrowing never widens: a narrowed lease is valid only where the original is,
      and it is revoked together with the original. */
  lemma NarrowingNeverWidens(issuer: IssuerView, lease: ComputeLease, notAfter: u64, presented: ProvenanceRecord, now: u64)
    ensures ValidateAgainst(issuer, NarrowExpiry(lease, notAfter), presented, now).Valid?
       <==> ValidateAgainst(issuer, lease, presented, now).Valid? && now < notAfter
  {
    ValidExactly(issuer, lease, presented, now);
    ValidExactly(issuer, NarrowExpiry(lease, notAfter), presented, now);
  }

  class LeaseIssuer {
    const instance: string
    const maxTtl: nat
    var nextSequence: nat
    var revoked: set<nat>

    ghost function View(): IssuerView
      reads this
    {
      IssuerView(instance, maxTtl, nextSequence, revoked)
    }

    constructor (instance: string, maxTtl: nat)
      ensures View() == IssuerView(instance, maxTtl, 0, {})
    {
      this.instance := instance;
      this.maxTtl := maxTtl;
      nextSequence := 0;
      revoked := {};
    }

    method Issue(policy: PolicyDocument, origin: ProvenanceRecord, now: u64, ttl: nat)
      returns (result: Result<ComputeLease, LeaseError>)
      modifies this
      ensures (View(), result) == IssueFrom(old(View()), policy, origin, now, ttl)
    {
      if ttl == 0 {
        return Err(NonPositiveTtl);
      }
      if ttl > maxTtl {
        return Err(TtlExceedsMaximum(ttl, maxTtl));
      }
      var decision := Evaluate(policy, origin.context, origin.request);
      if decision.effect != Allow {
        return Err(LeaseDenied(decision));
      }
      var expiry := CheckedAdd(now, ttl);
      if expiry.None? {
        return Err(ExpiryOverflow);
      }
      var id := LeaseId(instance, nextSequence);
      nextSequence := nextSequence + 1;
      return Ok(ComputeLease(id, origin, decision.policy, decision.reason, now, expiry.value));
    }

    method Revoke(id: LeaseId) returns (outcome: RevocationOutcome)
      modifies this
      ensures (View(), outcome) == RevokeFrom(old(View()), id)
    {
      if id.issuer != instance {
        return ForeignIssuerId;
      }
      if id.sequence >= nextSequence {
        return NotIssued;
      }
      if id.sequence in revoked {
        return AlreadyRevoked;
      }
      revoked := revoked + {id.sequence};
      return Revoked;
    }

    method Validate(lease: ComputeLease, presented: ProvenanceRecord, now: u64) returns (validity: LeaseValidity)
      ensures validity == ValidateAgainst(View(), lease, presented, now)
    {
      if lease.id.issuer != instance {
        return ForeignIssuer(lease.id.issuer);
      }
      if lease.id.sequence in revoked {
        return RevokedLease;
      }
      if lease.origin.request.resource != presented.request.resource {
        return ResourceMismatch;
      }
      if lease.origin.request.action != presented.request.action {
        return ActionMismatch;
      }
      match CompareProcess(lease.origin.context.workload, presented.context.workload) {
        case Different => return WorkloadMismatch;
        case Indeterminate => return WorkloadIndeterminate;
        case Same =>
      }
      match CompareExecutable(lease.origin.context.workload, presented.context.workload) {
        case Different => return ExecutableMismatch;
        case Indeterminate => return WorkloadIndeterminate;
        case Same =>
      }
      if now >= lease.expiresAt {
        return Expired(lease.expiresAt);
      }
      return Valid(SaturatingSub(lease.expiresAt, now));
    }
  }
}
