/** A connected peer: what the kernel reported about it, what was observed
    independently, and whether the two agree. */
module Peer {
  import opened Prelude
  import opened Identity

  datatype PeerCredential = PeerCredential(pid: u32, effectiveUid: u32, effectiveGid: u32)

  datatype PeerConsistency =
    | Consistent
    | CredentialDivergence(peerEffectiveUid: u32, observedRealUid: Evidence<u32>, observedEffectiveUid: Evidence<u32>)
    | PeerUnmapped
    | ConsistencyIndeterminate(reason: string)

  datatype PeerContext = PeerContext(
    credential: PeerCredential,
    consistency: PeerConsistency,
    observed: ExecutionContext)

  /** The gate in front of policy and release: evidence only from a consistent peer. */
  function Authorizable(peer: PeerContext): Option<ExecutionContext> {
    if peer.consistency.Consistent? then Some(peer.observed) else None
  }

  /** Whether the effective uid the kernel reported at connect time agrees with what was
      observed of that process since. */
  function ClassifyConsistency(peerEffectiveUid: u32, realUid: Evidence<u32>, effectiveUid: Evidence<u32>): PeerConsistency {
    if (Trusted(realUid) && realUid.value == peerEffectiveUid) || (Trusted(effectiveUid) && effectiveUid.value == peerEffectiveUid) then
      Consistent
    else if realUid.Missing? && effectiveUid.Missing? then
      ConsistencyIndeterminate(realUid.reason)
    else
      CredentialDivergence(peerEffectiveUid, realUid, effectiveUid)
  }

  function FromKernelObservation(
    credential: PeerCredential, observed: ExecutionContext, realUid: Evidence<u32>, effectiveUid: Evidence<u32>): PeerContext
  {
    PeerContext(credential, ClassifyConsistency(credential.effectiveUid, realUid, effectiveUid), observed)
  }

  predicate TrustedUid(evidence: Evidence<u32>, uid: u32) {
    evidence.Present? && evidence.value == uid && evidence.source != SelfAsserted
  }

  /** Of the peers that do not pass, one is undecided exactly if neither uid could be
      observed; any uid observed, or never collected, is a divergence that names both. */
  lemma RefusedPeers(peerEffectiveUid: u32, realUid: Evidence<u32>, effectiveUid: Evidence<u32>)
    ensures var consistency := ClassifyConsistency(peerEffectiveUid, realUid, effectiveUid);
      && (consistency.ConsistencyIndeterminate? <==> realUid.Missing? && effectiveUid.Missing?)
      && (consistency.ConsistencyIndeterminate? ==> consistency.reason == realUid.reason)
      && (consistency.CredentialDivergence? ==>
            consistency == CredentialDivergence(peerEffectiveUid, realUid, effectiveUid))
      && !consistency.PeerUnmapped?
  {
  }

  /** A peer passes the gate exactly when some uid observed of it, and not by its own
      word, is the one the kernel reported; what passes is the observation untouched.
      Neither missing evidence nor a second, diverging uid changes that. */
  lemma AuthorizableExactly(credential: PeerCredential, observed: ExecutionContext, realUid: Evidence<u32>, effectiveUid: Evidence<u32>)
    ensures var gate := Authorizable(FromKernelObservation(credential, observed, realUid, effectiveUid));
      gate == if TrustedUid(realUid, credential.effectiveUid) || TrustedUid(effectiveUid, credential.effectiveUid)
              then Some(observed) else None
  {
  }
}
