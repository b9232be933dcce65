# Eltanin in Dafny

Eltanin is a local agent that hands out short-lived leases on
accelerators. A client asks for a lease, the agent evaluates policy over what it
observed of that client, asks a backend to enforce, and answers with a lease that
expires; `eltanin run` acquires one, starts a workload, renews in time and hands
everything back. This project models that system and proves what it promises.

| file | what it models |
|---|---|
| `Authority.dfy` | The lease authority as a state machine over any number of threads. A grant has two locked sections with the unlocked backend call and the unlocked clock reading between them; a release is one section, its own backend call included. Peers, backend answers and the passage of time are part of the events, so a run is an arbitrary interleaving against an arbitrary backend under a monotone clock. |
| `AuthorityInvariant.dfy`, `AuthorityProperties.dfy`, `AuthorityAnswers.dfy` | The inductive invariant, and what clients can rely on over all runs. |
| `AuthorityHistory.dfy` | A specification with no store, pruning, counter or revocation set, and the proof that the authority refines it. |
| `AuthorizationHandler.dfy`, `LeaseStore.dfy`, `Lease.dfy` | The handler, the store and the issuer as objects updated in place, each method proved against the state machine's functions. |
| `Policy.dfy`, `PolicyEvidence.dfy`, `Peer.dfy`, `Identity.dfy`, `Resource.dfy` | Policy evaluation, the peer gate and evidence comparison. |
| `FakeBackend.dfy` | The scriptable in-memory backend, and the authority running against it. |
| `AuthorityEnforcement.dfy`, `AuthorityRuns.dfy` | What stands at the backend against what the leases say: where the two come apart, exactly, and runs that show it. |
| `Launcher.dfy` | `eltanin run` over an outside world that keeps its own log of readings, messages, answers, sleeps, polls and signals with their true times; the code is proved to follow the protocol, an automaton over such logs. |
| `LaunchLog.dfy` | What a lawful log means, said of its entries. |
| `LaunchReleases.dfy` | How often a lawful log hands a lease back, and when its workload is gone before the last one. |
| `LaunchEndings.dfy` | What a launch answers, said of its log, and how a lapse is carried out. |
| `LaunchTiming.dfy` | When a lawful log can hold no lapse: how generous the agent and how prompt the launcher have to be. |
| `TwoParty.dfy` | A launcher and the agent together on one time base, with any number of other clients. |
| `WholeSystem.dfy` | The launching code's log, the arrival of its messages and everything else at the agent interleaved, proved to be a joint run of `TwoParty.dfy`. |
| `WholeRuns.dfy` | A run of that kind in which the code holds a lease and its workload is up. |
| `AuditLog.dfy`, `AuditExplain.dfy` | The audit writer under failing writes and several instances in one file, and the reader that recovers what was lost. |
| `Server.dfy` | Connection slot accounting across threads, and the drain at shutdown. |
| `Framing.dfy` | The length-prefixed frame and reading one from a stream cut into arbitrary pieces. |
| `Fnv.dfy`, `ProcStat.dfy` | The input fingerprint; the status-line parser and the ancestor walk. |

Conventions. The monotonic clock is an unsigned 64-bit nanosecond count whose
advance saturates; a lease whose expiry would overflow it is refused, as in the
code. Hash maps are finite maps; the handler's mutex is modelled by making each
locked section one event. The launcher's instants are nanoseconds whose addition
fails past a signed 64-bit count of seconds. In `Launcher.dfy` the delays, the
agent's answers, the child's exit and every failure are arbitrary functions given to
the `Outside` object; in `TwoParty.dfy` the launcher may make every move the code
makes, in any order the code and the network could produce, including losing an
answer or handing an id back any number of times.

## Where the code and its description differ, and what is not true

The code is followed in each case.

- Enforcement runs before the lease is stored and outside the lock, and a release
  counts only stored leases. A release can therefore revoke what another grant has
  just enforced but not stored yet: `GrantedButRevoked` is such a run and
  `LostEnforcementExactly` says exactly when a live lease is left unenforced.
- Pruning never calls the backend, so a resource can stand enforced with nobody to
  hold it: `ExpiredButStanding` is such a run and `LeftStandingExactly` says exactly
  when.
- If the backend panics in `enforce`, the reservation is never given back.
  `CapacityHolds` counts such threads and capacity safety survives. The counter equals
  the grants in progress in runs where every call returns (`ReservedIsInFlight`), and
  in general exactly if none was lost to a panic (`ReservedIsInFlightExactly`).
- Erasing evidence never turns a Deny into an Allow; lowering its trust can,
  because a deny rule below its floor no longer matches. `LoweringTrustCanAllow`
  is a concrete case and `LoweringCanAllowExactly` says exactly when, without naming
  the lowered context.
- A lease can be granted to a client that cannot release it:
  `GrantedWithoutWayBack` is such a run and `HolderMayReleaseExactly` says which
  clients those are.
- `ShutdownReport` counts as drained what finished within the timeout and as abandoned
  what was still running when it elapsed. A thread is judged by its last poll instead,
  which may fall before the deadline or after it: `VerdictWrongExactly` says which
  threads are misjudged, `LastPollIsNear` how near the deadline they finish, and
  `GivenUpThoughFinishedInTime` and `DrainedThoughFinishedLate` are one of each kind.
- The drain is described as capped by its timeout. A sleep begun before the deadline is
  slept out (`TimeoutOverrun`): `DrainInTimeExactly` says when it does end in time, and
  `DrainEnds` what it is capped by.
- Comparing Same as an executable is not transitive: `SameExecutableIsNotTransitive`
  has the cases and `SameExecutableCarriesOverExactly` the exact condition. The results
  here use it only between a lease's origin and one presented observation.
- When adding to an instant overflows, the launcher's deadline falls back to the
  reading it started from. `SafeDeadlineIsSafe` covers that case.
- The remaining time of a grant is clamped to a year after half of it is taken, so a
  lease of two years or more is due for renewal only at its deadline, when the workload
  is terminated instead (`RenewableExactly`, `RenewedOnlyIfRenewable`).
- A process id that is zero or does not fit a signed 32-bit integer cannot be
  signalled; a lapse then sends nothing, polls once and hands the lease back
  (`TerminateForLapsedAuthorization`), even if the child is still running.
  `OutlivesExactly`: no other child can, if waiting for it after the kill succeeds.

## Model

| member | source | states |
|---|---|---|
| `AuthorityHistory.AgentRefinesHistory` | crates/eltanin-agent/src/authz/mod.rs:274-487 | Main theorem. For every interleaving, the agent with its lazy pruning, reservation counter and revocation set gives, event for event, the replies and backend calls of a plain history in which a lease is live when it was granted, not released and has not expired |
| `AuthorityHistory.EventAgrees` | crates/eltanin-agent/src/authz/mod.rs:274-487 | The simulation step behind it: one event takes related states to related states with the same output |
| `AuthorityHistory.IssueAgrees` | crates/eltanin-agent/src/authz/mod.rs:274-297 | The locked issue section, read without its bookkeeping: capacity counts only unexpired leases, then policy, then overflow, and only then a lease with the next number and an expiry of exactly now plus the ttl |
| `AuthorityHistory.ReleaseSectionAgrees` | crates/eltanin-agent/src/authz/mod.rs:425-487 | The locked release section, read without its bookkeeping, for a stored lease in good standing: which refusal arises when, and when the backend is called |
| `AuthorizationHandler.Execute` | crates/eltanin-agent/src/authz/mod.rs:226-487 | The handler object, driven through any interleaving with its fields updated in place, outputs exactly the history's trace |
| `AuthorizationHandler.Handler.constructor` | crates/eltanin-agent/src/authz/mod.rs:238-263 | A new handler is the initial state: nothing stored, nothing reserved, number zero, the issuer bounded by the one ttl |
| `AuthorizationHandler.Handler.IssueUnderLock` | crates/eltanin-agent/src/authz/mod.rs:274-297 | Prune, capacity check, issue and reserve as one section; the new store and the answer are those of the specification |
| `AuthorizationHandler.Handler.BeginGrant` | crates/eltanin-agent/src/authz/mod.rs:310-349 | First half of a grant: the peer gate, then the locked section; only a minted lease leaves a thread in flight |
| `AuthorizationHandler.Handler.BackendReturned` | crates/eltanin-agent/src/authz/mod.rs:352-352 | The unlocked enforce call returned: only Allowed leads on to a grant |
| `AuthorizationHandler.Handler.BackendUnwound` | crates/eltanin-agent/src/authz/mod.rs:352-352 | The unlocked enforce call panicked: the thread is gone and its reservation stays taken |
| `AuthorizationHandler.Handler.ReadRemaining` | crates/eltanin-agent/src/authz/mod.rs:353-355 | The clock reading after the backend call, taken without the lock |
| `AuthorizationHandler.Handler.SettleGrant` | crates/eltanin-agent/src/authz/mod.rs:356-408 | Second half of a grant: insert and announce what is left, or revoke and give the slot back |
| `AuthorizationHandler.Handler.CompensateUnderLock` | crates/eltanin-agent/src/authz/mod.rs:358-360 | The compensating section: the number is revoked and the reservation returned |
| `AuthorizationHandler.Handler.HandleRelease` | crates/eltanin-agent/src/authz/mod.rs:411-424 | A release: the peer gate, then everything under one lock |
| `AuthorizationHandler.Handler.ReleaseUnderLock` | crates/eltanin-agent/src/authz/mod.rs:425-487 | Prune, look up, validate, decide on teardown before removal, revoke, remove, call the backend, all in one section |
| `AuthorizationHandler.Handler.Handle` | crates/eltanin-agent/src/authz/mod.rs:490-517 | Dispatch of one event onto the object; the new state and the output are those of the state machine |
| `AuthorityInvariant.ReachableInv` | crates/eltanin-agent/src/authz/mod.rs:264-487 | Every state any interleaving can reach satisfies the invariant: minted leases in order and well formed, each number in one place at most, a missing number only by expiry, reservations exactly the grants in progress, everything within the bound |
| `AuthorityInvariant.StepKeeps` | crates/eltanin-agent/src/authz/mod.rs:264-487 | Every single event keeps that invariant, from any state satisfying it |
| `AuthorityInvariant.PruneKeeps` | crates/eltanin-agent/src/authz/state.rs:54-56 | Pruning keeps the invariant and never adds a lease |
| `AuthorityInvariant.RequestEffect` | crates/eltanin-agent/src/authz/mod.rs:274-349 | A request leaves the state alone, or prunes it, or prunes it and mints exactly the next lease into the requesting thread |
| `AuthorityInvariant.ReleaseEffect` | crates/eltanin-agent/src/authz/mod.rs:411-487 | A release leaves the state alone, or prunes it, or prunes it and retires exactly its own lease |
| `AuthorityInvariant.SettleEffect` | crates/eltanin-agent/src/authz/mod.rs:352-408 | Settling inserts the thread's lease exactly when the clock reading was before its expiry, and otherwise compensates for it |
| `AuthorityProperties.CapacityHolds` | crates/eltanin-agent/src/authz/state.rs:58-81 | For any number of threads: stored plus reserved never exceeds the bound, the counter is exactly the threads between their two sections plus the panicked ones, and the saturating decrement never saturates |
| `AuthorityProperties.ReservedIsInFlight` | crates/eltanin-agent/src/authz/state.rs:62-75 | When every backend call returns, the counter is exactly the number of grants in progress |
| `AuthorityProperties.ExactlyOneFate` | crates/eltanin-core/src/lease.rs:378-431 | Every number below the issuer's next one is exactly one of in flight, stored, withdrawn, lost to a panic, or pruned by expiry; no other number is any of them |
| `AuthorityProperties.FateMoves` | crates/eltanin-agent/src/authz/mod.rs:352-408 | One event moves a number at most one stage onward |
| `AuthorityProperties.FateNeverMovesBack` | crates/eltanin-agent/src/authz/mod.rs:352-487 | Over any number of events no number moves back |
| `AuthorityProperties.NeverValidAgain` | crates/eltanin-core/src/lease.rs:420-495 | A lease once revoked or expired validates for no presented record at any later moment of any run |
| `AuthorityProperties.LaterNeverExpiresEarlier` | crates/eltanin-agent/src/authz/mod.rs:279-289 | In every reachable ledger a later number never expires earlier: one ttl, and a clock read under the lock |
| `AuthorityProperties.ReleaseAnswersExactly` | crates/eltanin-agent/src/authz/mod.rs:411-487 | In reachable states a release answers Released exactly when the peer is consistent, the id stored and unexpired, and process and executable both compare Same; then the issuer says Revoked; a refusal only prunes; of the validity verdicts only the two workload ones and the executable one can occur |
| `AuthorityProperties.RevokeCalledExactly` | crates/eltanin-agent/src/authz/mod.rs:452-476 | The backend is told to revoke a resource exactly by the successful release that leaves no stored lease naming it, once, and by no other event |
| `AuthorityProperties.RevokeOnLastRelease` | crates/eltanin-agent/src/authz/mod.rs:452-476 | What a successful release calls: nothing while another stored lease names the resource, one revoke of that resource otherwise |
| `AuthorityProperties.OnlyReleasesRevoke` | crates/eltanin-agent/src/authz/mod.rs:310-409 | No grant path, compensation included, ever has the backend revoke |
| `AuthorityProperties.ReleasedAtMostOnce` | crates/eltanin-cli/src/supervise.rs:220-233 | However often a release is retried, in any interleaving one id is released at most once, so its retries cause at most one teardown |
| `AuthorityProperties.EveryLeaseJustified` | crates/eltanin-core/src/lease.rs:378-416 | In every reachable state every lease ever minted carries the provenance and reason of an Allow over its own origin |
| `AuthorityProperties.IssueAnswersExactly` | crates/eltanin-agent/src/authz/mod.rs:274-349 | What a request past the gate meets, in the order of the checks: no room, Deny, clock overflow, or a justified lease under the next number; no other issue error can arise |
| `AuthorityAnswers.RequestAnswersExactly` | crates/eltanin-agent/src/authz/mod.rs:274-349 | The whole answer to a request in any reachable state, in the order of the checks: gate, room among the unexpired leases, the grants in progress and the lost ones, policy with its reason, overflow; past them no answer yet, and every field of the lease minted |
| `AuthorityAnswers.SettlingAnswersExactly` | crates/eltanin-agent/src/authz/mod.rs:352-408 | The whole answer at the end of a grant: stored and announced with what was left at the thread's reading, or not stored and an internal error that records the cause |
| `AuthorityAnswers.GrantTellsItsReading` | crates/eltanin-agent/src/authz/mod.rs:352-384 | In every run a grant says exactly what its lease's expiry left at the reading its own thread made after the backend had allowed it |
| `AuthorityAnswers.ReleaseOutcomesExactly` | crates/eltanin-agent/src/authz/mod.rs:411-487 | The recorded outcome of a release in any reachable state, in the order of the checks, the backend's answer among it exactly if it was called and did answer |
| `AuthorityProperties.GrantIsTruthful` | crates/eltanin-agent/src/authz/mod.rs:352-384 | A grant announces the settling thread's own lease, now stored, with a remaining time above zero and at most one ttl that is what its expiry left at a reading between issue and now |
| `AuthorityProperties.GrantedIdsAreFresh` | crates/eltanin-core/src/lease.rs:402-416 | No id is granted twice in any run |
| `AuthorityProperties.DenialMeansDeny` | crates/eltanin-agent/src/authz/mod.rs:310-349 | A request is answered with a denial exactly when the gate stopped the peer, or there was room and policy said Deny, and then with policy's own kind of reason |
| `AuthorityProperties.OnlyRequestsAreDenied` | crates/eltanin-agent/src/authz/mod.rs:491-517 | No other event answers with a denial |
| `AuthorityProperties.UninterruptedGrant` | crates/eltanin-agent/src/authz/mod.rs:310-384 | With room, an Allow, no overflow, an allowing backend and no time passing, a request ends in one full ttl under the next id, with reservations and threads as before |
| `AuthorityProperties.ReleaseUndoesGrant` | crates/eltanin-agent/src/authz/mod.rs:411-487 | Releasing that grant leaves the store and the reservations as pruning alone would have, the number spent and withdrawn, and calls revoke exactly if nothing live named the resource before |
| `AuthorityProperties.HolderMayReleaseExactly` | crates/eltanin-core/src/lease.rs:443-495 | A holder whose pid, start token, executable hash and path are as at grant time, everything else about it arbitrary, can hand its lease back exactly if its start token and one kind of executable evidence are trusted; a grant asks for neither |
| `AuthorityEnforcement.LostEnforcementExactly` | crates/eltanin-agent/src/authz/mod.rs:352-372 | For every run and every live lease: its resource has lost its enforcement exactly if a revoke call fell between the lease's own allowed enforce call and its grant and no enforce call on the resource was allowed after that; from its grant on no revoke call touches it |
| `AuthorityEnforcement.LeftStandingExactly` | crates/eltanin-agent/src/authz/state.rs:54-56 | For every run that leaves nobody holding a resource: it still stands enforced exactly if it stood when its last holder went and that one expired or settled without a grant, rather than being released |
| `AuthorityEnforcement.HoldingStartsExactly` | crates/eltanin-agent/src/authz/mod.rs:310-384 | In reachable states a resource nobody holds comes to be held exactly by an enforce call on it that is allowed |
| `AuthorityEnforcement.LastToGo` | crates/eltanin-agent/src/authz/mod.rs:425-476 | The last holder of a resource goes by time passing, by settling without a grant, or by a release, and only the release has the backend revoke |
| `AuthorityEnforcement.RunIsRecorded` | crates/eltanin-agent/src/authz/mod.rs:352-384 | In every run each stored lease has its allowed enforce call and then its grant behind it, and if it is live nothing revoked the resource since |
| `AuthorityRuns.GrantedButRevoked` | crates/eltanin-agent/src/authz/mod.rs:452-476 | A run: a release overtakes a second grant past its enforce call, and the lease then stored, granted and live is no longer enforced |
| `AuthorityRuns.ExpiredButStanding` | crates/eltanin-agent/src/authz/state.rs:54-56 | A run: a lease expires, nobody holds the resource, and it still stands enforced |
| `AuthorityRuns.EnforcedByAnother` | crates/eltanin-agent/src/authz/mod.rs:352-372 | A run: after the same overtaking a third grant's enforce call makes the resource stand again although the only live lease was revoked after its own |
| `AuthorityRuns.ReleasedThenExpired` | crates/eltanin-agent/src/authz/mod.rs:452-476 | A run: one holder is released while another is stored, which then expires; the resource is left standing and revoke was never called |
| `AuthorityRuns.GrantedWithoutWayBack` | crates/eltanin-core/src/lease.rs:443-495 | A run: a client whose start token is missing is granted a lease and refused its release |
| `AuthorityProperties.ImpostorNeverReleases` | crates/eltanin-core/src/lease.rs:467-485 | A peer with another trusted pid, start token or hash than the holder's never releases the lease, and trying changes nothing but pruning |
| `AuthorityProperties.ReservedIsInFlightExactly` | crates/eltanin-agent/src/authz/state.rs:62-75 | In every reachable state the counter is the number of grants in progress exactly if no panic has lost one |
| `LeaseStore.LeaseState.PruneExpired` | crates/eltanin-agent/src/authz/state.rs:54-56 | Drops exactly the leases whose expiry is not after now |
| `LeaseStore.LeaseState.IsAtCapacity` | crates/eltanin-agent/src/authz/state.rs:58-60 | Full exactly when stored and reserved together reach the bound |
| `LeaseStore.LeaseState.InsertReserved` | crates/eltanin-agent/src/authz/state.rs:78-81 | Consumes one reservation and stores the lease under its own id |
| `LeaseStore.LeaseState.AnyOtherLiveLeaseForSameResource` | crates/eltanin-agent/src/authz/state.rs:95-102 | True exactly when the id is stored and a different stored id names the same resource |
| `Lease.LeaseIssuer.Issue` | crates/eltanin-core/src/lease.rs:378-416 | The order of the refusals, and on success one fresh number, the decision's provenance and an expiry of now plus ttl; a refusal uses no number |
| `Lease.LeaseIssuer.Revoke` | crates/eltanin-core/src/lease.rs:420-431 | Foreign, never issued, already revoked or revoked, and only the last changes anything |
| `Lease.LeaseIssuer.Validate` | crates/eltanin-core/src/lease.rs:443-495 | Agrees, check by check, with the declarative verdict |
| `Lease.ValidExactly` | crates/eltanin-core/src/lease.rs:443-495 | A lease is valid exactly when issued here, not revoked, for the same request, by the same process running the same executable, and unexpired, and then its remaining time is true and positive |
| `Lease.VerdictNamesFirstFault` | crates/eltanin-core/src/lease.rs:443-495 | Every other verdict, each by an if-and-only-if: the first thing that speaks against the lease, in the order of the checks |
| `Lease.MintsExactly` | crates/eltanin-core/src/lease.rs:378-416 | When an issuer mints and every field of what it mints; each refusal by an if-and-only-if, and a refusal mints nothing |
| `Lease.WithdrawsExactly` | crates/eltanin-core/src/lease.rs:420-431 | Each outcome of a revocation by an if-and-only-if, and the number withdrawn exactly if it was issued |
| `Lease.NarrowingNeverWidens` | crates/eltanin-core/src/lease.rs:245-250 | A narrowed lease is valid exactly where the original is and the narrower bound has not been reached |
| `Identity.ProcessVerdictExactly` | crates/eltanin-core/src/identity.rs:146-170 | Same and Different said of the fields: both start tokens observed and not by the process's own word, pids and tokens equal or not; and the verdict depends on pid and start token alone, so a changed ancestry changes nothing |
| `Identity.ExecutableVerdictExactly` | crates/eltanin-core/src/identity.rs:181-215 | Hashes decide if observed on both sides and not by the process's own word, whatever the paths; paths decide only if hashes cannot; nothing else counts |
| `Identity.SameProcessComparesAlike` | crates/eltanin-core/src/identity.rs:146-170 | Processes that compare Same compare alike with every third one |
| `Identity.VerdictsNeedTrust` | crates/eltanin-core/src/identity.rs:146-215 | Both comparisons are symmetric, and undecided exactly when no evidence of the deciding kind is trusted on both sides |
| `Identity.SameExecutableCarriesOverExactly` | crates/eltanin-core/src/identity.rs:181-215 | Same executable carries over from pair to pair, for all workloads of a given pattern of trusted hashes, exactly if the trusted hashes do not number two |
| `Identity.SameExecutableIsNotTransitive` | crates/eltanin-core/src/identity.rs:181-215 | For each pattern with two trusted hashes, three workloads Same along the chain and Different at its ends |
| `Peer.RefusedPeers` | crates/eltanin-core/src/peer.rs:270-301 | Which refused peer is called undecided, and which a divergence with both uids named |
| `Peer.AuthorizableExactly` | crates/eltanin-core/src/peer.rs:234-301 | A peer passes the gate exactly when a trusted observed uid, real or effective, equals the kernel-reported one, and what passes is the observation untouched |
| `FakeBackend.SystemIsARun` | crates/eltanin-backend/src/fake.rs:114-178 | Against the scriptable backend the agent only makes runs it could make against an arbitrary one, so every result above holds |
| `FakeBackend.RevokeCounterIsExact` | crates/eltanin-backend/src/fake.rs:88-111 | The per-resource counter is exactly the number of revoke calls the agent made over the whole run, failed ones included, whatever is inserted, removed or scripted meanwhile |
| `FakeBackend.NeverGrantedUnenforced` | crates/eltanin-backend/src/fake.rs:136-161 | A resource never inserted with full DeviceEnforce support never has a lease in the store, under any scripts and any interleaving |
| `FakeBackend.ScriptsAreHonoured` | crates/eltanin-backend/src/fake.rs:136-161 | After any run, an enforce call is answered by the script last set and not removed, or allowed without one, if the resource last inserted and not removed can enforce; else by why not |
| `FakeBackend.RevokingIsItsOwnCapability` | crates/eltanin-backend/src/fake.rs:163-178 | After any run, a revoke call is answered by the capability to revoke of the resource last inserted, and by no script |
| `FakeBackend.Backend.Enforce` | crates/eltanin-backend/src/fake.rs:136-161 | Unavailable, then the capability check, then the script, then Allowed |
| `FakeBackend.Backend.Revoke` | crates/eltanin-backend/src/fake.rs:163-178 | Counts first, then answers; calls that fail count too |
| `FakeBackend.Backend.Remove` | crates/eltanin-backend/src/fake.rs:60-69 | The resource and its script go, the counter stays |
| `Launcher.Run` | crates/eltanin-cli/src/launch.rs:44-128 | Over an arbitrary outside the log left behind is one the protocol follows to its end, or to a poll of the running workload after the given number of turns, and the answer is the one the log decides. The outside writes the log, with true times; the code cannot |
| `Launcher.RequestInitialLease` | crates/eltanin-cli/src/launch.rs:130-148 | The clock is read, then the request sent; the reading returned is the one the log shows before that request |
| `Launcher.LaunchGranted` | crates/eltanin-cli/src/launch.rs:74-128 | From the first grant on, every way out hands the lease back before teardown |
| `Launcher.Supervise` | crates/eltanin-cli/src/supervise.rs:97-136 | Each turn polls, reads the clock and then lapses, renews or sleeps as that very reading demands, against the deadline and renewal time the log determines |
| `Launcher.Renew` | crates/eltanin-cli/src/supervise.rs:146-159 | Exactly one attempt, its reading before its request; a grant is adopted before the old id goes back, anything else keeps lease and deadline and backs off |
| `Launcher.Release` | crates/eltanin-cli/src/supervise.rs:220-233 | One hand-back of the oldest id not yet returned: release messages naming it, the back-offs between them, at most three, stopping at the first acknowledgement |
| `Launcher.TerminateForLapsedAuthorization` | crates/eltanin-cli/src/supervise.rs:190-210 | Terminate, a grace period polled through, kill, and then the wait for the exit; for a pid that cannot be signalled the only entry is one poll |
| `Launcher.WaitOutGrace` | crates/eltanin-cli/src/supervise.rs:195-204 | Kill comes next only after a reading at or past the grace deadline; an exit seen in between ends the wait |
| `LaunchLog.EveryGrantHandedBack` | crates/eltanin-cli/src/supervise.rs:220-241 | In a launch that ran to its end the completed hand-backs, read off the release messages and their answers, are exactly the granted ids, in order |
| `LaunchLog.HandedBackFollowsGranted` | crates/eltanin-cli/src/supervise.rs:146-159 | At every moment of every launch the hand-backs are a prefix of the grants |
| `LaunchLog.ReleasesInTurn` | crates/eltanin-cli/src/supervise.rs:146-159 | A release message names the oldest lease not handed back; the youngest goes back only after an exit, a failed start or a reading at or past its deadline, any other while a younger one is held |
| `LaunchLog.SpawnOnlyAfterGrant` | crates/eltanin-cli/src/launch.rs:66-99 | A spawn is preceded by exactly one answer granting a lease and by no release message |
| `LaunchLog.AskedRightAfterReading` | crates/eltanin-cli/src/supervise.rs:146-148 | Every lease request is sent right after a clock reading, and always for the profile's resource and action |
| `LaunchLog.DeadlineIsSafe` | crates/eltanin-cli/src/supervise.rs:146-153 | If what each grant says is left was left at some moment between its request being sent and its answer being heard, the deadline worked to never passes the true expiry of the youngest lease |
| `LaunchLog.TerminatedOnlyPastDeadline` | crates/eltanin-cli/src/supervise.rs:123-128 | The termination signal goes to the child's group right after a clock reading at or past the deadline counted from the reading before the youngest grant's request |
| `LaunchLog.KilledOnlyAfterGrace` | crates/eltanin-cli/src/supervise.rs:190-210 | The kill signal comes at least five seconds after the termination signal to the same group |
| `LaunchLog.FailedAttemptsAreSpaced` | crates/eltanin-cli/src/supervise.rs:161-165 | The clock readings behind two consecutive requests are at least one second apart if the first was not granted |
| `LaunchLog.EveryTurnIsPrompt` | crates/eltanin-cli/src/supervise.rs:115-135 | What follows each turn's reading: at or past the deadline the signal, or a mere poll if the child cannot be signalled; else, if due, a renewal attempt; else the sleep |
| `LaunchLog.Chronological` | crates/eltanin-cli/src/supervise.rs:97-136 | Entries of a lawful log are in the order of their times |
| `LaunchReleases.AtMostThreeAttempts` | crates/eltanin-cli/src/supervise.rs:220-233 | Where no id is granted twice: no id is named by more than three release messages of a lawful log, one never granted by none, and in a launch that ran to its end each granted one by at least one |
| `LaunchReleases.OutlivesExactly` | crates/eltanin-cli/src/supervise.rs:190-233 | That the child was seen to have exited, or was waited for after the kill, before the youngest lease goes back holds of every lawful log exactly if its process id can be signalled |
| `LaunchReleases.LastLeaseOutlivesWorkload` | crates/eltanin-cli/src/supervise.rs:115-128 | One half of it: the youngest lease of a child that can be signalled goes back only after the log shows its exit or the wait for it |
| `LaunchReleases.LeftRunning` | crates/eltanin-cli/src/supervise.rs:190-193 | The other half: for any other process id, a lawful log in which the lease goes back and nothing shows the child gone |
| `LaunchReleases.KilledIsWaitedFor` | crates/eltanin-cli/src/supervise.rs:206-209 | What comes after the kill is the wait for the exit |
| `LaunchTiming.NoLapse` | crates/eltanin-cli/src/supervise.rs:97-165 | Why renewing at half-time is enough. If every request is granted at least a given time and at most a year, every entry of a lawful log follows the one before within a given delay, sleeps aside, half the lease covers a turn of the loop and the whole lease a renewal with the slowest hand-back and the turn after it, then nobody is ever signalled and no launch ends in a lapse |
| `LaunchTiming.AlwaysOnTime` | crates/eltanin-cli/src/supervise.rs:97-165 | The invariant behind it: at every entry, whatever comes next, the reading of the next turn comes before the deadline |
| `LaunchTiming.RenewableExactly` | crates/eltanin-cli/src/supervise.rs:40-61 | There is a moment with a renewal due and the deadline ahead exactly if the lease has something left, less than two years of it, and adding it overflows nothing |
| `LaunchTiming.RenewedOnlyIfRenewable` | crates/eltanin-cli/src/supervise.rs:106-135 | In every lawful log any other grant is the last thing ever asked for |
| `LaunchEndings.EndingExactly` | crates/eltanin-cli/src/supervise.rs:97-136 | What a launch that ran to its end answers, said of the entries: the status a poll saw before any lapse; a lapse exactly if a turn's reading reached the deadline, with the status last polled or waited for; a refused spawn exactly if one was tried and refused; failed exactly if none was tried |
| `LaunchEndings.Launch` | crates/eltanin-cli/src/launch.rs:44-152 | The same of the code, over an arbitrary outside; it is undecided exactly if cut off |
| `LaunchEndings.GraceIsExact` | crates/eltanin-cli/src/supervise.rs:190-209 | The grace period is five seconds from the reading right after the termination signal: a later reading at or past its end is followed by the kill of the same group, an earlier one by a poll |
| `LaunchEndings.GracePollsAreSpaced` | crates/eltanin-cli/src/supervise.rs:195-204 | A poll in the grace period that finds the child running is followed by a sleep of a fifth of a second |
| `LaunchReleases.ReleaseRetriesExactly` | crates/eltanin-cli/src/supervise.rs:220-233 | A release message is followed by its answer; unless that says released or was the third, the same message is sent again a tenth of a second after the first answer and a fifth after the second |
| `LaunchTiming.RetriedOnceDue` | crates/eltanin-cli/src/supervise.rs:161-165 | After a request that was not granted, made on the reading t, a turn whose reading is a second or more past t and before the deadline is followed by another request, and one before that by a sleep |
| `LaunchTiming.RetriedSoon` | crates/eltanin-cli/src/supervise.rs:161-165 | With every delay at most L, and nothing having ended the workload, the launcher gets no further than a second (or 2L) plus a fifth and 4L past t without having asked again |
| `LaunchTiming.RenewedAtHalfTime` | crates/eltanin-cli/src/supervise.rs:146-153 | After a grant made on the reading t a turn asks again from half the remaining time past t on and not sooner, and terminates from the whole of it on |
| `Launcher.SafeDeadlineExactly` | crates/eltanin-cli/src/supervise.rs:40-61 | A deadline is the reading plus the remaining time, of which at most a year counts, or the reading itself if that time cannot be told |
| `Launcher.SafeDeadlineIsSafe` | crates/eltanin-cli/src/supervise.rs:58-61 | Counted from a reading no later than the agent's, the deadline is never before that reading and never past the true expiry, clamped or overflowing |
| `TwoParty.QuietWhileRenewedInTime` | crates/eltanin-cli/src/supervise.rs:146-159 | Main two-party theorem. From a first grant on, through any number of renewals, past the end of the workload and up to the arrival of the release of the lease then held, and under any doings of other clients: as long as each renewal is granted before its predecessor expires, no event by anybody has the backend revoke the launcher's resource |
| `TwoParty.RenewalNeverTearsDown` | crates/eltanin-cli/src/supervise.rs:149-153 | Handing a superseded lease back never tears the resource down before a release of the lease held has reached the agent, however late it is |
| `TwoParty.DeadlineNeverPassesExpiry` | crates/eltanin-cli/src/supervise.rs:146-153 | On the shared time base the launcher's deadline is never later than the agent's expiry of the lease it holds, through any number of renewals |
| `TwoParty.NoTeardownWhileCovered` | crates/eltanin-agent/src/authz/mod.rs:452-476 | While the lease the launcher holds, no release of which has reached the agent, or one just granted to it is unexpired, no event by anyone makes the backend revoke its resource, but for the launcher's own release of the one held with none just granted |
| `TwoParty.NoTeardownBeforeDeadline` | crates/eltanin-cli/src/supervise.rs:123-128 | In particular not before the launcher's own deadline, unless its release of the lease held arrives by then |
| `TwoParty.HeldUntilOver` | crates/eltanin-cli/src/supervise.rs:97-136 | Until its workload is over no release of the lease the launcher holds reaches the agent, so both of the above apply |
| `TwoParty.CoverLasts` | crates/eltanin-cli/src/supervise.rs:146-159 | Only time, forgetting an answer while holding nothing live, or letting go of the lease held can end the cover |
| `TwoParty.AdoptingKeepsCover` | crates/eltanin-cli/src/supervise.rs:149-152 | Adopting a newer grant never shortens the cover |
| `TwoParty.JointReachable` | crates/eltanin-cli/src/supervise.rs:97-159 | The joint invariant holds after every run in which nobody else is observed as the launcher's process |
| `TwoParty.ProtectionLasts` | crates/eltanin-agent/src/authz/mod.rs:411-487 | A lease granted to the launcher stays stored, or expires, unless released by a peer observed as the launcher's own process |
| `TwoParty.WithdrawnOnlyByRelease` | crates/eltanin-agent/src/authz/mod.rs:411-487 | A stored lease is withdrawn only by a successful release of its own id |
| `WholeSystem.RunIsJoint` | crates/eltanin-cli/src/supervise.rs:97-159 | Any interleaving of a lawful launch log, the arrival of its messages and everything else at the agent is a joint run of the two-party model |
| `WholeSystem.RunAgrees` | crates/eltanin-cli/src/supervise.rs:97-159 | After every such run the youngest granted id and its deadline, the superseded ids, the end of the workload and the reading behind the request in flight agree between the log and the joint launcher, and every release sent is one that launcher may send |
| `WholeSystem.CodeDeadlineNeverPassesExpiry` | crates/eltanin-cli/src/supervise.rs:146-153 | In every such run the deadline the code works to is at most the agent's own expiry of the youngest lease granted |
| `WholeSystem.CodeIsCoveredToItsDeadline` | crates/eltanin-agent/src/authz/mod.rs:452-476 | The same while the clock is before the code's own deadline, until a release of the youngest lease reaches the agent |
| `WholeSystem.CodeIsCoveredByAnyLease` | crates/eltanin-agent/src/authz/mod.rs:452-476 | In every such run, whether the workload is over or not: as long as a lease just granted to the code is unexpired, or the youngest it knows of is and no release of that one has reached the agent, no event by anybody has the backend revoke the resource |
| `WholeSystem.CodeRenewalNeverTearsDown` | crates/eltanin-cli/src/supervise.rs:149-153 | A release message for any other lease never has the backend revoke the resource before one for the youngest has reached the agent, however late or often it arrives |
| `WholeSystem.RunningWorkloadIsCovered` | crates/eltanin-cli/src/supervise.rs:123-210 | Main whole-system theorem. As long as the log does not show the workload gone, through a lapse's termination signal, its grace period, the kill and the wait, an unexpired lease keeps anybody's doings from having the resource revoked under it; the child's process id is one that can be signalled |
| `WholeSystem.ReleasedOnlyWhenGone` | crates/eltanin-cli/src/supervise.rs:115-128 | In every such run a release of the youngest lease is sent only once the log shows the workload gone |
| `WholeSystem.NothingArrivesBeforeOver` | crates/eltanin-cli/src/supervise.rs:97-136 | And none reaches the agent before the workload is over |
| `WholeSystem.GrantedIdsAscend` | crates/eltanin-cli/src/supervise.rs:146-159 | In every such run the numbers of the ids granted to the code ascend, so no id is granted to it twice |
| `WholeSystem.CodeTriesAtMostThreeTimes` | crates/eltanin-cli/src/supervise.rs:220-233 | In every such run, with nothing assumed of the ids, no id is named by more than three release messages and none that was not granted by any |
| `WholeRuns.RunsUnderALease` | crates/eltanin-cli/src/supervise.rs:97-159 | Such a run of twelve events, from loading the profile to the spawned workload, with the lease held, stored at the agent, and its deadline ahead |
| `WholeSystem.EntryFollows` | crates/eltanin-cli/src/supervise.rs:97-159 | What one lawful entry does to the grants, the deadline and the end of the workload, whichever entry it is |
| `Policy.Evaluate` | crates/eltanin-core/src/policy.rs:539-596 | The loop over authored rules computes the order-free decision |
| `Policy.EvaluateRule` | crates/eltanin-core/src/policy.rs:287-308 | The early return loses nothing: one refuted condition refutes the rule whatever is indeterminate, before or after it |
| `PolicyEvidence.AllowedExactly` | crates/eltanin-core/src/policy.rs:539-590 | Main policy theorem, on the observed fields alone: Allow exactly if something every relevant deny rule asks for was observed to be otherwise and everything some relevant allow rule asks for was observed as expected by a source it puts up with; and the decision bears the policy's own id and revision |
| `PolicyEvidence.ConditionReadsItsField` | crates/eltanin-core/src/policy.rs:192-260 | Each of the five conditions, said of the one field it reads: its value, its source, and whether it was observed |
| `PolicyEvidence.RuleReadsItsFields` | crates/eltanin-core/src/policy.rs:253-310 | A rule is matched exactly if all of its conditions are met, and refuted exactly if one was observed to be otherwise |
| `PolicyEvidence.AnotherValueNeverDecides` | crates/eltanin-core/src/policy.rs:192-203 | For each of the five kinds: a rule asking for a value other than the one observed is never among the rules the reason names |
| `PolicyEvidence.AnotherValueDenies` | crates/eltanin-core/src/policy.rs:192-203 | If every relevant allow rule asks for another value than the one observed, the decision is Deny |
| `PolicyEvidence.KernelsWordDecides` | crates/eltanin-core/src/policy.rs:192-203 | A relevant rule of which the kernel says all it asks for is matched, and a deny rule then denies |
| `PolicyEvidence.SameKindExactly` | crates/eltanin-core/src/policy.rs:242-250 | Two conditions count as one kind exactly if they read the same field |
| `Policy.AllowExactly` | crates/eltanin-core/src/policy.rs:539-596 | Allow exactly when no relevant deny rule is matched or indeterminate and some relevant allow rule is matched |
| `Policy.ReasonNamesDecidingRules` | crates/eltanin-core/src/policy.rs:566-590 | Each reason lists precisely the rules that decided, and the overridden allow rules of an explicit deny |
| `Policy.DecisionIgnoresOrder` | crates/eltanin-core/src/policy.rs:539-596 | Permuting rules, and conditions inside rules, leaves effect, reason with its rule ids, and provenance unchanged |
| `Policy.ErasingEvidenceNeverAllows` | crates/eltanin-core/src/policy.rs:192-203 | What is allowed with fields missing or unsupported is allowed however they are filled in, by at least the same rules |
| `Policy.LoweringOnlyRefutes` | crates/eltanin-core/src/policy.rs:142-152 | Lowering the source of some evidence only ever takes matches away |
| `Policy.LoweringTrustAllowsExactly` | crates/eltanin-core/src/policy.rs:192-203 | Exactly when lowering trust turns Deny into Allow: an allow rule still matches and every deny rule that stood in the way fell below its floor |
| `Policy.LoweringCanAllowExactly` | crates/eltanin-core/src/policy.rs:142-203 | Said of the context as observed alone: some lowering of trust lets a request through exactly if some allow rule matches and every relevant deny rule not refuted has a matched condition whose evidence that allow rule does not read, or reads with the lower floor where the deny rule asks the higher |
| `Policy.LoweringTrustCanAllow` | crates/eltanin-core/src/policy.rs:192-203 | A concrete policy and context where it does: lowering trust, unlike erasing, is not monotone |
| `Policy.FromDocument` | crates/eltanin-core/src/policy.rs:434-468 | Accepts exactly the acceptable documents, unchanged, and otherwise blames the first offending rule for its first offence, the rules before it being acceptable and of distinct ids |
| `AuditExplain.WriteThenExplain` | crates/eltanin-audit/src/explain.rs:84-136 | Writer and reader together, over any interleaving of any sinks with any failed writes: all records back in file order, the gaps exactly the writes lost below each instance's last persisted one, and the three-way answer for an id true to its fate |
| `AuditExplain.GapsAreLostWrites` | crates/eltanin-audit/src/explain.rs:172-206 | After any such run a gap is exactly a failed number below its instance's highest persisted one |
| `AuditExplain.DetectGaps` | crates/eltanin-audit/src/explain.rs:172-206 | Reports exactly the absent numbers below a present one of the same instance, each once, in order within an instance; an unreadable line with a recovered id is present |
| `AuditExplain.ReadLog` | crates/eltanin-audit/src/explain.rs:84-136 | Said of the lines: every line is exactly one of blank, the next record, or what the next unreadable entry is about, by number, with the id recovered from it and the reason that applies; an id is a gap exactly if no line has it, readable or not, and a line has a later number of its instance |
| `AuditExplain.EveryLineAccounted` | crates/eltanin-audit/src/explain.rs:83-139 | The induction behind it, for a log of any length |
| `AuditExplain.SelectEvent` | crates/eltanin-audit/src/explain.rs:242-260 | The first record with the id, found exactly when a readable record has it, possibly lost exactly when it does not but is a gap |
| `AuditLog.WrittenOk` | crates/eltanin-audit/src/sink.rs:163-187 | After any run every reserved number is written or failed and never both, file order is number order instance by instance, and the counters account for all of it |
| `AuditLog.FileHoldsTheAppends` | crates/eltanin-audit/src/sink.rs:163-200 | In every interleaving the file holds exactly the records of the appends whose writes succeeded, in order: each with its own body, numbered by the attempts its instance made before, failed ones included |
| `AuditLog.Drive` | crates/eltanin-audit/src/sink.rs:163-187 | Sink objects run through any interleaving of their steps leave exactly the trail's lines in the shared file and the trail's numbers in their fields |
| `AuditLog.AuditFileSink.ReserveAndWriteLine` | crates/eltanin-audit/src/sink.rs:163-181 | The locked part: a number is spent whether or not the write succeeds; a line appears exactly when it does |
| `AuditLog.AuditFileSink.AppendEntry` | crates/eltanin-audit/src/sink.rs:163-187 | A whole append: the locked part, and one count for a failed write |
| `AuditLog.FileOrderIsSequenceOrder` | crates/eltanin-audit/src/sink.rs:163-187 | Each instance's lines are in strictly increasing sequence order |
| `AuditLog.QuiescentCounts` | crates/eltanin-audit/src/sink.rs:163-187 | Once no increment is owed, failed writes plus lines is exactly the next sequence number |
| `Server.SlotAccounting` | crates/eltanin-agent/src/server.rs:95-152 | In every interleaving, failed spawns and unwinding handlers included: the counter is the live slots plus the accept thread's pending one, never above the bound, no decrement wraps, and every started thread's handle is kept once |
| `Server.AcceptReachable` | crates/eltanin-agent/src/server.rs:95-152 | The inductive invariant behind it |
| `Server.TurnedAwayExactlyWhenFull` | crates/eltanin-agent/src/server.rs:107-116 | A connection is turned away exactly when every slot is held by a live thread, and admitted otherwise |
| `Server.StopsExactly` | crates/eltanin-agent/src/server.rs:95-116 | Accepting ends exactly if a shutdown was seen while waiting for a connection, whatever else comes in |
| `Server.NoneAdmittedAfterShutdown` | crates/eltanin-agent/src/server.rs:95-152 | After that no thread is started, no handle added and no slot taken, under any continuation |
| `Server.ThreadsHaveConnections` | crates/eltanin-agent/src/server.rs:95-140 | Every thread started has a connection of its own that came in without a shutdown |
| `Server.AwaitHandle` | crates/eltanin-agent/src/server.rs:164-176 | One handle is polled to the verdict, poll time and following clock reading of the specification |
| `Server.Drain` | crates/eltanin-agent/src/server.rs:160-179 | Terminates; the verdicts are those of awaiting one handle after the other from one deadline, the finished ones are counted as drained, and the two counts make up all handles |
| `Server.GivenUpPastDeadline` | crates/eltanin-agent/src/server.rs:165-174 | A handle is given up only on a poll that found it unfinished, and the clock reading made right after that very poll was at or past the deadline |
| `Server.LastPollDecides` | crates/eltanin-agent/src/server.rs:160-179 | By induction over the polls: the verdict says finished exactly if the thread had finished by its last poll, a time given by the delays alone |
| `Server.VerdictWrongExactly` | crates/eltanin-agent/src/server.rs:38-50 | The verdict is meant to tell who finished within the timeout. It is wrong exactly about threads that finish between the last poll and the deadline: abandoned though in time after the one and by the other, drained though late after the deadline and by the last poll |
| `Server.LastPollIsNear` | crates/eltanin-agent/src/server.rs:160-179 | With every delay at most L the last poll is less than L short of the deadline and at most one sleep and L past it, unless the wait began even later, so those windows are no wider |
| `Server.GivenUpThoughFinishedInTime` | crates/eltanin-agent/src/server.rs:160-179 | Delays and a thread abandoned though it finished in time |
| `Server.DrainedThoughFinishedLate` | crates/eltanin-agent/src/server.rs:160-179 | Without any delay at all, a thread that finished after the deadline and counts as drained |
| `Server.WithinTimeoutExactly` | crates/eltanin-agent/src/server.rs:154-179 | Waiting for a handle ends by the deadline exactly if the thread finished by the last poll not past the deadline, or the reading after that poll falls on the deadline itself |
| `Server.DrainInTimeExactly` | crates/eltanin-agent/src/server.rs:154-179 | The whole drain ends by its deadline exactly if the wait for every handle, from where the one before left off, meets that condition |
| `Server.DrainEnds` | crates/eltanin-agent/src/server.rs:154-179 | How long shutdown can block: with every delay at most L, the timeout, one sleep, and L for each handle and one besides |
| `Server.AwaitEnds` | crates/eltanin-agent/src/server.rs:154-179 | The same for one handle: the last poll and one more reading |
| `Server.TimeoutOverrun` | crates/eltanin-agent/src/server.rs:154-179 | Without any delay at all, a thread that never finishes and keeps the drain a whole sleep long under a timeout of 50 nanoseconds |
| `Framing.RoundTrip` | crates/eltanin-agent/src/connection.rs:35-86 | Any payload within the bound, framed, followed by anything and cut into any pieces with interruptions, is read back exactly, leaving the rest |
| `Framing.ReadFrame` | crates/eltanin-agent/src/connection.rs:68-86 | The answer depends only on the bytes that arrive and how they end, not on the pieces: end of stream exactly when the peer closed having sent nothing, oversized exactly when the first four bytes announce more than 65536; an accepted frame and a refused header take exactly their own bytes |
| `Framing.ReadFull` | crates/eltanin-agent/src/connection.rs:35-57 | Complete, end of stream, partial or broken, decided by what arrives; complete means exactly the first bytes are in the buffer and the rest still to come |
| `Framing.EncodedFrameReadsBack` | crates/eltanin-protocol/src/framing.rs:58-93 | Decoding an encoded frame followed by anything gives the payload and the rest |
| `Framing.FramesAreEncodings` | crates/eltanin-protocol/src/framing.rs:58-93 | Conversely, bytes are read as a frame only if they start with the encoding of what is returned |
| `Framing.Encode` | crates/eltanin-protocol/src/framing.rs:81-93 | The growing-vector encoder computes the declarative frame |
| `Framing.PrefixesInOrder` | crates/eltanin-protocol/src/framing.rs:81-93 | One length is less than another exactly if its prefix comes before the other's byte by byte |
| `Framing.LengthsReadBack` | crates/eltanin-protocol/src/framing.rs:58-69 | A written length is read back up to 65536 and refused by its value above |
| `Framing.BigEndianRoundTrip` | crates/eltanin-protocol/src/framing.rs:81-93 | Every length survives the four-byte prefix |
| `Fnv.KnownAnswers` | crates/eltanin-apple/src/probe.rs:43-52 | The published fingerprints of the empty input and of the letter a |
| `Fnv.AbsorbUndone` | crates/eltanin-apple/src/probe.rs:47-50 | A step exclusive-ors first and multiplies second: undoing both in the other order restores the state, for every state and byte |
| `Fnv.OneByteChangesTheHash` | crates/eltanin-apple/src/probe.rs:43-52 | Replacing one byte anywhere in an input of any length changes the 64-bit hash, and replacing it by itself does not |
| `Fnv.CommonTailCancels` | crates/eltanin-apple/src/probe.rs:43-52 | Inputs with a common tail hash alike exactly when what precedes the tail does |
| `Fnv.AbsorbInjective` | crates/eltanin-apple/src/probe.rs:47-50 | One step of the loop is injective in the state and in the byte |
| `Fnv.SpreadUndone` | crates/eltanin-apple/src/probe.rs:49-49 | The wrapping multiplication by the prime is undone by its inverse modulo 2^64 |
| `Fnv.XorBitwise` | crates/eltanin-apple/src/probe.rs:48-48 | The exclusive or used acts on every bit by itself |
| `Fnv.Hash` | crates/eltanin-apple/src/probe.rs:43-52 | The byte loop computes the fold |
| `ProcStat.StatLineReadsBack` | crates/eltanin-linux/src/lib.rs:85-108 | Whatever the process calls itself, parentheses, spaces and line breaks included, a rendered status line parses to exactly the parent and start time it was written with |
| `ProcStat.RenderedFieldsAreSeen` | crates/eltanin-linux/src/lib.rs:85-108 | For any fields after the name, short or malformed lines included, the parser's answer is decided by those fields and never by the name |
| `ProcStat.ParsesExactly` | crates/eltanin-linux/src/lib.rs:85-108 | A text parses to a number exactly if it is below the limit and the text is decimal digits that write it, perhaps after one plus sign |
| `ProcStat.FirstFaultNamed` | crates/eltanin-linux/src/lib.rs:85-108 | A line that does not parse names the first thing wrong with it, each by an if-and-only-if |
| `ProcStat.WordsKeepTheText` | crates/eltanin-linux/src/lib.rs:85-108 | Splitting a line into words loses nothing but white space, and no word is empty or holds any |
| `ProcStat.SpacesExactly` | crates/eltanin-linux/src/lib.rs:85-108 | White space is the twenty-five characters of the Unicode property, by their numbers |
| `ProcStat.DecimalParses` | crates/eltanin-linux/src/lib.rs:97-103 | A decimal number parses exactly when it fits the field's width |
| `ProcStat.NoMark` | crates/eltanin-linux/src/lib.rs:88-91 | The missing-parenthesis error arises exactly when there is none in the line |
| `ProcStat.OnlyOneWalk` | crates/eltanin-linux/src/lib.rs:219-240 | The ancestor walk is the one way up that climbs parent by parent, meets nobody twice nor process 0, and could not be continued |
| `ProcStat.Ancestry` | crates/eltanin-linux/src/lib.rs:219-240 | At most thirty-two hops; each process is the parent in the status line of the one below, none is met twice, and the way ends only where a line cannot be read or leads to process 0 or back; start times are those of the lines and paths those of the links, kernel-observed |

## Left out

- Launcher.Supervise: takes a bound on the number of turns, because the loop itself need not end; every finite stretch of every run is covered, and a run cut off is as lawful as a finished one. Signal forwarding is not modelled.
- Launcher.TerminateForLapsedAuthorization: the second kill, of the child alone, right after that of its group, is not modelled. Waiting for the child ends with its exit or fails, in which case no status is known; that it ends at all is up to the outside.
- Launcher.Run: exit codes, failure messages and profile loading are not modelled; whether each step succeeds is up to the outside. Instants are not checked for overflow when the back-off is added, which in the code would panic.
- WholeSystem.RunIsJoint: takes as given that a grant the launching code hears is one the agent gave to the request it is waiting for; request ids on the wire are not modelled.
- TwoParty.QuietWhileRenewedInTime: assumes no other consistent peer is ever observed as the launcher's process when releasing, and the launcher is observed as itself when asking.
- AuthorityInvariant.ReachableInv: sequence numbers are unbounded; the 64-bit counter is assumed not to wrap. So is the 32-bit revoke counter of the scriptable backend.
- AuditLog.WrittenOk: a failed write leaves no line; torn lines and failed flushes after a complete line are not modelled. Sequence numbers are unbounded here too.
- AuditExplain.DetectGaps: the order in which instances follow one another in the report is not stated.
- AuditExplain.SelectEvent: selecting by lease or by process, and rendering, are not modelled; they are plain filters and text.
- ProcStat.StatLineReadsBack: lines are decoded text; a file that is not UTF-8 is an unreadable file. Why an integer failed to parse is not distinguished.
- ProcStat.Ancestry: works on one table of readable status lines, so a process that changes between two reads of its line during one walk is not modelled.
- Fnv.KnownAnswers: of the published reference values, the one for a six-letter input is not evaluated here.
- Policy.Evaluate: the list of resources a policy names, versioned envelopes and JSON decoding are not modelled.
- Server.Drain: joining a finished thread is taken to be immediate.
- AuditLog.Drive: a count is taken only for a failed append that owes one, which is the only time the code takes it.
- Backend discovery and the memory topology of a resource; real backends.
- Sockets, permissions, stale-socket recovery, signal threads, daemon wiring, and reading `/proc` or Metal.
- Mutex poisoning beyond the unwinding backend call, and the mirror types the audit records are converted to.
- Request and response envelopes: requests and log lines are taken as already parsed values; only the length prefix is bytes.
