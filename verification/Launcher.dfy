/** `eltanin run`: acquire a lease, spawn the workload, keep the lease renewed while
    supervising it, and hand every lease back.

    The outside world keeps a log of its own: every clock reading, message, answer,
    sleep, poll, signal and spawn is entered by the world as it happens, with the true
    time. The launching code cannot write to it. `Watch` is the protocol as an automaton
    over such logs; the code is proved to produce only logs the automaton follows, and
    what that means is then stated on the entries themselves. */
module Launcher {
  import opened Prelude
  import opened Resource
  import opened Lease
  import opened Authority

  const NANOS_PER_MILLI: nat := 1_000_000
  const POLL_INTERVAL: nat := 200 * NANOS_PER_MILLI
  const TERMINATION_GRACE: nat := 5_000 * NANOS_PER_MILLI
  const MIN_RENEWAL_RETRY_INTERVAL: nat := 500 * NANOS_PER_MILLI
  const RENEWAL_RETRY_BACKOFF: nat := 1_000 * NANOS_PER_MILLI
  const RELEASE_RETRY_BACKOFFS: seq<nat> := [100 * NANOS_PER_MILLI, 200 * NANOS_PER_MILLI]
  const MAX_LEASE_REMAINING: nat := 365 * 24 * 3_600_000 * NANOS_PER_MILLI

  /** Instants count seconds in a signed 64-bit integer; adding past that fails. */
  const INSTANT_LIMIT: nat := 0x8000_0000_0000_0000 * 1_000 * NANOS_PER_MILLI

  function SafeDeadline(base: nat, remaining: nat): nat {
    var clamped := Min(remaining, MAX_LEASE_REMAINING);
    if base + clamped < INSTANT_LIMIT then base + clamped else base
  }

  function NextRenewalRetry(attemptedAt: nat, deadline: nat): nat {
    Min(Max(attemptedAt + RENEWAL_RETRY_BACKOFF, attemptedAt + MIN_RENEWAL_RETRY_INTERVAL), deadline)
  }

  /** A lease is taken at its word up to a year, and a time that cannot be told is the
      reading itself. */
  lemma SafeDeadlineExactly(base: nat, remaining: nat)
    ensures var year := 365 * 24 * 3_600 * 1_000_000_000;
      SafeDeadline(base, remaining) ==
        if base + Min(remaining, year) < 0x8000_0000_0000_0000 * 1_000_000_000 then base + Min(remaining, year) else base
  {
  }

  /** A failed renewal is due again in a second, or at the deadline if that comes first. */
  lemma NextRetryExactly(attemptedAt: nat, deadline: nat)
    ensures NextRenewalRetry(attemptedAt, deadline) == Min(attemptedAt + 1_000_000_000, deadline)
  {
  }

  /** A deadline counted from a reading no later than the agent's never passes the true
      expiry, clamped or overflowing as it may be. */
  lemma SafeDeadlineIsSafe(base: nat, agentReading: nat, expiresAt: nat)
    requires base <= agentReading <= expiresAt
    ensures base <= SafeDeadline(base, expiresAt - agentReading) <= expiresAt
  {
  }

  // ----- what happens between the launcher and the outside

  datatype Message = RequestMessage(request: ComputeRequest) | ReleaseMessage(id: LeaseId)

  datatype ClientError = Unreachable | Garbled

  type Answer = Result<AgentResponse, ClientError>

  datatype Signal = Term | Kill

  datatype Deed =
    | ProfileLoaded(profileOk: bool)
    | ContextEstablished(contextOk: bool)
    | ClientMade(clientOk: bool)
    | ClockRead
    | Sent(message: Message)
    | Heard(answer: Answer)
    | HandlersInstalled(handlersOk: bool)
    | SpawnTried(child: Option<u32>)
    | Polled(status: Option<int>)
    | Waited(status: Option<int>)
    | Slept(duration: nat)
    | Signalled(signal: Signal, group: u32)
    | ContextTornDown

  /** Something that happened, and the true time at which it did. What a clock reading
      returns is that time. */
  datatype Entry = Entry(at: nat, deed: Deed)

  type Log = seq<Entry>

  function GrantOf(answer: Answer): Option<LeaseView> {
    if answer.Ok? && answer.value.LeaseGranted? then Some(answer.value.lease) else None
  }

  predicate Acknowledges(answer: Answer) { answer.Ok? && answer.value.LeaseReleased? }

  /** Process ids that can be signalled: positive, and within a signed 32-bit integer. */
  predicate Signalable(pid: u32) { 0 < pid < 0x8000_0000 }

  // ----- the protocol

  /** What has to happen next. `base` is the clock reading a lease asked for now will be
      counted from; `tries` counts the exchanges of the hand-back under way. */
  datatype Control =
    | ToLoad | ToEstablish | ToConnect
    | ToReadBase | ToAsk(base: nat) | Asking(base: nat)
    | ToInstall | ToSpawn
    | ToPoll | ToReadTurn | ToSleep
    | ToTerminate | ToReadGrace | InGrace(until: nat) | ToPollInGrace(until: nat) | ToSleepInGrace(until: nat) | ToKill | ToWait | ToReap
    | ToRelease(tries: nat) | Releasing(tries: nat) | ToBackOff(tries: nat)
    | ToTearDown | Done

  datatype Ending =
    | Undecided
    | Failed
    | SpawnRefused
    | WorkloadEnded(status: int)
    | AuthorizationLapsed(suppressed: Option<int>)

  /** How far a launch has come: the leases granted and how many of them are handed back,
      the deadline and renewal time of the youngest, the child, and the outcome so far. */
  datatype Progress = Progress(
    request: ComputeRequest,
    control: Control,
    granted: seq<LeaseId>,
    returned: nat,
    deadline: nat,
    renewAt: nat,
    child: Option<u32>,
    over: bool,
    ending: Ending,
    turns: nat)

  function Begin(request: ComputeRequest): Progress {
    Progress(request, ToLoad, [], 0, 0, 0, None, false, Undecided, 0)
  }

  /** The workload is over, or will never run: the last lease goes back. */
  function Finish(m: Progress, ending: Ending): Progress {
    m.(control := ToRelease(0), over := true, ending := ending)
  }

  function Answered(m: Progress, base: nat, grant: Option<LeaseView>): Progress {
    match grant
    case Some(lease) =>
      m.(granted := m.granted + [lease.leaseId],
         deadline := SafeDeadline(base, lease.remaining),
         renewAt := SafeDeadline(base, lease.remaining / 2),
         control := if m.granted == [] then ToInstall else ToRelease(0))
    case None =>
      if m.granted == [] then m.(control := ToTearDown, ending := Failed)
      else m.(control := ToSleep, renewAt := NextRenewalRetry(base, m.deadline))
  }

  /** One clock reading a turn decides it: lapse, renew, or sleep on. */
  function Turn(m: Progress, now: nat): Progress {
    if now >= m.deadline then
      m.(over := true, control := if m.child.Some? && Signalable(m.child.value) then ToTerminate else ToReap)
    else if now >= m.renewAt then m.(control := ToReadBase)
    else m.(control := ToSleep)
  }

  function Released(m: Progress): Progress {
    m.(returned := m.returned + 1, control := if m.over then ToTearDown else ToSleep)
  }

  function AdvanceStart(m: Progress, deed: Deed): Option<Progress> {
    match deed
    case ProfileLoaded(ok) =>
      if m.control != ToLoad then None
      else Some(if ok then m.(control := ToEstablish) else m.(control := Done, ending := Failed))
    case ContextEstablished(ok) =>
      if m.control != ToEstablish then None
      else Some(if ok then m.(control := ToConnect) else m.(control := Done, ending := Failed))
    case ClientMade(ok) =>
      if m.control != ToConnect then None
      else Some(if ok then m.(control := ToReadBase) else m.(control := ToTearDown, ending := Failed))
    case HandlersInstalled(ok) =>
      if m.control != ToInstall then None
      else Some(if ok then m.(control := ToSpawn) else Finish(m, Failed))
    case SpawnTried(child) =>
      if m.control != ToSpawn then None
      else Some(if child.Some? then m.(control := ToPoll, child := child) else Finish(m, SpawnRefused))
    case ContextTornDown =>
      if m.control != ToTearDown then None else Some(m.(control := Done))
    case _ => None
  }

  function AdvanceRead(m: Progress, now: nat): Option<Progress> {
    match m.control
    case ToReadBase => Some(m.(control := ToAsk(now)))
    case ToReadTurn => Some(Turn(m, now))
    case ToReadGrace => Some(m.(control := InGrace(now + TERMINATION_GRACE)))
    case InGrace(until) => Some(m.(control := if now < until then ToPollInGrace(until) else ToKill))
    case _ => None
  }

  function AdvanceSent(m: Progress, message: Message): Option<Progress> {
    match m.control
    case ToAsk(base) => if message == RequestMessage(m.request) then Some(m.(control := Asking(base))) else None
    case ToRelease(tries) =>
      if m.returned < |m.granted| && message == ReleaseMessage(m.granted[m.returned])
      then Some(m.(control := Releasing(tries + 1))) else None
    case _ => None
  }

  function AdvanceHeard(m: Progress, answer: Answer): Option<Progress> {
    match m.control
    case Asking(base) => Some(Answered(m, base, GrantOf(answer)))
    case Releasing(tries) =>
      Some(if Acknowledges(answer) || tries > |RELEASE_RETRY_BACKOFFS| then Released(m) else m.(control := ToBackOff(tries)))
    case _ => None
  }

  function AdvancePolled(m: Progress, status: Option<int>): Option<Progress> {
    match m.control
    case ToPoll =>
      Some(if status.Some? then Finish(m, WorkloadEnded(status.value)) else m.(control := ToReadTurn, turns := m.turns + 1))
    case ToPollInGrace(until) =>
      Some(if status.Some? then Finish(m, AuthorizationLapsed(status)) else m.(control := ToSleepInGrace(until)))
    case ToReap => Some(Finish(m, AuthorizationLapsed(status)))
    case _ => None
  }

  /** Waiting for a killed child ends with its exit, or fails. */
  function AdvanceWaited(m: Progress, status: Option<int>): Option<Progress> {
    if m.control == ToWait then Some(Finish(m, AuthorizationLapsed(status))) else None
  }

  /** Sleeping takes at least as long as it was meant to. */
  function AdvanceSlept(m: Progress, duration: nat, slept: nat): Option<Progress> {
    if slept < duration then None
    else
      match m.control
      case ToSleep => if duration == POLL_INTERVAL then Some(m.(control := ToPoll)) else None
      case ToSleepInGrace(until) => if duration == POLL_INTERVAL then Some(m.(control := InGrace(until))) else None
      case ToBackOff(tries) =>
        if 1 <= tries <= |RELEASE_RETRY_BACKOFFS| && duration == RELEASE_RETRY_BACKOFFS[tries - 1]
        then Some(m.(control := ToRelease(tries))) else None
      case _ => None
  }

  function AdvanceSignalled(m: Progress, signal: Signal, group: u32): Option<Progress> {
    if m.child != Some(group) then None
    else if m.control == ToTerminate && signal == Term then Some(m.(control := ToReadGrace))
    else if m.control == ToKill && signal == Kill then Some(m.(control := ToWait))
    else None
  }

  /** What the protocol makes of the next entry, the one before it having been at
      `since`; nothing may happen out of turn. */
  function Proceed(m: Progress, since: nat, e: Entry): Option<Progress> {
    if e.at < since then None
    else
      match e.deed
      case ClockRead => AdvanceRead(m, e.at)
      case Sent(message) => AdvanceSent(m, message)
      case Heard(answer) => AdvanceHeard(m, answer)
      case Polled(status) => AdvancePolled(m, status)
      case Waited(status) => AdvanceWaited(m, status)
      case Slept(duration) => AdvanceSlept(m, duration, e.at - since)
      case Signalled(signal, group) => AdvanceSignalled(m, signal, group)
      case _ => AdvanceStart(m, e.deed)
  }

  function Then(m: Option<Progress>, since: nat, e: Entry): Option<Progress> {
    if m.Some? then Proceed(m.value, since, e) else None
  }

  function Latest(log: Log): nat {
    if log == [] then 0 else log[|log| - 1].at
  }

  /** How far a log has come, unless something in it was out of turn. */
  function Watch(request: ComputeRequest, log: Log): Option<Progress> {
    if log == [] then Some(Begin(request))
    else
      var before := log[..|log| - 1];
      Then(Watch(request, before), Latest(before), log[|log| - 1])
  }

  predicate Lawful(request: ComputeRequest, log: Log) { Watch(request, log).Some? }

  lemma WatchMore(request: ComputeRequest, log: Log, e: Entry)
    ensures Watch(request, log + [e]) == Then(Watch(request, log), Latest(log), e)
  {
    assert (log + [e])[..|log|] == log;
  }

  lemma NothingWatched(request: ComputeRequest)
    ensures Watch(request, []) == Some(Begin(request)) && Latest([]) == 0
  {
  }

  // ----- the outside world

  /** Arbitrary delays, answers, exits and failures, and the log of what happened. */
  class Outside {
    const request: ComputeRequest
    const lags: nat -> nat
    const answers: nat -> Answer
    const exits: nat -> Option<int>
    const waits: nat -> Option<int>
    const failures: nat -> bool
    const pid: u32
    var clock: nat
    var observations: nat
    ghost var log: Log

    constructor (
      request: ComputeRequest, lags: nat -> nat, answers: nat -> Answer, exits: nat -> Option<int>, waits: nat -> Option<int>,
      failures: nat -> bool, pid: u32)
      ensures this.request == request && log == [] && Valid()
    {
      this.request := request;
      this.lags := lags;
      this.answers := answers;
      this.exits := exits;
      this.waits := waits;
      this.failures := failures;
      this.pid := pid;
      clock := 0;
      observations := 0;
      log := [];
    }

    ghost function Seen(): Option<Progress>
      reads this
    {
      Watch(request, log)
    }

    /** Nothing in the log is later than now. */
    ghost predicate Valid()
      reads this
    {
      Latest(log) <= clock
    }

    /** This happened last, just now. */
    ghost predicate Logged(before: Log, deed: Deed)
      reads this
    {
      log == before + [Entry(clock, deed)]
    }

    method Pass(ghost deed: Deed)
      requires Valid()
      modifies this
      ensures Logged(old(log), deed) && Valid() && old(clock) <= clock
      ensures Seen() == Then(old(Seen()), old(Latest(log)), Entry(clock, deed))
    {
      clock := clock + lags(observations);
      observations := observations + 1;
      WatchMore(request, log, Entry(clock, deed));
      log := log + [Entry(clock, deed)];
    }

    method LoadProfile() returns (profile: Option<ComputeRequest>)
      requires Valid()
      modifies this
      ensures Logged(old(log), ProfileLoaded(profile.Some?)) && Valid() && old(clock) <= clock
      ensures old(Seen()).Some? ==> Seen() == AdvanceStart(old(Seen()).value, ProfileLoaded(profile.Some?))
      ensures profile.Some? ==> profile.value == request
    {
      profile := if failures(observations) then None else Some(request);
      Pass(ProfileLoaded(profile.Some?));
    }

    method EstablishContext() returns (ok: bool)
      requires Valid()
      modifies this
      ensures Logged(old(log), ContextEstablished(ok)) && Valid() && old(clock) <= clock
      ensures old(Seen()).Some? ==> Seen() == AdvanceStart(old(Seen()).value, ContextEstablished(ok))
    {
      ok := !failures(observations);
      Pass(ContextEstablished(ok));
    }

    method MakeClient() returns (ok: bool)
      requires Valid()
      modifies this
      ensures Logged(old(log), ClientMade(ok)) && Valid() && old(clock) <= clock
      ensures old(Seen()).Some? ==> Seen() == AdvanceStart(old(Seen()).value, ClientMade(ok))
    {
      ok := !failures(observations);
      Pass(ClientMade(ok));
    }

    method Now() returns (reading: nat)
      requires Valid()
      modifies this
      ensures Logged(old(log), ClockRead) && Valid() && old(clock) <= clock && reading == clock
      ensures old(Seen()).Some? ==> Seen() == AdvanceRead(old(Seen()).value, reading)
    {
      Pass(ClockRead);
      reading := clock;
    }

    method Sleep(duration: nat)
      requires Valid()
      modifies this
      ensures Logged(old(log), Slept(duration)) && Valid() && old(clock) + duration <= clock
      ensures old(Seen()).Some? ==> Seen() == AdvanceSlept(old(Seen()).value, duration, clock - old(Latest(log)))
    {
      clock := clock + duration;
      Pass(Slept(duration));
    }

    /** The message leaves now; an answer, or none that is usable, comes some time later. */
    method Exchange(message: Message) returns (answer: Answer, ghost sentAt: nat)
      requires Valid()
      modifies this
      ensures old(clock) <= sentAt <= clock && Valid()
      ensures Logged(old(log) + [Entry(sentAt, Sent(message))], Heard(answer))
      ensures old(Seen()).Some? && AdvanceSent(old(Seen()).value, message).Some? ==>
        Seen() == AdvanceHeard(AdvanceSent(old(Seen()).value, message).value, answer)
    {
      Pass(Sent(message));
      sentAt := clock;
      answer := answers(observations);
      Pass(Heard(answer));
    }

    method InstallHandlers() returns (ok: bool)
      requires Valid()
      modifies this
      ensures Logged(old(log), HandlersInstalled(ok)) && Valid() && old(clock) <= clock
      ensures old(Seen()).Some? ==> Seen() == AdvanceStart(old(Seen()).value, HandlersInstalled(ok))
    {
      ok := !failures(observations);
      Pass(HandlersInstalled(ok));
    }

    method Spawn() returns (child: Option<u32>)
      requires Valid()
      modifies this
      ensures Logged(old(log), SpawnTried(child)) && Valid() && old(clock) <= clock
      ensures old(Seen()).Some? ==> Seen() == AdvanceStart(old(Seen()).value, SpawnTried(child))
    {
      child := if failures(observations) then None else Some(pid);
      Pass(SpawnTried(child));
    }

    method TryWait() returns (status: Option<int>)
      requires Valid()
      modifies this
      ensures Logged(old(log), Polled(status)) && Valid() && old(clock) <= clock
      ensures old(Seen()).Some? ==> Seen() == AdvancePolled(old(Seen()).value, status)
    {
      status := exits(observations);
      Pass(Polled(status));
    }

    /** Comes back once the child has exited, however long that takes; without a status
        only if the wait itself failed. */
    method Wait() returns (status: Option<int>)
      requires Valid()
      modifies this
      ensures Logged(old(log), Waited(status)) && Valid() && old(clock) <= clock
      ensures old(Seen()).Some? ==> Seen() == AdvanceWaited(old(Seen()).value, status)
    {
      status := waits(observations);
      Pass(Waited(status));
    }

    method SignalGroup(signal: Signal, group: u32)
      requires Valid()
      modifies this
      ensures Logged(old(log), Signalled(signal, group)) && Valid() && old(clock) <= clock
      ensures old(Seen()).Some? ==> Seen() == AdvanceSignalled(old(Seen()).value, signal, group)
    {
      Pass(Signalled(signal, group));
    }

    method TearDown()
      requires Valid()
      modifies this
      ensures Logged(old(log), ContextTornDown) && Valid() && old(clock) <= clock
      ensures old(Seen()).Some? ==> Seen() == AdvanceStart(old(Seen()).value, ContextTornDown)
    {
      Pass(ContextTornDown);
    }
  }

  /** The log is lawful so far and the launch has come to `m`. */
  ghost predicate At(outside: Outside, m: Progress)
    reads outside
  {
    outside.Valid() && outside.Seen() == Some(m)
  }

  // ----- release

  /** One exchange of a hand-back. */
  method ReleaseOnce(outside: Outside, id: LeaseId, tries: nat, ghost m: Progress) returns (acknowledged: bool)
    requires At(outside, m) && m.control == ToRelease(tries)
    requires m.returned < |m.granted| && id == m.granted[m.returned]
    modifies outside
    ensures At(outside, if acknowledged || tries >= 2 then Released(m) else m.(control := ToBackOff(tries + 1)))
  {
    hide Watch, Latest, Outside.Logged;
    var answer, _ := outside.Exchange(ReleaseMessage(id));
    acknowledged := Acknowledges(answer);
  }

  /** Hands the oldest lease not yet returned back: up to three exchanges, stopping at the
      first acknowledgement. */
  method Release(outside: Outside, id: LeaseId, ghost m: Progress)
    requires At(outside, m) && m.control == ToRelease(0)
    requires m.returned < |m.granted| && id == m.granted[m.returned]
    modifies outside
    ensures At(outside, Released(m))
  {
    hide Watch, Latest, Outside.Logged;
    var attempts := 1 + |RELEASE_RETRY_BACKOFFS|;
    for attempt := 0 to attempts
      invariant At(outside, if attempt <= 2 then m.(control := ToRelease(attempt)) else Released(m))
    {
      var acknowledged := ReleaseOnce(outside, id, attempt, m.(control := ToRelease(attempt)));
      if acknowledged {
        return;
      }
      if attempt < |RELEASE_RETRY_BACKOFFS| {
        outside.Sleep(RELEASE_RETRY_BACKOFFS[attempt]);
      }
    }
  }

  // ----- supervision

  class Renewal {
    var leaseId: LeaseId
    var deadline: nat
    var renewAt: nat

    constructor (leaseId: LeaseId, deadline: nat, renewAt: nat)
      ensures this.leaseId == leaseId && this.deadline == deadline && this.renewAt == renewAt
    {
      this.leaseId := leaseId;
      this.deadline := deadline;
      this.renewAt := renewAt;
    }

    ghost predicate Tracks(m: Progress)
      reads this
    {
      Holding(m, leaseId, deadline, renewAt)
    }
  }

  /** The launcher holds exactly one lease it has not handed back, the youngest, and its
      own deadline and renewal time are those of the log. */
  ghost predicate Holding(m: Progress, leaseId: LeaseId, deadline: nat, renewAt: nat) {
    && |m.granted| == m.returned + 1 && m.granted[m.returned] == leaseId
    && m.deadline == deadline && m.renewAt == renewAt
    && m.child.Some? && !m.over && m.ending == Undecided
  }

  /** One renewal attempt, its clock reading before its request: on a grant adopt the new
      lease and only then hand the old one back; on anything else keep the old lease and
      back off. */
  method Renew(outside: Outside, request: ComputeRequest, renewal: Renewal, ghost m: Progress)
    requires request == m.request && At(outside, m) && m.control == ToReadBase && renewal.Tracks(m)
    modifies outside, renewal
    ensures outside.Seen().Some? && At(outside, outside.Seen().value) && renewal.Tracks(outside.Seen().value)
    ensures outside.Seen().value.control == ToSleep && outside.Seen().value.turns == m.turns
    ensures outside.Seen().value.request == m.request && outside.Seen().value.child == m.child
  {
    hide Watch, Latest, Outside.Logged;
    var attemptedAt := outside.Now();
    var answer, _ := outside.Exchange(RequestMessage(request));
    ghost var answered := outside.Seen().value;
    match answer {
      case Ok(LeaseGranted(lease)) =>
        var oldLeaseId := renewal.leaseId;
        renewal.leaseId := lease.leaseId;
        renewal.deadline := SafeDeadline(attemptedAt, lease.remaining);
        renewal.renewAt := SafeDeadline(attemptedAt, lease.remaining / 2);
        Release(outside, oldLeaseId, answered);
      case _ =>
        renewal.renewAt := NextRenewalRetry(attemptedAt, renewal.deadline);
    }
  }

  /** Polls through the grace period; the child may exit in it. */
  method WaitOutGrace(outside: Outside, deadline: nat, ghost m: Progress) returns (suppressed: Option<int>)
    requires At(outside, m) && m.control == InGrace(deadline)
    modifies outside
    ensures At(outside, if suppressed.Some? then Finish(m, AuthorizationLapsed(suppressed)) else m.(control := ToKill))
  {
    hide Watch, Latest, Outside.Logged;
    var now := outside.Now();
    while now < deadline
      invariant At(outside, m.(control := if now < deadline then ToPollInGrace(deadline) else ToKill))
      invariant now <= outside.clock
      decreases deadline - now
    {
      suppressed := outside.TryWait();
      if suppressed.Some? {
        return;
      }
      outside.Sleep(POLL_INTERVAL);
      now := outside.Now();
    }
    suppressed := None;
  }

  /** SIGTERM to the whole group, a grace period, then SIGKILL and a wait for the exit. */
  method SignalAndReap(outside: Outside, child: u32, ghost m: Progress) returns (suppressed: Option<int>)
    requires At(outside, m) && m.child == Some(child) && m.control == ToTerminate
    modifies outside
    ensures At(outside, Finish(m, AuthorizationLapsed(suppressed)))
  {
    hide Watch, Latest, Outside.Logged, AdvanceStart, AdvanceSent, AdvanceHeard, AdvanceSlept;
    outside.SignalGroup(Term, child);
    var start := outside.Now();
    suppressed := WaitOutGrace(outside, start + TERMINATION_GRACE, m.(control := InGrace(start + TERMINATION_GRACE)));
    if suppressed.None? {
      outside.SignalGroup(Kill, child);
      suppressed := outside.Wait();
    }
  }

  /** Nothing at all is sent to a process id that cannot be signalled. */
  method TerminateForLapsedAuthorization(outside: Outside, child: u32, ghost m: Progress) returns (suppressed: Option<int>)
    requires At(outside, m) && m.child == Some(child)
    requires m.control == if Signalable(child) then ToTerminate else ToReap
    modifies outside
    ensures At(outside, Finish(m, AuthorizationLapsed(suppressed)))
    ensures !Signalable(child) ==> outside.log == old(outside.log) + [Entry(outside.clock, Polled(suppressed))]
  {
    hide Watch, Latest;
    if !Signalable(child) {
      suppressed := outside.TryWait();
    } else {
      suppressed := SignalAndReap(outside, child, m);
    }
  }

  /** The deadline was reached: terminate the workload, then hand the lease back. */
  method Lapse(outside: Outside, child: u32, id: LeaseId, ghost m: Progress) returns (suppressed: Option<int>)
    requires At(outside, m) && m.child == Some(child) && m.returned < |m.granted| && id == m.granted[m.returned]
    requires m.control == if Signalable(child) then ToTerminate else ToReap
    modifies outside
    ensures At(outside, Released(Finish(m, AuthorizationLapsed(suppressed))))
  {
    hide Watch, Latest;
    suppressed := TerminateForLapsedAuthorization(outside, child, m);
    Release(outside, id, Finish(m, AuthorizationLapsed(suppressed)));
  }

  /** Supervises through at most `polls` turns of the loop; a run that has not ended by
      then is `Undecided`, and as lawful as one that has. */
  method Supervise(
    outside: Outside, request: ComputeRequest, initialLeaseId: LeaseId, initialRemaining: nat, grantObservedAt: nat,
    child: u32, polls: nat, ghost m: Progress) returns (ending: Ending)
    requires request == m.request && At(outside, m) && m.control == ToPoll && m.turns == 0 && m.child == Some(child)
    requires Holding(m, initialLeaseId,
      SafeDeadline(grantObservedAt, initialRemaining), SafeDeadline(grantObservedAt, initialRemaining / 2))
    modifies outside
    ensures outside.Seen().Some? && outside.Valid() && outside.Seen().value.ending == ending
    ensures if ending == Undecided then outside.Seen().value.control == ToPoll && outside.Seen().value.turns == polls
            else outside.Seen().value.control == ToTearDown
    ensures ending.Undecided? || ending.WorkloadEnded? || ending.AuthorizationLapsed?
  {
    hide Watch, Latest, Outside.Logged, AdvanceStart, AdvanceSent, AdvanceHeard, AdvanceWaited, AdvanceSignalled;
    var renewal := new Renewal(
      initialLeaseId, SafeDeadline(grantObservedAt, initialRemaining), SafeDeadline(grantObservedAt, initialRemaining / 2));
    ghost var p := m;
    for turn := 0 to polls
      invariant fresh(renewal)
      invariant At(outside, p) && renewal.Tracks(p)
      invariant p.control == ToPoll && p.turns == turn && p.child == Some(child) && p.request == request
    {
      var status := outside.TryWait();
      if status.Some? {
        Release(outside, renewal.leaseId, Finish(p, WorkloadEnded(status.value)));
        return WorkloadEnded(status.value);
      }
      var now := outside.Now();
      p := outside.Seen().value;
      if now >= renewal.deadline {
        var suppressed := Lapse(outside, child, renewal.leaseId, p);
        return AuthorizationLapsed(suppressed);
      }
      if now >= renewal.renewAt {
        Renew(outside, request, renewal, p);
      }
      outside.Sleep(POLL_INTERVAL);
      p := outside.Seen().value;
    }
    return Undecided;
  }

  // ----- the whole launch

  /** From the first grant on: signal handlers, spawn, supervise, and release on every
      way out. */
  method LaunchGranted(
    outside: Outside, request: ComputeRequest, lease: LeaseView, grantObservedAt: nat, polls: nat, ghost m: Progress)
    returns (ending: Ending)
    requires request == m.request && At(outside, m) && m.control == ToInstall
    requires m == Answered(Begin(request).(control := ToReadBase), grantObservedAt, Some(lease))
    modifies outside
    ensures outside.Seen().Some? && outside.Valid() && outside.Seen().value.ending == ending
    ensures if ending == Undecided then outside.Seen().value.control == ToPoll && outside.Seen().value.turns == polls
            else outside.Seen().value.control == Done
  {
    hide Watch, Latest, Outside.Logged;
    var installed := outside.InstallHandlers();
    if !installed {
      Release(outside, lease.leaseId, Finish(m, Failed));
      outside.TearDown();
      return Failed;
    }
    var child := outside.Spawn();
    match child {
      case Some(pid) =>
        ending := Supervise(
          outside, request, lease.leaseId, lease.remaining, grantObservedAt, pid, polls, m.(control := ToPoll, child := child));
        if ending != Undecided {
          outside.TearDown();
        }
      case None =>
        Release(outside, lease.leaseId, Finish(m, SpawnRefused));
        outside.TearDown();
        return SpawnRefused;
    }
  }

  /** Reads the clock, then asks. */
  method RequestInitialLease(outside: Outside, request: ComputeRequest, ghost m: Progress)
    returns (granted: Option<LeaseView>, grantObservedAt: nat)
    requires At(outside, m) && m.control == ToReadBase && request == m.request
    modifies outside
    ensures At(outside, Answered(m, grantObservedAt, granted))
  {
    hide Watch, Latest, Outside.Logged, AdvanceStart, AdvancePolled, AdvanceWaited, AdvanceSlept, AdvanceSignalled;
    grantObservedAt := outside.Now();
    var answer, _ := outside.Exchange(RequestMessage(request));
    granted := GrantOf(answer);
  }

  /** Drives one launch over an arbitrary outside. The log it leaves behind is one the
      protocol follows to its end, or, cut off after `polls` turns, to a poll of the
      running workload; its answer is the one the log decides. */
  method Run(outside: Outside, polls: nat) returns (ending: Ending)
    requires outside.log == []
    modifies outside
    ensures Lawful(outside.request, outside.log)
    ensures ending == Watch(outside.request, outside.log).value.ending
    ensures var m := Watch(outside.request, outside.log).value;
      if ending == Undecided then m.control == ToPoll && m.turns == polls else m.control == Done
  {
    hide Watch, Latest, Outside.Logged, AdvanceRead, AdvanceSent, AdvanceHeard, AdvancePolled, AdvanceWaited, AdvanceSlept, AdvanceSignalled;
    NothingWatched(outside.request);
    var profile := outside.LoadProfile();
    if profile.None? {
      return Failed;
    }
    var request := profile.value;
    var established := outside.EstablishContext();
    if !established {
      return Failed;
    }
    var client := outside.MakeClient();
    if !client {
      outside.TearDown();
      return Failed;
    }
    var granted, grantObservedAt := RequestInitialLease(outside, request, outside.Seen().value);
    match granted {
      case Some(lease) =>
        ending := LaunchGranted(outside, request, lease, grantObservedAt, polls, outside.Seen().value);
      case None =>
        outside.TearDown();
        return Failed;
    }
  }
}
