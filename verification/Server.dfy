/** Connection slots: the accept loop and its connection threads sharing one atomic
    counter, and the drain at shutdown. */
module Server {
  import opened Prelude

  // ----- the slot counter

  /** Where the accept loop stands between its separate atomic operations. */
  datatype LoopAt = Accepting | Checking | Admitted | Slotted | Pushing(handle: nat) | Draining

  /** `active` is the shared counter, `live` the started threads whose slot guard has
      not dropped yet, `handles` the join handles kept so far. */
  datatype Accept = Accept(active: u64, at: LoopAt, live: set<nat>, handles: seq<nat>, started: nat)

  datatype AcceptEvent =
    | Incoming(connected: bool, shutdown: bool)
    | CheckCapacity
    | TakeSlot
    | SpawnThread(succeeds: bool)
    | KeepHandle
    | GuardDrops(handle: nat)

  const IDLE := Accept(0, Accepting, {}, [], 0)

  /** `fetch_add` and `fetch_sub` wrap around. */
  function WrappingIncrement(n: u64): u64 { if n == U64_LIMIT - 1 then 0 else n + 1 }

  function WrappingDecrement(n: u64): u64 { if n == 0 then U64_LIMIT - 1 else n - 1 }

  /** One atomic step of the loop, or the guard of one thread dropping, whether its
      handler returned or unwound. Steps that are not due do nothing. */
  function AcceptStep(maxConnections: nat, s: Accept, e: AcceptEvent): Accept {
    match e
    case Incoming(connected, shutdown) =>
      if s.at != Accepting then s
      else if shutdown then s.(at := Draining)
      else if connected then s.(at := Checking) else s
    case CheckCapacity =>
      if s.at != Checking then s
      else if s.active >= maxConnections then s.(at := Accepting) else s.(at := Admitted)
    case TakeSlot =>
      if s.at != Admitted then s else s.(active := WrappingIncrement(s.active), at := Slotted)
    case SpawnThread(succeeds) =>
      if s.at != Slotted then s
      else if succeeds then s.(live := s.live + {s.started}, at := Pushing(s.started), started := s.started + 1)
      else s.(active := WrappingDecrement(s.active), at := Accepting)
    case KeepHandle =>
      if !s.at.Pushing? then s else s.(handles := s.handles + [s.at.handle], at := Accepting)
    case GuardDrops(handle) =>
      if handle !in s.live then s else s.(live := s.live - {handle}, active := WrappingDecrement(s.active))
  }

  function AcceptAfter(maxConnections: nat, events: seq<AcceptEvent>): Accept
    decreases |events|
  {
    if events == [] then IDLE
    else AcceptStep(maxConnections, AcceptAfter(maxConnections, events[..|events| - 1]), events[|events| - 1])
  }

  ghost predicate SlotsOk(maxConnections: nat, s: Accept) {
    && s.active == |s.live| + (if s.at.Slotted? then 1 else 0)
    && s.active <= maxConnections
    && (s.at.Admitted? ==> s.active < maxConnections)
    && (forall h :: h in s.live ==> h < s.started)
    && (s.at.Pushing? ==> s.started == s.at.handle + 1)
    && |s.handles| + (if s.at.Pushing? then 1 else 0) == s.started
    && (forall i :: 0 <= i < |s.handles| ==> s.handles[i] == i)
  }

  lemma AcceptStepKeeps(maxConnections: nat, s: Accept, e: AcceptEvent)
    requires SlotsOk(maxConnections, s) && maxConnections < U64_LIMIT
    ensures SlotsOk(maxConnections, AcceptStep(maxConnections, s, e))
  {
    match e
    case SpawnThread(_) => assert s.started !in s.live;
    case _ =>
  }

  lemma {:induction false} AcceptReachable(maxConnections: nat, events: seq<AcceptEvent>)
    requires maxConnections < U64_LIMIT
    ensures SlotsOk(maxConnections, AcceptAfter(maxConnections, events))
    decreases |events|
  {
    if events != [] {
      AcceptReachable(maxConnections, events[..|events| - 1]);
      AcceptStepKeeps(maxConnections, AcceptAfter(maxConnections, events[..|events| - 1]), events[|events| - 1]);
    }
  }

  /** In every interleaving, failed spawns and unwinding handlers included, the counter
      is the live slots plus the accept thread's pending one, within the bound; every
      started thread's handle is kept exactly once; and no decrement ever wraps. */
  lemma SlotAccounting(maxConnections: nat, events: seq<AcceptEvent>, e: AcceptEvent)
    requires maxConnections < U64_LIMIT
    ensures var s := AcceptAfter(maxConnections, events);
      && s.active == |s.live| + (if s.at.Slotted? then 1 else 0)
      && s.active <= maxConnections
      && (s.at.Accepting? ==> s.handles == seq(s.started, i => i))
      && var n := AcceptStep(maxConnections, s, e); n.active <= s.active + 1 && s.active <= n.active + 1
  {
    AcceptReachable(maxConnections, events);
    var s := AcceptAfter(maxConnections, events);
    if e.GuardDrops? && e.handle in s.live {
      assert s.live != {};
    }
  }

  /** A connection that got as far as the capacity check is turned away exactly when
      every slot is held by a live thread; what it costs the others is nothing. */
  lemma TurnedAwayExactlyWhenFull(maxConnections: nat, events: seq<AcceptEvent>)
    requires maxConnections < U64_LIMIT && AcceptAfter(maxConnections, events).at == Checking
    ensures var s := AcceptAfter(maxConnections, events);
      var n := AcceptStep(maxConnections, s, CheckCapacity);
      && (n.at == Accepting <==> |s.live| == maxConnections)
      && (n.at == Admitted <==> |s.live| < maxConnections)
      && n.live == s.live && n.handles == s.handles
  {
    AcceptReachable(maxConnections, events);
  }

  /** The run saw a shutdown while the loop was waiting for a connection. */
  predicate Stopped(maxConnections: nat, events: seq<AcceptEvent>) {
    exists k :: 0 <= k < |events| && StopsAt(maxConnections, events, k)
  }

  predicate StopsAt(maxConnections: nat, events: seq<AcceptEvent>, k: nat)
    requires k < |events|
  {
    events[k].Incoming? && events[k].shutdown && AcceptAfter(maxConnections, events[..k]).at == Accepting
  }

  /** Only a shutdown ends accepting, and it does. */
  lemma {:induction false} StopsExactly(maxConnections: nat, events: seq<AcceptEvent>)
    ensures AcceptAfter(maxConnections, events).at == Draining <==> Stopped(maxConnections, events)
    decreases |events|
  {
    if events != [] {
      var before := events[..|events| - 1];
      StopsExactly(maxConnections, before);
      forall k: nat | k < |before|
        ensures StopsAt(maxConnections, before, k) <==> StopsAt(maxConnections, events, k)
      {
        assert before[..k] == events[..k];
      }
      if Stopped(maxConnections, before) {
        var k :| 0 <= k < |before| && StopsAt(maxConnections, before, k);
        assert StopsAt(maxConnections, events, k);
      }
      assert StopsAt(maxConnections, events, |before|) <==>
        events[|before|].Incoming? && events[|before|].shutdown && AcceptAfter(maxConnections, before).at == Accepting;
      if k :| 0 <= k < |before| && StopsAt(maxConnections, events, k) {
        assert StopsAt(maxConnections, before, k);
      }
    }
  }

  /** After a shutdown no connection is ever admitted again: no thread is started, no handle
      is added and no slot taken, whatever still comes in. */
  lemma {:induction false} NoneAdmittedAfterShutdown(maxConnections: nat, events: seq<AcceptEvent>, more: seq<AcceptEvent>)
    requires Stopped(maxConnections, events)
    ensures var (s, t) := (AcceptAfter(maxConnections, events), AcceptAfter(maxConnections, events + more));
      t.at == Draining && t.started == s.started && t.handles == s.handles && t.live <= s.live
    decreases |more|
  {
    if more == [] {
      assert events + more == events;
      StopsExactly(maxConnections, events);
    } else {
      var front := more[..|more| - 1];
      NoneAdmittedAfterShutdown(maxConnections, events, front);
      assert (events + more)[..|events + more| - 1] == events + front;
    }
  }

  /** Connections that came in without a shutdown. */
  function Connections(events: seq<AcceptEvent>): nat {
    if events == [] then 0
    else Connections(events[..|events| - 1]) + if events[|events| - 1] == Incoming(true, false) then 1 else 0
  }

  /** Every thread started, and every one being made room for, has a connection of its own. */
  lemma {:induction false} ThreadsHaveConnections(maxConnections: nat, events: seq<AcceptEvent>)
    ensures var s := AcceptAfter(maxConnections, events);
      s.started + (if s.at.Checking? || s.at.Admitted? || s.at.Slotted? then 1 else 0) <= Connections(events)
    decreases |events|
  {
    if events != [] {
      ThreadsHaveConnections(maxConnections, events[..|events| - 1]);
    }
  }

  // ----- drain

  /** A clock that only moves forward, and threads that finish when they finish. */
  class Watch {
    const lags: nat -> nat
    const finishedAt: nat -> Option<nat>
    var clock: nat
    var readings: nat

    constructor (lags: nat -> nat, finishedAt: nat -> Option<nat>, clock: nat)
      ensures this.lags == lags && this.finishedAt == finishedAt && this.clock == clock && readings == 0
    {
      this.lags := lags;
      this.finishedAt := finishedAt;
      this.clock := clock;
      readings := 0;
    }

    method IsFinished(handle: nat) returns (finished: bool)
      ensures finished <==> Finished(finishedAt, handle, clock)
    {
      finished := finishedAt(handle).Some? && finishedAt(handle).value <= clock;
    }

    method Now() returns (now: nat)
      modifies this
      ensures now == clock == old(clock) + lags(old(readings)) && readings == old(readings) + 1
    {
      clock := clock + lags(readings);
      readings := readings + 1;
      now := clock;
    }

    method Sleep(duration: nat)
      modifies this
      ensures clock == old(clock) + duration + lags(old(readings)) && readings == old(readings) + 1
    {
      clock := clock + duration + lags(readings);
      readings := readings + 1;
    }
  }

  predicate Finished(finishedAt: nat -> Option<nat>, handle: nat, at: nat) {
    finishedAt(handle).Some? && finishedAt(handle).value <= at
  }

  const DRAIN_POLL: nat := 20_000_000

  datatype ShutdownReport = ShutdownReport(drained: nat, abandoned: nat)

  /** How waiting for one handle ends: the verdict of its last poll, when that was, the
      clock reading made right after it if the poll said no, and the clock left behind. */
  datatype Verdict = Verdict(finished: bool, polledAt: nat, toldAt: nat, clock: nat, readings: nat)

  /** Poll; if not finished read the clock; if the deadline has not passed sleep and poll
      again. */
  function Await(lags: nat -> nat, finishedAt: nat -> Option<nat>, handle: nat, deadline: nat, clock: nat, readings: nat): (v: Verdict)
    ensures clock <= v.polledAt <= v.toldAt <= v.clock
    ensures v.finished <==> Finished(finishedAt, handle, v.polledAt)
    ensures !v.finished ==> v.toldAt >= deadline
    decreases deadline - clock
  {
    if Finished(finishedAt, handle, clock) then Verdict(true, clock, clock, clock, readings)
    else
      var now := clock + lags(readings);
      if now >= deadline then Verdict(false, clock, now, now, readings + 1)
      else Await(lags, finishedAt, handle, deadline, now + DRAIN_POLL + lags(readings + 1), readings + 2)
  }

  lemma AwaitUnfolds(lags: nat -> nat, finishedAt: nat -> Option<nat>, handle: nat, deadline: nat, clock: nat, readings: nat)
    ensures var now := clock + lags(readings);
      Await(lags, finishedAt, handle, deadline, clock, readings) ==
        if Finished(finishedAt, handle, clock) then Verdict(true, clock, clock, clock, readings)
        else if now >= deadline then Verdict(false, clock, now, now, readings + 1)
        else Await(lags, finishedAt, handle, deadline, now + DRAIN_POLL + lags(readings + 1), readings + 2)
  {
  }

  method AwaitHandle(watch: Watch, handle: nat, deadline: nat) returns (finished: bool, ghost verdict: Verdict)
    modifies watch
    ensures verdict == Await(watch.lags, watch.finishedAt, handle, deadline, old(watch.clock), old(watch.readings))
    ensures finished == verdict.finished && watch.clock == verdict.clock && watch.readings == verdict.readings
  {
    hide Await;
    verdict := Await(watch.lags, watch.finishedAt, handle, deadline, watch.clock, watch.readings);
    while true
      invariant verdict == Await(watch.lags, watch.finishedAt, handle, deadline, watch.clock, watch.readings)
      decreases deadline - watch.clock
    {
      AwaitUnfolds(watch.lags, watch.finishedAt, handle, deadline, watch.clock, watch.readings);
      finished := watch.IsFinished(handle);
      if finished {
        return;
      }
      var now := watch.Now();
      if now >= deadline {
        return;
      }
      watch.Sleep(DRAIN_POLL);
    }
  }

  function CountFinished(verdicts: seq<Verdict>): nat {
    if verdicts == [] then 0
    else CountFinished(verdicts[..|verdicts| - 1]) + if verdicts[|verdicts| - 1].finished then 1 else 0
  }

  /** The clock, and the readings made of it, when handle `i` comes up. */
  function ClockBefore(clock: nat, verdicts: seq<Verdict>, i: nat): nat
    requires i <= |verdicts|
  {
    if i == 0 then clock else verdicts[i - 1].clock
  }

  function ReadingsBefore(readings: nat, verdicts: seq<Verdict>, i: nat): nat
    requires i <= |verdicts|
  {
    if i == 0 then readings else verdicts[i - 1].readings
  }

  /** Verdict `i` is that of waiting for handle `i` from where the one before left off. */
  ghost predicate VerdictAt(
    lags: nat -> nat, finishedAt: nat -> Option<nat>, handles: seq<nat>, deadline: nat, clock: nat, readings: nat,
    verdicts: seq<Verdict>, i: nat)
    requires i < |verdicts| <= |handles|
  {
    verdicts[i] == Await(
      lags, finishedAt, handles[i], deadline, ClockBefore(clock, verdicts, i), ReadingsBefore(readings, verdicts, i))
  }

  /** The verdicts are those of waiting for one handle after the other. */
  ghost predicate OneAfterAnother(
    lags: nat -> nat, finishedAt: nat -> Option<nat>, handles: seq<nat>, deadline: nat, clock: nat, readings: nat, verdicts: seq<Verdict>)
  {
    && |verdicts| <= |handles|
    && forall i :: 0 <= i < |verdicts| ==> VerdictAt(lags, finishedAt, handles, deadline, clock, readings, verdicts, i)
  }

  lemma NoVerdicts(lags: nat -> nat, finishedAt: nat -> Option<nat>, handles: seq<nat>, deadline: nat, clock: nat, readings: nat)
    ensures OneAfterAnother(lags, finishedAt, handles, deadline, clock, readings, [])
  {
  }

  lemma VerdictStays(
    lags: nat -> nat, finishedAt: nat -> Option<nat>, handles: seq<nat>, deadline: nat, clock: nat, readings: nat,
    verdicts: seq<Verdict>, v: Verdict, i: nat)
    requires i < |verdicts| < |handles| && VerdictAt(lags, finishedAt, handles, deadline, clock, readings, verdicts, i)
    ensures VerdictAt(lags, finishedAt, handles, deadline, clock, readings, verdicts + [v], i)
  {
    hide Await;
  }

  lemma VerdictAdded(
    lags: nat -> nat, finishedAt: nat -> Option<nat>, handles: seq<nat>, deadline: nat, clock: nat, readings: nat,
    verdicts: seq<Verdict>, v: Verdict)
    requires |verdicts| < |handles|
    requires var i := |verdicts|;
      v == Await(
        lags, finishedAt, handles[i], deadline, ClockBefore(clock, verdicts, i), ReadingsBefore(readings, verdicts, i))
    ensures VerdictAt(lags, finishedAt, handles, deadline, clock, readings, verdicts + [v], |verdicts|)
  {
    hide Await;
  }

  lemma OneMoreVerdict(
    lags: nat -> nat, finishedAt: nat -> Option<nat>, handles: seq<nat>, deadline: nat, clock: nat, readings: nat,
    verdicts: seq<Verdict>, v: Verdict)
    requires OneAfterAnother(lags, finishedAt, handles, deadline, clock, readings, verdicts) && |verdicts| < |handles|
    requires var i := |verdicts|;
      v == Await(
        lags, finishedAt, handles[i], deadline, ClockBefore(clock, verdicts, i), ReadingsBefore(readings, verdicts, i))
    ensures OneAfterAnother(lags, finishedAt, handles, deadline, clock, readings, verdicts + [v])
  {
    hide Await, VerdictAt;
    VerdictAdded(lags, finishedAt, handles, deadline, clock, readings, verdicts, v);
    forall i | 0 <= i < |verdicts|
      ensures VerdictAt(lags, finishedAt, handles, deadline, clock, readings, verdicts + [v], i)
    {
      VerdictStays(lags, finishedAt, handles, deadline, clock, readings, verdicts, v, i);
    }
  }

  /** Joins every handle, in order, against one deadline. */
  method Drain(watch: Watch, handles: seq<nat>, drainTimeout: nat) returns (report: ShutdownReport, ghost verdicts: seq<Verdict>)
    modifies watch
    ensures |verdicts| == |handles| && report.drained == CountFinished(verdicts)
    ensures report.drained + report.abandoned == |handles|
    ensures var start := old(watch.clock) + watch.lags(old(watch.readings));
      OneAfterAnother(watch.lags, watch.finishedAt, handles, start + drainTimeout, start, old(watch.readings) + 1, verdicts)
    ensures watch.clock == ClockBefore(old(watch.clock) + watch.lags(old(watch.readings)), verdicts, |handles|)
  {
    hide Await, OneAfterAnother;
    ghost var readings := watch.readings + 1;
    var start := watch.Now();
    var deadline := start + drainTimeout;
    var drained, abandoned := 0, 0;
    verdicts := [];
    NoVerdicts(watch.lags, watch.finishedAt, handles, deadline, start, readings);
    for i := 0 to |handles|
      invariant drained + abandoned == i == |verdicts|
      invariant drained == CountFinished(verdicts)
      invariant watch.clock == ClockBefore(start, verdicts, i) && watch.readings == ReadingsBefore(readings, verdicts, i)
      invariant OneAfterAnother(watch.lags, watch.finishedAt, handles, deadline, start, readings, verdicts)
    {
      var finished, verdict := AwaitHandle(watch, handles[i], deadline);
      assert (verdicts + [verdict])[..|verdicts|] == verdicts;
      OneMoreVerdict(watch.lags, watch.finishedAt, handles, deadline, start, readings, verdicts, verdict);
      if finished {
        drained := drained + 1;
      } else {
        abandoned := abandoned + 1;
      }
      verdicts := verdicts + [verdict];
    }
    report := ShutdownReport(drained, abandoned);
  }

  /** A handle is given up only on a poll that found it unfinished, and the clock reading
      made right after that very poll was at or past the deadline. */
  lemma GivenUpPastDeadline(lags: nat -> nat, finishedAt: nat -> Option<nat>, handle: nat, deadline: nat, clock: nat, readings: nat)
    ensures var v := Await(lags, finishedAt, handle, deadline, clock, readings);
      !v.finished ==>
        && !Finished(finishedAt, handle, v.polledAt)
        && 0 < v.readings && v.toldAt == v.polledAt + lags(v.readings - 1) && v.toldAt >= deadline && v.clock == v.toldAt
    decreases deadline - clock
  {
    var now := clock + lags(readings);
    if !Finished(finishedAt, handle, clock) && now < deadline {
      GivenUpPastDeadline(lags, finishedAt, handle, deadline, now + DRAIN_POLL + lags(readings + 1), readings + 2);
    }
  }

  // ----- what the report tells, and how long it takes

  /** When a thread that is still unfinished at `clock` is polled next, if it is. */
  function NextPoll(lags: nat -> nat, clock: nat, readings: nat): nat {
    clock + lags(readings) + DRAIN_POLL + lags(readings + 1)
  }

  /** The last poll any thread could get, by the delays alone. */
  function LastPoll(lags: nat -> nat, deadline: nat, clock: nat, readings: nat): (poll: nat)
    ensures clock <= poll
    decreases deadline - clock
  {
    if clock + lags(readings) >= deadline then clock
    else LastPoll(lags, deadline, NextPoll(lags, clock, readings), readings + 2)
  }

  /** The verdict tells who finished by the last poll. */
  lemma {:induction false} LastPollDecides(
    lags: nat -> nat, finishedAt: nat -> Option<nat>, handle: nat, deadline: nat, clock: nat, readings: nat)
    ensures Await(lags, finishedAt, handle, deadline, clock, readings).finished <==>
      Finished(finishedAt, handle, LastPoll(lags, deadline, clock, readings))
    decreases deadline - clock
  {
    if !Finished(finishedAt, handle, clock) && clock + lags(readings) < deadline {
      LastPollDecides(lags, finishedAt, handle, deadline, NextPoll(lags, clock, readings), readings + 2);
    }
  }

  /** It is to tell who finished by the deadline. It is wrong exactly about threads that
      finish between the last poll and the deadline: after the one and by the other, they
      are abandoned; after the deadline and by the last poll, they count as drained. */
  lemma VerdictWrongExactly(
    lags: nat -> nat, finishedAt: nat -> Option<nat>, handle: nat, deadline: nat, clock: nat, readings: nat)
    ensures var (v, last) := (Await(lags, finishedAt, handle, deadline, clock, readings), LastPoll(lags, deadline, clock, readings));
      var finish := finishedAt(handle);
      && (!v.finished && Finished(finishedAt, handle, deadline) <==> finish.Some? && last < finish.value <= deadline)
      && (v.finished && !Finished(finishedAt, handle, deadline) <==> finish.Some? && deadline < finish.value <= last)
  {
    hide Await, LastPoll;
    LastPollDecides(lags, finishedAt, handle, deadline, clock, readings);
  }

  ghost predicate LagsAtMost(lags: nat -> nat, most: nat) { forall i :: lags(i) <= most }

  /** The last poll is less than one delay short of the deadline or, unless the wait began
      even later, at most a sleep and one delay past it. */
  lemma {:induction false} LastPollIsNear(lags: nat -> nat, deadline: nat, clock: nat, readings: nat, most: nat)
    requires LagsAtMost(lags, most)
    ensures deadline - most <= LastPoll(lags, deadline, clock, readings) <= Max(clock, deadline + 20_000_000 + most)
    decreases deadline - clock
  {
    if clock + lags(readings) < deadline {
      LastPollIsNear(lags, deadline, NextPoll(lags, clock, readings), readings + 2, most);
    }
  }

  /** Waiting for one handle ends with the last poll and one more reading at the latest. */
  lemma {:induction false} AwaitEnds(
    lags: nat -> nat, finishedAt: nat -> Option<nat>, handle: nat, deadline: nat, clock: nat, readings: nat, most: nat)
    requires LagsAtMost(lags, most)
    ensures Await(lags, finishedAt, handle, deadline, clock, readings).clock <= LastPoll(lags, deadline, clock, readings) + most
    decreases deadline - clock
  {
    if !Finished(finishedAt, handle, clock) && clock + lags(readings) < deadline {
      AwaitEnds(lags, finishedAt, handle, deadline, NextPoll(lags, clock, readings), readings + 2, most);
    }
  }

  /** A handle leaves the clock at most one delay further than it could stand before it. */
  lemma HandleEnds(
    lags: nat -> nat, finishedAt: nat -> Option<nat>, handle: nat, deadline: nat, clock: nat, readings: nat, most: nat, bound: nat)
    requires LagsAtMost(lags, most) && clock <= bound && deadline + DRAIN_POLL + most <= bound
    ensures Await(lags, finishedAt, handle, deadline, clock, readings).clock <= bound + most
  {
    hide Await, LastPoll, LagsAtMost;
    AwaitEnds(lags, finishedAt, handle, deadline, clock, readings, most);
    LastPollIsNear(lags, deadline, clock, readings, most);
  }

  /** The whole drain takes at most the timeout, one sleep, and one delay for each handle
      and one besides. */
  lemma {:induction false} DrainEnds(
    lags: nat -> nat, finishedAt: nat -> Option<nat>, handles: seq<nat>, deadline: nat, clock: nat, readings: nat,
    verdicts: seq<Verdict>, i: nat, most: nat)
    requires OneAfterAnother(lags, finishedAt, handles, deadline, clock, readings, verdicts) && i <= |verdicts|
    requires LagsAtMost(lags, most) && clock <= deadline
    ensures ClockBefore(clock, verdicts, i) <= deadline + 20_000_000 + most + i * most
    decreases i
  {
    hide Await, LagsAtMost;
    if i > 0 {
      DrainEnds(lags, finishedAt, handles, deadline, clock, readings, verdicts, i - 1, most);
      assert VerdictAt(lags, finishedAt, handles, deadline, clock, readings, verdicts, i - 1);
      var c, r := ClockBefore(clock, verdicts, i - 1), ReadingsBefore(readings, verdicts, i - 1);
      var bound := deadline + DRAIN_POLL + most + (i - 1) * most;
      HandleEnds(lags, finishedAt, handles[i - 1], deadline, c, r, most, bound);
      assert bound + most == deadline + DRAIN_POLL + most + i * most;
    }
  }

  /** The last poll not past the deadline, and the readings made before it. */
  function LastPollInTime(lags: nat -> nat, deadline: nat, clock: nat, readings: nat): (poll: (nat, nat))
    requires clock <= deadline
    ensures clock <= poll.0 <= deadline
    decreases deadline - clock
  {
    if NextPoll(lags, clock, readings) > deadline then (clock, readings)
    else LastPollInTime(lags, deadline, NextPoll(lags, clock, readings), readings + 2)
  }

  /** The thread finished by the last poll in time, or the reading after that poll falls on
      the deadline itself. */
  predicate EndsInTime(
    lags: nat -> nat, finishedAt: nat -> Option<nat>, handle: nat, deadline: nat, clock: nat, readings: nat)
  {
    && clock <= deadline
    && var (poll, read) := LastPollInTime(lags, deadline, clock, readings);
       Finished(finishedAt, handle, poll) || poll + lags(read) == deadline
  }

  /** Exactly then waiting for its handle ends by the deadline. */
  lemma {:induction false} WithinTimeoutExactly(
    lags: nat -> nat, finishedAt: nat -> Option<nat>, handle: nat, deadline: nat, clock: nat, readings: nat)
    ensures Await(lags, finishedAt, handle, deadline, clock, readings).clock <= deadline <==>
      EndsInTime(lags, finishedAt, handle, deadline, clock, readings)
    decreases deadline - clock
  {
    var next := NextPoll(lags, clock, readings);
    if !Finished(finishedAt, handle, clock) && next <= deadline {
      WithinTimeoutExactly(lags, finishedAt, handle, deadline, next, readings + 2);
    }
  }

  /** Waiting for handle `i`, from where the one before left off, ends in time. */
  predicate HandleInTime(
    lags: nat -> nat, finishedAt: nat -> Option<nat>, handles: seq<nat>, deadline: nat, clock: nat, readings: nat,
    verdicts: seq<Verdict>, i: nat)
    requires i < |verdicts| <= |handles|
  {
    EndsInTime(lags, finishedAt, handles[i], deadline, ClockBefore(clock, verdicts, i), ReadingsBefore(readings, verdicts, i))
  }

  lemma HandleInTimeExactly(
    lags: nat -> nat, finishedAt: nat -> Option<nat>, handles: seq<nat>, deadline: nat, clock: nat, readings: nat,
    verdicts: seq<Verdict>, i: nat)
    requires OneAfterAnother(lags, finishedAt, handles, deadline, clock, readings, verdicts) && i < |verdicts|
    ensures ClockBefore(clock, verdicts, i) <= ClockBefore(clock, verdicts, i + 1)
    ensures ClockBefore(clock, verdicts, i + 1) <= deadline <==>
      HandleInTime(lags, finishedAt, handles, deadline, clock, readings, verdicts, i)
  {
    hide Await, EndsInTime;
    assert VerdictAt(lags, finishedAt, handles, deadline, clock, readings, verdicts, i);
    WithinTimeoutExactly(
      lags, finishedAt, handles[i], deadline, ClockBefore(clock, verdicts, i), ReadingsBefore(readings, verdicts, i));
  }

  /** The drain ends by its deadline exactly if waiting for every handle does. */
  lemma {:induction false} DrainInTimeExactly(
    lags: nat -> nat, finishedAt: nat -> Option<nat>, handles: seq<nat>, deadline: nat, clock: nat, readings: nat,
    verdicts: seq<Verdict>, i: nat)
    requires OneAfterAnother(lags, finishedAt, handles, deadline, clock, readings, verdicts) && i <= |verdicts|
    requires clock <= deadline
    ensures ClockBefore(clock, verdicts, i) <= deadline <==>
      forall k :: 0 <= k < i ==> HandleInTime(lags, finishedAt, handles, deadline, clock, readings, verdicts, k)
    decreases i
  {
    hide OneAfterAnother, HandleInTime, ClockBefore;
    if i == 0 {
      NothingWaitedFor(clock, verdicts);
    } else {
      DrainInTimeExactly(lags, finishedAt, handles, deadline, clock, readings, verdicts, i - 1);
      HandleInTimeExactly(lags, finishedAt, handles, deadline, clock, readings, verdicts, i - 1);
    }
  }

  lemma NothingWaitedFor(clock: nat, verdicts: seq<Verdict>)
    ensures ClockBefore(clock, verdicts, 0) == clock
  {
  }

  /** A thread that finished before the deadline, and is abandoned all the same: it
      finished after its last poll, and the clock was read only once the deadline had
      passed. */
  lemma GivenUpThoughFinishedInTime() returns (lags: nat -> nat, finishedAt: nat -> Option<nat>)
    ensures Finished(finishedAt, 0, 20) && !Await(lags, finishedAt, 0, 50, 0, 0).finished
  {
    lags := n => 100;
    finishedAt := handle => Some(20);
  }

  /** With no delays at all, a thread that finishes long after the deadline and counts as
      drained: it finished during the sleep the deadline fell into. */
  lemma DrainedThoughFinishedLate() returns (lags: nat -> nat, finishedAt: nat -> Option<nat>)
    ensures LagsAtMost(lags, 0) && !Finished(finishedAt, 0, 50) && finishedAt(0) == Some(15_000_000)
    ensures Await(lags, finishedAt, 0, 50, 0, 0).finished
  {
    lags := n => 0;
    finishedAt := handle => Some(15_000_000);
    LastPollDecides(lags, finishedAt, 0, 50, 0, 0);
  }

  /** And a thread that never finishes keeps the drain beyond its timeout. */
  lemma TimeoutOverrun() returns (lags: nat -> nat, finishedAt: nat -> Option<nat>)
    ensures LagsAtMost(lags, 0) && Await(lags, finishedAt, 0, 50, 0, 0).clock == 20_000_000
  {
    lags := n => 0;
    finishedAt := handle => None;
    AwaitUnfolds(lags, finishedAt, 0, 50, 0, 0);
  }
}
