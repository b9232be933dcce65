/** Why renewing at half-time is enough: how prompt the launcher and how generous the
    agent have to be for a lapse never to happen. */
module LaunchTiming {
  import opened Prelude
  import opened Resource
  import opened Lease
  import opened Authority
  import opened Launcher
  import opened LaunchLog

  // ----- what is asked of the agent and of the machine

  /** Every entry follows the one before within `lag`, a sleep's own length aside. */
  ghost predicate Prompt(log: Log, lag: nat) {
    forall i :: 0 < i < |log| ==> ComesSoon(log[i - 1].at, log[i], lag)
  }

  predicate ComesSoon(since: nat, e: Entry, lag: nat) {
    e.at <= since + lag + if e.deed.Slept? then e.deed.duration else 0
  }

  /** A grant of at least `least`, and no longer than the launcher takes at its word. */
  predicate Generous(answer: Answer, least: nat) {
    && answer.Ok? && answer.value.LeaseGranted?
    && least <= answer.value.lease.remaining <= 365 * 24 * 3_600 * 1_000_000_000
  }

  /** Every request is answered by one. */
  ghost predicate AlwaysGranted(log: Log, least: nat) {
    forall h :: 0 < h < |log| && Asks(log[h - 1]) && log[h].deed.Heard? ==> Generous(log[h].deed.answer, least)
  }

  const BACKOFFS: nat := RELEASE_RETRY_BACKOFFS[0] + RELEASE_RETRY_BACKOFFS[1]

  /** Half a lease covers one turn of the loop; a whole one covers a renewal, the hand-back
      of the old lease at its slowest, and the turn after it. */
  predicate Enough(least: nat, lag: nat) {
    least / 2 >= 200_000_000 + 3 * lag && least > 500_000_000 + 13 * lag
  }

  // ----- time to spare

  function BackoffsLeft(tries: nat): nat {
    if tries == 0 then BACKOFFS else if tries == 1 then RELEASE_RETRY_BACKOFFS[1] else 0
  }

  /** The longest it can take from here to the reading of the next turn. */
  function TimeToReading(control: Control, lag: nat): nat {
    match control
    case ToInstall => 4 * lag
    case ToSpawn => 3 * lag
    case ToPoll => 2 * lag
    case ToReadTurn => lag
    case ToSleep => POLL_INTERVAL + 3 * lag
    case ToRelease(tries) =>
      POLL_INTERVAL + BackoffsLeft(tries) + if tries == 0 then 11 * lag else if tries == 1 then 8 * lag else 5 * lag
    case Releasing(tries) =>
      POLL_INTERVAL + if tries <= 1 then BACKOFFS + 10 * lag else if tries == 2 then BackoffsLeft(1) + 7 * lag else 4 * lag
    case ToBackOff(tries) =>
      POLL_INTERVAL + if tries <= 1 then BACKOFFS + 9 * lag else BackoffsLeft(1) + 6 * lag
    case _ => 0
  }

  predicate Supervising(m: Progress) {
    && m.granted != [] && !m.over
    && !m.control.ToReadBase? && !m.control.ToAsk? && !m.control.Asking? && m.control != ToTearDown && m.control != Done
  }

  /** No lapse is under way, and none has ended the launch. */
  predicate Calm(m: Progress) {
    && !m.ending.AuthorizationLapsed?
    && match m.control
       case ToTerminate => false
       case ToReadGrace => false
       case InGrace(_) => false
       case ToPollInGrace(_) => false
       case ToSleepInGrace(_) => false
       case ToKill => false
       case ToWait => false
       case ToReap => false
       case _ => true
  }

  /** At `now` there is time in hand: the next turn's reading comes before the deadline,
      and a turn that finds no renewal due leaves enough for the next. */
  predicate OnTime(m: Progress, now: nat, lag: nat) {
    && Calm(m)
    && (m.control.ToAsk? ==> now == m.control.base)
    && (m.control.Asking? ==> now <= m.control.base + lag)
    && (Supervising(m) ==> now + TimeToReading(m.control, lag) < m.deadline)
    && (m.granted != [] && !m.over ==> m.renewAt + POLL_INTERVAL + 3 * lag <= m.deadline)
  }

  lemma ReadingInTime(m: Progress, since: nat, e: Entry, lag: nat)
    requires LeasesOut(m) && OnTime(m, since, lag) && ComesSoon(since, e, lag)
    requires e.deed == ClockRead && AdvanceRead(m, e.at).Some?
    ensures OnTime(AdvanceRead(m, e.at).value, e.at, lag)
  {
  }

  lemma SendingInTime(m: Progress, since: nat, e: Entry, lag: nat)
    requires LeasesOut(m) && OnTime(m, since, lag) && ComesSoon(since, e, lag)
    requires e.deed.Sent? && AdvanceSent(m, e.deed.message).Some?
    ensures OnTime(AdvanceSent(m, e.deed.message).value, e.at, lag)
  {
  }

  lemma GrantInTime(m: Progress, since: nat, e: Entry, lag: nat, least: nat)
    requires LeasesOut(m) && OnTime(m, since, lag) && ComesSoon(since, e, lag) && m.control.Asking?
    requires e.deed.Heard? && Generous(e.deed.answer, least) && Enough(least, lag)
    requires m.control.base + MAX_LEASE_REMAINING < INSTANT_LIMIT
    ensures OnTime(AdvanceHeard(m, e.deed.answer).value, e.at, lag)
  {
  }

  lemma AnswerInTime(m: Progress, since: nat, e: Entry, lag: nat)
    requires LeasesOut(m) && OnTime(m, since, lag) && ComesSoon(since, e, lag) && m.control.Releasing?
    requires e.deed.Heard?
    ensures OnTime(AdvanceHeard(m, e.deed.answer).value, e.at, lag)
  {
  }

  lemma SleepInTime(m: Progress, since: nat, e: Entry, lag: nat)
    requires LeasesOut(m) && OnTime(m, since, lag) && ComesSoon(since, e, lag)
    requires e.deed.Slept? && e.at >= since && AdvanceSlept(m, e.deed.duration, e.at - since).Some?
    ensures OnTime(AdvanceSlept(m, e.deed.duration, e.at - since).value, e.at, lag)
  {
  }

  lemma StartInTime(m: Progress, since: nat, e: Entry, lag: nat)
    requires LeasesOut(m) && OnTime(m, since, lag) && ComesSoon(since, e, lag) && AdvanceStart(m, e.deed).Some?
    ensures OnTime(AdvanceStart(m, e.deed).value, e.at, lag)
  {
  }

  lemma RestInTime(m: Progress, since: nat, e: Entry, lag: nat)
    requires LeasesOut(m) && OnTime(m, since, lag) && ComesSoon(since, e, lag) && Proceed(m, since, e).Some?
    requires e.deed.Polled? || e.deed.Waited? || e.deed.Signalled?
    ensures OnTime(Proceed(m, since, e).value, e.at, lag)
  {
  }

  lemma EntryInTime(m: Progress, since: nat, e: Entry, lag: nat, least: nat)
    requires LeasesOut(m) && OnTime(m, since, lag) && ComesSoon(since, e, lag) && Enough(least, lag)
    requires Proceed(m, since, e).Some? && since + MAX_LEASE_REMAINING < INSTANT_LIMIT
    requires m.control.Asking? && e.deed.Heard? ==> m.control.base <= since && Generous(e.deed.answer, least)
    ensures OnTime(Proceed(m, since, e).value, e.at, lag)
  {
    hide LeasesOut, OnTime, ComesSoon, Enough, Generous;
    match e.deed
    case ClockRead => ReadingInTime(m, since, e, lag);
    case Sent(_) => SendingInTime(m, since, e, lag);
    case Heard(_) => if m.control.Asking? { GrantInTime(m, since, e, lag, least); } else { AnswerInTime(m, since, e, lag); }
    case Slept(_) => SleepInTime(m, since, e, lag);
    case Polled(_) => RestInTime(m, since, e, lag);
    case Waited(_) => RestInTime(m, since, e, lag);
    case Signalled(_, _) => RestInTime(m, since, e, lag);
    case _ => StartInTime(m, since, e, lag);
  }

  /** Nothing comes before the first entry, so that one may be at any time. */
  lemma FirstEntryInTime(request: ComputeRequest, e: Entry, lag: nat)
    requires Proceed(Begin(request), 0, e).Some?
    ensures OnTime(Proceed(Begin(request), 0, e).value, e.at, lag)
  {
  }

  // ----- no lapse

  lemma ShorterServed(log: Log, lag: nat, least: nat)
    requires log != [] && Prompt(log, lag) && AlwaysGranted(log, least)
    ensures Prompt(log[..|log| - 1], lag) && AlwaysGranted(log[..|log| - 1], least)
  {
  }

  lemma AnswerIsGenerous(log: Log, m: Progress, least: nat)
    requires |log| >= 2 && TailOk(log[..|log| - 1], m) && m.control.Asking? && log[|log| - 1].deed.Heard?
    requires AlwaysGranted(log, least)
    ensures Generous(log[|log| - 1].deed.answer, least)
  {
    assert Asks(log[|log| - 2]);
  }

  lemma BaseIsPast(log: Log, m: Progress)
    requires TailOk(log, m) && m.control.Asking? && (|log| >= 2 ==> log[|log| - 2].at <= log[|log| - 1].at)
    ensures m.control.base <= Latest(log)
  {
  }

  lemma {:induction false} AlwaysOnTime(request: ComputeRequest, log: Log, lag: nat, least: nat)
    requires Lawful(request, log) && log != [] && Prompt(log, lag) && AlwaysGranted(log, least) && Enough(least, lag)
    requires Latest(log) + MAX_LEASE_REMAINING < INSTANT_LIMIT
    ensures OnTime(Watch(request, log).value, Latest(log), lag)
    decreases |log|
  {
    hide Proceed, OnTime, LeasesOut, TailOk, Enough, Generous, Prompt, AlwaysGranted, Remembers;
    var before, e := log[..|log| - 1], log[|log| - 1];
    if before == [] {
      NothingWatched(request);
      WatchMore(request, [], e);
      assert log == [] + [e];
      FirstEntryInTime(request, e, lag);
    } else {
      ShorterServed(log, lag, least);
      Chronological(request, log, |log| - 2, |log| - 1);
      AlwaysOnTime(request, before, lag, least);
      LastEntryInTime(request, log, lag, least);
    }
  }

  lemma LastEntryInTime(request: ComputeRequest, log: Log, lag: nat, least: nat)
    requires Lawful(request, log) && |log| >= 2 && Prompt(log, lag) && AlwaysGranted(log, least) && Enough(least, lag)
    requires Latest(log[..|log| - 1]) + MAX_LEASE_REMAINING < INSTANT_LIMIT
    requires OnTime(Watch(request, log[..|log| - 1]).value, Latest(log[..|log| - 1]), lag)
    ensures OnTime(Watch(request, log).value, Latest(log), lag)
  {
    hide Proceed, OnTime, LeasesOut, TailOk, Enough, Generous, AlwaysGranted, GrantsOk, ReturnsOk, RenewalOk, GraceOk, EndsSomewhere, ChildOf, NothingReturnedYet;
    var before, e := log[..|log| - 1], log[|log| - 1];
    var m := Watch(request, before).value;
    LawfulLogRemembers(request, before);
    if m.control.Asking? && e.deed.Heard? {
      if |before| >= 2 {
        Chronological(request, before, |before| - 2, |before| - 1);
      }
      BaseIsPast(before, m);
      AnswerIsGenerous(log, m, least);
    }
    assert ComesSoon(Latest(before), e, lag);
    EntryInTime(m, Latest(before), e, lag, least);
  }

  /** If every request is granted at least `least`, no more than a year at a time, and the
      launcher is held up by at most `lag` between any two entries, then there is never a
      lapse: nobody is signalled, and no launch ends for want of authorization. */
  lemma NoLapse(request: ComputeRequest, log: Log, lag: nat, least: nat)
    requires Lawful(request, log) && Prompt(log, lag) && AlwaysGranted(log, least) && Enough(least, lag)
    requires Latest(log) + 365 * 24 * 3_600 * 1_000_000_000 < 0x8000_0000_0000_0000 * 1_000_000_000
    ensures forall i :: 0 <= i < |log| ==> !log[i].deed.Signalled?
    ensures !Watch(request, log).value.ending.AuthorizationLapsed?
  {
    hide Watch, Proceed, Enough, Prompt, AlwaysGranted, Latest, Remembers, LeasesOut;
    if log == [] {
      NothingWatched(request);
    } else {
      AlwaysOnTime(request, log, lag, least);
    }
    forall i | 0 <= i < |log|
      ensures !log[i].deed.Signalled?
    {
      NotSignalledAt(request, log, lag, least, i);
    }
  }

  lemma PrefixServed(log: Log, lag: nat, least: nat, i: nat)
    requires i <= |log| && Prompt(log, lag) && AlwaysGranted(log, least)
    ensures Prompt(log[..i], lag) && AlwaysGranted(log[..i], least)
  {
  }

  lemma NotSignalledAt(request: ComputeRequest, log: Log, lag: nat, least: nat, i: nat)
    requires Lawful(request, log) && Prompt(log, lag) && AlwaysGranted(log, least) && Enough(least, lag)
    requires Latest(log) + MAX_LEASE_REMAINING < INSTANT_LIMIT && i < |log|
    ensures !log[i].deed.Signalled?
  {
    hide Watch, Proceed, Enough, Prompt, AlwaysGranted, Remembers, LeasesOut, TimeToReading;
    var m, _ := JustBefore(request, log, i);
    WhereItHappens(m, Latest(log[..i]), log[i]);
    if i == 0 {
      assert log[..0] == [];
      NothingWatched(request);
    } else {
      PrefixServed(log, lag, least, i);
      Chronological(request, log, i - 1, |log| - 1);
      AlwaysOnTime(request, log[..i], lag, least);
    }
  }

  // ----- leases too long to be renewed

  /** There is a moment at which a renewal is due and the deadline still ahead exactly if
      the lease has something left, less than two years of it, and its deadline can be
      told. */
  lemma RenewableExactly(base: nat, remaining: nat)
    ensures SafeDeadline(base, remaining / 2) < SafeDeadline(base, remaining) <==>
      && 0 < remaining < 2 * 365 * 24 * 3_600 * 1_000_000_000
      && base + Min(remaining, 365 * 24 * 3_600 * 1_000_000_000) < 0x8000_0000_0000_0000 * 1_000_000_000
  {
  }

  /** Of any other grant no renewal is ever attempted: it is the last request of its log. */
  lemma RenewedOnlyIfRenewable(request: ComputeRequest, log: Log, i: nat, j: nat)
    requires Lawful(request, log) && 0 < i < j < |log| && Asks(log[i]) && Asks(log[j])
    requires (forall k :: i < k < j ==> !Asks(log[k])) && GrantAt(log, i + 1).Some?
    ensures var remaining := GrantAt(log, i + 1).value.remaining;
      && 0 < remaining < 2 * 365 * 24 * 3_600 * 1_000_000_000
      && log[i - 1].at + Min(remaining, 365 * 24 * 3_600 * 1_000_000_000) < 0x8000_0000_0000_0000 * 1_000_000_000
  {
    hide Watch, Proceed, LeasesOut, TailOk, GrantsOk, ReturnsOk, RenewalOk, GraceOk, EndsSomewhere, ChildOf, NothingReturnedYet, GrantedIds, LastGrant, HandedBack, Tries, LastAsked, LastSignal;
    var before := log[..j];
    var m, _ := JustBefore(request, log, j);
    WhereItHappens(m, Latest(before), log[j]);
    SlicedLastAsked(log, i, j);
    AskedRightAfterReading(request, log, j);
    assert i + 1 < j;
    assert GrantAt(before, i + 1) == GrantAt(log, i + 1);
    assert before[i - 1] == log[i - 1];
    RenewedBeforeDeadline(before, m, i);
    RenewableExactly(log[i - 1].at, GrantAt(log, i + 1).value.remaining);
  }

  lemma {:induction false} RenewedBeforeDeadline(log: Log, m: Progress, i: nat)
    requires TailOk(log, m) && RenewalOk(log, m) && GrantsOk(log, m) && m.control.ToAsk?
    requires LastAsked(log) == Some(i) && 0 < i && i + 1 < |log| && GrantAt(log, i + 1).Some?
    ensures var remaining := GrantAt(log, i + 1).value.remaining;
      SafeDeadline(log[i - 1].at, remaining / 2) < SafeDeadline(log[i - 1].at, remaining)
  {
    LastGrantFollowsLastAsk(log, i);
  }

  lemma {:induction false} LastGrantFollowsLastAsk(log: Log, i: nat)
    requires LastAsked(log) == Some(i) && i + 1 < |log| && GrantAt(log, i + 1).Some?
    ensures LastGrant(log) == Some(i + 1)
    decreases |log|
  {
    var n := |log| - 1;
    if n > i + 1 {
      assert log[..n][i + 1] == log[i + 1] && log[..n][i] == log[i];
      LastGrantFollowsLastAsk(log[..n], i);
    }
  }

  // ----- when the next attempt is made

  /** A turn's reading: right after a poll that found the workload running. */
  predicate TurnReading(log: Log, i: nat)
    requires i < |log|
  {
    i > 0 && log[i - 1].deed == Polled(None) && log[i].deed == ClockRead
  }

  /** The next thing to come is another request, its reading first. */
  predicate AsksNext(request: ComputeRequest, log: Log, i: nat)
    requires i + 1 < |log|
  {
    log[i + 1].deed == ClockRead && (i + 2 < |log| ==> log[i + 2].deed == Sent(RequestMessage(request)))
  }

  lemma DueBefore(log: Log, r: nat, i: nat)
    requires 0 < r && r + 1 < i <= |log| && Asks(log[r]) && forall k :: r < k < i ==> !Asks(log[k])
    requires LastGrant(log[..i]).Some? && 2 <= LastGrant(log[..i]).value
    ensures GrantAt(log[..i], r + 1) == GrantAt(log, r + 1)
    ensures RenewalDue(log[..i]) == DueAfter(log[r - 1].at, GrantAt(log, r + 1), DeadlineAt(log[..i], LastGrant(log[..i]).value))
  {
    hide LastGrant, DueAfter, DeadlineAt;
    SlicedLastAsked(log, r, i);
    assert log[..i][r] == log[r] && log[..i][r - 1] == log[r - 1] && log[..i][r + 1] == log[r + 1];
  }

  /** After a request that was not granted, made on the reading `t`, the first turn whose
      reading is a second or more past `t` asks again, if its reading is before the
      deadline, and no turn asks sooner. */
  lemma RetriedOnceDue(request: ComputeRequest, log: Log, r: nat, i: nat)
    requires Lawful(request, log) && r + 1 < i && i + 1 < |log| && Asks(log[r]) && GrantAt(log, r + 1).None?
    requires (forall k :: r < k < i ==> !Asks(log[k])) && TurnReading(log, i)
    ensures 0 < r && LastGrant(log[..i]).Some? && 2 <= LastGrant(log[..i]).value
    ensures var (t, now, deadline) := (log[r - 1].at, log[i].at, DeadlineAt(log[..i], LastGrant(log[..i]).value));
      && (t + 1_000_000_000 <= now < deadline ==> AsksNext(request, log, i))
      && (now < t + 1_000_000_000 && now < deadline ==> log[i + 1].deed == Slept(200_000_000))
  {
    hide RenewalDue, LastGrant, DeadlineAt, Lawful;
    AskedRightAfterReading(request, log, r);
    EveryTurnIsPrompt(request, log, i);
    DueBefore(log, r, i);
  }

  /** After a grant made on the reading `t`, the first turn whose reading is half the lease
      or more past `t` asks again, if its reading is before the deadline, and none sooner.
      The deadline is the whole lease past `t`. */
  lemma RenewedAtHalfTime(request: ComputeRequest, log: Log, r: nat, i: nat)
    requires Lawful(request, log) && r + 1 < i && i + 1 < |log| && Asks(log[r]) && GrantAt(log, r + 1).Some?
    requires (forall k :: r < k < i ==> !Asks(log[k])) && TurnReading(log, i) && r > 0
    requires GrantAt(log, r + 1).value.remaining <= 365 * 24 * 3_600 * 1_000_000_000
    requires log[r - 1].at + 365 * 24 * 3_600 * 1_000_000_000 < 0x8000_0000_0000_0000 * 1_000_000_000
    ensures var (t, now, remaining) := (log[r - 1].at, log[i].at, GrantAt(log, r + 1).value.remaining);
      && (t + remaining / 2 <= now < t + remaining ==> AsksNext(request, log, i))
      && (now < t + remaining / 2 ==> log[i + 1].deed == Slept(200_000_000))
      && (t + remaining <= now ==> log[i + 1].deed.Signalled? || log[i + 1].deed.Polled?)
  {
    hide RenewalDue, LastGrant, LastAsked, Lawful;
    SlicedLastAsked(log, r, i);
    EveryTurnIsPrompt(request, log, i);
    DueBefore(log, r, i);
    LastGrantFollowsLastAsk(log[..i], r);
    assert log[..i][r - 1] == log[r - 1];
    SafeDeadlineExactly(log[r - 1].at, GrantAt(log, r + 1).value.remaining);
    SafeDeadlineExactly(log[r - 1].at, GrantAt(log, r + 1).value.remaining / 2);
  }

  // ----- and how soon that is

  /** How long it takes at most from here to the next attempt's request, once one is due. */
  function TimeToAsk(control: Control, lag: nat): nat {
    match control
    case ToPoll => 2 * lag
    case ToReadTurn => lag
    case ToSleep => 200_000_000 + 3 * lag
    case _ => 0
  }

  /** An attempt failed that was made on the reading `t`, and the next is under way. */
  predicate Retrying(m: Progress, now: nat, t: nat, lag: nat) {
    m.granted != [] && !m.over ==>
      && (m.control.ToPoll? || m.control.ToReadTurn? || m.control.ToSleep? || m.control.ToReadBase? || m.control.ToAsk?)
      && m.renewAt <= t + 1_000_000_000
      && now + TimeToAsk(m.control, lag) <=
           t + Max(1_000_000_000, 2 * lag) + 200_000_000 + (if m.control.ToAsk? then 4 else 3) * lag
  }

  lemma RetryingOn(m: Progress, since: nat, e: Entry, t: nat, lag: nat)
    requires LeasesOut(m) && Retrying(m, since, t, lag) && ComesSoon(since, e, lag) && !Asks(e)
    requires m.child.Some? && Proceed(m, since, e).Some?
    ensures Retrying(Proceed(m, since, e).value, e.at, t, lag)
  {
  }

  /** The last request was not granted. */
  predicate FailedLast(log: Log, r: nat) {
    0 < r && r + 1 < |log| && LastAsked(log) == Some(r) && GrantAt(log, r + 1).None?
  }

  lemma FailureStarts(request: ComputeRequest, log: Log, r: nat, lag: nat)
    requires Lawful(request, log) && Prompt(log, lag) && FailedLast(log, r) && |log| == r + 2
    ensures Retrying(Watch(request, log).value, Latest(log), log[r - 1].at, lag)
  {
    hide Watch, LeasesOut, GrantsOk, ReturnsOk, RenewalOk, GraceOk, EndsSomewhere, ChildOf, NothingReturnedYet, LastGrant, GrantedIds;
    var before, e := log[..r + 1], log[r + 1];
    var m, n := JustBefore(request, log, r + 1);
    assert log[..r + 2] == log;
    assert before[r] == log[r] && before[r - 1] == log[r - 1];
    AskedIsAwaited(request, log, r, m);
    NextRetryExactly(log[r - 1].at, m.deadline);
    assert ComesSoon(log[r - 1].at, log[r], lag) && ComesSoon(log[r].at, log[r + 1], lag);
  }

  lemma AskedIsAwaited(request: ComputeRequest, log: Log, r: nat, m: Progress)
    requires Lawful(request, log) && r < |log| && Asks(log[r]) && Watch(request, log[..r + 1]) == Some(m)
    ensures m.control.Asking? && r > 0 && m.control.base == log[r - 1].at && m.request == request
  {
    hide Watch, Proceed, LeasesOut, GrantsOk, ReturnsOk, RenewalOk, GraceOk, EndsSomewhere, ChildOf, NothingReturnedYet, LastGrant, GrantedIds;
    var l, n := JustBefore(request, log, r);
    WhereItHappens(l, Latest(log[..r]), log[r]);
    AskingFollows(l, Latest(log[..r]), log[r]);
    assert log[..r + 1][r - 1] == log[r - 1];
    AskedRightAfterReading(request, log, r);
  }

  lemma AskingFollows(l: Progress, since: nat, e: Entry)
    requires Asks(e) && Proceed(l, since, e).Some?
    ensures l.control.ToAsk? && Proceed(l, since, e).value == l.(control := Asking(l.control.base))
  {
  }

  /** Without a lease nothing brings one but the answer to a request. */
  lemma NothingUnasked(m: Progress, since: nat, e: Entry)
    requires LeasesOut(m) && m.granted == [] && !m.control.Asking? && Proceed(m, since, e).Some?
    ensures Proceed(m, since, e).value.granted == []
  {
  }

  lemma RetryHasChild(log: Log, m: Progress, r: nat, lag: nat)
    requires Remembers(log, m) && FailedLast(log, r) && Retrying(m, Latest(log), log[r - 1].at, lag)
    ensures !m.control.Asking? && (m.granted != [] && !m.over ==> m.child.Some?)
  {
  }

  lemma {:induction false} RetryIsUnderWay(request: ComputeRequest, log: Log, r: nat, lag: nat)
    requires Lawful(request, log) && Prompt(log, lag) && FailedLast(log, r)
    ensures Retrying(Watch(request, log).value, Latest(log), log[r - 1].at, lag)
    decreases |log|
  {
    hide Proceed, Retrying, LeasesOut, Remembers, LastAsked;
    if |log| == r + 2 {
      FailureStarts(request, log, r, lag);
    } else {
      var before, e := log[..|log| - 1], log[|log| - 1];
      FailedBefore(log, r);
      PrefixServedPromptly(log, lag);
      RetryIsUnderWay(request, before, r, lag);
      LawfulLogRemembers(request, before);
      assert ComesSoon(before[|before| - 1].at, e, lag);
      RetryGoesOn(before, Watch(request, before).value, e, r, lag);
    }
  }

  lemma PrefixServedPromptly(log: Log, lag: nat)
    requires log != [] && Prompt(log, lag)
    ensures Prompt(log[..|log| - 1], lag)
  {
  }

  lemma FailedBefore(log: Log, r: nat)
    requires FailedLast(log, r) && |log| > r + 2
    ensures FailedLast(log[..|log| - 1], r) && !Asks(log[|log| - 1])
    ensures log[..|log| - 1][r - 1] == log[r - 1]
  {
    AskedMore(log[..|log| - 1], log[|log| - 1]);
    assert log == log[..|log| - 1] + [log[|log| - 1]];
  }

  lemma RetryGoesOn(log: Log, m: Progress, e: Entry, r: nat, lag: nat)
    requires Remembers(log, m) && FailedLast(log, r) && Retrying(m, Latest(log), log[r - 1].at, lag)
    requires ComesSoon(Latest(log), e, lag) && !Asks(e) && Proceed(m, Latest(log), e).Some?
    ensures Retrying(Proceed(m, Latest(log), e).value, e.at, log[r - 1].at, lag)
  {
    hide Proceed, LeasesOut, TailOk, GrantsOk, ReturnsOk, RenewalOk, GraceOk, EndsSomewhere, ChildOf, NothingReturnedYet;
    RetryHasChild(log, m, r, lag);
    if m.granted == [] {
      NothingUnasked(m, Latest(log), e);
    } else if m.over {
      StaysOver(m, Latest(log), e);
    } else {
      RetryingOn(m, Latest(log), e, log[r - 1].at, lag);
    }
  }

  lemma StaysOver(m: Progress, since: nat, e: Entry)
    requires m.over && Proceed(m, since, e).Some?
    ensures Proceed(m, since, e).value.over
  {
  }

  /** As long as nothing has ended the workload, the launcher that failed to renew on the
      reading `t` never gets further than a second, a turn of the loop and a few delays past
      `t` without having asked again. */
  lemma RetriedSoon(request: ComputeRequest, log: Log, r: nat, lag: nat)
    requires Lawful(request, log) && Prompt(log, lag) && FailedLast(log, r)
    requires GrantedIds(log) != [] && !EndsSomewhere(log)
    ensures Latest(log) <= log[r - 1].at + Max(1_000_000_000, 2 * lag) + 200_000_000 + 4 * lag
  {
    hide Watch, LeasesOut, TailOk, ReturnsOk, RenewalOk, GraceOk, EndsSomewhere, ChildOf, NothingReturnedYet, LastGrant, LastAsked, GrantedIds;
    LawfulLogRemembers(request, log);
    RetryIsUnderWay(request, log, r, lag);
  }
}
