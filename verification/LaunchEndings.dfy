/** What a launch answers, said of the entries of its log, and how a lapse is carried out. */
module LaunchEndings {
  import opened Prelude
  import opened Resource
  import opened Lease
  import opened Authority
  import opened Launcher
  import opened LaunchLog

  // ----- what there is to see in a log

  /** The log shows the launch through to its end: the context torn down, or nothing to
      tear down. */
  predicate Concluded(log: Log) {
    log != [] &&
    match log[|log| - 1].deed
    case ProfileLoaded(ok) => !ok
    case ContextEstablished(ok) => !ok
    case ContextTornDown => true
    case _ => false
  }

  /** The reading of a turn that found the workload running, at or past the deadline of the
      youngest lease. */
  predicate Lapses(log: Log, k: nat)
    requires k < |log|
  {
    && k > 0 && log[k - 1].deed == Polled(None) && log[k].deed == ClockRead
    && var h := LastGrant(log[..k]);
       h.Some? && 2 <= h.value && log[k].at >= DeadlineAt(log[..k], h.value)
  }

  predicate Lapsed(log: Log) { exists k :: 0 <= k < |log| && Lapses(log, k) }

  /** A poll before any lapse that saw the workload exit. */
  predicate Exits(log: Log, k: nat, status: int)
    requires k < |log|
  {
    log[k].deed == Polled(Some(status)) && !Lapsed(log[..k])
  }

  predicate Exited(log: Log, status: int) { exists k :: 0 <= k < |log| && Exits(log, k, status) }

  predicate SpawnAttempted(log: Log) { exists k :: 0 <= k < |log| && log[k].deed.SpawnTried? }

  predicate SpawnFailed(log: Log) { exists k :: 0 <= k < |log| && log[k].deed == SpawnTried(None) }

  /** What was last polled or waited for. */
  function LastStatus(log: Log): Option<int> {
    if log == [] then None
    else
      match log[|log| - 1].deed
      case Polled(status) => status
      case Waited(status) => status
      case _ => LastStatus(log[..|log| - 1])
  }

  // ----- one more entry

  lemma LapsedMore(log: Log, e: Entry)
    ensures Lapsed(log + [e]) <==> Lapsed(log) || Lapses(log + [e], |log|)
  {
    var longer := log + [e];
    forall k | 0 <= k < |log|
      ensures Lapses(longer, k) <==> Lapses(log, k)
    {
      assert longer[..k] == log[..k];
    }
    if Lapsed(log) {
      var k :| 0 <= k < |log| && Lapses(log, k);
      assert Lapses(longer, k);
    }
  }

  lemma ExitedMore(log: Log, e: Entry, status: int)
    ensures Exited(log + [e], status) <==> Exited(log, status) || (e.deed == Polled(Some(status)) && !Lapsed(log))
  {
    hide Lapsed;
    var longer := log + [e];
    assert longer[..|log|] == log;
    forall k | 0 <= k < |log|
      ensures Exits(longer, k, status) <==> Exits(log, k, status)
    {
      assert longer[..k] == log[..k];
    }
    if Exited(log, status) {
      var k :| 0 <= k < |log| && Exits(log, k, status);
      assert Exits(longer, k, status);
    }
    if e.deed == Polled(Some(status)) && !Lapsed(log) {
      assert Exits(longer, |log|, status);
    }
  }

  lemma SpawnMore(log: Log, e: Entry)
    ensures SpawnAttempted(log + [e]) <==> SpawnAttempted(log) || e.deed.SpawnTried?
    ensures SpawnFailed(log + [e]) <==> SpawnFailed(log) || e.deed == SpawnTried(None)
  {
    var longer := log + [e];
    assert forall k :: 0 <= k < |log| ==> longer[k] == log[k];
    assert longer[|log|] == e;
    if SpawnAttempted(log) {
      var k :| 0 <= k < |log| && log[k].deed.SpawnTried?;
      assert longer[k].deed.SpawnTried?;
    }
    if SpawnFailed(log) {
      var k :| 0 <= k < |log| && log[k].deed == SpawnTried(None);
      assert longer[k].deed == SpawnTried(None);
    }
  }

  lemma StatusMore(log: Log, e: Entry)
    ensures LastStatus(log + [e]) ==
      if e.deed.Polled? then e.deed.status else if e.deed.Waited? then e.deed.status else LastStatus(log)
  {
    assert (log + [e])[..|log|] == log;
  }

  // ----- what the protocol has decided, against what there is to see

  /** A lapse is being carried out. */
  predicate Lapsing(control: Control) {
    match control
    case ToTerminate => true
    case ToReadGrace => true
    case InGrace(_) => true
    case ToPollInGrace(_) => true
    case ToSleepInGrace(_) => true
    case ToKill => true
    case ToWait => true
    case ToReap => true
    case _ => false
  }

  /** When an ending is decided. */
  predicate DecidedInTime(m: Progress) {
    if m.control == ToTearDown || m.control == Done || (m.over && !Lapsing(m.control)) then
      m.ending != Undecided && (m.ending == Failed || m.ending == SpawnRefused <==> m.child.None?)
    else m.ending == Undecided
  }

  /** What one entry decides. A spawn is tried, a workload seen to exit, and a lapse carried
      out each in its own place. */
  ghost predicate Decides(m: Progress, e: Entry, n: Progress) {
    && (e.deed.SpawnTried? ==> m.control == ToSpawn)
    && (e.deed == SpawnTried(None) <==> m.ending == Undecided && n.ending == SpawnRefused)
    && (e.deed.SpawnTried? && e.deed.child.Some? <==> m.child.None? && n.child.Some?)
    && (m.child.Some? ==> n.child == m.child)
    && (m.ending != Undecided ==>
          n.ending == m.ending && m.control != ToReadTurn && !Lapsing(m.control) && !Lapsing(n.control) && !e.deed.Polled? && !e.deed.Waited?)
    && (m.ending == Undecided && Lapsing(m.control) ==>
          if Lapsing(n.control) then n.ending == Undecided
          else
            && n.ending.AuthorizationLapsed?
            && (e.deed == Polled(n.ending.suppressed) || e.deed == Waited(n.ending.suppressed)))
    && (m.ending == Undecided && !Lapsing(m.control) ==>
          && !n.ending.AuthorizationLapsed? && !e.deed.Waited?
          && (Lapsing(n.control) ==> m.control == ToReadTurn && e.deed == ClockRead && e.at >= m.deadline)
          && (m.control == ToReadTurn && e.deed == ClockRead && e.at >= m.deadline ==> Lapsing(n.control))
          && (forall status: int :: n.ending == WorkloadEnded(status) <==> e.deed == Polled(Some(status))))
  }

  lemma StartDecides(m: Progress, e: Entry)
    requires LeasesOut(m) && DecidedInTime(m) && AdvanceStart(m, e.deed).Some?
    ensures Decides(m, e, AdvanceStart(m, e.deed).value) && DecidedInTime(AdvanceStart(m, e.deed).value)
  {
  }

  lemma ReadingDecides(m: Progress, e: Entry)
    requires LeasesOut(m) && DecidedInTime(m) && e.deed == ClockRead && AdvanceRead(m, e.at).Some?
    ensures Decides(m, e, AdvanceRead(m, e.at).value) && DecidedInTime(AdvanceRead(m, e.at).value)
  {
  }

  lemma SendingDecides(m: Progress, e: Entry)
    requires LeasesOut(m) && DecidedInTime(m) && e.deed.Sent? && AdvanceSent(m, e.deed.message).Some?
    ensures Decides(m, e, AdvanceSent(m, e.deed.message).value) && DecidedInTime(AdvanceSent(m, e.deed.message).value)
  {
  }

  lemma AnswerDecides(m: Progress, e: Entry)
    requires LeasesOut(m) && DecidedInTime(m) && e.deed.Heard? && AdvanceHeard(m, e.deed.answer).Some?
    ensures Decides(m, e, AdvanceHeard(m, e.deed.answer).value) && DecidedInTime(AdvanceHeard(m, e.deed.answer).value)
  {
  }

  lemma PollDecides(m: Progress, e: Entry)
    requires LeasesOut(m) && DecidedInTime(m) && e.deed.Polled? && AdvancePolled(m, e.deed.status).Some?
    ensures Decides(m, e, AdvancePolled(m, e.deed.status).value) && DecidedInTime(AdvancePolled(m, e.deed.status).value)
  {
  }

  lemma WaitDecides(m: Progress, e: Entry)
    requires LeasesOut(m) && DecidedInTime(m) && e.deed.Waited? && AdvanceWaited(m, e.deed.status).Some?
    ensures Decides(m, e, AdvanceWaited(m, e.deed.status).value) && DecidedInTime(AdvanceWaited(m, e.deed.status).value)
  {
  }

  lemma SleepDecides(m: Progress, since: nat, e: Entry)
    requires LeasesOut(m) && DecidedInTime(m) && e.deed.Slept? && Proceed(m, since, e).Some?
    ensures Decides(m, e, Proceed(m, since, e).value) && DecidedInTime(Proceed(m, since, e).value)
  {
  }

  lemma SignalDecides(m: Progress, since: nat, e: Entry)
    requires LeasesOut(m) && DecidedInTime(m) && e.deed.Signalled? && Proceed(m, since, e).Some?
    ensures Decides(m, e, Proceed(m, since, e).value) && DecidedInTime(Proceed(m, since, e).value)
  {
  }

  lemma EntryDecides(m: Progress, since: nat, e: Entry)
    requires LeasesOut(m) && DecidedInTime(m) && Proceed(m, since, e).Some?
    ensures Decides(m, e, Proceed(m, since, e).value) && DecidedInTime(Proceed(m, since, e).value)
  {
    hide LeasesOut, DecidedInTime, Decides;
    match e.deed
    case ClockRead => ReadingDecides(m, e);
    case Sent(_) => SendingDecides(m, e);
    case Heard(_) => AnswerDecides(m, e);
    case Polled(_) => PollDecides(m, e);
    case Waited(_) => WaitDecides(m, e);
    case Slept(_) => SleepDecides(m, since, e);
    case Signalled(_, _) => SignalDecides(m, since, e);
    case _ => StartDecides(m, e);
  }

  /** The protocol's ending is the one to be read off the log. */
  ghost predicate EndingFits(log: Log, m: Progress) {
    && (SpawnAttempted(log) <==> m.child.Some? || m.ending == SpawnRefused)
    && (SpawnFailed(log) <==> m.ending == SpawnRefused)
    && (forall status: int :: Exited(log, status) <==> m.ending == WorkloadEnded(status))
    && (Lapsed(log) <==> Lapsing(m.control) || m.ending.AuthorizationLapsed?)
    && (m.ending.AuthorizationLapsed? ==> LastStatus(log) == m.ending.suppressed)
  }

  /** A lapse is seen in the log exactly where the protocol turns to it. */
  lemma LapseIsSeen(request: ComputeRequest, log: Log, m: Progress)
    requires Lawful(request, log) && log != [] && Watch(request, log[..|log| - 1]) == Some(m)
    ensures Lapses(log, |log| - 1) <==>
      m.control == ToReadTurn && log[|log| - 1].deed == ClockRead && log[|log| - 1].at >= m.deadline
  {
    hide Watch, Proceed, ReturnsOk, RenewalOk, GraceOk, EndsSomewhere, ChildOf, NothingReturnedYet, GrantedIds, LastGrant, HandedBack, Tries, LastAsked, LastSignal, DeadlineAt;
    var i := |log| - 1;
    assert log[..i] == log[..|log| - 1];
    PrefixLawful(request, log, i);
    LawfulLogRemembers(request, log[..i]);
    if i > 0 && log[i - 1].deed == Polled(None) && log[i].deed == ClockRead {
      TurnIsDue(request, log, i, m);
    }
    if m.control == ToReadTurn {
      assert log[..i][i - 1] == log[i - 1];
    }
  }

  lemma EndingFitsMore(log: Log, m: Progress, e: Entry, n: Progress)
    requires EndingFits(log, m) && Decides(m, e, n) && DecidedInTime(m)
    requires Lapses(log + [e], |log|) <==> m.control == ToReadTurn && e.deed == ClockRead && e.at >= m.deadline
    ensures EndingFits(log + [e], n)
  {
    hide Lapsed, Exited, SpawnAttempted, SpawnFailed, LastStatus, Lapses;
    LapsedMore(log, e);
    SpawnMore(log, e);
    StatusMore(log, e);
    forall status: int
      ensures Exited(log + [e], status) <==> Exited(log, status) || (e.deed == Polled(Some(status)) && !Lapsed(log))
    {
      ExitedMore(log, e, status);
    }
  }

  lemma NothingDecided(request: ComputeRequest)
    ensures EndingFits([], Begin(request)) && DecidedInTime(Begin(request))
  {
  }

  lemma {:induction false} EndingIsSeen(request: ComputeRequest, log: Log)
    requires Lawful(request, log)
    ensures EndingFits(log, Watch(request, log).value) && DecidedInTime(Watch(request, log).value)
    decreases |log|
  {
    hide Proceed, Latest, LeasesOut, EndingFits, DecidedInTime, Decides, Lapses;
    if log == [] {
      NothingDecided(request);
    } else {
      var before, e := log[..|log| - 1], log[|log| - 1];
      assert log == before + [e];
      var m, n := Watch(request, before).value, Watch(request, log).value;
      EndingIsSeen(request, before);
      LedgerHolds(request, before);
      EntryDecides(m, Latest(before), e);
      LapseIsSeen(request, log, m);
      EndingFitsMore(before, m, e, n);
    }
  }

  lemma ConcludedIsDone(m: Progress, since: nat, e: Entry)
    requires Proceed(m, since, e).Some?
    ensures Proceed(m, since, e).value.control == Done <==>
      match e.deed
      case ProfileLoaded(ok) => !ok
      case ContextEstablished(ok) => !ok
      case ContextTornDown => true
      case _ => false
  {
  }

  /** What a launch that ran to its end answers. The workload's status is the one a poll saw
      before any lapse; a lapse is a turn's reading at or past the deadline, and what it
      suppressed is the last status polled or waited for; a refused spawn is one that was
      tried; and a launch failed exactly if none was. */
  lemma EndingExactly(request: ComputeRequest, log: Log)
    requires Lawful(request, log) && Concluded(log)
    ensures Watch(request, log).value.control == Done
    ensures var ending := Watch(request, log).value.ending;
      && (forall status: int :: ending == WorkloadEnded(status) <==> Exited(log, status))
      && (ending.AuthorizationLapsed? <==> Lapsed(log))
      && (ending.AuthorizationLapsed? ==> ending.suppressed == LastStatus(log))
      && (ending == SpawnRefused <==> SpawnFailed(log))
      && (ending == Failed <==> !SpawnAttempted(log))
      && ending != Undecided
  {
    hide Proceed, Latest, Lapsed, Exited, SpawnAttempted, SpawnFailed, LastStatus;
    var before, e := log[..|log| - 1], log[|log| - 1];
    EndingIsSeen(request, log);
    ConcludedIsDone(Watch(request, before).value, Latest(before), e);
  }

  /** Run to its end, the code answers what its log shows. */
  method Launch(outside: Outside, polls: nat) returns (ending: Ending)
    requires outside.log == []
    modifies outside
    ensures ending != Undecided <==> Concluded(outside.log)
    ensures forall status: int :: ending == WorkloadEnded(status) <==> Concluded(outside.log) && Exited(outside.log, status)
    ensures ending.AuthorizationLapsed? <==> Concluded(outside.log) && Lapsed(outside.log)
    ensures ending.AuthorizationLapsed? ==> ending.suppressed == LastStatus(outside.log)
    ensures ending == SpawnRefused <==> Concluded(outside.log) && SpawnFailed(outside.log)
    ensures ending == Failed <==> Concluded(outside.log) && !SpawnAttempted(outside.log)
  {
    hide Watch, Lapsed, Exited, SpawnAttempted, SpawnFailed, LastStatus, Concluded;
    ending := Run(outside, polls);
    DoneIsConcluded(outside.request, outside.log);
    if Concluded(outside.log) {
      EndingExactly(outside.request, outside.log);
    }
  }

  lemma DoneIsConcluded(request: ComputeRequest, log: Log)
    requires Lawful(request, log)
    ensures Watch(request, log).value.control == Done <==> Concluded(log)
  {
    hide Proceed, Latest;
    if log != [] {
      var before, e := log[..|log| - 1], log[|log| - 1];
      ConcludedIsDone(Watch(request, before).value, Latest(before), e);
    }
  }

  // ----- how a lapse is carried out

  /** The grace period is counted from the reading right after the termination signal. */
  predicate GraceCounted(log: Log, m: Progress) {
    match m.control
    case ToReadGrace => log != [] && TermAt(log, |log| - 1, m)
    case InGrace(until) => CountedFrom(log, m, until)
    case ToPollInGrace(until) => CountedFrom(log, m, until)
    case ToSleepInGrace(until) => CountedFrom(log, m, until)
    case _ => true
  }

  predicate TermAt(log: Log, t: nat, m: Progress) {
    LastSignal(log) == Some(t) && m.child.Some? && t < |log| && log[t].deed == Signalled(Term, m.child.value)
  }

  predicate CountedFrom(log: Log, m: Progress, until: nat) {
    && LastSignal(log).Some?
    && var t := LastSignal(log).value;
       TermAt(log, t, m) && t + 1 < |log| && log[t + 1].deed == ClockRead && until == log[t + 1].at + 5_000_000_000
  }

  lemma GraceCountedMore(log: Log, m: Progress, e: Entry)
    requires GraceCounted(log, m) && Proceed(m, Latest(log), e).Some?
    ensures GraceCounted(log + [e], Proceed(m, Latest(log), e).value)
  {
    hide Proceed, LastSignal;
    AdvanceGrace(m, Latest(log), e);
    SignalMore(log, e);
  }

  lemma NoGraceYet(request: ComputeRequest)
    ensures GraceCounted([], Begin(request))
  {
  }

  lemma {:induction false} GraceIsCounted(request: ComputeRequest, log: Log)
    requires Lawful(request, log)
    ensures GraceCounted(log, Watch(request, log).value)
    decreases |log|
  {
    hide Proceed, Latest, GraceCounted;
    if log == [] {
      NoGraceYet(request);
    } else {
      var before, e := log[..|log| - 1], log[|log| - 1];
      assert log == before + [e];
      GraceIsCounted(request, before);
      GraceCountedMore(before, Watch(request, before).value, e);
    }
  }

  lemma OverStays(m: Progress, since: nat, e: Entry)
    requires LeasesOut(m) && Proceed(m, since, e).Some?
    ensures m.over || e.deed.Signalled? ==> Proceed(m, since, e).value.over
    ensures (m.over && m.control != ToReap) || e.deed.Signalled? ==> Proceed(m, since, e).value.control != ToReap
  {
  }

  lemma {:induction false} SignalledIsOver(request: ComputeRequest, log: Log)
    requires Lawful(request, log) && LastSignal(log).Some?
    ensures Watch(request, log).value.over && Watch(request, log).value.control != ToReap
    decreases |log|
  {
    hide Proceed, Latest, LeasesOut;
    var before, e := log[..|log| - 1], log[|log| - 1];
    LedgerHolds(request, before);
    OverStays(Watch(request, before).value, Latest(before), e);
    if !e.deed.Signalled? {
      SignalledIsOver(request, before);
    }
  }

  lemma ReadingsWhenOver(m: Progress, since: nat, e: Entry)
    requires LeasesOut(m) && m.over && e.deed == ClockRead && Proceed(m, since, e).Some?
    ensures m.control == ToReadGrace || m.control.InGrace?
  {
  }

  /** What a reading in the grace period leads to: one past its end to the kill, an earlier
      one to a poll, and a poll that finds the workload running to a sleep and a reading. */
  lemma AfterGraceReading(m: Progress, since: nat, e: Entry, later: nat, next: Entry)
    requires m.control.InGrace? && e.deed == ClockRead && Proceed(m, since, e).Some?
    requires Proceed(Proceed(m, since, e).value, later, next).Some?
    ensures m.child.Some? && e.at >= m.control.until ==> next.deed == Signalled(Kill, m.child.value)
    ensures e.at < m.control.until ==> next.deed.Polled?
  {
  }

  lemma SlicedLastSignal(log: Log, t: nat, i: nat)
    requires t < i <= |log| && log[t].deed.Signalled? && forall k :: t < k < i ==> !log[k].deed.Signalled?
    ensures LastSignal(log[..i]) == Some(t)
    decreases i
  {
    if t < i - 1 {
      SlicedLastSignal(log, t, i - 1);
      assert log[..i][..i - 1] == log[..i - 1];
    }
  }

  /** After the termination signal comes a reading, and the grace period is five seconds from
      that very reading: a later reading is followed by the kill, of the same group, if it is
      at or past the end, and by a poll if it is not. */
  lemma GraceIsExact(request: ComputeRequest, log: Log, t: nat, i: nat)
    requires Lawful(request, log) && t + 1 < i && i + 1 < |log| && log[i].deed == ClockRead
    requires log[t].deed.Signalled? && log[t].deed.signal == Term && forall k :: t < k < i ==> !log[k].deed.Signalled?
    ensures log[t + 1].deed == ClockRead
    ensures if log[i].at >= log[t + 1].at + 5_000_000_000 then log[i + 1].deed == Signalled(Kill, log[t].deed.group)
      else log[i + 1].deed.Polled?
  {
    hide Remembers, Watch, Proceed, Latest, LastSignal;
    var m, n := JustBefore(request, log, i);
    var _, _ := JustBefore(request, log, i + 1);
    SlicedLastSignal(log, t, i);
    SignalledIsOver(request, log[..i]);
    LedgerHolds(request, log[..i]);
    ReadingsWhenOver(m, Latest(log[..i]), log[i]);
    GraceIsCounted(request, log[..i]);
    assert log[..i][t] == log[t] && log[..i][t + 1] == log[t + 1];
    AfterGraceReading(m, Latest(log[..i]), log[i], Latest(log[..i + 1]), log[i + 1]);
  }

  lemma AfterGracePoll(m: Progress, since: nat, e: Entry, later: nat, next: Entry)
    requires LeasesOut(m) && m.over && m.control != ToReap && e.deed == Polled(None) && Proceed(m, since, e).Some?
    requires Proceed(Proceed(m, since, e).value, later, next).Some?
    ensures next.deed == Slept(200_000_000)
  {
  }

  /** Through the grace period the child is polled every fifth of a second. */
  lemma GracePollsAreSpaced(request: ComputeRequest, log: Log, t: nat, i: nat)
    requires Lawful(request, log) && t < i && i + 1 < |log| && log[t].deed.Signalled? && log[i].deed == Polled(None)
    ensures log[i + 1].deed == Slept(200_000_000)
  {
    hide Remembers, Watch, Proceed, Latest, LastSignal;
    var m, n := JustBefore(request, log, i);
    var _, _ := JustBefore(request, log, i + 1);
    SignalledBefore(log[..i], t);
    SignalledIsOver(request, log[..i]);
    LedgerHolds(request, log[..i]);
    AfterGracePoll(m, Latest(log[..i]), log[i], Latest(log[..i + 1]), log[i + 1]);
  }

  lemma SignalledBefore(log: Log, t: nat)
    requires t < |log| && log[t].deed.Signalled?
    ensures LastSignal(log).Some?
    decreases |log|
  {
    if t < |log| - 1 {
      SignalledBefore(log[..|log| - 1], t);
    }
  }
}
