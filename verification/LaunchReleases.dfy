/** How often a lease is handed back, and that the workload is gone before its last one is. */
module LaunchReleases {
  import opened Prelude
  import opened Resource
  import opened Lease
  import opened Authority
  import opened Launcher
  import opened LaunchLog

  // ----- counting release messages

  /** Release messages in a log that name the id. */
  function Messages(log: Log, id: LeaseId): nat {
    if log == [] then 0
    else Messages(log[..|log| - 1], id) + if log[|log| - 1].deed == Sent(ReleaseMessage(id)) then 1 else 0
  }

  predicate Distinct(ids: seq<LeaseId>) {
    forall i, j :: 0 <= i < j < |ids| ==> ids[i] != ids[j]
  }

  /** Messages sent so far in the hand-back under way. */
  function InHand(control: Control): nat {
    match control
    case ToRelease(tries) => tries
    case Releasing(tries) => tries
    case ToBackOff(tries) => tries
    case _ => 0
  }

  /** What an entry does to the hand-backs: one more message for the oldest lease out, or
      the end of its hand-back, or nothing but perhaps a new lease. */
  predicate HandBackStep(m: Progress, e: Entry, n: Progress) {
    && InHand(n.control) <= 3 && n.returned <= |n.granted|
    && if Returns(e) then
         && m.returned < |m.granted| && e.deed.message.id == m.granted[m.returned]
         && n.granted == m.granted && n.returned == m.returned && InHand(n.control) == InHand(m.control) + 1
       else if n.returned != m.returned then
         n.granted == m.granted && n.returned == m.returned + 1 && 1 <= InHand(m.control) && InHand(n.control) == 0
       else
         && m.granted <= n.granted && |n.granted| <= |m.granted| + 1 && InHand(n.control) == InHand(m.control)
         && (n.granted != m.granted ==> InHand(n.control) == 0)
  }

  lemma MessagesStep(m: Progress, e: Entry)
    requires LeasesOut(m)
    ensures e.deed.Sent? && AdvanceSent(m, e.deed.message).Some? ==> HandBackStep(m, e, AdvanceSent(m, e.deed.message).value)
    ensures e.deed.Heard? && AdvanceHeard(m, e.deed.answer).Some? ==> HandBackStep(m, e, AdvanceHeard(m, e.deed.answer).value)
  {
  }

  lemma StartStep(m: Progress, e: Entry)
    requires LeasesOut(m) && !Returns(e) && AdvanceStart(m, e.deed).Some?
    ensures HandBackStep(m, e, AdvanceStart(m, e.deed).value)
  {
  }

  lemma WatchingStep(m: Progress, since: nat, e: Entry)
    requires LeasesOut(m) && Proceed(m, since, e).Some?
    requires e.deed.ClockRead? || e.deed.Polled? || e.deed.Waited? || e.deed.Slept? || e.deed.Signalled?
    ensures HandBackStep(m, e, Proceed(m, since, e).value)
  {
  }

  lemma EntrySteps(m: Progress, since: nat, e: Entry)
    requires LeasesOut(m) && Proceed(m, since, e).Some?
    ensures HandBackStep(m, e, Proceed(m, since, e).value)
  {
    hide LeasesOut, HandBackStep;
    match e.deed
    case Sent(_) => MessagesStep(m, e);
    case Heard(_) => MessagesStep(m, e);
    case ProfileLoaded(_) => StartStep(m, e);
    case ContextEstablished(_) => StartStep(m, e);
    case ClientMade(_) => StartStep(m, e);
    case HandlersInstalled(_) => StartStep(m, e);
    case SpawnTried(_) => StartStep(m, e);
    case ContextTornDown => StartStep(m, e);
    case _ => WatchingStep(m, since, e);
  }

  /** An id handed back was named up to three times, the one in hand as often as the
      hand-back under way tried, and any other not at all. */
  predicate CountFits(n: nat, m: Progress, id: LeaseId)
    requires m.returned <= |m.granted|
  {
    if id in m.granted[..m.returned] then 1 <= n <= 3
    else if m.returned < |m.granted| && id == m.granted[m.returned] then n == InHand(m.control)
    else n == 0
  }

  lemma CountKept(m: Progress, e: Entry, n: Progress, id: LeaseId, count: nat)
    requires HandBackStep(m, e, n) && m.returned <= |m.granted| && InHand(m.control) <= 3 && Distinct(n.granted)
    requires CountFits(count, m, id)
    ensures CountFits(count + if e.deed == Sent(ReleaseMessage(id)) then 1 else 0, n, id)
  {
    if id in n.granted[..n.returned] {
      var k :| 0 <= k < n.returned && n.granted[k] == id;
      if k < m.returned {
        assert m.granted[..m.returned][k] == id;
      }
    }
    if id in m.granted[..m.returned] {
      var k :| 0 <= k < m.returned && m.granted[k] == id;
      assert n.granted[..n.returned][k] == id;
    }
  }

  lemma {:induction false} CountsFit(request: ComputeRequest, log: Log, id: LeaseId)
    requires Lawful(request, log) && Distinct(Watch(request, log).value.granted)
    ensures var m := Watch(request, log).value;
      m.returned <= |m.granted| && InHand(m.control) <= 3 && CountFits(Messages(log, id), m, id)
    decreases |log|
  {
    hide HandBackStep, CountFits, Proceed, LeasesOut, Latest;
    if log == [] {
      NothingSent(request, id);
    } else {
      var before, e := log[..|log| - 1], log[|log| - 1];
      var m, n := Watch(request, before).value, Watch(request, log).value;
      LedgerHolds(request, before);
      EntrySteps(m, Latest(before), e);
      StepKeepsDistinct(m, e, n);
      CountsFit(request, before, id);
      CountKept(m, e, n, id, Messages(before, id));
    }
  }

  lemma NothingSent(request: ComputeRequest, id: LeaseId)
    ensures CountFits(0, Begin(request), id)
  {
  }

  lemma StepKeepsDistinct(m: Progress, e: Entry, n: Progress)
    requires HandBackStep(m, e, n) && Distinct(n.granted)
    ensures Distinct(m.granted) && InHand(n.control) <= 3 && n.returned <= |n.granted|
  {
    if m.granted <= n.granted {
      forall i, j | 0 <= i < j < |m.granted|
        ensures m.granted[i] != m.granted[j]
      {
        assert m.granted[i] == n.granted[i] && m.granted[j] == n.granted[j];
      }
    }
  }

  /** Where no id is granted twice, none is named by more than three release messages,
      none that was not granted by any, and in a launch that ran to its end every granted
      one by at least one. */
  lemma AtMostThreeAttempts(request: ComputeRequest, log: Log, id: LeaseId)
    requires Lawful(request, log) && Distinct(GrantedIds(log))
    ensures Messages(log, id) <= 3
    ensures id !in GrantedIds(log) ==> Messages(log, id) == 0
    ensures Watch(request, log).value.control == Done && id in GrantedIds(log) ==> Messages(log, id) >= 1
  {
    hide Watch, Proceed, TailOk, ReturnsOk, RenewalOk, GraceOk, EndsSomewhere, ChildOf, NothingReturnedYet, GrantedIds, LastGrant, HandedBack, Tries, LastAsked, LastSignal, Messages;
    LawfulLogRemembers(request, log);
    CountsFit(request, log, id);
    var m := Watch(request, log).value;
    if m.returned == |m.granted| {
      assert m.granted[..m.returned] == m.granted;
    }
    if id in m.granted[..m.returned] {
      var k :| 0 <= k < m.returned && m.granted[..m.returned][k] == id;
      assert m.granted[k] == id;
    }
  }

  // ----- how one lease is handed back

  /** The agent says the lease is released, or was not there to release. */
  predicate SaysReleased(e: Entry) { e.deed.Heard? && e.deed.answer.Ok? && e.deed.answer.value.LeaseReleased? }

  lemma SendingReturns(m: Progress, since: nat, e: Entry)
    requires Returns(e) && Proceed(m, since, e).Some?
    ensures m.control.ToRelease? && Proceed(m, since, e).value == m.(control := Releasing(m.control.tries + 1))
  {
  }

  lemma AnswerReturns(m: Progress, since: nat, e: Entry)
    requires m.control.Releasing? && 1 <= m.control.tries <= 3 && Proceed(m, since, e).Some?
    ensures e.deed.Heard?
    ensures Proceed(m, since, e).value ==
      if SaysReleased(e) || m.control.tries == 3 then
        m.(returned := m.returned + 1, control := if m.over then ToTearDown else ToSleep)
      else m.(control := ToBackOff(m.control.tries))
  {
  }

  lemma BackingOff(m: Progress, since: nat, e: Entry, later: nat, next: Entry)
    requires m.control.ToBackOff? && 1 <= m.control.tries <= 2 && Proceed(m, since, e).Some?
    ensures e.deed == Slept(if m.control.tries == 1 then 100_000_000 else 200_000_000)
    ensures Proceed(Proceed(m, since, e).value, later, next).Some? ==>
      m.returned < |m.granted| && next.deed == Sent(ReleaseMessage(m.granted[m.returned]))
  {
  }

  lemma HandedBackNext(m: Progress, since: nat, e: Entry)
    requires (m.control == ToTearDown || m.control == ToSleep) && Proceed(m, since, e).Some?
    ensures e.deed == if m.control == ToTearDown then ContextTornDown else Slept(200_000_000)
  {
  }

  /** A release message is followed by its answer. If the answer says released, or it was
      the third message of its hand-back, the hand-back is over; otherwise the same message
      is sent again, a tenth of a second after the first answer and a fifth after the second. */
  lemma ReleaseRetriesExactly(request: ComputeRequest, log: Log, i: nat)
    requires Lawful(request, log) && i + 2 < |log| && Returns(log[i])
    ensures Tries(log[..i]) <= 2 && log[i + 1].deed.Heard?
    ensures var (earlier, next) := (Tries(log[..i]), log[i + 2].deed);
      if SaysReleased(log[i + 1]) || earlier == 2 then next == ContextTornDown || next == Slept(200_000_000)
      else
        && next == Slept(if earlier == 0 then 100_000_000 else 200_000_000)
        && (i + 3 < |log| ==> log[i + 3].deed == log[i].deed)
  {
    hide Watch, Proceed, Latest, TailOk, GrantsOk, RenewalOk, GraceOk, EndsSomewhere, ChildOf, NothingReturnedYet, GrantedIds, LastGrant, HandedBack, Tries, LastAsked, LastSignal, SaysReleased;
    var m, sent := JustBefore(request, log, i);
    var _, heard := JustBefore(request, log, i + 1);
    var _, after := JustBefore(request, log, i + 2);
    WhereItHappens(m, Latest(log[..i]), log[i]);
    SendingReturns(m, Latest(log[..i]), log[i]);
    AnswerReturns(sent, Latest(log[..i + 1]), log[i + 1]);
    if SaysReleased(log[i + 1]) || Tries(log[..i]) == 2 {
      HandedBackNext(heard, Latest(log[..i + 2]), log[i + 2]);
    } else if i + 3 < |log| {
      var _, _ := JustBefore(request, log, i + 3);
      BackingOff(heard, Latest(log[..i + 2]), log[i + 2], Latest(log[..i + 3]), log[i + 3]);
    } else {
      BackingOff(heard, Latest(log[..i + 2]), log[i + 2], 0, log[i + 2]);
    }
  }

  // ----- the workload is gone before the last lease is

  /** The child was seen to have exited, or was waited for. */
  predicate Gone(e: Entry) { e.deed.Waited? || (e.deed.Polled? && e.deed.status.Some?) }

  predicate GoneIn(log: Log) { exists k :: 0 <= k < |log| && Gone(log[k]) }

  /** Past its end, a workload that could be signalled is known to be gone. */
  predicate PastItsEnd(m: Progress) {
    && m.over && m.child.Some? && Signalable(m.child.value)
    && (m.control.ToRelease? || m.control.Releasing? || m.control.ToBackOff? || m.control == ToTearDown || m.control == Done)
  }

  lemma GoneMore(log: Log, e: Entry)
    ensures GoneIn(log + [e]) <==> GoneIn(log) || Gone(e)
  {
    var longer := log + [e];
    if GoneIn(log) {
      var k :| 0 <= k < |log| && Gone(log[k]);
      assert longer[k] == log[k];
    }
    if Gone(e) {
      assert longer[|log|] == e;
    }
  }

  /** The reaping of a child that cannot be signalled comes about only for such a child. */
  predicate ReapsUnsignalable(m: Progress) {
    m.control == ToReap ==> m.child.Some? && !Signalable(m.child.value)
  }

  lemma EndingStep(m: Progress, since: nat, e: Entry)
    requires LeasesOut(m) && ReapsUnsignalable(m) && Proceed(m, since, e).Some?
    ensures ReapsUnsignalable(Proceed(m, since, e).value)
    ensures PastItsEnd(Proceed(m, since, e).value) ==> PastItsEnd(m) || Gone(e)
  {
  }

  lemma {:induction false} GoneWhenPastEnd(request: ComputeRequest, log: Log)
    requires Lawful(request, log)
    ensures ReapsUnsignalable(Watch(request, log).value)
    ensures PastItsEnd(Watch(request, log).value) ==> GoneIn(log)
    decreases |log|
  {
    hide Proceed, LeasesOut, Latest, GoneIn, Gone;
    if log != [] {
      var before, e := log[..|log| - 1], log[|log| - 1];
      LedgerHolds(request, before);
      GoneWhenPastEnd(request, before);
      EndingStep(Watch(request, before).value, Latest(before), e);
      GoneMore(before, e);
      assert log == before + [e];
    }
  }

  /** Entry `i` sends the youngest lease back, the child's process id being `pid`. */
  ghost predicate YoungestGoesBack(request: ComputeRequest, log: Log, i: nat, pid: u32) {
    && Lawful(request, log) && i < |log| && Returns(log[i])
    && |HandedBack(log[..i])| + 1 == |GrantedIds(log[..i])| && ChildOf(log[..i]) == Some(pid)
  }

  /** The youngest lease goes back only once the workload is gone: its exit was seen, or
      waited for after the kill. */
  lemma LastLeaseOutlivesWorkload(request: ComputeRequest, log: Log, i: nat, pid: u32)
    requires YoungestGoesBack(request, log, i, pid) && Signalable(pid)
    ensures GoneIn(log[..i])
  {
    hide Watch, Proceed, TailOk, RenewalOk, GraceOk, EndsSomewhere, ChildOf, NothingReturnedYet, GrantedIds, LastGrant, HandedBack, Tries, LastAsked, LastSignal;
    var m, _ := JustBefore(request, log, i);
    WhereItHappens(m, Latest(log[..i]), log[i]);
    GoneWhenPastEnd(request, log[..i]);
  }

  /** A lawful log with nothing in it to say that the child is gone. */
  ghost predicate StillRunning(request: ComputeRequest, log: Log, m: Progress) {
    Watch(request, log) == Some(m) && Latest(log) == 0 && !GoneIn(log)
  }

  lemma RunsOn(request: ComputeRequest, log: Log, m: Progress, deed: Deed, n: Progress)
    requires StillRunning(request, log, m) && Proceed(m, 0, Entry(0, deed)) == Some(n) && !Gone(Entry(0, deed))
    ensures StillRunning(request, log + [Entry(0, deed)], n)
  {
    hide Watch, Proceed, GoneIn, Gone;
    WatchMore(request, log, Entry(0, deed));
    GoneMore(log, Entry(0, deed));
  }

  lemma NothingYet(request: ComputeRequest)
    ensures StillRunning(request, [], Begin(request))
  {
  }

  /** A launch up to its workload, under a lease with nothing left. */
  lemma Spawned(request: ComputeRequest, id: LeaseId, pid: u32) returns (log: Log)
    ensures StillRunning(request, log, Begin(request).(control := ToPoll, granted := [id], child := Some(pid)))
  {
    hide StillRunning;
    var m := Begin(request);
    var held := m.(granted := [id]);
    var grant: Answer := Ok(LeaseGranted(LeaseView(id, 0)));
    NothingYet(request);
    log := [];
    RunsOn(request, log, m, ProfileLoaded(true), m.(control := ToEstablish));
    log := log + [Entry(0, ProfileLoaded(true))];
    RunsOn(request, log, m.(control := ToEstablish), ContextEstablished(true), m.(control := ToConnect));
    log := log + [Entry(0, ContextEstablished(true))];
    RunsOn(request, log, m.(control := ToConnect), ClientMade(true), m.(control := ToReadBase));
    log := log + [Entry(0, ClientMade(true))];
    RunsOn(request, log, m.(control := ToReadBase), ClockRead, m.(control := ToAsk(0)));
    log := log + [Entry(0, ClockRead)];
    RunsOn(request, log, m.(control := ToAsk(0)), Sent(RequestMessage(request)), m.(control := Asking(0)));
    log := log + [Entry(0, Sent(RequestMessage(request)))];
    assert [] + [id] == [id];
    RunsOn(request, log, m.(control := Asking(0)), Heard(grant), held.(control := ToInstall));
    log := log + [Entry(0, Heard(grant))];
    RunsOn(request, log, held.(control := ToInstall), HandlersInstalled(true), held.(control := ToSpawn));
    log := log + [Entry(0, HandlersInstalled(true))];
    RunsOn(request, log, held.(control := ToSpawn), SpawnTried(Some(pid)), held.(control := ToPoll, child := Some(pid)));
    log := log + [Entry(0, SpawnTried(Some(pid)))];
  }

  /** A child that cannot be signalled is polled once, and that is all. */
  lemma PolledOnce(request: ComputeRequest, id: LeaseId, pid: u32, running: Log, m: Progress) returns (log: Log)
    requires m == Begin(request).(control := ToPoll, granted := [id], child := Some(pid))
    requires !Signalable(pid) && StillRunning(request, running, m)
    ensures StillRunning(request, log, Finish(m.(turns := 1), AuthorizationLapsed(None)))
  {
    hide StillRunning;
    var n := m.(turns := 1);
    log := running;
    RunsOn(request, log, m, Polled(None), n.(control := ToReadTurn));
    log := log + [Entry(0, Polled(None))];
    RunsOn(request, log, n.(control := ToReadTurn), ClockRead, n.(control := ToReap, over := true));
    log := log + [Entry(0, ClockRead)];
    RunsOn(request, log, n.(control := ToReap, over := true), Polled(None), Finish(n, AuthorizationLapsed(None)));
    log := log + [Entry(0, Polled(None))];
  }

  /** A child that cannot be signalled, still running when the lease goes back. */
  lemma LeftRunning(request: ComputeRequest, pid: u32) returns (log: Log, i: nat)
    requires !Signalable(pid)
    ensures YoungestGoesBack(request, log, i, pid) && !GoneIn(log[..i])
  {
    hide StillRunning, YoungestGoesBack, GoneIn;
    var id := LeaseId("", 0);
    var running := Spawned(request, id, pid);
    var m := Begin(request).(control := ToPoll, granted := [id], child := Some(pid));
    var lapsed := PolledOnce(request, id, pid, running, m);
    var n := Finish(m.(turns := 1), AuthorizationLapsed(None));
    RunsOn(request, lapsed, n, Sent(ReleaseMessage(id)), n.(control := Releasing(1)));
    GoesBack(request, lapsed, n, id, pid);
    log, i := lapsed + [Entry(0, Sent(ReleaseMessage(id)))], |lapsed|;
  }

  lemma GoesBack(request: ComputeRequest, log: Log, m: Progress, id: LeaseId, pid: u32)
    requires StillRunning(request, log, m) && m.granted == [id] && m.returned == 0 && m.child == Some(pid)
    requires StillRunning(request, log + [Entry(0, Sent(ReleaseMessage(id)))], m.(control := Releasing(1)))
    ensures var longer := log + [Entry(0, Sent(ReleaseMessage(id)))];
      YoungestGoesBack(request, longer, |log|, pid) && !GoneIn(longer[..|log|])
  {
    hide Watch, GoneIn, LeasesOut, TailOk, RenewalOk, GraceOk, NothingReturnedYet, GrantedIds, LastGrant, HandedBack, Tries, ChildOf;
    LawfulLogRemembers(request, log);
    assert (log + [Entry(0, Sent(ReleaseMessage(id)))])[..|log|] == log;
  }

  /** That the workload is gone before its last lease goes back is certain exactly if its
      process id can be signalled. */
  lemma OutlivesExactly(request: ComputeRequest, pid: u32)
    ensures (forall log, i: nat :: YoungestGoesBack(request, log, i, pid) ==> GoneIn(log[..i])) <==> 0 < pid < 0x8000_0000
  {
    hide Lawful, Returns, HandedBack, GrantedIds, ChildOf, GoneIn;
    if Signalable(pid) {
      forall log, i: nat | YoungestGoesBack(request, log, i, pid)
        ensures GoneIn(log[..i])
      {
        LastLeaseOutlivesWorkload(request, log, i, pid);
      }
    } else {
      var log, i := LeftRunning(request, pid);
      assert YoungestGoesBack(request, log, i, pid) && !GoneIn(log[..i]);
    }
  }

  lemma AfterKill(m: Progress, since: nat, e: Entry, later: nat, next: Entry)
    requires e.deed.Signalled? && e.deed.signal == Kill && Proceed(m, since, e).Some?
    requires Proceed(Proceed(m, since, e).value, later, next).Some?
    ensures next.deed.Waited?
  {
  }

  /** A kill is followed by nothing but the wait for the exit. */
  lemma KilledIsWaitedFor(request: ComputeRequest, log: Log, i: nat)
    requires Lawful(request, log) && i + 1 < |log| && log[i].deed.Signalled? && log[i].deed.signal == Kill
    ensures log[i + 1].deed.Waited?
  {
    hide Remembers, Watch, Proceed, Latest;
    var m, n := JustBefore(request, log, i);
    var _, _ := JustBefore(request, log, i + 1);
    AfterKill(m, Latest(log[..i]), log[i], Latest(log[..i + 1]), log[i + 1]);
  }
}
