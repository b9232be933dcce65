/** What a lawful launch log means, said of its entries: every clock reading, message,
    signal and spawn in them is something that happened at that time. */
module LaunchLog {
  import opened Prelude
  import opened Resource
  import opened Lease
  import opened Authority
  import opened Launcher

  // ----- reading a log

  predicate Asks(e: Entry) { e.deed.Sent? && e.deed.message.RequestMessage? }

  predicate Returns(e: Entry) { e.deed.Sent? && e.deed.message.ReleaseMessage? }

  /** The lease an entry brings, if it is the answer to a request. */
  function GrantAt(log: Log, h: nat): Option<LeaseView>
    requires h < |log|
  {
    if h > 0 && Asks(log[h - 1]) && log[h].deed.Heard? && log[h].deed.answer.Ok? && log[h].deed.answer.value.LeaseGranted?
    then Some(log[h].deed.answer.value.lease) else None
  }

  /** Ids granted to the launcher, in order. */
  function GrantedIds(log: Log): seq<LeaseId> {
    if log == [] then []
    else
      var grant := GrantAt(log, |log| - 1);
      GrantedIds(log[..|log| - 1]) + if grant.Some? then [grant.value.leaseId] else []
  }

  /** Where the youngest grant was heard. */
  function LastGrant(log: Log): (h: Option<nat>)
    ensures h.Some? ==> h.value < |log| && GrantAt(log, h.value).Some?
  {
    if log == [] then None
    else if GrantAt(log, |log| - 1).Some? then Some(|log| - 1)
    else LastGrant(log[..|log| - 1])
  }

  function LastAsked(log: Log): (r: Option<nat>)
    ensures r.Some? ==> r.value < |log| && Asks(log[r.value])
    ensures r.None? ==> forall k :: 0 <= k < |log| ==> !Asks(log[k])
    ensures r.Some? ==> forall k :: r.value < k < |log| ==> !Asks(log[k])
  {
    if log == [] then None
    else if Asks(log[|log| - 1]) then Some(|log| - 1)
    else LastAsked(log[..|log| - 1])
  }

  /** The last entry is the answer, usable or not, to a release message. */
  predicate ReturnAnswered(log: Log) {
    |log| >= 2 && log[|log| - 1].deed.Heard? && Returns(log[|log| - 2])
  }

  /** Exchanges of the hand-back under way: a hand-back ends at its first acknowledgement
      or with its third exchange. */
  function Tries(log: Log): nat {
    if log == [] then 0
    else
      var before := Tries(log[..|log| - 1]);
      if !ReturnAnswered(log) then before
      else if Acknowledges(log[|log| - 1].deed.answer) || before >= 2 then 0
      else before + 1
  }

  /** Ids whose hand-back is complete, in order. */
  function HandedBack(log: Log): seq<LeaseId> {
    if log == [] then []
    else
      var before := log[..|log| - 1];
      HandedBack(before) +
        if ReturnAnswered(log) && Tries(log) == 0 then [log[|log| - 2].deed.message.id] else []
  }

  /** The deadline a grant sets: counted from the reading two entries before its answer. */
  function DeadlineAt(log: Log, h: nat): nat
    requires 2 <= h < |log| && GrantAt(log, h).Some?
  {
    SafeDeadline(log[h - 2].at, GrantAt(log, h).value.remaining)
  }

  // ----- prefixes

  lemma {:induction false} PrefixLawful(request: ComputeRequest, log: Log, i: nat)
    requires Lawful(request, log) && i <= |log|
    ensures Lawful(request, log[..i])
    ensures i < |log| ==>
      Proceed(Watch(request, log[..i]).value, Latest(log[..i]), log[i]) == Watch(request, log[..i + 1])
    decreases |log|
  {
    if i == |log| {
      assert log[..i] == log;
    } else {
      PrefixLawful(request, log[..|log| - 1], i);
      assert log[..|log| - 1][..i] == log[..i];
      if i < |log| - 1 {
        assert log[..|log| - 1][..i + 1] == log[..i + 1];
      } else {
        assert log[..i + 1] == log;
      }
    }
  }

  lemma LatestIsLast(log: Log, i: nat)
    requires 0 < i <= |log|
    ensures Latest(log[..i]) == log[i - 1].at
  {
  }

  /** Entries are in the order of their times. */
  lemma {:induction false} Chronological(request: ComputeRequest, log: Log, i: nat, j: nat)
    requires Lawful(request, log) && i <= j < |log|
    ensures log[i].at <= log[j].at
    decreases j
  {
    if i < j {
      Chronological(request, log, i, j - 1);
      PrefixLawful(request, log, j);
      PrefixLawful(request, log, j + 1);
      LatestIsLast(log, j);
    }
  }

  // ----- the ledger of leases

  /** How many leases are out, by what has to happen next. */
  predicate LeasesOut(m: Progress) {
    match m.control
    case ToLoad => m.granted == [] && m.returned == 0 && m.child.None? && !m.over
    case ToEstablish => m.granted == [] && m.returned == 0 && m.child.None? && !m.over
    case ToConnect => m.granted == [] && m.returned == 0 && m.child.None? && !m.over
    case ToReadBase => AskingOk(m)
    case ToAsk(_) => AskingOk(m)
    case Asking(_) => AskingOk(m)
    case ToInstall => |m.granted| == 1 && m.returned == 0 && m.child.None? && !m.over
    case ToSpawn => |m.granted| == 1 && m.returned == 0 && m.child.None? && !m.over
    case ToPoll => |m.granted| == m.returned + 1 && m.child.Some? && !m.over
    case ToReadTurn => |m.granted| == m.returned + 1 && m.child.Some? && !m.over
    case ToSleep => |m.granted| == m.returned + 1 && m.child.Some? && !m.over
    case ToRelease(tries) => tries <= 2 && ReturningOk(m)
    case Releasing(tries) => 1 <= tries <= 3 && ReturningOk(m)
    case ToBackOff(tries) => 1 <= tries <= 2 && ReturningOk(m)
    case ToTearDown => m.returned == |m.granted|
    case Done => m.returned == |m.granted|
    case _ => |m.granted| == m.returned + 1 && m.child.Some? && m.over
  }

  /** A first request with nothing in hand, or a renewal with one lease in hand. */
  predicate AskingOk(m: Progress) {
    && !m.over
    && if m.granted == [] then m.returned == 0 && m.child.None? else |m.granted| == m.returned + 1 && m.child.Some?
  }

  /** The last lease goes back only when all is over, an older one while a younger is held. */
  predicate ReturningOk(m: Progress) {
    |m.granted| == m.returned + (if m.over then 1 else 2) && (!m.over ==> m.child.Some?)
  }

  lemma LedgerAtStart(m: Progress, deed: Deed)
    requires LeasesOut(m) && AdvanceStart(m, deed).Some?
    ensures LeasesOut(AdvanceStart(m, deed).value) && AdvanceStart(m, deed).value.request == m.request
  {
  }

  lemma LedgerAtReading(m: Progress, now: nat)
    requires LeasesOut(m) && AdvanceRead(m, now).Some?
    ensures LeasesOut(AdvanceRead(m, now).value) && AdvanceRead(m, now).value.request == m.request
  {
  }

  lemma LedgerAtMessages(m: Progress, message: Message, answer: Answer)
    requires LeasesOut(m)
    ensures AdvanceSent(m, message).Some? ==>
      LeasesOut(AdvanceSent(m, message).value) && AdvanceSent(m, message).value.request == m.request
    ensures AdvanceHeard(m, answer).Some? ==>
      LeasesOut(AdvanceHeard(m, answer).value) && AdvanceHeard(m, answer).value.request == m.request
  {
  }

  lemma LedgerAtPoll(m: Progress, status: Option<int>)
    requires LeasesOut(m) && AdvancePolled(m, status).Some?
    ensures LeasesOut(AdvancePolled(m, status).value) && AdvancePolled(m, status).value.request == m.request
  {
  }

  lemma LedgerAtWait(m: Progress, status: Option<int>)
    requires LeasesOut(m) && AdvanceWaited(m, status).Some?
    ensures LeasesOut(AdvanceWaited(m, status).value) && AdvanceWaited(m, status).value.request == m.request
  {
  }

  lemma LedgerElsewhere(m: Progress, slept: nat, duration: nat, signal: Signal, group: u32)
    requires LeasesOut(m)
    ensures AdvanceSlept(m, duration, slept).Some? ==>
      LeasesOut(AdvanceSlept(m, duration, slept).value) && AdvanceSlept(m, duration, slept).value.request == m.request
    ensures AdvanceSignalled(m, signal, group).Some? ==>
      LeasesOut(AdvanceSignalled(m, signal, group).value) && AdvanceSignalled(m, signal, group).value.request == m.request
  {
  }

  lemma LedgerKept(m: Progress, since: nat, e: Entry)
    requires LeasesOut(m) && Proceed(m, since, e).Some?
    ensures LeasesOut(Proceed(m, since, e).value)
    ensures Proceed(m, since, e).value.request == m.request
  {
    hide LeasesOut;
    match e.deed
    case ClockRead => LedgerAtReading(m, e.at);
    case Sent(message) => LedgerAtMessages(m, message, Err(Unreachable));
    case Heard(answer) => LedgerAtMessages(m, ReleaseMessage(LeaseId("", 0)), answer);
    case Polled(status) => LedgerAtPoll(m, status);
    case Waited(status) => LedgerAtWait(m, status);
    case Slept(duration) => LedgerElsewhere(m, e.at - since, duration, Term, 0);
    case Signalled(signal, group) => LedgerElsewhere(m, 0, 0, signal, group);
    case _ => LedgerAtStart(m, e.deed);
  }

  lemma {:induction false} LedgerHolds(request: ComputeRequest, log: Log)
    requires Lawful(request, log)
    ensures LeasesOut(Watch(request, log).value) && Watch(request, log).value.request == request
    decreases |log|
  {
    if log != [] {
      var before := log[..|log| - 1];
      LedgerHolds(request, before);
      LedgerKept(Watch(request, before).value, Latest(before), log[|log| - 1]);
    }
  }

  // ----- the log remembers what the protocol knows

  /** The last entries, where the protocol depends on them. */
  predicate TailOk(log: Log, m: Progress) {
    match m.control
    case ToReadBase =>
      m.granted != [] ==> |log| >= 1 && log[|log| - 1].deed == ClockRead && m.renewAt <= log[|log| - 1].at < m.deadline
    case ToAsk(base) => |log| >= 1 && log[|log| - 1] == Entry(base, ClockRead) && DecidedOk(log, m, |log| - 1)
    case Asking(base) =>
      && |log| >= 2 && log[|log| - 2] == Entry(base, ClockRead) && DecidedOk(log, m, |log| - 2)
      && log[|log| - 1].deed == Sent(RequestMessage(m.request))
    case ToReadTurn => |log| >= 1 && log[|log| - 1].deed == Polled(None)
    case ToTerminate => |log| >= 1 && log[|log| - 1].deed == ClockRead && m.deadline <= log[|log| - 1].at
    case Releasing(_) =>
      && |log| >= 1 && m.returned < |m.granted|
      && log[|log| - 1].deed == Sent(ReleaseMessage(m.granted[m.returned]))
    case _ => true
  }

  /** A renewal follows a turn's reading that called for it: due, and before the deadline. */
  predicate DecidedOk(log: Log, m: Progress, k: nat)
    requires k < |log|
  {
    m.granted != [] ==> k >= 1 && log[k - 1].deed == ClockRead && m.renewAt <= log[k - 1].at < m.deadline
  }

  predicate SameDecision(m: Progress, n: Progress) {
    m.granted == n.granted && m.renewAt == n.renewAt && m.deadline == n.deadline && m.request == n.request
  }

  /** Where an entry leads, as far as the last entries matter there. */
  predicate LeadsTo(m: Progress, e: Entry, n: Progress) {
    match n.control
    case ToReadBase => n.granted != [] ==> e.deed == ClockRead && n.renewAt <= e.at < n.deadline
    case ToAsk(base) => e == Entry(base, ClockRead) && m.control == ToReadBase && SameDecision(m, n)
    case Asking(base) => m.control == ToAsk(base) && e.deed == Sent(RequestMessage(n.request)) && SameDecision(m, n)
    case ToReadTurn => e.deed == Polled(None)
    case ToTerminate => e.deed == ClockRead && n.deadline <= e.at
    case Releasing(_) => n.returned < |n.granted| && e.deed == Sent(ReleaseMessage(n.granted[n.returned]))
    case _ => true
  }

  lemma ReadingLeads(m: Progress, e: Entry)
    requires LeasesOut(m) && e.deed == ClockRead && AdvanceRead(m, e.at).Some?
    ensures LeadsTo(m, e, AdvanceRead(m, e.at).value)
  {
  }

  lemma MessagesLead(m: Progress, e: Entry)
    requires LeasesOut(m)
    ensures e.deed.Sent? && AdvanceSent(m, e.deed.message).Some? ==> LeadsTo(m, e, AdvanceSent(m, e.deed.message).value)
    ensures e.deed.Heard? && AdvanceHeard(m, e.deed.answer).Some? ==> LeadsTo(m, e, AdvanceHeard(m, e.deed.answer).value)
  {
  }

  lemma StartLeads(m: Progress, e: Entry)
    requires LeasesOut(m) && AdvanceStart(m, e.deed).Some?
    ensures LeadsTo(m, e, AdvanceStart(m, e.deed).value)
  {
  }

  lemma EntryLeads(m: Progress, since: nat, e: Entry)
    requires LeasesOut(m) && Proceed(m, since, e).Some?
    ensures LeadsTo(m, e, Proceed(m, since, e).value)
  {
    hide LeasesOut;
    match e.deed
    case ClockRead => ReadingLeads(m, e);
    case Sent(_) => MessagesLead(m, e);
    case Heard(_) => MessagesLead(m, e);
    case Polled(_) =>
    case Waited(_) =>
    case Slept(_) =>
    case Signalled(_, _) =>
    case _ => StartLeads(m, e);
  }

  lemma TailKept(log: Log, m: Progress, e: Entry)
    requires LeasesOut(m) && TailOk(log, m) && Proceed(m, Latest(log), e).Some?
    ensures TailOk(log + [e], Proceed(m, Latest(log), e).value)
  {
    hide Proceed, LeasesOut, Latest;
    EntryLeads(m, Latest(log), e);
  }

  /** The youngest grant is what the deadline is counted from. */
  predicate GrantsOk(log: Log, m: Progress) {
    && m.granted == GrantedIds(log)
    && (LastGrant(log).Some? <==> m.granted != [])
    && (LastGrant(log).Some? ==>
          && 2 <= LastGrant(log).value
          && log[LastGrant(log).value - 2].deed == ClockRead
          && log[LastGrant(log).value - 1].deed == Sent(RequestMessage(m.request))
          && m.deadline == DeadlineAt(log, LastGrant(log).value)
          && m.granted[|m.granted| - 1] == GrantAt(log, LastGrant(log).value).value.leaseId)
  }

  lemma GrantMore(log: Log, e: Entry)
    ensures var longer := log + [e];
      && GrantedIds(longer) == GrantedIds(log) + (if GrantAt(longer, |log|).Some? then [GrantAt(longer, |log|).value.leaseId] else [])
      && LastGrant(longer) == if GrantAt(longer, |log|).Some? then Some(|log|) else LastGrant(log)
  {
    assert (log + [e])[..|log|] == log;
  }

  lemma AdvanceGrants(log: Log, m: Progress, e: Entry)
    requires TailOk(log, m) && Proceed(m, Latest(log), e).Some?
    ensures var (n, grant) := (Proceed(m, Latest(log), e).value, GrantAt(log + [e], |log|));
      if grant.Some? then
        && m.control.Asking? && n.granted == m.granted + [grant.value.leaseId]
        && n.deadline == SafeDeadline(m.control.base, grant.value.remaining)
      else n.granted == m.granted && n.deadline == m.deadline
  {
  }

  lemma GrantsKept(log: Log, m: Progress, e: Entry)
    requires LeasesOut(m) && TailOk(log, m) && GrantsOk(log, m) && Proceed(m, Latest(log), e).Some?
    ensures GrantsOk(log + [e], Proceed(m, Latest(log), e).value)
  {
    hide Proceed;
    LedgerKept(m, Latest(log), e);
    GrantMore(log, e);
    AdvanceGrants(log, m, e);
  }

  /** Exchanges of the hand-back under way that went unacknowledged. */
  function TriesOf(control: Control): nat {
    match control
    case ToRelease(tries) => tries
    case Releasing(tries) => if tries > 0 then tries - 1 else 0
    case ToBackOff(tries) => tries
    case _ => 0
  }

  /** The hand-backs in the log are the ids the protocol counts as returned. */
  predicate ReturnsOk(log: Log, m: Progress) {
    && m.returned <= |m.granted| && HandedBack(log) == m.granted[..m.returned]
    && Tries(log) == TriesOf(m.control)
  }

  lemma ReturnMore(log: Log, e: Entry)
    ensures var (longer, answered) := (log + [e], e.deed.Heard? && log != [] && Returns(log[|log| - 1]));
      && Tries(longer) ==
           (if !answered then Tries(log)
            else if Acknowledges(e.deed.answer) || Tries(log) >= 2 then 0 else Tries(log) + 1)
      && HandedBack(longer) == HandedBack(log) +
           (if answered && Tries(longer) == 0 then [log[|log| - 1].deed.message.id] else [])
  {
    assert (log + [e])[..|log|] == log;
  }

  lemma HeardReturns(m: Progress, answer: Answer)
    requires LeasesOut(m) && AdvanceHeard(m, answer).Some?
    ensures var n := AdvanceHeard(m, answer).value;
      && m.granted <= n.granted && (m.control.Releasing? || m.control.Asking?)
      && if !m.control.Releasing? then n.returned == m.returned && TriesOf(n.control) == TriesOf(m.control)
         else if Acknowledges(answer) || TriesOf(m.control) >= 2 then n.returned == m.returned + 1 && TriesOf(n.control) == 0
         else n.returned == m.returned && TriesOf(n.control) == TriesOf(m.control) + 1
  {
  }

  lemma NothingElseReturns(m: Progress, since: nat, e: Entry)
    requires LeasesOut(m) && Proceed(m, since, e).Some? && !e.deed.Heard?
    ensures var n := Proceed(m, since, e).value;
      n.granted == m.granted && n.returned == m.returned && TriesOf(n.control) == TriesOf(m.control)
  {
  }

  lemma AdvanceReturns(log: Log, m: Progress, e: Entry)
    requires LeasesOut(m) && TailOk(log, m) && Proceed(m, Latest(log), e).Some?
    ensures var (n, answered) := (Proceed(m, Latest(log), e).value, e.deed.Heard? && log != [] && Returns(log[|log| - 1]));
      && m.granted <= n.granted
      && if answered then
           && m.control.Releasing?
           && if Acknowledges(e.deed.answer) || TriesOf(m.control) >= 2
              then n.returned == m.returned + 1 && TriesOf(n.control) == 0
              else n.returned == m.returned && TriesOf(n.control) == TriesOf(m.control) + 1
         else n.returned == m.returned && TriesOf(n.control) == TriesOf(m.control)
  {
    hide LeasesOut, TriesOf, AdvanceHeard;
    if e.deed.Heard? {
      HeardReturns(m, e.deed.answer);
    } else {
      NothingElseReturns(m, Latest(log), e);
    }
  }

  lemma ReturnsKept(log: Log, m: Progress, e: Entry)
    requires LeasesOut(m) && TailOk(log, m) && ReturnsOk(log, m) && Proceed(m, Latest(log), e).Some?
    ensures ReturnsOk(log + [e], Proceed(m, Latest(log), e).value)
  {
    hide Proceed, TriesOf;
    ReturnMore(log, e);
    AdvanceReturns(log, m, e);
    LedgerKept(m, Latest(log), e);
    var n := Proceed(m, Latest(log), e).value;
    assert n.granted[..m.returned] == m.granted[..m.returned];
  }

  /** When to renew after a request counted from `base`: half-way through the lease it
      brought, or a second later, but by the deadline, if it brought none. */
  function DueAfter(base: nat, grant: Option<LeaseView>, deadline: nat): nat {
    if grant.Some? then SafeDeadline(base, grant.value.remaining / 2) else Min(base + 1_000_000_000, deadline)
  }

  predicate RenewalOk(log: Log, m: Progress) {
    if m.granted == [] then
      (m.control == ToReadBase || m.control.ToAsk? || Early(m.control) ==> LastAsked(log).None?)
    else m.control.Asking? || DueAfterLast(log, m)
  }

  predicate Early(control: Control) { control.ToLoad? || control.ToEstablish? || control.ToConnect? }

  predicate DueAfterLast(log: Log, m: Progress) {
    && LastAsked(log).Some?
    && var r := LastAsked(log).value;
       && 0 < r && r + 1 < |log| && log[r - 1].deed == ClockRead && log[r + 1].deed.Heard?
       && m.renewAt == DueAfter(log[r - 1].at, GrantAt(log, r + 1), m.deadline)
  }

  lemma AskedMore(log: Log, e: Entry)
    ensures LastAsked(log + [e]) == if Asks(e) then Some(|log|) else LastAsked(log)
  {
    assert (log + [e])[..|log|] == log;
  }

  lemma AdvanceRenewal(log: Log, m: Progress, e: Entry)
    requires LeasesOut(m) && TailOk(log, m) && Proceed(m, Latest(log), e).Some?
    ensures var n := Proceed(m, Latest(log), e).value;
      if Asks(e) then n.control.Asking? && !m.control.Asking?
      else if m.control.Asking? then
        && e.deed.Heard? && !n.control.Asking? && (n.granted == [] ==> n.control == ToTearDown)
        && (n.granted != [] ==> n.renewAt == DueAfter(m.control.base, GrantOf(e.deed.answer), n.deadline))
      else
        && n.granted == m.granted && n.renewAt == m.renewAt && n.deadline == m.deadline && !n.control.Asking?
        && (m.granted == [] && (n.control == ToReadBase || n.control.ToAsk? || Early(n.control)) ==>
              m.control == ToReadBase || m.control.ToAsk? || Early(m.control))
  {
  }

  lemma RenewalKept(log: Log, m: Progress, e: Entry)
    requires LeasesOut(m) && TailOk(log, m) && RenewalOk(log, m) && Proceed(m, Latest(log), e).Some?
    ensures RenewalOk(log + [e], Proceed(m, Latest(log), e).value)
  {
    hide Proceed;
    var n := Proceed(m, Latest(log), e).value;
    AdvanceRenewal(log, m, e);
    AskedMore(log, e);
    if m.control.Asking? {
      RenewalAnswered(log, m, e, n);
    } else if n.granted != [] && !Asks(e) {
      DueStays(log, m, e, n);
    }
  }

  lemma RenewalAnswered(log: Log, m: Progress, e: Entry, n: Progress)
    requires TailOk(log, m) && m.control.Asking? && e.deed.Heard?
    requires n.granted != [] ==> n.renewAt == DueAfter(m.control.base, GrantOf(e.deed.answer), n.deadline)
    ensures n.granted != [] ==> DueAfterLast(log + [e], n)
  {
    AskedMore(log, e);
    AskedMore(log[..|log| - 1], log[|log| - 1]);
    assert log == log[..|log| - 1] + [log[|log| - 1]];
  }

  lemma DueStays(log: Log, m: Progress, e: Entry, n: Progress)
    requires DueAfterLast(log, m) && !Asks(e) && n.renewAt == m.renewAt && n.deadline == m.deadline
    ensures DueAfterLast(log + [e], n)
  {
    AskedMore(log, e);
    var r := LastAsked(log).value;
    assert (log + [e])[r - 1] == log[r - 1] && (log + [e])[r + 1] == log[r + 1];
    assert GrantAt(log + [e], r + 1) == GrantAt(log, r + 1);
  }

  function LastSignal(log: Log): (t: Option<nat>)
    ensures t.Some? ==> t.value < |log| && log[t.value].deed.Signalled?
  {
    if log == [] then None
    else if log[|log| - 1].deed.Signalled? then Some(|log| - 1)
    else LastSignal(log[..|log| - 1])
  }

  /** The grace period is counted from the termination signal, at the earliest. */
  predicate GraceOk(log: Log, m: Progress) {
    match m.control
    case ToReadGrace => TermedBy(log, m, Latest(log))
    case InGrace(until) => until >= TERMINATION_GRACE && TermedBy(log, m, until - TERMINATION_GRACE)
    case ToPollInGrace(until) => until >= TERMINATION_GRACE && TermedBy(log, m, until - TERMINATION_GRACE)
    case ToSleepInGrace(until) => until >= TERMINATION_GRACE && TermedBy(log, m, until - TERMINATION_GRACE)
    case ToKill => Latest(log) >= TERMINATION_GRACE && TermedBy(log, m, Latest(log) - TERMINATION_GRACE)
    case _ => true
  }

  predicate TermedBy(log: Log, m: Progress, time: nat) {
    && LastSignal(log).Some? && m.child.Some?
    && log[LastSignal(log).value].deed == Signalled(Term, m.child.value) && log[LastSignal(log).value].at <= time
  }

  lemma SignalMore(log: Log, e: Entry)
    ensures LastSignal(log + [e]) == if e.deed.Signalled? then Some(|log|) else LastSignal(log)
  {
    assert (log + [e])[..|log|] == log;
  }

  /** How an entry leads into and through the grace period. */
  predicate GraceStep(m: Progress, e: Entry, n: Progress) {
    match n.control
    case ToReadGrace => m.child.Some? && e.deed == Signalled(Term, m.child.value) && n.child == m.child
    case InGrace(until) =>
      && !e.deed.Signalled? && n.child == m.child
      && ((m.control == ToReadGrace && e.deed == ClockRead && until == e.at + TERMINATION_GRACE) || m.control == ToSleepInGrace(until))
    case ToPollInGrace(until) => !e.deed.Signalled? && n.child == m.child && m.control == InGrace(until)
    case ToSleepInGrace(until) => !e.deed.Signalled? && n.child == m.child && m.control == ToPollInGrace(until)
    case ToKill => !e.deed.Signalled? && n.child == m.child && m.control.InGrace? && e.at >= m.control.until
    case _ => true
  }

  lemma GraceAtReading(m: Progress, e: Entry)
    requires e.deed == ClockRead && AdvanceRead(m, e.at).Some?
    ensures GraceStep(m, e, AdvanceRead(m, e.at).value)
  {
  }

  lemma GraceElsewhere(m: Progress, e: Entry)
    ensures AdvanceStart(m, e.deed).Some? ==> GraceStep(m, e, AdvanceStart(m, e.deed).value)
    ensures e.deed.Sent? && AdvanceSent(m, e.deed.message).Some? ==> GraceStep(m, e, AdvanceSent(m, e.deed.message).value)
    ensures e.deed.Heard? && AdvanceHeard(m, e.deed.answer).Some? ==> GraceStep(m, e, AdvanceHeard(m, e.deed.answer).value)
  {
  }

  lemma AdvanceGrace(m: Progress, since: nat, e: Entry)
    requires Proceed(m, since, e).Some?
    ensures since <= e.at && GraceStep(m, e, Proceed(m, since, e).value)
  {
    match e.deed
    case ClockRead => GraceAtReading(m, e);
    case Polled(_) =>
    case Waited(_) =>
    case Slept(_) =>
    case Signalled(_, _) =>
    case _ => GraceElsewhere(m, e);
  }

  lemma GraceKept(log: Log, m: Progress, e: Entry)
    requires GraceOk(log, m) && Proceed(m, Latest(log), e).Some?
    ensures GraceOk(log + [e], Proceed(m, Latest(log), e).value)
  {
    hide Proceed, LastSignal;
    AdvanceGrace(m, Latest(log), e);
    SignalMore(log, e);
  }

  /** What ends a workload, or keeps it from ever running: no signal handlers, no child,
      an exit seen, or a clock reading at or past the deadline. */
  predicate Ends(log: Log, k: nat)
    requires k < |log|
  {
    match log[k].deed
    case HandlersInstalled(ok) => !ok
    case SpawnTried(child) => child.None?
    case Polled(status) => status.Some?
    case ClockRead =>
      var h := LastGrant(log[..k]);
      h.Some? && 2 <= h.value && log[k].at >= DeadlineAt(log[..k], h.value)
    case _ => false
  }

  predicate EndsSomewhere(log: Log) { exists k :: 0 <= k < |log| && Ends(log, k) }

  lemma EndsMore(log: Log, e: Entry)
    ensures EndsSomewhere(log + [e]) <==> EndsSomewhere(log) || Ends(log + [e], |log|)
  {
    var longer := log + [e];
    forall k | 0 <= k < |log|
      ensures Ends(longer, k) <==> Ends(log, k)
    {
      assert longer[..k] == log[..k];
    }
    if EndsSomewhere(log) {
      var k :| 0 <= k < |log| && Ends(log, k);
      assert Ends(longer, k);
    }
  }

  /** Where a workload comes to be over. */
  lemma OverBegins(m: Progress, since: nat, e: Entry)
    requires LeasesOut(m) && Proceed(m, since, e).Some? && Proceed(m, since, e).value.over && !m.over
    ensures match e.deed
      case HandlersInstalled(ok) => !ok
      case SpawnTried(child) => child.None?
      case Polled(status) => status.Some?
      case ClockRead => m.granted != [] && e.at >= m.deadline
      case _ => false
  {
  }

  lemma OverKept(log: Log, m: Progress, e: Entry)
    requires LeasesOut(m) && GrantsOk(log, m) && Proceed(m, Latest(log), e).Some?
    requires m.over ==> EndsSomewhere(log)
    ensures Proceed(m, Latest(log), e).value.over ==> EndsSomewhere(log + [e])
  {
    hide Proceed, LeasesOut, EndsSomewhere, GrantedIds, LastGrant, DeadlineAt, GrantAt, Latest;
    EndsMore(log, e);
    assert (log + [e])[..|log|] == log;
    if Proceed(m, Latest(log), e).value.over && !m.over {
      OverBegins(m, Latest(log), e);
    }
  }

  function ChildOf(log: Log): Option<u32> {
    if log == [] then None
    else if log[|log| - 1].deed.SpawnTried? && log[|log| - 1].deed.child.Some? then log[|log| - 1].deed.child
    else ChildOf(log[..|log| - 1])
  }

  /** Until the first hand-back begins no release message has been sent. */
  predicate NothingReturnedYet(log: Log, m: Progress) {
    Untouched(m) ==> NoReturns(log)
  }

  predicate Untouched(m: Progress) {
    m.returned == 0 && !m.control.Releasing? && !m.control.ToBackOff? && (m.control.ToRelease? ==> m.control.tries == 0)
  }

  predicate NoReturns(log: Log) { forall k :: 0 <= k < |log| ==> !Returns(log[k]) }

  lemma ChildKept(log: Log, m: Progress, e: Entry)
    requires m.child == ChildOf(log) && Proceed(m, Latest(log), e).Some?
    ensures Proceed(m, Latest(log), e).value.child == ChildOf(log + [e])
  {
    assert (log + [e])[..|log|] == log;
  }

  lemma NothingReturnedKept(log: Log, m: Progress, e: Entry)
    requires LeasesOut(m) && NothingReturnedYet(log, m) && Proceed(m, Latest(log), e).Some?
    ensures NothingReturnedYet(log + [e], Proceed(m, Latest(log), e).value)
  {
  }

  /** All of it together, along any lawful log. */
  predicate Remembers(log: Log, m: Progress) {
    && LeasesOut(m) && TailOk(log, m) && GrantsOk(log, m) && ReturnsOk(log, m) && RenewalOk(log, m) && GraceOk(log, m)
    && (m.over ==> EndsSomewhere(log)) && m.child == ChildOf(log) && NothingReturnedYet(log, m)
  }

  lemma RemembersMore(log: Log, m: Progress, e: Entry)
    requires Remembers(log, m) && Proceed(m, Latest(log), e).Some?
    ensures Remembers(log + [e], Proceed(m, Latest(log), e).value)
  {
    hide Proceed, LeasesOut, TailOk, GrantsOk, ReturnsOk, RenewalOk, GraceOk, EndsSomewhere, ChildOf, NothingReturnedYet;
    LedgerKept(m, Latest(log), e);
    TailKept(log, m, e);
    GrantsKept(log, m, e);
    ReturnsKept(log, m, e);
    RenewalKept(log, m, e);
    GraceKept(log, m, e);
    OverKept(log, m, e);
    ChildKept(log, m, e);
    NothingReturnedKept(log, m, e);
  }

  lemma NothingRemembered(request: ComputeRequest)
    ensures Remembers([], Begin(request))
  {
  }

  lemma {:induction false} LawfulLogRemembers(request: ComputeRequest, log: Log)
    requires Lawful(request, log)
    ensures Remembers(log, Watch(request, log).value) && Watch(request, log).value.request == request
    decreases |log|
  {
    hide Remembers, Proceed, Latest, LeasesOut;
    LedgerHolds(request, log);
    if log == [] {
      NothingRemembered(request);
    } else {
      var before, last := log[..|log| - 1], log[|log| - 1];
      LawfulLogRemembers(request, before);
      RemembersMore(before, Watch(request, before).value, last);
      assert log == before + [last];
    }
  }

  /** What the protocol knew when entry `i` happened. */
  lemma JustBefore(request: ComputeRequest, log: Log, i: nat) returns (m: Progress, n: Progress)
    requires Lawful(request, log) && i < |log|
    ensures Remembers(log[..i], m) && m.request == request
    ensures Proceed(m, Latest(log[..i]), log[i]) == Some(n) && Remembers(log[..i + 1], n)
    ensures Watch(request, log[..i]) == Some(m) && Watch(request, log[..i + 1]) == Some(n)
  {
    hide Remembers, Proceed, Latest, Watch;
    PrefixLawful(request, log, i);
    PrefixLawful(request, log, i + 1);
    m, n := Watch(request, log[..i]).value, Watch(request, log[..i + 1]).value;
    LawfulLogRemembers(request, log[..i]);
    LawfulLogRemembers(request, log[..i + 1]);
  }

  /** Which deed the protocol expects where, read backwards. */
  lemma WhereItHappens(m: Progress, since: nat, e: Entry)
    requires Proceed(m, since, e).Some?
    ensures since <= e.at
    ensures Asks(e) ==> m.control.ToAsk? && e.deed.message.request == m.request
    ensures Returns(e) ==> m.control.ToRelease? && m.returned < |m.granted| && e.deed.message.id == m.granted[m.returned]
    ensures e.deed.SpawnTried? ==> m.control == ToSpawn
    ensures e.deed.Signalled? ==> m.child == Some(e.deed.group) && m.control == if e.deed.signal == Term then ToTerminate else ToKill
  {
  }

  // ----- what holds of every launch

  /** A lease is asked for only right after reading the clock, and always the same one. */
  lemma AskedRightAfterReading(request: ComputeRequest, log: Log, i: nat)
    requires Lawful(request, log) && i < |log| && Asks(log[i])
    ensures i > 0 && log[i - 1].deed == ClockRead && log[i - 1].at <= log[i].at
    ensures log[i].deed.message.request == request
  {
    hide Watch, Proceed, LeasesOut, GrantsOk, ReturnsOk, RenewalOk, GraceOk, EndsSomewhere, ChildOf, NothingReturnedYet, GrantedIds, LastGrant, HandedBack, Tries, LastAsked, LastSignal;
    var m, _ := JustBefore(request, log, i);
    WhereItHappens(m, Latest(log[..i]), log[i]);
    assert log[..i][i - 1] == log[i - 1];
    Chronological(request, log, i - 1, i);
  }

  /** A spawn follows exactly one grant and no release. */
  lemma SpawnOnlyAfterGrant(request: ComputeRequest, log: Log, i: nat)
    requires Lawful(request, log) && i < |log| && log[i].deed.SpawnTried?
    ensures |GrantedIds(log[..i])| == 1 && forall k :: 0 <= k < i ==> !Returns(log[k])
  {
    hide Watch, Proceed, TailOk, ReturnsOk, RenewalOk, GraceOk, EndsSomewhere, ChildOf, GrantedIds, LastGrant, HandedBack, Tries, LastAsked, LastSignal;
    var m, _ := JustBefore(request, log, i);
    WhereItHappens(m, Latest(log[..i]), log[i]);
    forall k | 0 <= k < i ensures !Returns(log[k]) {
      assert log[..i][k] == log[k];
    }
  }

  /** A release message names the oldest lease not handed back. The youngest goes back
      only after something ended the workload; any other while a younger one is held. */
  lemma ReleasesInTurn(request: ComputeRequest, log: Log, i: nat)
    requires Lawful(request, log) && i < |log| && Returns(log[i])
    ensures var (before, granted) := (|HandedBack(log[..i])|, GrantedIds(log[..i]));
      && before < |granted| && log[i].deed.message.id == granted[before]
      && (before + 1 == |granted| ==> EndsSomewhere(log[..i]))
  {
    hide Watch, Proceed, TailOk, RenewalOk, GraceOk, EndsSomewhere, ChildOf, NothingReturnedYet, GrantedIds, LastGrant, HandedBack, Tries, LastAsked, LastSignal;
    var m, _ := JustBefore(request, log, i);
    WhereItHappens(m, Latest(log[..i]), log[i]);
  }

  /** Ids are handed back in the order they were granted, none twice, none invented. */
  lemma HandedBackFollowsGranted(request: ComputeRequest, log: Log)
    requires Lawful(request, log)
    ensures HandedBack(log) <= GrantedIds(log)
  {
    hide Watch, Proceed, LeasesOut, TailOk, RenewalOk, GraceOk, EndsSomewhere, ChildOf, NothingReturnedYet, GrantedIds, LastGrant, HandedBack, Tries, LastAsked, LastSignal;
    LawfulLogRemembers(request, log);
  }

  /** A launch that ran to its end has handed back every id it was ever granted. */
  lemma EveryGrantHandedBack(request: ComputeRequest, log: Log)
    requires Lawful(request, log) && Watch(request, log).value.control == Done
    ensures HandedBack(log) == GrantedIds(log)
  {
    hide Watch, Proceed, TailOk, RenewalOk, GraceOk, EndsSomewhere, ChildOf, NothingReturnedYet, GrantedIds, LastGrant, HandedBack, Tries, LastAsked, LastSignal;
    LawfulLogRemembers(request, log);
  }

  /** The workload is signalled to terminate only right after a clock reading at or past
      the deadline of the youngest lease. */
  lemma TerminatedOnlyPastDeadline(request: ComputeRequest, log: Log, i: nat)
    requires Lawful(request, log) && i < |log| && log[i].deed.Signalled? && log[i].deed.signal == Term
    ensures var h := LastGrant(log[..i]);
      && h.Some? && 2 <= h.value && i > 0 && log[i - 1].deed == ClockRead
      && DeadlineAt(log[..i], h.value) <= log[i - 1].at <= log[i].at
      && ChildOf(log[..i]) == Some(log[i].deed.group)
  {
    hide Watch, Proceed, ReturnsOk, RenewalOk, GraceOk, EndsSomewhere, ChildOf, NothingReturnedYet, GrantedIds, LastGrant, HandedBack, Tries, LastAsked, LastSignal;
    var m, _ := JustBefore(request, log, i);
    WhereItHappens(m, Latest(log[..i]), log[i]);
    assert log[..i][i - 1] == log[i - 1];
    Chronological(request, log, i - 1, i);
  }

  /** It is killed only a full grace period after it was signalled to terminate. */
  lemma KilledOnlyAfterGrace(request: ComputeRequest, log: Log, i: nat)
    requires Lawful(request, log) && i < |log| && log[i].deed.Signalled? && log[i].deed.signal == Kill
    ensures var t := LastSignal(log[..i]);
      && t.Some? && log[t.value].deed == Signalled(Term, log[i].deed.group)
      && log[i].at >= log[t.value].at + 5_000_000_000
  {
    hide Watch, Proceed, LeasesOut, TailOk, GrantsOk, ReturnsOk, RenewalOk, EndsSomewhere, ChildOf, NothingReturnedYet, GrantedIds, LastGrant, HandedBack, Tries, LastAsked, LastSignal;
    var m, _ := JustBefore(request, log, i);
    WhereItHappens(m, Latest(log[..i]), log[i]);
    assert TermedBy(log[..i], m, Latest(log[..i]) - TERMINATION_GRACE);
  }

  /** What a renewal attempt about to be sent owes to the failed one before it. */
  lemma RetryIsSpaced(log: Log, m: Progress, i: nat)
    requires LeasesOut(m) && TailOk(log, m) && RenewalOk(log, m) && m.control.ToAsk?
    requires LastAsked(log) == Some(i) && i + 1 < |log| && GrantAt(log, i + 1).None?
    requires |log| >= 2 ==> log[|log| - 2].at <= log[|log| - 1].at
    ensures 0 < i && i + 2 < |log| && log[i - 1].deed == ClockRead
    ensures log[|log| - 1].deed == ClockRead && log[|log| - 1].at >= log[i - 1].at + 1_000_000_000
  {
    hide LastAsked;
  }

  /** Clock readings behind consecutive attempts are at least a second apart when the
      first attempt failed. */
  lemma FailedAttemptsAreSpaced(request: ComputeRequest, log: Log, i: nat, j: nat)
    requires Lawful(request, log) && i < j < |log| && Asks(log[i]) && Asks(log[j])
    requires (forall k :: i < k < j ==> !Asks(log[k])) && GrantAt(log, i + 1).None?
    ensures 0 < i < j - 1 && log[i - 1].deed == ClockRead && log[j - 1].deed == ClockRead
    ensures log[j - 1].at >= log[i - 1].at + 1_000_000_000
  {
    hide Watch, Proceed, LeasesOut, TailOk, GrantsOk, ReturnsOk, RenewalOk, GraceOk, EndsSomewhere, ChildOf, NothingReturnedYet, GrantedIds, LastGrant, HandedBack, Tries, LastAsked, LastSignal;
    var before := log[..j];
    var m, _ := JustBefore(request, log, j);
    WhereItHappens(m, Latest(before), log[j]);
    SlicedLastAsked(log, i, j);
    assert before[j - 1] == log[j - 1];
    if j >= 2 {
      Chronological(request, log, j - 2, j - 1);
      assert before[j - 2] == log[j - 2];
    }
    AskedRightAfterReading(request, log, j);
    assert i + 1 < j;
    assert GrantAt(before, i + 1) == GrantAt(log, i + 1);
    RetryIsSpaced(before, m, i);
    assert before[i - 1] == log[i - 1];
  }

  lemma SlicedLastAsked(log: Log, i: nat, j: nat)
    requires i < j <= |log| && Asks(log[i]) && forall k :: i < k < j ==> !Asks(log[k])
    ensures LastAsked(log[..j]) == Some(i)
  {
    var before := log[..j];
    assert before[i] == log[i];
    if LastAsked(before).Some? {
      assert before[LastAsked(before).value] == log[LastAsked(before).value];
    }
  }

  /** When the next renewal is due, read off a log. */
  function RenewalDue(log: Log): nat {
    if LastAsked(log).None? || LastGrant(log).None? then 0
    else
      var r, h := LastAsked(log).value, LastGrant(log).value;
      if r == 0 || r + 1 >= |log| || h < 2 then 0 else DueAfter(log[r - 1].at, GrantAt(log, r + 1), DeadlineAt(log, h))
  }

  /** Each turn's clock reading is acted on at once: at or past the deadline the workload
      is terminated, or, if it cannot be signalled, only polled; otherwise a renewal that
      is due is attempted, and only when neither is the case does the loop sleep on. */
  lemma EveryTurnIsPrompt(request: ComputeRequest, log: Log, i: nat)
    requires Lawful(request, log) && 0 < i && i + 1 < |log| && log[i - 1].deed == Polled(None) && log[i].deed == ClockRead
    ensures var (h, child) := (LastGrant(log[..i]), ChildOf(log[..i]));
      && h.Some? && 2 <= h.value && child.Some?
      && if log[i].at >= DeadlineAt(log[..i], h.value) then
           if 0 < child.value < 0x8000_0000 then log[i + 1].deed == Signalled(Term, child.value) else log[i + 1].deed.Polled?
         else if log[i].at >= RenewalDue(log[..i]) then
           log[i + 1].deed == ClockRead && (i + 2 < |log| ==> log[i + 2].deed == Sent(RequestMessage(request)))
         else log[i + 1].deed == Slept(200_000_000)
  {
    hide Watch, Proceed, LeasesOut, TailOk, GrantsOk, ReturnsOk, RenewalOk, GraceOk, EndsSomewhere, ChildOf, NothingReturnedYet, GrantedIds, LastGrant, HandedBack, Tries, LastAsked, LastSignal;
    hide RenewalDue, DeadlineAt;
    var m, _ := JustBefore(request, log, i);
    TurnIsDue(request, log, i, m);
    DueIsRemembered(log[..i], m);
    TurnIsTaken(request, log, i, Turn(m, log[i].at));
  }

  /** The one or two entries after a turn's reading are those the reading calls for. */
  lemma TurnIsTaken(request: ComputeRequest, log: Log, i: nat, n: Progress)
    requires Lawful(request, log) && i + 1 < |log| && Watch(request, log[..i + 1]) == Some(n)
    ensures n.control == ToTerminate ==> n.child.Some? && log[i + 1].deed == Signalled(Term, n.child.value)
    ensures n.control == ToReap ==> log[i + 1].deed.Polled?
    ensures n.control == ToSleep ==> log[i + 1].deed == Slept(POLL_INTERVAL)
    ensures n.control == ToReadBase ==>
      log[i + 1].deed == ClockRead && (i + 2 < |log| ==> log[i + 2].deed == Sent(RequestMessage(request)))
  {
    hide Remembers, Watch, Proceed;
    var _, o := JustBefore(request, log, i + 1);
    AfterTurn(n, Latest(log[..i + 1]), log[i + 1]);
    if n.control == ToReadBase && i + 2 < |log| {
      var m, _ := JustBefore(request, log, i + 2);
      AfterAttemptReading(m, Latest(log[..i + 2]), log[i + 2]);
    }
  }

  lemma DueIsRemembered(log: Log, m: Progress)
    requires GrantsOk(log, m) && RenewalOk(log, m) && m.control == ToReadTurn && m.granted != []
    ensures RenewalDue(log) == m.renewAt
    ensures LastGrant(log).Some? && 2 <= LastGrant(log).value && DeadlineAt(log, LastGrant(log).value) == m.deadline
  {
  }

  lemma TurnIsDue(request: ComputeRequest, log: Log, i: nat, m: Progress)
    requires Lawful(request, log) && 0 < i < |log| && log[i - 1].deed == Polled(None) && log[i].deed == ClockRead
    requires Watch(request, log[..i]) == Some(m)
    ensures m.control == ToReadTurn && Watch(request, log[..i + 1]) == Some(Turn(m, log[i].at))
    ensures m.granted != [] && m.child.Some?
  {
    hide Watch, Proceed, TailOk, GrantsOk, ReturnsOk, RenewalOk, GraceOk, EndsSomewhere, ChildOf, NothingReturnedYet, GrantedIds, LastGrant, HandedBack, Tries, LastAsked, LastSignal;
    var l, k := JustBefore(request, log, i - 1);
    var _, n := JustBefore(request, log, i);
    PollThenRead(l, Latest(log[..i - 1]), log[i - 1], Latest(log[..i]), log[i]);
  }

  lemma PollThenRead(l: Progress, since: nat, poll: Entry, later: nat, reading: Entry)
    requires poll.deed == Polled(None) && reading.deed == ClockRead && Proceed(l, since, poll).Some?
    requires Proceed(Proceed(l, since, poll).value, later, reading).Some?
    ensures var m := Proceed(l, since, poll).value;
      m.control == ToReadTurn && Proceed(m, later, reading) == Some(Turn(m, reading.at))
  {
  }

  lemma AfterTurn(n: Progress, since: nat, e: Entry)
    requires Proceed(n, since, e).Some?
    ensures n.control == ToTerminate ==> n.child.Some? && e.deed == Signalled(Term, n.child.value)
    ensures n.control == ToReap ==> e.deed.Polled?
    ensures n.control == ToSleep ==> e.deed == Slept(POLL_INTERVAL)
    ensures n.control == ToReadBase ==> e.deed == ClockRead && Proceed(n, since, e).value == n.(control := ToAsk(e.at))
  {
  }

  lemma AfterAttemptReading(o: Progress, since: nat, e: Entry)
    requires o.control.ToAsk? && Proceed(o, since, e).Some?
    ensures e.deed == Sent(RequestMessage(o.request))
  {
  }

  /** Every grant tells the truth: what it says is left was left at some moment between
      the request being sent and the answer being heard. */
  predicate Truthful(log: Log, expiresAt: LeaseId -> nat) {
    forall h :: 0 < h < |log| && GrantAt(log, h).Some? ==>
      var lease := GrantAt(log, h).value;
      log[h - 1].at + lease.remaining <= expiresAt(lease.leaseId) <= log[h].at + lease.remaining
  }

  /** Because the clock is read before the request is sent, the deadline the launcher
      works to never passes the true expiry of the youngest lease it holds. */
  lemma DeadlineIsSafe(request: ComputeRequest, log: Log, expiresAt: LeaseId -> nat)
    requires Lawful(request, log) && Truthful(log, expiresAt) && LastGrant(log).Some?
    ensures 2 <= LastGrant(log).value
    ensures DeadlineAt(log, LastGrant(log).value) <= expiresAt(GrantAt(log, LastGrant(log).value).value.leaseId)
    ensures Watch(request, log).value.deadline == DeadlineAt(log, LastGrant(log).value)
  {
    hide Watch, Proceed, TailOk, ReturnsOk, RenewalOk, GraceOk, EndsSomewhere, ChildOf, NothingReturnedYet, GrantedIds, LastGrant, HandedBack, Tries, LastAsked, LastSignal;
    LawfulLogRemembers(request, log);
    var h := LastGrant(log).value;
    var lease := GrantAt(log, h).value;
    Chronological(request, log, h - 2, h - 1);
    SafeDeadlineIsSafe(log[h - 2].at, expiresAt(lease.leaseId) - lease.remaining, expiresAt(lease.leaseId));
  }
}
