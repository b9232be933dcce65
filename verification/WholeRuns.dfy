/** A connected run in which the launching code comes to hold a lease and to run its
    workload under it. */
module WholeRuns {
  import opened Prelude
  import opened Resource
  import opened Policy
  import opened Lease
  import opened Authority
  import opened AuthorityInvariant
  import opened AuthorityProperties
  import opened AuthorityEnforcement
  import opened AuthorityRuns
  import opened Launcher
  import opened TwoParty
  import opened WholeSystem

  const PARTY := Party(ClientWith(START).observed.workload, USE)
  const FIRST := LeaseId("agent", 0)
  const GRANT: Answer := Ok(LeaseGranted(LeaseView(FIRST, 10)))

  /** How far a run has come on both sides, nothing having taken any time so far. */
  ghost predicate Reached(events: seq<WholeEvent>, m: Progress, j: Joint) {
    && ConnectedRun(SETTING, PARTY, events)
    && var w := WholeAfter(SETTING, PARTY, events);
       w.joint == j && ProgressOf(PARTY, w) == Some(m) && Latest(w.log) == 0 && j.agent.clock == 0
  }

  lemma OneMore(events: seq<WholeEvent>, e: WholeEvent)
    requires ConnectedRun(SETTING, PARTY, events) && Connected(PARTY, WholeAfter(SETTING, PARTY, events), e)
    ensures ConnectedRun(SETTING, PARTY, events + [e])
    ensures WholeAfter(SETTING, PARTY, events + [e]) == WholeStep(SETTING, PARTY, WholeAfter(SETTING, PARTY, events), e)
  {
    hide Connected, WholeStep;
    assert (events + [e])[..|events|] == events;
  }

  /** One more entry of the log, in turn. */
  lemma Does(events: seq<WholeEvent>, m: Progress, j: Joint, deed: Deed, n: Progress)
    requires Reached(events, m, j) && Proceed(m, 0, Entry(0, deed)) == Some(n)
    requires deed.Heard? && GrantOf(deed.answer).Some? ==>
      j.attempt.Delivered? && j.attempt.view == GrantOf(deed.answer).value
    ensures var move := MoveOf(m, Entry(0, deed));
      Reached(events + [Did(Entry(0, deed))], n, Moved(SETTING, PARTY, j, move))
  {
    hide Watch, Proceed, WholeAfter, ConnectedRun;
    var w, e := WholeAfter(SETTING, PARTY, events), Entry(0, deed);
    WatchMore(PARTY.request, w.log, e);
    OneMore(events, Did(e));
    MovesLeaveAgent(j, MoveOf(m, e));
    assert Latest(w.log + [e]) == 0;
  }

  lemma MovesLeaveAgent(j: Joint, move: Option<JointEvent>)
    requires move.Some? ==> move.value.BeginAttempt? || move.value.Adopt? || move.value.GiveUp? || move.value.WorkloadOver?
    ensures Moved(SETTING, PARTY, j, move).agent == j.agent
  {
  }

  /** One more event at the agent. */
  lemma Happens(events: seq<WholeEvent>, m: Progress, j: Joint, e: WholeEvent, move: JointEvent)
    requires Reached(events, m, j) && !e.Did? && Connected(PARTY, WholeAfter(SETTING, PARTY, events), e)
    requires JointEventOf(PARTY, WholeAfter(SETTING, PARTY, events), e) == Some(move)
    requires JointStep(SETTING, PARTY, j, move).0.agent.clock == 0
    ensures Reached(events + [e], m, JointStep(SETTING, PARTY, j, move).0)
  {
    hide Watch, WholeAfter, ConnectedRun, Connected, JointStep;
    OneMore(events, e);
  }

  /** The launch as far as its client. */
  lemma MadeClient() returns (events: seq<WholeEvent>)
    ensures |events| == 3 && Reached(events, Begin(USE).(control := ToReadBase), Opening(SETTING))
  {
    hide Reached;
    var j, m := Opening(SETTING), Begin(USE);
    NothingDone();
    events := [];
    Does(events, m, j, ProfileLoaded(true), m.(control := ToEstablish));
    events := events + [Did(Entry(0, ProfileLoaded(true)))];
    Does(events, m.(control := ToEstablish), j, ContextEstablished(true), m.(control := ToConnect));
    events := events + [Did(Entry(0, ContextEstablished(true)))];
    Does(events, m.(control := ToConnect), j, ClientMade(true), m.(control := ToReadBase));
    events := events + [Did(Entry(0, ClientMade(true)))];
  }

  /** The launch as far as its first request. */
  lemma Asked() returns (events: seq<WholeEvent>)
    ensures |events| == 5
    ensures Reached(events, Begin(USE).(control := Asking(0)), Opening(SETTING).(attempt := Begun(0)))
  {
    hide Reached;
    var j, m := Opening(SETTING), Begin(USE);
    events := MadeClient();
    Does(events, m.(control := ToReadBase), j, ClockRead, m.(control := ToAsk(0)));
    events := events + [Did(Entry(0, ClockRead))];
    j := j.(attempt := Begun(0));
    Does(events, m.(control := ToAsk(0)), j, Sent(RequestMessage(USE)), m.(control := Asking(0)));
    events := events + [Did(Entry(0, Sent(RequestMessage(USE))))];
  }

  lemma NothingDone()
    ensures Reached([], Begin(USE), Opening(SETTING))
  {
    NothingWatched(USE);
  }

  // ----- the grant

  const ASKING := Begin(USE).(control := Asking(0))

  lemma Hear(j: Joint, event: Event)
    ensures var (agent, output) := Step(SETTING, j.agent, event);
      JointStep(SETTING, PARTY, j, AgentSide(event)) == (j.(agent := agent, attempt := Hears(j.attempt, output)), output)
  {
  }

  /** The request arrives, and a lease is minted for it. */
  lemma Arrived(events: seq<WholeEvent>, request: Event) returns (lease: ComputeLease, j: Joint)
    requires request == RequestLease(0, USE, ClientWith(START))
    requires Reached(events, ASKING, Opening(SETTING).(attempt := Begun(0)))
    ensures Reached(events + [Arrives(request)], ASKING, j)
    ensures lease.id == FIRST && lease.expiresAt == 10
    ensures j.attempt == Waiting(0, 0) && j.held == Nothing && !j.over
    ensures j.agent.threads == map[0 := Enforcing(lease)] && j.agent.store.leases == map[] && j.agent.clock == 0
  {
    hide Watch, WholeAfter, ConnectedRun, IssueReservingCapacity, Decide, NextLease;
    var a := Initial(SETTING);
    ReachableInv(SETTING, []);
    InvIssuer(SETTING, a);
    TheRuleAllows(START);
    FirstLease([], START);
    lease := NextLease(SETTING, a, ProvenanceRecord(ClientWith(START).observed, USE));
    RequestMints(SETTING, a, 0, USE, ClientWith(START));
    j := JointStep(SETTING, PARTY, Opening(SETTING).(attempt := Begun(0)), Ask(request)).0;
    Happens(events, ASKING, Opening(SETTING).(attempt := Begun(0)), Arrives(request), Ask(request));
  }

  /** The agent enforces it, reads its clock, settles it, and the answer is there. */
  lemma Settled(events: seq<WholeEvent>, j: Joint, lease: ComputeLease, steps: seq<Event>) returns (longer: seq<WholeEvent>, k: Joint)
    requires steps == [EnforceReturns(0, Ok(Allowed)), ReadClock(0), Settle(0)]
    requires Reached(events, ASKING, j) && j.attempt == Waiting(0, 0) && j.held == Nothing && !j.over
    requires lease.id == FIRST && lease.expiresAt == 10
    requires j.agent.threads == map[0 := Enforcing(lease)] && j.agent.store.leases == map[] && j.agent.clock == 0
    ensures Reached(longer, ASKING, k) && |longer| == |events| + 3
    ensures k.attempt == Delivered(0, LeaseView(FIRST, 10)) && k.held == Nothing && !k.over
    ensures k.agent.clock == 0 && k.agent.store.leases == map[FIRST := lease]
  {
    hide Reached, JointStep, Connected, WholeAfter, Step;
    FlightSteps(j.agent, lease, steps);
    Hear(j, steps[0]);
    var enforced := JointStep(SETTING, PARTY, j, AgentSide(steps[0])).0;
    HappensElsewhere(events, ASKING, j, steps[0]);
    Hear(enforced, steps[1]);
    var timed := JointStep(SETTING, PARTY, enforced, AgentSide(steps[1])).0;
    HappensElsewhere(events + [Other(steps[0])], ASKING, enforced, steps[1]);
    Hear(timed, steps[2]);
    k := JointStep(SETTING, PARTY, timed, AgentSide(steps[2])).0;
    HappensElsewhere(events + [Other(steps[0])] + [Other(steps[1])], ASKING, timed, steps[2]);
    longer := events + [Other(steps[0])] + [Other(steps[1])] + [Other(steps[2])];
  }

  lemma FlightSteps(a: Agent, lease: ComputeLease, steps: seq<Event>)
    requires steps == [EnforceReturns(0, Ok(Allowed)), ReadClock(0), Settle(0)]
    requires lease.id == FIRST && lease.expiresAt == 10
    requires a.threads == map[0 := Enforcing(lease)] && a.store.leases == map[] && a.clock == 0
    ensures var (enforced, first) := Step(SETTING, a, steps[0]);
      var (timed, second) := Step(SETTING, enforced, steps[1]);
      var (settled, third) := Step(SETTING, timed, steps[2]);
      && first.reply == None && second.reply == None
      && enforced.clock == 0 && timed.clock == 0 && settled.clock == 0
      && settled.store.leases == map[FIRST := lease]
      && third.reply.Some? && third.reply.value.response == LeaseGranted(LeaseView(FIRST, 10))
  {
    FlightCompletes(a, 0, lease);
  }

  /** An event at the agent that is not a release and not the launcher's. */
  lemma HappensElsewhere(events: seq<WholeEvent>, m: Progress, j: Joint, event: Event)
    requires Reached(events, m, j) && !event.ReleaseLease?
    requires JointStep(SETTING, PARTY, j, AgentSide(event)).0.agent.clock == 0
    ensures Reached(events + [Other(event)], m, JointStep(SETTING, PARTY, j, AgentSide(event)).0)
  {
    hide Reached, JointStep;
    Happens(events, m, j, Other(event), AgentSide(event));
  }

  // ----- and the workload

  /** A connected run of twelve events after which the code holds a lease, stored at the
      agent, with its deadline ahead, and its workload has been spawned. What holds of
      runs with a lease held is said of runs that exist. */
  lemma RunsUnderALease(pid: u32) returns (events: seq<WholeEvent>)
    ensures |events| == 12 && ConnectedRun(SETTING, PARTY, events)
    ensures var w := WholeAfter(SETTING, PARTY, events);
      && ProgressOf(PARTY, w).Some? && FIRST in w.joint.agent.store.leases
      && var m := ProgressOf(PARTY, w).value;
         m.control == ToPoll && m.granted == [FIRST] && m.child == Some(pid) && !m.over && w.joint.agent.clock < m.deadline
  {
    hide WholeAfter, ConnectedRun, Watch, Proceed;
    events := Asked();
    var lease, arrived := Arrived(events, RequestLease(0, USE, ClientWith(START)));
    events := events + [Arrives(RequestLease(0, USE, ClientWith(START)))];
    var longer, settled := Settled(events, arrived, lease, [EnforceReturns(0, Ok(Allowed)), ReadClock(0), Settle(0)]);
    var m := Answered(ASKING, 0, Some(LeaseView(FIRST, 10)));
    WorkloadStarts(m, pid);
    Does(longer, ASKING, settled, Heard(GRANT), m);
    var holding := Moved(SETTING, PARTY, settled, Some(Adopt));
    events := longer + [Did(Entry(0, Heard(GRANT)))];
    Does(events, m, holding, HandlersInstalled(true), m.(control := ToSpawn));
    events := events + [Did(Entry(0, HandlersInstalled(true)))];
    Does(events, m.(control := ToSpawn), holding, SpawnTried(Some(pid)), m.(control := ToPoll, child := Some(pid)));
    events := events + [Did(Entry(0, SpawnTried(Some(pid))))];
  }

  lemma WorkloadStarts(m: Progress, pid: u32)
    requires m == Answered(ASKING, 0, Some(LeaseView(FIRST, 10)))
    ensures m.control == ToInstall && m.granted == [FIRST] && m.deadline == 10 && !m.over && m.child == None
    ensures Proceed(ASKING, 0, Entry(0, Heard(GRANT))) == Some(m) && MoveOf(ASKING, Entry(0, Heard(GRANT))) == Some(Adopt)
    ensures Proceed(m, 0, Entry(0, HandlersInstalled(true))) == Some(m.(control := ToSpawn))
    ensures Proceed(m.(control := ToSpawn), 0, Entry(0, SpawnTried(Some(pid)))) == Some(m.(control := ToPoll, child := Some(pid)))
  {
  }
}
