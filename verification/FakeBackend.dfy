/** A concrete backend with scriptable state, and the authority running against it. */
module FakeBackend {
  import opened Prelude
  import opened Resource
  import opened Peer
  import opened Lease
  import opened Authority
  import opened AuthorityInvariant

  datatype SupportState = Supported | Partial | NotSupported | NotEvaluated

  datatype ProtectedResource = ProtectedResource(identity: ResourceIdentity, capabilities: map<Capability, SupportState>)

  /** Only full support counts; a capability nobody determined is not supported. */
  predicate Supports(resource: ProtectedResource, capability: Capability) {
    capability in resource.capabilities && resource.capabilities[capability] == Supported
  }

  datatype BackendView = BackendView(
    resources: map<ResourceIdentity, ProtectedResource>,
    scripts: map<ResourceIdentity, EnforcementResult>,
    revokes: map<ResourceIdentity, nat>)

  function EnforceAnswer(b: BackendView, request: ComputeRequest): BackendAnswer {
    if request.resource !in b.resources then Err(Unavailable(request.resource))
    else if !Supports(b.resources[request.resource], DeviceEnforce) then Ok(EnforcementUnsupported(DeviceEnforce))
    else if request.resource in b.scripts then Ok(b.scripts[request.resource])
    else Ok(Allowed)
  }

  function RevokeAnswer(b: BackendView, resource: ResourceIdentity): BackendAnswer {
    if resource !in b.resources then Err(Unavailable(resource))
    else if !Supports(b.resources[resource], DeviceRevoke) then Ok(EnforcementUnsupported(DeviceRevoke))
    else Ok(Allowed)
  }

  function RevokeCount(b: BackendView, resource: ResourceIdentity): nat {
    if resource in b.revokes then b.revokes[resource] else 0
  }

  function CountRevoke(b: BackendView, resource: ResourceIdentity): BackendView {
    b.(revokes := b.revokes[resource := RevokeCount(b, resource) + 1])
  }

  function InsertInto(b: BackendView, resource: ProtectedResource): BackendView {
    b.(resources := b.resources[resource.identity := resource])
  }

  /** A removed resource takes its script along, but not its count. */
  function RemoveFrom(b: BackendView, identity: ResourceIdentity): BackendView {
    b.(resources := b.resources - {identity}, scripts := b.scripts - {identity})
  }

  function ScriptFor(b: BackendView, identity: ResourceIdentity, result: EnforcementResult): BackendView {
    b.(scripts := b.scripts[identity := result])
  }

  class Backend {
    var resources: map<ResourceIdentity, ProtectedResource>
    var scriptedEnforcement: map<ResourceIdentity, EnforcementResult>
    var revokeCalls: map<ResourceIdentity, nat>

    ghost function View(): BackendView
      reads this
    {
      BackendView(resources, scriptedEnforcement, revokeCalls)
    }

    constructor ()
      ensures View() == BackendView(map[], map[], map[])
    {
      resources := map[];
      scriptedEnforcement := map[];
      revokeCalls := map[];
    }

    method Insert(resource: ProtectedResource)
      modifies this
      ensures View() == InsertInto(old(View()), resource)
    {
      resources := resources[resource.identity := resource];
    }

    method Remove(identity: ResourceIdentity)
      modifies this
      ensures View() == RemoveFrom(old(View()), identity)
    {
      resources := resources - {identity};
      scriptedEnforcement := scriptedEnforcement - {identity};
    }

    method ScriptEnforcement(identity: ResourceIdentity, result: EnforcementResult)
      modifies this
      ensures View() == ScriptFor(old(View()), identity, result)
    {
      scriptedEnforcement := scriptedEnforcement[identity := result];
    }

    method Observe(resource: ResourceIdentity) returns (observed: Result<ProtectedResource, BackendError>)
      ensures observed == if resource in resources then Ok(resources[resource]) else Err(Unavailable(resource))
    {
      if resource in resources {
        return Ok(resources[resource]);
      }
      return Err(Unavailable(resource));
    }

    method Enforce(request: ComputeRequest) returns (answer: BackendAnswer)
      ensures answer == EnforceAnswer(View(), request)
    {
      var observed := Observe(request.resource);
      match observed {
        case Err(error) => return Err(error);
        case Ok(resource) =>
          if !Supports(resource, DeviceEnforce) {
            return Ok(EnforcementUnsupported(DeviceEnforce));
          }
          if request.resource in scriptedEnforcement {
            return Ok(scriptedEnforcement[request.resource]);
          }
          return Ok(Allowed);
      }
    }

    /** Counts the call first, so calls that fail count too. */
    method Revoke(resource: ResourceIdentity) returns (answer: BackendAnswer)
      modifies this
      ensures View() == CountRevoke(old(View()), resource)
      ensures answer == RevokeAnswer(old(View()), resource)
    {
      var count := if resource in revokeCalls then revokeCalls[resource] else 0;
      revokeCalls := revokeCalls[resource := count + 1];
      var observed := Observe(resource);
      match observed {
        case Err(error) => return Err(error);
        case Ok(found) =>
          if !Supports(found, DeviceRevoke) {
            return Ok(EnforcementUnsupported(DeviceRevoke));
          }
          return Ok(Allowed);
      }
    }
  }

  // ----- the authority against this backend

  datatype System = System(agent: Agent, backend: BackendView)

  datatype SystemEvent =
    | AgentEvent(event: Event)
    | InsertResource(resource: ProtectedResource)
    | RemoveResource(identity: ResourceIdentity)
    | ScriptResource(identity: ResourceIdentity, result: EnforcementResult)

  function Start(config: Config): System { System(Initial(config), BackendView(map[], map[], map[])) }

  /** The event as it happens when the answers come from this backend. */
  function Answered(s: System, event: Event): Event {
    match event
    case EnforceReturns(thread, answer) =>
      if thread in s.agent.threads then EnforceReturns(thread, EnforceAnswer(s.backend, s.agent.threads[thread].lease.origin.request))
      else event
    case ReleaseLease(id, peer, answer) =>
      if id in s.agent.store.leases then ReleaseLease(id, peer, RevokeAnswer(s.backend, s.agent.store.leases[id].origin.request.resource))
      else event
    case _ => event
  }

  /** The backend counts the revoke calls it receives; enforce calls leave it alone. */
  function Called(b: BackendView, calls: seq<BackendCall>): BackendView {
    if calls == [] then b
    else
      var before := Called(b, calls[..|calls| - 1]);
      match calls[|calls| - 1]
      case EnforceCall(_) => before
      case RevokeCall(resource) => CountRevoke(before, resource)
  }

  function SystemStep(config: Config, s: System, e: SystemEvent): System {
    match e
    case AgentEvent(event) =>
      var (agent, output) := Step(config, s.agent, Answered(s, event));
      System(agent, Called(s.backend, output.calls))
    case InsertResource(resource) => s.(backend := InsertInto(s.backend, resource))
    case RemoveResource(identity) => s.(backend := RemoveFrom(s.backend, identity))
    case ScriptResource(identity, result) => s.(backend := ScriptFor(s.backend, identity, result))
  }

  function SystemAfter(config: Config, events: seq<SystemEvent>): System
    decreases |events|
  {
    if events == [] then Start(config)
    else SystemStep(config, SystemAfter(config, events[..|events| - 1]), events[|events| - 1])
  }

  /** The agent's own events in a run, with the answers it got. */
  function AgentEvents(config: Config, events: seq<SystemEvent>): seq<Event>
    decreases |events|
  {
    if events == [] then []
    else
      var before, last := events[..|events| - 1], events[|events| - 1];
      if last.AgentEvent? then AgentEvents(config, before) + [Answered(SystemAfter(config, before), last.event)]
      else AgentEvents(config, before)
  }

  /** Against this backend the agent does nothing it would not do against an arbitrary
      one: every result about all its runs holds here. */
  lemma {:induction false} SystemIsARun(config: Config, events: seq<SystemEvent>)
    ensures SystemAfter(config, events).agent == After(config, Initial(config), AgentEvents(config, events))
    decreases |events|
  {
    if events != [] {
      var before, last := events[..|events| - 1], events[|events| - 1];
      SystemIsARun(config, before);
      if last.AgentEvent? {
        var own := AgentEvents(config, before) + [Answered(SystemAfter(config, before), last.event)];
        assert own[..|own| - 1] == AgentEvents(config, before);
      }
    }
  }

  /** How many of the calls, over all outputs, revoke `resource`. */
  function CallsIn(calls: seq<BackendCall>, resource: ResourceIdentity): nat {
    if calls == [] then 0
    else CallsIn(calls[..|calls| - 1], resource) + if calls[|calls| - 1] == RevokeCall(resource) then 1 else 0
  }

  function RevokesIn(outputs: seq<Output>, resource: ResourceIdentity): nat {
    if outputs == [] then 0
    else RevokesIn(outputs[..|outputs| - 1], resource) + CallsIn(outputs[|outputs| - 1].calls, resource)
  }

  lemma {:induction false} CalledCounts(b: BackendView, calls: seq<BackendCall>, resource: ResourceIdentity)
    ensures RevokeCount(Called(b, calls), resource) == RevokeCount(b, resource) + CallsIn(calls, resource)
  {
    if calls != [] {
      CalledCounts(b, calls[..|calls| - 1], resource);
    }
  }

  lemma TraceGrows(config: Config, events: seq<Event>, event: Event, resource: ResourceIdentity)
    ensures RevokesIn(Trace(config, Initial(config), events + [event]), resource)
         == RevokesIn(Trace(config, Initial(config), events), resource)
          + CallsIn(Step(config, After(config, Initial(config), events), event).1.calls, resource)
  {
    var longer, trace := events + [event], Trace(config, Initial(config), events);
    assert longer[..|longer| - 1] == events;
    var output := Step(config, After(config, Initial(config), events), event).1;
    assert Trace(config, Initial(config), longer) == trace + [output];
    assert (trace + [output])[..|trace|] == trace;
  }

  lemma CounterFollows(config: Config, s: System, own: seq<Event>, e: SystemEvent, resource: ResourceIdentity)
    requires e.AgentEvent? && s.agent == After(config, Initial(config), own)
    ensures RevokeCount(SystemStep(config, s, e).backend, resource) - RevokeCount(s.backend, resource)
         == RevokesIn(Trace(config, Initial(config), own + [Answered(s, e.event)]), resource)
          - RevokesIn(Trace(config, Initial(config), own), resource)
  {
    var event := Answered(s, e.event);
    CalledCounts(s.backend, Step(config, s.agent, event).1.calls, resource);
    TraceGrows(config, own, event, resource);
  }

  lemma OthersCountNothing(config: Config, s: System, e: SystemEvent, resource: ResourceIdentity)
    requires !e.AgentEvent?
    ensures RevokeCount(SystemStep(config, s, e).backend, resource) == RevokeCount(s.backend, resource)
  {
  }

  lemma NothingRevoked(config: Config, resource: ResourceIdentity)
    ensures RevokeCount(SystemAfter(config, []).backend, resource) == 0
    ensures RevokesIn(Trace(config, Initial(config), AgentEvents(config, [])), resource) == 0
  {
  }

  /** The counter is exactly the number of revoke calls the agent made for that resource,
      whatever was inserted, removed or scripted meanwhile. */
  lemma {:induction false} RevokeCounterIsExact(config: Config, events: seq<SystemEvent>, resource: ResourceIdentity)
    ensures RevokeCount(SystemAfter(config, events).backend, resource)
         == RevokesIn(Trace(config, Initial(config), AgentEvents(config, events)), resource)
    decreases |events|
  {
    hide Step, Trace, RevokesIn, RevokeCount, Answered, After, SystemStep;
    if events == [] {
      NothingRevoked(config, resource);
    } else {
      var before, last := events[..|events| - 1], events[|events| - 1];
      RevokeCounterIsExact(config, before, resource);
      if last.AgentEvent? {
        SystemIsARun(config, before);
        CounterFollows(config, SystemAfter(config, before), AgentEvents(config, before), last, resource);
      } else {
        OthersCountNothing(config, SystemAfter(config, before), last, resource);
      }
    }
  }

  // ----- what it answers, said of what was done to it

  /** The resource as it was last inserted, unless it was removed since. */
  function LastInserted(events: seq<SystemEvent>, identity: ResourceIdentity): Option<ProtectedResource> {
    if events == [] then None
    else
      match events[|events| - 1]
      case InsertResource(resource) =>
        if resource.identity == identity then Some(resource) else LastInserted(events[..|events| - 1], identity)
      case RemoveResource(removed) => if removed == identity then None else LastInserted(events[..|events| - 1], identity)
      case _ => LastInserted(events[..|events| - 1], identity)
  }

  /** The answer last scripted for it, unless it was removed since. */
  function LastScripted(events: seq<SystemEvent>, identity: ResourceIdentity): Option<EnforcementResult> {
    if events == [] then None
    else
      match events[|events| - 1]
      case ScriptResource(scripted, result) =>
        if scripted == identity then Some(result) else LastScripted(events[..|events| - 1], identity)
      case RemoveResource(removed) => if removed == identity then None else LastScripted(events[..|events| - 1], identity)
      case _ => LastScripted(events[..|events| - 1], identity)
  }

  lemma {:induction false} CallsChangeCountsOnly(b: BackendView, calls: seq<BackendCall>)
    ensures Called(b, calls).resources == b.resources && Called(b, calls).scripts == b.scripts
  {
    if calls != [] {
      CallsChangeCountsOnly(b, calls[..|calls| - 1]);
    }
  }

  lemma {:induction false} BackendRemembers(config: Config, events: seq<SystemEvent>, identity: ResourceIdentity)
    ensures var b := SystemAfter(config, events).backend;
      && LastInserted(events, identity) == (if identity in b.resources then Some(b.resources[identity]) else None)
      && LastScripted(events, identity) == (if identity in b.scripts then Some(b.scripts[identity]) else None)
    decreases |events|
  {
    hide Step, Answered;
    if events != [] {
      var before, last := events[..|events| - 1], events[|events| - 1];
      BackendRemembers(config, before, identity);
      var s := SystemAfter(config, before);
      if last.AgentEvent? {
        CallsChangeCountsOnly(s.backend, Step(config, s.agent, Answered(s, last.event)).1.calls);
      }
    }
  }

  /** A capability counts only if it is there and fully supported. */
  predicate Can(resource: Option<ProtectedResource>, capability: Capability) {
    && resource.Some? && capability in resource.value.capabilities
    && resource.value.capabilities[capability] == SupportState.Supported
  }

  /** After any run, a grant's enforce call meets the script last set for its resource and
      not removed, and is allowed without one; but only on a resource that is there and
      can enforce. */
  lemma ScriptsAreHonoured(config: Config, events: seq<SystemEvent>, thread: nat, answer: BackendAnswer)
    requires thread in SystemAfter(config, events).agent.threads
    ensures var request := SystemAfter(config, events).agent.threads[thread].lease.origin.request;
      var (resource, script) := (LastInserted(events, request.resource), LastScripted(events, request.resource));
      Answered(SystemAfter(config, events), EnforceReturns(thread, answer)) == EnforceReturns(thread,
        if resource.None? then Err(Unavailable(request.resource))
        else if !Can(resource, DeviceEnforce) then Ok(EnforcementUnsupported(DeviceEnforce))
        else if script.Some? then Ok(script.value) else Ok(Allowed))
  {
    BackendRemembers(config, events, SystemAfter(config, events).agent.threads[thread].lease.origin.request.resource);
  }

  /** A release's revoke call asks for the capability to revoke, and no script touches it. */
  lemma RevokingIsItsOwnCapability(config: Config, events: seq<SystemEvent>, id: LeaseId, peer: PeerContext, answer: BackendAnswer)
    requires id in SystemAfter(config, events).agent.store.leases
    ensures var identity := SystemAfter(config, events).agent.store.leases[id].origin.request.resource;
      var resource := LastInserted(events, identity);
      Answered(SystemAfter(config, events), ReleaseLease(id, peer, answer)) == ReleaseLease(id, peer,
        if resource.None? then Err(Unavailable(identity))
        else if !Can(resource, DeviceRevoke) then Ok(EnforcementUnsupported(DeviceRevoke)) else Ok(Allowed))
  {
    BackendRemembers(config, events, SystemAfter(config, events).agent.store.leases[id].origin.request.resource);
  }

  // ----- no grant without enforcement

  /** The resource is not one this backend can enforce on. */
  ghost predicate Unenforceable(b: BackendView, resource: ResourceIdentity) {
    resource in b.resources ==> !Supports(b.resources[resource], DeviceEnforce)
  }

  /** No lease on the resource is stored, and none got past its enforce call. */
  ghost predicate Untouched(s: Agent, resource: ResourceIdentity) {
    && (forall id :: id in s.store.leases ==> s.store.leases[id].origin.request.resource != resource)
    && (forall t :: t in s.threads && (s.threads[t].Enforced? || s.threads[t].Timed?) ==>
          s.threads[t].lease.origin.request.resource != resource)
  }

  lemma PruneUntouched(s: Agent, resource: ResourceIdentity)
    requires Untouched(s, resource)
    ensures Untouched(Pruned(s), resource)
  {
  }

  lemma MintUntouched(s: Agent, thread: nat, lease: ComputeLease, resource: ResourceIdentity)
    requires Untouched(s, resource)
    ensures Untouched(Mint(Pruned(s), thread, lease), resource)
  {
  }

  lemma RequestUntouched(config: Config, s: Agent, event: Event, resource: ResourceIdentity)
    requires IssuerOk(config, s) && Untouched(s, resource) && event.RequestLease?
    ensures Untouched(Step(config, s, event).0, resource)
  {
    RequestEffect(config, s, event.thread, event.request, event.peer);
    var n := StepRequest(config, s, event.thread, event.request, event.peer).0;
    PruneUntouched(s, resource);
    if n != s && n != Pruned(s) {
      MintUntouched(s, event.thread, n.issued[|s.issued|], resource);
    }
  }

  lemma ReleaseUntouched(config: Config, s: Agent, event: Event, resource: ResourceIdentity)
    requires Inv(config, s) && Untouched(s, resource) && event.ReleaseLease?
    ensures Untouched(Step(config, s, event).0, resource)
  {
    ReleaseEffect(config, s, event.id, event.peer, event.answer);
  }

  lemma SettleUntouched(config: Config, s: Agent, event: Event, resource: ResourceIdentity)
    requires Untouched(s, resource) && event.Settle?
    ensures Untouched(Step(config, s, event).0, resource)
  {
    if event.thread in s.threads && (s.threads[event.thread].Timed? || s.threads[event.thread].Refused?) {
      SettleEffect(s, event.thread);
    }
  }

  lemma EnforceUntouched(config: Config, s: System, event: Event, resource: ResourceIdentity)
    requires Untouched(s.agent, resource) && Unenforceable(s.backend, resource) && event.EnforceReturns?
    ensures Untouched(Step(config, s.agent, Answered(s, event)).0, resource)
  {
  }

  lemma OtherwiseUntouched(config: Config, s: Agent, event: Event, resource: ResourceIdentity)
    requires Untouched(s, resource)
    requires event.Tick? || event.EnforceUnwinds? || event.ReadClock? || event.AgentStatus?
    ensures Untouched(Step(config, s, event).0, resource)
  {
  }

  lemma StepUntouched(config: Config, s: System, event: Event, resource: ResourceIdentity)
    requires Inv(config, s.agent) && Untouched(s.agent, resource) && Unenforceable(s.backend, resource)
    ensures Untouched(Step(config, s.agent, Answered(s, event)).0, resource)
  {
    var answered := Answered(s, event);
    if event.RequestLease? {
      RequestUntouched(config, s.agent, answered, resource);
    } else if event.ReleaseLease? {
      ReleaseUntouched(config, s.agent, answered, resource);
    } else if event.Settle? {
      SettleUntouched(config, s.agent, answered, resource);
    } else if event.EnforceReturns? {
      EnforceUntouched(config, s, event, resource);
    } else {
      OtherwiseUntouched(config, s.agent, answered, resource);
    }
  }

  lemma {:induction false} CalledKeepsResources(b: BackendView, calls: seq<BackendCall>)
    ensures Called(b, calls).resources == b.resources
  {
    if calls != [] {
      CalledKeepsResources(b, calls[..|calls| - 1]);
    }
  }

  /** Inserts the resource with full enforcement support. */
  predicate Enables(e: SystemEvent, resource: ResourceIdentity) {
    e.InsertResource? && e.resource.identity == resource && Supports(e.resource, DeviceEnforce)
  }

  /** A capability downgrade is never masked, neither by a script nor by any
      interleaving: a resource that was never inserted with full DeviceEnforce support
      has no lease in the store, hence was never granted. */
  lemma {:induction false} NeverGrantedUnenforced(config: Config, events: seq<SystemEvent>, resource: ResourceIdentity)
    requires forall k :: 0 <= k < |events| ==> !Enables(events[k], resource)
    ensures Untouched(SystemAfter(config, events).agent, resource)
    ensures Unenforceable(SystemAfter(config, events).backend, resource)
    decreases |events|
  {
    if events != [] {
      var before, last := events[..|events| - 1], events[|events| - 1];
      NeverGrantedUnenforced(config, before, resource);
      var s := SystemAfter(config, before);
      if last.AgentEvent? {
        SystemIsARun(config, before);
        ReachableInv(config, AgentEvents(config, before));
        StepUntouched(config, s, last.event, resource);
        CalledKeepsResources(s.backend, Step(config, s.agent, Answered(s, last.event)).1.calls);
      }
    }
  }
}
