/** Authorization policy: three-valued conditions, deny-overrides evaluation.

    `Decide` is the declarative reading of a policy, set comprehensions over the
    rules with no order in it. `Evaluate` is the agent's loop over the authored
    rule list with its early return, proved equal to `Decide`. */
module Policy {
  import opened Prelude
  import opened Identity
  import opened Resource

  datatype Effect = Allow | Deny

  datatype TrustFloor = FloorKernelObserved | FloorBestEffort

  datatype EvidenceMatch<T> = EvidenceMatch(expected: T, minTrust: TrustFloor)

  datatype Condition =
    | Uid(uid: EvidenceMatch<u32>)
    | Gid(gid: EvidenceMatch<u32>)
    | ExecutablePath(path: EvidenceMatch<string>)
    | ExecutableHash(hash: EvidenceMatch<string>)
    | CgroupPath(cgroup: EvidenceMatch<string>)

  datatype ConditionKind = KindUid | KindGid | KindExecutablePath | KindExecutableHash | KindCgroupPath

  datatype ConditionOutcome = Matched | NotMatched | Undetermined

  datatype Rule = Rule(
    id: string,
    effect: Effect,
    resource: ResourceIdentity,
    action: Action,
    conditions: seq<Condition>)

  datatype PolicyDocument = PolicyDocument(id: string, revision: u32, rules: seq<Rule>)

  datatype PolicyError =
    | EmptyPolicyId
    | EmptyRuleId
    | DuplicateRuleId(rule: string)
    | RuleWithoutConditions(rule: string)
    | DuplicateConditionKind(rule: string)
    | UnknownActionInRule(rule: string)

  datatype PolicyProvenance = PolicyProvenance(policyId: string, policyRevision: u32, schemaVersion: nat)

  datatype DecisionReason =
    | NoMatchingRule
    | ExplicitAllow(allowing: set<string>)
    | ExplicitDeny(denying: set<string>, overriddenAllow: set<string>)
    | IndeterminateEvidence(undetermined: set<string>)

  datatype PolicyDecision = PolicyDecision(effect: Effect, reason: DecisionReason, policy: PolicyProvenance)

  const DOMAIN_SCHEMA_VERSION: nat := 1

  // ----- one condition

  predicate Admits(floor: TrustFloor, source: EvidenceSource) {
    match (floor, source)
    case (FloorKernelObserved, KernelObserved) => true
    case (FloorBestEffort, KernelObserved) => true
    case (FloorBestEffort, BestEffort) => true
    case (_, SelfAsserted) => false
    case (FloorKernelObserved, BestEffort) => false
  }

  function MatchOutcome<T(==)>(m: EvidenceMatch<T>, evidence: Evidence<T>): ConditionOutcome {
    match evidence
    case Present(value, source) =>
      if value == m.expected && Admits(m.minTrust, source) then Matched else NotMatched
    case Missing(_) => Undetermined
    case Unsupported => Undetermined
  }

  function Kind(condition: Condition): ConditionKind {
    match condition
    case Uid(_) => KindUid
    case Gid(_) => KindGid
    case ExecutablePath(_) => KindExecutablePath
    case ExecutableHash(_) => KindExecutableHash
    case CgroupPath(_) => KindCgroupPath
  }

  function Outcome(condition: Condition, context: ExecutionContext): ConditionOutcome {
    match condition
    case Uid(m) => MatchOutcome(m, context.workload.uid)
    case Gid(m) => MatchOutcome(m, context.workload.gid)
    case ExecutablePath(m) => MatchOutcome(m, context.workload.executablePath)
    case ExecutableHash(m) => MatchOutcome(m, context.workload.executableHash)
    case CgroupPath(m) => MatchOutcome(m, context.cgroupPath)
  }

  // ----- one rule

  predicate Relevant(rule: Rule, request: ComputeRequest) {
    rule.resource == request.resource && rule.action == request.action
  }

  /** Kleene conjunction: one refuted condition refutes the rule, whatever is
      undetermined elsewhere; otherwise one undetermined condition leaves it open. */
  function Conjunction(rule: Rule, context: ExecutionContext): ConditionOutcome {
    if exists c :: c in rule.conditions && Outcome(c, context) == NotMatched then NotMatched
    else if exists c :: c in rule.conditions && Outcome(c, context) == Undetermined then Undetermined
    else Matched
  }

  method EvaluateRule(rule: Rule, context: ExecutionContext, request: ComputeRequest)
    returns (outcome: Option<ConditionOutcome>)
    ensures outcome == if Relevant(rule, request) then Some(Conjunction(rule, context)) else None
  {
    if rule.resource != request.resource || rule.action != request.action {
      return None;
    }
    var anyUndetermined := false;
    for i := 0 to |rule.conditions|
      invariant forall k :: 0 <= k < i ==> Outcome(rule.conditions[k], context) != NotMatched
      invariant anyUndetermined <==> exists k :: 0 <= k < i && Outcome(rule.conditions[k], context) == Undetermined
    {
      match Outcome(rule.conditions[i], context) {
        case NotMatched => return Some(NotMatched);
        case Undetermined => anyUndetermined := true;
        case Matched =>
      }
    }
    return Some(if anyUndetermined then Undetermined else Matched);
  }

  // ----- a whole policy

  predicate Fires(rule: Rule, effect: Effect, outcome: ConditionOutcome, context: ExecutionContext, request: ComputeRequest) {
    Relevant(rule, request) && rule.effect == effect && Conjunction(rule, context) == outcome
  }

  /** The ids of the rules with this effect and this outcome. */
  function Hits(rules: seq<Rule>, effect: Effect, outcome: ConditionOutcome, context: ExecutionContext, request: ComputeRequest): set<string> {
    set rule | rule in rules && Fires(rule, effect, outcome, context, request) :: rule.id
  }

  function Provenance(policy: PolicyDocument): PolicyProvenance {
    PolicyProvenance(policy.id, policy.revision, DOMAIN_SCHEMA_VERSION)
  }

  function Resolve(allowing: set<string>, denying: set<string>, undetermined: set<string>): (Effect, DecisionReason) {
    if denying != {} then (Deny, ExplicitDeny(denying, allowing))
    else if undetermined != {} then (Deny, IndeterminateEvidence(undetermined))
    else if allowing != {} then (Allow, ExplicitAllow(allowing))
    else (Deny, NoMatchingRule)
  }

  function Decide(policy: PolicyDocument, context: ExecutionContext, request: ComputeRequest): PolicyDecision {
    var verdict := Resolve(
      Hits(policy.rules, Allow, Matched, context, request),
      Hits(policy.rules, Deny, Matched, context, request),
      Hits(policy.rules, Deny, Undetermined, context, request));
    PolicyDecision(verdict.0, verdict.1, Provenance(policy))
  }

  method Evaluate(policy: PolicyDocument, context: ExecutionContext, request: ComputeRequest)
    returns (decision: PolicyDecision)
    ensures decision == Decide(policy, context, request)
  {
    var rules := policy.rules;
    var allowHits: set<string>, denyHits: set<string>, indeterminateDenyHits: set<string> := {}, {}, {};
    for i := 0 to |rules|
      invariant allowHits == Hits(rules[..i], Allow, Matched, context, request)
      invariant denyHits == Hits(rules[..i], Deny, Matched, context, request)
      invariant indeterminateDenyHits == Hits(rules[..i], Deny, Undetermined, context, request)
    {
      var rule := rules[i];
      var outcome := EvaluateRule(rule, context, request);
      HitsExtend(rules, i, Allow, Matched, context, request);
      HitsExtend(rules, i, Deny, Matched, context, request);
      HitsExtend(rules, i, Deny, Undetermined, context, request);
      match outcome {
        case None =>
        case Some(NotMatched) =>
        case Some(Matched) =>
          if rule.effect == Allow {
            allowHits := allowHits + {rule.id};
          } else {
            denyHits := denyHits + {rule.id};
          }
        case Some(Undetermined) =>
          if rule.effect == Deny {
            indeterminateDenyHits := indeterminateDenyHits + {rule.id};
          }
      }
    }
    assert rules[..|rules|] == rules;
    var effect, reason;
    if denyHits != {} {
      effect, reason := Deny, ExplicitDeny(denyHits, allowHits);
    } else if indeterminateDenyHits != {} {
      effect, reason := Deny, IndeterminateEvidence(indeterminateDenyHits);
    } else if allowHits != {} {
      effect, reason := Allow, ExplicitAllow(allowHits);
    } else {
      effect, reason := Deny, NoMatchingRule;
    }
    decision := PolicyDecision(effect, reason, Provenance(policy));
  }

  lemma HitsExtend(rules: seq<Rule>, i: nat, effect: Effect, outcome: ConditionOutcome, context: ExecutionContext, request: ComputeRequest)
    requires i < |rules|
    ensures Hits(rules[..i + 1], effect, outcome, context, request)
         == Hits(rules[..i], effect, outcome, context, request)
          + (if Fires(rules[i], effect, outcome, context, request) then {rules[i].id} else {})
  {
    assert rules[..i + 1] == rules[..i] + [rules[i]];
  }

  // ----- when a policy allows

  /** Allow exactly when no relevant deny rule is matched or left open and some
      relevant allow rule is matched. */
  lemma AllowExactly(policy: PolicyDocument, context: ExecutionContext, request: ComputeRequest)
    ensures Decide(policy, context, request).effect == Allow
       <==> && (forall rule :: rule in policy.rules && Relevant(rule, request) && rule.effect == Deny
                  ==> Conjunction(rule, context) == NotMatched)
            && (exists rule :: rule in policy.rules && Fires(rule, Allow, Matched, context, request))
  {
    var allowing := Hits(policy.rules, Allow, Matched, context, request);
    var denying := Hits(policy.rules, Deny, Matched, context, request);
    var open := Hits(policy.rules, Deny, Undetermined, context, request);
    if rule :| rule in policy.rules && Relevant(rule, request) && rule.effect == Deny && Conjunction(rule, context) != NotMatched {
      assert rule.id in denying || rule.id in open;
    }
    if rule :| rule in policy.rules && Fires(rule, Allow, Matched, context, request) {
      assert rule.id in allowing;
    }
  }

  /** The reason names precisely the rules that decided: a matched deny beats an
      open one, an open one beats a matched allow, and an explicit deny also lists
      the allow rules it overrode. */
  lemma ReasonNamesDecidingRules(policy: PolicyDocument, context: ExecutionContext, request: ComputeRequest, id: string)
    ensures match Decide(policy, context, request).reason
            case ExplicitDeny(denying, overridden) =>
              && (id in denying <==> exists rule :: rule in policy.rules && rule.id == id && Fires(rule, Deny, Matched, context, request))
              && (id in overridden <==> exists rule :: rule in policy.rules && rule.id == id && Fires(rule, Allow, Matched, context, request))
            case IndeterminateEvidence(undetermined) =>
              && (forall rule :: rule in policy.rules ==> !Fires(rule, Deny, Matched, context, request))
              && (id in undetermined <==> exists rule :: rule in policy.rules && rule.id == id && Fires(rule, Deny, Undetermined, context, request))
            case ExplicitAllow(allowing) =>
              && (forall rule :: rule in policy.rules ==> !Fires(rule, Deny, Matched, context, request) && !Fires(rule, Deny, Undetermined, context, request))
              && (id in allowing <==> exists rule :: rule in policy.rules && rule.id == id && Fires(rule, Allow, Matched, context, request))
            case NoMatchingRule =>
              forall rule :: rule in policy.rules ==>
                !Fires(rule, Deny, Matched, context, request) && !Fires(rule, Deny, Undetermined, context, request) && !Fires(rule, Allow, Matched, context, request)
  {
    forall rule, effect, outcome | rule in policy.rules && Fires(rule, effect, outcome, context, request)
      ensures rule.id in Hits(policy.rules, effect, outcome, context, request)
    {
    }
  }

  // ----- order of rules and of conditions

  /** A rule with its authored condition order forgotten. */
  datatype CanonicalRule = CanonicalRule(
    id: string, effect: Effect, resource: ResourceIdentity, action: Action, conditions: multiset<Condition>)

  function Canonical(rule: Rule): CanonicalRule {
    CanonicalRule(rule.id, rule.effect, rule.resource, rule.action, multiset(rule.conditions))
  }

  function CanonicalRules(rules: seq<Rule>): multiset<CanonicalRule> {
    multiset(seq(|rules|, i requires 0 <= i < |rules| => Canonical(rules[i])))
  }

  lemma SameCanonicalFiresAlike(r1: Rule, r2: Rule, effect: Effect, outcome: ConditionOutcome, context: ExecutionContext, request: ComputeRequest)
    requires Canonical(r1) == Canonical(r2)
    ensures r1.id == r2.id
    ensures Fires(r1, effect, outcome, context, request) == Fires(r2, effect, outcome, context, request)
  {
    assert forall c :: c in r1.conditions <==> c in multiset(r1.conditions);
    assert forall c :: c in r2.conditions <==> c in multiset(r2.conditions);
  }

  lemma CanonicalPartner(p: seq<Rule>, q: seq<Rule>, rule: Rule) returns (partner: Rule)
    requires CanonicalRules(p) == CanonicalRules(q) && rule in p
    ensures partner in q && Canonical(partner) == Canonical(rule)
  {
    var cp := seq(|p|, i requires 0 <= i < |p| => Canonical(p[i]));
    var cq := seq(|q|, i requires 0 <= i < |q| => Canonical(q[i]));
    var i :| 0 <= i < |p| && p[i] == rule;
    assert cp[i] in multiset(cp);
    assert cp[i] in cq;
    var j :| 0 <= j < |cq| && cq[j] == cp[i];
    partner := q[j];
  }

  lemma HitsContained(p: seq<Rule>, q: seq<Rule>, effect: Effect, outcome: ConditionOutcome, context: ExecutionContext, request: ComputeRequest)
    requires CanonicalRules(p) == CanonicalRules(q)
    ensures Hits(p, effect, outcome, context, request) <= Hits(q, effect, outcome, context, request)
  {
    forall id | id in Hits(p, effect, outcome, context, request)
      ensures id in Hits(q, effect, outcome, context, request)
    {
      var rule :| rule in p && Fires(rule, effect, outcome, context, request) && rule.id == id;
      var partner := CanonicalPartner(p, q, rule);
      SameCanonicalFiresAlike(rule, partner, effect, outcome, context, request);
    }
  }

  lemma HitsIgnoreOrder(p: seq<Rule>, q: seq<Rule>, effect: Effect, outcome: ConditionOutcome, context: ExecutionContext, request: ComputeRequest)
    requires CanonicalRules(p) == CanonicalRules(q)
    ensures Hits(p, effect, outcome, context, request) == Hits(q, effect, outcome, context, request)
  {
    HitsContained(p, q, effect, outcome, context, request);
    HitsContained(q, p, effect, outcome, context, request);
  }

  /** Permuting rules, and permuting conditions inside rules, leaves the whole
      decision alone: effect, reason with its reported rule ids, provenance. */
  lemma DecisionIgnoresOrder(p: PolicyDocument, q: PolicyDocument, context: ExecutionContext, request: ComputeRequest)
    requires CanonicalRules(p.rules) == CanonicalRules(q.rules)
    requires p.id == q.id && p.revision == q.revision
    ensures Decide(p, context, request) == Decide(q, context, request)
  {
    HitsIgnoreOrder(p.rules, q.rules, Allow, Matched, context, request);
    HitsIgnoreOrder(p.rules, q.rules, Deny, Matched, context, request);
    HitsIgnoreOrder(p.rules, q.rules, Deny, Undetermined, context, request);
  }

  // ----- erasing evidence

  predicate Refines<T(==)>(less: Evidence<T>, more: Evidence<T>) {
    less == more || !less.Present?
  }

  /** `more` keeps everything `less` observed; fields `less` could not observe may hold anything. */
  predicate FillsIn(less: ExecutionContext, more: ExecutionContext) {
    && Refines(less.workload.uid, more.workload.uid)
    && Refines(less.workload.gid, more.workload.gid)
    && Refines(less.workload.executablePath, more.workload.executablePath)
    && Refines(less.workload.executableHash, more.workload.executableHash)
    && Refines(less.cgroupPath, more.cgroupPath)
  }

  lemma DecidedOutcomesPersist(rule: Rule, less: ExecutionContext, more: ExecutionContext)
    requires FillsIn(less, more)
    ensures Conjunction(rule, less) != Undetermined ==> Conjunction(rule, more) == Conjunction(rule, less)
  {
    assert forall c :: c in rule.conditions && Outcome(c, less) != Undetermined ==> Outcome(c, more) == Outcome(c, less);
  }

  /** Erasing evidence never turns Deny into Allow: what is allowed with fields
      unobserved is allowed however those fields are filled in, by at least the
      same rules. */
  lemma ErasingEvidenceNeverAllows(policy: PolicyDocument, less: ExecutionContext, more: ExecutionContext, request: ComputeRequest)
    requires FillsIn(less, more)
    requires Decide(policy, less, request).effect == Allow
    ensures Decide(policy, more, request).effect == Allow
    ensures Decide(policy, less, request).reason.allowing <= Decide(policy, more, request).reason.allowing
  {
    AllowExactly(policy, less, request);
    AllowExactly(policy, more, request);
    forall rule | rule in policy.rules
      ensures Conjunction(rule, less) != Undetermined ==> Conjunction(rule, more) == Conjunction(rule, less)
    {
      DecidedOutcomesPersist(rule, less, more);
    }
  }

  // ----- lowering trust is not monotone

  predicate SourceLowered<T(==)>(high: Evidence<T>, low: Evidence<T>) {
    high == low || (high.Present? && low.Present? && high.value == low.value && (high.source.KernelObserved? || low.source.SelfAsserted?))
  }

  /** Same values, some of them observed through a less trustworthy source. */
  predicate TrustLowered(high: ExecutionContext, low: ExecutionContext) {
    && SourceLowered(high.workload.uid, low.workload.uid)
    && SourceLowered(high.workload.gid, low.workload.gid)
    && SourceLowered(high.workload.executablePath, low.workload.executablePath)
    && SourceLowered(high.workload.executableHash, low.workload.executableHash)
    && SourceLowered(high.cgroupPath, low.cgroupPath)
  }

  /** Lowering a source only ever takes matches away. */
  lemma LoweringOnlyRefutes(rule: Rule, high: ExecutionContext, low: ExecutionContext)
    requires TrustLowered(high, low)
    ensures Conjunction(rule, low) == Matched ==> Conjunction(rule, high) == Matched
    ensures Conjunction(rule, high) == NotMatched ==> Conjunction(rule, low) == NotMatched
  {
    assert forall c :: c in rule.conditions ==> Outcome(c, low) == Outcome(c, high) || Outcome(c, low) == NotMatched;
  }

  /** So lowering trust turns a Deny into an Allow exactly when an allow rule
      still matches and every deny rule that stood in its way dropped below its floor. */
  lemma LoweringTrustAllowsExactly(policy: PolicyDocument, high: ExecutionContext, low: ExecutionContext, request: ComputeRequest)
    requires TrustLowered(high, low)
    ensures (Decide(policy, high, request).effect == Deny && Decide(policy, low, request).effect == Allow)
       <==> && (exists rule :: rule in policy.rules && Fires(rule, Allow, Matched, low, request))
            && (exists rule :: rule in policy.rules && Relevant(rule, request) && rule.effect == Deny && Conjunction(rule, high) != NotMatched)
            && (forall rule :: rule in policy.rules && Relevant(rule, request) && rule.effect == Deny ==> Conjunction(rule, low) == NotMatched)
  {
    AllowExactly(policy, high, request);
    AllowExactly(policy, low, request);
    forall rule | rule in policy.rules
      ensures Conjunction(rule, low) == Matched ==> Conjunction(rule, high) == Matched
    {
      LoweringOnlyRefutes(rule, high, low);
    }
  }

  function FloorOf(condition: Condition): TrustFloor {
    match condition
    case Uid(m) => m.minTrust
    case Gid(m) => m.minTrust
    case ExecutablePath(m) => m.minTrust
    case ExecutableHash(m) => m.minTrust
    case CgroupPath(m) => m.minTrust
  }

  /** A condition that lowered trust can refute without hurting `allow`: what it reads,
      the allow rule does not read at all, or asks less trust of. */
  predicate Undercut(allow: Rule, condition: Condition) {
    forall c :: c in allow.conditions && Kind(c) == Kind(condition) ==>
      FloorOf(c) == FloorBestEffort && FloorOf(condition) == FloorKernelObserved
  }

  /** An allow rule matches, and of every deny rule in its way it undercuts a matched condition. */
  predicate Vulnerable(policy: PolicyDocument, context: ExecutionContext, request: ComputeRequest, allow: Rule) {
    && allow in policy.rules && Fires(allow, Allow, Matched, context, request)
    && forall deny :: deny in policy.rules && Relevant(deny, request) && deny.effect == Deny && Conjunction(deny, context) != NotMatched ==>
         exists c :: c in deny.conditions && Outcome(c, context) == Matched && Undercut(allow, c)
  }

  /** As little trust in one kind of evidence as the allow rule can do with. */
  function Lowered<T>(allow: Rule, kind: ConditionKind, evidence: Evidence<T>): Evidence<T> {
    if !evidence.Present? then evidence
    else if forall c :: c in allow.conditions ==> Kind(c) != kind then Present(evidence.value, SelfAsserted)
    else if evidence.source.KernelObserved? && forall c :: c in allow.conditions && Kind(c) == kind ==> FloorOf(c) == FloorBestEffort
      then Present(evidence.value, BestEffort)
    else evidence
  }

  function LowestFor(allow: Rule, context: ExecutionContext): ExecutionContext {
    context.(
      workload := context.workload.(
        uid := Lowered(allow, KindUid, context.workload.uid),
        gid := Lowered(allow, KindGid, context.workload.gid),
        executablePath := Lowered(allow, KindExecutablePath, context.workload.executablePath),
        executableHash := Lowered(allow, KindExecutableHash, context.workload.executableHash)),
      cgroupPath := Lowered(allow, KindCgroupPath, context.cgroupPath))
  }

  lemma LowestIsLowered(allow: Rule, context: ExecutionContext)
    ensures TrustLowered(context, LowestFor(allow, context))
  {
  }

  lemma LowestKeepsMatch(allow: Rule, context: ExecutionContext, c: Condition)
    requires c in allow.conditions && Outcome(c, context) == Matched
    ensures Outcome(c, LowestFor(allow, context)) == Matched
  {
  }

  lemma LowestRefutes(allow: Rule, context: ExecutionContext, c: Condition)
    requires Outcome(c, context) == Matched && Undercut(allow, c)
    ensures Outcome(c, LowestFor(allow, context)) == NotMatched
  {
  }

  /** Whatever lowering lets the request through, it undercut the deny rules that way. */
  lemma RefutedWasUndercut(allow: Rule, high: ExecutionContext, low: ExecutionContext, c: Condition)
    requires TrustLowered(high, low) && Outcome(c, high) != NotMatched && Outcome(c, low) == NotMatched
    requires forall a :: a in allow.conditions ==> Outcome(a, low) == Matched
    ensures Outcome(c, high) == Matched && Undercut(allow, c)
  {
    forall a | a in allow.conditions && Kind(a) == Kind(c)
      ensures FloorOf(a) == FloorBestEffort && FloorOf(c) == FloorKernelObserved
    {
      assert Outcome(a, low) == Matched;
    }
  }

  lemma LowestAllows(policy: PolicyDocument, context: ExecutionContext, request: ComputeRequest, allow: Rule)
    requires Vulnerable(policy, context, request, allow)
    ensures Decide(policy, LowestFor(allow, context), request).effect == Allow
  {
    hide Decide, LowestFor, Outcome;
    var low := LowestFor(allow, context);
    LowestIsLowered(allow, context);
    forall c | c in allow.conditions ensures Outcome(c, low) == Matched {
      LowestKeepsMatch(allow, context, c);
    }
    forall deny | deny in policy.rules && Relevant(deny, request) && deny.effect == Deny
      ensures Conjunction(deny, low) == NotMatched
    {
      if Conjunction(deny, context) == NotMatched {
        LoweringOnlyRefutes(deny, context, low);
      } else {
        var c :| c in deny.conditions && Outcome(c, context) == Matched && Undercut(allow, c);
        LowestRefutes(allow, context, c);
      }
    }
    assert Fires(allow, Allow, Matched, low, request);
    AllowExactly(policy, low, request);
  }

  /** A request can be let through by lowering trust in its evidence exactly if some allow
      rule matches it and, of every relevant deny rule not refuted, reads some matched
      condition's evidence not at all or with a lower floor. */
  lemma LoweringCanAllowExactly(policy: PolicyDocument, high: ExecutionContext, request: ComputeRequest)
    ensures (exists low :: TrustLowered(high, low) && Decide(policy, low, request).effect == Allow)
       <==> (exists allow :: Vulnerable(policy, high, request, allow))
  {
    hide Decide, Outcome, Relevant, TrustLowered, LowestFor, Undercut;
    if low :| TrustLowered(high, low) && Decide(policy, low, request).effect == Allow {
      AllowExactly(policy, low, request);
      var allow :| allow in policy.rules && Fires(allow, Allow, Matched, low, request);
      LoweringOnlyRefutes(allow, high, low);
      forall deny | deny in policy.rules && Relevant(deny, request) && deny.effect == Deny && Conjunction(deny, high) != NotMatched
        ensures exists c :: c in deny.conditions && Outcome(c, high) == Matched && Undercut(allow, c)
      {
        var c :| c in deny.conditions && Outcome(c, low) == NotMatched;
        RefutedWasUndercut(allow, high, low, c);
      }
      assert Vulnerable(policy, high, request, allow);
    }
    if allow :| Vulnerable(policy, high, request, allow) {
      LowestIsLowered(allow, high);
      LowestAllows(policy, high, request, allow);
    }
  }

  /** A policy and a context where lowering one uid source lets a denied request through. */
  lemma LoweringTrustCanAllow() returns (policy: PolicyDocument, high: ExecutionContext, low: ExecutionContext, request: ComputeRequest)
    ensures TrustLowered(high, low)
    ensures Decide(policy, high, request).effect == Deny
    ensures Decide(policy, low, request).effect == Allow
  {
    request := ComputeRequest(ResourceIdentity("fake", "gpu", "0"), Compute);
    var allow := Rule("allow", Allow, request.resource, Compute, [Gid(EvidenceMatch(5, FloorBestEffort))]);
    var deny := Rule("deny", Deny, request.resource, Compute, [Uid(EvidenceMatch(9, FloorKernelObserved))]);
    policy := PolicyDocument("p", 1, [allow, deny]);
    var workload := WorkloadIdentity(1, Present(7, KernelObserved), Present(9, KernelObserved), Present(5, KernelObserved), Unsupported, Unsupported, []);
    high := ExecutionContext(workload, Unsupported, Unsupported, Unsupported, Unsupported);
    low := high.(workload := workload.(uid := Present(9, BestEffort)));
    SingleCondition(deny, high);
    SingleCondition(deny, low);
    SingleCondition(allow, low);
    DenyBlocks(policy, deny, high, request);
    AllowExactly(policy, low, request);
    assert Fires(policy.rules[0], Allow, Matched, low, request);
  }

  lemma SingleCondition(rule: Rule, context: ExecutionContext)
    requires |rule.conditions| == 1
    ensures Conjunction(rule, context) == Outcome(rule.conditions[0], context)
  {
    assert rule.conditions[0] in rule.conditions;
  }

  lemma DenyBlocks(policy: PolicyDocument, rule: Rule, context: ExecutionContext, request: ComputeRequest)
    requires rule in policy.rules && Relevant(rule, request) && rule.effect == Deny
    requires Conjunction(rule, context) != NotMatched
    ensures Decide(policy, context, request).effect == Deny
  {
    AllowExactly(policy, context, request);
  }

  // ----- validating a document

  predicate DistinctKinds(conditions: seq<Condition>) {
    forall i, j :: 0 <= i < j < |conditions| ==> Kind(conditions[i]) != Kind(conditions[j])
  }

  predicate RuleAcceptable(rule: Rule) {
    rule.id != "" && rule.conditions != [] && DistinctKinds(rule.conditions) && rule.action != Unknown
  }

  predicate DocumentAcceptable(document: PolicyDocument) {
    && document.id != ""
    && (forall i :: 0 <= i < |document.rules| ==> RuleAcceptable(document.rules[i]))
    && (forall i, j :: 0 <= i < j < |document.rules| ==> document.rules[i].id != document.rules[j].id)
  }

  /** What is wrong with rule `i`, given the rules before it, in the order the checks run. */
  predicate BlamesRule(document: PolicyDocument, i: nat, error: PolicyError)
    requires i < |document.rules|
  {
    var rule := document.rules[i];
    if rule.id == "" then error == EmptyRuleId
    else if exists k :: 0 <= k < i && document.rules[k].id == rule.id then error == DuplicateRuleId(rule.id)
    else if rule.conditions == [] then error == RuleWithoutConditions(rule.id)
    else if !DistinctKinds(rule.conditions) then error == DuplicateConditionKind(rule.id)
    else rule.action == Unknown && error == UnknownActionInRule(rule.id)
  }

  /** Accepts exactly the acceptable documents, unchanged; otherwise blames the
      first offending rule. */
  method FromDocument(document: PolicyDocument) returns (result: Result<PolicyDocument, PolicyError>)
    ensures result.Ok? <==> DocumentAcceptable(document)
    ensures result.Ok? ==> result.value == document
    ensures result.Err? && document.id == "" ==> result.error == EmptyPolicyId
    ensures result.Err? && document.id != "" ==>
      exists i :: 0 <= i < |document.rules| && BlamesRule(document, i, result.error)
        && (forall k :: 0 <= k < i ==> RuleAcceptable(document.rules[k]))
        && (forall j, k :: 0 <= j < k < i ==> document.rules[j].id != document.rules[k].id)
  {
    if document.id == "" {
      return Err(EmptyPolicyId);
    }
    var seenRuleIds: set<string> := {};
    for i := 0 to |document.rules|
      invariant seenRuleIds == set k | 0 <= k < i :: document.rules[k].id
      invariant forall k :: 0 <= k < i ==> RuleAcceptable(document.rules[k])
      invariant forall j, k :: 0 <= j < k < i ==> document.rules[j].id != document.rules[k].id
    {
      var rule := document.rules[i];
      if rule.id == "" {
        assert BlamesRule(document, i, EmptyRuleId);
        return Err(EmptyRuleId);
      }
      if rule.id in seenRuleIds {
        assert BlamesRule(document, i, DuplicateRuleId(rule.id));
        return Err(DuplicateRuleId(rule.id));
      }
      seenRuleIds := seenRuleIds + {rule.id};
      if rule.conditions == [] {
        assert BlamesRule(document, i, RuleWithoutConditions(rule.id));
        return Err(RuleWithoutConditions(rule.id));
      }
      var seenKinds: set<ConditionKind> := {};
      for c := 0 to |rule.conditions|
        invariant seenKinds == set k | 0 <= k < c :: Kind(rule.conditions[k])
        invariant DistinctKinds(rule.conditions[..c])
      {
        if Kind(rule.conditions[c]) in seenKinds {
          assert BlamesRule(document, i, DuplicateConditionKind(rule.id));
          return Err(DuplicateConditionKind(rule.id));
        }
        seenKinds := seenKinds + {Kind(rule.conditions[c])};
      }
      assert rule.conditions[..|rule.conditions|] == rule.conditions;
      if rule.action == Unknown {
        assert BlamesRule(document, i, UnknownActionInRule(rule.id));
        return Err(UnknownActionInRule(rule.id));
      }
    }
    result := Ok(document);
  }
}
