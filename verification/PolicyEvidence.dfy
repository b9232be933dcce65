/** What a policy asks of the evidence itself: decisions said of the observed fields, their
    values and their sources. */
module PolicyEvidence {
  import opened Identity
  import opened Resource
  import opened Policy

  // ----- one condition

  /** Observed, with the expected value, by a source the match puts up with: the kernel
      always, best effort if asked for no more, the process's own word never. */
  predicate Meets<T(==)>(evidence: Evidence<T>, m: EvidenceMatch<T>) {
    && evidence.Present? && evidence.value == m.expected
    && (evidence.source == KernelObserved || (evidence.source == BestEffort && m.minTrust == FloorBestEffort))
  }

  predicate Met(c: Condition, context: ExecutionContext) {
    && (c.Uid? ==> Meets(context.workload.uid, c.uid))
    && (c.Gid? ==> Meets(context.workload.gid, c.gid))
    && (c.ExecutablePath? ==> Meets(context.workload.executablePath, c.path))
    && (c.ExecutableHash? ==> Meets(context.workload.executableHash, c.hash))
    && (c.CgroupPath? ==> Meets(context.cgroupPath, c.cgroup))
  }

  /** What the condition reads was observed at all. */
  predicate Observed(c: Condition, context: ExecutionContext) {
    && (c.Uid? ==> context.workload.uid.Present?)
    && (c.Gid? ==> context.workload.gid.Present?)
    && (c.ExecutablePath? ==> context.workload.executablePath.Present?)
    && (c.ExecutableHash? ==> context.workload.executableHash.Present?)
    && (c.CgroupPath? ==> context.cgroupPath.Present?)
  }

  lemma ConditionReadsItsField(c: Condition, context: ExecutionContext)
    ensures Outcome(c, context) == Matched <==> Met(c, context)
    ensures Outcome(c, context) == NotMatched <==> Observed(c, context) && !Met(c, context)
    ensures Outcome(c, context) == Undetermined <==> !Observed(c, context)
  {
  }

  // ----- one rule

  predicate Satisfied(rule: Rule, context: ExecutionContext) {
    forall c :: c in rule.conditions ==> Met(c, context)
  }

  /** Something a rule asks for was observed to be otherwise. */
  predicate Contradicted(rule: Rule, context: ExecutionContext) {
    exists c :: c in rule.conditions && Observed(c, context) && !Met(c, context)
  }

  lemma RuleReadsItsFields(rule: Rule, context: ExecutionContext)
    ensures Conjunction(rule, context) == Matched <==> Satisfied(rule, context)
    ensures Conjunction(rule, context) == NotMatched <==> Contradicted(rule, context)
  {
    forall c | c in rule.conditions
      ensures Outcome(c, context) == Matched <==> Met(c, context)
      ensures Outcome(c, context) == NotMatched <==> Observed(c, context) && !Met(c, context)
      ensures Outcome(c, context) == Undetermined <==> !Observed(c, context)
    {
      ConditionReadsItsField(c, context);
    }
    if Contradicted(rule, context) {
      var c :| c in rule.conditions && Observed(c, context) && !Met(c, context);
      assert Outcome(c, context) == NotMatched;
    }
  }

  // ----- a whole policy

  predicate About(rule: Rule, request: ComputeRequest) {
    rule.resource == request.resource && rule.action == request.action
  }

  /** Allow exactly when every deny rule about the request is contradicted by what was
      observed and some allow rule about it is satisfied, the decision being this very
      policy's. */
  lemma AllowedExactly(policy: PolicyDocument, context: ExecutionContext, request: ComputeRequest)
    ensures Decide(policy, context, request).effect == Allow <==>
      && (forall rule :: rule in policy.rules && rule.effect == Deny && About(rule, request) ==> Contradicted(rule, context))
      && (exists rule :: rule in policy.rules && rule.effect == Allow && About(rule, request) && Satisfied(rule, context))
    ensures Decide(policy, context, request).policy == PolicyProvenance(policy.id, policy.revision, 1)
  {
    AllowExactly(policy, context, request);
    forall rule
      ensures Conjunction(rule, context) == Matched <==> Satisfied(rule, context)
      ensures Conjunction(rule, context) == NotMatched <==> Contradicted(rule, context)
    {
      RuleReadsItsFields(rule, context);
    }
    if rule :| rule in policy.rules && rule.effect == Allow && About(rule, request) && Satisfied(rule, context) {
      assert Fires(rule, Allow, Matched, context, request);
    }
  }

  // ----- another value

  /** The condition asks for one value and another one was observed, by whatever source. */
  predicate OtherValue(c: Condition, context: ExecutionContext) {
    match c
    case Uid(m) => context.workload.uid.Present? && context.workload.uid.value != m.expected
    case Gid(m) => context.workload.gid.Present? && context.workload.gid.value != m.expected
    case ExecutablePath(m) => context.workload.executablePath.Present? && context.workload.executablePath.value != m.expected
    case ExecutableHash(m) => context.workload.executableHash.Present? && context.workload.executableHash.value != m.expected
    case CgroupPath(m) => context.cgroupPath.Present? && context.cgroupPath.value != m.expected
  }

  predicate AsksForAnother(rule: Rule, context: ExecutionContext) {
    exists c :: c in rule.conditions && OtherValue(c, context)
  }

  lemma AnotherValueContradicts(rule: Rule, context: ExecutionContext)
    requires AsksForAnother(rule, context)
    ensures Contradicted(rule, context) && !Satisfied(rule, context) && Conjunction(rule, context) == NotMatched
  {
    var c :| c in rule.conditions && OtherValue(c, context);
    assert Observed(c, context) && !Met(c, context);
    RuleReadsItsFields(rule, context);
  }

  predicate NamedIn(reason: DecisionReason, id: string) {
    match reason
    case NoMatchingRule => false
    case ExplicitAllow(allowing) => id in allowing
    case ExplicitDeny(denying, overridden) => id in denying || id in overridden
    case IndeterminateEvidence(undetermined) => id in undetermined
  }

  /** A rule that asks for a value other than the one observed is never among the rules
      that decide, whatever its effect and whatever else could not be observed. */
  lemma AnotherValueNeverDecides(policy: PolicyDocument, context: ExecutionContext, request: ComputeRequest, id: string)
    requires forall rule :: rule in policy.rules && rule.id == id ==> AsksForAnother(rule, context)
    ensures !NamedIn(Decide(policy, context, request).reason, id)
  {
    ReasonNamesDecidingRules(policy, context, request, id);
    forall rule | rule in policy.rules && rule.id == id
      ensures Conjunction(rule, context) == NotMatched
    {
      AnotherValueContradicts(rule, context);
    }
  }

  /** If every allow rule about a request asks for another value, the answer is Deny. */
  lemma AnotherValueDenies(policy: PolicyDocument, context: ExecutionContext, request: ComputeRequest)
    requires forall rule :: rule in policy.rules && rule.effect == Allow && About(rule, request) ==> AsksForAnother(rule, context)
    ensures Decide(policy, context, request).effect == Deny
  {
    AllowedExactly(policy, context, request);
    forall rule | rule in policy.rules && rule.effect == Allow && About(rule, request)
      ensures !Satisfied(rule, context)
    {
      AnotherValueContradicts(rule, context);
    }
  }

  // ----- just what is asked for

  /** Just the value asked for was observed, by the kernel. */
  predicate KernelSays(c: Condition, context: ExecutionContext) {
    match c
    case Uid(m) => context.workload.uid == Present(m.expected, KernelObserved)
    case Gid(m) => context.workload.gid == Present(m.expected, KernelObserved)
    case ExecutablePath(m) => context.workload.executablePath == Present(m.expected, KernelObserved)
    case ExecutableHash(m) => context.workload.executableHash == Present(m.expected, KernelObserved)
    case CgroupPath(m) => context.cgroupPath == Present(m.expected, KernelObserved)
  }

  /** A rule of which the kernel says all it asks for takes part in the decision: an allow
      rule is among those that allow or are overridden, and a deny rule denies. Only an
      open deny rule, and no matched one, can keep an allow rule from being named. */
  lemma KernelsWordDecides(policy: PolicyDocument, context: ExecutionContext, request: ComputeRequest, rule: Rule)
    requires rule in policy.rules && About(rule, request) && forall c :: c in rule.conditions ==> KernelSays(c, context)
    ensures Conjunction(rule, context) == Matched
    ensures var reason := Decide(policy, context, request).reason;
      if rule.effect == Deny then reason.ExplicitDeny? && rule.id in reason.denying
      else reason.IndeterminateEvidence? || NamedIn(reason, rule.id)
  {
    forall c | c in rule.conditions
      ensures Met(c, context)
    {
      assert KernelSays(c, context);
    }
    RuleReadsItsFields(rule, context);
    ReasonNamesDecidingRules(policy, context, request, rule.id);
    assert Fires(rule, rule.effect, Matched, context, request);
  }

  // ----- kinds

  /** Two conditions are of one kind exactly if they read the same field. */
  lemma SameKindExactly(c: Condition, d: Condition)
    ensures Kind(c) == Kind(d) <==>
      || (c.Uid? && d.Uid?) || (c.Gid? && d.Gid?) || (c.ExecutablePath? && d.ExecutablePath?)
      || (c.ExecutableHash? && d.ExecutableHash?) || (c.CgroupPath? && d.CgroupPath?)
  {
  }
}
