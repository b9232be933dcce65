/** Observed evidence about a workload, and the two three-valued comparisons
    a lease release is gated on. */
module Identity {
  import opened Prelude

  datatype EvidenceSource = KernelObserved | BestEffort | SelfAsserted

  /** Present with provenance, missing this time, or never collected on this platform. */
  datatype Evidence<T> =
    | Present(value: T, source: EvidenceSource)
    | Missing(reason: string)
    | Unsupported

  datatype IdentityComparison = Same | Different | Indeterminate

  datatype ProcessAncestor = ProcessAncestor(
    pid: u32,
    start: Evidence<u64>,
    executablePath: Evidence<string>)

  datatype WorkloadIdentity = WorkloadIdentity(
    pid: u32,
    processStart: Evidence<u64>,
    uid: Evidence<u32>,
    gid: Evidence<u32>,
    executablePath: Evidence<string>,
    executableHash: Evidence<string>,
    ancestry: seq<ProcessAncestor>)

  datatype ExecutionContext = ExecutionContext(
    workload: WorkloadIdentity,
    cgroupPath: Evidence<string>,
    namespaceHint: Evidence<string>,
    containerHint: Evidence<string>,
    sessionOrigin: Evidence<string>)

  /** Present, and not merely claimed by the observed process itself. */
  predicate Trusted<T>(evidence: Evidence<T>) {
    evidence.Present? && evidence.source != SelfAsserted
  }

  function CompareProcess(a: WorkloadIdentity, b: WorkloadIdentity): IdentityComparison {
    if Trusted(a.processStart) && Trusted(b.processStart) then
      if a.pid == b.pid && a.processStart.value == b.processStart.value then Same else Different
    else
      Indeterminate
  }

  function CompareEvidence<T(==)>(a: Evidence<T>, b: Evidence<T>): Option<IdentityComparison> {
    if Trusted(a) && Trusted(b) then
      Some(if a.value == b.value then Same else Different)
    else
      None
  }

  /** The strongest evidence trusted on both sides decides: hash first, then path. */
  function CompareExecutable(a: WorkloadIdentity, b: WorkloadIdentity): IdentityComparison {
    match CompareEvidence(a.executableHash, b.executableHash)
    case Some(comparison) => comparison
    case None =>
      match CompareEvidence(a.executablePath, b.executablePath)
      case Some(comparison) => comparison
      case None => Indeterminate
  }

  /** Of two process identities only the pids and the start tokens count, and a token only
      if it was not claimed by the process itself. Whatever else was observed, ancestry
      included, changes nothing. */
  lemma ProcessVerdictExactly(a: WorkloadIdentity, b: WorkloadIdentity)
    ensures CompareProcess(a, b) == Same <==>
      && a.processStart.Present? && (a.processStart.source == KernelObserved || a.processStart.source == BestEffort)
      && b.processStart.Present? && (b.processStart.source == KernelObserved || b.processStart.source == BestEffort)
      && a.pid == b.pid && a.processStart.value == b.processStart.value
    ensures CompareProcess(a, b) == Different <==>
      && a.processStart.Present? && (a.processStart.source == KernelObserved || a.processStart.source == BestEffort)
      && b.processStart.Present? && (b.processStart.source == KernelObserved || b.processStart.source == BestEffort)
      && (a.pid != b.pid || a.processStart.value != b.processStart.value)
    ensures forall c: WorkloadIdentity, d: WorkloadIdentity ::
      c.pid == a.pid && c.processStart == a.processStart && d.pid == b.pid && d.processStart == b.processStart ==>
        CompareProcess(c, d) == CompareProcess(a, b)
  {
  }

  /** A kind of evidence decides between two executables if neither side's was claimed by
      the process itself. */
  predicate Decides<T>(a: Evidence<T>, b: Evidence<T>) {
    && a.Present? && (a.source == KernelObserved || a.source == BestEffort)
    && b.Present? && (b.source == KernelObserved || b.source == BestEffort)
  }

  /** Hashes decide if they can, whatever the paths say; paths decide only if hashes
      cannot; and nothing but hashes and paths counts. */
  lemma ExecutableVerdictExactly(a: WorkloadIdentity, b: WorkloadIdentity)
    ensures CompareExecutable(a, b) == Same <==>
      if Decides(a.executableHash, b.executableHash) then a.executableHash.value == b.executableHash.value
      else Decides(a.executablePath, b.executablePath) && a.executablePath.value == b.executablePath.value
    ensures CompareExecutable(a, b) == Different <==>
      if Decides(a.executableHash, b.executableHash) then a.executableHash.value != b.executableHash.value
      else Decides(a.executablePath, b.executablePath) && a.executablePath.value != b.executablePath.value
  {
  }

  /** Two processes that compare `Same` compare alike with everything: `Same`
      names one process, so a third party cannot be `Same` as only one of them. */
  lemma SameProcessComparesAlike(a: WorkloadIdentity, b: WorkloadIdentity, c: WorkloadIdentity)
    requires CompareProcess(a, b) == Same
    ensures CompareProcess(b, a) == Same
    ensures CompareProcess(a, c) == CompareProcess(b, c)
    ensures CompareProcess(c, a) == CompareProcess(c, b)
  {
  }

  /** A verdict about two processes needs trusted start tokens on both sides, and about
      two executables one kind of evidence trusted on both; neither depends on which of
      the two is asked, and nothing a process says of itself can make it Same. */
  lemma VerdictsNeedTrust(a: WorkloadIdentity, b: WorkloadIdentity)
    ensures CompareProcess(a, b) == CompareProcess(b, a)
    ensures CompareExecutable(a, b) == CompareExecutable(b, a)
    ensures CompareProcess(a, b) == Indeterminate <==> !Trusted(a.processStart) || !Trusted(b.processStart)
    ensures CompareExecutable(a, b) == Indeterminate
       <==> && (!Trusted(a.executableHash) || !Trusted(b.executableHash))
            && (!Trusted(a.executablePath) || !Trusted(b.executablePath))
  {
  }

  predicate HashTrusted(w: WorkloadIdentity, trusted: bool) { Trusted(w.executableHash) == trusted }

  /** Whether Same executable carries over from one pair to the next, for all workloads
      whose hashes are trusted as given. */
  ghost predicate SameCarriesOver(a: bool, b: bool, c: bool) {
    forall x, y, z | HashTrusted(x, a) && HashTrusted(y, b) && HashTrusted(z, c) ::
      CompareExecutable(x, y) == Same && CompareExecutable(y, z) == Same ==> CompareExecutable(x, z) == Same
  }

  function HowMany(a: bool, b: bool, c: bool): nat {
    (if a then 1 else 0) + (if b then 1 else 0) + (if c then 1 else 0)
  }

  function SomeWorkload(path: string, hash: Evidence<string>): WorkloadIdentity {
    WorkloadIdentity(1, Unsupported, Unsupported, Unsupported, Present(path, KernelObserved), hash, [])
  }

  /** Three workloads, one without a trusted hash: Same along the chain, Different at its
      ends. The one without may stand in the middle or at either end. */
  lemma SameExecutableIsNotTransitive(a: bool, b: bool, c: bool) returns (x: WorkloadIdentity, y: WorkloadIdentity, z: WorkloadIdentity)
    requires HowMany(a, b, c) == 2
    ensures HashTrusted(x, a) && HashTrusted(y, b) && HashTrusted(z, c)
    ensures CompareExecutable(x, y) == Same && CompareExecutable(y, z) == Same
    ensures CompareExecutable(x, z) == Different
  {
    var here, there := Present("x", KernelObserved), Present("y", KernelObserved);
    if !b {
      x, y, z := SomeWorkload("/a", here), SomeWorkload("/a", Unsupported), SomeWorkload("/a", there);
    } else if !a {
      x, y, z := SomeWorkload("/a", Unsupported), SomeWorkload("/a", here), SomeWorkload("/b", here);
    } else {
      x, y, z := SomeWorkload("/b", here), SomeWorkload("/a", here), SomeWorkload("/a", Unsupported);
    }
  }

  /** Same executable carries over exactly if the trusted hashes do not number two: with
      all three, the hashes decide throughout; with one or none, the paths do. */
  lemma SameExecutableCarriesOverExactly(a: bool, b: bool, c: bool)
    ensures SameCarriesOver(a, b, c) <==> HowMany(a, b, c) != 2
  {
    if HowMany(a, b, c) == 2 {
      var x, y, z := SameExecutableIsNotTransitive(a, b, c);
      assert HashTrusted(x, a) && HashTrusted(y, b) && HashTrusted(z, c);
    }
  }
}
