/**
  The generated continuity cases: what their author claims, what the raw logs make true, and when the adapters
  meet the claim.
 */
module CheckpointCases {
  import opened Options
  import opened Hashing
  import opened MerkleTree
  import opened Consistency
  import opened CheckpointStore
  import opened CheckpointConformance

  // ----- What a case reports and what its author claims -----

  /** The stable error categories. */
  datatype Category =
    | EvidenceCategory
    | RollbackCategory
    | ForkCategory
    | InconsistentCategory
    | StoreCategory

  /** Missing evidence and failed retrievals have no stable category. */
  function CategoryOf(failure: Failure): Option<Category> {
    match failure
    case InvalidEvidence => Some(EvidenceCategory)
    case LogRollback(_, _) => Some(RollbackCategory)
    case LogFork(_, _) => Some(ForkCategory)
    case LogInconsistent(_, _) => Some(InconsistentCategory)
    case ConsistencyUnavailable => None
    case Injected(fault) => if fault.ProofFetchFault? then None else Some(StoreCategory)
  }

  predicate IsContinuity(category: Category) {
    category.RollbackCategory? || category.ForkCategory? || category.InconsistentCategory?
  }

  datatype Diagnostics = Diagnostics(
    origin: string, trustedSize: nat, observedSize: nat, trustedRoot: Digest, observedRoot: Digest)

  function Between(trusted: Checkpoint, observed: Checkpoint): Diagnostics {
    Diagnostics(trusted.origin, trusted.size, observed.size, trusted.root, observed.root)
  }

  function DiagnosticsOf(failure: Failure): Option<Diagnostics> {
    if failure.LogRollback? || failure.LogFork? || failure.LogInconsistent? then
      Some(Between(failure.trusted, failure.observed))
    else None
  }

  /** What the generator writes down for a case; fields that it does not name are absent. */
  datatype Expected = Expected(
    ok: bool,
    stored: Option<Checkpoint>,
    transient: Option<bool>,
    category: Option<Category>,
    diagnostics: Option<Diagnostics>,
    causePreserved: Option<bool>,
    proofRequested: Option<bool>,
    unavailable: Option<bool>)

  /** The generator's rule: a claimed category, a fault or missing evidence rejects and retains. */
  function Contract(trusted: Option<Checkpoint>, s: Submission, category: Option<Category>, fault: Fault): Expected
    requires category.Some? && IsContinuity(category.value) ==> trusted.Some?
  {
    var rejected := category.Some? || !fault.NoFault? || s.evidence.Missing?;
    Expected(
      !rejected,
      if rejected then trusted else Some(s.candidate),
      if rejected then Some(fault.ProofFetchFault?) else None,
      category,
      if category.Some? && IsContinuity(category.value) then Some(Between(trusted.value, s.candidate)) else None,
      if fault.NoFault? then None else Some(true),
      if s.evidence.Proof? then Some(true) else None,
      if s.evidence.Missing? then Some(true) else None)
  }

  /** A field is as expected if the case names it at all. */
  predicate Named<T(==)>(expected: Option<T>, actual: T) {
    expected.Some? ==> actual == expected.value
  }

  /** The result of a run has every field that the case names. */
  predicate Meets(result: CaseResult, expected: Expected) {
    && result.Ran?
    && result.verdict.Accept? == expected.ok
    && result.stored == expected.stored
    && Named(expected.causePreserved, result.causePreserved)
    && Named(expected.proofRequested, result.proofRequests > 0)
    && (result.verdict.Reject? ==>
          var failure := result.verdict.failure;
          && Named(expected.transient, failure == Injected(ProofFetchFault))
          && (expected.category.Some? ==> CategoryOf(failure) == expected.category)
          && (expected.diagnostics.Some? ==> DiagnosticsOf(failure) == expected.diagnostics)
          && Named(expected.unavailable, failure.ConsistencyUnavailable?))
  }

  // ----- What the raw logs make true -----

  /** A case over raw logs: what was trusted, what is submitted and how, and the injected fault. */
  datatype LogCase = LogCase(
    trusted: Option<seq<Bytes>>, candidate: seq<Bytes>, signed: bool, evidence: Evidence, fault: Fault)

  datatype Reason = BadEvidence | Rollback | Fork | Contradiction | NoEvidence | StoreFault | FetchFault

  datatype Ruling = Advances | Retains(reason: Reason)

  /** The submission on its own: its signatures, and a scan that lists exactly the candidate's entries. */
  predicate Authentic(c: LogCase) {
    c.signed && (c.evidence.Scan? ==> c.evidence.entries == c.candidate)
  }

  /** Whether a proof source is asked: an authentic candidate grows a nonempty log and the store can be read. */
  predicate AsksForProof(c: LogCase) {
    && Authentic(c) && !c.fault.LoadFault? && c.evidence.Proof?
    && c.trusted.Some? && 0 < |c.trusted.value| < |c.candidate|
  }

  /** A log against the log that was trusted before. */
  function Continues(H: Hash, a: seq<Bytes>, c: LogCase): Ruling {
    var b := c.candidate;
    if |b| < |a| then Retains(Rollback)
    else if |b| == |a| then (if a == b then Advances else Retains(Fork))
    else if a == [] then Advances
    else
      match c.evidence
      case Scan(_) => if a == b[..|a|] then Advances else Retains(Contradiction)
      case Missing => Retains(NoEvidence)
      case Proof(nodes) =>
        if c.fault.ProofFetchFault? then Retains(FetchFault)
        else if a == b[..|a|] && nodes == ConsistencyProof(H, LeafHashes(H, b), |a|) then Advances
        else Retains(Contradiction)
  }

  /** What a case over raw logs deserves. */
  function RulingOf(H: Hash, c: LogCase): Ruling {
    if !Authentic(c) then Retains(BadEvidence)
    else if c.fault.LoadFault? then Retains(StoreFault)
    else
      var ruling := if c.trusted.Some? then Continues(H, c.trusted.value, c) else Advances;
      if ruling.Advances? && c.fault.WriteFault? then Retains(StoreFault) else ruling
  }

  /** Searches a case for the collision that another verdict would need. */
  function CaseClash(H: Hash, c: LogCase): (found: Option<Pair>)
    ensures Genuine(H, found)
  {
    var b := c.candidate;
    var scan := if c.evidence.Scan? then LogClash(H, c.evidence.entries, b) else None;
    if c.trusted.None? || |b| < |c.trusted.value| then scan
    else
      var a := c.trusted.value;
      var prefix := FirstOf(scan, LogClash(H, a, b[..|a|]));
      if c.evidence.Proof? && a != [] then FirstOf(prefix, HistoryClash(H, a, b, c.evidence.nodes)) else prefix
  }

  // ----- The verdict on raw logs -----

  function TrustedOf(H: Hash, origin: string, c: LogCase, before: int): Option<Checkpoint> {
    if c.trusted.Some? then Some(CheckpointOf(H, origin, c.trusted.value, before)) else None
  }

  function SubmissionOf(H: Hash, origin: string, c: LogCase, now: int): Submission {
    Submission(CheckpointOf(H, origin, c.candidate, now), c.signed, c.evidence)
  }

  predicate IsDiscontinuity(ruling: Ruling) {
    ruling.Retains? && (ruling.reason.Rollback? || ruling.reason.Fork? || ruling.reason.Contradiction?)
  }

  /** The verdict that a ruling stands for. */
  function VerdictOf(ruling: Ruling, trusted: Option<Checkpoint>, candidate: Checkpoint, fault: Fault): Verdict
    requires IsDiscontinuity(ruling) ==> trusted.Some?
  {
    match ruling
    case Advances => Accept
    case Retains(reason) =>
      match reason
      case BadEvidence => Reject(InvalidEvidence)
      case Rollback => Reject(LogRollback(trusted.value, candidate))
      case Fork => Reject(LogFork(trusted.value, candidate))
      case Contradiction => Reject(LogInconsistent(trusted.value, candidate))
      case NoEvidence => Reject(ConsistencyUnavailable)
      case StoreFault => Reject(Injected(fault))
      case FetchFault => Reject(Injected(fault))
  }

  lemma SameRootSameLog(H: Hash, a: seq<Bytes>, b: seq<Bytes>)
    requires LogClash(H, a, b).None?
    ensures LogRoot(H, a) == LogRoot(H, b) <==> a == b
  {
    if LogRoot(H, a) == LogRoot(H, b) {
      LogRootBinds(H, a, b);
    }
  }

  lemma AuthenticByLogs(H: Hash, origin: string, c: LogCase, now: int)
    requires CaseClash(H, c).None?
    ensures Authenticate(H, origin, SubmissionOf(H, origin, c, now))
         == if Authentic(c) then Accept else Reject(InvalidEvidence)
  {
    if c.evidence.Scan? {
      SameRootSameLog(H, c.evidence.entries, c.candidate);
    }
  }

  /** A proof between two logs is accepted exactly if it is the generated one and the old log is a prefix. */
  lemma ProofByLogs(H: Hash, a: seq<Bytes>, b: seq<Bytes>, nodes: seq<Digest>)
    requires 0 < |a| <= |b| && HistoryClash(H, a, b, nodes).None?
    ensures Accepts(H, |a|, |b|, LogRoot(H, a), LogRoot(H, b), nodes)
       <==> a == b[..|a|] && nodes == ConsistencyProof(H, LeafHashes(H, b), |a|)
  {
    LeafHashesSplit(H, b, |a|);
    if Accepts(H, |a|, |b|, LogRoot(H, a), LogRoot(H, b), nodes) {
      ConsistencyForcesPrefix(H, a, b, nodes);
      ConsistencySound(H, LeafHashes(H, b), |a|, LogRoot(H, a), nodes);
    }
    if a == b[..|a|] {
      ConsistencyComplete(H, LeafHashes(H, b), |a|);
    }
  }

  /** The verdict on the logs of a case, without authentication and store. */
  predicate ContinuityFits(H: Hash, origin: string, a: seq<Bytes>, c: LogCase, before: int, now: int)
    requires c.trusted == Some(a)
  {
    Continuity(H, TrustedOf(H, origin, c, before), SubmissionOf(H, origin, c, now), c.fault)
      == VerdictOf(Continues(H, a, c), TrustedOf(H, origin, c, before),
                   CheckpointOf(H, origin, c.candidate, now), c.fault)
  }

  lemma ContinuityBySize(H: Hash, origin: string, a: seq<Bytes>, c: LogCase, before: int, now: int)
    requires CaseClash(H, c).None? && c.trusted == Some(a) && (a == [] || |c.candidate| <= |a|)
    ensures ContinuityFits(H, origin, a, c, before, now)
  {
    if |a| == |c.candidate| {
      assert c.candidate[..|a|] == c.candidate;
      SameRootSameLog(H, a, c.candidate);
    }
  }

  lemma NoPrefixClash(H: Hash, c: LogCase)
    requires CaseClash(H, c).None? && c.trusted.Some? && |c.trusted.value| <= |c.candidate|
    ensures LogClash(H, c.trusted.value, c.candidate[..|c.trusted.value|]).None?
  {
  }

  lemma ContinuityByScan(H: Hash, origin: string, a: seq<Bytes>, c: LogCase, before: int, now: int)
    requires CaseClash(H, c).None? && c.trusted == Some(a) && 0 < |a| < |c.candidate|
    requires c.evidence == Scan(c.candidate)
    ensures ContinuityFits(H, origin, a, c, before, now)
  {
    NoPrefixClash(H, c);
    SameRootSameLog(H, a, c.candidate[..|a|]);
  }

  lemma ContinuityByProof(H: Hash, origin: string, a: seq<Bytes>, c: LogCase, before: int, now: int)
    requires CaseClash(H, c).None? && c.trusted == Some(a) && 0 < |a| < |c.candidate| && c.evidence.Proof?
    ensures ContinuityFits(H, origin, a, c, before, now)
  {
    ProofByLogs(H, a, c.candidate, c.evidence.nodes);
  }

  lemma ContinuityByLogs(H: Hash, origin: string, a: seq<Bytes>, c: LogCase, before: int, now: int)
    requires CaseClash(H, c).None? && c.trusted == Some(a) && Authentic(c)
    ensures ContinuityFits(H, origin, a, c, before, now)
  {
    if a == [] || |c.candidate| <= |a| {
      ContinuityBySize(H, origin, a, c, before, now);
    } else if c.evidence.Scan? {
      ContinuityByScan(H, origin, a, c, before, now);
    } else if c.evidence.Proof? {
      ContinuityByProof(H, origin, a, c, before, now);
    }
  }

  /**
    The verdict on a case is what its raw logs deserve: a scan that is not the candidate is bad evidence, a
    shorter log a rollback, another log of the same length a fork, a longer log that does not continue the
    trusted one a contradiction, and so is any proof but the generated one; or the case holds a collision.
   */
  lemma VerdictByLogs(H: Hash, origin: string, c: LogCase, before: int, now: int)
    requires CaseClash(H, c).None?
    ensures Outcome(H, origin, TrustedOf(H, origin, c, before), SubmissionOf(H, origin, c, now), c.fault)
         == VerdictOf(RulingOf(H, c), TrustedOf(H, origin, c, before),
                      CheckpointOf(H, origin, c.candidate, now), c.fault)
  {
    AuthenticByLogs(H, origin, c, now);
    if Authentic(c) && c.trusted.Some? {
      ContinuityByLogs(H, origin, c.trusted.value, c, before, now);
    }
  }

  function SeedOf(H: Hash, origin: string, c: LogCase, before: int): Option<Submission> {
    if c.trusted.Some? then Some(ScanOf(H, origin, c.trusted.value, before)) else None
  }

  /** The whole run of a case over raw logs: verdict, store, proof requests and preserved cause. */
  lemma RunByLogs(H: Hash, origin: string, c: LogCase, before: int, now: int)
    requires CaseClash(H, c).None?
    ensures var trusted, candidate := TrustedOf(H, origin, c, before), CheckpointOf(H, origin, c.candidate, now);
      var verdict := VerdictOf(RulingOf(H, c), trusted, candidate, c.fault);
      RunCase(H, origin, SeedOf(H, origin, c, before), SubmissionOf(H, origin, c, now), c.fault)
        == Ran(verdict, if RulingOf(H, c).Advances? then Some(candidate) else trusted,
               if AsksForProof(c) then 1 else 0, CausePreserved(verdict))
  {
    VerdictByLogs(H, origin, c, before, now);
    AuthenticByLogs(H, origin, c, now);
    if c.trusted.Some? {
      SeedAccepted(H, origin, c.trusted.value, before);
    }
  }

  // ----- When a claim is met -----

  /** A case with the category that its author claims, if any. */
  datatype Claim = Claim(c: LogCase, category: Option<Category>)

  /** The category of a ruling. */
  function CategoryBy(ruling: Ruling): Option<Category> {
    match ruling
    case Advances => None
    case Retains(reason) =>
      match reason
      case BadEvidence => Some(EvidenceCategory)
      case Rollback => Some(RollbackCategory)
      case Fork => Some(ForkCategory)
      case Contradiction => Some(InconsistentCategory)
      case StoreFault => Some(StoreCategory)
      case NoEvidence => None
      case FetchFault => None
  }

  /** A claim that a ruling, the evidence and the fault of its case bear out. */
  predicate Warrants(claim: Claim, ruling: Ruling) {
    var Claim(c, category) := claim;
    && (category.Some? ==> CategoryBy(ruling) == category)
    && (c.fault.LoadFault? || c.fault.WriteFault? ==> ruling == Retains(StoreFault))
    && (c.fault.ProofFetchFault? ==> ruling == Retains(FetchFault))
    && (c.evidence.Missing? ==> ruling == Retains(NoEvidence))
    && (category.None? && c.fault.NoFault? && !c.evidence.Missing? ==> ruling == Advances)
    && (c.evidence.Proof? ==> AsksForProof(c))
  }

  /** A claim that the raw logs of its case make true. */
  predicate Truthful(H: Hash, claim: Claim) {
    Warrants(claim, RulingOf(H, claim.c))
  }

  /** A continuity category speaks of a trusted checkpoint. */
  predicate Claimable(claim: Claim) {
    claim.category.Some? && IsContinuity(claim.category.value) ==> claim.c.trusted.Some?
  }

  /** What a run that follows a ruling reports. */
  function RunBy(
    ruling: Ruling, trusted: Option<Checkpoint>, candidate: Checkpoint, fault: Fault, asks: bool): CaseResult
    requires IsDiscontinuity(ruling) ==> trusted.Some?
  {
    var verdict := VerdictOf(ruling, trusted, candidate, fault);
    Ran(verdict, if ruling.Advances? then Some(candidate) else trusted, if asks then 1 else 0, CausePreserved(verdict))
  }

  /** Rulings that a case can have. */
  predicate Possible(c: LogCase, ruling: Ruling) {
    && (ruling == Retains(StoreFault) ==> c.fault.LoadFault? || c.fault.WriteFault?)
    && (ruling == Retains(FetchFault) ==> c.fault.ProofFetchFault?)
    && (IsDiscontinuity(ruling) ==> c.trusted.Some?)
  }

  /** The claim is met by a run that follows a ruling. */
  predicate MetBy(claim: Claim, ruling: Ruling, trusted: Option<Checkpoint>, candidate: Checkpoint)
    requires Claimable(claim) && Possible(claim.c, ruling) && (trusted.Some? <==> claim.c.trusted.Some?)
  {
    var c := claim.c;
    Meets(RunBy(ruling, trusted, candidate, c.fault, AsksForProof(c)),
          Contract(trusted, Submission(candidate, c.signed, c.evidence), claim.category, c.fault))
  }

  lemma AdvanceMeets(claim: Claim, trusted: Option<Checkpoint>, candidate: Checkpoint)
    requires Claimable(claim) && (trusted.Some? <==> claim.c.trusted.Some?)
    ensures MetBy(claim, Advances, trusted, candidate) == Warrants(claim, Advances)
  {
  }

  lemma RetentionMeets(claim: Claim, reason: Reason, trusted: Option<Checkpoint>, candidate: Checkpoint)
    requires Claimable(claim) && Possible(claim.c, Retains(reason)) && (trusted.Some? <==> claim.c.trusted.Some?)
    ensures MetBy(claim, Retains(reason), trusted, candidate) == Warrants(claim, Retains(reason))
  {
  }

  /** The run of a claim's case has every field that the generator writes down for it. */
  predicate IsMet(H: Hash, origin: string, claim: Claim, before: int, now: int)
    requires Claimable(claim)
  {
    var c := claim.c;
    var s := SubmissionOf(H, origin, c, now);
    Meets(RunCase(H, origin, SeedOf(H, origin, c, before), s, c.fault),
          Contract(TrustedOf(H, origin, c, before), s, claim.category, c.fault))
  }

  lemma IsMetBy(H: Hash, origin: string, claim: Claim, before: int, now: int)
    requires Claimable(claim) && CaseClash(H, claim.c).None?
    ensures Possible(claim.c, RulingOf(H, claim.c))
    ensures IsMet(H, origin, claim, before, now)
         == MetBy(claim, RulingOf(H, claim.c), TrustedOf(H, origin, claim.c, before),
                  CheckpointOf(H, origin, claim.c.candidate, now))
  {
    RunByLogs(H, origin, claim.c, before, now);
  }

  /** The adapters meet what the generator writes down for a claim if and only if the claim is true. */
  lemma ContractMetIffTruthful(H: Hash, origin: string, claim: Claim, before: int, now: int)
    requires Claimable(claim) && CaseClash(H, claim.c).None?
    ensures IsMet(H, origin, claim, before, now) <==> Truthful(H, claim)
  {
    IsMetBy(H, origin, claim, before, now);
    var trusted, candidate := TrustedOf(H, origin, claim.c, before), CheckpointOf(H, origin, claim.c.candidate, now);
    match RulingOf(H, claim.c)
    case Advances => AdvanceMeets(claim, trusted, candidate);
    case Retains(reason) => RetentionMeets(claim, reason, trusted, candidate);
  }

  // ----- The generated cases -----

  /** The logs behind the generated cases, and the evidence that they tamper with. */
  datatype Material = Material(
    first: seq<Bytes>, grown: seq<Bytes>, other: seq<Bytes>, wrongScan: seq<Bytes>, wrongNodes: seq<Digest>)

  /**
    The first log is a proper part of the grown one, another log of its length differs from it, the wrong scan
    is not the grown log, and the wrong nodes are not its proof.
   */
  predicate Suitable(H: Hash, m: Material) {
    && 0 < |m.first| < |m.grown| && m.first == m.grown[..|m.first|]
    && |m.other| == |m.first| && m.other != m.first && m.wrongScan != m.grown
    && m.wrongNodes != ConsistencyProof(H, LeafHashes(H, m.grown), |m.first|)
  }

  predicate AllTruthful(H: Hash, cases: seq<Claim>) {
    forall i :: 0 <= i < |cases| ==> Claimable(cases[i]) && Truthful(H, cases[i])
  }

  function Categories(cases: seq<Claim>): (categories: seq<Option<Category>>)
    ensures |categories| == |cases| && forall i :: 0 <= i < |cases| ==> categories[i] == cases[i].category
  {
    seq(|cases|, i requires 0 <= i < |cases| => cases[i].category)
  }

  /** Adds one case, with the category that its author claims, to the list. */
  method Add(H: Hash, cases: seq<Claim>, c: LogCase, category: Option<Category>) returns (more: seq<Claim>)
    requires AllTruthful(H, cases) && Claimable(Claim(c, category)) && Truthful(H, Claim(c, category))
    ensures AllTruthful(H, more) && Categories(more) == Categories(cases) + [category]
  {
    more := cases + [Claim(c, category)];
  }

  /** First contact, repetition, growth, a rollback and a fork. */
  method AddMoves(H: Hash, m: Material) returns (cases: seq<Claim>)
    requires Suitable(H, m)
    ensures AllTruthful(H, cases)
    ensures Categories(cases) == [None, None, None, None, Some(RollbackCategory), Some(ForkCategory)]
  {
    var first, scan := Some(m.first), Scan(m.first);
    var nodes := ConsistencyProof(H, LeafHashes(H, m.grown), |m.first|);
    cases := Add(H, [], LogCase(None, m.first, true, scan, NoFault), None);
    cases := Add(H, cases, LogCase(first, m.first, true, scan, NoFault), None);
    cases := Add(H, cases, LogCase(first, m.grown, true, Proof(nodes), NoFault), None);
    cases := Add(H, cases, LogCase(first, m.grown, true, Scan(m.grown), NoFault), None);
    cases := Add(H, cases, LogCase(Some(m.grown), m.first, true, scan, NoFault), Some(RollbackCategory));
    cases := Add(H, cases, LogCase(Some(m.other), m.first, true, scan, NoFault), Some(ForkCategory));
  }

  /** Wrong, contradictory, incomplete and missing evidence. */
  method AddEvidence(H: Hash, m: Material) returns (cases: seq<Claim>)
    requires Suitable(H, m)
    ensures AllTruthful(H, cases)
    ensures Categories(cases) == [Some(InconsistentCategory), Some(InconsistentCategory), Some(EvidenceCategory),
                                  Some(EvidenceCategory), None]
  {
    var first, other := Some(m.first), Some(m.other);
    cases := Add(H, [], LogCase(first, m.grown, true, Proof(m.wrongNodes), NoFault), Some(InconsistentCategory));
    cases := Add(H, cases, LogCase(other, m.grown, true, Scan(m.grown), NoFault), Some(InconsistentCategory));
    cases := Add(H, cases, LogCase(first, m.grown, true, Scan(m.grown[..1]), NoFault), Some(EvidenceCategory));
    cases := Add(H, cases, LogCase(first, m.grown, true, Scan(m.wrongScan), NoFault), Some(EvidenceCategory));
    cases := Add(H, cases, LogCase(first, m.grown, true, Missing, NoFault), None);
  }

  /** Injected faults, and a forged signature. */
  method AddFaults(H: Hash, m: Material) returns (cases: seq<Claim>)
    requires Suitable(H, m)
    ensures AllTruthful(H, cases)
    ensures Categories(cases) == [None, Some(StoreCategory), Some(StoreCategory), Some(EvidenceCategory)]
  {
    var first, scan := Some(m.first), Scan(m.grown);
    cases := Add(H, [], LogCase(first, m.grown, true, Proof([]), ProofFetchFault), None);
    cases := Add(H, cases, LogCase(first, m.grown, true, scan, LoadFault), Some(StoreCategory));
    cases := Add(H, cases, LogCase(first, m.grown, true, scan, WriteFault), Some(StoreCategory));
    cases := Add(H, cases, LogCase(first, m.grown, false, scan, NoFault), Some(EvidenceCategory));
  }

  lemma Joined(H: Hash, xs: seq<Claim>, ys: seq<Claim>)
    requires AllTruthful(H, xs) && AllTruthful(H, ys)
    ensures AllTruthful(H, xs + ys) && Categories(xs + ys) == Categories(xs) + Categories(ys)
  {
  }

  /** The categories that the generator claims, case by case. */
  const CLAIMED: seq<Option<Category>> :=
    [None, None, None, None, Some(RollbackCategory), Some(ForkCategory)]
    + [Some(InconsistentCategory), Some(InconsistentCategory), Some(EvidenceCategory), Some(EvidenceCategory), None]
    + [None, Some(StoreCategory), Some(StoreCategory), Some(EvidenceCategory)]

  /** The generator's list of cases: every one of them claims what its logs make true. */
  method GenerateCheckpoints(H: Hash, m: Material) returns (cases: seq<Claim>)
    requires Suitable(H, m)
    ensures AllTruthful(H, cases) && Categories(cases) == CLAIMED
  {
    var moves := AddMoves(H, m);
    var evidence := AddEvidence(H, m);
    var faults := AddFaults(H, m);
    Joined(H, moves, evidence);
    Joined(H, moves + evidence, faults);
    cases := moves + evidence + faults;
  }

  // ----- Claims that no adapter can meet -----

  /** A proof case whose candidate is the trusted checkpoint itself: nothing asks for the proof. */
  lemma SameCheckpointByProofFails(H: Hash, origin: string, log: seq<Bytes>, before: int, now: int)
    ensures !IsMet(H, origin, Claim(LogCase(Some(log), log, true, Proof([]), NoFault), None), before, now)
  {
  }

  /** A write fault behind a rollback: the run never reaches it, so its cause cannot be preserved. */
  lemma WriteFaultBehindRollbackFails(
    H: Hash, origin: string, a: seq<Bytes>, b: seq<Bytes>, category: Option<Category>, before: int, now: int)
    requires |b| < |a|
    ensures !IsMet(H, origin, Claim(LogCase(Some(a), b, true, Scan(b), WriteFault), category), before, now)
  {
    SeedAccepted(H, origin, a, before);
  }
}
