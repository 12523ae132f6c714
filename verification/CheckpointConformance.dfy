/** Histories of one log, and the cases of the consistency suite, run against the store. */
module CheckpointConformance {
  import opened Options
  import opened Hashing
  import opened MerkleTree
  import opened Consistency
  import opened LogFixtures
  import opened CheckpointStore

  /** The checkpoint of a log. */
  function CheckpointOf(H: Hash, origin: string, log: seq<Bytes>, time: int): Checkpoint {
    Checkpoint(origin, |log|, LogRoot(H, log), time)
  }

  function ScanOf(H: Hash, origin: string, log: seq<Bytes>, time: int): Submission {
    Submission(CheckpointOf(H, origin, log, time), true, Scan(log))
  }

  /** The checkpoint of a log with the generated proof from size m, where one is defined. */
  function ProofOf(H: Hash, origin: string, log: seq<Bytes>, m: nat, time: int): Submission
    requires m <= |log|
  {
    var nodes := if m == 0 then [] else ConsistencyProof(H, LeafHashes(H, log), m);
    Submission(CheckpointOf(H, origin, log, time), true, Proof(nodes))
  }

  /** A scanned log is a good seed. */
  lemma SeedAccepted(H: Hash, origin: string, log: seq<Bytes>, time: int)
    ensures Outcome(H, origin, None, ScanOf(H, origin, log, time), NoFault).Accept?
  {
  }

  /**
    Honest growth: whatever the store last accepted of a log, any later state of the same log is accepted, with
    a scan or with the generated proof, and the first checkpoint of an origin needs no evidence of growth.
   */
  lemma HonestGrowthAdvances(H: Hash, origin: string, log: seq<Bytes>, m: nat, before: int, now: int)
    requires m <= |log|
    ensures var trusted := CheckpointOf(H, origin, log[..m], before);
      && Outcome(H, origin, None, ScanOf(H, origin, log, now), NoFault).Accept?
      && Outcome(H, origin, Some(trusted), ScanOf(H, origin, log, now), NoFault).Accept?
      && Outcome(H, origin, Some(trusted), ProofOf(H, origin, log, m, now), NoFault).Accept?
  {
    assert log[..|log|] == log;
    if 0 < m {
      LeafHashesSplit(H, log, m);
      ConsistencyComplete(H, LeafHashes(H, log), m);
    }
  }

  /** A proof submission that grows a seeded store runs as its proof decides. */
  lemma ProofRuns(H: Hash, origin: string, seed: Submission, candidate: Checkpoint, nodes: seq<Digest>)
    requires Outcome(H, origin, None, seed, NoFault).Accept?
    requires candidate.origin == origin && 0 < seed.candidate.size < candidate.size
    ensures RunCase(H, origin, Some(seed), Submission(candidate, true, Proof(nodes)), NoFault)
         == if Accepts(H, seed.candidate.size, candidate.size, seed.candidate.root, candidate.root, nodes)
            then Ran(Accept, Some(candidate), 1, false)
            else Ran(Reject(LogInconsistent(seed.candidate, candidate)), Some(seed.candidate), 1, false)
  {
  }

  lemma PrefixRoot(H: Hash, log: seq<Bytes>, m: nat)
    requires m <= |log|
    ensures LogRoot(H, log[..m]) == Tree(H, LeafHashes(H, log)[..m])
  {
    LeafHashesSplit(H, log, m);
  }

  /** What a case of the suite claims about the roots of a log. */
  predicate HoldsOf(H: Hash, log: seq<Bytes>, c: Case) {
    && 1 <= c.m < c.n <= |log|
    && var trusted, root := LogRoot(H, log[..c.m]), LogRoot(H, log[..c.n]);
       && (c.ok ==> Accepts(H, c.m, c.n, trusted, root, c.proof))
       && (!c.ok && Accepts(H, c.m, c.n, trusted, root, c.proof) ==>
             ProofClash(H, LeafHashes(H, log)[..c.n], c.m, true, trusted, c.proof).Some?)
  }

  lemma CaseHoldsOf(H: Hash, log: seq<Bytes>, c: Case)
    requires CaseHolds(H, LeafHashes(H, log), c)
    ensures HoldsOf(H, log, c)
  {
    PrefixRoot(H, log, c.m);
    PrefixRoot(H, log, c.n);
  }

  /** A case runs to its expectation, or its changed proof contains a collision. */
  predicate RunsAsExpected(H: Hash, origin: string, log: seq<Bytes>, c: Case, before: int, now: int) {
    && 1 <= c.m < c.n <= |log|
    && var seed, candidate := ScanOf(H, origin, log[..c.m], before), CheckpointOf(H, origin, log[..c.n], now);
       var result := RunCase(H, origin, Some(seed), Submission(candidate, true, Proof(c.proof)), NoFault);
       || result == (if c.ok then Ran(Accept, Some(candidate), 1, false)
                     else Ran(Reject(LogInconsistent(seed.candidate, candidate)), Some(seed.candidate), 1, false))
       || (!c.ok && ProofClash(H, LeafHashes(H, log)[..c.n], c.m, true, seed.candidate.root, c.proof).Some?)
  }

  lemma HeldCaseRuns(H: Hash, origin: string, log: seq<Bytes>, c: Case, before: int, now: int)
    requires HoldsOf(H, log, c)
    ensures RunsAsExpected(H, origin, log, c, before, now)
  {
    SeedAccepted(H, origin, log[..c.m], before);
    ProofRuns(H, origin, ScanOf(H, origin, log[..c.m], before), CheckpointOf(H, origin, log[..c.n], now), c.proof);
  }

  /**
    Every case of the consistency suite, run against the store: a valid proof advances it to the candidate,
    any other proof is rejected as inconsistent and leaves the trusted checkpoint, and the proof source is asked
    once; or a changed proof contains a collision.
   */
  lemma SuiteCaseRuns(H: Hash, origin: string, log: seq<Bytes>, c: Case, before: int, now: int)
    requires c in AllCases(H, LeafHashes(H, log), |log|)
    ensures RunsAsExpected(H, origin, log, c, before, now)
  {
    AllCasesHold(H, LeafHashes(H, log), |log|, c);
    CaseHoldsOf(H, log, c);
    HeldCaseRuns(H, origin, log, c, before, now);
  }
}
