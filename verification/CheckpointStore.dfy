/**
  The trusted-checkpoint store behind the checkpoint adapters: load, verify continuity, compare and swap,
  with injected faults, and the run of a checkpoint case against it.
 */
module CheckpointStore {
  import opened Options
  import opened Hashing
  import opened MerkleTree
  import opened Consistency

  datatype Checkpoint = Checkpoint(origin: string, size: nat, root: Digest, witnessTime: int)

  /** How a submission shows that its checkpoint extends the trusted one. */
  datatype Evidence = Scan(entries: seq<Bytes>) | Proof(nodes: seq<Digest>) | Missing

  datatype Fault = NoFault | LoadFault | WriteFault | ProofFetchFault

  /** A candidate checkpoint, whether its signatures verify, and its consistency evidence. */
  datatype Submission = Submission(candidate: Checkpoint, signed: bool, evidence: Evidence)

  datatype Failure =
    | InvalidEvidence
    | LogRollback(trusted: Checkpoint, observed: Checkpoint)
    | LogFork(trusted: Checkpoint, observed: Checkpoint)
    | LogInconsistent(trusted: Checkpoint, observed: Checkpoint)
    | ConsistencyUnavailable
    | Injected(fault: Fault)

  datatype Verdict = Accept | Reject(failure: Failure)

  function Current(stored: map<string, Checkpoint>, origin: string): Option<Checkpoint> {
    if origin in stored then Some(stored[origin]) else None
  }

  /** The candidate on its own: signatures, origin, the empty root, and a scan that reproduces the root. */
  function Authenticate(H: Hash, origin: string, s: Submission): Verdict {
    if !s.signed || s.candidate.origin != origin then Reject(InvalidEvidence)
    else if s.candidate.size == 0 && s.candidate.root != H(Empty) then Reject(InvalidEvidence)
    else if s.evidence.Scan? &&
            (|s.evidence.entries| != s.candidate.size || LogRoot(H, s.evidence.entries) != s.candidate.root) then
      Reject(InvalidEvidence)
    else Accept
  }

  /** A candidate that grows a nonempty trusted tree is the only one that needs consistency evidence. */
  predicate Growth(trusted: Option<Checkpoint>, candidate: Checkpoint) {
    trusted.Some? && 0 < trusted.value.size < candidate.size
  }

  /** The candidate against the trusted checkpoint. */
  function Continuity(H: Hash, trusted: Option<Checkpoint>, s: Submission, fault: Fault): Verdict {
    if trusted.None? then Accept
    else
      var t, c := trusted.value, s.candidate;
      if c.size < t.size then Reject(LogRollback(t, c))
      else if c.size == t.size then
        if c.root == t.root then Accept else Reject(LogFork(t, c))
      else if t.size == 0 then Accept
      else
        match s.evidence
        case Scan(entries) =>
          if t.size <= |entries| && LogRoot(H, entries[..t.size]) == t.root then Accept
          else Reject(LogInconsistent(t, c))
        case Proof(nodes) =>
          if fault.ProofFetchFault? then Reject(Injected(fault))
          else if Accepts(H, t.size, c.size, t.root, c.root, nodes) then Accept
          else Reject(LogInconsistent(t, c))
        case Missing => Reject(ConsistencyUnavailable)
  }

  /** One verification from an undisturbed store: authenticate, load, check continuity, write. */
  function Outcome(H: Hash, origin: string, trusted: Option<Checkpoint>, s: Submission, fault: Fault): Verdict {
    if Authenticate(H, origin, s).Reject? then Authenticate(H, origin, s)
    else if fault.LoadFault? then Reject(Injected(fault))
    else if Continuity(H, trusted, s, fault).Reject? then Continuity(H, trusted, s, fault)
    else if fault.WriteFault? then Reject(Injected(fault))
    else Accept
  }

  /** Whether a verification reaches the proof source. */
  predicate ProofRequested(H: Hash, origin: string, trusted: Option<Checkpoint>, s: Submission, fault: Fault) {
    && Authenticate(H, origin, s).Accept? && !fault.LoadFault?
    && Growth(trusted, s.candidate) && s.evidence.Proof?
  }

  datatype Loaded = LoadFailed | Found(checkpoint: Option<Checkpoint>)

  datatype Swapped = SwapFailed | Lost | Done

  /** The store with the fault switch that the adapters wrap around it. */
  class FaultStore {
    var stored: map<string, Checkpoint>
    var fault: Fault

    constructor ()
      ensures stored == map[] && fault == NoFault
    {
      stored, fault := map[], NoFault;
    }

    method Load(origin: string) returns (r: Loaded)
      ensures r == if fault.LoadFault? then LoadFailed else Found(Current(stored, origin))
    {
      if fault.LoadFault? {
        return LoadFailed;
      }
      return Found(Current(stored, origin));
    }

    /** Writes only over exactly the expected state; a failed write and a lost race write nothing. */
    method CompareAndSwap(origin: string, expected: Option<Checkpoint>, next: Checkpoint) returns (r: Swapped)
      requires next.origin == origin
      modifies this`stored
      ensures r.SwapFailed? <==> fault.WriteFault?
      ensures r.Lost? <==> !fault.WriteFault? && Current(old(stored), origin) != expected
      ensures stored == if r.Done? then old(stored)[origin := next] else old(stored)
    {
      if fault.WriteFault? {
        return SwapFailed;
      }
      if Current(stored, origin) != expected {
        return Lost;
      }
      stored := stored[origin := next];
      return Done;
    }

    /** The optimistic client: load, verify, compare and swap. */
    method VerifyOptimistically(H: Hash, origin: string, s: Submission) returns (v: Verdict, requested: bool)
      modifies this`stored
      ensures v == Outcome(H, origin, Current(old(stored), origin), s, fault)
      ensures requested == ProofRequested(H, origin, Current(old(stored), origin), s, fault)
      ensures stored == if v.Accept? then old(stored)[origin := s.candidate] else old(stored)
    {
      v, requested := Authenticate(H, origin, s), false;
      if v.Reject? {
        return;
      }
      var loaded := Load(origin);
      if loaded.LoadFailed? {
        return Reject(Injected(fault)), false;
      }
      requested := Growth(loaded.checkpoint, s.candidate) && s.evidence.Proof?;
      v := Continuity(H, loaded.checkpoint, s, fault);
      if v.Reject? {
        return;
      }
      var swapped := CompareAndSwap(origin, loaded.checkpoint, s.candidate);
      if swapped.SwapFailed? {
        v := Reject(Injected(fault));
      }
    }

    /** The locking client: the same check and the same write inside one protected operation. */
    method VerifyAndAdvance(H: Hash, origin: string, s: Submission) returns (v: Verdict, requested: bool)
      modifies this`stored
      ensures v == Outcome(H, origin, Current(old(stored), origin), s, fault)
      ensures requested == ProofRequested(H, origin, Current(old(stored), origin), s, fault)
      ensures stored == if v.Accept? then old(stored)[origin := s.candidate] else old(stored)
    {
      v, requested := Authenticate(H, origin, s), false;
      if v.Reject? {
        return;
      }
      if fault.LoadFault? {
        return Reject(Injected(fault)), false;
      }
      var current := Current(stored, origin);
      requested := Growth(current, s.candidate) && s.evidence.Proof?;
      v := Continuity(H, current, s, fault);
      if v.Reject? {
        return;
      }
      if fault.WriteFault? {
        return Reject(Injected(fault)), requested;
      }
      stored := stored[origin := s.candidate];
    }
  }

  // ----- One checkpoint case: a trusted seed, then the candidate under a fault -----

  datatype CaseResult =
    | AdapterError
    | Ran(verdict: Verdict, stored: Option<Checkpoint>, proofRequests: nat, causePreserved: bool)

  function CausePreserved(v: Verdict): bool {
    v.Reject? && v.failure.Injected?
  }

  /** The trusted checkpoint that a seed leaves behind, if the seed verifies. */
  function Seeded(H: Hash, origin: string, seed: Option<Submission>): Option<Option<Checkpoint>> {
    if seed.None? then Some(None)
    else if Outcome(H, origin, None, seed.value, NoFault).Accept? then Some(Some(seed.value.candidate))
    else None
  }

  function RunCase(H: Hash, origin: string, seed: Option<Submission>, s: Submission, fault: Fault): CaseResult {
    match Seeded(H, origin, seed)
    case None => AdapterError
    case Some(trusted) =>
      var v := Outcome(H, origin, trusted, s, fault);
      Ran(v, if v.Accept? then Some(s.candidate) else trusted,
          if ProofRequested(H, origin, trusted, s, fault) then 1 else 0, CausePreserved(v))
  }

  /**
    Runs a case on a fresh store. Whether the client locks or swaps makes no difference. The stored
    checkpoint is read back after the run, never inferred from the verdict.
   */
  method VerifyCheckpointCase(
    H: Hash, origin: string, seed: Option<Submission>, s: Submission, fault: Fault, locking: bool)
    returns (result: CaseResult)
    requires seed.Some? ==> seed.value.evidence.Scan?
    ensures result == RunCase(H, origin, seed, s, fault)
  {
    var store := new FaultStore();
    var proofRequests := 0;
    var v, requested;
    if seed.Some? {
      if locking {
        v, requested := store.VerifyAndAdvance(H, origin, seed.value);
      } else {
        v, requested := store.VerifyOptimistically(H, origin, seed.value);
      }
      if v.Reject? {
        return AdapterError;
      }
    }
    store.fault := fault;
    if locking {
      v, requested := store.VerifyAndAdvance(H, origin, s);
    } else {
      v, requested := store.VerifyOptimistically(H, origin, s);
    }
    if requested {
      proofRequests := proofRequests + 1;
    }
    return Ran(v, Current(store.stored, origin), proofRequests, CausePreserved(v));
  }
}
