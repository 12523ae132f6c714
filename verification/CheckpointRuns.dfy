/**
  Whole runs of a trusted-checkpoint store: any number of clients, any interleaving of their load, verify and
  compare-and-swap steps, any evidence and any injected fault.
 */
module CheckpointRuns {
  import opened Options
  import opened Hashing
  import opened MerkleTree
  import opened Consistency
  import opened CheckpointStore

  /** A request in flight: what it submits, under which fault, and the checkpoint it loaded. */
  datatype Request = Request(origin: string, submission: Submission, fault: Fault, loaded: Option<Checkpoint>)

  datatype Client = Idle | Loaded(request: Request) | Verified(request: Request)

  /** One successful write: what it replaced, and the submission it published. */
  datatype Write = Write(previous: Option<Checkpoint>, submission: Submission)

  datatype World = World(
    stored: map<string, Checkpoint>,
    clients: map<nat, Client>,
    history: map<string, seq<Write>>)

  datatype Step =
    | Begin(client: nat, origin: string, submission: Submission, fault: Fault)
    | Verify(client: nat)
    | Swap(client: nat)

  const Init := World(map[], map[], map[])

  function ClientAt(w: World, client: nat): Client {
    if client in w.clients then w.clients[client] else Idle
  }

  function HistoryOf(w: World, origin: string): seq<Write> {
    if origin in w.history then w.history[origin] else []
  }

  /** Authenticates and loads. */
  function Start(H: Hash, w: World, origin: string, s: Submission, fault: Fault): Client {
    if Authenticate(H, origin, s).Reject? || fault.LoadFault? then Idle
    else Loaded(Request(origin, s, fault, Current(w.stored, origin)))
  }

  /**
    One atomic step. A step that its client is not ready for changes nothing. A lost race starts over from
    the winning state.
   */
  function Next(H: Hash, w: World, step: Step): World {
    match step
    case Begin(client, origin, s, fault) =>
      w.(clients := w.clients[client := Start(H, w, origin, s, fault)])
    case Verify(client) =>
      (match ClientAt(w, client)
       case Loaded(q) =>
         var checked := Continuity(H, q.loaded, q.submission, q.fault).Accept?;
         w.(clients := w.clients[client := if checked then Verified(q) else Idle])
       case _ => w)
    case Swap(client) =>
      (match ClientAt(w, client)
       case Verified(q) =>
         if q.fault.WriteFault? then w.(clients := w.clients[client := Idle])
         else if Current(w.stored, q.origin) != q.loaded then
           w.(clients := w.clients[client := Start(H, w, q.origin, q.submission, q.fault)])
         else
           World(w.stored[q.origin := q.submission.candidate],
                 w.clients[client := Idle],
                 w.history[q.origin := HistoryOf(w, q.origin) + [Write(q.loaded, q.submission)]])
       case _ => w)
  }

  function Run(H: Hash, steps: seq<Step>): World {
    if steps == [] then Init else Next(H, Run(H, steps[..|steps| - 1]), steps[|steps| - 1])
  }

  // ----- What every step keeps -----

  /** A write whose submission is authentic and continues what it replaced. */
  predicate Justified(H: Hash, origin: string, write: Write) {
    && Authenticate(H, origin, write.submission).Accept?
    && Continuity(H, write.previous, write.submission, NoFault).Accept?
  }

  function CheckpointAt(chain: seq<Write>, i: nat): Checkpoint
    requires i < |chain|
  {
    chain[i].submission.candidate
  }

  /** The checkpoint before write i: the one stored by write i - 1, or none. */
  function Before(chain: seq<Write>, i: nat): Option<Checkpoint>
    requires i <= |chain|
  {
    if i == 0 then None else Some(CheckpointAt(chain, i - 1))
  }

  /** Write i is justified and replaced exactly the checkpoint before it. */
  predicate LinkAt(H: Hash, origin: string, chain: seq<Write>, i: nat)
    requires i < |chain|
  {
    Justified(H, origin, chain[i]) && chain[i].previous == Before(chain, i)
  }

  predicate Chained(H: Hash, origin: string, chain: seq<Write>) {
    forall i :: 0 <= i < |chain| ==> LinkAt(H, origin, chain, i)
  }

  predicate Ready(H: Hash, client: Client) {
    match client
    case Idle => true
    case Loaded(q) => Authenticate(H, q.origin, q.submission).Accept?
    case Verified(q) => Justified(H, q.origin, Write(q.loaded, q.submission))
  }

  /**
    The inductive invariant: the store holds the last write of each origin, every write replaced its
    predecessor with justification, and a verified request is justified against what it loaded.
   */
  ghost predicate Inv(H: Hash, w: World) {
    && (forall origin :: Chained(H, origin, HistoryOf(w, origin)))
    && (forall origin :: Current(w.stored, origin) == Before(HistoryOf(w, origin), |HistoryOf(w, origin)|))
    && (forall client :: Ready(H, ClientAt(w, client)))
  }

  lemma ContinuityWithoutFault(H: Hash, trusted: Option<Checkpoint>, s: Submission, fault: Fault)
    requires Continuity(H, trusted, s, fault).Accept?
    ensures Continuity(H, trusted, s, NoFault).Accept?
  {
  }

  /**
    A step leaves the store of every origin alone, unless it is a swap of a verified request that meets its
    loaded state and no write fault; that step appends exactly its submission.
   */
  lemma StepWritesOnlyJustified(H: Hash, w: World, step: Step, origin: string)
    requires Inv(H, w)
    ensures var w' := Next(H, w, step);
      var written := step.Swap? && ClientAt(w, step.client).Verified?
        && var q := ClientAt(w, step.client).request;
           q.origin == origin && !q.fault.WriteFault? && q.loaded == Current(w.stored, origin);
      if written then
        var write := Write(Current(w.stored, origin), ClientAt(w, step.client).request.submission);
        && Justified(H, origin, write)
        && HistoryOf(w', origin) == HistoryOf(w, origin) + [write]
        && Current(w'.stored, origin) == Some(write.submission.candidate)
      else
        HistoryOf(w', origin) == HistoryOf(w, origin) && Current(w'.stored, origin) == Current(w.stored, origin)
  {
    if step.Swap? {
      assert Ready(H, ClientAt(w, step.client));
    }
  }

  lemma NextKeepsClients(H: Hash, w: World, step: Step, client: nat)
    requires forall c :: Ready(H, ClientAt(w, c))
    ensures Ready(H, ClientAt(Next(H, w, step), client))
  {
    var was := ClientAt(w, client);
    assert Ready(H, was);
    if step.Verify? && step.client == client && was.Loaded? {
      var q := was.request;
      if Continuity(H, q.loaded, q.submission, q.fault).Accept? {
        ContinuityWithoutFault(H, q.loaded, q.submission, q.fault);
      }
    }
  }

  /** The store keeps the last write of every origin; a written origin gets one more justified write. */
  lemma NextKeepsHistory(H: Hash, w: World, step: Step, origin: string)
    requires Inv(H, w)
    ensures var chain := HistoryOf(Next(H, w, step), origin);
      Chained(H, origin, chain) && Current(Next(H, w, step).stored, origin) == Before(chain, |chain|)
  {
    var chain, chain' := HistoryOf(w, origin), HistoryOf(Next(H, w, step), origin);
    assert Chained(H, origin, chain) && Current(w.stored, origin) == Before(chain, |chain|);
    StepWritesOnlyJustified(H, w, step, origin);
    if chain' != chain {
      var write := chain'[|chain|];
      assert chain' == chain + [write];
      forall i | 0 <= i < |chain'| ensures LinkAt(H, origin, chain', i) {
        if i < |chain| {
          assert LinkAt(H, origin, chain, i) && chain'[i] == chain[i];
        }
      }
    }
  }

  lemma NextKeepsInv(H: Hash, w: World, step: Step)
    requires Inv(H, w)
    ensures Inv(H, Next(H, w, step))
  {
    var w' := Next(H, w, step);
    forall client ensures Ready(H, ClientAt(w', client)) {
      NextKeepsClients(H, w, step, client);
    }
    forall origin
      ensures Chained(H, origin, HistoryOf(w', origin))
      ensures Current(w'.stored, origin) == Before(HistoryOf(w', origin), |HistoryOf(w', origin)|)
    {
      NextKeepsHistory(H, w, step, origin);
    }
  }

  lemma {:induction false} RunKeepsInv(H: Hash, steps: seq<Step>)
    ensures Inv(H, Run(H, steps))
  {
    if steps != [] {
      RunKeepsInv(H, steps[..|steps| - 1]);
      NextKeepsInv(H, Run(H, steps[..|steps| - 1]), steps[|steps| - 1]);
    }
  }

  /** An undisturbed client carries out exactly one verification of the store adapters. */
  lemma SoloRunIsOutcome(H: Hash, w: World, client: nat, origin: string, s: Submission, fault: Fault)
    ensures var w' := Next(H, Next(H, Next(H, w, Begin(client, origin, s, fault)), Verify(client)), Swap(client));
      && w'.stored == (if Outcome(H, origin, Current(w.stored, origin), s, fault).Accept?
                       then w.stored[origin := s.candidate] else w.stored)
      && ClientAt(w', client) == Idle
  {
    var w1 := Next(H, w, Begin(client, origin, s, fault));
    var w2 := Next(H, w1, Verify(client));
    assert ClientAt(w1, client) == Start(H, w, origin, s, fault) && w1.stored == w.stored;
    assert w2.stored == w.stored;
  }

  /**
    A client that lost a race writes nothing and, left alone from there, carries out one whole verification
    against the winning state.
   */
  lemma LostRaceReverifies(H: Hash, w: World, client: nat)
    requires ClientAt(w, client).Verified? && !ClientAt(w, client).request.fault.WriteFault?
    requires var q := ClientAt(w, client).request; q.loaded != Current(w.stored, q.origin)
    ensures var q := ClientAt(w, client).request;
      var lost := Next(H, w, Swap(client));
      && lost.stored == w.stored && lost.history == w.history
      && Next(H, Next(H, lost, Verify(client)), Swap(client)).stored
           == (if Outcome(H, q.origin, Current(w.stored, q.origin), q.submission, q.fault).Accept?
               then w.stored[q.origin := q.submission.candidate] else w.stored)
  {
    var q := ClientAt(w, client).request;
    assert Next(H, w, Swap(client)) == Next(H, w, Begin(client, q.origin, q.submission, q.fault));
    SoloRunIsOutcome(H, w, client, q.origin, q.submission, q.fault);
  }

  // ----- Append-only over whole runs -----

  /** A list of entries that a checkpoint commits to. */
  predicate Opens(H: Hash, checkpoint: Checkpoint, entries: seq<Bytes>) {
    |entries| == checkpoint.size && LogRoot(H, entries) == checkpoint.root
  }

  /** Searches the evidence of one write for a collision, given what its checkpoint commits to. */
  function LinkClash(H: Hash, write: Write, entries: seq<Bytes>): (found: Option<Pair>)
    ensures Genuine(H, found)
  {
    if write.previous.None? || !(0 < write.previous.value.size <= |entries|) then None
    else
      match write.submission.evidence
      case Scan(scanned) => LogClash(H, scanned, entries)
      case Proof(nodes) =>
        ProofClash(H, LeafHashes(H, entries), write.previous.value.size, true, write.previous.value.root, nodes)
      case Missing => None
  }

  /** A justified write that commits to a list replaced a checkpoint that commits to a prefix of it. */
  lemma LinkKeepsPrefix(H: Hash, origin: string, write: Write, entries: seq<Bytes>)
    requires Justified(H, origin, write) && write.previous.Some?
    requires write.previous.value.size == 0 ==> write.previous.value.root == H(Empty)
    requires Opens(H, write.submission.candidate, entries)
    requires LinkClash(H, write, entries).None?
    ensures write.previous.value.size <= |entries|
    ensures Opens(H, write.previous.value, entries[..write.previous.value.size])
  {
    var t := write.previous.value;
    if t.size == |entries| {
      assert entries[..t.size] == entries;
    } else if t.size > 0 {
      match write.submission.evidence
      case Scan(scanned) =>
        LogRootBinds(H, scanned, entries);
      case Proof(nodes) =>
        ConsistencySound(H, LeafHashes(H, entries), t.size, t.root, nodes);
        LeafHashesSplit(H, entries, t.size);
      case Missing =>
    }
  }

  /** Searches the writes after i, up to j, for a collision. */
  function ChainClash(H: Hash, chain: seq<Write>, i: nat, j: nat, entries: seq<Bytes>): (found: Option<Pair>)
    requires i <= j < |chain|
    ensures Genuine(H, found)
    decreases j
  {
    if i == j then None
    else
      var size := CheckpointAt(chain, j - 1).size;
      FirstOf(LinkClash(H, chain[j], entries),
              if size <= |entries| then ChainClash(H, chain, i, j - 1, entries[..size]) else None)
  }

  /** What write j shows about the checkpoint before it, when its own checkpoint commits to a list. */
  predicate LinkSound(H: Hash, chain: seq<Write>, j: nat, entries: seq<Bytes>)
    requires 0 < j < |chain|
  {
    var before := CheckpointAt(chain, j - 1);
    Opens(H, CheckpointAt(chain, j), entries) && LinkClash(H, chain[j], entries).None? ==>
      before.size <= |entries| && Opens(H, before, entries[..before.size])
  }

  ghost predicate LinksSound(H: Hash, chain: seq<Write>) {
    forall j, entries :: 0 < j < |chain| ==> LinkSound(H, chain, j, entries)
  }

  lemma ChainedLinksSound(H: Hash, origin: string, chain: seq<Write>)
    requires Chained(H, origin, chain)
    ensures LinksSound(H, chain)
  {
    forall j, entries | 0 < j < |chain| ensures LinkSound(H, chain, j, entries) {
      assert LinkAt(H, origin, chain, j) && LinkAt(H, origin, chain, j - 1);
      if Opens(H, CheckpointAt(chain, j), entries) && LinkClash(H, chain[j], entries).None? {
        LinkKeepsPrefix(H, origin, chain[j], entries);
      }
    }
  }

  lemma {:induction false} ChainIsAppendOnly(H: Hash, chain: seq<Write>, i: nat, j: nat, entries: seq<Bytes>)
    requires LinksSound(H, chain) && i <= j < |chain|
    requires Opens(H, CheckpointAt(chain, j), entries)
    requires ChainClash(H, chain, i, j, entries).None?
    ensures CheckpointAt(chain, i).size <= |entries|
    ensures Opens(H, CheckpointAt(chain, i), entries[..CheckpointAt(chain, i).size])
    decreases j
  {
    if i == j {
      assert entries[..|entries|] == entries;
    } else {
      assert LinkSound(H, chain, j, entries);
      var prefix := entries[..CheckpointAt(chain, j - 1).size];
      ChainIsAppendOnly(H, chain, i, j - 1, prefix);
      assert entries[..CheckpointAt(chain, i).size] == prefix[..CheckpointAt(chain, i).size];
    }
  }

  /**
    In every run, whatever the log and the network do: if a checkpoint stored for an origin commits to a list
    of entries, every checkpoint stored before it for that origin commits to a prefix of that list, or the
    evidence accepted in between contains a hash collision.
   */
  lemma RunIsAppendOnly(H: Hash, steps: seq<Step>, origin: string, i: nat, j: nat, entries: seq<Bytes>)
    requires i <= j < |HistoryOf(Run(H, steps), origin)|
    requires Opens(H, CheckpointAt(HistoryOf(Run(H, steps), origin), j), entries)
    requires ChainClash(H, HistoryOf(Run(H, steps), origin), i, j, entries).None?
    ensures var earlier := CheckpointAt(HistoryOf(Run(H, steps), origin), i);
      earlier.size <= |entries| && Opens(H, earlier, entries[..earlier.size])
  {
    RunKeepsInv(H, steps);
    ChainedLinksSound(H, origin, HistoryOf(Run(H, steps), origin));
    ChainIsAppendOnly(H, HistoryOf(Run(H, steps), origin), i, j, entries);
  }

  /** Two lists that stored checkpoints commit to, in order, are prefix-ordered, or there is a collision. */
  lemma RunHistoriesArePrefixes(
    H: Hash, steps: seq<Step>, origin: string, i: nat, j: nat, earlier: seq<Bytes>, later: seq<Bytes>)
    requires i <= j < |HistoryOf(Run(H, steps), origin)|
    requires Opens(H, CheckpointAt(HistoryOf(Run(H, steps), origin), i), earlier)
    requires Opens(H, CheckpointAt(HistoryOf(Run(H, steps), origin), j), later)
    requires ChainClash(H, HistoryOf(Run(H, steps), origin), i, j, later).None?
    requires |earlier| <= |later| ==> LogClash(H, earlier, later[..|earlier|]).None?
    ensures earlier <= later
  {
    RunIsAppendOnly(H, steps, origin, i, j, later);
    LogRootBinds(H, earlier, later[..|earlier|]);
  }

  /** No checkpoint is smaller than the one it replaced, and one of the same size has the same root. */
  predicate Grows(earlier: Checkpoint, later: Checkpoint) {
    earlier.size <= later.size && (earlier.size == later.size ==> earlier.root == later.root)
  }

  predicate GrowsAt(chain: seq<Write>, k: nat)
    requires 0 < k < |chain|
  {
    Grows(CheckpointAt(chain, k - 1), CheckpointAt(chain, k))
  }

  lemma {:induction false} GrowsAlong(chain: seq<Write>, i: nat, j: nat)
    requires forall k :: 0 < k < |chain| ==> GrowsAt(chain, k)
    requires i <= j < |chain|
    ensures Grows(CheckpointAt(chain, i), CheckpointAt(chain, j))
    decreases j
  {
    if i < j {
      GrowsAlong(chain, i, j - 1);
      assert GrowsAt(chain, j);
    }
  }

  /** In every run the checkpoints of an origin never shrink, and never fork at the same size. */
  lemma RunGrows(H: Hash, steps: seq<Step>, origin: string, i: nat, j: nat)
    requires i <= j < |HistoryOf(Run(H, steps), origin)|
    ensures var chain := HistoryOf(Run(H, steps), origin);
      Grows(CheckpointAt(chain, i), CheckpointAt(chain, j))
  {
    RunKeepsInv(H, steps);
    var chain := HistoryOf(Run(H, steps), origin);
    assert Chained(H, origin, chain);
    forall k | 0 < k < |chain| ensures GrowsAt(chain, k) {
      assert LinkAt(H, origin, chain, k);
    }
    GrowsAlong(chain, i, j);
  }

  lemma RunReplacesInOrder(H: Hash, steps: seq<Step>, origin: string, i: nat)
    requires i < |HistoryOf(Run(H, steps), origin)|
    ensures var chain := HistoryOf(Run(H, steps), origin); chain[i].previous == Before(chain, i)
  {
    RunKeepsInv(H, steps);
    var chain := HistoryOf(Run(H, steps), origin);
    assert Chained(H, origin, chain) && LinkAt(H, origin, chain, i);
  }

  /**
    In every run, two conflicting extensions never both replace the same checkpoint: two writes over equal
    states agree on size and root, unless the first of them left the tree where it was.
   */
  lemma NoConflictingExtensions(H: Hash, steps: seq<Step>, origin: string, i: nat, j: nat)
    requires i < j < |HistoryOf(Run(H, steps), origin)|
    requires var chain := HistoryOf(Run(H, steps), origin); chain[i].previous == chain[j].previous
    ensures var chain := HistoryOf(Run(H, steps), origin);
      && i > 0
      && CheckpointAt(chain, i).size == CheckpointAt(chain, i - 1).size
      && CheckpointAt(chain, i).root == CheckpointAt(chain, i - 1).root
  {
    RunReplacesInOrder(H, steps, origin, i);
    RunReplacesInOrder(H, steps, origin, j);
    RunGrows(H, steps, origin, i, j - 1);
    if i > 0 {
      RunGrows(H, steps, origin, i - 1, i);
    }
  }
}
