# Verified model of the DNSid C2SP transparency-log fixtures and harness

The conformance repository generates transparency-log evidence (Merkle trees, audit paths, consistency proofs,
hash-chained lifecycle events), feeds it to several SDKs through adapters, and classifies what they reply. The
generators, the reference reducer, the adapters' stores and the classifier decide what "conforming" means, and the
repository samples them on fixed inputs. This project models that logic in Dafny and proves its
properties for all inputs: trees of every size, logs of every length, every interleaving of clients, every reply.

`dafny verify dfyconfig.toml` checks all of it.

## What is modelled

| files | what they model |
|---|---|
| `Hashing`, `PowerOfTwo`, `MerkleTree` | the tree hash, its three domain-separated kinds of input, and where a tree splits |
| `Inclusion`, `Consistency` | audit paths and consistency proofs, their recursive inverses, and the iterative verifiers of sections 2.1.3.2 and 2.1.4.2 of RFC 9162 |
| `LogFixtures` | the loops that package a log and that derive the accept and reject cases of the consistency suite |
| `CheckpointStore`, `CheckpointRuns` | the trusted-checkpoint store with injected faults, its locking and its optimistic client, and all interleavings of many clients |
| `CheckpointConformance`, `CheckpointCases` | histories of one log, the consistency suite and the generated continuity cases, run against the store: what the raw logs make true and what the author of a case claims |
| `Decimals`, `Jcs`, `Json`, `Canonical` | RFC 8785 number layout, key order, the canonical encoder and a parser that inverts it |
| `Events`, `Reducer`, `ReducerHistory`, `KeySuccession`, `ReducerNoise` | event ids, role signatures, the lifecycle reducer, its run invariant, history commitment, the succession of keys, and insensitivity to noise |
| `Selection`, `Rivals` | the simple selection model, its refinement proof against the reducer, and exactly when the two agree on words with a second issuance |
| `FailingPrefix`, `EventMatching` | the Go shim's search for the first failing prefix and its greedy event matcher |
| `Witnesses` | concrete logs and words under the fixture's own digests, encoder and signature checks |
| `Rewriter` | the memoised rewriter that turns leaf-hash links into event-id links |
| `Classifier` | overrides, comparison and classification of SDK replies |

SHA-256 is a parameter. No theorem assumes that it is injective: each binding theorem has an extractor, a compiled
function that walks the two inputs and returns either nothing or a pair of different inputs with equal hashes, and
the theorem says that if the extractor returns nothing, the conclusion holds. `CollisionOfBytes` and `TwinsCollide`
turn such a pair into a collision of the byte-level hash. Signature checking is a parameter too, so a `flipped`
signature is simply another one that verifies.

Everything Python raises other than the reducer's named errors (a failed assertion, a missing key, a value of the
wrong type) is the outcome `Crash`, and no `requires` clause excludes such inputs. One assertion is not modelled: that
of the encoder on the range of integers, because numbers are modelled by value (see "Left out").

## Findings

Properties that hold on the repository's own fixtures but not on all inputs. The code is modelled as it is.

- The search for the first failing prefix (`shims/go/main.go:646-664`) calls the rebuild on every nonempty prefix,
  and a prefix that applies nothing fails for want of a genesis. So, with the reducer as the rebuild, the search
  reports the entry at which the full run raises if and only if that entry is the first one, or the first entry is
  applied (`SearchExact`). With an ignored migration in front, it blames the migration: `NoiseFirstMisleads` gives the
  log under the fixture's own digests and checks.
- The selection model calls a second issuance a break of the chain (`harness/selection_enumeration.py:76-77`), the
  reducer a duplicate issuance (`harness/c2sp_event_identity_check.py:173-174`). On a word in which an authenticated
  second issuance follows letters that fit the first one, whatever comes behind it, the two agree if and only if the
  letters before it have stopped the word, or have revoked the identity, or have applied nothing and the two agree on
  the word that it starts (`RivalDecides`). `TwoIssuancesPart` gives a word of two letters on which they part.
- What `generate_checkpoints.add` writes down for a case follows from the category that its author passes. The adapters
  meet it if and only if the raw logs, the evidence and the fault of the case bear the author's claim out
  (`ContractMetIffTruthful`, up to a collision), which they do for all the generated cases (`GenerateCheckpoints`). A proof case on an
  unchanged checkpoint, or a write fault behind a rollback, cannot be met (`SameCheckpointByProofFails`,
  `WriteFaultBehindRollbackFails`).
- The gate on checkpoint cases (`harness/run.py:217-222`) catches every disagreement on a key that it guards if and
  only if the expectation does not leave the error open: one whose `ok` is falsy without being `False`, and that
  names an empty error, lets a reply with any error through (`GateExact`, `OpenReplySlipsThrough`).

## Model

| member | source | states |
|---|---|---|
| PowerOfTwo.SplitIsShift | harness/generate_c2sp_fixtures.py:42 | The split used throughout, the largest power of two below n, is the shift by the bit length of n - 1. |
| PowerOfTwo.SplitAgrees | harness/consistency_vectors.py:27-30 | Every old size above the split of the new size and up to it has the same split, so one proof node can stand in both trees. |
| PowerOfTwo.SplitIsUnique | harness/generate_c2sp_fixtures.py:42 | Any power of two below n whose double reaches n is the split of n. |
| Hashing.EncodeInjective | harness/generate_c2sp_fixtures.py:37-43 | The hashed byte strings of the empty tree, of leaves and of branches never coincide, and determine their parts. |
| Hashing.CollisionOfBytes | harness/generate_c2sp_fixtures.py:37-43 | An extracted collision of the log's hash is a collision of the byte-level hash. |
| MerkleTree.TreeClash | harness/generate_c2sp_fixtures.py:37-43 | The extractor for two trees of one size returns nothing or a genuine collision. |
| MerkleTree.TreeBinds | harness/generate_c2sp_fixtures.py:37-43 | Equal roots over equally many leaf hashes have equal leaf hashes, up to an extracted collision. |
| MerkleTree.LogClash | harness/generate_c2sp_fixtures.py:37-57 | The extractor for two raw logs of any sizes returns nothing or a genuine collision. |
| MerkleTree.LogRootBinds | harness/generate_c2sp_fixtures.py:37-57 | The root over raw entries commits to the whole list, even to its length, up to an extracted collision. |
| Inclusion.AuditPathComplete | harness/generate_c2sp_fixtures.py:46-52 | Every generated path leads from its leaf to the root, at every size and index. |
| Inclusion.PathClash | harness/generate_c2sp_fixtures.py:46-52 | The extractor for a false path returns nothing or a genuine collision. |
| Inclusion.AuditPathSound | harness/generate_c2sp_fixtures.py:46-52 | A path that leads to the root proves exactly the leaf hash at its index and is the generated path, up to an extracted collision. |
| Inclusion.EntryIncluded | harness/generate_c2sp_fixtures.py:46-57 | A path from a raw entry to the root of a raw log proves that the log has exactly this entry at this index, up to an extracted collision. |
| Inclusion.PathRootIsClimb | harness/generate_c2sp_fixtures.py:46-52 | The top-down recursion of the generator and the bottom-up reading by the bits of index and size are the same function. |
| Inclusion.AuditPathLength | harness/generate_c2sp_fixtures.py:46-52 | Path lengths depend on index and size alone; at most 2^b leaves means at most b nodes. |
| Inclusion.VerifyInclusion | harness/generate_c2sp_fixtures.py:46-52 | The iterative algorithm of section 2.1.3.2 of RFC 9162 accepts exactly the paths that the recursive inverse of the generator accepts. |
| Consistency.ConsistencyComplete | harness/consistency_vectors.py:23-30 | The generated proof is accepted between the root of any nonempty prefix and the root of the list. |
| Consistency.ProofClash | harness/consistency_vectors.py:23-30 | The extractor for a false consistency proof returns nothing or a genuine collision. |
| Consistency.ProofDetermined | harness/consistency_vectors.py:23-30 | At every level of the recursion, a proof that reconstructs a known tree is the generated one and its old root is that of the prefix. |
| Consistency.ConsistencySound | harness/consistency_vectors.py:23-30 | An accepted proof to a known list binds the trusted root to the prefix root and is the generated proof, up to an extracted collision. |
| Consistency.ConsistencyForcesPrefix | harness/consistency_vectors.py:23-30 | A proof accepted between the roots of two raw histories forces the old one to be a prefix of the new one, up to an extracted collision. |
| Consistency.ScanAndProofAgree | harness/consistency_vectors.py:62-83 | Against any trusted root, the generated proof is accepted exactly when a scan of the prefix reproduces that root, up to an extracted collision. |
| Consistency.WrongLengthRejected | harness/consistency_vectors.py:66-71 | A proof with a node missing or added is rejected whatever the hash does. |
| Consistency.ProofRootsIsClimb | harness/consistency_vectors.py:23-30 | The recursive reconstruction of both roots is the bottom-up reading by the bits of the two sizes. |
| Consistency.ConsistencyProofLength | harness/consistency_vectors.py:23-30 | Proof lengths depend on the two sizes alone; at most 2^b leaves means at most b + 1 nodes. |
| Consistency.VerifyConsistency | harness/consistency_vectors.py:23-30 | The iterative algorithm of section 2.1.4.2 of RFC 9162 accepts exactly the proofs that the recursive inverse of the generator accepts. |
| LogFixtures.PackageCase | harness/generate_c2sp_fixtures.py:55-84 | The packaged root is that of the entries; each entry keeps index, bytes, effect and mark, and an entry marked valid has a path that verifies against that root. |
| LogFixtures.BuildPairCases | harness/consistency_vectors.py:66-83 | The variant loops yield the valid, shortened, lengthened and per-node changed proofs, in order, with their expectations. |
| LogFixtures.LoadCases | harness/consistency_vectors.py:61-84 | The nested loops yield the cases of every pair of sizes, in order. |
| LogFixtures.AllCasesHold | harness/consistency_vectors.py:61-84 | Every expectation of the suite holds for every list of leaves of every length: valid proofs advance, shortened and lengthened ones fail, a changed one that is accepted yields a collision. |
| LogFixtures.AllCasesCover | harness/consistency_vectors.py:61-84 | The suite holds a case for every pair of sizes and every variant of its proof. |
| CheckpointStore.FaultStore.CompareAndSwap | shims/go/checkpoint.go:40-45 | A write happens only without a write fault and over exactly the expected state; otherwise nothing is written. |
| CheckpointStore.FaultStore.VerifyOptimistically | docs/sdk-design/11-c2sp-tlog-binding.md:791-800 | An undisturbed load, verify and compare-and-swap: the verdict follows the rules, the store advances exactly on acceptance, and the proof source is asked exactly when growth needs it. |
| CheckpointStore.FaultStore.VerifyAndAdvance | harness/checkpoint_adapter.py:37-45 | The locking client has the same verdict, the same store and the same proof requests. |
| CheckpointStore.VerifyCheckpointCase | harness/checkpoint_adapter.py:88-127 | Seed, then fault, then candidate: verdict, stored checkpoint, proof requests and preserved cause, for either kind of client. |
| CheckpointCases.VerdictByLogs | docs/sdk-design/11-c2sp-tlog-binding.md:1449-1461 | For any two raw logs, evidence and fault: a scan that is not the candidate is bad evidence, a shorter log a rollback, another log of the same length a fork, a longer one that does not continue the trusted log, or any proof but the generated one, is inconsistent; the rest is accepted; up to an extracted collision. |
| CheckpointCases.RunByLogs | harness/checkpoint_adapter.py:88-127 | The whole run of such a case: verdict, stored checkpoint, proof requests and preserved cause. |
| CheckpointCases.ContractMetIffTruthful | harness/generate_c2sp_fixtures.py:309-336 | For any case and any category that its author claims, the run has every field that the generator writes down (acceptance, retained state, category, transience, diagnostics, cause, proof request, missing evidence) if and only if the raw logs bear the claim out, up to an extracted collision. |
| CheckpointCases.GenerateCheckpoints | harness/generate_c2sp_fixtures.py:338-365 | Every generated case, over any suitable logs, claims what its logs make true, with these categories in this order. |
| CheckpointCases.SameCheckpointByProofFails | harness/generate_c2sp_fixtures.py:329-330 | A proof case whose candidate is the trusted checkpoint is not met by any run: nothing asks for the proof. |
| CheckpointCases.WriteFaultBehindRollbackFails | harness/generate_c2sp_fixtures.py:327-328 | A write fault behind a rollback is never reached, whatever category is claimed. |
| CheckpointRuns.StepWritesOnlyJustified | docs/sdk-design/11-c2sp-tlog-binding.md:894-901 | In any reachable state, a step leaves every origin's store alone unless it swaps a verified request over the very state it was verified against. |
| CheckpointRuns.RunKeepsInv | docs/sdk-design/11-c2sp-tlog-binding.md:894-901 | In every interleaving the store holds the last write of each origin and each write continued, with evidence, the checkpoint that it replaced. |
| CheckpointRuns.SoloRunIsOutcome | harness/checkpoint_adapter.py:37-45 | The three atomic steps of an undisturbed client carry out exactly one verification of the store adapters. |
| CheckpointRuns.LostRaceReverifies | docs/sdk-design/11-c2sp-tlog-binding.md:799-802 | A client that lost a race writes nothing and, left alone from there, carries out one whole verification against the winning state. |
| CheckpointRuns.LinkKeepsPrefix | docs/sdk-design/11-c2sp-tlog-binding.md:832-845 | A justified write whose checkpoint commits to a list replaced one that commits to a prefix of it, by scan or by proof, up to an extracted collision. |
| CheckpointRuns.RunIsAppendOnly | docs/sdk-design/11-c2sp-tlog-binding.md:791-802 | In every run, if a stored checkpoint commits to a list, every earlier one of that origin commits to a prefix of it, up to an extracted collision. |
| CheckpointRuns.RunHistoriesArePrefixes | docs/sdk-design/11-c2sp-tlog-binding.md:791-802 | In every run, lists that two stored checkpoints of an origin commit to are prefix-ordered, up to an extracted collision. |
| CheckpointRuns.RunGrows | docs/sdk-design/11-c2sp-tlog-binding.md:791-795 | In every run the tree of an origin never shrinks and never changes its root at one size. |
| CheckpointRuns.RunReplacesInOrder | docs/sdk-design/11-c2sp-tlog-binding.md:894-895 | In every run each write replaced exactly the write before it. |
| CheckpointRuns.NoConflictingExtensions | docs/sdk-design/11-c2sp-tlog-binding.md:901-902 | In every run two writes that replaced equal states never both extended them. |
| CheckpointConformance.HonestGrowthAdvances | harness/generate_c2sp_fixtures.py:338-341 | Whatever state of a log the store last accepted, any later state of the same log is accepted, by scan or by the generated proof; a first contact needs no proof. |
| CheckpointConformance.SuiteCaseRuns | harness/consistency_vectors.py:72-83 | Every case of the suite, run against the store: a valid proof advances it, any other is rejected as inconsistent and retains the trusted checkpoint, the proof source is asked once; or a changed proof contains a collision. |
| Jcs.EqualIffSameNormalForm | harness/c2sp_event_identity_check.py:38-44 | Digits and point determine the decimal value and the value determines them, for nonzero literals of any shape. |
| Jcs.PrintReads | harness/c2sp_event_identity_check.py:45-52 | Each of the four layouts, read back as a decimal literal, gives the digits and the point that were laid out. |
| Jcs.JcsNumberKeepsValue | harness/c2sp_event_identity_check.py:31-52 | The printed text of any float, read back with its sign, denotes the number that was printed. |
| Jcs.JcsNumberIsNormalForm | harness/c2sp_event_identity_check.py:31-52 | Two floats print identically if and only if they are equal numbers, across signs, zeros and all layouts. |
| Jcs.IntegerPrintsAsItself | harness/c2sp_event_identity_check.py:45-46 | An integer below 10^21 prints as its plain digits. |
| Json.PrintNumberIsStr | harness/c2sp_event_identity_check.py:74-75 | On the integers that the encoder admits, the integer branch and the float branch write the same text. |
| Json.SortedKeysUnique | harness/c2sp_event_identity_check.py:64 | Sorting keys gives one list whatever order they were inserted in. |
| Json.SortedKeysAscending | harness/c2sp_event_identity_check.py:64 | That list is strictly ascending by character codes. |
| Canonical.ValueParses | harness/c2sp_event_identity_check.py:60-76 | The parser takes exactly one encoded value off the front of any text that does not prolong a number. |
| Canonical.RoundTrip | harness/c2sp_event_identity_check.py:60-76 | Every value, nested to any depth, is read back from its canonical text. |
| Canonical.EncodeInjective | harness/c2sp_event_identity_check.py:60-76 | Canonical texts are equal exactly for equal values. |
| Events.DigestInputInjective | harness/c2sp_event_identity_check.py:79-81 | Event and state digests never hash the same text, and the text determines the value. |
| Events.EventIdCollision | harness/c2sp_event_identity_check.py:84-89 | Two different payloads with one event id are a collision of the hash. |
| Events.SignaturesValidIff | harness/c2sp_event_identity_check.py:120-137 | An entry is authenticated if and only if its signatures name exactly the required roles, and each has exactly a key id, that of the role's key, and a signature that verifies over the payload. |
| Events.CheckSignatures | harness/c2sp_event_identity_check.py:120-137 | The loop with its early returns and its exceptions computes that check. |
| Reducer.Reduce | harness/c2sp_event_identity_check.py:149-198 | The loop over seen, last and state computes the recursive run, and ends at the entry at which that run raises, with its error. |
| Reducer.ReduceOne | harness/c2sp_event_identity_check.py:153-195 | One round of the loop, given consistent variables, is one step of the run. |
| ReducerHistory.RunIsHistory | harness/c2sp_event_identity_check.py:149-198 | In every run, numbers are positions, ids are distinct, each event links to its predecessor by id and state hash, and was verified under the state that its predecessor left. |
| ReducerHistory.AuthorityIsCurrent | harness/c2sp_event_identity_check.py:158-170 | Although the authority is looked up by the named predecessor, an applied entry was always verified under the current state. |
| ReducerHistory.HistoryKeepsIdentity | harness/c2sp_event_identity_check.py:177-193 | Domain name and entity key never change, and only the last event can be a revocation. |
| KeySuccession.GenesisIsSelfSigned | harness/c2sp_event_identity_check.py:161-162 | Genesis was signed by the entity key and the operational key that it introduces. |
| KeySuccession.StateKnowsKeys | harness/c2sp_event_identity_check.py:177-193 | At every event the state holds the thumbprints of the operational key in force, which is that of the last rotation or of genesis, and of the entity key of genesis. |
| KeySuccession.KeysSucceed | harness/c2sp_event_identity_check.py:161-166 | Each rotation was signed by a key with the thumbprint of the one in force and by its successor; any other later event is a revocation, signed under the entity key of genesis. |
| KeySuccession.LaterState | harness/c2sp_event_identity_check.py:186-193 | A later event changes the operational key exactly if it is a rotation and revokes exactly if it is a revocation; nothing else changes. |
| ReducerHistory.HistoryTwins | harness/c2sp_event_identity_check.py:149-198 | The extractor for two histories returns nothing or two different payloads with one event id. |
| ReducerHistory.LastIdBinds | harness/c2sp_event_identity_check.py:149-198 | Histories that end in one event id are equal, up to an extracted pair. |
| ReducerHistory.LastIdCommitsToHistory | harness/c2sp_event_identity_check.py:149-198 | Two successful runs over any two logs that end in one event id applied the same events and reached the same state, up to an extracted pair. |
| ReducerHistory.TwinsCollide | harness/c2sp_event_identity_check.py:79-89 | Under the fixture's digests, such a pair is a collision of the hash. |
| ReducerNoise.NoiseIsIrrelevant | harness/c2sp_event_identity_check.py:152-170 | Dropping every entry that changes nothing leaves the outcome of any log as it was, error or not. |
| ReducerNoise.EffectiveIsApplied | harness/c2sp_event_identity_check.py:152-195 | What remains of a successful log are exactly the applied events, in order. |
| ReducerNoise.CopyAfterIsIgnored | harness/c2sp_event_identity_check.py:155-157 | A copy of an applied payload, with any signatures, can be inserted anywhere later without effect. |
| ReducerNoise.CopyReplaces | harness/c2sp_event_identity_check.py:84-89 | A copy of an applied entry with other valid signatures can take its place or come right before it. |
| FailingPrefix.Search | shims/go/main.go:648-663 | The loop stops at the smallest nonempty prefix whose rebuild fails, if there is one. |
| FailingPrefix.SearchExact | shims/go/main.go:646-664 | With the reducer as the rebuild, the entry found is the one at which the full run raises if and only if that is the first entry or the first entry is applied; the prefix raises the same error. |
| FailingPrefix.NothingAppliedFailsFirst | shims/go/main.go:646-664 | A nonempty log that applies nothing fails at its first entry. |
| Witnesses.NoiseFirstMisleads | shims/go/main.go:646-664 | Under the fixture's digests and checks, for every hash: a log whose second entry breaks the chain while the search blames the first. |
| Witnesses.SelfSignedIsValid | harness/c2sp_event_identity_check.py:120-137 | Where the key's signature verifies over the payload, an entry that carries it in both roles is validly signed: the witnesses exist. |
| Selection.Expect | harness/selection_enumeration.py:57-87 | The loop with its early returns computes the recursive scan and its verdict. |
| Selection.IgnoredIsComplement | harness/selection_enumeration.py:83-84 | Every index of the word is either applied or listed as ignored, never both. |
| Selection.LetterSimulates | harness/selection_enumeration.py:67-80 | On the next letter the model and the reducer take the same step: skip, apply, or fail with one category. |
| Selection.ScanSimulates | harness/selection_enumeration.py:66-80 | The two run in step along words of any length. |
| Selection.ExpectRefinesReduce | harness/selection_enumeration.py:57-87 | On words of any length the model and the reducer agree on validity, applied ids in order, terminal status, failing index and category. |
| Rivals.RivalStops | harness/selection_enumeration.py:74-77 | A second issuance behind an applied genesis stops both: the model with a break of the chain, the reducer with a duplicate issuance; behind a revocation, both with a terminal state. |
| Rivals.NoisyPrefixAgreesIff | harness/selection_enumeration.py:69-73 | Behind letters that apply nothing, the two agree on any word if and only if they agree on it without those letters. |
| Rivals.RivalDecides | harness/selection_enumeration.py:57-87 | On a word in which a second issuance follows fitting letters, whatever comes behind it, the two agree if and only if those letters have stopped the word, have revoked, or have applied nothing and the two agree on the rest. |
| Witnesses.TwoIssuancesPart | harness/selection_enumeration.py:76-77 | Under the fixture's primitives, two issuances of one key for two domains are a word on which the two part. |
| Witnesses.FixtureWord | harness/selection_enumeration.py:40-54 | Under the fixture's primitives, words of any length over an issuance, an unauthenticated migration and a revocation are words on which the two agree, unless two letters collide. |
| EventMatching.JoinInjective | shims/go/main.go:581 | Keys of equally many parts without a zero character tell all parts apart. |
| EventMatching.NextCandidate | shims/go/main.go:672-678 | The inner loop finds the first candidate with the key, from the given index on. |
| EventMatching.MatchEvents | shims/go/main.go:666-679 | The matching loop: effects, used set and indexes are those of the greedy matching. |
| EventMatching.IgnoredCandidates | shims/go/main.go:680-685 | The complement loop lists the unused indexes in order. |
| EventMatching.GreedyIncreases | shims/go/main.go:666-679 | Matched indexes are strictly increasing and within the log. |
| EventMatching.OutsideIsComplement | shims/go/main.go:680-685 | Used and ignored indexes partition the candidates. |
| EventMatching.GreedyIsLeftmost | shims/go/main.go:666-679 | If the events can be placed at all, the greedy matching places every one, nowhere later. |
| EventMatching.MatchingComplete | shims/go/main.go:669-679 | Behind events of an earlier history, events whose keys form a subsequence of the candidate keys are all matched. |
| EventMatching.MatchesAllIffSubsequence | shims/go/main.go:666-679 | All events are matched if and only if their keys form a subsequence of the candidate keys. |
| Rewriter.ResignAll | harness/generate_c2sp_fixtures.py:116-119 | Every signature other than the placeholder is replaced by one of its own key over the new payload. |
| Rewriter.ChainRewriter.Correct | harness/generate_c2sp_fixtures.py:101-121 | Whatever earlier calls left in the memo, the result is the pure recursive correction; the memo only grows and stays right. |
| Rewriter.ChainRewriter.CorrectAll | harness/generate_c2sp_fixtures.py:130 | A list of entries, corrected in turn, gives each entry's own correction. |
| Rewriter.LinkIsEventId | harness/generate_c2sp_fixtures.py:109-112 | A link by leaf hash and index becomes a link to the event id of the corrected predecessor, and only that. |
| Rewriter.OtherFieldsKept | harness/generate_c2sp_fixtures.py:108-120 | Nothing but links and the stream changes; an unlinked entry keeps its links. |
| Rewriter.ChainKept | harness/generate_c2sp_fixtures.py:101-121 | A chain by leaf hashes becomes a chain by event ids, entry for entry. |
| Rewriter.CopiesMerge | harness/generate_c2sp_fixtures.py:101-121 | Chains that differ only in signatures, and in the leaf hashes that these change, become chains with the same payloads. |
| Rewriter.CorrectedAgain | harness/generate_c2sp_fixtures.py:101-121 | Correcting a corrected entry changes nothing. |
| Rewriter.RankIsIrrelevant | harness/generate_c2sp_fixtures.py:101-121 | The correction does not depend on the rank that shows the links acyclic. |
| Rewriter.ParseReads | harness/generate_c2sp_fixtures.py:104-107 | The canonical parser is a reader that takes back every encoding, as the results on chains ask. |
| Classifier.MergeItems | harness/run.py:139-146 | The loop over an override's items computes the recursive merge, in whatever order the items come. |
| Classifier.MergeByPath | harness/run.py:139-146 | Path by path: what the override has there wins or merges, what lies behind one of its values is gone, all else is the base's. |
| Classifier.MergeSettles | harness/run.py:139-146 | Applying an override twice is applying it once. |
| Classifier.CompareRecord | harness/run.py:185-188 | The record loop reports exactly the record keys that differ, each once. |
| Classifier.CompareFields | harness/run.py:197-200 | The key loop reports exactly the expected keys, outside the special ones, that differ, each once. |
| Classifier.Compare | harness/run.py:166-201 | The problems reported are exactly the departures of the reply from the expectation, each once. |
| Classifier.CheckGate | harness/run.py:217-222 | The gate on checkpoint cases is open exactly when the guarded keys show no problem. |
| Classifier.EvaluateResult | harness/run.py:204-236 | Status and problems are those of the classification. |
| Classifier.NoProblemsIffAgrees | harness/run.py:166-201 | The comparison finds nothing if and only if the reply is in every respect what the expectation says: acceptance, plain keys, record, deviations, error and message. |
| Classifier.StatusByAgreement | harness/run.py:204-236 | The status of every reply that is not MISSING: green exactly if the reply agrees or fails closed on an allowed budget, behind an open gate, as XPASS under a known bug and REJ under a version gate; otherwise XFAIL only where a known bug excuses a working adapter, and problems are reported exactly then. |
| Classifier.AdapterFailureFails | harness/run.py:170-171 | A reply of a broken adapter or shim is FAIL, whatever the case, version gate, known bug or parser budget. |
| Classifier.GateRejects | harness/run.py:151-153 | An unsupported version is never XFAIL, XPASS or PASS, and REJ takes a rejection of the right kind. |
| Classifier.GateExact | harness/run.py:217-222 | The gate catches every disagreement on a guarded key that the expectation names if and only if the expectation does not leave the error open. |
| Classifier.OpenReplySlipsThrough | harness/run.py:190-198 | The reply that passes the gate of an expectation that leaves the error open. |
| Classifier.NoMasking | harness/run.py:204-236 | A checkpoint case that ends other than FAIL or MISSING agrees with its expectation on each guarded key that it names. |

## Left out

- SHA-256, ECDSA, Ed25519, base64 and key formats: the hash, the verification of a signature, and signing are parameters.
- The SDKs' own verifiers are not part of this model: the checkpoint rules follow the design document that the adapters implement (`docs/sdk-design/11-c2sp-tlog-binding.md:791-902`), and hash-tile evidence is left out.
- Migration chains (`harness/migration_vectors.py`, `harness/migration_adapter.py`, `shims/go/migration.go`): the recursive verifier lives in the SDKs.
- The web-bot-auth and negotiated-response checkers, report text, fixture loading, subprocess handling and the redistribution of batched replies: text and per-field equality.
- Signed-note text, witness timestamps in notes, and the invalidated log signature of a rejected checkpoint.
- LogFixtures.PackageCase: keeps size, root, index and path of a packaged log; the checkpoint note and its signatures are left out.
- CheckpointStore.VerifyCheckpointCase: models verdict, stored state, proof requests and preserved cause; message text is left out, and a failure is one of the design document's categories rather than the text that an SDK chooses.
- Json.PrintNumberIsStr: numbers are modelled by value, so the encoder's assertion on the range of integers, and the difference between an integer and an equal float, are not.
- Canonical.RoundTrip: strings are sequences of characters; the encoder's restriction to printable ASCII is the predicate Admissible, under which `json.dumps` escapes quotes and backslashes only.
- Jcs.JcsNumberKeepsValue: starts from the decimal digits that `repr` yields; parsing and shortest printing of binary floats are left out.
- Reducer.Reduce: the errors other than the four named ones are one outcome, Crash.
- Selection.ExpectRefinesReduce: is for arbitrary primitives, and for words with one issuance, rotations and revocations that extend it, and letters whose different payloads have different ids. The repository's alphabet (`harness/selection_enumeration.py:31-49`) is signed with Ed25519 keys and names another stream, so the reducer's own assertion on `lr` and its ES256 checks would refuse it; `FixtureWord` gives words under the reducer's own primitives.
- EventMatching.MatchEvents: keys are given as strings; reading them out of the entries is left out.
- Rewriter.ChainRewriter.Correct: requires acyclic links, because the recursion of the source does not end on a cycle; links that are missing, or predecessors that are not JSON, are Crash.
- Classifier.Compare: problems are kinds and keys, not texts; iteration order of dictionaries is unspecified.
- Classifier.EvaluateResult: the note shown in the report is left out, and cases follow their schema (text op and version, dictionary expectations).
