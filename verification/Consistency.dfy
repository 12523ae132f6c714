/**
  Consistency proofs (section 2.1.2 of RFC 6962): the generator, the verifier that inverts it, and the
  iterative verifier of section 2.1.4.2 of RFC 9162.
 */
module Consistency {
  import opened Options
  import opened Hashing
  import opened PowerOfTwo
  import opened MerkleTree
  import opened Inclusion

  /** SUBPROOF(m, D[n], complete). */
  function Subproof(H: Hash, leaves: seq<Digest>, m: nat, complete: bool): seq<Digest>
    requires 1 <= m <= |leaves|
    decreases |leaves|
  {
    if m == |leaves| then
      if complete then [] else [Tree(H, leaves)]
    else
      var k := Split(|leaves|);
      if m <= k then Subproof(H, leaves[..k], m, complete) + [Tree(H, leaves[k..])]
      else Subproof(H, leaves[k..], m - k, false) + [Tree(H, leaves[..k])]
  }

  /** PROOF(m, D[n]). */
  function ConsistencyProof(H: Hash, leaves: seq<Digest>, m: nat): seq<Digest>
    requires 1 <= m <= |leaves|
  {
    Subproof(H, leaves, m, true)
  }

  /** The root of the old tree and of the new tree, as one proof reconstructs them. */
  datatype Roots = Roots(before: Digest, after: Digest)

  /**
    The recursive inverse of Subproof. A complete subtree contributes no node, so its root is the trusted
    root that the verifier already holds.
   */
  function ProofRoots(H: Hash, m: nat, n: nat, complete: bool, trusted: Digest, proof: seq<Digest>)
    : Option<Roots>
    requires 1 <= m <= n
    decreases n
  {
    if m == n then
      if complete then
        if proof == [] then Some(Roots(trusted, trusted)) else None
      else
        if |proof| == 1 then Some(Roots(proof[0], proof[0])) else None
    else if proof == [] then None
    else
      var k := Split(n);
      var below, sibling := proof[..|proof| - 1], proof[|proof| - 1];
      if m <= k then
        var left :- ProofRoots(H, m, k, complete, trusted, below);
        Some(Roots(left.before, Node(H, left.after, sibling)))
      else
        var right :- ProofRoots(H, m - k, n - k, false, trusted, below);
        Some(Roots(Node(H, sibling, right.before), Node(H, sibling, right.after)))
  }

  predicate Accepts(H: Hash, m: nat, n: nat, trusted: Digest, root: Digest, proof: seq<Digest>)
    requires 1 <= m <= n
  {
    ProofRoots(H, m, n, true, trusted, proof) == Some(Roots(trusted, root))
  }

  /** A prefix that reaches past the split is cut at the same place as the whole list. */
  lemma TreeOfPrefix(H: Hash, leaves: seq<Digest>, m: nat)
    requires 2 <= |leaves| && Split(|leaves|) < m <= |leaves|
    ensures var k := Split(|leaves|);
      Tree(H, leaves[..m]) == Node(H, Tree(H, leaves[..k]), Tree(H, leaves[k..][..m - k]))
  {
    var k := Split(|leaves|);
    SplitAgrees(m, |leaves|);
    assert leaves[..m][..k] == leaves[..k] && leaves[..m][k..] == leaves[k..][..m - k];
  }

  lemma ProofRootsLeft(
    H: Hash, m: nat, n: nat, complete: bool, trusted: Digest, below: seq<Digest>, sibling: Digest)
    requires 1 <= m < n && m <= Split(n)
    ensures var lower := ProofRoots(H, m, Split(n), complete, trusted, below);
      ProofRoots(H, m, n, complete, trusted, below + [sibling])
        == if lower.Some? then Some(Roots(lower.value.before, Node(H, lower.value.after, sibling))) else None
  {
    assert (below + [sibling])[..|below|] == below;
  }

  lemma ProofRootsRight(
    H: Hash, m: nat, n: nat, complete: bool, trusted: Digest, below: seq<Digest>, sibling: Digest)
    requires 2 <= n && Split(n) < m < n
    ensures var lower := ProofRoots(H, m - Split(n), n - Split(n), false, trusted, below);
      ProofRoots(H, m, n, complete, trusted, below + [sibling])
        == if lower.Some?
           then Some(Roots(Node(H, sibling, lower.value.before), Node(H, sibling, lower.value.after))) else None
  {
    assert (below + [sibling])[..|below|] == below;
  }

  lemma SubproofLast(H: Hash, leaves: seq<Digest>, m: nat, complete: bool)
    requires 1 <= m < |leaves|
    ensures var k := Split(|leaves|);
      Subproof(H, leaves, m, complete)
        == if m <= k then Subproof(H, leaves[..k], m, complete) + [Tree(H, leaves[k..])]
           else Subproof(H, leaves[k..], m - k, false) + [Tree(H, leaves[..k])]
  {
  }

  /** Extends a proof inside the left half to the whole tree. */
  lemma ExtendLeft(H: Hash, leaves: seq<Digest>, m: nat, complete: bool, trusted: Digest, below: seq<Digest>)
    requires 1 <= m < |leaves| && m <= Split(|leaves|)
    requires var left := leaves[..Split(|leaves|)];
      ProofRoots(H, m, |left|, complete, trusted, below) == Some(Roots(Tree(H, leaves[..m]), Tree(H, left)))
    ensures ProofRoots(H, m, |leaves|, complete, trusted, below + [Tree(H, leaves[Split(|leaves|)..])])
         == Some(Roots(Tree(H, leaves[..m]), Tree(H, leaves)))
  {
    ProofRootsLeft(H, m, |leaves|, complete, trusted, below, Tree(H, leaves[Split(|leaves|)..]));
  }

  /** Extends a proof inside the right half to the whole tree. */
  lemma ExtendRight(H: Hash, leaves: seq<Digest>, m: nat, complete: bool, trusted: Digest, below: seq<Digest>)
    requires 2 <= |leaves| && Split(|leaves|) < m < |leaves|
    requires var k := Split(|leaves|); var right := leaves[k..];
      ProofRoots(H, m - k, |right|, false, trusted, below) == Some(Roots(Tree(H, right[..m - k]), Tree(H, right)))
    ensures ProofRoots(H, m, |leaves|, complete, trusted, below + [Tree(H, leaves[..Split(|leaves|)])])
         == Some(Roots(Tree(H, leaves[..m]), Tree(H, leaves)))
  {
    TreeOfPrefix(H, leaves, m);
    ProofRootsRight(H, m, |leaves|, complete, trusted, below, Tree(H, leaves[..Split(|leaves|)]));
  }

  /** The generated proof gives the root of the prefix and the root of the list. */
  predicate GivesRoots(H: Hash, leaves: seq<Digest>, m: nat, complete: bool, trusted: Digest)
    requires 1 <= m <= |leaves|
  {
    ProofRoots(H, m, |leaves|, complete, trusted, Subproof(H, leaves, m, complete))
      == Some(Roots(Tree(H, leaves[..m]), Tree(H, leaves)))
  }

  lemma GivesRootsLeft(H: Hash, leaves: seq<Digest>, m: nat, complete: bool, trusted: Digest)
    requires 1 <= m < |leaves| && m <= Split(|leaves|)
    requires GivesRoots(H, leaves[..Split(|leaves|)], m, complete, trusted)
    ensures GivesRoots(H, leaves, m, complete, trusted)
  {
    var k := Split(|leaves|);
    assert leaves[..k][..m] == leaves[..m];
    SubproofLast(H, leaves, m, complete);
    ExtendLeft(H, leaves, m, complete, trusted, Subproof(H, leaves[..k], m, complete));
  }

  lemma GivesRootsRight(H: Hash, leaves: seq<Digest>, m: nat, complete: bool, trusted: Digest)
    requires 2 <= |leaves| && Split(|leaves|) < m < |leaves|
    requires GivesRoots(H, leaves[Split(|leaves|)..], m - Split(|leaves|), false, trusted)
    ensures GivesRoots(H, leaves, m, complete, trusted)
  {
    var k := Split(|leaves|);
    SubproofLast(H, leaves, m, complete);
    ExtendRight(H, leaves, m, complete, trusted, Subproof(H, leaves[k..], m - k, false));
  }

  lemma {:induction false} SubproofRoots(H: Hash, leaves: seq<Digest>, m: nat, complete: bool, trusted: Digest)
    requires 1 <= m <= |leaves|
    requires complete ==> trusted == Tree(H, leaves[..m])
    ensures GivesRoots(H, leaves, m, complete, trusted)
    decreases |leaves|
  {
    if m == |leaves| {
      assert leaves[..m] == leaves;
    } else {
      var k := Split(|leaves|);
      if m <= k {
        assert leaves[..k][..m] == leaves[..m];
        SubproofRoots(H, leaves[..k], m, complete, trusted);
        GivesRootsLeft(H, leaves, m, complete, trusted);
      } else {
        SubproofRoots(H, leaves[k..], m - k, false, trusted);
        GivesRootsRight(H, leaves, m, complete, trusted);
      }
    }
  }

  /** Completeness: the generated proof is accepted between the root of a prefix and the root of the list. */
  lemma ConsistencyComplete(H: Hash, leaves: seq<Digest>, m: nat)
    requires 1 <= m <= |leaves|
    ensures Accepts(H, m, |leaves|, Tree(H, leaves[..m]), Tree(H, leaves), ConsistencyProof(H, leaves, m))
  {
    SubproofRoots(H, leaves, m, true, Tree(H, leaves[..m]));
  }

  /** Follows a proof down the new tree, searching for the collision that a false proof needs. */
  function ProofClash(
    H: Hash, leaves: seq<Digest>, m: nat, complete: bool, trusted: Digest, proof: seq<Digest>)
    : (found: Option<Pair>)
    requires 1 <= m <= |leaves|
    ensures Genuine(H, found)
    decreases |leaves|
  {
    if m == |leaves| || proof == [] then None
    else
      var k := Split(|leaves|);
      var below, sibling := proof[..|proof| - 1], proof[|proof| - 1];
      var left, right := Tree(H, leaves[..k]), Tree(H, leaves[k..]);
      if m <= k then
        var lower := ProofRoots(H, m, k, complete, trusted, below);
        FirstOf(if lower.Some? then NodeClash(H, lower.value.after, sibling, left, right) else None,
                ProofClash(H, leaves[..k], m, complete, trusted, below))
      else
        var lower := ProofRoots(H, m - k, |leaves| - k, false, trusted, below);
        FirstOf(if lower.Some? then NodeClash(H, sibling, lower.value.after, left, right) else None,
                ProofClash(H, leaves[k..], m - k, false, trusted, below))
  }

  /** A proof that reconstructs the root of a known list, without a collision on the way. */
  predicate Reconstructs(
    H: Hash, leaves: seq<Digest>, m: nat, complete: bool, trusted: Digest, proof: seq<Digest>)
    requires 1 <= m <= |leaves|
  {
    var roots := ProofRoots(H, m, |leaves|, complete, trusted, proof);
    && roots.Some? && roots.value.after == Tree(H, leaves)
    && ProofClash(H, leaves, m, complete, trusted, proof).None?
  }

  /** The generated proof, with the root of the first m leaves as the old root. */
  predicate Determined(
    H: Hash, leaves: seq<Digest>, m: nat, complete: bool, trusted: Digest, proof: seq<Digest>)
    requires 1 <= m <= |leaves|
  {
    && proof == Subproof(H, leaves, m, complete)
    && ProofRoots(H, m, |leaves|, complete, trusted, proof) == Some(Roots(Tree(H, leaves[..m]), Tree(H, leaves)))
  }

  /** What a proof in the left half needs to be free of a clash in the whole tree. */
  lemma ProofClashLeft(
    H: Hash, leaves: seq<Digest>, m: nat, complete: bool, trusted: Digest, below: seq<Digest>, sibling: Digest)
    requires 1 <= m < |leaves| && m <= Split(|leaves|)
    requires ProofClash(H, leaves, m, complete, trusted, below + [sibling]).None?
    ensures var k := Split(|leaves|);
      var lower := ProofRoots(H, m, k, complete, trusted, below);
      && ProofClash(H, leaves[..k], m, complete, trusted, below).None?
      && (lower.Some? ==> NodeClash(H, lower.value.after, sibling, Tree(H, leaves[..k]), Tree(H, leaves[k..])).None?)
  {
    assert (below + [sibling])[..|below|] == below;
  }

  lemma ProofClashRight(
    H: Hash, leaves: seq<Digest>, m: nat, complete: bool, trusted: Digest, below: seq<Digest>, sibling: Digest)
    requires 2 <= |leaves| && Split(|leaves|) < m < |leaves|
    requires ProofClash(H, leaves, m, complete, trusted, below + [sibling]).None?
    ensures var k := Split(|leaves|);
      var lower := ProofRoots(H, m - k, |leaves| - k, false, trusted, below);
      && ProofClash(H, leaves[k..], m - k, false, trusted, below).None?
      && (lower.Some? ==> NodeClash(H, sibling, lower.value.after, Tree(H, leaves[..k]), Tree(H, leaves[k..])).None?)
  {
    assert (below + [sibling])[..|below|] == below;
  }

  lemma TreeSplits(H: Hash, leaves: seq<Digest>)
    requires 2 <= |leaves|
    ensures var k := Split(|leaves|); Tree(H, leaves) == Node(H, Tree(H, leaves[..k]), Tree(H, leaves[k..]))
  {
  }

  lemma DescendLeft(
    H: Hash, leaves: seq<Digest>, m: nat, complete: bool, trusted: Digest, below: seq<Digest>, sibling: Digest)
    requires 1 <= m < |leaves| && m <= Split(|leaves|)
    requires Reconstructs(H, leaves, m, complete, trusted, below + [sibling])
    ensures sibling == Tree(H, leaves[Split(|leaves|)..])
    ensures Reconstructs(H, leaves[..Split(|leaves|)], m, complete, trusted, below)
  {
    TreeSplits(H, leaves);
    ProofRootsLeft(H, m, |leaves|, complete, trusted, below, sibling);
    ProofClashLeft(H, leaves, m, complete, trusted, below, sibling);
  }

  lemma DescendRight(
    H: Hash, leaves: seq<Digest>, m: nat, complete: bool, trusted: Digest, below: seq<Digest>, sibling: Digest)
    requires 2 <= |leaves| && Split(|leaves|) < m < |leaves|
    requires Reconstructs(H, leaves, m, complete, trusted, below + [sibling])
    ensures sibling == Tree(H, leaves[..Split(|leaves|)])
    ensures Reconstructs(H, leaves[Split(|leaves|)..], m - Split(|leaves|), false, trusted, below)
  {
    TreeSplits(H, leaves);
    ProofRootsRight(H, m, |leaves|, complete, trusted, below, sibling);
    ProofClashRight(H, leaves, m, complete, trusted, below, sibling);
  }

  lemma AscendLeft(H: Hash, leaves: seq<Digest>, m: nat, complete: bool, trusted: Digest, below: seq<Digest>)
    requires 1 <= m < |leaves| && m <= Split(|leaves|)
    requires Determined(H, leaves[..Split(|leaves|)], m, complete, trusted, below)
    ensures Determined(H, leaves, m, complete, trusted, below + [Tree(H, leaves[Split(|leaves|)..])])
  {
    assert leaves[..Split(|leaves|)][..m] == leaves[..m];
    SubproofLast(H, leaves, m, complete);
    ExtendLeft(H, leaves, m, complete, trusted, below);
  }

  lemma AscendRight(H: Hash, leaves: seq<Digest>, m: nat, complete: bool, trusted: Digest, below: seq<Digest>)
    requires 2 <= |leaves| && Split(|leaves|) < m < |leaves|
    requires Determined(H, leaves[Split(|leaves|)..], m - Split(|leaves|), false, trusted, below)
    ensures Determined(H, leaves, m, complete, trusted, below + [Tree(H, leaves[..Split(|leaves|)])])
  {
    SubproofLast(H, leaves, m, complete);
    ExtendRight(H, leaves, m, complete, trusted, below);
  }

  lemma ProofIsNotEmpty(
    H: Hash, leaves: seq<Digest>, m: nat, complete: bool, trusted: Digest, proof: seq<Digest>)
    requires 1 <= m < |leaves| && Reconstructs(H, leaves, m, complete, trusted, proof)
    ensures proof != []
  {
  }

  /**
    A proof that leads to the root of a known list is the generated proof, and the old root it carries is
    the root of the list's first m leaves, up to collision.
   */
  lemma {:induction false} ProofDetermined(
    H: Hash, leaves: seq<Digest>, m: nat, complete: bool, trusted: Digest, proof: seq<Digest>)
    requires 1 <= m <= |leaves|
    requires Reconstructs(H, leaves, m, complete, trusted, proof)
    ensures Determined(H, leaves, m, complete, trusted, proof)
    decreases |leaves|
  {
    if m == |leaves| {
      assert leaves[..m] == leaves;
    } else {
      ProofIsNotEmpty(H, leaves, m, complete, trusted, proof);
      var k := Split(|leaves|);
      var below, sibling := proof[..|proof| - 1], proof[|proof| - 1];
      assert proof == below + [sibling];
      if m <= k {
        DescendLeft(H, leaves, m, complete, trusted, below, sibling);
        ProofDetermined(H, leaves[..k], m, complete, trusted, below);
        AscendLeft(H, leaves, m, complete, trusted, below);
      } else {
        DescendRight(H, leaves, m, complete, trusted, below, sibling);
        ProofDetermined(H, leaves[k..], m - k, false, trusted, below);
        AscendRight(H, leaves, m, complete, trusted, below);
      }
    }
  }

  /**
    Soundness without knowing the old list: an accepted proof to the root of a list binds the trusted root
    to that list's prefix, and no other proof is accepted, up to collision.
   */
  lemma ConsistencySound(H: Hash, leaves: seq<Digest>, m: nat, trusted: Digest, proof: seq<Digest>)
    requires 1 <= m <= |leaves|
    requires Accepts(H, m, |leaves|, trusted, Tree(H, leaves), proof)
    requires ProofClash(H, leaves, m, true, trusted, proof).None?
    ensures trusted == Tree(H, leaves[..m]) && proof == ConsistencyProof(H, leaves, m)
  {
    ProofDetermined(H, leaves, m, true, trusted, proof);
  }

  /** The same between two raw histories: the collision search of an accepted proof. */
  function HistoryClash(H: Hash, earlier: seq<Bytes>, later: seq<Bytes>, proof: seq<Digest>): (found: Option<Pair>)
    requires 1 <= |earlier| <= |later|
    ensures Genuine(H, found)
  {
    FirstOf(ProofClash(H, LeafHashes(H, later), |earlier|, true, LogRoot(H, earlier), proof),
            LogClash(H, earlier, later[..|earlier|]))
  }

  /** A proof accepted between the roots of two histories forces the old one to be a prefix of the new. */
  lemma ConsistencyForcesPrefix(H: Hash, earlier: seq<Bytes>, later: seq<Bytes>, proof: seq<Digest>)
    requires 1 <= |earlier| <= |later|
    requires Accepts(H, |earlier|, |later|, LogRoot(H, earlier), LogRoot(H, later), proof)
    requires HistoryClash(H, earlier, later, proof).None?
    ensures earlier <= later
  {
    ConsistencySound(H, LeafHashes(H, later), |earlier|, LogRoot(H, earlier), proof);
    LeafHashesSplit(H, later, |earlier|);
    LogRootBinds(H, earlier, later[..|earlier|]);
  }

  /**
    Full scan and proof mode decide alike: the generated proof is accepted against a trusted root exactly
    when the scanned prefix has that root, up to collision.
   */
  lemma ScanAndProofAgree(H: Hash, entries: seq<Bytes>, m: nat, trusted: Digest)
    requires 1 <= m <= |entries|
    requires var leaves := LeafHashes(H, entries);
      ProofClash(H, leaves, m, true, trusted, ConsistencyProof(H, leaves, m)).None?
    ensures Accepts(H, m, |entries|, trusted, LogRoot(H, entries),
                    ConsistencyProof(H, LeafHashes(H, entries), m))
       <==> trusted == LogRoot(H, entries[..m])
  {
    var leaves := LeafHashes(H, entries);
    LeafHashesSplit(H, entries, m);
    if trusted == LogRoot(H, entries[..m]) {
      ConsistencyComplete(H, leaves, m);
    } else if Accepts(H, m, |entries|, trusted, LogRoot(H, entries), ConsistencyProof(H, leaves, m)) {
      ConsistencySound(H, leaves, m, trusted, ConsistencyProof(H, leaves, m));
    }
  }

  /** A proof of the wrong length is rejected outright, whatever the hash function does. */
  lemma WrongLengthRejected(H: Hash, leaves: seq<Digest>, m: nat, trusted: Digest, root: Digest, proof: seq<Digest>)
    requires 1 <= m < |leaves| && |proof| != |ConsistencyProof(H, leaves, m)|
    ensures !Accepts(H, m, |leaves|, trusted, root, proof)
  {
    var valid := ConsistencyProof(H, leaves, m);
    ConsistencyComplete(H, leaves, m);
    ProofRootsIsClimb(H, m, |leaves|, true, Tree(H, leaves[..m]), valid);
    ProofRootsIsClimb(H, m, |leaves|, true, trusted, proof);
  }

  // ----- The shape of a proof, read from the leaf up -----

  /** The sides of a consistency proof above its first node: skip the levels where the old tree is full. */
  function ProofSides(f: nat, s: nat): seq<Side> {
    if f % 2 == 1 then ProofSides(f / 2, s / 2) else Sides(f, s)
  }

  /** The topmost level of a proof's shape, at a power of two p. */
  predicate HasProofTop(f: nat, s: nat, p: nat)
    requires f < s && 0 < p <= s
  {
    ProofSides(f, s) == if f < p then ProofSides(f, p - 1) + [Right] else ProofSides(f - p, s - p) + [Left]
  }

  lemma HasProofTopEven(f: nat, s: nat, e: nat)
    requires f < s && Pow2(e) <= s < 2 * Pow2(e) && f % 2 == 0
    ensures HasProofTop(f, s, Pow2(e))
  {
    SidesTop(f, s, e);
    if e > 0 {
      assert f >= Pow2(e) ==> (f - Pow2(e)) % 2 == 0;
    }
  }

  lemma HasProofTopOdd(f: nat, s: nat, q: nat)
    requires f < s && 0 < q && 2 * q <= s < 4 * q && f % 2 == 1 && f / 2 < s / 2 && HasProofTop(f / 2, s / 2, q)
    ensures HasProofTop(f, s, 2 * q)
  {
    if f >= 2 * q {
      assert (f - 2 * q) / 2 == f / 2 - q && (s - 2 * q) / 2 == s / 2 - q && (f - 2 * q) % 2 == 1;
    } else {
      assert (2 * q - 1) / 2 == q - 1;
    }
  }

  lemma {:induction false} ProofSidesTop(f: nat, s: nat, e: nat)
    requires f < s && Pow2(e) <= s < 2 * Pow2(e)
    ensures HasProofTop(f, s, Pow2(e))
  {
    if f % 2 == 0 {
      HasProofTopEven(f, s, e);
    } else {
      assert e > 0;
      ProofSidesTop(f / 2, s / 2, e - 1);
      HasProofTopOdd(f, s, Pow2(e - 1));
    }
  }

  /** A full tree, whose size is a power of two, has no sides left above its first node. */
  lemma {:induction false} ProofSidesFull(e: nat)
    ensures ProofSides(Pow2(e) - 1, Pow2(e) - 1) == []
  {
    if e > 0 {
      assert (Pow2(e) - 1) / 2 == Pow2(e - 1) - 1;
      ProofSidesFull(e - 1);
    }
  }

  function JoinBoth(H: Hash, side: Side, roots: Roots, p: Digest): Roots {
    if side.Left? then Roots(Node(H, p, roots.before), Node(H, p, roots.after))
    else Roots(roots.before, Node(H, roots.after, p))
  }

  /** Hashes a proof upwards, in the old tree and in the new tree at once. */
  function ClimbBoth(H: Hash, sides: seq<Side>, roots: Roots, path: seq<Digest>): Roots
    requires |sides| == |path|
  {
    if sides == [] then roots
    else ClimbBoth(H, sides[1..], JoinBoth(H, sides[0], roots, path[0]), path[1..])
  }

  lemma {:induction false} ClimbBothLast(H: Hash, sides: seq<Side>, side: Side, roots: Roots, path: seq<Digest>)
    requires |path| == |sides| + 1
    ensures ClimbBoth(H, sides + [side], roots, path)
         == JoinBoth(H, side, ClimbBoth(H, sides, roots, path[..|sides|]), path[|sides|])
  {
    if sides != [] {
      assert (sides + [side])[1..] == sides[1..] + [side];
      assert path[..|sides|][1..] == path[1..][..|sides| - 1];
      ClimbBothLast(H, sides[1..], side, JoinBoth(H, sides[0], roots, path[0]), path[1..]);
    }
  }

  /** The proof with its first node restored: a full old tree is its own first node. */
  function Restored(m: nat, complete: bool, trusted: Digest, proof: seq<Digest>): seq<Digest> {
    if complete && IsPow2(m) then [trusted] + proof else proof
  }

  /** The bottom-up reading of a restored proof. */
  function RestoredRoots(H: Hash, sides: seq<Side>, nodes: seq<Digest>): Option<Roots> {
    if |nodes| == |sides| + 1 then Some(ClimbBoth(H, sides, Roots(nodes[0], nodes[0]), nodes[1..])) else None
  }

  lemma RestoredRootsLast(H: Hash, sides: seq<Side>, side: Side, below: seq<Digest>, sibling: Digest)
    ensures var lower := RestoredRoots(H, sides, below);
      RestoredRoots(H, sides + [side], below + [sibling])
        == if lower.Some? then Some(JoinBoth(H, side, lower.value, sibling)) else None
  {
    if |below| == |sides| + 1 {
      var path := below[1..] + [sibling];
      assert (below + [sibling])[1..] == path && path[..|sides|] == below[1..];
      ClimbBothLast(H, sides, side, Roots(below[0], below[0]), path);
    }
  }

  lemma ClimbLeft(
    H: Hash, m: nat, n: nat, complete: bool, trusted: Digest, below: seq<Digest>, sibling: Digest, sides: seq<Side>)
    requires 1 <= m < n && m <= Split(n)
    requires ProofRoots(H, m, Split(n), complete, trusted, below)
          == RestoredRoots(H, sides, Restored(m, complete, trusted, below))
    ensures ProofRoots(H, m, n, complete, trusted, below + [sibling])
         == RestoredRoots(H, sides + [Right], Restored(m, complete, trusted, below + [sibling]))
  {
    var nodes := Restored(m, complete, trusted, below + [sibling]);
    assert nodes == Restored(m, complete, trusted, below) + [sibling];
    ProofRootsLeft(H, m, n, complete, trusted, below, sibling);
    RestoredRootsLast(H, sides, Right, Restored(m, complete, trusted, below), sibling);
  }

  lemma ClimbRight(
    H: Hash, m: nat, n: nat, complete: bool, trusted: Digest, below: seq<Digest>, sibling: Digest, sides: seq<Side>)
    requires 2 <= n && Split(n) < m < n
    requires ProofRoots(H, m - Split(n), n - Split(n), false, trusted, below) == RestoredRoots(H, sides, below)
    ensures ProofRoots(H, m, n, complete, trusted, below + [sibling])
         == RestoredRoots(H, sides + [Left], below + [sibling])
  {
    ProofRootsRight(H, m, n, complete, trusted, below, sibling);
    RestoredRootsLast(H, sides, Left, below, sibling);
  }

  /** The shape at the split; a power of two never reaches past it. */
  lemma ProofSidesSplit(m: nat, n: nat)
    requires 1 <= m < n
    ensures var k := Split(n);
      && (m == k ==> IsPow2(m)) && (IsPow2(m) ==> m <= k)
      && ProofSides(m - 1, n - 1) == (if m <= k then ProofSides(m - 1, k - 1) + [Right]
                                      else ProofSides(m - k - 1, n - k - 1) + [Left])
  {
    ProofSidesTop(m - 1, n - 1, SplitExponent(n));
    Pow2IsPow2(SplitExponent(n));
    if IsPow2(m) {
      Pow2FitsLeft(m, n);
    }
  }

  /** A proof's roots are those of its bottom-up climb along the shape that the two sizes determine. */
  predicate IsClimb(H: Hash, m: nat, n: nat, complete: bool, trusted: Digest, proof: seq<Digest>)
    requires 1 <= m <= n
  {
    ProofRoots(H, m, n, complete, trusted, proof)
      == RestoredRoots(H, ProofSides(m - 1, n - 1), Restored(m, complete, trusted, proof))
  }

  lemma IsClimbFull(H: Hash, m: nat, complete: bool, trusted: Digest, proof: seq<Digest>)
    requires 1 <= m && IsPow2(m)
    ensures IsClimb(H, m, m, complete, trusted, proof)
  {
    ProofSidesFull(ExponentOf(m));
  }

  lemma IsClimbEmpty(H: Hash, m: nat, n: nat, complete: bool, trusted: Digest)
    requires 1 <= m < n
    ensures IsClimb(H, m, n, complete, trusted, [])
  {
    ProofSidesSplit(m, n);
  }

  lemma IsClimbLeft(
    H: Hash, m: nat, n: nat, complete: bool, trusted: Digest, below: seq<Digest>, sibling: Digest)
    requires 1 <= m < n && m <= Split(n) && IsClimb(H, m, Split(n), complete, trusted, below)
    ensures IsClimb(H, m, n, complete, trusted, below + [sibling])
  {
    ProofSidesSplit(m, n);
    ClimbLeft(H, m, n, complete, trusted, below, sibling, ProofSides(m - 1, Split(n) - 1));
  }

  lemma IsClimbRight(
    H: Hash, m: nat, n: nat, complete: bool, trusted: Digest, below: seq<Digest>, sibling: Digest)
    requires 2 <= n && Split(n) < m < n && IsClimb(H, m - Split(n), n - Split(n), false, trusted, below)
    ensures IsClimb(H, m, n, complete, trusted, below + [sibling])
  {
    ProofSidesSplit(m, n);
    ClimbRight(H, m, n, complete, trusted, below, sibling, ProofSides(m - Split(n) - 1, n - Split(n) - 1));
  }

  /** ProofRoots is the bottom-up climb along the shape that the two sizes determine. */
  lemma {:induction false} ProofRootsIsClimb(
    H: Hash, m: nat, n: nat, complete: bool, trusted: Digest, proof: seq<Digest>)
    requires 1 <= m < n || (1 <= m == n && IsPow2(m))
    ensures IsClimb(H, m, n, complete, trusted, proof)
    decreases n
  {
    if m == n {
      IsClimbFull(H, m, complete, trusted, proof);
    } else if proof == [] {
      IsClimbEmpty(H, m, n, complete, trusted);
    } else {
      var k, below, sibling := Split(n), proof[..|proof| - 1], proof[|proof| - 1];
      assert proof == below + [sibling];
      ProofSidesSplit(m, n);
      if m <= k {
        ProofRootsIsClimb(H, m, k, complete, trusted, below);
        IsClimbLeft(H, m, n, complete, trusted, below, sibling);
      } else {
        ProofRootsIsClimb(H, m - k, n - k, false, trusted, below);
        IsClimbRight(H, m, n, complete, trusted, below, sibling);
      }
    }
  }

  /**
    The length of a consistency proof depends on the two sizes alone, and it is at most the logarithm of
    the size, rounded up, plus one.
   */
  lemma ConsistencyProofLength(H: Hash, leaves: seq<Digest>, m: nat, bits: nat)
    requires 1 <= m < |leaves| <= Pow2(bits)
    ensures |ConsistencyProof(H, leaves, m)|
         == |ProofSides(m - 1, |leaves| - 1)| + (if IsPow2(m) then 0 else 1)
    ensures 1 <= |ConsistencyProof(H, leaves, m)| <= bits + 1
  {
    var proof := ConsistencyProof(H, leaves, m);
    ConsistencyComplete(H, leaves, m);
    ProofRootsIsClimb(H, m, |leaves|, true, Tree(H, leaves[..m]), proof);
    ProofSidesBound(m - 1, |leaves| - 1, bits);
  }

  lemma {:induction false} ProofSidesBound(f: nat, s: nat, bits: nat)
    requires f <= s < Pow2(bits)
    ensures |ProofSides(f, s)| <= bits
  {
    if f % 2 == 1 {
      ProofSidesBound(f / 2, s / 2, bits - 1);
    } else {
      SidesBound(f, s, bits);
    }
  }

  /** Whether the rest of a proof leads from a pair of running hashes to the pair of roots. */
  predicate LeadsBoth(H: Hash, f: nat, s: nat, roots: Roots, path: seq<Digest>, goal: Roots) {
    |path| == |Sides(f, s)| && ClimbBoth(H, Sides(f, s), roots, path) == goal
  }

  /** One level up: the next proof node, in both trees on the left, or in the new tree on the right. */
  lemma LeadsBothUp(H: Hash, f: nat, s: nat, roots: Roots, rest: seq<Digest>, goal: Roots)
    requires f <= s && s != 0 && (f % 2 == 1 || f < s) && rest != []
    ensures var next := JoinBoth(H, if f % 2 == 1 then Left else Right, roots, rest[0]);
      LeadsBoth(H, f, s, roots, rest, goal) == LeadsBoth(H, f / 2, s / 2, next, rest[1..], goal)
  {
    assert Sides(f, s)[1..] == Sides(f / 2, s / 2);
  }

  /** Shifts away the levels at which the old tree is full. */
  method SkipFull(first: nat, last: nat) returns (f: nat, s: nat)
    requires first < last
    ensures f % 2 == 0 && f < s && ProofSides(f, s) == ProofSides(first, last)
  {
    f, s := first, last;
    while f % 2 == 1
      invariant f < s && ProofSides(f, s) == ProofSides(first, last)
      decreases f
    {
      f, s := f / 2, s / 2;
    }
  }

  /**
    Section 2.1.4.2 of RFC 9162, for 0 < first < second. It accepts exactly what the recursive inverse of
    the generator accepts.
   */
  method VerifyConsistency(
    H: Hash, first: nat, second: nat, firstHash: Digest, secondHash: Digest, proof: seq<Digest>)
    returns (ok: bool)
    requires 1 <= first < second
    ensures ok <==> Accepts(H, first, second, firstHash, secondHash, proof)
  {
    if proof == [] {
      return false;
    }
    ProofRootsIsClimb(H, first, second, true, firstHash, proof);
    var nodes := if IsPow2(first) then [firstHash] + proof else proof;
    var f, s := SkipFull(first - 1, second - 1);
    var fr, sr := nodes[0], nodes[0];
    ghost var goal := Roots(firstHash, secondHash);
    assert nodes[1..] == nodes[1..][0..];
    for i := 1 to |nodes|
      invariant f <= s
      invariant LeadsBoth(H, f, s, Roots(fr, sr), nodes[i..], goal)
            <==> Accepts(H, first, second, firstHash, secondHash, proof)
    {
      if s == 0 {
        return false;
      }
      assert nodes[i..][1..] == nodes[i + 1..];
      if f % 2 == 1 || f == s {
        f, s := SkipSingle(f, s);
        LeadsBothUp(H, f, s, Roots(fr, sr), nodes[i..], goal);
        fr, sr := Node(H, nodes[i], fr), Node(H, nodes[i], sr);
      } else {
        LeadsBothUp(H, f, s, Roots(fr, sr), nodes[i..], goal);
        sr := Node(H, sr, nodes[i]);
      }
      f, s := f / 2, s / 2;
    }
    SidesVanish(f, s);
    return fr == firstHash && sr == secondHash && s == 0;
  }
}
