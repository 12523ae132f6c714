/** The Merkle tree hash of section 2.1 of RFC 6962 and the binding of a root to its leaves. */
module MerkleTree {
  import opened Options
  import opened Hashing
  import opened PowerOfTwo

  function Node(H: Hash, left: Digest, right: Digest): Digest {
    H(Branch(left, right))
  }

  /** The tree hash over leaf hashes. */
  function Tree(H: Hash, leaves: seq<Digest>): Digest {
    if |leaves| == 0 then H(Empty)
    else if |leaves| == 1 then leaves[0]
    else
      var k := Split(|leaves|);
      Node(H, Tree(H, leaves[..k]), Tree(H, leaves[k..]))
  }

  /** The children hashed into two nodes, if they differ and collide. */
  function NodeClash(H: Hash, a: Digest, b: Digest, c: Digest, d: Digest): (found: Option<Pair>)
    ensures Genuine(H, found)
    ensures found.None? && Node(H, a, b) == Node(H, c, d) ==> a == c && b == d
  {
    Clash(H, Branch(a, b), Branch(c, d))
  }

  /** Searches two trees of the same size for a collision. */
  function TreeClash(H: Hash, xs: seq<Digest>, ys: seq<Digest>): (found: Option<Pair>)
    requires |xs| == |ys|
    ensures Genuine(H, found)
  {
    if |xs| <= 1 then None
    else
      var k := Split(|xs|);
      FirstOf(NodeClash(H, Tree(H, xs[..k]), Tree(H, xs[k..]), Tree(H, ys[..k]), Tree(H, ys[k..])),
              FirstOf(TreeClash(H, xs[..k], ys[..k]), TreeClash(H, xs[k..], ys[k..])))
  }

  /** Equal roots of equally many leaf hashes have the same leaf hashes, or TreeClash finds a collision. */
  lemma {:induction false} TreeBinds(H: Hash, xs: seq<Digest>, ys: seq<Digest>)
    requires |xs| == |ys| && Tree(H, xs) == Tree(H, ys)
    requires TreeClash(H, xs, ys).None?
    ensures xs == ys
  {
    if |xs| >= 2 {
      var k := Split(|xs|);
      TreeBinds(H, xs[..k], ys[..k]);
      TreeBinds(H, xs[k..], ys[k..]);
      assert xs == xs[..k] + xs[k..] && ys == ys[..k] + ys[k..];
    }
  }

  // ----- Trees over raw log entries -----

  function LeafHash(H: Hash, entry: Bytes): Digest {
    H(Leaf(entry))
  }

  function LeafHashes(H: Hash, entries: seq<Bytes>): (leaves: seq<Digest>)
    ensures |leaves| == |entries|
    ensures forall i :: 0 <= i < |entries| ==> leaves[i] == LeafHash(H, entries[i])
  {
    seq(|entries|, i requires 0 <= i < |entries| => LeafHash(H, entries[i]))
  }

  /** The root that a checkpoint of the log carries. */
  function LogRoot(H: Hash, entries: seq<Bytes>): Digest {
    Tree(H, LeafHashes(H, entries))
  }

  lemma LeafHashesSplit(H: Hash, entries: seq<Bytes>, k: nat)
    requires k <= |entries|
    ensures LeafHashes(H, entries[..k]) == LeafHashes(H, entries)[..k]
    ensures LeafHashes(H, entries[k..]) == LeafHashes(H, entries)[k..]
  {
  }

  /** The input whose hash is the root. */
  function RootInput(H: Hash, entries: seq<Bytes>): (input: Input)
    ensures H(input) == LogRoot(H, entries)
  {
    if |entries| == 0 then Empty
    else if |entries| == 1 then Leaf(entries[0])
    else
      var k := Split(|entries|);
      LeafHashesSplit(H, entries, k);
      Branch(LogRoot(H, entries[..k]), LogRoot(H, entries[k..]))
  }

  /** Searches two entry lists, of any lengths, for a collision. */
  function LogClash(H: Hash, xs: seq<Bytes>, ys: seq<Bytes>): (found: Option<Pair>)
    ensures Genuine(H, found)
  {
    var top := Clash(H, RootInput(H, xs), RootInput(H, ys));
    if top.None? && |xs| >= 2 && |ys| >= 2 then
      var k, l := Split(|xs|), Split(|ys|);
      FirstOf(LogClash(H, xs[..k], ys[..l]), LogClash(H, xs[k..], ys[l..]))
    else
      top
  }

  /**
    A root over raw entries commits to the whole list, even to its length: equal roots have equal lists or
    LogClash finds a collision. Leaves, branches and the empty tree hash different inputs.
   */
  lemma {:induction false} LogRootBinds(H: Hash, xs: seq<Bytes>, ys: seq<Bytes>)
    requires LogRoot(H, xs) == LogRoot(H, ys)
    requires LogClash(H, xs, ys).None?
    ensures xs == ys
  {
    assert RootInput(H, xs) == RootInput(H, ys);
    if |xs| >= 2 {
      var k, l := Split(|xs|), Split(|ys|);
      LogRootBinds(H, xs[..k], ys[..l]);
      LogRootBinds(H, xs[k..], ys[l..]);
      assert xs == xs[..k] + xs[k..] && ys == ys[..l] + ys[l..];
    }
  }
}
