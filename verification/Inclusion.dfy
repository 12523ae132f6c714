/**
  Audit paths (section 2.1.1 of RFC 6962): the generator, the verifier that inverts it, and the iterative
  verifier of section 2.1.3.2 of RFC 9162.
 */
module Inclusion {
  import opened Options
  import opened Hashing
  import opened PowerOfTwo
  import opened MerkleTree

  /** The siblings of a leaf, from the leaf up to the root. */
  function AuditPath(H: Hash, leaves: seq<Digest>, index: nat): seq<Digest>
    requires index < |leaves|
  {
    if |leaves| == 1 then []
    else
      var k := Split(|leaves|);
      if index < k then AuditPath(H, leaves[..k], index) + [Tree(H, leaves[k..])]
      else AuditPath(H, leaves[k..], index - k) + [Tree(H, leaves[..k])]
  }

  /** The recursive inverse of AuditPath: the root that a path leads to, if its length fits. */
  function PathRoot(H: Hash, index: nat, size: nat, leaf: Digest, path: seq<Digest>): Option<Digest>
    requires index < size
  {
    if size == 1 then
      if path == [] then Some(leaf) else None
    else if path == [] then None
    else
      var k := Split(size);
      var below, sibling := path[..|path| - 1], path[|path| - 1];
      if index < k then
        var left :- PathRoot(H, index, k, leaf, below);
        Some(Node(H, left, sibling))
      else
        var right :- PathRoot(H, index - k, size - k, leaf, below);
        Some(Node(H, sibling, right))
  }

  lemma PathRootLeft(H: Hash, index: nat, size: nat, leaf: Digest, below: seq<Digest>, sibling: Digest)
    requires 2 <= size && index < Split(size)
    ensures var lower := PathRoot(H, index, Split(size), leaf, below);
      PathRoot(H, index, size, leaf, below + [sibling])
        == if lower.Some? then Some(Node(H, lower.value, sibling)) else None
  {
    assert (below + [sibling])[..|below|] == below;
  }

  lemma PathRootRight(H: Hash, index: nat, size: nat, leaf: Digest, below: seq<Digest>, sibling: Digest)
    requires 2 <= size && Split(size) <= index < size
    ensures var lower := PathRoot(H, index - Split(size), size - Split(size), leaf, below);
      PathRoot(H, index, size, leaf, below + [sibling])
        == if lower.Some? then Some(Node(H, sibling, lower.value)) else None
  {
    assert (below + [sibling])[..|below|] == below;
  }

  lemma AuditPathSplits(H: Hash, leaves: seq<Digest>, index: nat)
    requires index < |leaves| && |leaves| > 1
    ensures var k := Split(|leaves|);
      && Tree(H, leaves) == Node(H, Tree(H, leaves[..k]), Tree(H, leaves[k..]))
      && AuditPath(H, leaves, index)
           == if index < k then AuditPath(H, leaves[..k], index) + [Tree(H, leaves[k..])]
              else AuditPath(H, leaves[k..], index - k) + [Tree(H, leaves[..k])]
  {
  }

  /** The generated path leads from its leaf to the root. */
  predicate PathLeads(H: Hash, leaves: seq<Digest>, index: nat)
    requires index < |leaves|
  {
    PathRoot(H, index, |leaves|, leaves[index], AuditPath(H, leaves, index)) == Some(Tree(H, leaves))
  }

  lemma PathLeadsLeft(H: Hash, leaves: seq<Digest>, index: nat)
    requires |leaves| > 1 && index < Split(|leaves|) && PathLeads(H, leaves[..Split(|leaves|)], index)
    ensures PathLeads(H, leaves, index)
  {
    var k := Split(|leaves|);
    AuditPathSplits(H, leaves, index);
    PathRootLeft(H, index, |leaves|, leaves[index], AuditPath(H, leaves[..k], index), Tree(H, leaves[k..]));
  }

  lemma PathLeadsRight(H: Hash, leaves: seq<Digest>, index: nat)
    requires |leaves| > 1 && Split(|leaves|) <= index < |leaves|
    requires PathLeads(H, leaves[Split(|leaves|)..], index - Split(|leaves|))
    ensures PathLeads(H, leaves, index)
  {
    var k := Split(|leaves|);
    AuditPathSplits(H, leaves, index);
    PathRootRight(H, index, |leaves|, leaves[index], AuditPath(H, leaves[k..], index - k), Tree(H, leaves[..k]));
  }

  /** Every generated path leads from its leaf to the root. */
  lemma {:induction false} AuditPathComplete(H: Hash, leaves: seq<Digest>, index: nat)
    requires index < |leaves|
    ensures PathLeads(H, leaves, index)
  {
    if |leaves| > 1 {
      var k := Split(|leaves|);
      if index < k {
        AuditPathComplete(H, leaves[..k], index);
        PathLeadsLeft(H, leaves, index);
      } else {
        AuditPathComplete(H, leaves[k..], index - k);
        PathLeadsRight(H, leaves, index);
      }
    }
  }

  /** Follows a path down a tree, searching for the collision that a false path needs. */
  function PathClash(H: Hash, leaves: seq<Digest>, index: nat, leaf: Digest, path: seq<Digest>)
    : (found: Option<Pair>)
    requires index < |leaves|
    ensures Genuine(H, found)
  {
    if |leaves| == 1 || path == [] then None
    else
      var k := Split(|leaves|);
      var below, sibling := path[..|path| - 1], path[|path| - 1];
      var left, right := Tree(H, leaves[..k]), Tree(H, leaves[k..]);
      if index < k then
        var lower := PathRoot(H, index, k, leaf, below);
        FirstOf(if lower.Some? then NodeClash(H, lower.value, sibling, left, right) else None,
                PathClash(H, leaves[..k], index, leaf, below))
      else
        var lower := PathRoot(H, index - k, |leaves| - k, leaf, below);
        FirstOf(if lower.Some? then NodeClash(H, sibling, lower.value, left, right) else None,
                PathClash(H, leaves[k..], index - k, leaf, below))
  }

  /** A path to the root of a larger tree is a path to the root of one half, next to the other half's root. */
  lemma PathDescends(H: Hash, leaves: seq<Digest>, index: nat, leaf: Digest, path: seq<Digest>)
    requires index < |leaves| && |leaves| > 1
    requires PathRoot(H, index, |leaves|, leaf, path) == Some(Tree(H, leaves))
    requires PathClash(H, leaves, index, leaf, path).None?
    ensures path != []
    ensures var k, below, sibling := Split(|leaves|), path[..|path| - 1], path[|path| - 1];
      if index < k then
        && sibling == Tree(H, leaves[k..])
        && PathRoot(H, index, k, leaf, below) == Some(Tree(H, leaves[..k]))
        && PathClash(H, leaves[..k], index, leaf, below).None?
      else
        && sibling == Tree(H, leaves[..k])
        && PathRoot(H, index - k, |leaves| - k, leaf, below) == Some(Tree(H, leaves[k..]))
        && PathClash(H, leaves[k..], index - k, leaf, below).None?
  {
  }

  lemma PathContinues(H: Hash, leaves: seq<Digest>, index: nat, path: seq<Digest>)
    requires index < |leaves| && |leaves| > 1 && path != []
    requires var k, below, sibling := Split(|leaves|), path[..|path| - 1], path[|path| - 1];
      if index < k then below == AuditPath(H, leaves[..k], index) && sibling == Tree(H, leaves[k..])
      else below == AuditPath(H, leaves[k..], index - k) && sibling == Tree(H, leaves[..k])
    ensures path == AuditPath(H, leaves, index)
  {
    AuditPathSplits(H, leaves, index);
    assert path == path[..|path| - 1] + [path[|path| - 1]];
  }

  /** An accepted path proves exactly the leaf at its index, and is the generated path, up to collision. */
  lemma {:induction false} AuditPathSound(
    H: Hash, leaves: seq<Digest>, index: nat, leaf: Digest, path: seq<Digest>)
    requires index < |leaves|
    requires PathRoot(H, index, |leaves|, leaf, path) == Some(Tree(H, leaves))
    requires PathClash(H, leaves, index, leaf, path).None?
    ensures leaf == leaves[index] && path == AuditPath(H, leaves, index)
  {
    if |leaves| > 1 {
      var k := Split(|leaves|);
      PathDescends(H, leaves, index, leaf, path);
      if index < k {
        AuditPathSound(H, leaves[..k], index, leaf, path[..|path| - 1]);
      } else {
        AuditPathSound(H, leaves[k..], index - k, leaf, path[..|path| - 1]);
      }
      PathContinues(H, leaves, index, path);
    }
  }

  /** Searches an entry and an accepted path over a raw log for a collision. */
  function EntryClash(H: Hash, entries: seq<Bytes>, index: nat, entry: Bytes, path: seq<Digest>)
    : (found: Option<Pair>)
    requires index < |entries|
    ensures Genuine(H, found)
  {
    FirstOf(PathClash(H, LeafHashes(H, entries), index, LeafHash(H, entry), path),
            Clash(H, Leaf(entry), Leaf(entries[index])))
  }

  /** A path from an entry to the root of a raw log proves that the log has this entry at this index. */
  lemma EntryIncluded(H: Hash, entries: seq<Bytes>, index: nat, entry: Bytes, path: seq<Digest>)
    requires index < |entries|
    requires PathRoot(H, index, |entries|, LeafHash(H, entry), path) == Some(LogRoot(H, entries))
    requires EntryClash(H, entries, index, entry, path).None?
    ensures entry == entries[index]
  {
    AuditPathSound(H, LeafHashes(H, entries), index, LeafHash(H, entry), path);
  }

  // ----- The shape of a path, read from the leaf up -----

  /** On which side of the running hash the next path node goes. */
  datatype Side = Left | Right

  /**
    The sides along a path, from the binary digits of the leaf index f and the last index s: a level at
    which the running node is the rightmost one and has no sibling contributes nothing.
   */
  function Sides(f: nat, s: nat): seq<Side> {
    if s == 0 then []
    else if f % 2 == 1 then [Left] + Sides(f / 2, s / 2)
    else if f == s then Sides(f / 2, s / 2)
    else [Right] + Sides(f / 2, s / 2)
  }

  /** Only a tree of one leaf has an empty path. */
  lemma {:induction false} SidesVanish(f: nat, s: nat)
    requires f <= s
    ensures Sides(f, s) == [] <==> s == 0
  {
    if s > 0 && f % 2 == 0 && f == s {
      SidesVanish(f / 2, s / 2);
    }
  }

  function Join(H: Hash, side: Side, r: Digest, p: Digest): Digest {
    if side.Left? then Node(H, p, r) else Node(H, r, p)
  }

  /** Hashes a path upwards. */
  function Climb(H: Hash, sides: seq<Side>, r: Digest, path: seq<Digest>): Digest
    requires |sides| == |path|
  {
    if sides == [] then r else Climb(H, sides[1..], Join(H, sides[0], r, path[0]), path[1..])
  }

  lemma {:induction false} ClimbLast(H: Hash, sides: seq<Side>, side: Side, r: Digest, path: seq<Digest>)
    requires |path| == |sides| + 1
    ensures Climb(H, sides + [side], r, path)
         == Join(H, side, Climb(H, sides, r, path[..|sides|]), path[|sides|])
  {
    if sides != [] {
      assert (sides + [side])[1..] == sides[1..] + [side];
      assert path[..|sides|][1..] == path[1..][..|sides| - 1];
      ClimbLast(H, sides[1..], side, Join(H, sides[0], r, path[0]), path[1..]);
    }
  }

  lemma SidesTopLow(f: nat, s: nat, k: nat)
    requires f < 2 * k <= s && Sides(f / 2, s / 2) == Sides(f / 2, k - 1) + [Right]
    ensures Sides(f, s) == Sides(f, 2 * k - 1) + [Right]
  {
    assert (2 * k - 1) / 2 == k - 1;
  }

  lemma SidesTopHigh(f: nat, s: nat, k: nat)
    requires 0 < k && 2 * k <= f <= s && Sides(f / 2, s / 2) == Sides(f / 2 - k, s / 2 - k) + [Left]
    ensures Sides(f, s) == Sides(f - 2 * k, s - 2 * k) + [Left]
  {
    assert (f - 2 * k) / 2 == f / 2 - k && (s - 2 * k) / 2 == s / 2 - k;
  }

  /** The topmost level of a shape, at a power of two p: the bottom-up reading agrees with the top-down split. */
  predicate HasTop(f: nat, s: nat, p: nat)
    requires f <= s && 0 < p <= s
  {
    Sides(f, s) == if f < p then Sides(f, p - 1) + [Right] else Sides(f - p, s - p) + [Left]
  }

  lemma HasTopDoubles(f: nat, s: nat, q: nat)
    requires f <= s && 0 < q && 2 * q <= s < 4 * q && HasTop(f / 2, s / 2, q)
    ensures HasTop(f, s, 2 * q)
  {
    if f < 2 * q {
      SidesTopLow(f, s, q);
    } else {
      SidesTopHigh(f, s, q);
    }
  }

  /** Peels the topmost level off a shape. */
  lemma {:induction false} SidesTop(f: nat, s: nat, e: nat)
    requires f <= s && Pow2(e) <= s < 2 * Pow2(e)
    ensures HasTop(f, s, Pow2(e))
  {
    if e == 0 {
      assert s == 1 && Sides(f / 2, 0) == [];
    } else {
      SidesTop(f / 2, s / 2, e - 1);
      HasTopDoubles(f, s, Pow2(e - 1));
    }
  }

  /** The root that a leaf climbs to along a shape, if the path has its length. */
  function Reached(H: Hash, sides: seq<Side>, leaf: Digest, path: seq<Digest>): Option<Digest> {
    if |path| == |sides| then Some(Climb(H, sides, leaf, path)) else None
  }

  lemma ReachedLast(H: Hash, sides: seq<Side>, side: Side, leaf: Digest, path: seq<Digest>)
    requires path != []
    ensures var below := Reached(H, sides, leaf, path[..|path| - 1]);
      Reached(H, sides + [side], leaf, path)
        == if below.Some? then Some(Join(H, side, below.value, path[|path| - 1])) else None
  {
    if |path| == |sides| + 1 {
      ClimbLast(H, sides, side, leaf, path);
    }
  }

  /** The shape of a tree at its split. */
  lemma SidesSplit(index: nat, size: nat)
    requires index < size && 2 <= size
    ensures var k := Split(size);
      Sides(index, size - 1)
        == if index < k then Sides(index, k - 1) + [Right] else Sides(index - k, size - k - 1) + [Left]
  {
    SidesTop(index, size - 1, SplitExponent(size));
  }

  /** The root of a path is that of its bottom-up climb along the shape that the index and the size determine. */
  predicate Climbs(H: Hash, index: nat, size: nat, leaf: Digest, path: seq<Digest>)
    requires index < size
  {
    PathRoot(H, index, size, leaf, path) == Reached(H, Sides(index, size - 1), leaf, path)
  }

  lemma ClimbsEmpty(H: Hash, index: nat, size: nat, leaf: Digest)
    requires index < size && 2 <= size
    ensures Climbs(H, index, size, leaf, [])
  {
    SidesSplit(index, size);
  }

  lemma ClimbsLeft(H: Hash, index: nat, size: nat, leaf: Digest, below: seq<Digest>, sibling: Digest)
    requires 2 <= size && index < Split(size) && Climbs(H, index, Split(size), leaf, below)
    ensures Climbs(H, index, size, leaf, below + [sibling])
  {
    SidesSplit(index, size);
    PathRootLeft(H, index, size, leaf, below, sibling);
    ReachedLast(H, Sides(index, Split(size) - 1), Right, leaf, below + [sibling]);
  }

  lemma ClimbsRight(H: Hash, index: nat, size: nat, leaf: Digest, below: seq<Digest>, sibling: Digest)
    requires 2 <= size && Split(size) <= index < size
    requires Climbs(H, index - Split(size), size - Split(size), leaf, below)
    ensures Climbs(H, index, size, leaf, below + [sibling])
  {
    SidesSplit(index, size);
    PathRootRight(H, index, size, leaf, below, sibling);
    ReachedLast(H, Sides(index - Split(size), size - Split(size) - 1), Left, leaf, below + [sibling]);
  }

  /** PathRoot is the bottom-up climb along the shape that the index and the size determine. */
  lemma {:induction false} PathRootIsClimb(H: Hash, index: nat, size: nat, leaf: Digest, path: seq<Digest>)
    requires index < size
    ensures Climbs(H, index, size, leaf, path)
  {
    if size > 1 {
      if path == [] {
        ClimbsEmpty(H, index, size, leaf);
      } else {
        var k, below, sibling := Split(size), path[..|path| - 1], path[|path| - 1];
        assert path == below + [sibling];
        if index < k {
          PathRootIsClimb(H, index, k, leaf, below);
          ClimbsLeft(H, index, size, leaf, below, sibling);
        } else {
          PathRootIsClimb(H, index - k, size - k, leaf, below);
          ClimbsRight(H, index, size, leaf, below, sibling);
        }
      }
    }
  }

  lemma PathRootLength(H: Hash, index: nat, size: nat, leaf: Digest, path: seq<Digest>)
    requires index < size && PathRoot(H, index, size, leaf, path).Some?
    ensures |path| == |Sides(index, size - 1)|
  {
    PathRootIsClimb(H, index, size, leaf, path);
  }

  lemma {:induction false} SidesBound(f: nat, s: nat, bits: nat)
    requires f <= s < Pow2(bits)
    ensures |Sides(f, s)| <= bits
  {
    if s > 0 {
      SidesBound(f / 2, s / 2, bits - 1);
    }
  }

  /**
    The length of an audit path depends on the index and the size alone, and it is at most the logarithm
    of the size, rounded up: a tree of at most 2^bits leaves has paths of at most `bits` nodes.
   */
  lemma AuditPathLength(H: Hash, leaves: seq<Digest>, index: nat, bits: nat)
    requires index < |leaves| <= Pow2(bits)
    ensures |AuditPath(H, leaves, index)| == |Sides(index, |leaves| - 1)| <= bits
  {
    AuditPathComplete(H, leaves, index);
    PathRootLength(H, index, |leaves|, leaves[index], AuditPath(H, leaves, index));
    SidesBound(index, |leaves| - 1, bits);
  }

  /** Whether the rest of a path leads from a running hash to the root. */
  predicate Leads(H: Hash, f: nat, s: nat, r: Digest, path: seq<Digest>, root: Digest) {
    |path| == |Sides(f, s)| && Climb(H, Sides(f, s), r, path) == root
  }

  /** Shifts away the levels at which the running node has no sibling. */
  method SkipSingle(first: nat, last: nat) returns (f: nat, s: nat)
    requires first <= last && last != 0 && (first % 2 == 1 || first == last)
    ensures f % 2 == 1 && f <= s && Sides(f, s) == Sides(first, last)
  {
    f, s := first, last;
    while f % 2 == 0
      invariant f <= s && s != 0 && (f % 2 == 0 ==> f == s) && Sides(f, s) == Sides(first, last)
      decreases s
    {
      f, s := f / 2, s / 2;
    }
  }

  /** One level up: the next path node, on the left or on the right. */
  lemma LeadsUp(H: Hash, f: nat, s: nat, r: Digest, rest: seq<Digest>, root: Digest)
    requires f <= s && s != 0 && (f % 2 == 1 || f < s) && rest != []
    ensures var next := Join(H, if f % 2 == 1 then Left else Right, r, rest[0]);
      Leads(H, f, s, r, rest, root) == Leads(H, f / 2, s / 2, next, rest[1..], root)
  {
    assert Sides(f, s)[1..] == Sides(f / 2, s / 2);
  }

  /**
    Section 2.1.3.2 of RFC 9162. It accepts exactly what the recursive inverse of the generator accepts.
   */
  method VerifyInclusion(H: Hash, index: nat, size: nat, leaf: Digest, path: seq<Digest>, root: Digest)
    returns (ok: bool)
    ensures ok <==> index < size && PathRoot(H, index, size, leaf, path) == Some(root)
  {
    if index >= size {
      return false;
    }
    PathRootIsClimb(H, index, size, leaf, path);
    var f: nat, s: nat, r := index, size - 1, leaf;
    for i := 0 to |path|
      invariant f <= s
      invariant Leads(H, f, s, r, path[i..], root) == Leads(H, index, size - 1, leaf, path, root)
    {
      if s == 0 {
        return false;
      }
      assert path[i..][1..] == path[i + 1..];
      if f % 2 == 1 || f == s {
        f, s := SkipSingle(f, s);
        LeadsUp(H, f, s, r, path[i..], root);
        r := Node(H, path[i], r);
      } else {
        LeadsUp(H, f, s, r, path[i..], root);
        r := Node(H, r, path[i]);
      }
      f, s := f / 2, s / 2;
    }
    SidesVanish(f, s);
    return s == 0 && r == root;
  }
}
