/**
  The fixture builders over the Merkle log: packaged inclusion evidence and the consistency cases from every
  trusted size to every larger size.
 */
module LogFixtures {
  import opened Options
  import opened Hashing
  import opened MerkleTree
  import opened Inclusion
  import opened Consistency

  // ----- package_case -----

  /** An entry to package, with the effect it stands for. */
  datatype Item = Item(raw: Bytes, effect: string, validProof: bool)

  /** A packaged entry; a missing path stands for the text that replaces a proof on purpose. */
  datatype Packaged = Packaged(index: nat, raw: Bytes, path: Option<seq<Digest>>, effect: string, proofValid: bool)

  function Raws(items: seq<Item>): (raws: seq<Bytes>)
    ensures |raws| == |items| && forall i :: 0 <= i < |items| ==> raws[i] == items[i].raw
  {
    seq(|items|, i requires 0 <= i < |items| => items[i].raw)
  }

  /** What packaged evidence promises about one item under the packaged root. */
  predicate Evidences(H: Hash, packaged: Packaged, item: Item, index: nat, size: nat, root: Digest)
    requires index < size
  {
    && packaged.index == index && packaged.raw == item.raw && packaged.effect == item.effect
    && packaged.proofValid == item.validProof
    && (if item.validProof then
          && packaged.path.Some?
          && PathRoot(H, index, size, LeafHash(H, item.raw), packaged.path.value) == Some(root)
        else
          packaged.path.None?)
  }

  /** Packages a log: the checkpoint root, and for every entry a path that verifies against that root. */
  method PackageCase(H: Hash, items: seq<Item>) returns (root: Digest, result: seq<Packaged>)
    ensures root == LogRoot(H, Raws(items))
    ensures |result| == |items|
    ensures forall i :: 0 <= i < |items| ==> Evidences(H, result[i], items[i], i, |items|, root)
  {
    var leaves := LeafHashes(H, Raws(items));
    root := Tree(H, leaves);
    result := [];
    for index := 0 to |items|
      invariant |result| == index
      invariant forall i :: 0 <= i < index ==> Evidences(H, result[i], items[i], i, |items|, root)
    {
      var item := items[index];
      var path := Some(AuditPath(H, leaves, index));
      AuditPathComplete(H, leaves, index);
      if !item.validProof {
        path := None;
      }
      result := result + [Packaged(index, item.raw, path, item.effect, item.validProof)];
    }
  }

  // ----- load_cases -----

  datatype Variant = Valid | MissingNode | ExtraNode | ChangedNode(index: nat)

  /** One case: a proof from trusted size m to size n and whether it must be accepted. */
  datatype Case = Case(m: nat, n: nat, variant: Variant, proof: seq<Digest>, ok: bool)

  /** Flips the lowest bit of the first byte of a node. */
  function Flipped(node: Digest): (flipped: Digest)
    ensures flipped != node
  {
    var first := node.bytes[0];
    Digest([if first % 2 == 0 then first + 1 else first - 1] + node.bytes[1..])
  }

  /** 32 zero bytes. */
  function ZeroNode(): Digest {
    Digest(seq(DIGEST_SIZE, i requires 0 <= i => 0))
  }

  /** The proof that a variant puts in place of the valid one. */
  function Tampered(valid: seq<Digest>, variant: Variant): seq<Digest>
    requires valid != []
    requires variant.ChangedNode? ==> variant.index < |valid|
  {
    match variant
    case Valid => valid
    case MissingNode => valid[..|valid| - 1]
    case ExtraNode => valid + [ZeroNode()]
    case ChangedNode(i) => valid[i := Flipped(valid[i])]
  }

  function VariantAt(i: nat): Variant {
    if i == 0 then Valid else if i == 1 then MissingNode else if i == 2 then ExtraNode else ChangedNode(i - 3)
  }

  function CaseAt(m: nat, n: nat, valid: seq<Digest>, i: nat): Case
    requires valid != [] && i < |valid| + 3
  {
    Case(m, n, VariantAt(i), Tampered(valid, VariantAt(i)), i == 0)
  }

  /** The cases of one pair of sizes. */
  function PairCases(m: nat, n: nat, valid: seq<Digest>): seq<Case>
    requires valid != []
  {
    seq(|valid| + 3, i requires 0 <= i < |valid| + 3 => CaseAt(m, n, valid, i))
  }

  function ValidProof(H: Hash, leaves: seq<Digest>, m: nat, n: nat): (proof: seq<Digest>)
    requires 1 <= m < n <= |leaves|
    ensures proof != []
  {
    ConsistencyProof(H, leaves[..n], m)
  }

  /** The cases of all trusted sizes below m, for the candidate size n. */
  function CasesBelow(H: Hash, leaves: seq<Digest>, m: nat, n: nat): seq<Case>
    requires 1 <= m <= n <= |leaves|
  {
    if m == 1 then []
    else CasesBelow(H, leaves, m - 1, n) + PairCases(m - 1, n, ValidProof(H, leaves, m - 1, n))
  }

  function AllCases(H: Hash, leaves: seq<Digest>, n: nat): seq<Case>
    requires n <= |leaves|
  {
    if n < 2 then [] else AllCases(H, leaves, n - 1) + CasesBelow(H, leaves, n, n)
  }

  /** The inner loops of the suite: the variants of one valid proof, as cases. */
  method BuildPairCases(m: nat, n: nat, valid: seq<Digest>) returns (cases: seq<Case>)
    requires valid != []
    ensures cases == PairCases(m, n, valid)
  {
    var variants := [(Valid, valid), (MissingNode, valid[..|valid| - 1]), (ExtraNode, valid + [ZeroNode()])];
    for i := 0 to |valid|
      invariant |variants| == i + 3
      invariant forall j :: 0 <= j < i + 3 ==> variants[j] == (VariantAt(j), Tampered(valid, VariantAt(j)))
    {
      variants := variants + [(ChangedNode(i), valid[i := Flipped(valid[i])])];
    }
    cases := [];
    for i := 0 to |variants|
      invariant cases == PairCases(m, n, valid)[..i]
    {
      var (variant, proof) := variants[i];
      cases := cases + [Case(m, n, variant, proof, variant == Valid)];
    }
  }

  method BuildCasesOf(H: Hash, leaves: seq<Digest>, n: nat) returns (cases: seq<Case>)
    requires 2 <= n <= |leaves|
    ensures cases == CasesBelow(H, leaves, n, n)
  {
    cases := [];
    for m := 1 to n
      invariant cases == CasesBelow(H, leaves, m, n)
    {
      var more := BuildPairCases(m, n, ValidProof(H, leaves, m, n));
      cases := cases + more;
    }
  }

  /** Builds the case list of the fixture suite. */
  method LoadCases(H: Hash, leaves: seq<Digest>) returns (cases: seq<Case>)
    ensures cases == AllCases(H, leaves, |leaves|)
  {
    cases := [];
    var n := 2;
    while n <= |leaves|
      invariant 2 <= n && cases == AllCases(H, leaves, if n <= |leaves| then n - 1 else |leaves|)
    {
      var more := BuildCasesOf(H, leaves, n);
      cases := cases + more;
      n := n + 1;
    }
  }

  /**
    What a case claims, proved: the valid proof advances from the root of the first m leaves to the root of
    the first n; a proof with a node missing or added is rejected; any other accepted proof yields a collision.
   */
  predicate CaseHolds(H: Hash, leaves: seq<Digest>, c: Case) {
    && 1 <= c.m < c.n <= |leaves|
    && c.ok == c.variant.Valid?
    && var trusted, root := Tree(H, leaves[..c.m]), Tree(H, leaves[..c.n]);
      && (c.ok ==> Accepts(H, c.m, c.n, trusted, root, c.proof))
      && (c.variant.MissingNode? || c.variant.ExtraNode? ==> !Accepts(H, c.m, c.n, trusted, root, c.proof))
      && (!c.ok && Accepts(H, c.m, c.n, trusted, root, c.proof)
          ==> ProofClash(H, leaves[..c.n], c.m, true, trusted, c.proof).Some?)
  }

  lemma PairCasesHold(H: Hash, leaves: seq<Digest>, m: nat, n: nat, i: nat)
    requires 1 <= m < n <= |leaves| && i < |ValidProof(H, leaves, m, n)| + 3
    ensures CaseHolds(H, leaves, CaseAt(m, n, ValidProof(H, leaves, m, n), i))
  {
    var valid := ValidProof(H, leaves, m, n);
    var proof := Tampered(valid, VariantAt(i));
    var trusted, root := Tree(H, leaves[..m]), Tree(H, leaves[..n]);
    assert leaves[..n][..m] == leaves[..m];
    if i == 0 {
      ConsistencyComplete(H, leaves[..n], m);
    } else {
      if i <= 2 {
        WrongLengthRejected(H, leaves[..n], m, trusted, root, proof);
      } else {
        assert proof[i - 3] != valid[i - 3];
      }
      if Accepts(H, m, n, trusted, root, proof) && ProofClash(H, leaves[..n], m, true, trusted, proof).None? {
        ConsistencySound(H, leaves[..n], m, trusted, proof);
      }
    }
  }

  lemma {:induction false} CasesBelowHold(H: Hash, leaves: seq<Digest>, m: nat, n: nat, c: Case)
    requires 1 <= m <= n <= |leaves| && c in CasesBelow(H, leaves, m, n)
    ensures CaseHolds(H, leaves, c)
  {
    var last := PairCases(m - 1, n, ValidProof(H, leaves, m - 1, n));
    if c in last {
      var i :| 0 <= i < |last| && last[i] == c;
      PairCasesHold(H, leaves, m - 1, n, i);
    } else {
      CasesBelowHold(H, leaves, m - 1, n, c);
    }
  }

  /** Every expectation of the generated suite holds, for every list of leaves of every length. */
  lemma {:induction false} AllCasesHold(H: Hash, leaves: seq<Digest>, n: nat, c: Case)
    requires n <= |leaves| && c in AllCases(H, leaves, n)
    ensures CaseHolds(H, leaves, c)
  {
    if c in CasesBelow(H, leaves, n, n) {
      CasesBelowHold(H, leaves, n, n, c);
    } else {
      AllCasesHold(H, leaves, n - 1, c);
    }
  }

  /** The suite covers every pair of sizes and every variant of its proof. */
  lemma {:induction false} AllCasesCover(H: Hash, leaves: seq<Digest>, m: nat, n: nat, i: nat, max: nat)
    requires 1 <= m < n <= max <= |leaves| && i < |ValidProof(H, leaves, m, n)| + 3
    ensures CaseAt(m, n, ValidProof(H, leaves, m, n), i) in AllCases(H, leaves, max)
  {
    if n < max {
      AllCasesCover(H, leaves, m, n, i, max - 1);
    } else {
      CasesBelowCover(H, leaves, m, n, i, n);
    }
  }

  lemma {:induction false} CasesBelowCover(H: Hash, leaves: seq<Digest>, m: nat, n: nat, i: nat, top: nat)
    requires 1 <= m < top <= n <= |leaves| && i < |ValidProof(H, leaves, m, n)| + 3
    ensures CaseAt(m, n, ValidProof(H, leaves, m, n), i) in CasesBelow(H, leaves, top, n)
  {
    if m < top - 1 {
      CasesBelowCover(H, leaves, m, n, i, top - 1);
    } else {
      var cases := PairCases(m, n, ValidProof(H, leaves, m, n));
      assert cases[i] in cases;
    }
  }
}
