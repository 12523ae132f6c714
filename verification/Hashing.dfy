/**
  Digests, the inputs that the log hashes, and hash collisions.

  The hash function is a parameter: an arbitrary function on the three kinds of input that the log hashes.
  No theorem assumes that it is injective. Where a property holds only for a collision-free hash, an
  extractor function computes a concrete colliding pair out of the data at hand, and the theorem says that
  the property holds whenever the extractor comes back empty.
 */
module Hashing {
  import opened Options

  newtype byte = b: int | 0 <= b < 256

  type Bytes = seq<byte>

  const DIGEST_SIZE := 32

  type Bytes32 = b: Bytes | |b| == DIGEST_SIZE witness seq(DIGEST_SIZE, _ => 0)

  datatype Digest = Digest(bytes: Bytes32)

  /** What gets hashed: nothing for the empty tree, a leaf entry, or two child digests. */
  datatype Input = Empty | Leaf(entry: Bytes) | Branch(left: Digest, right: Digest)

  type Hash = Input -> Digest

  /** The byte string of an input: the prefixes keep leaves and branches apart. */
  function Encode(input: Input): Bytes {
    match input
    case Empty => []
    case Leaf(entry) => [0] + entry
    case Branch(left, right) => [1] + left.bytes + right.bytes
  }

  lemma EncodeInjective(x: Input, y: Input)
    requires Encode(x) == Encode(y)
    ensures x == y
  {
    match x
    case Empty =>
    case Leaf(entry) =>
      assert entry == Encode(x)[1..] && Encode(x)[0] == 0;
      if y.Leaf? {
        assert y.entry == Encode(y)[1..];
      }
    case Branch(left, right) =>
      assert left.bytes == Encode(x)[1..33] && right.bytes == Encode(x)[33..] && Encode(x)[0] == 1;
      if y.Branch? {
        assert y.left.bytes == Encode(y)[1..33] && y.right.bytes == Encode(y)[33..];
      }
  }

  /** The log's hash function over a byte-level one, such as SHA-256. */
  function OverBytes(sha: Bytes -> Digest): Hash {
    input => sha(Encode(input))
  }

  /** Two inputs of a hash function. */
  datatype Pair = Pair(left: Input, right: Input)

  predicate Collides(H: Hash, pair: Pair) {
    pair.left != pair.right && H(pair.left) == H(pair.right)
  }

  /** A collision of the log's hash function is a collision of the byte-level one. */
  lemma CollisionOfBytes(sha: Bytes -> Digest, pair: Pair)
    requires Collides(OverBytes(sha), pair)
    ensures Encode(pair.left) != Encode(pair.right) && sha(Encode(pair.left)) == sha(Encode(pair.right))
  {
    if Encode(pair.left) == Encode(pair.right) {
      EncodeInjective(pair.left, pair.right);
    }
  }

  /** What an extractor returns is nothing or a genuine collision. */
  predicate Genuine(H: Hash, found: Option<Pair>) {
    found.Some? ==> Collides(H, found.value)
  }

  /** The pair (x, y) if it is a collision. */
  function Clash(H: Hash, x: Input, y: Input): (found: Option<Pair>)
    ensures Genuine(H, found)
    ensures found.None? && H(x) == H(y) ==> x == y
  {
    if Collides(H, Pair(x, y)) then Some(Pair(x, y)) else None
  }
}
