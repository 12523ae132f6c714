/** The power-of-two split that every Merkle function of the repository computes from `bit_length`. */
module PowerOfTwo {

  function Pow2(e: nat): (p: nat)
    ensures p >= 1
  {
    if e == 0 then 1 else 2 * Pow2(e - 1)
  }

  /** Python's `int.bit_length` on a natural number. */
  function BitLength(n: nat): nat {
    if n == 0 then 0 else 1 + BitLength(n / 2)
  }

  lemma {:induction false} BitLengthBounds(n: nat)
    requires n > 0
    ensures BitLength(n) >= 1 && Pow2(BitLength(n) - 1) <= n < Pow2(BitLength(n))
  {
    if n > 1 {
      BitLengthBounds(n / 2);
    }
  }

  /** Doubles a power of two until twice it reaches n. */
  function SplitFrom(n: nat, k: nat): (r: nat)
    requires 1 <= k < n
    ensures k <= r < n <= 2 * r
    decreases n - k
  {
    if n <= 2 * k then k else SplitFrom(n, 2 * k)
  }

  /** Where a tree of n leaves is cut in two: the largest power of two below n. SplitIsShift gives the formula. */
  function Split(n: nat): (k: nat)
    requires n >= 2
    ensures 1 <= k < n <= 2 * k
  {
    SplitFrom(n, 1)
  }

  lemma {:induction false} SplitFromExponent(n: nat, e: nat) returns (f: nat)
    requires 1 <= Pow2(e) < n
    ensures SplitFrom(n, Pow2(e)) == Pow2(f)
    decreases n - Pow2(e)
  {
    if n <= 2 * Pow2(e) {
      f := e;
    } else {
      assert Pow2(e + 1) == 2 * Pow2(e);
      f := SplitFromExponent(n, e + 1);
    }
  }

  predicate IsPow2(n: nat) {
    n == 1 || (n > 1 && n % 2 == 0 && IsPow2(n / 2))
  }

  lemma {:induction false} Pow2IsPow2(e: nat)
    ensures IsPow2(Pow2(e))
  {
    if e > 0 {
      Pow2IsPow2(e - 1);
    }
  }

  lemma {:induction false} SplitIsUnique(n: nat, e: nat)
    requires n >= 2 && Pow2(e) < n <= 2 * Pow2(e)
    ensures Split(n) == Pow2(e)
  {
    var f := SplitFromExponent(n, 0);
    if e < f {
      Pow2Grows(e + 1, f);
    } else if f < e {
      Pow2Grows(f + 1, e);
    }
  }

  lemma {:induction false} Pow2Grows(e: nat, f: nat)
    requires e <= f
    ensures Pow2(e) <= Pow2(f)
  {
    if e < f {
      Pow2Grows(e, f - 1);
    }
  }

  /**
    The split is the largest power of two below n, so every size above the split of n and up to n has the
    same split. This is what lets one proof node stand in an old and a new tree at once.
   */
  lemma SplitAgrees(m: nat, n: nat)
    requires n >= 2 && Split(n) < m <= n
    ensures m >= 2 && Split(m) == Split(n)
  {
    var e := SplitFromExponent(n, 0);
    SplitIsUnique(m, e);
  }

  /** The split is `1 << ((n - 1).bit_length() - 1)`. */
  lemma SplitIsShift(n: nat)
    requires n >= 2
    ensures BitLength(n - 1) >= 1 && Split(n) == Pow2(BitLength(n - 1) - 1)
  {
    BitLengthBounds(n - 1);
    SplitIsUnique(n, BitLength(n - 1) - 1);
  }

  /** The exponent of the split: Split(n) == Pow2(SplitExponent(n)). */
  function SplitExponent(n: nat): (e: nat)
    requires n >= 2
    ensures Split(n) == Pow2(e)
  {
    SplitIsShift(n);
    BitLength(n - 1) - 1
  }

  /** A power of two between k and n exclusive cannot exist: a power of two below n fits below the split. */
  lemma {:induction false} Pow2FitsLeft(m: nat, n: nat)
    requires 1 <= m < n && IsPow2(m)
    ensures m <= Split(n)
  {
    var e := ExponentOf(m);
    var f := SplitExponent(n);
    if f < e {
      Pow2Grows(f + 1, e);
    } else {
      Pow2Grows(e, f);
    }
  }

  function ExponentOf(m: nat): (e: nat)
    requires m >= 1 && IsPow2(m)
    ensures Pow2(e) == m
  {
    if m == 1 then 0 else 1 + ExponentOf(m / 2)
  }
}
