/** Decimal digit strings, the natural numbers they denote, and powers of ten. */
module Decimals {

  predicate IsDigit(c: char) {
    '0' <= c <= '9'
  }

  predicate AllDigits(s: string) {
    forall i :: 0 <= i < |s| ==> IsDigit(s[i])
  }

  function DigitOf(c: char): (d: nat)
    requires IsDigit(c)
    ensures d < 10
  {
    c as int - '0' as int
  }

  function CharOf(d: nat): (c: char)
    requires d < 10
    ensures IsDigit(c) && DigitOf(c) == d
  {
    (d + '0' as int) as char
  }

  /** The number that a digit string denotes. */
  function NatOf(s: string): nat
    requires AllDigits(s)
  {
    if s == [] then 0 else 10 * NatOf(s[..|s| - 1]) + DigitOf(s[|s| - 1])
  }

  function Zeros(n: nat): (s: string)
    ensures |s| == n && AllDigits(s) && forall i :: 0 <= i < n ==> s[i] == '0'
  {
    seq(n, _ => '0')
  }

  function Pow10(n: nat): (p: nat)
    ensures p >= 1
  {
    if n == 0 then 1 else 10 * Pow10(n - 1)
  }

  lemma TenTimes(a: nat, b: nat)
    ensures 10 * (a * b) == a * (10 * b)
  {
  }

  lemma {:induction false} Pow10Adds(m: nat, n: nat)
    ensures Pow10(m + n) == Pow10(m) * Pow10(n)
  {
    if n > 0 {
      var rest := m + (n - 1);
      Pow10Adds(m, n - 1);
      TenTimes(Pow10(m), Pow10(n - 1));
      assert Pow10(rest + 1) == 10 * Pow10(rest);
    }
  }

  lemma ShiftDigit(high: nat, power: nat, low: nat, digit: nat)
    ensures 10 * (high * power + low) + digit == high * (10 * power) + (10 * low + digit)
  {
  }

  /** Python's `s.lstrip("0")`. */
  function LStrip(s: string): (t: string)
    ensures t == [] || t[0] != '0'
    ensures |t| <= |s| && t == s[|s| - |t|..]
  {
    if s != [] && s[0] == '0' then LStrip(s[1..]) else s
  }

  /** Python's `s.rstrip("0")`. */
  function RStrip(s: string): (t: string)
    ensures t == [] || t[|t| - 1] != '0'
    ensures |t| <= |s| && t == s[..|t|]
    ensures s != [] && s[0] != '0' ==> t != []
  {
    if s != [] && s[|s| - 1] == '0' then RStrip(s[..|s| - 1]) else s
  }

  lemma {:induction false} LStripZeros(n: nat, t: string)
    requires t == [] || t[0] != '0'
    ensures LStrip(Zeros(n) + t) == t
  {
    if n > 0 {
      assert (Zeros(n) + t)[1..] == Zeros(n - 1) + t;
      LStripZeros(n - 1, t);
    } else {
      assert Zeros(0) + t == t;
    }
  }

  lemma {:induction false} RStripZeros(t: string, n: nat)
    requires t == [] || t[|t| - 1] != '0'
    ensures RStrip(t + Zeros(n)) == t
  {
    if n > 0 {
      assert (t + Zeros(n))[..|t| + n - 1] == t + Zeros(n - 1);
      RStripZeros(t, n - 1);
    } else {
      assert t + Zeros(0) == t;
    }
  }

  lemma {:induction false} LeadingZero(s: string)
    requires AllDigits(s)
    ensures NatOf(['0'] + s) == NatOf(s)
  {
    var t := ['0'] + s;
    if s == [] {
      assert t[..0] == [];
    } else {
      assert t[..|t| - 1] == ['0'] + s[..|s| - 1];
      LeadingZero(s[..|s| - 1]);
    }
  }

  /** Leading zeros do not change the number. */
  lemma {:induction false} LStripKeepsNumber(s: string)
    requires AllDigits(s)
    ensures AllDigits(LStrip(s)) && NatOf(LStrip(s)) == NatOf(s)
  {
    if s != [] && s[0] == '0' {
      LStripKeepsNumber(s[1..]);
      assert s == ['0'] + s[1..];
      LeadingZero(s[1..]);
    }
  }

  /** Each trailing zero is a factor of ten. */
  lemma {:induction false} RStripScalesNumber(s: string)
    requires AllDigits(s)
    ensures AllDigits(RStrip(s)) && NatOf(s) == NatOf(RStrip(s)) * Pow10(|s| - |RStrip(s)|)
  {
    if s != [] && s[|s| - 1] == '0' {
      var t := RStrip(s);
      RStripScalesNumber(s[..|s| - 1]);
      ShiftDigit(NatOf(t), Pow10(|s| - 1 - |t|), 0, 0);
    }
  }

  lemma {:induction false} RStripRestores(s: string)
    ensures s == RStrip(s) + Zeros(|s| - |RStrip(s)|)
  {
    if s != [] && s[|s| - 1] == '0' {
      RStripRestores(s[..|s| - 1]);
      assert s == s[..|s| - 1] + ['0'];
    }
  }

  /** The digits between the first and the last nonzero digit. */
  function Significant(s: string): (t: string)
    requires AllDigits(s) && LStrip(s) != []
    ensures AllDigits(t) && t != [] && t[0] != '0' && t[|t| - 1] != '0'
  {
    LStripKeepsNumber(s);
    RStripScalesNumber(LStrip(s));
    RStrip(LStrip(s))
  }

  // ----- Printing natural numbers -----

  /** Python's `str(n)`. */
  function Str(n: nat): (s: string)
    ensures s != [] && AllDigits(s) && NatOf(s) == n
    ensures s[0] == '0' ==> n == 0
  {
    if n < 10 then
      assert NatOf([CharOf(n)]) == 10 * NatOf([CharOf(n)][..0]) + n;
      [CharOf(n)]
    else
      var s := Str(n / 10) + [CharOf(n % 10)];
      assert s[..|s| - 1] == Str(n / 10);
      s
  }

  lemma TenSplit(a: nat, d: nat, b: nat, e: nat)
    requires d < 10 && e < 10 && 10 * a + d == 10 * b + e
    ensures a == b && d == e
  {
  }

  /** Digit strings without a leading zero are determined by their number. */
  lemma {:induction false} NatOfInjective(s: string, t: string)
    requires AllDigits(s) && AllDigits(t)
    requires s != [] ==> s[0] != '0'
    requires t != [] ==> t[0] != '0'
    requires NatOf(s) == NatOf(t)
    ensures s == t
  {
    NatOfPositive(s);
    NatOfPositive(t);
    if s != [] {
      var s', c, t', d := s[..|s| - 1], s[|s| - 1], t[..|t| - 1], t[|t| - 1];
      TenSplit(NatOf(s'), DigitOf(c), NatOf(t'), DigitOf(d));
      NatOfInjective(s', t');
      assert s == s' + [c] && t == t' + [d];
    }
  }

  lemma {:induction false} NatOfPositive(s: string)
    requires AllDigits(s) && (s != [] ==> s[0] != '0')
    ensures NatOf(s) == 0 <==> s == []
  {
    if |s| > 1 {
      NatOfPositive(s[..|s| - 1]);
    }
  }

  lemma {:induction false} NatOfLowerBound(s: string)
    requires AllDigits(s) && s != [] && s[0] != '0'
    ensures NatOf(s) >= Pow10(|s| - 1)
  {
    if |s| > 1 {
      NatOfLowerBound(s[..|s| - 1]);
    }
  }
}
