/**
  The number printer of RFC 8785 (section 3.2.2.3): from the shortest round-trip form of a float, as Python's
  `repr` gives it, to ECMAScript's Number::toString.
 */
module Jcs {
  import opened Options
  import opened Decimals

  /** A decimal literal taken apart: whole and fraction digits, and the exponent of ten. */
  datatype Literal = Literal(whole: string, fraction: string, exponent: int) {
    predicate Valid() {
      AllDigits(whole) && AllDigits(fraction)
    }

    function Raw(): (raw: string)
      requires Valid()
      ensures AllDigits(raw)
    {
      whole + fraction
    }

    /** The value is Coefficient() times ten to the power Scale(). */
    function Coefficient(): nat
      requires Valid()
    {
      NatOf(Raw())
    }

    function Scale(): int {
      exponent - |fraction|
    }
  }

  type Finite = l: Literal | l.Valid() witness Literal("0", "", 0)

  /** Whether a * 10^i and b * 10^j are the same number. */
  predicate SameValue(a: nat, i: int, b: nat, j: int) {
    if i >= j then a * Pow10(i - j) == b else a == b * Pow10(j - i)
  }

  predicate Equal(a: Finite, b: Finite) {
    SameValue(a.Coefficient(), a.Scale(), b.Coefficient(), b.Scale())
  }

  /** A positive number in normal form: 0.digits times ten to the power point, with no zero at either end. */
  datatype RawDecimal = Decimal(digits: string, point: int)

  predicate Normal(d: RawDecimal) {
    && AllDigits(d.digits) && d.digits != []
    && d.digits[0] != '0' && d.digits[|d.digits| - 1] != '0'
  }

  type Decimal = d: RawDecimal | Normal(d) witness Decimal("1", 1)

  predicate IsZero(l: Finite) {
    LStrip(l.Raw()) == []
  }

  /** The significant digits and the position of the point. */
  function Normalize(l: Finite): Decimal
    requires !IsZero(l)
  {
    var raw := l.Raw();
    var point := |l.whole| + l.exponent - (|raw| - |LStrip(raw)|);
    Decimal(Significant(raw), point)
  }

  function Lead(d: Decimal): string {
    [d.digits[0]] + (if |d.digits| > 1 then "." + d.digits[1..] else "")
  }

  function ExponentText(point: int): string {
    if point > 0 then "+" + Str(point - 1) else "-" + Str(1 - point)
  }

  /** The four layouts. */
  function Print(d: Decimal): string {
    var digits, point, k := d.digits, d.point, |d.digits|;
    if k <= point <= 21 then digits + Zeros(point - k)
    else if 0 < point <= 21 then digits[..point] + "." + digits[point..]
    else if -6 < point <= 0 then "0." + Zeros(-point) + digits
    else
      Lead(d) + "e" + ExponentText(point)
  }

  /** A finite float: a sign and the digits of its magnitude. */
  datatype Float = Float(negative: bool, magnitude: Finite)

  function JcsNumber(f: Float): string {
    if IsZero(f.magnitude) then "0"
    else if f.negative then "-" + Print(Normalize(f.magnitude))
    else Print(Normalize(f.magnitude))
  }

  // ----- Reading a literal -----

  function IndexOf(s: string, c: char): (i: nat)
    ensures i <= |s| && (i < |s| ==> s[i] == c) && forall j :: 0 <= j < i ==> s[j] != c
  {
    if s == [] || s[0] == c then 0 else 1 + IndexOf(s[1..], c)
  }

  /** Python's `s.partition(c)`, without the separator. */
  function Partition(s: string, c: char): (string, string) {
    var i := IndexOf(s, c);
    (s[..i], if i < |s| then s[i + 1..] else "")
  }

  lemma PartitionAt(before: string, c: char, after: string)
    requires c !in before
    ensures Partition(before + [c] + after, c) == (before, after)
    ensures Partition(before, c) == (before, "")
  {
    var s := before + [c] + after;
    var i := IndexOf(s, c);
    assert s[|before|] == c;
    assert forall j :: 0 <= j < |before| ==> s[j] == before[j];
    assert s[..|before|] == before && s[|before| + 1..] == after;
    assert before[..|before|] == before;
  }

  function ReadInt(s: string): Option<int> {
    if s == [] then Some(0)
    else
      var unsigned := if s[0] == '+' || s[0] == '-' then s[1..] else s;
      if unsigned == [] || !AllDigits(unsigned) then None
      else
        var n: int := NatOf(unsigned);
        Some(if s[0] == '-' then -n else n)
  }

  /** Reads an unsigned literal by the printer's own two partitions, at 'e' and at the point. */
  function ReadLiteral(s: string): Option<Finite> {
    var (mantissa, exponent) := Partition(s, 'e');
    var (whole, fraction) := Partition(mantissa, '.');
    var e :- ReadInt(exponent);
    if whole != [] && AllDigits(whole) && AllDigits(fraction) then Some(Literal(whole, fraction, e)) else None
  }

  lemma ReadMantissa(whole: string, fraction: string, mantissa: string)
    requires AllDigits(whole) && AllDigits(fraction)
    requires mantissa == whole + "." + fraction || (mantissa == whole && fraction == "")
    ensures Partition(mantissa, '.') == (whole, fraction) && 'e' !in mantissa
  {
    PartitionAt(whole, '.', fraction);
  }

  lemma ReadPlain(whole: string, fraction: string, mantissa: string)
    requires whole != [] && AllDigits(whole) && AllDigits(fraction)
    requires mantissa == whole + "." + fraction || (mantissa == whole && fraction == "")
    ensures ReadLiteral(mantissa) == Some(Literal(whole, fraction, 0))
  {
    ReadMantissa(whole, fraction, mantissa);
    PartitionAt(mantissa, 'e', "");
  }

  lemma ReadScaled(whole: string, fraction: string, mantissa: string, e: string)
    requires whole != [] && AllDigits(whole) && AllDigits(fraction) && ReadInt(e).Some?
    requires mantissa == whole + "." + fraction || (mantissa == whole && fraction == "")
    ensures ReadLiteral(mantissa + "e" + e) == Some(Literal(whole, fraction, ReadInt(e).value))
  {
    ReadMantissa(whole, fraction, mantissa);
    PartitionAt(mantissa, 'e', e);
  }

  /** The literal that each layout writes. */
  function Layout(d: Decimal): Finite {
    var digits, point, k := d.digits, d.point, |d.digits|;
    if k <= point <= 21 then Literal(digits + Zeros(point - k), "", 0)
    else if 0 < point <= 21 then Literal(digits[..point], digits[point..], 0)
    else if -6 < point <= 0 then Literal("0", Zeros(-point) + digits, 0)
    else Literal([digits[0]], digits[1..], point - 1)
  }

  lemma ExponentTextReads(point: int)
    ensures ReadInt(ExponentText(point)) == Some(point - 1)
  {
    assert ExponentText(point)[1..] == if point > 0 then Str(point - 1) else Str(1 - point);
  }

  lemma ScaledReads(d: Decimal)
    ensures ReadLiteral(Lead(d) + "e" + ExponentText(d.point))
         == Some(Literal([d.digits[0]], d.digits[1..], d.point - 1))
  {
    var whole, fraction := [d.digits[0]], d.digits[1..];
    assert Lead(d) == whole + "." + fraction || (Lead(d) == whole && fraction == "");
    ExponentTextReads(d.point);
    ReadScaled(whole, fraction, Lead(d), ExponentText(d.point));
  }

  lemma PlainReads(d: Decimal)
    requires -6 < d.point <= 21
    ensures ReadLiteral(Print(d)) == Some(Layout(d))
  {
    var digits, point := d.digits, d.point;
    var l := Layout(d);
    if |digits| <= point {
      ReadPlain(l.whole, "", Print(d));
    } else if 0 < point {
      ReadPlain(l.whole, l.fraction, Print(d));
    } else {
      assert Print(d) == "0" + "." + (Zeros(-point) + digits);
      ReadPlain("0", l.fraction, Print(d));
    }
  }

  /** Print writes the literal of the layout. */
  lemma PrintReads(d: Decimal)
    ensures ReadLiteral(Print(d)) == Some(Layout(d))
  {
    if -6 < d.point <= 21 {
      PlainReads(d);
    } else {
      ScaledReads(d);
    }
  }

  /** Leading and trailing zeros are what Normalize drops. */
  lemma NormalizeStrips(l: Finite, leading: nat, d: Decimal, trailing: nat)
    requires l.Raw() == Zeros(leading) + (d.digits + Zeros(trailing))
    requires d.point == |l.whole| + l.exponent - leading
    ensures !IsZero(l) && Normalize(l) == d
  {
    LStripZeros(leading, d.digits + Zeros(trailing));
    RStripZeros(d.digits, trailing);
  }

  /** Every layout is a literal of the number laid out. */
  lemma LayoutNormalizes(d: Decimal)
    ensures !IsZero(Layout(d)) && Normalize(Layout(d)) == d
  {
    var digits, point, k := d.digits, d.point, |d.digits|;
    var l := Layout(d);
    if k <= point <= 21 {
      assert l.Raw() == Zeros(0) + (digits + Zeros(point - k));
      NormalizeStrips(l, 0, d, point - k);
    } else if -6 < point <= 0 {
      assert l.Raw() == Zeros(1 - point) + (digits + Zeros(0));
      NormalizeStrips(l, 1 - point, d, 0);
    } else {
      assert l.Raw() == Zeros(0) + (digits + Zeros(0));
      NormalizeStrips(l, 0, d, 0);
    }
  }

  // ----- Value -----

  /** The value of a normal form: its digits as a natural number, and the power of ten that scales them. */
  lemma NormalizeKeepsValue(l: Finite)
    requires !IsZero(l)
    ensures var d := Normalize(l);
      Denotes(d, l.Coefficient(), l.Scale())
  {
    var digits := LStrip(l.Raw());
    LStripKeepsNumber(l.Raw());
    RStripScalesNumber(digits);
    assert Normalize(l).point == l.Scale() + |digits|;
  }

  lemma SameValueTransitive(a: nat, i: int, b: nat, j: int, c: nat, k: int)
    requires SameValue(a, i, b, j) && SameValue(b, j, c, k)
    ensures SameValue(a, i, c, k)
  {
    ScaleTo(a, i, b, j, Low(Low(i, j), k));
    ScaleTo(b, j, c, k, Low(Low(i, j), k));
    UnscaleFrom(a, i, c, k, Low(Low(i, j), k));
  }

  function Low(i: int, j: int): int {
    if i <= j then i else j
  }

  lemma Scaled(a: nat, b: nat, p: nat, q: nat)
    requires a * p == b
    ensures a * (p * q) == b * q
  {
    assert a * (p * q) == (a * p) * q;
  }

  lemma Unscaled(a: nat, b: nat, p: nat, q: nat)
    requires q > 0 && a * (p * q) == b * q
    ensures a * p == b
  {
    assert a * (p * q) == (a * p) * q;
    Cancel(a * p, b, q);
  }

  lemma Cancel(x: nat, y: nat, q: nat)
    requires q > 0 && x * q == y * q
    ensures x == y
  {
  }

  /** Equal numbers are equal at every smaller scale. */
  lemma ScaleTo(a: nat, i: int, b: nat, j: int, low: int)
    requires SameValue(a, i, b, j) && low <= i && low <= j
    ensures a * Pow10(i - low) == b * Pow10(j - low)
  {
    if i >= j {
      Pow10Adds(i - j, j - low);
      Scaled(a, b, Pow10(i - j), Pow10(j - low));
    } else {
      Pow10Adds(j - i, i - low);
      Scaled(b, a, Pow10(j - i), Pow10(i - low));
    }
  }

  lemma UnscaleFrom(a: nat, i: int, b: nat, j: int, low: int)
    requires low <= i && low <= j && a * Pow10(i - low) == b * Pow10(j - low)
    ensures SameValue(a, i, b, j)
  {
    if i >= j {
      Pow10Adds(i - j, j - low);
      Unscaled(a, b, Pow10(i - j), Pow10(j - low));
    } else {
      Pow10Adds(j - i, i - low);
      Unscaled(b, a, Pow10(j - i), Pow10(i - low));
    }
  }

  lemma SameValueSymmetric(a: nat, i: int, b: nat, j: int)
    requires SameValue(a, i, b, j)
    ensures SameValue(b, j, a, i)
  {
  }

  /** Two normal forms of the same number are the same normal form. */
  lemma NormalFormUnique(c: Decimal, d: Decimal)
    requires SameValue(NatOf(c.digits), c.point - |c.digits|, NatOf(d.digits), d.point - |d.digits|)
    ensures c == d
  {
    var i, j := c.point - |c.digits|, d.point - |d.digits|;
    if i > j {
      TrailingZero(NatOf(c.digits), i - j, d.digits);
    } else if i < j {
      TrailingZero(NatOf(d.digits), j - i, c.digits);
    }
    NatOfInjective(c.digits, d.digits);
  }

  lemma LastDigit(q: nat, last: nat, m: nat)
    requires last < 10 && 10 * q + last == 10 * m
    ensures last == 0
  {
  }

  /** A multiple of ten ends in a zero. */
  lemma TrailingZero(n: nat, e: nat, digits: string)
    requires e > 0 && AllDigits(digits) && digits != [] && NatOf(digits) == n * Pow10(e)
    ensures digits[|digits| - 1] == '0'
  {
    TenTimes(n, Pow10(e - 1));
    LastDigit(NatOf(digits[..|digits| - 1]), DigitOf(digits[|digits| - 1]), n * Pow10(e - 1));
  }

  predicate Denotes(d: Decimal, a: nat, i: int) {
    SameValue(a, i, NatOf(d.digits), d.point - |d.digits|)
  }

  lemma DenotesSame(d: Decimal, a: nat, i: int, b: nat, j: int)
    requires Denotes(d, a, i) && Denotes(d, b, j)
    ensures SameValue(a, i, b, j)
  {
    SameValueTransitive(a, i, NatOf(d.digits), d.point - |d.digits|, b, j);
  }

  lemma SameDenotes(c: Decimal, a: nat, i: int, d: Decimal, b: nat, j: int)
    requires Denotes(c, a, i) && Denotes(d, b, j) && SameValue(a, i, b, j)
    ensures c == d
  {
    var u, k, v, l := NatOf(c.digits), c.point - |c.digits|, NatOf(d.digits), d.point - |d.digits|;
    SameValueTransitive(a, i, b, j, v, l);
    SameValueSymmetric(a, i, u, k);
    SameValueTransitive(u, k, a, i, v, l);
    NormalFormUnique(c, d);
  }

  /** Nonzero literals denote the same number if and only if they have the same normal form. */
  lemma EqualIffSameNormalForm(a: Finite, b: Finite)
    requires !IsZero(a) && !IsZero(b)
    ensures Equal(a, b) <==> Normalize(a) == Normalize(b)
  {
    NormalizeKeepsValue(a);
    NormalizeKeepsValue(b);
    if Equal(a, b) {
      SameDenotes(Normalize(a), a.Coefficient(), a.Scale(), Normalize(b), b.Coefficient(), b.Scale());
    } else if Normalize(a) == Normalize(b) {
      DenotesSame(Normalize(a), a.Coefficient(), a.Scale(), b.Coefficient(), b.Scale());
    }
  }

  lemma ZeroIffNoValue(l: Finite)
    ensures IsZero(l) <==> l.Coefficient() == 0
  {
    LStripKeepsNumber(l.Raw());
    NatOfPositive(LStrip(l.Raw()));
  }

  lemma PrintKeepsValue(l: Finite)
    requires !IsZero(l)
    ensures var read := ReadLiteral(Print(Normalize(l)));
      read.Some? && !IsZero(read.value) && Equal(read.value, l)
  {
    var d := Normalize(l);
    PrintReads(d);
    LayoutNormalizes(d);
    EqualIffSameNormalForm(Layout(d), l);
  }

  /** Whether two floats are equal, as numbers: the sign of zero does not count. */
  predicate SameFloat(f: Float, g: Float) {
    Equal(f.magnitude, g.magnitude) && (IsZero(f.magnitude) || f.negative == g.negative)
  }

  /** The printer is injective on normal forms. */
  lemma PrintInjective(c: Decimal, d: Decimal)
    requires Print(c) == Print(d)
    ensures c == d
  {
    PrintReads(c);
    PrintReads(d);
    LayoutNormalizes(c);
    LayoutNormalizes(d);
  }

  /** Normal form: floats print identically if and only if they are equal, across all the layouts. */
  lemma JcsNumberIsNormalForm(f: Float, g: Float)
    ensures JcsNumber(f) == JcsNumber(g) <==> SameFloat(f, g)
  {
    if IsZero(f.magnitude) || IsZero(g.magnitude) {
      ZeroEqualsZero(f.magnitude, g.magnitude);
      if !IsZero(f.magnitude) {
        PrintShape(Normalize(f.magnitude));
      }
      if !IsZero(g.magnitude) {
        PrintShape(Normalize(g.magnitude));
      }
    } else {
      var c, d := Normalize(f.magnitude), Normalize(g.magnitude);
      EqualIffSameNormalForm(f.magnitude, g.magnitude);
      PrintShape(c);
      PrintShape(d);
      assert ("-" + Print(c))[1..] == Print(c) && ("-" + Print(d))[1..] == Print(d);
      if JcsNumber(f) == JcsNumber(g) {
        PrintInjective(c, d);
      }
    }
  }

  /** Reads a float by its sign. */
  function ReadFloat(s: string): Option<Float> {
    if s != "" && s[0] == '-' then
      var l :- ReadLiteral(s[1..]);
      Some(Float(true, l))
    else
      var l :- ReadLiteral(s);
      Some(Float(false, l))
  }

  lemma ZeroReads()
    ensures ReadFloat("0") == Some(Float(false, Literal("0", "", 0))) && IsZero(Literal("0", "", 0))
  {
    ReadPlain("0", "", "0");
    assert LStrip("0") == [];
  }

  lemma ZeroKeepsValue(f: Float)
    requires IsZero(f.magnitude)
    ensures var read := ReadFloat("0");
      read.Some? && SameFloat(read.value, f)
  {
    ZeroReads();
    ZeroEqualsZero(Literal("0", "", 0), f.magnitude);
  }

  lemma SignedReads(text: string, negative: bool, l: Finite)
    requires ReadLiteral(text) == Some(l) && text != "" && IsDigit(text[0])
    ensures ReadFloat(if negative then "-" + text else text) == Some(Float(negative, l))
  {
    assert ("-" + text)[1..] == text;
  }

  /** Value preservation: the output, read back with its sign, denotes the number that was printed. */
  lemma JcsNumberKeepsValue(f: Float)
    ensures var read := ReadFloat(JcsNumber(f));
      read.Some? && SameFloat(read.value, f)
  {
    if IsZero(f.magnitude) {
      ZeroKeepsValue(f);
    } else {
      var text := Print(Normalize(f.magnitude));
      PrintKeepsValue(f.magnitude);
      PrintShape(Normalize(f.magnitude));
      SignedReads(text, f.negative, ReadLiteral(text).value);
    }
  }

  lemma ZeroEqualsZero(a: Finite, b: Finite)
    requires IsZero(a) || IsZero(b)
    ensures Equal(a, b) <==> IsZero(a) && IsZero(b)
  {
    ZeroIffNoValue(a);
    ZeroIffNoValue(b);
    ZeroTimes(a.Coefficient(), b.Coefficient(), a.Scale(), b.Scale());
  }

  lemma ZeroTimes(a: nat, b: nat, i: int, j: int)
    requires a == 0 || b == 0
    ensures SameValue(a, i, b, j) <==> a == b
  {
  }

  /** A printed number starts with a digit, is not the text of zero, and uses no other characters. */
  lemma PrintShape(d: Decimal)
    ensures Print(d) != [] && IsDigit(Print(d)[0]) && Print(d) != "0"
    ensures forall i :: 0 <= i < |Print(d)| ==> IsNumberChar(Print(d)[i])
  {
  }

  predicate IsNumberChar(c: char) {
    IsDigit(c) || c == '.' || c == 'e' || c == '+' || c == '-'
  }

  lemma ShortIntegerPrints(s: string)
    requires AllDigits(s) && s != [] && s[0] != '0' && |s| <= 21
    ensures JcsNumber(Float(false, Literal(s, "", 0))) == s
  {
    var l: Finite := Literal(s, "", 0);
    assert l.Raw() == s && LStrip(s) == s;
    assert Normalize(l) == Decimal(RStrip(s), |s|);
    RStripRestores(s);
  }

  lemma DigitsBelow(n: nat, bound: nat)
    requires 0 < n < Pow10(bound)
    ensures |Str(n)| <= bound && Str(n)[0] != '0'
  {
    var s := Str(n);
    NatOfLowerBound(s);
    ShortNumber(|s| - 1, bound);
  }

  lemma ZeroPrints()
    ensures JcsNumber(Float(false, Literal(Str(0), "", 0))) == Str(0)
  {
    var l: Finite := Literal(Str(0), "", 0);
    assert Str(0) == "0" && l.Raw() == Str(0);
    ZeroIffNoValue(l);
  }

  lemma IntegerPrints(n: nat, bound: nat)
    requires n < Pow10(bound) && bound <= 21
    ensures JcsNumber(Float(false, Literal(Str(n), "", 0))) == Str(n)
  {
    if n == 0 {
      ZeroPrints();
    } else {
      DigitsBelow(n, bound);
      ShortIntegerPrints(Str(n));
    }
  }

  /** An integer below 10^21 prints as itself: the integer branch of the encoder agrees with the float branch. */
  lemma IntegerPrintsAsItself(n: nat)
    requires n < Pow10(21)
    ensures JcsNumber(Float(false, Literal(Str(n), "", 0))) == Str(n)
  {
    IntegerPrints(n, 21);
  }

  lemma ShortNumber(length: nat, bound: nat)
    requires Pow10(length) < Pow10(bound)
    ensures length < bound
  {
    if bound <= length {
      Pow10Grows(bound, length);
    }
  }

  lemma {:induction false} Pow10Grows(m: nat, n: nat)
    requires m <= n
    ensures Pow10(m) <= Pow10(n)
  {
    if m < n {
      Pow10Grows(m, n - 1);
    }
  }
}
