/** How amounts are printed and read back: Decimal.toString and the Decimal constructor. */
module Format {
  import opened Decimals
  import opened Money
  import opened Schema

  // ---- Digit strings ----

  predicate IsDigit(c: char) {
    '0' <= c <= '9'
  }

  predicate AllDigits(s: string) {
    forall c :: c in s ==> IsDigit(c)
  }

  function DigitChar(d: nat): char
    requires d < 10
  {
    '0' + d as char
  }

  function DigitValue(c: char): nat
    requires IsDigit(c)
  {
    c as nat - '0' as nat
  }

  lemma DigitsAre(d: nat)
    requires d < 10
    ensures DigitChar(d) == "0123456789"[d] && IsDigit("0123456789"[d]) && DigitValue("0123456789"[d]) == d
  {
  }

  function NatString(n: nat): (s: string)
    ensures s != ""
  {
    if n < 10 then [DigitChar(n)] else NatString(n / 10) + [DigitChar(n % 10)]
  }

  /** The number a digit string reads as. */
  function ParseNat(s: string): nat
    requires AllDigits(s)
  {
    if s == "" then 0 else ParseNat(s[..|s| - 1]) * 10 + DigitValue(s[|s| - 1])
  }

  function Zeros(n: nat): (s: string)
    ensures AllDigits(s) && |s| == n
  {
    seq(n, _ => '0')
  }

  lemma {:induction false} NatStringReads(n: nat)
    ensures AllDigits(NatString(n)) && ParseNat(NatString(n)) == n
    ensures n > 0 ==> |NatString(n)| == Digits(n)
  {
    if n >= 10 {
      NatStringReads(n / 10);
      assert NatString(n)[..|NatString(n)| - 1] == NatString(n / 10);
    } else {
      assert NatString(n)[..0] == "";
      assert Digits(n / 10) == 0;
    }
  }

  lemma {:induction false} ParseConcat(a: string, b: string)
    requires AllDigits(a) && AllDigits(b)
    ensures AllDigits(a + b) && ParseNat(a + b) == ParseNat(a) * Pow10(|b|) + ParseNat(b)
  {
    if b == "" {
      assert a + b == a;
      assert Pow10(0) == 1;
    } else {
      var n := |b| - 1;
      ParseConcat(a, b[..n]);
      assert (a + b)[..|a + b| - 1] == a + b[..n];
      NextDigit(ParseNat(a), Pow10(n), ParseNat(b[..n]), DigitValue(b[n]));
      assert Pow10(|b|) == Pow10(n) * 10;
    }
  }

  lemma NextDigit(x: nat, p: nat, y: nat, d: nat)
    ensures (x * p + y) * 10 + d == x * (p * 10) + (y * 10 + d)
  {
    Regroup(x, p, 10);
  }

  lemma {:induction false} ParseZeros(n: nat)
    ensures ParseNat(Zeros(n)) == 0
  {
    if n > 0 {
      assert Zeros(n)[..n - 1] == Zeros(n - 1);
      ParseZeros(n - 1);
    }
  }

  // ---- Decimal.toString ----

  /** The coefficient without its trailing zeros, and how many there were. */
  function Significant(n: nat): nat {
    if n == 0 || n % 10 != 0 then n else Significant(n / 10)
  }

  function TrailingZeros(n: nat): nat {
    if n == 0 || n % 10 != 0 then 0 else 1 + TrailingZeros(n / 10)
  }

  lemma {:induction false} SignificantTimesZeros(n: nat)
    ensures n == Significant(n) * Pow10(TrailingZeros(n))
    ensures n > 0 ==> Significant(n) > 0 && Digits(n) == Digits(Significant(n)) + TrailingZeros(n)
  {
    if n > 0 && n % 10 == 0 {
      SignificantTimesZeros(n / 10);
      assert n == n / 10 * 10;
      Regroup(Significant(n / 10), Pow10(TrailingZeros(n / 10)), 10);
    } else {
      assert Pow10(0) == 1;
    }
  }

  function Mantissa(digits: string): string {
    if |digits| > 1 then digits[..1] + "." + digits[1..] else digits
  }

  function Power(e: int): string {
    if e < 0 then "-" + NatString(-e) else "+" + NatString(e)
  }

  /** Scientific notation of digits d.ddd times 10^e. */
  function Exponential(digits: string, e: int): string
    requires digits != ""
  {
    Mantissa(digits) + "e" + Power(e)
  }

  function Plain(digits: string, e: int): string
    requires digits != ""
  {
    if e < 0 then "0." + Zeros(-e - 1) + digits
    else if e >= |digits| then digits + Zeros(e + 1 - |digits|)
    else if e + 1 < |digits| then digits[..e + 1] + "." + digits[e + 1..]
    else digits
  }

  /** toExpNeg and toExpPos at their defaults. */
  predicate PrintsExponential(e: int) {
    e <= -7 || e >= 21
  }

  /** The power of ten of the leading digit. */
  function LeadingExponent(d: Decimal): int {
    Digits(Magnitude(d.coefficient)) - 1 - d.scale
  }

  function Unsigned(d: Decimal): (s: string) {
    var digits := NatString(Significant(Magnitude(d.coefficient)));
    var e := LeadingExponent(d);
    if d.coefficient == 0 then "0"
    else if PrintsExponential(e) then Exponential(digits, e)
    else Plain(digits, e)
  }

  function ToString(d: Decimal): string {
    if d.coefficient < 0 then "-" + Unsigned(d) else Unsigned(d)
  }

  function FormatMinorUnits(minor: int): string {
    ToString(FromMinorUnits(minor))
  }

  // ---- The Decimal constructor ----

  /** Index of the first c, or the length when there is none. */
  function Find(s: string, c: char): (i: nat)
    ensures i <= |s|
    ensures forall k :: 0 <= k < i ==> s[k] != c
    ensures i < |s| ==> s[i] == c
  {
    if s == "" || s[0] == c then 0 else 1 + Find(s[1..], c)
  }

  function ParseExponent(s: string): Option<int> {
    if s == "" then None
    else if s[0] == '-' then (if s[1..] != "" && AllDigits(s[1..]) then Some(-(ParseNat(s[1..]) as int)) else None)
    else if s[0] == '+' then (if s[1..] != "" && AllDigits(s[1..]) then Some(ParseNat(s[1..])) else None)
    else if AllDigits(s) then Some(ParseNat(s))
    else None
  }

  /** whole.fraction times 10^exponent. */
  function Assemble(whole: string, fraction: string, exponent: int): Option<Decimal> {
    if !AllDigits(whole) || !AllDigits(fraction) || whole + fraction == "" then None
    else
      var scale := |fraction| - exponent;
      var c := ParseNat(whole + fraction);
      Some(if scale >= 0 then Decimal(c, scale) else Decimal(c * Pow10(-scale), 0))
  }

  function ParseMantissa(s: string, exponent: int): Option<Decimal> {
    var dot := Find(s, '.');
    Assemble(s[..dot], if dot < |s| then s[dot + 1..] else "", exponent)
  }

  function ParseUnsigned(s: string): Option<Decimal> {
    var mark := Find(s, 'e');
    if mark == |s| then ParseMantissa(s, 0)
    else
      match ParseExponent(s[mark + 1..])
      case None => None
      case Some(exponent) => ParseMantissa(s[..mark], exponent)
  }

  function Negate(d: Option<Decimal>): Option<Decimal> {
    match d
    case None => None
    case Some(v) => Some(Decimal(-v.coefficient, v.scale))
  }

  function Parse(s: string): Option<Decimal> {
    if s != "" && s[0] == '-' then Negate(ParseUnsigned(s[1..])) else ParseUnsigned(s)
  }

  /** POSITIVE_DECIMAL_REGEX, the pattern request amounts must match. */
  predicate MatchesAmountPattern(s: string) {
    var dot := Find(s, '.');
    && dot > 0 && AllDigits(s[..dot])
    && (dot < |s| ==> s[dot + 1..] != "" && AllDigits(s[dot + 1..]))
  }

  // ---- Reading back what was printed ----

  lemma FindAt(before: string, c: char, after: string)
    requires c !in before
    ensures Find(before + [c] + after, c) == |before|
    ensures (before + [c] + after)[..|before|] == before
    ensures (before + [c] + after)[|before| + 1..] == after
  {
    var s := before + [c] + after;
    assert s[|before|] == c;
    assert forall k :: 0 <= k < |before| ==> s[k] == before[k] && before[k] in before;
  }

  lemma FindNone(s: string, c: char)
    requires c !in s
    ensures Find(s, c) == |s|
  {
  }

  lemma ReadWhole(digits: string, exponent: int)
    requires digits != "" && AllDigits(digits)
    ensures ParseMantissa(digits, exponent) == Assemble(digits, "", exponent)
  {
    FindNone(digits, '.');
    assert digits[..|digits|] == digits;
  }

  lemma ReadPoint(whole: string, fraction: string, exponent: int)
    requires AllDigits(whole)
    ensures ParseMantissa(whole + "." + fraction, exponent) == Assemble(whole, fraction, exponent)
  {
    FindAt(whole, '.', fraction);
  }

  /** A decimal is m times 10^(e - |m| + 1), written any of the ways it can be read. */
  ghost predicate Denotes(d: Decimal, m: nat, shift: int) {
    d == if shift >= 0 then Decimal(m * Pow10(shift), 0) else Decimal(m, -shift)
  }

  lemma NoExponentMark(s: string)
    requires 'e' !in s
    ensures ParseUnsigned(s) == ParseMantissa(s, 0)
  {
    FindNone(s, 'e');
  }

  lemma PointedReads(whole: string, fraction: string)
    requires AllDigits(whole) && AllDigits(fraction)
    ensures ParseUnsigned(whole + "." + fraction) == Assemble(whole, fraction, 0)
  {
    NoExponentMark(whole + "." + fraction);
    ReadPoint(whole, fraction, 0);
  }

  lemma IntegerReads(digits: string)
    requires AllDigits(digits) && digits != ""
    ensures ParseUnsigned(digits) == Some(Decimal(ParseNat(digits), 0))
  {
    NoExponentMark(digits);
    ReadWhole(digits, 0);
    assert digits + "" == digits;
  }

  lemma LeadingZerosDoNotCount(digits: string, n: nat)
    requires AllDigits(digits)
    ensures AllDigits("0" + (Zeros(n) + digits)) && ParseNat("0" + (Zeros(n) + digits)) == ParseNat(digits)
  {
    assert "0" + (Zeros(n) + digits) == Zeros(n + 1) + digits;
    ParseZeros(n + 1);
    ParseConcat(Zeros(n + 1), digits);
  }

  /** Digits put together on both sides of the point, times a power of ten. */
  lemma Assembled(whole: string, fraction: string, exponent: int, m: nat)
    requires AllDigits(whole) && AllDigits(fraction) && whole + fraction != ""
    requires AllDigits(whole + fraction) && ParseNat(whole + fraction) == m
    ensures Assemble(whole, fraction, exponent).Some?
    ensures Denotes(Assemble(whole, fraction, exponent).value, m, exponent - |fraction|)
  {
    assert Pow10(0) == 1;
  }

  /** 0.000ddd */
  lemma SmallPlainReads(digits: string, e: int)
    requires digits != "" && AllDigits(digits) && e < 0
    ensures ParseUnsigned(Plain(digits, e)).Some?
    ensures Denotes(ParseUnsigned(Plain(digits, e)).value, ParseNat(digits), e + 1 - |digits|)
  {
    var fraction := Zeros(-e - 1) + digits;
    SmallPlainText(digits, e);
    PointedReads("0", fraction);
    LeadingZerosDoNotCount(digits, -e - 1);
    Assembled("0", fraction, 0, ParseNat(digits));
  }

  lemma SmallPlainText(digits: string, e: int)
    requires digits != "" && e < 0
    ensures Plain(digits, e) == "0" + "." + (Zeros(-e - 1) + digits)
  {
    assert "0" + "." == "0.";
  }

  /** ddd000 */
  lemma LargePlainReads(digits: string, e: int)
    requires digits != "" && AllDigits(digits) && e >= |digits| - 1
    ensures ParseUnsigned(Plain(digits, e)).Some?
    ensures Denotes(ParseUnsigned(Plain(digits, e)).value, ParseNat(digits), e + 1 - |digits|)
  {
    LargePlainText(digits, e);
    PaddedReads(digits, e + 1 - |digits|);
  }

  lemma LargePlainText(digits: string, e: int)
    requires digits != "" && e >= |digits| - 1
    ensures Plain(digits, e) == digits + Zeros(e + 1 - |digits|)
  {
  }

  lemma PaddedReads(digits: string, n: nat)
    requires digits != "" && AllDigits(digits)
    ensures ParseUnsigned(digits + Zeros(n)) == Some(Decimal(ParseNat(digits) * Pow10(n), 0))
  {
    TrailingZerosShift(digits, n);
    IntegerReads(digits + Zeros(n));
  }

  lemma TrailingZerosShift(digits: string, n: nat)
    requires AllDigits(digits)
    ensures AllDigits(digits + Zeros(n)) && ParseNat(digits + Zeros(n)) == ParseNat(digits) * Pow10(n)
  {
    ParseZeros(n);
    ParseConcat(digits, Zeros(n));
  }

  lemma MiddlePlainText(digits: string, e: int)
    requires digits != "" && 0 <= e < |digits| - 1
    ensures Plain(digits, e) == digits[..e + 1] + "." + digits[e + 1..]
  {
  }

  lemma SplitReads(digits: string, n: nat)
    requires n <= |digits| && digits != "" && AllDigits(digits)
    ensures ParseUnsigned(digits[..n] + "." + digits[n..]).Some?
    ensures Denotes(ParseUnsigned(digits[..n] + "." + digits[n..]).value, ParseNat(digits), n - |digits|)
  {
    assert digits[..n] + digits[n..] == digits;
    PointedReads(digits[..n], digits[n..]);
    Assembled(digits[..n], digits[n..], 0, ParseNat(digits));
  }

  /** d.dd */
  lemma MiddlePlainReads(digits: string, e: int)
    requires digits != "" && AllDigits(digits) && 0 <= e < |digits| - 1
    ensures ParseUnsigned(Plain(digits, e)).Some?
    ensures Denotes(ParseUnsigned(Plain(digits, e)).value, ParseNat(digits), e + 1 - |digits|)
  {
    MiddlePlainText(digits, e);
    SplitReads(digits, e + 1);
  }

  lemma PlainReads(digits: string, e: int)
    requires digits != "" && AllDigits(digits)
    ensures ParseUnsigned(Plain(digits, e)).Some?
    ensures Denotes(ParseUnsigned(Plain(digits, e)).value, ParseNat(digits), e + 1 - |digits|)
  {
    if e < 0 { SmallPlainReads(digits, e); }
    else if e >= |digits| - 1 { LargePlainReads(digits, e); }
    else { MiddlePlainReads(digits, e); }
  }

  lemma PowerReads(e: int)
    ensures ParseExponent(Power(e)) == Some(e)
  {
    NatStringReads(if e < 0 then -e else e);
    assert Power(e)[1..] == NatString(if e < 0 then -e else e);
  }

  lemma MarkedReads(mantissa: string, e: int)
    requires 'e' !in mantissa
    ensures ParseUnsigned(mantissa + "e" + Power(e)) == ParseMantissa(mantissa, e)
  {
    FindAt(mantissa, 'e', Power(e));
    PowerReads(e);
  }

  lemma MantissaReads(digits: string, e: int)
    requires digits != "" && AllDigits(digits)
    ensures 'e' !in Mantissa(digits)
    ensures ParseMantissa(Mantissa(digits), e) == Assemble(digits[..1], digits[1..], e)
  {
    if |digits| > 1 {
      ReadPoint(digits[..1], digits[1..], e);
    } else {
      assert digits[..1] == digits && digits[1..] == "";
      ReadWhole(digits, e);
    }
  }

  lemma ExponentialIsMarked(digits: string, e: int)
    requires digits != "" && AllDigits(digits)
    ensures ParseUnsigned(Exponential(digits, e)) == Assemble(digits[..1], digits[1..], e)
  {
    MantissaReads(digits, e);
    MarkedReads(Mantissa(digits), e);
  }

  lemma PutTogether(digits: string, e: int)
    requires digits != "" && AllDigits(digits)
    ensures Assemble(digits[..1], digits[1..], e).Some?
    ensures Denotes(Assemble(digits[..1], digits[1..], e).value, ParseNat(digits), e + 1 - |digits|)
  {
    assert digits[..1] + digits[1..] == digits;
    Assembled(digits[..1], digits[1..], e, ParseNat(digits));
  }

  lemma ExponentialReads(digits: string, e: int)
    requires digits != "" && AllDigits(digits)
    ensures ParseUnsigned(Exponential(digits, e)).Some?
    ensures Denotes(ParseUnsigned(Exponential(digits, e)).value, ParseNat(digits), e + 1 - |digits|)
  {
    ExponentialIsMarked(digits, e);
    PutTogether(digits, e);
  }

  // ---- Round trip ----

  /** Printing a positive decimal and reading the text gives a decimal of the same value. */
  lemma UnsignedReads(d: Decimal)
    requires d.coefficient != 0
    ensures ParseUnsigned(Unsigned(d)).Some?
    ensures var n := Magnitude(d.coefficient);
      Denotes(ParseUnsigned(Unsigned(d)).value, Significant(n), TrailingZeros(n) - d.scale)
  {
    var n := Magnitude(d.coefficient);
    SignificantTimesZeros(n);
    NatStringReads(Significant(n));
    var digits, e := NatString(Significant(n)), LeadingExponent(d);
    if PrintsExponential(e) { ExponentialReads(digits, e); } else { PlainReads(digits, e); }
  }

  lemma DenotedWhole(m: nat, t: nat, n: nat)
    requires n == m * Pow10(t) && t >= 8
    ensures Worth(Decimal(m * Pow10(t - 8), 0), n)
  {
    ScaleIsPower();
    Pow10Add(t - 8, 8);
    Regroup(m, Pow10(t - 8), Pow10(8));
    assert Pow10(0) == 1;
  }

  lemma DenotedFraction(m: nat, t: nat, n: nat)
    requires n == m * Pow10(t) && t < 8
    ensures Worth(Decimal(m, 8 - t), n)
  {
    ScaleIsPower();
    Pow10Add(t, 8 - t);
    Regroup(m, Pow10(t), Pow10(8 - t));
  }

  /** The decimal read back is worth the minor units printed, and has no more digits than they had. */
  lemma DenotedWorth(d: Decimal, n: nat)
    requires n > 0 && Fits(n) && Denotes(d, Significant(n), TrailingZeros(n) - 8)
    ensures Worth(d, n) && d.coefficient >= 0 && Fits(d.coefficient)
  {
    var m, t := Significant(n), TrailingZeros(n);
    SignificantTimesZeros(n);
    FitsShiftDown(m, t, n);
    if t >= 8 {
      DenotedWhole(m, t, n);
      assert d.coefficient == m * Pow10(t - 8);
      FitsShiftUp(m, t - 8, d.coefficient);
    } else {
      DenotedFraction(m, t, n);
      assert d == Decimal(m, 8 - t);
    }
  }

  lemma WorthIsUnique(d: Decimal, m: int, n: int)
    requires Worth(d, m) && Worth(d, n)
    ensures m == n
  {
    MulMonotone(m, n, Pow10(d.scale));
    MulMonotone(n, m, Pow10(d.scale));
  }

  lemma WorthConverts(d: Decimal, n: int)
    requires Worth(d, n) && Fits(Magnitude(d.coefficient))
    ensures ToMinorUnits(d) == Some(n)
  {
    MulDiv(n, Pow10(d.scale));
    PrecisionCheck(d);
    WorthIsUnique(d, n, ToMinorUnits(d).value);
  }

  lemma UnsignedHasNoSign(d: Decimal)
    ensures Unsigned(d) != "" && Unsigned(d)[0] != '-'
  {
    NatStringReads(Significant(Magnitude(d.coefficient)));
    var digits := NatString(Significant(Magnitude(d.coefficient)));
    assert digits[0] in digits;
  }

  /**
   * Whatever the sign and whichever notation is printed, reading a printed amount
   * gives back exactly the minor units it was printed from.
   */
  lemma FormatParseRoundTrip(minor: int)
    requires Fits(Magnitude(minor))
    ensures Parse(FormatMinorUnits(minor)).Some?
    ensures ToMinorUnits(Parse(FormatMinorUnits(minor)).value) == Some(minor)
  {
    MinorUnitsRoundTrip(minor);
    UnsignedHasNoSign(Decimal(minor, 8));
    if minor == 0 {
      ZeroReads();
    } else {
      NonzeroReads(minor);
    }
  }

  lemma NonzeroReads(minor: int)
    requires minor != 0 && Fits(Magnitude(minor))
    ensures Parse(ToString(Decimal(minor, 8))).Some?
    ensures ToMinorUnits(Parse(ToString(Decimal(minor, 8))).value) == Some(minor)
  {
    var d, n := Decimal(minor, 8), Magnitude(minor);
    UnsignedHasNoSign(d);
    UnsignedReads(d);
    var read := ParseUnsigned(Unsigned(d)).value;
    DenotedWorth(read, n);
    SignReads(d, read);
    SignedConverts(read, minor);
  }

  lemma SignedConverts(read: Decimal, minor: int)
    requires Worth(read, Magnitude(minor)) && read.coefficient >= 0 && Fits(read.coefficient)
    ensures ToMinorUnits(if minor < 0 then Decimal(-read.coefficient, read.scale) else read) == Some(minor)
  {
    NegatedWorth(read, Magnitude(minor));
    if minor < 0 {
      WorthConverts(Decimal(-read.coefficient, read.scale), minor);
    } else {
      WorthConverts(read, minor);
    }
  }

  lemma SignReads(d: Decimal, read: Decimal)
    requires ParseUnsigned(Unsigned(d)) == Some(read) && Unsigned(d) != "" && Unsigned(d)[0] != '-'
    ensures Parse(ToString(d)) == Some(if d.coefficient < 0 then Decimal(-read.coefficient, read.scale) else read)
  {
    MinusReads(Unsigned(d));
  }

  lemma MinusReads(s: string)
    ensures Parse("-" + s) == Negate(ParseUnsigned(s))
  {
    assert ("-" + s)[1..] == s;
  }

  lemma NegatedWorth(d: Decimal, n: int)
    requires Worth(d, n)
    ensures Worth(Decimal(-d.coefficient, d.scale), -n)
  {
    assert (-n) * Pow10(d.scale) == -(n * Pow10(d.scale));
  }

  lemma ZeroReads()
    ensures Parse(ToString(Decimal(0, 8))) == Some(Decimal(0, 0)) && ToMinorUnits(Decimal(0, 0)) == Some(0)
  {
    IntegerReads("0");
    ParseZeros(1);
    assert "0" == Zeros(1);
    assert Pow10(0) == 1;
    assert Digits(0) == 0;
  }

  // ---- The printed form against the request pattern ----

  lemma ExponentialNeverMatches(digits: string, e: int)
    requires digits != ""
    ensures !MatchesAmountPattern(Exponential(digits, e))
  {
    var s, n := Exponential(digits, e), |Mantissa(digits)|;
    var dot := Find(s, '.');
    assert s[n] == 'e';
    if dot > n {
      assert s[..dot][n] in s[..dot];
    } else if dot < n {
      assert s[dot + 1..][n - dot - 1] in s[dot + 1..];
    }
  }

  lemma DigitsHaveNoPoint(s: string)
    requires AllDigits(s)
    ensures '.' !in s
  {
  }

  lemma PlainMatches(digits: string, e: int)
    requires digits != "" && AllDigits(digits)
    ensures MatchesAmountPattern(Plain(digits, e))
  {
    if e < 0 {
      SmallPlainText(digits, e);
      PointedMatches("0", Zeros(-e - 1) + digits);
    } else if e >= |digits| - 1 {
      DigitsHaveNoPoint(Plain(digits, e));
      FindNone(Plain(digits, e), '.');
    } else {
      PointedMatches(digits[..e + 1], digits[e + 1..]);
    }
  }

  lemma PointedMatches(whole: string, fraction: string)
    requires whole != "" && fraction != "" && AllDigits(whole) && AllDigits(fraction)
    ensures MatchesAmountPattern(whole + "." + fraction)
  {
    DigitsHaveNoPoint(whole);
    FindAt(whole, '.', fraction);
  }

  lemma PrintedText(minor: nat)
    requires 0 < minor < Pow10(20)
    ensures var digits, e := NatString(Significant(minor)), Digits(minor) - 9;
      ToString(Decimal(minor, 8)) == if minor < 100 then Exponential(digits, e) else Plain(digits, e)
  {
    DigitsOfPrinted(minor);
    assert LeadingExponent(Decimal(minor, 8)) == Digits(minor) - 9;
    assert PrintsExponential(Digits(minor) - 9) <==> minor < 100;
  }

  lemma PositivePrintedMatches(minor: nat)
    requires 0 < minor < Pow10(20)
    ensures MatchesAmountPattern(ToString(Decimal(minor, 8))) <==> minor >= 100
  {
    PrintedText(minor);
    NatStringReads(Significant(minor));
    if minor < 100 {
      ExponentialNeverMatches(NatString(Significant(minor)), Digits(minor) - 9);
    } else {
      PlainMatches(NatString(Significant(minor)), Digits(minor) - 9);
    }
  }

  lemma ZeroMatches()
    ensures MatchesAmountPattern(ToString(Decimal(0, 8)))
  {
    FindNone("0", '.');
  }

  /**
   * A printed amount is accepted back as request input exactly when it is zero or
   * at least 10^-6: anything smaller is printed as 1e-8 or the like.
   */
  lemma PrintedFormMatchesPattern(minor: nat)
    requires minor < Pow10(20)
    ensures MatchesAmountPattern(FormatMinorUnits(minor)) <==> minor == 0 || minor >= 100
  {
    SmallFits(minor);
    MinorUnitsRoundTrip(minor);
    if minor == 0 { ZeroMatches(); } else { PositivePrintedMatches(minor); }
  }

  lemma DigitsOfPrinted(minor: nat)
    requires minor < Pow10(20)
    ensures Digits(minor) <= 20
    ensures Digits(minor) <= 2 <==> minor < 100
  {
    DigitsAtMost(minor, 20);
    assert Pow10(2) == 100;
    if minor < 100 {
      DigitsAtMost(minor, 2);
    } else {
      DigitsBounds(minor);
      if Digits(minor) <= 2 { Pow10Monotone(Digits(minor), 2); }
    }
  }

  // ---- Request amounts ----

  function WholePart(s: string): string {
    s[..Find(s, '.')]
  }

  function FractionPart(s: string): string {
    if Find(s, '.') < |s| then s[Find(s, '.') + 1..] else ""
  }

  /** Anything the request pattern accepts is a plain decimal of its digits. */
  lemma AcceptedTextParses(s: string)
    requires MatchesAmountPattern(s)
    ensures AllDigits(WholePart(s) + FractionPart(s))
    ensures Parse(s) == Some(Decimal(ParseNat(WholePart(s) + FractionPart(s)), |FractionPart(s)|))
  {
    var whole, fraction := WholePart(s), FractionPart(s);
    assert s == if Find(s, '.') < |s| then whole + "." + fraction else whole;
    assert s[0] in whole;
    NoExponentMark(s);
  }

  lemma {:induction false} ParseBound(s: string)
    requires AllDigits(s)
    ensures ParseNat(s) < Pow10(|s|)
    ensures ParseNat(s) == 0 <==> forall k :: 0 <= k < |s| ==> s[k] == '0'
  {
    if s != "" {
      var n := |s| - 1;
      ParseBound(s[..n]);
      assert Pow10(|s|) == 10 * Pow10(n);
      assert s[n] in s;
    }
  }

  /** Divisibility by a power of ten, read off the last digits. */
  lemma EndsInZeros(digits: string, k: nat)
    requires AllDigits(digits) && k <= |digits|
    ensures ParseNat(digits) % Pow10(k) == 0 <==> forall i :: |digits| - k <= i < |digits| ==> digits[i] == '0'
  {
    var head, tail := digits[..|digits| - k], digits[|digits| - k..];
    assert digits == head + tail;
    ParseConcat(head, tail);
    ParseBound(tail);
    DivModUnique(ParseNat(digits), Pow10(k), ParseNat(head), ParseNat(tail));
    assert forall i :: 0 <= i < k ==> tail[i] == digits[|digits| - k + i];
    assert forall i :: |digits| - k <= i < |digits| ==> digits[i] == tail[i - (|digits| - k)];
  }

  lemma WholeMinorDigits(digits: string, places: nat)
    requires AllDigits(digits) && places <= |digits|
    ensures WholeMinor(Decimal(ParseNat(digits), places))
        <==> forall i :: |digits| - places + 8 <= i < |digits| ==> digits[i] == '0'
  {
    WholeMinorWhen(Decimal(ParseNat(digits), places));
    if places > 8 {
      EndsInZeros(digits, places - 8);
    }
  }

  /** Nothing but zeros after the eighth decimal place. */
  predicate AtMostEightPlaces(s: string) {
    forall k :: 8 <= k < |FractionPart(s)| ==> FractionPart(s)[k] == '0'
  }

  /**
   * Request text of at most 20 significant digits converts exactly when it has at
   * most eight decimal places, and then to exactly what it says.
   */
  lemma AmountTextConverts(s: string)
    requires MatchesAmountPattern(s) && Parse(s).Some? && Fits(Magnitude(Parse(s).value.coefficient))
    ensures ToMinorUnits(Parse(s).value).Some? <==> AtMostEightPlaces(s)
    ensures ToMinorUnits(Parse(s).value).Some? ==> Worth(Parse(s).value, ToMinorUnits(Parse(s).value).value)
  {
    AcceptedTextParses(s);
    PrecisionCheck(Parse(s).value);
    var whole, fraction := WholePart(s), FractionPart(s);
    WholeMinorDigits(whole + fraction, |fraction|);
    FractionDigits(whole, fraction);
  }

  lemma FractionDigits(whole: string, fraction: string)
    ensures (forall i :: |whole| + 8 <= i < |whole + fraction| ==> (whole + fraction)[i] == '0')
        <==> (forall k :: 8 <= k < |fraction| ==> fraction[k] == '0')
  {
    assert forall k :: 0 <= k < |fraction| ==> fraction[k] == (whole + fraction)[|whole| + k];
    assert forall i :: |whole| <= i < |whole + fraction| ==> (whole + fraction)[i] == fraction[i - |whole|];
  }

  // ---- Amounts as the service receives them ----

  /** toMinorUnits of a text; None where it throws. */
  function TextToMinorUnits(text: string): Option<int> {
    match Parse(text)
    case None => None
    case Some(amount) => ToMinorUnits(amount)
  }

  /** A decimal that is a whole number of minor units once cut to 20 significant digits. */
  predicate Acceptable(text: string) {
    Parse(text).Some? && WholeMinor(Rounded(Parse(text).value))
  }

  /** What the service takes a text to be worth; 0 for a text it refuses. */
  function AmountOf(text: string): int {
    if TextToMinorUnits(text).Some? then TextToMinorUnits(text).value else 0
  }

  /** The text, cut to 20 significant digits, is worth m minor units. */
  predicate CutWorth(text: string, m: int) {
    Parse(text).Some? && Worth(Rounded(Parse(text).value), m)
  }

  /** Exactly the acceptable texts convert, to what their cut form is worth. */
  lemma TextConvertsExactlyWhen(text: string)
    ensures TextToMinorUnits(text).Some? <==> Acceptable(text)
    ensures Acceptable(text) ==> CutWorth(text, AmountOf(text))
    ensures !Acceptable(text) ==> AmountOf(text) == 0
    ensures Fits(Magnitude(AmountOf(text)))
  {
    if Parse(text).Some? {
      ConvertsExactlyWhen(Parse(text).value);
      if TextToMinorUnits(text).Some? { MinorUnitsFit(Parse(text).value); }
    }
  }

  lemma OneThenZeros(n: nat)
    ensures AllDigits("1" + Zeros(n)) && ParseNat("1" + Zeros(n)) == Pow10(n)
  {
    var one := "1";
    assert one == [DigitChar(1)] && one[..0] == "";
    TrailingZerosShift(one, n);
  }

  lemma ThenOne(a: string)
    requires AllDigits(a)
    ensures AllDigits(a + "1") && ParseNat(a + "1") == ParseNat(a) * 10 + 1
  {
    assert (a + "1")[..|a + "1"| - 1] == a;
  }

  lemma TooPreciseDigits()
    ensures var digits := "1" + Zeros(20) + "1";
      AllDigits(digits) && ParseNat(digits) == 1_000_000_000_000_000_000_001
  {
    OneThenZeros(20);
    ThenOne("1" + Zeros(20));
    LosesLastDigit();
    assert Pow10(21) == 10 * Pow10(20);
  }

  lemma TooPreciseTextParses()
    ensures var fraction := Zeros(7) + ("1" + Zeros(20) + "1");
      && MatchesAmountPattern("0" + "." + fraction)
      && Parse("0" + "." + fraction) == Some(Decimal(1_000_000_000_000_000_000_001, 29))
  {
    var digits := "1" + Zeros(20) + "1";
    TooPreciseDigits();
    PointedMatches("0", Zeros(7) + digits);
    PointedReads("0", Zeros(7) + digits);
    LeadingZerosDoNotCount(digits, 7);
  }

  /** A request amount with 29 decimal places that is taken for one minor unit. */
  lemma TooPreciseTextPasses()
    ensures var text := "0.00000001000000000000000000001";
      && MatchesAmountPattern(text) && Parse(text).Some?
      && !WholeMinor(Parse(text).value) && !AtMostEightPlaces(text)
      && TextToMinorUnits(text) == Some(1)
  {
    var fraction := Zeros(7) + ("1" + Zeros(20) + "1");
    TooPreciseTextParses();
    TooPreciseAmountPasses();
    LastPlace("0", fraction);
    SameText();
  }

  lemma SameText()
    ensures "0" + "." + (Zeros(7) + ("1" + Zeros(20) + "1")) == "0.00000001000000000000000000001"
  {
  }

  lemma LastPlace(whole: string, fraction: string)
    requires AllDigits(whole) && |fraction| > 8 && fraction[|fraction| - 1] != '0'
    ensures !AtMostEightPlaces(whole + "." + fraction)
  {
    DigitsHaveNoPoint(whole);
    FindAt(whole, '.', fraction);
    assert FractionPart(whole + "." + fraction) == fraction;
  }
}
