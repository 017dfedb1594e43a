/** The price and the quote amount of a quote, rounded in the house's favour. */
module QuotePricing {
  import opened Decimals
  import opened Money
  import opened Schema

  datatype QuoteAmount = QuoteAmount(price: Decimal, quoteAmountMinor: int)

  function RoundingFor(side: TradeSide): Rounding {
    if side == BUY then ROUND_UP else ROUND_DOWN
  }

  function PriceFor(side: TradeSide, ask: Decimal, bid: Decimal): Decimal {
    if side == BUY then ask else bid
  }

  /** BUY at the ask, rounded up; SELL at the bid, rounded down. None where the source throws. */
  function ComputeQuoteAmount(side: TradeSide, baseAmountMinor: int, ask: Decimal, bid: Decimal): Option<QuoteAmount> {
    var price := PriceFor(side, ask, bid);
    var raw := Mul(FromMinorUnits(baseAmountMinor), price);
    match RoundToMinorUnits(raw, RoundingFor(side))
    case None => None
    case Some(minor) => Some(QuoteAmount(price, minor))
  }

  // ---- What comes out ----

  lemma QuotientOfMultiple(y: nat, q: nat, p: nat)
    requires p > 0 && y == q * p
    ensures y / p == q && (y + p - 1) / p == q
  {
    DivModUnique(y, p, q, 0);
    DivModUnique(y + p - 1, p, q, p - 1);
  }

  lemma QuotientAtMost(y: nat, limit: nat, p: nat)
    requires p > 0 && y <= limit * p
    ensures y / p <= limit && (y + p - 1) / p <= limit
  {
    QuotientOfMultiple(limit * p, limit, p);
    DivMonotone(y, limit * p, p);
    DivMonotone(y + p - 1, limit * p + p - 1, p);
  }

  lemma ProductBound(y: nat, a: nat, limit: nat, p: nat, q: nat)
    requires y == a * p && a <= limit && 0 < p <= q
    ensures y <= limit * q
  {
    MulMonotone(a, limit, p);
    if limit > 0 {
      MulMonotone(p, q, limit);
    }
  }

  lemma ShortShape(y: nat, a: nat, k: nat, s: nat)
    requires Shape(y, a, k) && k <= s
    ensures y <= Pow10(PRECISION) * Pow10(s)
  {
    Pow10Monotone(k, s);
    ProductBound(y, a, Pow10(PRECISION), Pow10(k), Pow10(s));
  }

  /** m is y divided by 10^s, rounded either way. */
  predicate IsQuotient(y: nat, s: nat, m: nat) {
    m == y / Pow10(s) || m == (y + Pow10(s) - 1) / Pow10(s)
  }

  lemma LongQuotient(y: nat, a: nat, k: nat, s: nat, m: nat)
    requires Shape(y, a, k) && s <= k && IsQuotient(y, s, m)
    ensures Shape(m, a, k - s)
  {
    Pow10Divides(s, k);
    Regroup(a, Pow10(k - s), Pow10(s));
    QuotientOfMultiple(y, a * Pow10(k - s), Pow10(s));
  }

  lemma ShortQuotient(y: nat, a: nat, k: nat, s: nat, m: nat)
    requires Shape(y, a, k) && k <= s && IsQuotient(y, s, m)
    ensures Shape(m, m, 0)
  {
    ShortShape(y, a, k, s);
    QuotientAtMost(y, Pow10(PRECISION), Pow10(s));
    assert Pow10(0) == 1;
    assert m <= Pow10(PRECISION);
  }

  /** Dividing by a power of ten, either way up, does not need more than 20 digits. */
  lemma QuotientFits(y: nat, s: nat, m: nat)
    requires Fits(y) && IsQuotient(y, s, m)
    ensures Fits(m)
  {
    FittingShape(y);
    ShapeQuotientFits(y, y / Pow10(Excess(y)), Excess(y), s, m);
  }

  lemma ShapeQuotientFits(y: nat, a: nat, k: nat, s: nat, m: nat)
    requires Shape(y, a, k) && IsQuotient(y, s, m)
    ensures Fits(m)
  {
    if s <= k {
      LongQuotient(y, a, k, s, m);
      ShiftedFits(a, k - s, m);
    } else {
      ShortQuotient(y, a, k, s, m);
      ShiftedFits(m, 0, m);
    }
  }

  lemma RawAmount(base: int, price: Decimal, n: nat)
    requires Fits(Magnitude(base)) && n == base * price.coefficient
    ensures Mul(FromMinorUnits(base), price) == Decimal(RoundNat(n), 8 + price.scale)
  {
    MinorUnitsRoundTrip(base);
  }

  lemma DivRoundIs(y: nat, p: nat, rounding: Rounding)
    requires p > 0
    ensures DivRound(y, p, rounding) == if rounding == ROUND_UP then (y + p - 1) / p else y / p
    ensures DivRound(y, p, rounding) >= 0
    ensures p == 1 ==> DivRound(y, p, rounding) == y
  {
    DivMonotone(0, y, p);
    DivMonotone(0, y + p - 1, p);
    DivModUnique(0, p, 0, 0);
  }

  lemma EightPlaces(y: nat, s: nat, rounding: Rounding)
    ensures ToDecimalPlaces(Decimal(y, 8 + s), 8, rounding) == Decimal(DivRound(y, Pow10(s), rounding), 8)
  {
    if s == 0 {
      assert Pow10(0) == 1;
      DivRoundIs(y, 1, rounding);
    }
  }

  lemma DecimalOfMinor(m: nat)
    requires Fits(m)
    ensures ToMinorUnits(Decimal(m, 8)) == Some(m as int)
  {
    MinorUnitsRoundTrip(m);
  }

  lemma DivRoundFits(y: nat, s: nat, rounding: Rounding)
    requires Fits(y)
    ensures DivRound(y, Pow10(s), rounding) >= 0 && Fits(DivRound(y, Pow10(s), rounding))
  {
    DivRoundIs(y, Pow10(s), rounding);
    QuotientFits(y, s, DivRound(y, Pow10(s), rounding));
  }

  lemma RoundedOff(y: nat, s: nat, rounding: Rounding)
    requires Fits(y)
    ensures RoundToMinorUnits(Decimal(y, 8 + s), rounding) == Some(DivRound(y, Pow10(s), rounding))
  {
    EightPlaces(y, s, rounding);
    DivRoundFits(y, s, rounding);
    DecimalOfMinor(DivRound(y, Pow10(s), rounding));
  }

  /** With a positive price the computation never throws: it rounds the 20-digit product to an integer. */
  lemma QuoteAmountIs(side: TradeSide, base: nat, ask: Decimal, bid: Decimal, n: nat)
    requires Fits(base) && n == base * PriceFor(side, ask, bid).coefficient
    ensures ComputeQuoteAmount(side, base, ask, bid) == Some(QuoteAmount(
      PriceFor(side, ask, bid),
      DivRound(RoundNat(n), Pow10(PriceFor(side, ask, bid).scale), RoundingFor(side))))
  {
    RawAmount(base, PriceFor(side, ask, bid), n);
    RoundedFits(n);
    RoundedOff(RoundNat(n), PriceFor(side, ask, bid).scale, RoundingFor(side));
  }

  lemma PlacesOf(y: int, s: nat, rounding: Rounding)
    ensures ToDecimalPlaces(Decimal(y, 8 + s), 8, rounding) == Decimal(DivRound(y, Pow10(s), rounding), 8)
    ensures Magnitude(DivRound(y, Pow10(s), rounding)) == DivRound(Magnitude(y), Pow10(s), rounding)
  {
    EightPlaces(Magnitude(y), s, rounding);
    DivRoundIs(Magnitude(y), Pow10(s), rounding);
  }

  /** Whatever price arrives, of either sign, pricing an amount never throws. */
  lemma AlwaysPriced(side: TradeSide, base: int, ask: Decimal, bid: Decimal)
    requires Fits(Magnitude(base))
    ensures ComputeQuoteAmount(side, base, ask, bid).Some?
    ensures ComputeQuoteAmount(side, base, ask, bid).value.price == PriceFor(side, ask, bid)
  {
    var price := PriceFor(side, ask, bid);
    var y := Round(base * price.coefficient);
    MinorUnitsRoundTrip(base);
    SameMagnitude(base * price.coefficient);
    RoundedFits(Magnitude(base * price.coefficient));
    PlacesOf(y, price.scale, RoundingFor(side));
    DivRoundFits(Magnitude(y), price.scale, RoundingFor(side));
    MinorUnitsRoundTrip(DivRound(y, Pow10(price.scale), RoundingFor(side)));
  }

  // ---- Directed rounding ----

  /** The exact cost of n/p minor units, rounded up or down: what the rounding is meant to give. */
  function Ceiling(n: nat, p: nat): nat
    requires p > 0
  {
    (n + p - 1) / p
  }

  function Floor(n: nat, p: nat): nat
    requires p > 0
  {
    n / p
  }

  /** Rounding a number rounds its distance from any multiple below it. */
  lemma NearestOffset(m: nat, r: nat, g: nat)
    requires g > 0 && m % g == 0
    ensures Nearest(m + r, g) == m + Nearest(r, g)
  {
    var q := (r + g / 2) / g;
    Factor(m, g);
    assert r + g / 2 == q * g + (r + g / 2) % g;
    DivModUnique(m + r + g / 2, g, m / g + q, (r + g / 2) % g);
  }

  /** Where the remainder of a division lands after rounding on a grid that divides the divisor. */
  lemma RemainderRounds(r: nat, p: nat, g: nat)
    requires 0 < g && r < p && p % g == 0 && (g == 1 || g % 2 == 0)
    ensures 0 <= Nearest(r, g) <= p
    ensures Nearest(r, g) == 0 <==> 2 * r < g
    ensures Nearest(r, g) == p <==> 2 * (p - r) <= g
  {
    var h := g / 2;
    NearestBetweenMultiples(r, 0, g);
    NearestBetweenMultiples(r, p, g);
    NearestIsNear(r, g);
    if 2 * r < g {
      DivModUnique(r + h, g, 0, r + h);
    }
    if 2 * (p - r) <= g {
      Factor(p, g);
      DivModUnique(r + h, g, p / g, r + h - p);
    }
  }

  /** The rounded product divided up and down, against the exact quotients. */
  lemma RoundedQuotients(n: nat, p: nat, g: nat)
    requires 0 < g && 0 < p && p % g == 0 && (g == 1 || g % 2 == 0)
    ensures var y, r := Nearest(n, g), n % p;
      && Ceiling(y, p) == Ceiling(n, p) - (if r == 0 || 2 * r >= g then 0 else 1)
      && Floor(y, p) == Floor(n, p) + (if 2 * (p - r) > g then 0 else 1)
  {
    var f, r := n / p, n % p;
    assert n == f * p + r;
    MultipleOfGrid(f, p, g);
    NearestOffset(f * p, r, g);
    RemainderRounds(r, p, g);
    Quotients(f, p, r);
    QuotientsUpTo(f, p, Nearest(r, g));
  }

  lemma QuotientsUpTo(f: nat, p: nat, t: nat)
    requires 0 < p && t <= p
    ensures Floor(f * p + t, p) == if t == p then f + 1 else f
    ensures Ceiling(f * p + t, p) == if t == 0 then f else f + 1
  {
    if t < p {
      Quotients(f, p, t);
    } else {
      assert f * p + p == (f + 1) * p;
      Quotients(f + 1, p, 0);
    }
  }

  lemma MultipleOfGrid(f: nat, p: nat, g: nat)
    requires g > 0 && p % g == 0
    ensures f * p % g == 0
  {
    Factor(p, g);
    Regroup(f, p / g, g);
    MulDiv(f * (p / g), g);
  }

  lemma Quotients(f: nat, p: nat, t: nat)
    requires t < p
    ensures Floor(f * p + t, p) == f
    ensures Ceiling(f * p + t, p) == if t == 0 then f else f + 1
  {
    DivModUnique(f * p + t, p, f, t);
    if t == 0 {
      DivModUnique(f * p + t + p - 1, p, f, p - 1);
    } else {
      assert f * p + t + p - 1 == (f + 1) * p + (t - 1);
      DivModUnique(f * p + t + p - 1, p, f + 1, t - 1);
    }
  }

  /** The unit of the last digit kept of the product: 1 as long as the product has at most 20 digits. */
  function Grid(n: nat): nat {
    Pow10(Excess(n))
  }

  /**
   * The rounding comes out as the house wants it. A BUY does unless the product
   * leaves a remainder under half a grid unit, which the 20-digit rounding drops; a
   * SELL does unless the remainder is within half a grid unit of the next minor unit.
   */
  predicate ExactFor(side: TradeSide, n: nat, p: nat)
    requires p > 0
  {
    || n % p == 0
    || if side == BUY then 2 * (n % p) >= Grid(n) else 2 * (p - n % p) > Grid(n)
  }

  /**
   * Directed rounding. For every result below 10^20 minor units (so every one a
   * column can hold) a BUY costs the exact product rounded up, and a SELL brings
   * it rounded down, except that the 20-digit product can make a BUY one unit
   * cheaper and a SELL bring one unit more; ExactFor says exactly when it does not.
   */
  lemma DirectedRounding(side: TradeSide, base: nat, ask: Decimal, bid: Decimal, n: nat, p: nat)
    requires Fits(base) && n == base * PriceFor(side, ask, bid).coefficient && p == Pow10(PriceFor(side, ask, bid).scale)
    requires n < Pow10(20) * p
    ensures ComputeQuoteAmount(side, base, ask, bid) == Some(QuoteAmount(PriceFor(side, ask, bid),
      if side == BUY then Ceiling(n, p) - (if ExactFor(BUY, n, p) then 0 else 1)
      else Floor(n, p) + (if ExactFor(SELL, n, p) then 0 else 1)))
  {
    QuoteAmountIs(side, base, ask, bid, n);
    GridDivides(n, PriceFor(side, ask, bid).scale);
    RoundedUpOrDown(side, n, p);
  }

  lemma RoundedUpOrDown(side: TradeSide, n: nat, p: nat)
    requires p > 0 && p % Grid(n) == 0
    ensures DivRound(RoundNat(n), p, RoundingFor(side)) ==
      if side == BUY then Ceiling(n, p) - (if ExactFor(BUY, n, p) then 0 else 1)
      else Floor(n, p) + (if ExactFor(SELL, n, p) then 0 else 1)
  {
    Pow10Even(Excess(n));
    RoundedQuotients(n, p, Grid(n));
    DivisorIsAtMost(p, Grid(n));
    DivRoundIs(RoundNat(n), p, RoundingFor(side));
  }

  lemma DivisorIsAtMost(p: nat, g: nat)
    requires p > 0 && g > 0 && p % g == 0
    ensures g <= p
  {
    Factor(p, g);
    MulMonotone(1, p / g, g);
  }

  lemma GridDivides(n: nat, s: nat)
    requires n < Pow10(20) * Pow10(s)
    ensures Pow10(s) % Grid(n) == 0
  {
    Pow10Add(20, s);
    DigitsAtMost(n, 20 + s);
    Pow10Divides(Excess(n), s);
  }

  lemma FittingProductInRange(side: TradeSide, n: nat, s: nat)
    requires Fits(n) && Pow10(s) % Grid(n) == 0
    ensures ExactFor(side, n, Pow10(s))
  {
    Pow10Even(Excess(n));
    RoundNear(n);
    RoundedQuotients(n, Pow10(s), Grid(n));
  }

  /** A product of at most 20 significant digits, zeros at its end aside, is rounded exactly the way the house wants it. */
  lemma ExactWithinTwentyDigits(side: TradeSide, n: nat, s: nat)
    requires Fits(n)
    ensures ExactFor(side, n, Pow10(s))
  {
    if n < Pow10(20) * Pow10(s) {
      GridDivides(n, s);
      FittingProductInRange(side, n, s);
    } else {
      LargeProduct(n, s);
      MultipleOfMultiple(n, s, Excess(n));
    }
  }

  /** One coin at 65432.10000000: its product has 21 digits and only six that count. */
  lemma OneCoinIsExact(side: TradeSide)
    ensures var n := 100_000_000 * 6_543_210_000_000;
      n >= Pow10(20) && Fits(n) && ExactFor(side, n, Pow10(8))
  {
    var n := 100_000_000 * 6_543_210_000_000;
    assert Pow10(10) == 10_000_000_000;
    Pow10Add(10, 10);
    assert Pow10(1) == 10;
    DigitsExactly(n, 21);
    ExactWithinTwentyDigits(side, n, 8);
  }

  /**
   * The digit bound matters inside the column: 1000000000000000001 minor units at
   * 1.001 cost one minor unit less than the product rounded up.
   */
  lemma BuyCanBeOneShort()
    ensures var base, ask := 1_000_000_000_000_000_001, Decimal(1001, 3);
      && ComputeQuoteAmount(BUY, base, ask, ask) == Some(QuoteAmount(ask, 1_001_000_000_000_000_001))
      && Ceiling(base * 1001, 1000) == 1_001_000_000_000_000_002 <= MAX_BIGINT
  {
    var base, ask := 1_000_000_000_000_000_001, Decimal(1001, 3);
    var n := 1_001_000_000_000_000_001_001;
    assert Pow10(10) == 10_000_000_000;
    Pow10Add(10, 10);
    StorableFits(base);
    DigitsExactly(n, 22);
    DirectedRounding(BUY, base, ask, ask, n, 1000);
  }

  /** And 9000000000000000999 minor units at 1.001 bring one minor unit more than the product rounded down. */
  lemma SellCanBeOneMore()
    ensures var base, bid := 9_000_000_000_000_000_999, Decimal(1001, 3);
      && ComputeQuoteAmount(SELL, base, bid, bid) == Some(QuoteAmount(bid, 9_009_000_000_000_001_000))
      && Floor(base * 1001, 1000) == 9_009_000_000_000_000_999
      && 9_009_000_000_000_001_000 <= MAX_BIGINT
  {
    var base, bid := 9_000_000_000_000_000_999, Decimal(1001, 3);
    var n := 9_009_000_000_000_000_999_999;
    assert Pow10(10) == 10_000_000_000;
    Pow10Add(10, 10);
    StorableFits(base);
    DigitsExactly(n, 22);
    DirectedRounding(SELL, base, bid, bid, n, 1000);
  }

  /** Beyond 10^20 minor units the result is still within half a unit of its twentieth digit. */
  lemma RelativeError(side: TradeSide, base: nat, ask: Decimal, bid: Decimal, n: nat, p: nat)
    requires Fits(base) && n == base * PriceFor(side, ask, bid).coefficient && p == Pow10(PriceFor(side, ask, bid).scale)
    requires n >= Pow10(20) * p
    ensures ComputeQuoteAmount(side, base, ask, bid).Some?
    ensures var m := ComputeQuoteAmount(side, base, ask, bid).value.quoteAmountMinor;
      n - Grid(n) / 2 <= m * p <= n + Grid(n) / 2
  {
    var s := PriceFor(side, ask, bid).scale;
    QuoteAmountIs(side, base, ask, bid, n);
    RoundNear(n);
    LargeProduct(n, s);
    MultipleOfMultiple(RoundNat(n), s, Excess(n));
    WholeQuotient(RoundNat(n), p, RoundingFor(side));
  }

  lemma WholeQuotient(y: nat, p: nat, rounding: Rounding)
    requires p > 0 && y % p == 0
    ensures DivRound(y, p, rounding) * p == y
  {
    Factor(y, p);
    QuotientOfMultiple(y, y / p, p);
    DivRoundIs(y, p, rounding);
  }

  lemma LargeProduct(n: nat, s: nat)
    requires n >= Pow10(20) * Pow10(s)
    ensures Excess(n) >= s
  {
    Pow10Add(20, s);
    DigitsBounds(n);
    if Digits(n) <= 20 + s {
      Pow10Monotone(Digits(n), 20 + s);
    }
  }
}
