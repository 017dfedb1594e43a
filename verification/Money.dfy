/** Fixed-point money: decimals to integer minor units of 10^-8 and back. */
module Money {
  import opened Decimals
  import opened Schema

  const MINOR_UNIT_DECIMALS: nat := 8
  const MINOR_UNIT_SCALE := Decimal(100_000_000, 0)

  /** None where the source throws. */
  function ToMinorUnits(amount: Decimal): Option<int> {
    var scaled := Mul(amount, MINOR_UNIT_SCALE);
    if IsInteger(scaled) then Some(scaled.coefficient / Pow10(scaled.scale)) else None
  }

  function FromMinorUnits(minor: int): Decimal {
    DivPow10(Decimal(minor, 0), MINOR_UNIT_DECIMALS)
  }

  function RoundToMinorUnits(amount: Decimal, rounding: Rounding): Option<int> {
    ToMinorUnits(ToDecimalPlaces(amount, MINOR_UNIT_DECIMALS, rounding))
  }

  // ---- What an amount is worth ----

  /** The amount is a whole number of minor units. */
  predicate WholeMinor(amount: Decimal) {
    amount.coefficient * 100_000_000 % Pow10(amount.scale) == 0
  }

  /** m minor units are worth exactly the amount. */
  predicate Worth(amount: Decimal, m: int) {
    m * Pow10(amount.scale) == amount.coefficient * 100_000_000
  }

  lemma ScaleIsPower()
    ensures Pow10(8) == 100_000_000
  {
  }

  lemma ScaledRound(n: int)
    ensures Round(n * 100_000_000) == Round(n) * 100_000_000
    ensures Fits(Magnitude(n * 100_000_000)) <==> Fits(Magnitude(n))
  {
    ScaleIsPower();
    var m := Magnitude(n);
    assert Magnitude(n * 100_000_000) == m * Pow10(8);
    RoundShift(m, 8);
    if Fits(m) { FitsShiftUp(m, 8, m * Pow10(8)); }
    if Fits(m * Pow10(8)) { FitsShiftDown(m, 8, m * Pow10(8)); }
  }

  lemma RoundFixes(n: int)
    ensures Round(n) == n <==> Fits(Magnitude(n))
  {
    RoundNear(Magnitude(n));
    RoundedFits(Magnitude(n));
  }

  /**
   * The precision check: with at most 20 significant digits, exactly the whole
   * multiples of a minor unit pass, and they come back exactly scaled.
   */
  lemma PrecisionCheck(amount: Decimal)
    requires Fits(Magnitude(amount.coefficient))
    ensures ToMinorUnits(amount).Some? <==> WholeMinor(amount)
    ensures ToMinorUnits(amount).Some? ==> Worth(amount, ToMinorUnits(amount).value)
  {
    ScaledRound(amount.coefficient);
    RoundFixes(amount.coefficient);
    if WholeMinor(amount) {
      Factor(amount.coefficient * 100_000_000, Pow10(amount.scale));
    }
  }

  /** Whole minor units, said of the coefficient. */
  lemma WholeMinorWhen(amount: Decimal)
    ensures WholeMinor(amount) <==> amount.scale <= 8 || Magnitude(amount.coefficient) % Pow10(amount.scale - 8) == 0
  {
    var n := Magnitude(amount.coefficient);
    ScaleIsPower();
    NegatedMultiple(amount.coefficient * 100_000_000, Pow10(amount.scale));
    if amount.scale <= 8 {
      MulDiv(n, Pow10(8));
      MultipleOfMultiple(n * Pow10(8), amount.scale, 8);
    } else {
      Pow10Add(amount.scale - 8, 8);
      ScaledMultiple(n, Pow10(amount.scale - 8), Pow10(8));
    }
  }

  /** The amount as the conversion sees it: cut to 20 significant digits. */
  function Rounded(amount: Decimal): Decimal {
    Decimal(Round(amount.coefficient), amount.scale)
  }

  /**
   * For any amount at all: the conversion succeeds if and only if the amount cut to
   * 20 significant digits is a whole number of minor units, and gives what that is worth.
   */
  lemma ConvertsExactlyWhen(amount: Decimal)
    ensures ToMinorUnits(amount).Some? <==> WholeMinor(Rounded(amount))
    ensures ToMinorUnits(amount).Some? ==> Worth(Rounded(amount), ToMinorUnits(amount).value)
  {
    ScaledRound(amount.coefficient);
    var n := Round(amount.coefficient * 100_000_000);
    assert n == Rounded(amount).coefficient * 100_000_000;
    if n % Pow10(amount.scale) == 0 {
      Factor(n, Pow10(amount.scale));
    }
  }

  /** A conversion that succeeds is exact if and only if the amount had at most 20 significant digits. */
  lemma ExactOnlyWithinDigits(amount: Decimal)
    requires ToMinorUnits(amount).Some?
    ensures Worth(amount, ToMinorUnits(amount).value) <==> Fits(Magnitude(amount.coefficient))
  {
    ConvertsExactlyWhen(amount);
    RoundFixes(amount.coefficient);
  }

  /**
   * The conversion succeeds and is exact if and only if the amount is a whole number
   * of minor units written with at most 20 significant digits.
   */
  lemma ExactExactlyWhen(amount: Decimal)
    ensures (ToMinorUnits(amount).Some? && Worth(amount, ToMinorUnits(amount).value))
        <==> (WholeMinor(amount) && Fits(Magnitude(amount.coefficient)))
  {
    if Fits(Magnitude(amount.coefficient)) { PrecisionCheck(amount); }
    if ToMinorUnits(amount).Some? { ExactOnlyWithinDigits(amount); }
  }

  /** Cutting to 20 digits keeps every multiple of a power of ten a multiple of it. */
  lemma RoundKeepsMultiples(n: nat, k: nat)
    requires n % Pow10(k) == 0
    ensures RoundNat(n) % Pow10(k) == 0
  {
    RoundNear(n);
    if k <= Excess(n) {
      MultipleOfMultiple(RoundNat(n), k, Excess(n));
    } else {
      MultipleOfMultiple(n, Excess(n), k);
    }
  }

  /**
   * When the check is wrong: a whole number of minor units is never refused, and an
   * amount that is not one is let through exactly when it becomes one at 20 digits.
   */
  lemma LetThroughExactlyWhen(amount: Decimal)
    ensures WholeMinor(amount) ==> ToMinorUnits(amount).Some?
    ensures !WholeMinor(amount) ==> (ToMinorUnits(amount).Some? <==> WholeMinor(Rounded(amount)))
    ensures (ToMinorUnits(amount).Some? <==> WholeMinor(amount)) <==> (WholeMinor(amount) || !WholeMinor(Rounded(amount)))
  {
    ConvertsExactlyWhen(amount);
    WholeMinorWhen(amount);
    WholeMinorWhen(Rounded(amount));
    if WholeMinor(amount) && amount.scale > 8 {
      RoundKeepsMultiples(Magnitude(amount.coefficient), amount.scale - 8);
      SameMagnitude(amount.coefficient);
    }
  }

  lemma SameMagnitude(n: int)
    ensures Magnitude(Round(n)) == RoundNat(Magnitude(n))
  {
  }

  /** 10^21 + 1 loses its last digit. */
  lemma LosesLastDigit()
    ensures RoundNat(1_000_000_000_000_000_000_001) == 1_000_000_000_000_000_000_000
    ensures Pow10(21) == 1_000_000_000_000_000_000_000
  {
    assert Pow10(10) == 10_000_000_000;
    Pow10Add(10, 10);
    DigitsExactly(1_000_000_000_000_000_000_001, 22);
    assert Pow10(2) == 100;
  }

  lemma PassesWhenRounded(amount: Decimal)
    requires Round(amount.coefficient) * 100_000_000 == Pow10(amount.scale)
    ensures ToMinorUnits(amount) == Some(1)
  {
    ScaledRound(amount.coefficient);
    DivModUnique(Pow10(amount.scale), Pow10(amount.scale), 1, 0);
  }

  lemma NotWhole(amount: Decimal, m: int, r: nat)
    requires amount.coefficient * 100_000_000 == m * Pow10(amount.scale) + r && 0 < r < Pow10(amount.scale)
    ensures !WholeMinor(amount)
  {
    DivModUnique(amount.coefficient * 100_000_000, Pow10(amount.scale), m, r);
  }

  /** Past 20 digits the check lets through an amount with 29 decimal places, as one minor unit. */
  lemma TooPreciseAmountPasses()
    ensures var amount := Decimal(1_000_000_000_000_000_000_001, 29);
      !WholeMinor(amount) && ToMinorUnits(amount) == Some(1)
  {
    var amount := Decimal(1_000_000_000_000_000_000_001, 29);
    LosesLastDigit();
    ScaleIsPower();
    Pow10Add(21, 8);
    PassesWhenRounded(amount);
    NotWhole(amount, 1, 100_000_000);
  }

  lemma MagnitudeTimes(m: int, p: nat)
    requires p > 0
    ensures Magnitude(m * p) == Magnitude(m) * p
  {
    MulMonotone(0, m, p);
    assert -m * p == -(m * p);
  }

  /** Whatever passes has at most 20 significant digits. */
  lemma MinorUnitsFit(amount: Decimal)
    requires ToMinorUnits(amount).Some?
    ensures Fits(Magnitude(ToMinorUnits(amount).value))
  {
    var m, c := ToMinorUnits(amount).value, Round(amount.coefficient);
    ConvertsExactlyWhen(amount);
    SameMagnitude(amount.coefficient);
    RoundedFits(Magnitude(amount.coefficient));
    ScaledRound(c);
    MagnitudeTimes(m, Pow10(amount.scale));
    FitsShiftDown(Magnitude(m), amount.scale, Magnitude(c * 100_000_000));
  }

  /** A sum of minor units with at most 20 digits survives the trip through a decimal. */
  lemma MinorUnitsRoundTrip(minor: int)
    requires Fits(Magnitude(minor))
    ensures FromMinorUnits(minor) == Decimal(minor, 8)
    ensures ToMinorUnits(FromMinorUnits(minor)) == Some(minor)
  {
    RoundFixes(minor);
    MinorDecimalConverts(minor);
  }

  lemma MinorDecimalConverts(minor: int)
    requires Round(minor) == minor
    ensures ToMinorUnits(Decimal(minor, 8)) == Some(minor)
  {
    ConvertsExactlyWhen(Decimal(minor, 8));
    WholeMinorWhen(Decimal(minor, 8));
    ScaleIsPower();
  }

  /** Every amount a bigint column can hold has at most 20 digits. */
  lemma StorableFits(minor: int)
    requires -MAX_BIGINT - 1 <= minor <= MAX_BIGINT
    ensures Fits(Magnitude(minor))
  {
    assert Pow10(10) == 10_000_000_000;
    Pow10Add(10, 10);
    SmallFits(Magnitude(minor));
  }
}
