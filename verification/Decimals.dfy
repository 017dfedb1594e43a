/**
 * Decimals as decimal.js computes with them: a sign, a coefficient and a scale,
 * every product and quotient rounded half up to 20 significant digits.
 */
module Decimals {
  /** coefficient / 10^scale. Every decimal number has such a form. */
  datatype Decimal = Decimal(coefficient: int, scale: nat)

  // ---- Powers of ten and digits ----

  function Pow10(n: nat): (p: nat)
    ensures p >= 1
  {
    if n == 0 then 1 else 10 * Pow10(n - 1)
  }

  /** The number of digits of n; zero has none. */
  function Digits(n: nat): nat {
    if n == 0 then 0 else 1 + Digits(n / 10)
  }

  const PRECISION: nat := 20

  /** How many low digits have to go for n to keep 20. */
  function Excess(n: nat): nat {
    if Digits(n) > PRECISION then Digits(n) - PRECISION else 0
  }

  // ---- Rounding ----

  /** The multiple of p nearest to n, the larger one on a tie. */
  function Nearest(n: nat, p: nat): nat
    requires p >= 1
  {
    (n + p / 2) / p * p
  }

  /** n to 20 significant digits, ties away from zero (ROUND_HALF_UP). */
  function RoundNat(n: nat): nat {
    Nearest(n, Pow10(Excess(n)))
  }

  function Round(n: int): int {
    if n < 0 then -(RoundNat(-n) as int) else RoundNat(n)
  }

  function Magnitude(n: int): nat {
    if n < 0 then -n else n
  }

  /** At most 20 significant digits: what lies below them is zeros. */
  predicate Fits(n: nat) {
    n % Pow10(Excess(n)) == 0
  }

  /** Decimal.mul. */
  function Mul(a: Decimal, b: Decimal): Decimal {
    Decimal(Round(a.coefficient * b.coefficient), a.scale + b.scale)
  }

  /** Decimal.div by a power of ten. */
  function DivPow10(a: Decimal, n: nat): Decimal {
    Decimal(Round(a.coefficient), a.scale + n)
  }

  datatype Rounding = ROUND_UP | ROUND_DOWN

  /** n / p to an integer, away from zero or towards it. */
  function DivRound(n: int, p: nat, rounding: Rounding): int
    requires p >= 1
  {
    var m := Magnitude(n);
    var q := if rounding == ROUND_UP then (m + p - 1) / p else m / p;
    if n < 0 then -q else q
  }

  /** Decimal.toDecimalPlaces; not limited by the precision. */
  function ToDecimalPlaces(a: Decimal, places: nat, rounding: Rounding): Decimal {
    if a.scale <= places then a
    else Decimal(DivRound(a.coefficient, Pow10(a.scale - places), rounding), places)
  }

  predicate IsInteger(a: Decimal) {
    a.coefficient % Pow10(a.scale) == 0
  }

  // ---- Integer division ----

  lemma Times(d: int, p: int)
    requires p > 0
    ensures d >= 1 ==> d * p >= p
    ensures d <= -1 ==> d * p <= -p
  {
  }

  lemma DivModUnique(n: int, p: int, q: int, r: int)
    requires n == q * p + r && 0 <= r < p
    ensures n / p == q && n % p == r
  {
    assert n == (n / p) * p + n % p;
    assert (q - n / p) * p == q * p - (n / p) * p;
    Times(q - n / p, p);
  }

  lemma MulDiv(q: int, p: int)
    requires p > 0
    ensures q * p / p == q && q * p % p == 0
  {
    DivModUnique(q * p, p, q, 0);
  }

  /** n is q times p exactly when p divides it q times. */
  lemma Factor(n: int, p: int)
    requires p > 0 && n % p == 0
    ensures n == (n / p) * p
  {
  }

  lemma DivMonotone(a: int, b: int, p: int)
    requires p > 0 && a <= b
    ensures a / p <= b / p
  {
    assert (a / p - b / p) * p == (a / p) * p - (b / p) * p;
    Times(a / p - b / p, p);
  }

  lemma MulMonotone(a: int, b: int, p: int)
    requires p > 0
    ensures a <= b <==> a * p <= b * p
    ensures a < b <==> a * p < b * p
  {
    assert (b - a) * p == b * p - a * p;
    Times(b - a, p);
  }

  lemma {:induction false} Pow10Add(a: nat, b: nat)
    ensures Pow10(a + b) == Pow10(a) * Pow10(b)
  {
    if a > 0 {
      Pow10Add(a - 1, b);
      assert Pow10(a + b) == 10 * Pow10(a - 1 + b);
      assert 10 * (Pow10(a - 1) * Pow10(b)) == (10 * Pow10(a - 1)) * Pow10(b);
    }
  }

  lemma Pow10Divides(a: nat, b: nat)
    requires a <= b
    ensures Pow10(b) == Pow10(b - a) * Pow10(a)
    ensures Pow10(b) % Pow10(a) == 0
  {
    Pow10Add(b - a, a);
    MulDiv(Pow10(b - a), Pow10(a));
  }

  /** A multiple of a multiple. */
  lemma MultipleOfMultiple(n: int, a: nat, b: nat)
    requires a <= b && n % Pow10(b) == 0
    ensures n % Pow10(a) == 0
  {
    Pow10Divides(a, b);
    MultipleOfProduct(n, Pow10(b - a), Pow10(a));
  }

  lemma MultipleOfProduct(n: int, p: int, q: int)
    requires p > 0 && q > 0 && p * q > 0 && n % (p * q) == 0
    ensures n % q == 0
  {
    var k := n / (p * q);
    Factor(n, p * q);
    assert n == (k * p) * q;
    MulDiv(k * p, q);
  }

  // ---- Digits ----

  lemma {:induction false} DigitsBounds(n: nat)
    requires n > 0
    ensures Digits(n) >= 1 && Pow10(Digits(n) - 1) <= n < Pow10(Digits(n))
  {
    if n >= 10 {
      DigitsBounds(n / 10);
    } else {
      assert Digits(n / 10) == 0;
      assert Pow10(1) == 10 * Pow10(0);
    }
  }

  lemma {:induction false} Pow10Monotone(a: nat, b: nat)
    requires a <= b
    ensures Pow10(a) <= Pow10(b)
  {
    if a < b {
      Pow10Monotone(a, b - 1);
    }
  }

  lemma DigitsAtMost(n: nat, d: nat)
    requires n < Pow10(d)
    ensures Digits(n) <= d
  {
    if n > 0 && Digits(n) > d {
      DigitsBounds(n);
      Pow10Monotone(d, Digits(n) - 1);
    }
  }

  lemma DigitsExactly(n: nat, d: nat)
    requires d > 0 && Pow10(d - 1) <= n < Pow10(d)
    ensures Digits(n) == d
  {
    DigitsBounds(n);
    DigitsAtMost(n, d);
    if Digits(n) < d {
      Pow10Monotone(Digits(n), d - 1);
    }
  }

  lemma TenTimes(n: nat)
    requires n > 0
    ensures Digits(n * 10) == Digits(n) + 1
  {
    MulDiv(n, 10);
  }

  lemma {:induction false} DigitsShift(n: nat, j: nat)
    requires n > 0
    ensures Digits(n * Pow10(j)) == Digits(n) + j
  {
    if j > 0 {
      DigitsShift(n, j - 1);
      Regroup(n, Pow10(j - 1), 10);
      TenTimes(n * Pow10(j - 1));
    }
  }

  // ---- Fitting into 20 digits ----

  lemma MultipleFits(n: nat, j: nat)
    requires n % Pow10(j) == 0 && Excess(n) <= j
    ensures Fits(n)
  {
    MultipleOfMultiple(n, Excess(n), j);
  }

  lemma ShiftedExcess(a: nat, j: nat, n: nat)
    requires 0 < a < Pow10(PRECISION) && n == a * Pow10(j)
    ensures Excess(n) <= j
  {
    DigitsAtMost(a, PRECISION);
    DigitsShift(a, j);
  }

  /** A number of at most 20 digits, or 10^20 itself, fits however many zeros follow it. */
  lemma ShiftedFits(a: nat, j: nat, n: nat)
    requires a <= Pow10(PRECISION) && n == a * Pow10(j)
    ensures Fits(n)
  {
    if a == 0 {
    } else if a < Pow10(PRECISION) {
      ShiftedExcess(a, j, n);
      MulDiv(a, Pow10(j));
      MultipleFits(n, j);
    } else {
      PowerFits(PRECISION + j);
      Pow10Add(PRECISION, j);
    }
  }

  lemma PowerFits(d: nat)
    ensures Fits(Pow10(d))
  {
    assert Pow10(d) < Pow10(d + 1);
    DigitsAtMost(Pow10(d), d + 1);
    MulDiv(1, Pow10(d));
    MultipleOfMultiple(Pow10(d), Excess(Pow10(d)), d);
  }

  /** What is left of a number above its excess digits is at most 10^20. */
  lemma KeptPart(n: nat)
    ensures n <= Pow10(PRECISION) * Pow10(Excess(n))
    ensures n / Pow10(Excess(n)) <= Pow10(PRECISION)
  {
    KeptBound(n);
    DivideBoth(n, Pow10(PRECISION), Pow10(Excess(n)));
  }

  lemma KeptBound(n: nat)
    ensures n <= Pow10(PRECISION) * Pow10(Excess(n))
  {
    Pow10Add(PRECISION, Excess(n));
    if n > 0 {
      DigitsBounds(n);
      Pow10Monotone(Digits(n), PRECISION + Excess(n));
    }
  }

  lemma DivideBoth(n: nat, limit: nat, p: nat)
    requires p > 0 && n <= limit * p
    ensures n / p <= limit
  {
    MulDiv(limit, p);
    DivMonotone(n, limit * p, p);
  }

  lemma Regroup(a: int, p: int, q: int)
    ensures (a * p) * q == a * (p * q)
  {
  }

  /** n is at most 10^20, followed by k zeros. */
  predicate Shape(n: nat, a: nat, k: nat) {
    n == a * Pow10(k) && a <= Pow10(PRECISION)
  }

  lemma FittingShape(n: nat)
    requires Fits(n)
    ensures Shape(n, n / Pow10(Excess(n)), Excess(n))
  {
    Factor(n, Pow10(Excess(n)));
    KeptPart(n);
  }

  lemma ShapeShift(n: nat, a: nat, k: nat, j: nat, m: nat)
    requires Shape(n, a, k) && m == n * Pow10(j)
    ensures Shape(m, a, k + j)
  {
    Regroup(a, Pow10(k), Pow10(j));
    Pow10Add(k, j);
  }

  lemma FitsShiftUp(n: nat, j: nat, m: nat)
    requires Fits(n) && m == n * Pow10(j)
    ensures Fits(m)
  {
    FittingShape(n);
    ShapeShift(n, n / Pow10(Excess(n)), Excess(n), j, m);
    ShiftedFits(n / Pow10(Excess(n)), Excess(n) + j, m);
  }

  lemma FitsShiftDown(n: nat, j: nat, m: nat)
    requires Fits(m) && m == n * Pow10(j)
    ensures Fits(n)
  {
    var k := Excess(n);
    if k > 0 {
      DigitsShift(n, j);
      Pow10Add(k, j);
      CancelFactor(n, Pow10(k), Pow10(j), m);
    }
  }

  lemma CancelFactor(n: nat, p: nat, q: nat, m: nat)
    requires p > 0 && q > 0 && p * q > 0 && m == n * q && m % (p * q) == 0
    ensures n % p == 0
  {
    var a := m / (p * q);
    Factor(m, p * q);
    Regroup(a, p, q);
    MulMonotone(n, a * p, q);
    MulMonotone(a * p, n, q);
    MulDiv(a, p);
  }

  lemma ScaledMultiple(c: nat, p: nat, q: nat)
    requires p > 0 && q > 0 && p * q > 0
    ensures c * q % (p * q) == 0 <==> c % p == 0
  {
    if c * q % (p * q) == 0 {
      CancelFactor(c, p, q, c * q);
    }
    if c % p == 0 {
      Factor(c, p);
      Regroup(c / p, p, q);
      MulDiv(c / p, p * q);
    }
  }

  lemma NegatedDivides(n: int, p: int)
    requires p > 0 && n % p == 0
    ensures -n % p == 0
  {
    var q := n / p;
    Factor(n, p);
    assert -n == -q * p;
    DivModUnique(-n, p, -q, 0);
  }

  lemma NegatedMultiple(n: int, p: int)
    requires p > 0
    ensures n % p == 0 <==> -n % p == 0
  {
    if n % p == 0 { NegatedDivides(n, p); }
    if -n % p == 0 { NegatedDivides(-n, p); }
  }

  lemma SmallFits(n: nat)
    requires n < Pow10(PRECISION)
    ensures Excess(n) == 0 && Fits(n) && RoundNat(n) == n
  {
    DigitsAtMost(n, PRECISION);
    assert Pow10(0) == 1;
  }

  // ---- What rounding does ----

  lemma NearestIsNear(n: nat, p: nat)
    requires p == 1 || (p > 0 && p % 2 == 0)
    ensures n - p / 2 <= Nearest(n, p) <= n + p / 2
    ensures Nearest(n, p) % p == 0
    ensures n % p == 0 ==> Nearest(n, p) == n
  {
    var q := (n + p / 2) / p;
    assert n + p / 2 == q * p + (n + p / 2) % p;
    MulDiv(q, p);
    if n % p == 0 {
      Factor(n, p);
      DivModUnique(n + p / 2, p, n / p, p / 2);
    }
  }

  lemma NearestBetweenMultiples(n: nat, m: nat, p: nat)
    requires p > 0 && m % p == 0
    ensures m <= n ==> m <= Nearest(n, p)
    ensures n <= m ==> Nearest(n, p) <= m
  {
    MultipleIsNearest(m, p);
    if m <= n {
      NearestMonotone(m, n, p);
    }
    if n <= m {
      NearestMonotone(n, m, p);
    }
  }

  lemma MultipleIsNearest(m: nat, p: nat)
    requires p > 0 && m % p == 0
    ensures Nearest(m, p) == m
  {
    Factor(m, p);
    DivModUnique(m + p / 2, p, m / p, p / 2);
  }

  lemma NearestMonotone(m: nat, n: nat, p: nat)
    requires p > 0 && m <= n
    ensures Nearest(m, p) <= Nearest(n, p)
  {
    DivMonotone(m + p / 2, n + p / 2, p);
    MulMonotone((m + p / 2) / p, (n + p / 2) / p, p);
  }

  lemma NearestScaled(n: nat, p: nat, t: nat)
    requires p > 0 && p % 2 == 0 && t > 0 && p * t > 0
    ensures Nearest(n * t, p * t) == Nearest(n, p) * t
  {
    var h := p / 2;
    var q, r := (n + h) / p, (n + h) % p;
    assert n + h == q * p + r;
    assert p * t == (h * t) * 2;
    MulDiv(h * t, 2);
    assert (n + h) * t == n * t + h * t;
    assert (q * p + r) * t == q * (p * t) + r * t;
    MulMonotone(r, p, t);
    assert 0 <= r * t;
    DivModUnique(n * t + h * t, p * t, q, r * t);
    assert q * (p * t) == (q * p) * t;
  }

  lemma Pow10Even(k: nat)
    ensures Pow10(k) == 1 || Pow10(k) % 2 == 0
    ensures k > 0 ==> Pow10(k) % 2 == 0
  {
  }

  /** Rounding moves by at most half a unit of the last digit kept, and fixes what fits. */
  lemma RoundNear(n: nat)
    ensures n - Pow10(Excess(n)) / 2 <= RoundNat(n) <= n + Pow10(Excess(n)) / 2
    ensures RoundNat(n) % Pow10(Excess(n)) == 0
    ensures Fits(n) ==> RoundNat(n) == n
  {
    Pow10Even(Excess(n));
    NearestIsNear(n, Pow10(Excess(n)));
  }

  /** Rounding never steps over a multiple of the last digit kept. */
  lemma RoundBetweenMultiples(n: nat, m: nat)
    requires m % Pow10(Excess(n)) == 0
    ensures m <= n ==> m <= RoundNat(n)
    ensures n <= m ==> RoundNat(n) <= m
  {
    NearestBetweenMultiples(n, m, Pow10(Excess(n)));
  }

  lemma RoundedBound(n: nat)
    ensures RoundNat(n) <= Pow10(PRECISION) * Pow10(Excess(n))
  {
    KeptBound(n);
    MulDiv(Pow10(PRECISION), Pow10(Excess(n)));
    RoundBetweenMultiples(n, Pow10(PRECISION) * Pow10(Excess(n)));
  }

  lemma BoundedMultipleFits(n: nat, a: nat, k: nat)
    requires n == a * Pow10(k) && n <= Pow10(PRECISION) * Pow10(k)
    ensures Fits(n)
  {
    MulMonotone(a, Pow10(PRECISION), Pow10(k));
    ShiftedFits(a, k, n);
  }

  /** The rounded number fits: rounding again changes nothing. */
  lemma RoundedFits(n: nat)
    ensures Fits(RoundNat(n))
  {
    RoundedBound(n);
    RoundNear(n);
    Factor(RoundNat(n), Pow10(Excess(n)));
    DivMonotone(0, RoundNat(n), Pow10(Excess(n)));
    BoundedMultipleFits(RoundNat(n), RoundNat(n) / Pow10(Excess(n)), Excess(n));
  }

  /** Rounding depends on the number alone, not on how many trailing zeros it is written with. */
  lemma RoundShift(n: nat, j: nat)
    ensures RoundNat(n * Pow10(j)) == RoundNat(n) * Pow10(j)
  {
    if Excess(n) > 0 {
      DigitsShift(n, j);
      Pow10Add(Excess(n), j);
      Pow10Even(Excess(n));
      NearestScaled(n, Pow10(Excess(n)), Pow10(j));
    } else {
      FitsShiftUp(n, j, n * Pow10(j));
      RoundNear(n);
      RoundNear(n * Pow10(j));
    }
  }
}
