/**
 Continuous compounding by a truncated Taylor series of e^x - 1.

 The loop keeps a truncated power z ~ x^k and divides it by k!, so every term is rounded down twice.
 The exact partial sums are the reals `ExactSum`; the integers of the loop are `Expm1`.
 */
module Compounding {
  import opened Outcomes
  import opened Rounding
  import opened FixedPoint

  const SECONDS_PER_2H: nat := 7_200
  const SECONDS_PER_12H: nat := 43_200
  const SECONDS_PER_DAY: nat := 86_400
  const SECONDS_PER_WEEK: nat := 604_800
  const SECONDS_PER_YEAR: nat := 31_536_000
  const MAX_ACCRUAL_SECONDS: nat := SECONDS_PER_WEEK

  // ----- the loop and what it computes -----

  function Factorial(k: nat): (f: nat)
    ensures 1 <= f
  {
    if k == 0 then 1 else
    MulPositive(Factorial(k - 1), k);
    Factorial(k - 1) * k
  }

  /** x^k in units of 10^-15, rounded down at every multiplication. */
  function Power(x: nat, k: nat): nat
    requires 1 <= k
  {
    if k == 1 then x else Power(x, k - 1) * x / ONE
  }

  function Expm1(x: nat, terms: nat): nat {
    if terms == 0 then 0
    else if terms == 1 then x
    else
      DivNonNegative(Power(x, terms), Factorial(terms));
      Expm1(x, terms - 1) + Power(x, terms) / Factorial(terms)
  }

  method Expm1Approx(x: nat, terms: nat) returns (r: Result<nat>)
    ensures r.Ok? ==> r.value == Expm1(x, terms)
    ensures x <= ONE && terms <= 20 ==> r.Ok?
  {
    if terms == 0 {
      return Ok(0);
    }
    if terms == 1 {
      return Ok(x);
    }
    var z, acc, fac := x, x, 1;
    for k := 2 to terms + 1
      invariant z == Power(x, k - 1) && acc == Expm1(x, k - 1)
      invariant fac == Factorial(k - 1)
    {
      if x <= ONE && terms <= 20 { RoomForTerm(x, k); }
      z :- Mul(z, x);
      fac :- AddU64(fac * k, 0);
      DivNonNegative(z, fac);
      acc :- Add(acc, z / fac);
    }
    return Ok(acc);
  }

  lemma {:induction false} PowerShrinks(x: nat, k: nat)
    requires 1 <= k && x <= ONE
    ensures Power(x, k) <= ONE
  {
    if k > 1 {
      PowerShrinks(x, k - 1);
      MulLe(Power(x, k - 1), ONE, x);
      MulLe(x, ONE, ONE);
      DivMono(Power(x, k - 1) * x, ONE * ONE, ONE);
    }
  }

  lemma {:induction false} Expm1Bounded(x: nat, terms: nat)
    requires x <= ONE
    ensures Expm1(x, terms) <= terms * ONE
  {
    if terms > 1 {
      Expm1Bounded(x, terms - 1);
      PowerShrinks(x, terms);
      DivNonNegative(Power(x, terms), Factorial(terms));
    }
  }

  lemma {:induction false} FactorialGrows(j: nat, k: nat)
    requires j <= k
    ensures Factorial(j) <= Factorial(k)
  {
    if j < k {
      FactorialGrows(j, k - 1);
      MulLe(1, k, Factorial(k - 1));
    }
  }

  lemma TwentyFactorial()
    ensures Factorial(20) <= U64_MAX
  {
    assert Factorial(5) == 120;
    assert Factorial(10) == 3_628_800;
    assert Factorial(15) == 1_307_674_368_000;
    assert Factorial(20) == 2_432_902_008_176_640_000;
  }

  /** No step of the loop overflows when x <= 1 and there are at most twenty terms. */
  lemma RoomForTerm(x: nat, k: nat)
    requires x <= ONE && 2 <= k <= 20
    ensures Power(x, k - 1) * x <= U192_MAX
    ensures Factorial(k) <= U64_MAX
    ensures Expm1(x, k) <= U192_MAX
  {
    PowerShrinks(x, k - 1);
    MulLe(Power(x, k - 1), ONE, x);
    FactorialGrows(k, 20);
    TwentyFactorial();
    Expm1Bounded(x, k);
  }

  // ----- accuracy -----

  ghost function ExactPower(x: nat, k: nat): real
    requires 1 <= k
  {
    if k == 1 then x as real else ExactPower(x, k - 1) * (x as real / ONE as real)
  }

  /** x + x^2/2! + ... + x^n/n!, in units of 10^-15 and without rounding. */
  ghost function ExactSum(x: nat, terms: nat): real {
    if terms == 0 then 0.0
    else if terms == 1 then x as real
    else ExactSum(x, terms - 1) + ExactPower(x, terms) / Factorial(terms) as real
  }

  lemma RealMulLe(a: real, b: real, c: real)
    requires a <= b && 0.0 <= c
    ensures a * c <= b * c
  {
  }

  /** A quotient that was rounded down, beside the exact one. */
  lemma RealQuotient(a: int, d: int, q: int)
    requires 0 < d && q * d <= a < q * d + d
    ensures q as real <= a as real / d as real <= q as real + 1.0 - 1.0 / d as real
  {
    var w := 1.0 / d as real;
    assert w * d as real == 1.0;
    assert a as real / d as real == a as real * w;
    RealMulLe((q * d) as real, a as real, w);
    RealMulLe(a as real, (q * d + d - 1) as real, w);
    assert (q * d) as real * w == q as real * (d as real * w);
    assert (q * d + d - 1) as real * w == q as real * (d as real * w) + d as real * w - w;
  }

  lemma RealProductOver(a: int, b: int, d: int)
    requires 0 < d
    ensures (a * b) as real / d as real == a as real * (b as real / d as real)
  {
    assert (a * b) as real == a as real * b as real;
  }

  /** A gap of at most e stays one when both sides are scaled by the same u <= 1. */
  lemma RealScale(p: real, z: real, u: real, e: real)
    requires 0.0 <= p - z <= e && 0.0 <= u <= 1.0
    ensures 0.0 <= p * u - z * u <= e
    ensures p * u - z * u <= e * u
  {
    var gap := p - z;
    RealMulLe(0.0, gap, u);
    RealMulLe(gap, e, u);
    RealMulLe(u, 1.0, gap);
    assert u * gap <= gap;
    assert gap * u <= e;
    assert p * u - z * u == gap * u;
  }

  /** The truncated power is below the exact one by at most one unit per multiplication. */
  lemma {:induction false} PowerError(x: nat, k: nat)
    requires 1 <= k && x <= ONE
    ensures 0.0 <= ExactPower(x, k) - Power(x, k) as real <= (k - 1) as real
  {
    if k > 1 {
      PowerError(x, k - 1);
      UnitFraction(x, ONE);
      RealScale(ExactPower(x, k - 1), Power(x, k - 1) as real, x as real / ONE as real, (k - 2) as real);
      DivBounds(Power(x, k - 1) * x, ONE);
      RealQuotient(Power(x, k - 1) * x, ONE, Power(x, k));
      RealProductOver(Power(x, k - 1), x, ONE);
      UnitFraction(1, ONE);
    }
  }

  lemma UnitFraction(a: nat, d: nat)
    requires a <= d && 0 < d
    ensures 0.0 <= a as real / d as real <= 1.0
  {
  }

  /** One more term adds less than one unit plus its share of the power's error. */
  lemma TermError(x: nat, k: nat)
    requires 1 <= k && x <= ONE
    ensures var f := Factorial(k) as real;
            && 0.0 <= ExactPower(x, k) / f - (Power(x, k) / Factorial(k)) as real
            && ExactPower(x, k) / f - (Power(x, k) / Factorial(k)) as real <= 1.0 + (k as real - 2.0) / f
  {
    PowerError(x, k);
    QuotientError(ExactPower(x, k), Power(x, k), Factorial(k), (k - 1) as real);
  }

  lemma QuotientError(p: real, z: nat, f: nat, e: real)
    requires 0.0 <= p - z as real <= e && 1 <= f
    ensures 0.0 <= p / f as real - (z / f) as real <= 1.0 + (e - 1.0) / f as real
  {
    var w := 1.0 / f as real;
    UnitFraction(1, f);
    DivBounds(z, f);
    RealQuotient(z, f, z / f);
    RealScale(p, z as real, w, e);
    assert p / f as real == p * w && z as real / f as real == z as real * w;
    assert (e - 1.0) / f as real == e * w - w;
  }

  /** 1/(n-1)! == n/n!, so the shares of the powers' errors telescope. */
  lemma Telescope(g: nat, n: nat)
    requires 1 <= g && 1 <= n
    ensures 1.0 + (n as real - 2.0) / (g * n) as real - 1.0 / g as real == 1.0 - 2.0 / (g * n) as real
    ensures 2.0 / (g * n) as real >= 1.0 / (g * n) as real
  {
    MulPositive(g, n);
    var f := (g * n) as real;
    assert f == g as real * n as real;
    assert (n as real / f) * f == n as real == (1.0 / g as real) * f;
    assert (n as real - 2.0) / f == n as real / f - 2.0 / f;
  }

  /** The loop never exceeds the exact partial sum and falls short by less than `terms` units. */
  lemma {:induction false} Expm1Accuracy(x: nat, terms: nat)
    requires x <= ONE && 1 <= terms
    ensures Expm1(x, terms) as real <= ExactSum(x, terms)
    ensures ExactSum(x, terms) - Expm1(x, terms) as real <= terms as real - 1.0 / Factorial(terms) as real
    ensures ExactSum(x, terms) - Expm1(x, terms) as real < terms as real
  {
    if terms == 1 {
      assert Factorial(0) == 1;
    } else {
      Expm1Accuracy(x, terms - 1);
      TermError(x, terms);
      Telescope(Factorial(terms - 1), terms);
    }
    UnitFraction(1, Factorial(terms));
    assert 0.0 < 1.0 / Factorial(terms) as real;
  }

  // ----- monotonicity -----

  lemma {:induction false} PowerMonotone(x: nat, y: nat, k: nat)
    requires x <= y && 1 <= k
    ensures Power(x, k) <= Power(y, k)
  {
    if k > 1 {
      PowerMonotone(x, y, k - 1);
      MulLe(Power(x, k - 1), Power(y, k - 1), x);
      MulLe(x, y, Power(y, k - 1));
      DivMono(Power(x, k - 1) * x, Power(y, k - 1) * y, ONE);
    }
  }

  /** A larger argument and more terms both give a larger sum. */
  lemma {:induction false} Expm1Monotone(x: nat, y: nat, m: nat, n: nat)
    requires x <= y && m <= n
    ensures Expm1(x, m) <= Expm1(y, n)
    decreases n
  {
    if n > 1 {
      DivNonNegative(Power(y, n), Factorial(n));
      if m < n {
        Expm1Monotone(x, y, m, n - 1);
      } else {
        Expm1Monotone(x, y, n - 1, n - 1);
        PowerMonotone(x, y, n);
        DivMono(Power(x, n), Power(y, n), Factorial(n));
      }
    }
  }

  // ----- compound interest -----

  function Terms(seconds: int): Result<nat> {
    if seconds <= SECONDS_PER_2H then Ok(5)
    else if seconds <= SECONDS_PER_12H then Ok(6)
    else if seconds <= SECONDS_PER_DAY then Ok(7)
    else if seconds <= SECONDS_PER_WEEK then Ok(10)
    else Err(Panic)
  }

  function CompoundInterest(rate: nat, seconds: int): Result<nat> {
    var _ :- Require(rate <= 2 * ONE, Panic);
    var terms :- Terms(seconds);
    var scaled :- Checked(rate * seconds);
    Ok(Expm1(scaled / SECONDS_PER_YEAR, terms))
  }

  /**
   Interest is defined exactly for rates up to 200% and for at most a week; it grows with the rate
   and with the time, also where the number of terms jumps. The series is applied well inside the
   range in which it is accurate and cannot overflow.
   */
  lemma CompoundInterestMonotone(rate: nat, seconds: nat, rate': nat, seconds': nat)
    requires rate <= rate' && seconds <= seconds'
    ensures CompoundInterest(rate, seconds).Ok? <==> rate <= 2 * ONE && seconds <= SECONDS_PER_WEEK
    ensures CompoundInterest(rate, seconds).Ok? ==> 20 * (rate * seconds / SECONDS_PER_YEAR) <= ONE
    ensures CompoundInterest(rate', seconds').Ok?
            ==> CompoundInterest(rate, seconds).Ok?
                && CompoundInterest(rate, seconds).value <= CompoundInterest(rate', seconds').value
  {
    MulLe(0, rate, seconds);
    if rate <= 2 * ONE && seconds <= SECONDS_PER_WEEK {
      MulLe(rate, 2 * ONE, seconds);
      MulLe(seconds, SECONDS_PER_WEEK, 2 * ONE);
      DivMono(rate * seconds, 2 * ONE * SECONDS_PER_WEEK, SECONDS_PER_YEAR);
      assert 2 * ONE * SECONDS_PER_WEEK / SECONDS_PER_YEAR < 39_000_000_000_000;
    }
    if CompoundInterest(rate', seconds').Ok? {
      MulLe(rate, rate', seconds);
      MulLe(seconds, seconds', rate');
      DivMono(rate * seconds, rate' * seconds', SECONDS_PER_YEAR);
      Expm1Monotone(rate * seconds / SECONDS_PER_YEAR, rate' * seconds' / SECONDS_PER_YEAR,
                    Terms(seconds).value, Terms(seconds').value);
    }
  }

  // ----- how large the interest of one accrual can be -----

  /** Each power is at most a twentieth of the one before, so the sum stays below a geometric series. */
  lemma {:induction false} SeriesIsGeometric(x: nat, terms: nat)
    requires 20 * x <= ONE && 1 <= terms
    ensures 19 * Expm1(x, terms) + Power(x, terms) <= 20 * x
  {
    if 1 < terms {
      SeriesIsGeometric(x, terms - 1);
      PowerIsATwentieth(Power(x, terms - 1), x);
      DivNonNegative(Power(x, terms), Factorial(terms));
    }
  }

  lemma PowerIsATwentieth(power: nat, x: nat)
    requires 20 * x <= ONE
    ensures 20 * (power * x / ONE) <= power
  {
    DivBounds(power * x, ONE);
    MulLe(20 * x, ONE, power);
    assert power * (20 * x) == 20 * (power * x);
  }

  /** Interest for at most a week, at 200% at most, is below a twentieth of the debt. */
  lemma SeriesBelowATwentieth(rate: nat, seconds: nat)
    requires rate <= 2 * ONE && seconds <= SECONDS_PER_WEEK
    ensures CompoundInterest(rate, seconds).Ok? && 20 * CompoundInterest(rate, seconds).value <= ONE
  {
    MulLe(0, rate, seconds);
    MulLe(rate, 2 * ONE, seconds);
    MulLe(seconds, SECONDS_PER_WEEK, 2 * ONE);
    var x := rate * seconds / SECONDS_PER_YEAR;
    DivMono(rate * seconds, 2 * ONE * SECONDS_PER_WEEK, SECONDS_PER_YEAR);
    DivNonNegative(rate * seconds, SECONDS_PER_YEAR);
    assert x <= 39_000_000_000_000;
    SeriesIsGeometric(x, Terms(seconds).value);
  }

  // ----- how many terms are enough -----

  lemma RealDivLe(a: real, b: real, c: real)
    requires a <= b && 0.0 < c
    ensures a / c <= b / c
  {
    var w := 1.0 / c;
    assert 0.0 <= w && a / c == a * w && b / c == b * w;
    RealMulLe(a, b, w);
  }

  lemma RealDivAnti(a: real, c: real, d: real)
    requires 0.0 <= a && 0.0 < c <= d
    ensures 0.0 <= a / d <= a / c
  {
    var q := a / d;
    assert q * d == a;
    RealMulLe(c, d, q);
    RealDivLe(q * c, a, c);
  }

  /** The k-th term of the series. */
  ghost function ExactTerm(x: nat, k: nat): real
    requires 1 <= k
  {
    ExactPower(x, k) / Factorial(k) as real
  }

  lemma {:induction false} ExactPowerBelow(x: nat, u: real, k: nat)
    requires 1 <= k && 0.0 <= u && x as real <= u * ONE as real
    ensures 0.0 <= ExactPower(x, k) <= ONE as real * RealPower(u, k)
  {
    if k == 1 {
      assert RealPower(u, 1) == u * RealPower(u, 0) == u;
    } else {
      ExactPowerBelow(x, u, k - 1);
      RealDivLe(x as real, u * ONE as real, ONE as real);
      var v := x as real / ONE as real;
      RealMulLe(ExactPower(x, k - 1), ONE as real * RealPower(u, k - 1), v);
      RealMulLe(v, u, ONE as real * RealPower(u, k - 1));
      RealMulLe(0.0, ExactPower(x, k - 1), v);
    }
  }

  ghost function RealPower(u: real, k: nat): real {
    if k == 0 then 1.0 else u * RealPower(u, k - 1)
  }

  lemma HalfTerm(p: real, v: real, f: real, g: real)
    requires 0.0 <= p && 0.0 <= v <= 0.5 && 0.0 < f <= g
    ensures 0.0 <= (p * v) / g <= 0.5 * (p / f)
  {
    var half, product := 0.5 * p, p * v;
    assert product <= half by {
      RealMulLe(v, 0.5, p);
      assert v * p == p * v;
    }
    assert 0.0 <= product;
    RealDivAnti(product, f, g);
    RealDivLe(product, half, f);
    HalfOver(p, f);
  }

  lemma HalfOver(p: real, f: real)
    requires 0.0 < f
    ensures (0.5 * p) / f == 0.5 * (p / f)
  {
    var w := 1.0 / f;
    assert (0.5 * p) / f == (0.5 * p) * w && p / f == p * w;
  }

  lemma HalfUnit(x: nat)
    requires 2 * x <= ONE
    ensures 0.0 <= x as real / ONE as real <= 0.5
  {
  }

  /** For x up to a half each term is at most half of the one before. */
  lemma TermHalves(x: nat, k: nat)
    requires 2 * x <= ONE && 1 <= k
    ensures 0.0 <= ExactTerm(x, k + 1) <= 0.5 * ExactTerm(x, k)
  {
    var p, v, f, g := ExactPower(x, k), x as real / ONE as real, Factorial(k) as real, Factorial(k + 1) as real;
    assert 0.0 <= p by { ExactPowerBelow(x, 1.0, k); }
    assert 0.0 <= v <= 0.5 by { HalfUnit(x); }
    assert 0.0 < f <= g by { FactorialGrows(k, k + 1); }
    assert ExactTerm(x, k + 1) == (p * v) / g && ExactTerm(x, k) == p / f;
    HalfTerm(p, v, f, g);
  }

  /** So all the later terms together are at most twice the first of them. */
  lemma {:induction false} TailOfSeries(x: nat, n: nat, m: nat)
    requires 2 * x <= ONE && 1 <= n < m
    ensures ExactSum(x, n) <= ExactSum(x, m)
    ensures ExactSum(x, m) + ExactTerm(x, m) <= ExactSum(x, n) + 2.0 * ExactTerm(x, n + 1)
    decreases m
  {
    TermHalves(x, m - 1);
    if n + 1 < m { TailOfSeries(x, n, m - 1); }
  }

  lemma FirstLeftOut(x: nat, u: real, n: nat, power: real, f: nat)
    requires 1 <= n && 0.0 <= u && x as real <= u * ONE as real && RealPower(u, n + 1) <= power && Factorial(n + 1) == f
    requires ONE as real * power <= 0.000005 * f as real
    ensures ExactTerm(x, n + 1) <= 0.000005
  {
    ExactPowerBelow(x, u, n + 1);
    RealMulLe(RealPower(u, n + 1), power, ONE as real);
    QuotientBelow(ExactPower(x, n + 1), 0.000005, f as real);
  }

  lemma QuotientBelow(p: real, b: real, f: real)
    requires p <= b * f && 0.0 < f
    ensures p / f <= b
  {
    RealDivLe(p, b * f, f);
  }

  lemma PowersOfBounds()
    ensures RealPower(0.0005, 6) <= 0.00000_00000_00000_0001
    ensures RealPower(0.0028, 7) <= 0.00000_00000_00000_01
    ensures RealPower(0.0055, 8) <= 0.00000_00000_00000_01
    ensures RealPower(0.039, 11) <= 0.00000_00000_00001
  {
    assert RealPower(0.0005, 3) == 0.0005 * 0.0005 * 0.0005;
    assert RealPower(0.0028, 3) == 0.0028 * 0.0028 * 0.0028;
    assert RealPower(0.0055, 4) == 0.0055 * 0.0055 * 0.0055 * 0.0055;
    assert RealPower(0.039, 4) == 0.039 * 0.039 * 0.039 * 0.039;
    assert RealPower(0.039, 8) == 0.039 * 0.039 * 0.039 * 0.039 * RealPower(0.039, 4);
  }

  lemma Factorials()
    ensures Factorial(6) == 720 && Factorial(7) == 5_040 && Factorial(8) == 40_320 && Factorial(11) == 39_916_800
  {
    assert Factorial(4) == 24;
  }

  lemma ExponentBelow(rate: nat, seconds: nat, limit: nat, bound: nat)
    requires rate <= 2 * ONE && seconds <= limit && 2 * ONE * limit / SECONDS_PER_YEAR <= bound
    ensures rate * seconds / SECONDS_PER_YEAR <= bound
  {
    MulLe(rate, 2 * ONE, seconds);
    MulLe(seconds, limit, 2 * ONE);
    DivMono(rate * seconds, 2 * ONE * limit, SECONDS_PER_YEAR);
  }

  /** The first term that is left out is at most half of 10^-20, at every rate and time that are accepted. */
  lemma FirstTermLeftOut(rate: nat, seconds: nat, x: nat)
    requires rate <= 2 * ONE && seconds <= SECONDS_PER_WEEK && x == rate * seconds / SECONDS_PER_YEAR
    ensures 2 * x <= ONE && ExactTerm(x, Terms(seconds).value + 1) <= 0.000005
  {
    PowersOfBounds();
    Factorials();
    ExponentBelow(rate, seconds, SECONDS_PER_WEEK, 39_000_000_000_000);
    if seconds <= SECONDS_PER_2H {
      ExponentBelow(rate, seconds, SECONDS_PER_2H, 500_000_000_000);
      FirstLeftOut(x, 0.0005, 5, 0.00000_00000_00000_0001, 720);
    } else if seconds <= SECONDS_PER_12H {
      ExponentBelow(rate, seconds, SECONDS_PER_12H, 2_800_000_000_000);
      FirstLeftOut(x, 0.0028, 6, 0.00000_00000_00000_01, 5_040);
    } else if seconds <= SECONDS_PER_DAY {
      ExponentBelow(rate, seconds, SECONDS_PER_DAY, 5_500_000_000_000);
      FirstLeftOut(x, 0.0055, 7, 0.00000_00000_00000_01, 40_320);
    } else {
      FirstLeftOut(x, 0.039, 10, 0.00000_00000_00001, 39_916_800);
    }
  }

  /**
   The number of terms is enough for twenty decimals, at every rate and time that are accepted: no
   longer series, and so no limit of them, is larger by more than 10^-20 (10^-5 units).
   */
  lemma TermsSuffice(rate: nat, seconds: nat, m: nat)
    requires rate <= 2 * ONE && seconds <= SECONDS_PER_WEEK && Terms(seconds).value <= m
    ensures var x := rate * seconds / SECONDS_PER_YEAR;
            0 <= x && ExactSum(x, Terms(seconds).value) <= ExactSum(x, m)
                      <= ExactSum(x, Terms(seconds).value) + 0.00001
  {
    MulLe(0, rate, seconds);
    DivNonNegative(rate * seconds, SECONDS_PER_YEAR);
    var x, n := rate * seconds / SECONDS_PER_YEAR, Terms(seconds).value;
    FirstTermLeftOut(rate, seconds, x);
    if n < m {
      TailOfSeries(x, n, m);
      ExactPowerBelow(x, 1.0, m);
      RealDivLe(0.0, ExactPower(x, m), Factorial(m) as real);
    }
  }
}
