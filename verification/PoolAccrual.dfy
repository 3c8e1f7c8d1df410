/** When interest can be accrued at all: the rate curve and the series, in the states a pool can be in. */
module PoolAccrual {
  import opened Outcomes
  import opened Rounding
  import opened FixedPoint
  import opened RateCurve
  import opened Compounding
  import opened PoolModel
  import opened PoolSafety

  /** The numbers are small enough for the products and sums of an accrual to fit. */
  predicate RoomToAccrue(p: Pool) {
    UtilizationFits(p) && p.fees + p.borrowed <= U192_MAX
  }

  predicate UtilizationFits(p: Pool) {
    p.borrowed * ONE <= U192_MAX && Value(p) <= U192_MAX
  }

  /** A pool with value has a utilization exactly if its parts fit, and it is at most one. */
  lemma UtilizationDefined(p: Pool)
    requires 0 < Value(p)
    ensures UtilizationRate(p).Ok? <==> UtilizationFits(p)
    ensures UtilizationRate(p).Ok? ==> UtilizationRate(p).value <= ONE
  {
    var total := Value(p);
    MulLe(p.borrowed, total, ONE);
    DivMono(p.borrowed * ONE, total * ONE, total);
    DivIs(total * ONE, total, ONE);
  }

  /**
   With notes outstanding, an accepted configuration gives a rate between its lowest and its
   highest, except at zero utilization with a first knot of zero or when the utilization does not fit.
   */
  lemma InterestRateDefined(p: Pool)
    requires Backed(p) && 0 < p.depositNotes && CheckConfig(p.config).Ok?
    ensures UtilizationRate(p).Ok? <==> UtilizationFits(p)
    ensures InterestRate(p).Ok?
            <==> UtilizationFits(p) && (p.config.utilizationRate1 > 0 || UtilizationRate(p).value > 0)
    ensures InterestRate(p).Ok?
            ==> FromBps(p.config.borrowRate0) <= InterestRate(p).value <= FromBps(p.config.borrowRate3)
  {
    UtilizationDefined(p);
    if UtilizationRate(p).Ok? { BorrowRateDefined(p.config, UtilizationRate(p).value); }
  }

  /** The utilization is the largest number of units that does not exceed the debt's share of the value. */
  lemma UtilizationIs(p: Pool, u: nat)
    requires UtilizationRate(p) == Ok(u)
    ensures u * Value(p) <= p.borrowed * ONE < u * Value(p) + Value(p)
  {
    DivBounds(p.borrowed * ONE, Value(p));
  }

  /**
   With notes outstanding the rate of a pool is the point of the configured curve at the debt's share
   of the value: on the line between the two knots around it.
   */
  lemma InterestRateOnCurve(p: Pool, i: nat)
    requires 0 < p.depositNotes && CheckConfig(p.config).Ok? && i <= 2 && InterestRate(p).Ok?
    ensures UtilizationRate(p).Ok?
    ensures var u, c := UtilizationRate(p).value, p.config;
            var lo, hi := KnotUtilization(c, i), KnotUtilization(c, i + 1);
            && u * Value(p) <= p.borrowed * ONE < u * Value(p) + Value(p)
            && (lo <= u <= hi && lo < hi
                ==> && KnotRate(c, i) <= InterestRate(p).value && KnotRate(c, i) <= KnotRate(c, i + 1)
                    && OnLine(u, InterestRate(p).value, lo, hi, KnotRate(c, i), KnotRate(c, i + 1)))
  {
    var u := UtilizationRate(p).value;
    var lo, hi := KnotUtilization(p.config, i), KnotUtilization(p.config, i + 1);
    UtilizationIs(p, u);
    if lo <= u <= hi && lo < hi { BorrowRateOnCurve(p.config, u, i); }
  }

  /** The products and sums of an accrual fit when the series is below a twentieth. */
  lemma InterestFits(borrowed: nat, compound: nat, bps: nat)
    requires borrowed * ONE <= U192_MAX && 20 * compound <= ONE && bps <= 10_000
    ensures 0 <= borrowed * compound <= U192_MAX
    ensures var interest := borrowed * compound / ONE;
            && 0 <= 20 * interest <= borrowed
            && 0 <= interest * FromBps(bps) <= U192_MAX && interest * FromBps(bps) / ONE <= interest
  {
    MulLe(0, compound, borrowed);
    MulLe(compound, ONE, borrowed);
    DivNonNegative(borrowed * compound, ONE);
    PowerIsATwentieth(borrowed, compound);
    var interest := borrowed * compound / ONE;
    MulLe(0, FromBps(bps), interest);
    MulLe(FromBps(bps), ONE, interest);
    ShareAtMost(interest, bps);
  }

  /** Accrual over a positive time succeeds if and only if there is a rate and it is at most 200%. */
  lemma AccrueDefined(p: Pool, time: int)
    requires FeesCapped(p) && RoomToAccrue(p) && p.accruedUntil < time
    ensures Accrue(p, time).Ok? <==> InterestRate(p).Ok? && InterestRate(p).value <= 2 * ONE
  {
    if InterestRate(p).Ok? && InterestRate(p).value <= 2 * ONE {
      var step := Min(time - p.accruedUntil, MAX_ACCRUAL_SECONDS);
      SeriesBelowATwentieth(InterestRate(p).value, step);
      InterestFits(p.borrowed, CompoundInterest(InterestRate(p).value, step).value, p.config.managementFeeRate);
    }
  }

  /** `configure` does not ask for that: a lowest rate above 200% is accepted, and then no time can pass. */
  lemma AcceptedConfigCanStopAccrual(p: Pool, time: int)
    requires CheckConfig(p.config).Ok? && 20_000 < p.config.borrowRate0 && p.accruedUntil < time
    ensures Accrue(p, time).Err?
  {
    if p.depositNotes > 0 && UtilizationRate(p).Ok? {
      BorrowRateDefined(p.config, UtilizationRate(p).value);
    }
  }

  // ----- how much is charged -----

  /** The interest is the debt times the exact factor, or less by at most `short` * 10^-15 of the debt plus one unit. */
  ghost predicate AccurateProduct(debt: nat, interest: int, exact: real, short: nat) {
    var product := debt as real * exact / ONE as real;
    interest as real <= product <= interest as real + 1.0 + debt as real * short as real / ONE as real
  }

  /** How far the product of a debt and a truncated factor, truncated again, can be below the exact one. */
  lemma ProductAccuracy(debt: nat, factor: nat, exact: real, short: nat)
    requires factor as real <= exact <= factor as real + short as real
    ensures AccurateProduct(debt, debt * factor / ONE, exact, short)
  {
    DivBounds(debt * factor, ONE);
    RealQuotient(debt * factor, ONE, debt * factor / ONE);
    RealMulLe(factor as real, exact, debt as real);
    RealMulLe(exact, factor as real + short as real, debt as real);
    assert 0.0 <= 1.0 / ONE as real;
    assert (debt * factor) as real == factor as real * debt as real;
    assert debt as real * exact == exact * debt as real;
    assert (factor as real + short as real) * debt as real == (debt * factor) as real + debt as real * short as real;
  }

  /** The part of a year, times the rate, that one accrual covers. */
  function Exponent(p: Pool, time: int): nat
    requires p.accruedUntil < time && InterestRate(p).Ok?
  {
    var step := StepLength(p, time);
    MulLe(0, step, InterestRate(p).value);
    DivNonNegative(InterestRate(p).value * step, SECONDS_PER_YEAR);
    InterestRate(p).value * step / SECONDS_PER_YEAR
  }

  /** The length of one accrual: the gap, but at most a week. */
  function StepLength(p: Pool, time: int): int {
    Min(time - p.accruedUntil, MAX_ACCRUAL_SECONDS)
  }

  lemma AccrueComputes(p: Pool, time: int)
    requires p.accruedUntil < time && Accrue(p, time).Ok?
    ensures InterestRate(p).Ok? && InterestRate(p).value <= 2 * ONE && Terms(StepLength(p, time)).Ok?
    ensures var (after, done) := Accrue(p, time).value;
            var interest := p.borrowed * Expm1(Exponent(p, time), Terms(StepLength(p, time)).value) / ONE;
            && after.borrowed == p.borrowed + interest
            && after.fees == p.fees + interest * FromBps(p.config.managementFeeRate) / ONE
            && after.accruedUntil == p.accruedUntil + StepLength(p, time)
            && (done <==> after.accruedUntil == time)
  {
  }

  /** The same for the interest of one accrual: the exact factor is the Taylor sum. */
  ghost predicate AccurateInterest(debt: nat, interest: int, x: nat, terms: nat) {
    AccurateProduct(debt, interest, ExactSum(x, terms), terms)
  }

  lemma InterestAccuracy(debt: nat, x: nat, terms: nat)
    requires x <= ONE && 1 <= terms
    ensures AccurateInterest(debt, debt * Expm1(x, terms) / ONE, x, terms)
  {
    SeriesAccuracy(x, terms);
    ProductAccuracy(debt, Expm1(x, terms), ExactSum(x, terms), terms);
  }

  lemma SeriesAccuracy(x: nat, terms: nat)
    requires x <= ONE && 1 <= terms
    ensures Expm1(x, terms) as real <= ExactSum(x, terms) <= Expm1(x, terms) as real + terms as real
  {
    Expm1Accuracy(x, terms);
  }

  lemma ExponentIsSmall(p: Pool, time: int)
    requires p.accruedUntil < time && InterestRate(p).Ok? && InterestRate(p).value <= 2 * ONE
    ensures Exponent(p, time) <= ONE
  {
    CompoundInterestMonotone(InterestRate(p).value, StepLength(p, time), InterestRate(p).value, StepLength(p, time));
  }

  /**
   One accrual charges the debt for the gap or a week, at the quoted rate compounded continuously,
   up to the error of the series; never more.
   */
  lemma AccrueCharges(p: Pool, time: int)
    requires p.accruedUntil < time && Accrue(p, time).Ok?
    ensures InterestRate(p).Ok? && Terms(StepLength(p, time)).Ok?
    ensures AccurateInterest(p.borrowed, Accrue(p, time).value.0.borrowed - p.borrowed,
                             Exponent(p, time), Terms(StepLength(p, time)).value)
  {
    AccrueComputes(p, time);
    ExponentIsSmall(p, time);
    InterestAccuracy(p.borrowed, Exponent(p, time), Terms(StepLength(p, time)).value);
  }

  /** The fee is the configured share of the interest, rounded down; the clock moves by the time charged. */
  lemma AccrueTakesFee(p: Pool, time: int)
    requires p.accruedUntil < time && Accrue(p, time).Ok?
    ensures var (after, done) := Accrue(p, time).value;
            var interest, fee := after.borrowed - p.borrowed, after.fees - p.fees;
            && fee * 10_000 <= interest * p.config.managementFeeRate < fee * 10_000 + 10_000
            && after.accruedUntil == p.accruedUntil + StepLength(p, time)
            && (done <==> after.accruedUntil == time)
  {
    AccrueComputes(p, time);
    FeeShare(p.borrowed * Expm1(Exponent(p, time), Terms(StepLength(p, time)).value) / ONE, p.config.managementFeeRate);
  }

  lemma FeeShare(interest: nat, bps: nat)
    ensures var fee := interest * FromBps(bps) / ONE;
            fee * 10_000 <= interest * bps < fee * 10_000 + 10_000
  {
    assert interest * FromBps(bps) == (interest * bps) * BPS;
    DivBounds((interest * bps) * BPS, ONE);
  }
}
