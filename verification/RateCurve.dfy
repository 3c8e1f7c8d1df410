/**
 The borrow rate as a piecewise-linear function of utilization, over truncating arithmetic.

 Every knot is a whole number of basis points. That makes the interpolation exact at the knots
 although it truncates twice in between.
 */
module RateCurve {
  import opened Outcomes
  import opened Rounding
  import opened FixedPoint

  type u16 = x: int | 0 <= x < 0x1_0000

  const MAX_MANAGEMENT_FEE_RATE: nat := 10_000

  datatype Config = Config(
    disabled: bool,
    allowLending: bool,
    utilizationRate1: u16,
    utilizationRate2: u16,
    borrowRate0: u16,
    borrowRate1: u16,
    borrowRate2: u16,
    borrowRate3: u16,
    managementFeeRate: u16,
    depositLimit: nat,
    borrowLimit: nat)

  /** What `configure` demands of a new configuration. */
  function CheckConfig(c: Config): Result<()> {
    var _ :- Require(c.utilizationRate1 < c.utilizationRate2, InvalidConfigUtilRate);
    var _ :- Require(c.borrowRate0 < c.borrowRate1 < c.borrowRate2 < c.borrowRate3, InvalidConfigBorrowRate);
    Require(c.managementFeeRate <= MAX_MANAGEMENT_FEE_RATE, InvalidConfigManagementRate)
  }

  function Interpolate(x: nat, x0: nat, x1: nat, y0: nat, y1: nat): Result<nat> {
    var _ :- Require(x0 <= x <= x1, Panic);
    var rise :- Sub(y1, y0);
    var run :- Sub(x1, x0);
    var area :- Mul(x - x0, rise);
    var ramp :- Div(area, run);
    Add(y0, ramp)
  }

  function BorrowRate(c: Config, utilization: nat): Result<nat> {
    var util1, util2 := FromBps(c.utilizationRate1), FromBps(c.utilizationRate2);
    if utilization <= util1 then
      Interpolate(utilization, 0, util1, FromBps(c.borrowRate0), FromBps(c.borrowRate1))
    else if utilization <= util2 then
      Interpolate(utilization, util1, util2, FromBps(c.borrowRate1), FromBps(c.borrowRate2))
    else if utilization < ONE then
      Interpolate(utilization, util2, ONE, FromBps(c.borrowRate2), FromBps(c.borrowRate3))
    else
      Ok(FromBps(c.borrowRate3))
  }

  // ----- one segment -----

  /** The interpolated rise after `a` of a segment `run` long that rises by `rise`. */
  function Ramp(a: nat, run: nat, rise: nat): nat
    requires 0 < run
  {
    DivNonNegative(a * rise / ONE * ONE, run);
    a * rise / ONE * ONE / run
  }

  lemma RampMonotone(a: nat, b: nat, run: nat, rise: nat)
    requires 0 < run && a <= b
    ensures Ramp(a, run, rise) <= Ramp(b, run, rise)
  {
    MulLe(a, b, rise);
    DivMono(a * rise, b * rise, ONE);
    DivMono(a * rise / ONE * ONE, b * rise / ONE * ONE, run);
  }

  /** Over whole basis points the ramp ends exactly at the top. */
  lemma RampTop(m: nat, k: nat)
    requires 0 < m
    ensures Ramp(m * BPS, m * BPS, k * BPS) == k * BPS
  {
    var area := (m * k) * 10_000_000;
    assert (m * BPS) * (k * BPS) == (m * k) * (BPS * BPS) == area * ONE;
    DivIs(area * ONE, ONE, area);
    assert area * ONE == (k * BPS) * (m * BPS);
    DivIs(area * ONE, m * BPS, k * BPS);
  }

  /** A segment between whole basis points of at most 16 bits never fails, and stays within its ends. */
  lemma Segment(x: nat, a0: u16, a1: u16, b0: u16, b1: u16)
    requires a0 < a1 && b0 < b1 && a0 * BPS <= x <= a1 * BPS
    ensures Interpolate(x, a0 * BPS, a1 * BPS, b0 * BPS, b1 * BPS)
            == Ok(b0 * BPS + Ramp(x - a0 * BPS, (a1 - a0) * BPS, (b1 - b0) * BPS))
    ensures Ramp(x - a0 * BPS, (a1 - a0) * BPS, (b1 - b0) * BPS) <= (b1 - b0) * BPS
  {
    var a, run, rise := x - a0 * BPS, (a1 - a0) * BPS, (b1 - b0) * BPS;
    RampMonotone(a, run, run, rise);
    RampTop(a1 - a0, b1 - b0);
    MulLe(0, a, rise);
    MulLe(a, 0x1_0000 * BPS, rise);
    MulLe(rise, 0x1_0000 * BPS, 0x1_0000 * BPS);
    DivNonNegative(a * rise, ONE);
  }

  lemma SegmentMonotone(x: nat, y: nat, a0: u16, a1: u16, b0: u16, b1: u16)
    requires a0 < a1 && b0 < b1 && a0 * BPS <= x <= y <= a1 * BPS
    ensures Interpolate(x, a0 * BPS, a1 * BPS, b0 * BPS, b1 * BPS).Ok?
    ensures Interpolate(y, a0 * BPS, a1 * BPS, b0 * BPS, b1 * BPS).Ok?
    ensures Interpolate(x, a0 * BPS, a1 * BPS, b0 * BPS, b1 * BPS).value
            <= Interpolate(y, a0 * BPS, a1 * BPS, b0 * BPS, b1 * BPS).value
  {
    Segment(x, a0, a1, b0, b1);
    Segment(y, a0, a1, b0, b1);
    RampMonotone(x - a0 * BPS, y - a0 * BPS, (a1 - a0) * BPS, (b1 - b0) * BPS);
  }

  /** Between its ends a segment follows the straight line, rounded down by less than (1 + run) / run units. */
  lemma SegmentIsLinear(x: nat, a0: u16, a1: u16, b0: u16, b1: u16)
    requires a0 < a1 && b0 < b1 && a0 * BPS <= x <= a1 * BPS
    ensures Interpolate(x, a0 * BPS, a1 * BPS, b0 * BPS, b1 * BPS).Ok?
    ensures var rise := Interpolate(x, a0 * BPS, a1 * BPS, b0 * BPS, b1 * BPS).value - b0 * BPS;
            var run := (a1 - a0) * BPS; var exact := (x - a0 * BPS) * ((b1 - b0) * BPS);
            rise * run <= exact < rise * run + run + ONE
  {
    Segment(x, a0, a1, b0, b1);
    var a, run, rise := x - a0 * BPS, (a1 - a0) * BPS, (b1 - b0) * BPS;
    DivBounds(a * rise, ONE);
    DivBounds(a * rise / ONE * ONE, run);
  }

  lemma SegmentStart(a0: u16, a1: u16, b0: u16, b1: u16)
    requires a0 < a1 && b0 < b1
    ensures Interpolate(a0 * BPS, a0 * BPS, a1 * BPS, b0 * BPS, b1 * BPS) == Ok(b0 * BPS)
  {
    Segment(a0 * BPS, a0, a1, b0, b1);
    DivIs(0, (a1 - a0) * BPS, 0);
  }

  lemma SegmentEnd(a0: u16, a1: u16, b0: u16, b1: u16)
    requires a0 < a1 && b0 < b1
    ensures Interpolate(a1 * BPS, a0 * BPS, a1 * BPS, b0 * BPS, b1 * BPS) == Ok(b1 * BPS)
  {
    Segment(a1 * BPS, a0, a1, b0, b1);
    RampTop(a1 - a0, b1 - b0);
    assert Ramp(a1 * BPS - a0 * BPS, (a1 - a0) * BPS, (b1 - b0) * BPS) == (b1 - b0) * BPS;
  }

  // ----- the whole curve -----

  /** The segment of the curve a utilization falls into; 3 is the flat end. */
  function Regime(c: Config, utilization: nat): nat {
    if utilization <= FromBps(c.utilizationRate1) then 0
    else if utilization <= FromBps(c.utilizationRate2) then 1
    else if utilization < ONE then 2
    else 3
  }

  function KnotRate(c: Config, i: nat): nat
    requires i <= 3
  {
    FromBps(match i case 0 => c.borrowRate0 case 1 => c.borrowRate1 case 2 => c.borrowRate2 case _ => c.borrowRate3)
  }

  /**
   Under an accepted configuration the rate is defined except at zero utilization with a first knot
   of zero, where the interpolation divides by zero. Where it is defined it lies between the rates
   of the two knots around it.
   */
  lemma BorrowRateDefined(c: Config, utilization: nat)
    requires CheckConfig(c).Ok?
    ensures BorrowRate(c, utilization).Ok? <==> c.utilizationRate1 > 0 || utilization > 0
    ensures BorrowRate(c, utilization).Ok?
            ==> KnotRate(c, Regime(c, utilization)) <= BorrowRate(c, utilization).value
                <= KnotRate(c, Min(3, Regime(c, utilization) + 1))
                && FromBps(c.borrowRate0) <= BorrowRate(c, utilization).value <= FromBps(c.borrowRate3)
  {
    match Regime(c, utilization)
    case 0 =>
      if c.utilizationRate1 > 0 { Segment(utilization, 0, c.utilizationRate1, c.borrowRate0, c.borrowRate1); }
    case 1 => Segment(utilization, c.utilizationRate1, c.utilizationRate2, c.borrowRate1, c.borrowRate2);
    case 2 => Segment(utilization, c.utilizationRate2, 10_000, c.borrowRate2, c.borrowRate3);
    case _ =>
  }

  /** The rate never falls as utilization rises, within a regime and from one to the next. */
  lemma BorrowRateMonotone(c: Config, u: nat, v: nat)
    requires CheckConfig(c).Ok? && u <= v
    requires BorrowRate(c, u).Ok?
    ensures BorrowRate(c, v).Ok? && BorrowRate(c, u).value <= BorrowRate(c, v).value
  {
    BorrowRateDefined(c, u);
    BorrowRateDefined(c, v);
    if Regime(c, u) == Regime(c, v) {
      match Regime(c, u)
      case 0 => SegmentMonotone(u, v, 0, c.utilizationRate1, c.borrowRate0, c.borrowRate1);
      case 1 => SegmentMonotone(u, v, c.utilizationRate1, c.utilizationRate2, c.borrowRate1, c.borrowRate2);
      case 2 => SegmentMonotone(u, v, c.utilizationRate2, 10_000, c.borrowRate2, c.borrowRate3);
      case _ =>
    }
  }

  /** Each knot that is reached gets its configured rate exactly. */
  lemma BorrowRateAtKnots(c: Config, utilization: nat)
    requires CheckConfig(c).Ok?
    ensures c.utilizationRate1 > 0 ==> BorrowRate(c, 0) == Ok(FromBps(c.borrowRate0))
    ensures c.utilizationRate1 > 0 ==> BorrowRate(c, FromBps(c.utilizationRate1)) == Ok(FromBps(c.borrowRate1))
    ensures BorrowRate(c, FromBps(c.utilizationRate2)) == Ok(FromBps(c.borrowRate2))
    ensures ONE <= utilization && FromBps(c.utilizationRate2) < utilization
            ==> BorrowRate(c, utilization) == Ok(FromBps(c.borrowRate3))
  {
    if 0 < c.utilizationRate1 {
      SegmentStart(0, c.utilizationRate1, c.borrowRate0, c.borrowRate1);
      SegmentEnd(0, c.utilizationRate1, c.borrowRate0, c.borrowRate1);
    }
    SegmentEnd(c.utilizationRate1, c.utilizationRate2, c.borrowRate1, c.borrowRate2);
  }

  // ----- the curve is the polyline through its knots -----

  function KnotUtilization(c: Config, i: nat): nat
    requires i <= 3
  {
    match i case 0 => 0 case 1 => FromBps(c.utilizationRate1) case 2 => FromBps(c.utilizationRate2) case _ => ONE
  }

  /** The point (u, rate) is on the line from (lo, low) to (hi, high), rounded down by less than 1 + ONE / (hi - lo). */
  predicate OnLine(u: nat, rate: nat, lo: nat, hi: nat, low: nat, high: nat)
    requires lo < hi && lo <= u && low <= rate && low <= high
  {
    var run := hi - lo;
    (rate - low) * run <= (u - lo) * (high - low) < (rate - low) * run + run + ONE
  }

  lemma OnFirstLine(c: Config, u: nat)
    requires CheckConfig(c).Ok? && 0 < c.utilizationRate1 && u <= FromBps(c.utilizationRate1)
    ensures BorrowRate(c, u).Ok? && FromBps(c.borrowRate0) <= BorrowRate(c, u).value
    ensures OnLine(u, BorrowRate(c, u).value, 0, FromBps(c.utilizationRate1),
                   FromBps(c.borrowRate0), FromBps(c.borrowRate1))
  {
    Segment(u, 0, c.utilizationRate1, c.borrowRate0, c.borrowRate1);
    SegmentIsLinear(u, 0, c.utilizationRate1, c.borrowRate0, c.borrowRate1);
  }

  lemma LineEnds(lo: nat, hi: nat, low: nat, high: nat)
    requires lo < hi && low <= high
    ensures OnLine(lo, low, lo, hi, low, high) && OnLine(hi, high, lo, hi, low, high)
  {
    MulCommutes(high - low, hi - lo);
  }

  lemma OnSecondLine(c: Config, u: nat)
    requires CheckConfig(c).Ok? && FromBps(c.utilizationRate1) <= u <= FromBps(c.utilizationRate2) && 0 < u
    ensures BorrowRate(c, u).Ok? && FromBps(c.borrowRate1) <= BorrowRate(c, u).value
    ensures OnLine(u, BorrowRate(c, u).value, FromBps(c.utilizationRate1), FromBps(c.utilizationRate2),
                   FromBps(c.borrowRate1), FromBps(c.borrowRate2))
  {
    if u == FromBps(c.utilizationRate1) {
      BorrowRateAtKnots(c, u);
      LineEnds(u, FromBps(c.utilizationRate2), FromBps(c.borrowRate1), FromBps(c.borrowRate2));
    } else {
      Segment(u, c.utilizationRate1, c.utilizationRate2, c.borrowRate1, c.borrowRate2);
      SegmentIsLinear(u, c.utilizationRate1, c.utilizationRate2, c.borrowRate1, c.borrowRate2);
    }
  }

  lemma OnThirdLine(c: Config, u: nat)
    requires CheckConfig(c).Ok? && FromBps(c.utilizationRate2) <= u <= ONE && c.utilizationRate2 < 10_000
    ensures BorrowRate(c, u).Ok? && FromBps(c.borrowRate2) <= BorrowRate(c, u).value
    ensures OnLine(u, BorrowRate(c, u).value, FromBps(c.utilizationRate2), ONE,
                   FromBps(c.borrowRate2), FromBps(c.borrowRate3))
  {
    if u == FromBps(c.utilizationRate2) || u == ONE {
      BorrowRateAtKnots(c, u);
      LineEnds(FromBps(c.utilizationRate2), ONE, FromBps(c.borrowRate2), FromBps(c.borrowRate3));
    } else {
      Segment(u, c.utilizationRate2, 10_000, c.borrowRate2, c.borrowRate3);
      SegmentIsLinear(u, c.utilizationRate2, 10_000, c.borrowRate2, c.borrowRate3);
    }
  }

  /**
   Under an accepted configuration the rate, where there is one, is on the straight line between any
   two neighbouring knots around the utilization, rounded down; beyond the last knot it is the highest.
   */
  lemma BorrowRateOnCurve(c: Config, u: nat, i: nat)
    requires CheckConfig(c).Ok? && BorrowRate(c, u).Ok? && i <= 2
    requires KnotUtilization(c, i) <= u <= KnotUtilization(c, i + 1)
    requires KnotUtilization(c, i) < KnotUtilization(c, i + 1)
    ensures KnotRate(c, i) <= BorrowRate(c, u).value && KnotRate(c, i) <= KnotRate(c, i + 1)
    ensures OnLine(u, BorrowRate(c, u).value, KnotUtilization(c, i), KnotUtilization(c, i + 1),
                   KnotRate(c, i), KnotRate(c, i + 1))
  {
    BorrowRateDefined(c, u);
    match i
    case 0 => OnFirstLine(c, u);
    case 1 => OnSecondLine(c, u);
    case _ => OnThirdLine(c, u);
  }
}
