/** Bringing a pool's interest up to the present, one week at most per call. */
module CatchUp {
  import opened Outcomes
  import opened Rounding
  import opened FixedPoint
  import opened RateCurve
  import opened Compounding
  import opened PoolModel
  import opened PoolSafety
  import opened PoolAccrual

  /** The state after calling `accrue_interest` until it reports that it caught up, and the number of calls. */
  function AccrueUntilDone(p: Pool, time: int): Result<(Pool, nat)>
    decreases time - p.accruedUntil
  {
    var (after, done) :- Accrue(p, time);
    if done then Ok((after, 1)) else
    var (last, calls) :- AccrueUntilDone(after, time);
    Ok((last, calls + 1))
  }

  /** ceil(gap / week), but at least one call even when there is nothing to accrue. */
  function CallsNeeded(gap: nat): nat {
    Max(1, (gap + MAX_ACCRUAL_SECONDS - 1) / MAX_ACCRUAL_SECONDS)
  }

  /**
   Catching up ends exactly at `time` after ceil(gap / week) calls; it changes nothing but the debt,
   the fees and the clock, all of which only grow, and never costs the note holders anything.
   */
  lemma {:induction false} CatchUpEndsOnTime(p: Pool, time: int)
    requires FeesCapped(p) && AccrueUntilDone(p, time).Ok?
    ensures p.accruedUntil <= time
    ensures var (after, calls) := AccrueUntilDone(p, time).value;
            && after.accruedUntil == time && calls == CallsNeeded(time - p.accruedUntil)
            && after == p.(borrowed := after.borrowed, fees := after.fees, accruedUntil := time)
            && p.borrowed <= after.borrowed && p.fees <= after.fees && Net(p) <= Net(after)
    decreases time - p.accruedUntil
  {
    var (next, done) := Accrue(p, time).value;
    AccrueKeepsBacking(p, time);
    if !done {
      CatchUpEndsOnTime(next, time);
    }
  }

  // ----- when it succeeds -----

  /** One call adds at most a twentieth of the debt to it, and at most as much to the fees. */
  lemma AccrualAddsATwentieth(p: Pool, time: int)
    requires FeesCapped(p) && p.accruedUntil < time && Accrue(p, time).Ok?
    ensures var after := Accrue(p, time).value.0;
            after.borrowed <= p.borrowed + p.borrowed / 20 && after.fees - p.fees <= after.borrowed - p.borrowed
  {
    SeriesBelowATwentieth(InterestRate(p).value, StepLength(p, time));
    PowerIsATwentieth(p.borrowed, CompoundInterest(InterestRate(p).value, StepLength(p, time)).value);
    AccrueKeepsBacking(p, time);
  }

  /** Room for a number of calls, each of which may add a twentieth of the debt to it. */
  predicate RoomForCalls(borrowed: nat, fees: nat, tokens: nat, calls: nat)
    decreases calls
  {
    && borrowed * ONE <= U192_MAX && fees + borrowed <= U192_MAX && borrowed + tokens * ONE <= U192_MAX
    && (calls > 0 ==> RoomForCalls(borrowed + borrowed / 20, fees + borrowed / 20, tokens, calls - 1))
  }

  lemma {:induction false} LessNeedsLessRoom(b: nat, f: nat, borrowed: nat, fees: nat, tokens: nat, calls: nat)
    requires RoomForCalls(borrowed, fees, tokens, calls) && b <= borrowed && f <= fees
    ensures RoomForCalls(b, f, tokens, calls)
    decreases calls
  {
    if 0 < calls {
      LessNeedsLessRoom(b + b / 20, f + b / 20, borrowed + borrowed / 20, fees + borrowed / 20, tokens, calls - 1);
    }
  }

  /** At every call on the way to `time` there is a rate, and it is at most 200%. */
  predicate RatesHold(p: Pool, time: int)
    decreases time - p.accruedUntil
  {
    p.accruedUntil < time
    ==> && InterestRate(p).Ok? && InterestRate(p).value <= 2 * ONE
        && (Accrue(p, time).Ok? ==> RatesHold(Accrue(p, time).value.0, time))
  }

  /**
   The loop succeeds if and only if time does not run backwards and at every call there is a rate of
   at most 200%, given room for the numbers to grow.
   */
  lemma {:induction false} CatchUpDefined(p: Pool, time: int, calls: nat)
    requires FeesCapped(p) && time - p.accruedUntil <= calls * MAX_ACCRUAL_SECONDS
    requires RoomForCalls(p.borrowed, p.fees, p.tokens, calls)
    ensures AccrueUntilDone(p, time).Ok? <==> p.accruedUntil <= time && RatesHold(p, time)
    decreases time - p.accruedUntil
  {
    if p.accruedUntil < time {
      AccrueDefined(p, time);
      if Accrue(p, time).Ok? {
        var (next, done) := Accrue(p, time).value;
        AccrueTakesFee(p, time);
        AccrueKeepsBacking(p, time);
        AccrualAddsATwentieth(p, time);
        LessNeedsLessRoom(next.borrowed, next.fees, p.borrowed + p.borrowed / 20, p.fees + p.borrowed / 20,
                          p.tokens, calls - 1);
        CatchUpDefined(next, time, calls - 1);
      }
    }
  }

  /** Without notes the rate is the lowest one, at every call. */
  lemma {:induction false} RatesWithoutNotes(p: Pool, time: int)
    requires p.depositNotes == 0
    ensures RatesHold(p, time) <==> time <= p.accruedUntil || p.config.borrowRate0 <= 20_000
    decreases time - p.accruedUntil
  {
    if p.accruedUntil < time && Accrue(p, time).Ok? { RatesWithoutNotes(Accrue(p, time).value.0, time); }
  }

  /** With notes, a configuration with a positive first knot and rates up to 200% is enough. */
  lemma {:induction false} RatesWithNotes(p: Pool, time: int, calls: nat)
    requires FeesCapped(p) && Backed(p) && time - p.accruedUntil <= calls * MAX_ACCRUAL_SECONDS
    requires RoomForCalls(p.borrowed, p.fees, p.tokens, calls)
    requires CheckConfig(p.config).Ok? && 0 < p.config.utilizationRate1 && p.config.borrowRate3 <= 20_000
    ensures RatesHold(p, time)
    decreases time - p.accruedUntil
  {
    if p.depositNotes == 0 {
      RatesWithoutNotes(p, time);
    } else if p.accruedUntil < time {
      InterestRateDefined(p);
      if Accrue(p, time).Ok? {
        var next := Accrue(p, time).value.0;
        AccrueTakesFee(p, time);
        AccrueKeepsBacking(p, time);
        AccrualAddsATwentieth(p, time);
        LessNeedsLessRoom(next.borrowed, next.fees, p.borrowed + p.borrowed / 20, p.fees + p.borrowed / 20,
                          p.tokens, calls - 1);
        RatesWithNotes(next, time, calls - 1);
      }
    }
  }

  /** So under such a configuration every backed pool catches up, whatever its debt does to the rate on the way. */
  lemma CatchUpSucceeds(p: Pool, time: int, calls: nat)
    requires FeesCapped(p) && Backed(p) && 0 <= time - p.accruedUntil <= calls * MAX_ACCRUAL_SECONDS
    requires RoomForCalls(p.borrowed, p.fees, p.tokens, calls)
    requires CheckConfig(p.config).Ok? && 0 < p.config.utilizationRate1 && p.config.borrowRate3 <= 20_000
    ensures AccrueUntilDone(p, time).Ok?
  {
    RatesWithNotes(p, time, calls);
    CatchUpDefined(p, time, calls);
  }
}
