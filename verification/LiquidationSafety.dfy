/** What holds over every liquidation, whatever the liquidator does in it. */
module LiquidationSafety {
  import opened Outcomes
  import opened Rounding
  import opened Number128
  import opened LiquidationModel

  // ----- the cap on lost equity -----

  /** The cap is 5% of the liabilities, rounded down, plus one dollar. */
  lemma MaxEquityLossIs(v: Valuation)
    requires 0 <= v.liabilities && MaxEquityLoss(v).Ok?
    ensures 20 * (MaxEquityLoss(v).value - ONE) <= v.liabilities < 20 * (MaxEquityLoss(v).value - ONE) + 20
  {
    DivBounds(FromBps(LIQUIDATION_MAX_EQUITY_LOSS_PROPORTION_BPS) * v.liabilities, ONE);
  }

  /** The equity lost over the invokes that succeeded. */
  function LossOver(l: Liquidation, actions: seq<Action>): int
    decreases actions
  {
    if actions == [] then 0 else
    var a := actions[0];
    (if a.Invoke? && Step(l, a).Ok? then a.start.equity - a.end.equity else 0)
    + LossOver(Execute(l, a), actions[1..])
  }

  /** The change in available collateral over the invokes that succeeded. */
  function CollateralOver(l: Liquidation, actions: seq<Action>): int
    decreases actions
  {
    if actions == [] then 0 else
    var a := actions[0];
    (if a.Invoke? && Step(l, a).Ok?
     then (a.end.effectiveCollateral - a.end.requiredCollateral)
          - (a.start.effectiveCollateral - a.start.requiredCollateral)
     else 0)
    + CollateralOver(Execute(l, a), actions[1..])
  }

  lemma InvokeEffect(l: Liquidation, a: Action, after: Liquidation)
    requires a.Invoke? && InvokeStep(l, a) == Ok(after)
    ensures !l.isCollectingFees && !after.isCollectingFees
    ensures after.equityLoss == l.equityLoss + (a.start.equity - a.end.equity) <= after.maxEquityLoss == l.maxEquityLoss
    ensures 0 <= after.collateralChange
    ensures after.collateralChange
            == l.collateralChange + (a.end.effectiveCollateral - a.end.requiredCollateral)
               - (a.start.effectiveCollateral - a.start.requiredCollateral)
    ensures a.end.effectiveCollateral - a.end.requiredCollateral <= l.maxAvailableCollateral
  {
  }

  /** Collecting fees is a one-way switch: nothing but collections happens after it. */
  lemma {:induction false} CollectingIsFinal(l: Liquidation, actions: seq<Action>)
    requires l.isCollectingFees
    ensures Run(l, actions).isCollectingFees
    ensures LossOver(l, actions) == 0 && CollateralOver(l, actions) == 0
    ensures Run(l, actions).collateralChange == l.collateralChange
    decreases actions
  {
    if actions != [] {
      CollectingIsFinal(Execute(l, actions[0]), actions[1..]);
    }
  }

  lemma NoInvokeAfterCollection(l: Liquidation, collect: Action, later: seq<Action>, invoke: Action)
    requires collect.CollectFee? && Step(l, collect).Ok? && invoke.Invoke?
    ensures Step(Run(l, [collect] + later), invoke) == Err(ConstraintViolated)
  {
    assert ([collect] + later)[1..] == later;
    CollectingIsFinal(Execute(l, collect), later);
  }

  /** Up to the first collection the recorded loss is the loss so far; after it nothing is lost any more. */
  lemma {:induction false} LossStaysWithinCap(l: Liquidation, actions: seq<Action>)
    requires !l.isCollectingFees && l.equityLoss <= l.maxEquityLoss && 0 <= l.collateralChange
    ensures l.equityLoss + LossOver(l, actions) <= l.maxEquityLoss
    ensures Run(l, actions).collateralChange == l.collateralChange + CollateralOver(l, actions)
    ensures 0 <= Run(l, actions).collateralChange
    decreases actions
  {
    if actions != [] {
      var a := actions[0];
      var next := Execute(l, a);
      if a.Invoke? && Step(l, a).Ok? { InvokeEffect(l, a, next); }
      if next.isCollectingFees {
        CollectingIsFinal(next, actions[1..]);
      } else {
        LossStaysWithinCap(next, actions[1..]);
      }
    }
  }

  /**
   Every liquidation: the equity lost over all its invokes is at most 5% of the liabilities at its
   beginning plus one dollar, and its invokes have not lowered the available collateral.
   */
  lemma EveryLiquidation(v: Valuation, time: int, actions: seq<Action>)
    requires 0 <= v.liabilities && Begin(v, time).Ok?
    ensures var l := Begin(v, time).value;
            && 20 * (LossOver(l, actions) - ONE) <= v.liabilities
            && 0 <= CollateralOver(l, actions)
  {
    var l := Begin(v, time).value;
    MaxEquityLossIs(v);
    LossStaysWithinCap(l, actions);
  }

  /** The limit on available collateral is a tenth of the required collateral at the beginning. */
  lemma MaxAvailableCollateralIs(v: Valuation)
    requires 0 <= v.requiredCollateral && MaxAvailableCollateral(v).Ok?
    ensures 10 * MaxAvailableCollateral(v).value <= v.requiredCollateral < 10 * MaxAvailableCollateral(v).value + 10
  {
    DivBounds(v.requiredCollateral * FromBps(LIQUIDATION_MAX_REQUIRED_COLLATERAL_INCREASE_BPS), ONE);
  }

  lemma {:induction false} LimitsStay(l: Liquidation, actions: seq<Action>)
    ensures Run(l, actions).maxAvailableCollateral == l.maxAvailableCollateral
    ensures Run(l, actions).maxEquityLoss == l.maxEquityLoss
    decreases actions
  {
    if actions != [] { LimitsStay(Execute(l, actions[0]), actions[1..]); }
  }

  /** No invoke, however late, leaves more available collateral than that. */
  lemma InvokesStayBelowLimit(v: Valuation, time: int, actions: seq<Action>, a: Action)
    requires 0 <= v.requiredCollateral && Begin(v, time).Ok? && a.Invoke?
    requires InvokeStep(Run(Begin(v, time).value, actions), a).Ok?
    ensures 10 * (a.end.effectiveCollateral - a.end.requiredCollateral) <= v.requiredCollateral
  {
    var l := Begin(v, time).value;
    MaxAvailableCollateralIs(v);
    LimitsStay(l, actions);
    InvokeEffect(Run(l, actions), a, InvokeStep(Run(l, actions), a).value);
  }

  // ----- offsetting fees against the loss -----

  function Sum(values: seq<int>): int {
    if values == [] then 0 else values[0] + Sum(values[1..])
  }

  predicate NonNegative(values: seq<int>) {
    forall k :: 0 <= k < |values| ==> 0 <= values[k]
  }

  /** Offsetting fees one after another: the total that is paid, and the loss that remains. */
  function OffsetAll(loss: int, fees: seq<int>): (int, int)
    decreases fees
  {
    if fees == [] then (0, loss) else
    var (paid, rest) := Offset(loss, fees[0]);
    var (more, last) := OffsetAll(rest, fees[1..]);
    (paid + more, last)
  }

  /** Together the fees pay what exceeds the loss, and absorb as much of it as they can. */
  lemma {:induction false} FeesPayTheExcess(loss: int, fees: seq<int>)
    requires NonNegative(fees)
    ensures OffsetAll(loss, fees).0 == Sum(fees) - Min(Sum(fees), Max(loss, 0))
    ensures OffsetAll(loss, fees).1 == loss - Min(Sum(fees), Max(loss, 0))
    ensures 0 <= Sum(fees)
    decreases fees
  {
    if fees != [] {
      FeesPayTheExcess(Offset(loss, fees[0]).1, fees[1..]);
    }
  }

  lemma {:induction false} SumAppend(a: seq<int>, b: seq<int>)
    ensures Sum(a + b) == Sum(a) + Sum(b)
    decreases a
  {
    if a == [] {
      assert a + b == b;
    } else {
      SumAppend(a[1..], b);
      assert (a + b)[1..] == a[1..] + b;
    }
  }

  // ----- permutations -----

  /** A list without its element at k. */
  function Without<A>(s: seq<A>, k: nat): seq<A>
    requires k < |s|
  {
    s[..k] + s[k + 1..]
  }

  lemma TakeApart<A>(s: seq<A>, k: nat)
    requires k < |s|
    ensures s == s[..k] + ([s[k]] + s[k + 1..])
  {
  }

  lemma MultisetWithout<A>(before: seq<A>, x: A, after: seq<A>)
    ensures multiset(before + ([x] + after)) == multiset(before + after) + multiset{x}
  {
    assert multiset(before + ([x] + after)) == multiset(before) + (multiset{x} + multiset(after));
  }

  lemma WithoutElement<A>(s: seq<A>, k: nat)
    requires k < |s|
    ensures multiset(s) == multiset(Without(s, k)) + multiset{s[k]}
  {
    TakeApart(s, k);
    MultisetWithout(s[..k], s[k], s[k + 1..]);
  }

  lemma WithoutHead<A>(s: seq<A>)
    requires s != []
    ensures multiset(s) == multiset(s[1..]) + multiset{s[0]}
  {
    assert s == [s[0]] + s[1..];
  }

  lemma CancelElement<A>(x: multiset<A>, y: multiset<A>, e: A)
    requires x + multiset{e} == y + multiset{e}
    ensures x == y
  {
    assert x == (x + multiset{e}) - multiset{e};
    assert y == (y + multiset{e}) - multiset{e};
  }

  lemma Position<A>(s: seq<A>, e: A) returns (k: nat)
    requires e in multiset(s)
    ensures k < |s| && s[k] == e
  {
    assert e in s;
    k :| k < |s| && s[k] == e;
  }

  /** The first element of a list is somewhere in a permutation of it; without it both are permutations again. */
  lemma SamePick<A>(a: seq<A>, b: seq<A>) returns (k: nat)
    requires a != [] && multiset(a) == multiset(b)
    ensures k < |b| && b[k] == a[0] && multiset(a[1..]) == multiset(Without(b, k))
  {
    WithoutHead(a);
    k := Position(b, a[0]);
    WithoutElement(b, k);
    CancelElement(multiset(a[1..]), multiset(Without(b, k)), a[0]);
  }

  lemma SumWithout(values: seq<int>, k: nat)
    requires k < |values|
    ensures Sum(values) == values[k] + Sum(Without(values, k))
  {
    var before, x, after := values[..k], values[k], values[k + 1..];
    TakeApart(values, k);
    SumAppend(before, [x] + after);
    SumAppend([x], after);
    SumAppend(before, after);
  }

  lemma {:induction false} SumOfPermutation(a: seq<int>, b: seq<int>)
    requires multiset(a) == multiset(b)
    ensures Sum(a) == Sum(b)
    decreases a
  {
    if a == [] {
      assert |multiset(b)| == 0;
    } else {
      var k := SamePick(a, b);
      SumWithout(b, k);
      SumOfPermutation(a[1..], Without(b, k));
    }
  }

  /** So the order in which the slots are collected changes neither the total paid nor the loss that remains. */
  lemma CollectionOrderDoesNotMatter(loss: int, fees: seq<int>, reordered: seq<int>)
    requires NonNegative(fees) && multiset(fees) == multiset(reordered)
    ensures OffsetAll(loss, fees) == OffsetAll(loss, reordered)
  {
    forall k | 0 <= k < |reordered| ensures 0 <= reordered[k] {
      assert reordered[k] in multiset(fees);
    }
    SumOfPermutation(fees, reordered);
    FeesPayTheExcess(loss, fees);
    FeesPayTheExcess(loss, reordered);
  }

  /** The values of the slots that a series of collections finds, if each of them succeeds. */
  function CollectedValues(l: Liquidation, actions: seq<Action>): Result<seq<int>>
    decreases actions
  {
    if actions == [] then Ok([]) else
    var a := actions[0];
    var _ :- Require(a.CollectFee?, ConstraintViolated);
    var after :- Step(l, a);
    var value :- FeeValue(l.fees[FindSlot(l.fees, a.mint)].amount, a.decimals, a.price);
    var rest :- CollectedValues(after, actions[1..]);
    Ok([value] + rest)
  }

  /** The value that the same collections pay out. */
  function PaidValue(l: Liquidation, actions: seq<Action>): int
    requires CollectedValues(l, actions).Ok?
    decreases actions
  {
    if actions == [] then 0 else
    Offset(l.equityLoss, CollectedValues(l, actions).value[0]).0 + PaidValue(Execute(l, actions[0]), actions[1..])
  }

  lemma CollectedHead(l: Liquidation, actions: seq<Action>)
    requires actions != [] && CollectedValues(l, actions).Ok?
    ensures var values := CollectedValues(l, actions).value; var after := Execute(l, actions[0]);
            && values != [] && CollectedValues(after, actions[1..]) == Ok(values[1..])
            && after.equityLoss == Offset(l.equityLoss, values[0]).1
  {
  }

  lemma {:induction false} CollectionsOffsetTheLoss(l: Liquidation, actions: seq<Action>)
    requires CollectedValues(l, actions).Ok?
    ensures PaidValue(l, actions) == OffsetAll(l.equityLoss, CollectedValues(l, actions).value).0
    ensures Run(l, actions).equityLoss == OffsetAll(l.equityLoss, CollectedValues(l, actions).value).1
    decreases actions
  {
    if actions != [] {
      CollectedHead(l, actions);
      CollectionsOffsetTheLoss(Execute(l, actions[0]), actions[1..]);
    }
  }

  /** A series of collections pays, in total, what the slots are worth beyond the equity lost. */
  lemma CollectionsPayTheExcess(l: Liquidation, actions: seq<Action>)
    requires CollectedValues(l, actions).Ok? && NonNegative(CollectedValues(l, actions).value)
    ensures var worth := Sum(CollectedValues(l, actions).value);
            var absorbed := Min(worth, Max(l.equityLoss, 0));
            PaidValue(l, actions) == worth - absorbed && Run(l, actions).equityLoss == l.equityLoss - absorbed
  {
    CollectionsOffsetTheLoss(l, actions);
    FeesPayTheExcess(l.equityLoss, CollectedValues(l, actions).value);
  }

  // ----- collections in another order -----

  /** Collections from different slots. */
  predicate DistinctMints(actions: seq<Action>) {
    && (forall k :: 0 <= k < |actions| ==> actions[k].CollectFee? && actions[k].mint != NO_KEY)
    && (forall j, k :: 0 <= j < k < |actions| ==> actions[j].mint != actions[k].mint)
  }

  /** What a slot is worth at the price of a collection; nothing if there is no slot or no value. */
  function SlotValue(slots: seq<Slot>, a: Action): int {
    if !a.CollectFee? then 0 else
    var k := FindSlot(slots, a.mint);
    if k == |slots| then 0 else
    var value := FeeValue(slots[k].amount, a.decimals, a.price);
    if value.Ok? then value.value else 0
  }

  /** Emptying the slot of one mint leaves the slots of all others where they are. */
  lemma EmptyingKeepsOthers(slots: seq<Slot>, k: nat, a: Action)
    requires k < |slots| && a.CollectFee? && a.mint != NO_KEY && slots[k].mint != a.mint
    ensures SlotValue(slots[k := Slot(NO_KEY, 0)], a) == SlotValue(slots, a)
  {
    var emptied := slots[k := Slot(NO_KEY, 0)];
    assert forall m :: 0 <= m < |slots| && m != k ==> emptied[m] == slots[m];
    var i, j := FindSlot(slots, a.mint), FindSlot(emptied, a.mint);
    assert i == j;
  }

  /** So a series of such collections finds the values that its slots have at the start. */
  lemma {:induction false} CollectedAreInitial(l: Liquidation, actions: seq<Action>)
    requires DistinctMints(actions) && CollectedValues(l, actions).Ok?
    ensures CollectedValues(l, actions).value == Map((a: Action) => SlotValue(l.fees, a), actions)
    decreases actions
  {
    if actions != [] {
      var a, rest, after := actions[0], actions[1..], Execute(l, actions[0]);
      CollectedHead(l, actions);
      CollectedAreInitial(after, rest);
      var k := FindSlot(l.fees, a.mint);
      forall j | 0 <= j < |rest| ensures SlotValue(after.fees, rest[j]) == SlotValue(l.fees, rest[j]) {
        assert rest[j] == actions[j + 1];
        EmptyingKeepsOthers(l.fees, k, rest[j]);
      }
      SameMap((x: Action) => SlotValue(after.fees, x), (x: Action) => SlotValue(l.fees, x), rest);
    }
  }

  function Map<A, B>(f: A -> B, s: seq<A>): (r: seq<B>)
    ensures |r| == |s|
  {
    if s == [] then [] else [f(s[0])] + Map(f, s[1..])
  }

  lemma {:induction false} SameMap<A, B>(f: A -> B, g: A -> B, s: seq<A>)
    requires forall j :: 0 <= j < |s| ==> f(s[j]) == g(s[j])
    ensures Map(f, s) == Map(g, s)
    decreases s
  {
    if s != [] {
      forall j | 0 <= j < |s[1..]| ensures f(s[1..][j]) == g(s[1..][j]) { assert s[1..][j] == s[j + 1]; }
      SameMap(f, g, s[1..]);
    }
  }

  lemma {:induction false} MapAppend<A, B>(f: A -> B, a: seq<A>, b: seq<A>)
    ensures Map(f, a + b) == Map(f, a) + Map(f, b)
    decreases a
  {
    if a == [] {
      assert a + b == b;
    } else {
      MapAppend(f, a[1..], b);
      assert (a + b)[1..] == a[1..] + b;
    }
  }

  lemma MapWithout<A, B>(f: A -> B, s: seq<A>, k: nat)
    requires k < |s|
    ensures multiset(Map(f, s)) == multiset(Map(f, Without(s, k))) + multiset{f(s[k])}
  {
    var before, x, after := s[..k], s[k], s[k + 1..];
    TakeApart(s, k);
    MapAppend(f, before, [x] + after);
    assert ([x] + after)[1..] == after;
    MapAppend(f, before, after);
    MultisetWithout(Map(f, before), f(x), Map(f, after));
  }

  /** Permuting a list permutes what a function makes of it. */
  lemma {:induction false} MapPermutation<A, B>(f: A -> B, a: seq<A>, b: seq<A>)
    requires multiset(a) == multiset(b)
    ensures multiset(Map(f, a)) == multiset(Map(f, b))
    decreases a
  {
    if a == [] {
      assert |multiset(b)| == 0;
    } else {
      var k := SamePick(a, b);
      MapWithout(f, b, k);
      MapPermutation(f, a[1..], Without(b, k));
    }
  }

  /**
   Collections from different slots at fixed prices: in another order they find the same values in
   that order, pay the same total value and leave the same loss.
   */
  lemma CollectionsInAnyOrder(l: Liquidation, actions: seq<Action>, reordered: seq<Action>)
    requires DistinctMints(actions) && DistinctMints(reordered) && multiset(actions) == multiset(reordered)
    requires CollectedValues(l, actions).Ok? && CollectedValues(l, reordered).Ok?
    requires NonNegative(CollectedValues(l, actions).value)
    ensures multiset(CollectedValues(l, actions).value) == multiset(CollectedValues(l, reordered).value)
    ensures PaidValue(l, actions) == PaidValue(l, reordered)
    ensures Run(l, actions).equityLoss == Run(l, reordered).equityLoss
  {
    CollectedAreInitial(l, actions);
    CollectedAreInitial(l, reordered);
    MapPermutation((a: Action) => SlotValue(l.fees, a), actions, reordered);
    CollectionOrderDoesNotMatter(l.equityLoss, CollectedValues(l, actions).value, CollectedValues(l, reordered).value);
    CollectionsOffsetTheLoss(l, actions);
    CollectionsOffsetTheLoss(l, reordered);
  }

  // ----- the fee of one invoke -----

  lemma {:induction false} PowerOfTenAdds(a: nat, b: nat)
    ensures PowerOfTen(a + b) == PowerOfTen(a) * PowerOfTen(b)
  {
    if a > 0 {
      PowerOfTenAdds(a - 1, b);
      MulAssociates(10, PowerOfTen(a - 1), PowerOfTen(b));
    }
  }

  /** 5% / 105%, truncated, in units of 10^-10. */
  const FEE_RATE: int := 476_190_476

  /** Scaling by the decimals, up and down again, has no effect on the result. */
  lemma ScalingCancels(eligible: nat, p: nat, q: nat)
    requires 1 <= q && p == ONE * q
    ensures 0 <= FEE_RATE * (eligible * p) && eligible * p <= FEE_RATE * (eligible * p)
    ensures FEE_RATE * (eligible * p) / ONE / p == FEE_RATE * eligible / ONE
    ensures 0 <= FEE_RATE * (eligible * p) / ONE
  {
    var tokens := eligible * q;
    var scaled := FEE_RATE * tokens;
    MulLe(0, eligible, q);
    assert eligible * p == tokens * ONE by {
      MulCommutes(ONE, q);
      MulAssociates(eligible, q, ONE);
    }
    DivIs(scaled * ONE, ONE, scaled);
    MulAssociates(FEE_RATE, eligible, q);
    DivCancel(FEE_RATE * eligible, ONE, q);
  }

  lemma TenPlus(decimals: nat)
    ensures PowerOfTen(10 + decimals) == ONE * PowerOfTen(decimals)
  {
    PowerOfTenAdds(10, decimals);
    assert PowerOfTen(5) == 100_000;
    assert PowerOfTen(10) == ONE;
  }

  /**
   The fee is at most one twenty-first of the eligible tokens. It is computed at all if and only if
   the tokens, scaled up by the decimals of the mint, still fit into 128 bits.
   */
  lemma FeeOfEligibleTokens(eligible: nat, decimals: nat)
    requires eligible <= U64_MAX
    ensures LiquidationFee(eligible, decimals).Ok?
            <==> decimals <= 17 && FEE_RATE * (eligible * PowerOfTen(10 + decimals)) <= I128_MAX
    ensures LiquidationFee(eligible, decimals).Ok?
            ==> LiquidationFee(eligible, decimals).value == FEE_RATE * eligible / ONE
                && 21 * LiquidationFee(eligible, decimals).value <= eligible
  {
    assert Div(FromBps(LIQUIDATION_FEE_BPS), ONE + FromBps(LIQUIDATION_FEE_BPS)) == Ok(FEE_RATE);
    TenPlus(decimals);
    ScalingCancels(eligible, PowerOfTen(10 + decimals), PowerOfTen(decimals));
    DivBounds(FEE_RATE * eligible, ONE);
  }

  /** With nine decimals that excludes every invoke on 36 or more whole tokens. */
  lemma FeeNeedsSmallAmounts(eligible: nat)
    requires 36_000_000_000 <= eligible <= U64_MAX
    ensures LiquidationFee(eligible, 9) == Err(Panic)
  {
    FeeOfEligibleTokens(eligible, 9);
    assert PowerOfTen(4) == 10_000 && PowerOfTen(9) == 1_000_000_000;
    assert PowerOfTen(14) == 100_000_000_000_000;
    assert PowerOfTen(19) == 10_000_000_000_000_000_000;
  }

  /** What an invoke accrues is at most a twenty-first of both the net increase and the net repayment. */
  lemma InvokeFeeIsBounded(a: Action)
    requires a.Invoke? && InvokeFee(a).Ok?
    ensures var fee := InvokeFee(a).value;
            fee > 0 ==> 21 * fee <= NetIncrease(a.changes, a.mint) && 21 * fee <= NetRepaid(a.changes, a.mint)
  {
    var eligible := EligibleTokens(NetIncrease(a.changes, a.mint), NetRepaid(a.changes, a.mint)).value;
    FeeOfEligibleTokens(eligible, a.decimals);
  }

  // ----- tokens paid against tokens accrued -----

  /** Pricing tokens, keeping part of the value, and pricing it back never gives more tokens. */
  lemma PriceThereAndBack(tokens: nat, price: int, paid: int)
    requires 0 < price && 0 <= paid <= tokens * price / ONE
    ensures 0 <= paid * ONE / price <= tokens
  {
    DivBounds(tokens * price, ONE);
    DivNonNegative(paid * ONE, price);
    if tokens < paid * ONE / price {
      DivBounds(paid * ONE, price);
      MulLe(tokens + 1, paid * ONE / price, price);
    }
  }

  /** The value that is paid for a slot prices back to at most the slot's tokens, whatever the sign of the price. */
  lemma PaidValueInTokens(tokens: nat, price: int, loss: int, value: int, back: int)
    requires Mul(tokens, price) == Ok(value) && Div(Offset(loss, value).0, price) == Ok(back)
    ensures back <= tokens
  {
    var paid := Offset(loss, value).0;
    if 0 < price {
      MulLe(0, tokens, price);
      DivNonNegative(tokens * price, ONE);
      PriceThereAndBack(tokens, price, paid);
    } else {
      MulLe(0, tokens, -price);
      assert tokens * -price == -(tokens * price);
      DivNonNegative(tokens * -price, ONE);
      PriceThereAndBack(tokens, -price, -paid);
    }
  }

  /** A collection pays no more tokens than its slot holds. */
  lemma CollectionPaysAtMostSlot(l: Liquidation, a: Action, after: Liquidation, tokens: nat)
    requires a.CollectFee? && CollectStep(l, a) == Ok((after, tokens))
    ensures FindSlot(l.fees, a.mint) < |l.fees| && tokens <= l.fees[FindSlot(l.fees, a.mint)].amount
  {
    var amount := l.fees[FindSlot(l.fees, a.mint)].amount;
    var number := FromDecimal(amount, 0 - a.decimals).value;
    var value := FeeValue(amount, a.decimals, a.price).value;
    var back := Div(Offset(l.equityLoss, value).0, a.price).value;
    if a.decimals <= 10 {
      var p := PowerOfTen(10 - a.decimals);
      MulLe(0, amount, p);
      PaidValueInTokens(number, a.price, l.equityLoss, value, back);
      if 0 <= back { DivMono(back, amount * p, p); DivIs(amount * p, p, amount); } else { DivNonNegative(-back, p); }
    } else {
      var p := PowerOfTen(a.decimals - 10);
      DivNonNegative(amount, p);
      DivBounds(amount, p);
      PaidValueInTokens(number, a.price, l.equityLoss, value, back);
      MulLe(back, number, p);
    }
  }

  // ----- what a collection pays -----

  /** The tokens that a value buys when `unit` is the value of one token, in units of 10^-20 dollars. */
  predicate Buys(tokens: nat, value: int, unit: int) {
    tokens * unit <= value * ONE < tokens * unit + unit
  }

  /** Dividing by the price and then by the scale is dividing by both. */
  lemma DivideTwice(paid: nat, price: nat, scale: nat, number: nat, tokens: nat)
    requires 0 < price && 0 < scale && number == paid * ONE / price && tokens == number / scale
    ensures Buys(tokens, paid, scale * price)
  {
    DivBounds(paid * ONE, price);
    DivBounds(number, scale);
    MulLe(tokens * scale, number, price);
    MulLe(number + 1, tokens * scale + scale, price);
    MulAssociates(tokens, scale, price);
    assert (number + 1) * price == number * price + price;
    assert (tokens * scale + scale) * price == tokens * scale * price + scale * price;
  }

  /** The value of the slot of a mint with up to ten decimals, in units of 10^-10 dollars. */
  function SlotWorth(amount: nat, decimals: nat, price: nat): nat
    requires decimals <= 10
  {
    MulLe(0, amount * PowerOfTen(10 - decimals), price);
    MulLe(0, amount, PowerOfTen(10 - decimals));
    DivNonNegative(amount * PowerOfTen(10 - decimals) * price, ONE);
    amount * PowerOfTen(10 - decimals) * price / ONE
  }

  lemma OffsetIs(loss: int, fee: nat)
    ensures Offset(loss, fee) == (fee - Min(fee, Max(loss, 0)), loss - Min(fee, Max(loss, 0)))
  {
  }

  /**
   A collection at a positive price absorbs the loss with as much of the slot's worth as there is
   loss, and pays the tokens that the rest of the worth buys, rounded down; the account must hold
   them and be healthy.
   */
  lemma CollectionPays(l: Liquidation, a: Action, after: Liquidation, tokens: nat)
    requires a.CollectFee? && CollectStep(l, a) == Ok((after, tokens)) && 0 < a.price && a.decimals <= 10
    ensures FindSlot(l.fees, a.mint) < |l.fees|
    ensures var worth := SlotWorth(l.fees[FindSlot(l.fees, a.mint)].amount, a.decimals, a.price);
            var absorbed := Min(worth, Max(l.equityLoss, 0));
            && after.equityLoss == l.equityLoss - absorbed
            && Buys(tokens, worth - absorbed, PowerOfTen(10 - a.decimals) * a.price)
    ensures tokens <= a.balance && a.health.requiredCollateral <= a.health.effectiveCollateral
    ensures after == l.(isCollectingFees := true, equityLoss := after.equityLoss,
                        fees := l.fees[FindSlot(l.fees, a.mint) := Slot(NO_KEY, 0)])
  {
    var amount, p := l.fees[FindSlot(l.fees, a.mint)].amount, PowerOfTen(10 - a.decimals);
    MulLe(0, amount, p);
    MulLe(0, amount * p, a.price);
    var worth := SlotWorth(amount, a.decimals, a.price);
    assert FeeValue(amount, a.decimals, a.price) == Ok(worth);
    OffsetIs(l.equityLoss, worth);
    var paid := worth - Min(worth, Max(l.equityLoss, 0));
    DivNonNegative(paid * ONE, a.price);
    DivideTwice(paid, a.price, p, paid * ONE / a.price, tokens);
  }

  /** With more than ten decimals the slot is first truncated to units of 10^-10 token, and so is the payout. */
  lemma CollectionOfFineTokensPays(l: Liquidation, a: Action, after: Liquidation, tokens: nat)
    requires a.CollectFee? && CollectStep(l, a) == Ok((after, tokens)) && 0 < a.price && 10 < a.decimals
    ensures FindSlot(l.fees, a.mint) < |l.fees|
    ensures var q := PowerOfTen(a.decimals - 10);
            var worth := l.fees[FindSlot(l.fees, a.mint)].amount / q * a.price / ONE;
            var absorbed := Min(worth, Max(l.equityLoss, 0));
            && after.equityLoss == l.equityLoss - absorbed
            && tokens == (worth - absorbed) * ONE / a.price * q
  {
    var amount, q := l.fees[FindSlot(l.fees, a.mint)].amount, PowerOfTen(a.decimals - 10);
    DivNonNegative(amount, q);
    MulLe(0, amount / q, a.price);
    DivNonNegative(amount / q * a.price, ONE);
    var worth := amount / q * a.price / ONE;
    OffsetIs(l.equityLoss, worth);
    DivNonNegative((worth - Min(worth, Max(l.equityLoss, 0))) * ONE, a.price);
  }

  lemma NearlyAll(amount: nat, unit: nat, worth: nat, tokens: nat)
    requires worth == amount * unit / ONE && Buys(tokens, worth, unit)
    ensures (amount - 1 - tokens) * unit < ONE
  {
    DivBounds(amount * unit, ONE);
    assert (amount - 1 - tokens) * unit == amount * unit - unit - tokens * unit;
  }

  /** Without a loss a slot is paid in full, but for a token and what a unit of value buys. */
  lemma FeeIsPaidInFull(l: Liquidation, a: Action, after: Liquidation, tokens: nat)
    requires a.CollectFee? && CollectStep(l, a) == Ok((after, tokens)) && 0 < a.price && a.decimals <= 10
    requires l.equityLoss <= 0
    ensures var amount := l.fees[FindSlot(l.fees, a.mint)].amount; var unit := PowerOfTen(10 - a.decimals) * a.price;
            && tokens <= amount && (amount - 1 - tokens) * unit < ONE
            && (ONE <= unit ==> amount - 1 <= tokens)
  {
    var amount, p := l.fees[FindSlot(l.fees, a.mint)].amount, PowerOfTen(10 - a.decimals);
    CollectionPays(l, a, after, tokens);
    CollectionPaysAtMostSlot(l, a, after, tokens);
    MulAssociates(amount, p, a.price);
    MulPositive(p, a.price);
    NearlyAll(amount, p * a.price, SlotWorth(amount, a.decimals, a.price), tokens);
    if 1 <= amount - 1 - tokens { MulLe(1, amount - 1 - tokens, p * a.price); }
  }

  // ----- what an invoke accrues -----

  /** The tokens of a mint that changed hands for one cause. */
  function Flow(changes: seq<TokenBalanceChange>, mint: Key, cause: ChangeCause): nat {
    if changes == [] then 0 else
    (if changes[0].mint == mint && changes[0].cause == cause then changes[0].tokens else 0)
    + Flow(changes[1..], mint, cause)
  }

  /** What was brought in is external increases less decreases; what was repaid is repayments less borrowings. */
  lemma {:induction false} NetFlows(changes: seq<TokenBalanceChange>, mint: Key)
    ensures NetIncrease(changes, mint) == Flow(changes, mint, ExternalIncrease) - Flow(changes, mint, ExternalDecrease)
    ensures NetRepaid(changes, mint) == Flow(changes, mint, RepayChange) - Flow(changes, mint, BorrowChange)
    decreases changes
  {
    if changes != [] { NetFlows(changes[1..], mint); }
  }

  /**
   The fee of an invoke, exactly: none is computed when more was borrowed than repaid; otherwise it is
   the truncated rate of 5/105 on the lower of what was brought in and repaid, if that fits.
   */
  lemma InvokeFeeIs(a: Action)
    requires a.Invoke?
    ensures var increase := Flow(a.changes, a.mint, ExternalIncrease) - Flow(a.changes, a.mint, ExternalDecrease);
            var repaid := Flow(a.changes, a.mint, RepayChange) - Flow(a.changes, a.mint, BorrowChange);
            var eligible := Max(0, Min(increase, repaid));
            && (InvokeFee(a).Ok?
                <==> && 0 <= repaid && eligible <= U64_MAX && a.decimals <= 17
                     && FEE_RATE * (eligible * PowerOfTen(10 + a.decimals)) <= I128_MAX)
            && (InvokeFee(a).Ok? ==> InvokeFee(a).value == FEE_RATE * eligible / ONE)
  {
    NetFlows(a.changes, a.mint);
    var eligible := Max(0, Min(NetIncrease(a.changes, a.mint), NetRepaid(a.changes, a.mint)));
    if eligible <= U64_MAX { FeeOfEligibleTokens(eligible, a.decimals); }
  }

  /** A fee can be accrued to the mint's slot, or to an empty one if it has none. */
  predicate HasRoom(slots: seq<Slot>, mint: Key, fee: nat) {
    if exists k :: 0 <= k < |slots| && slots[k].mint == mint
    then slots[FindSlot(slots, mint)].amount + fee <= U64_MAX
    else exists k :: 0 <= k < |slots| && slots[k].mint == NO_KEY
  }

  lemma RoomIsUsed(slots: seq<Slot>, mint: Key, fee: nat)
    ensures AccrueFee(slots, mint, fee).Ok? <==> HasRoom(slots, mint, fee)
  {
    var k, free := FindSlot(slots, mint), FindSlot(slots, NO_KEY);
    if k < |slots| { assert slots[k].mint == mint; }
    if free < |slots| { assert slots[free].mint == NO_KEY; }
  }

  function Available(v: Valuation): int {
    v.effectiveCollateral - v.requiredCollateral
  }

  predicate Fits128(x: int) {
    -I128_MAX - 1 <= x <= I128_MAX
  }

  /**
   An invoke succeeds exactly if fees are not yet being collected, its fee is computed and has room,
   the loss so far with its own stays within the cap, the collateral has not fallen since the
   beginning, and the collateral it leaves is within the limit; the sums must fit 128 bits.
   */
  lemma InvokeSucceeds(l: Liquidation, a: Action)
    requires a.Invoke?
    requires Fits128(a.start.equity - a.end.equity) && Fits128(l.equityLoss + (a.start.equity - a.end.equity))
    requires Fits128(Available(a.start)) && Fits128(Available(a.end)) && Fits128(Available(a.end) - Available(a.start))
    requires Fits128(l.collateralChange + (Available(a.end) - Available(a.start)))
    ensures InvokeStep(l, a).Ok?
            <==> && !l.isCollectingFees && InvokeFee(a).Ok? && HasRoom(l.fees, a.mint, InvokeFee(a).value)
                 && l.equityLoss + (a.start.equity - a.end.equity) <= l.maxEquityLoss
                 && 0 <= l.collateralChange + (Available(a.end) - Available(a.start))
                 && Available(a.end) <= l.maxAvailableCollateral
  {
    if InvokeFee(a).Ok? { RoomIsUsed(l.fees, a.mint, InvokeFee(a).value); }
  }

  /** And then it adds its fee, its loss and its collateral change to the totals, and changes nothing else. */
  lemma InvokeAccrues(l: Liquidation, a: Action, after: Liquidation, mint: Key)
    requires a.Invoke? && InvokeStep(l, a) == Ok(after) && mint != NO_KEY
    ensures InSlots(after.fees, mint) == InSlots(l.fees, mint) + (if mint == a.mint then InvokeFee(a).value else 0)
    ensures after == l.(fees := after.fees, equityLoss := l.equityLoss + (a.start.equity - a.end.equity),
                        collateralChange := l.collateralChange + (Available(a.end) - Available(a.start)))
  {
    AccrueFeeAdds(l.fees, a.mint, InvokeFee(a).value, after.fees, mint);
  }

  // ----- when a liquidation begins -----

  /**
   A liquidation begins exactly for an account whose prices are not stale and that is short of
   collateral or past due. It starts with nothing lost, nothing collected and empty slots, at its time.
   */
  lemma BeginIsGranted(v: Valuation, time: int)
    requires 0 <= v.liabilities && FromBps(500) * v.liabilities <= I128_MAX - 2 * ONE
    requires 0 <= v.requiredCollateral && v.requiredCollateral * FromBps(1_000) <= I128_MAX
    ensures Begin(v, time).Ok?
            <==> !v.stale && (v.effectiveCollateral < v.requiredCollateral || v.pastDue)
    ensures Begin(v, time).Ok?
            ==> var l := Begin(v, time).value;
                && l.equityLoss == 0 && l.collateralChange == 0 && !l.isCollectingFees && l.startTime == time
                && |l.fees| == FEE_SLOTS && forall k :: 0 <= k < |l.fees| ==> l.fees[k] == Slot(NO_KEY, 0)
  {
    DivNonNegative(FromBps(500) * v.liabilities, ONE);
  }

  // ----- conservation over a run -----

  /** The tokens of a mint that are held in slots. */
  function InSlots(slots: seq<Slot>, mint: Key): nat {
    if slots == [] then 0
    else (if slots[0].mint == mint then slots[0].amount else 0) + InSlots(slots[1..], mint)
  }

  function Share(s: Slot, mint: Key): nat {
    if s.mint == mint then s.amount else 0
  }

  lemma {:induction false} InSlotsUpdate(slots: seq<Slot>, k: nat, s: Slot, mint: Key)
    requires k < |slots|
    ensures InSlots(slots[k := s], mint) == InSlots(slots, mint) - Share(slots[k], mint) + Share(s, mint)
    decreases slots
  {
    var updated := slots[k := s];
    if k == 0 {
      assert updated[1..] == slots[1..];
    } else {
      InSlotsUpdate(slots[1..], k - 1, s, mint);
      assert updated[1..] == slots[1..][k - 1 := s];
    }
  }

  /** Accruing a fee adds it to the tokens held for its mint, and touches no other mint. */
  lemma AccrueFeeAdds(slots: seq<Slot>, mint: Key, amount: nat, after: seq<Slot>, other: Key)
    requires AccrueFee(slots, mint, amount) == Ok(after) && other != NO_KEY
    ensures InSlots(after, other) == InSlots(slots, other) + (if other == mint then amount else 0)
  {
    var k := FindSlot(slots, mint);
    if k < |slots| {
      InSlotsUpdate(slots, k, Slot(mint, slots[k].amount + amount), other);
    } else {
      InSlotsUpdate(slots, FindSlot(slots, NO_KEY), Slot(mint, amount), other);
    }
  }

  /** The fees accrued in a mint, and the tokens paid out in it, over the actions that succeeded. */
  function AccruedOver(l: Liquidation, actions: seq<Action>, mint: Key): nat
    decreases actions
  {
    if actions == [] then 0 else
    var a := actions[0];
    (if a.Invoke? && a.mint == mint && InvokeStep(l, a).Ok? then InvokeFee(a).value else 0)
    + AccruedOver(Execute(l, a), actions[1..], mint)
  }

  function PaidOver(l: Liquidation, actions: seq<Action>, mint: Key): nat
    decreases actions
  {
    if actions == [] then 0 else
    var a := actions[0];
    (if a.CollectFee? && a.mint == mint && CollectStep(l, a).Ok? then CollectStep(l, a).value.1 else 0)
    + PaidOver(Execute(l, a), actions[1..], mint)
  }

  /** The tokens that fees were taken on. */
  function EligibleOver(l: Liquidation, actions: seq<Action>, mint: Key): nat
    decreases actions
  {
    if actions == [] then 0 else
    var a := actions[0];
    (if a.Invoke? && a.mint == mint && InvokeStep(l, a).Ok?
     then Max(0, Min(NetIncrease(a.changes, a.mint), NetRepaid(a.changes, a.mint))) else 0)
    + EligibleOver(Execute(l, a), actions[1..], mint)
  }

  lemma StepConserves(l: Liquidation, a: Action, mint: Key)
    requires mint != NO_KEY
    ensures InSlots(Execute(l, a).fees, mint) + PaidOver(l, [a], mint)
            <= InSlots(l.fees, mint) + AccruedOver(l, [a], mint)
    ensures 21 * AccruedOver(l, [a], mint) <= EligibleOver(l, [a], mint)
  {
    assert [a][1..] == [];
    if a.Invoke? && InvokeStep(l, a).Ok? {
      AccrueFeeAdds(l.fees, a.mint, InvokeFee(a).value, Execute(l, a).fees, mint);
      var eligible := EligibleTokens(NetIncrease(a.changes, a.mint), NetRepaid(a.changes, a.mint)).value;
      FeeOfEligibleTokens(eligible, a.decimals);
    } else if a.CollectFee? && CollectStep(l, a).Ok? {
      var (after, tokens) := CollectStep(l, a).value;
      CollectionPaysAtMostSlot(l, a, after, tokens);
      InSlotsUpdate(l.fees, FindSlot(l.fees, a.mint), Slot(NO_KEY, 0), mint);
    }
  }

  lemma {:induction false} RunConserves(l: Liquidation, actions: seq<Action>, mint: Key)
    requires mint != NO_KEY
    ensures InSlots(Run(l, actions).fees, mint) + PaidOver(l, actions, mint)
            <= InSlots(l.fees, mint) + AccruedOver(l, actions, mint)
    ensures 21 * AccruedOver(l, actions, mint) <= EligibleOver(l, actions, mint)
    decreases actions
  {
    if actions != [] {
      var a := actions[0];
      assert [a][1..] == [] && [a][0] == a;
      StepConserves(l, a, mint);
      RunConserves(Execute(l, a), actions[1..], mint);
    }
  }

  lemma {:induction false} NoneInEmptySlots(slots: seq<Slot>, mint: Key)
    requires mint != NO_KEY && forall k :: 0 <= k < |slots| ==> slots[k] == Slot(NO_KEY, 0)
    ensures InSlots(slots, mint) == 0
    decreases slots
  {
    if slots != [] { NoneInEmptySlots(slots[1..], mint); }
  }

  /**
   Over a whole liquidation the liquidator is paid no more of any mint than its invokes accrued in
   it, and so at most a twenty-first of the tokens that were both brought in and repaid.
   */
  lemma LiquidatorIsPaidWhatWasAccrued(v: Valuation, time: int, actions: seq<Action>, mint: Key)
    requires mint != NO_KEY && Begin(v, time).Ok?
    ensures var l := Begin(v, time).value;
            && PaidOver(l, actions, mint) <= AccruedOver(l, actions, mint)
            && 21 * PaidOver(l, actions, mint) <= EligibleOver(l, actions, mint)
  {
    var l := Begin(v, time).value;
    NoneInEmptySlots(l.fees, mint);
    RunConserves(l, actions, mint);
  }
}
