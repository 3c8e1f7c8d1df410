/** The liquidation instructions as the program runs them, on the state they update in place. */
module LiquidationProgram {
  import opened Outcomes
  import opened Rounding
  import opened Number128
  import opened LiquidationModel
  import opened LiquidationSafety
  import opened LiquidationCase

  /**
   The claim on a margin account, the liquidators that have a liquidation account for it, and the
   state of the liquidation in progress. A failing method may leave fields half updated, as in the
   source; `Process` is the runtime, which then discards the changes.
   */
  class LiquidationState {
    var liquidator: Key
    var accounts: set<Key>
    var equityLoss: int
    var maxEquityLoss: int
    var collateralChange: int
    var maxAvailableCollateral: int
    var startTime: int
    var isCollectingFees: bool
    const fees: array<Slot>

    constructor ()
      ensures CaseInv(CaseView()) && liquidator == NO_KEY && fresh(fees)
    {
      liquidator, accounts, isCollectingFees := NO_KEY, {}, false;
      equityLoss, maxEquityLoss, collateralChange, maxAvailableCollateral, startTime := 0, 0, 0, 0, 0;
      fees := new Slot[FEE_SLOTS](_ => Slot(NO_KEY, 0));
    }

    function View(): Liquidation
      reads this, fees
    {
      Liquidation(equityLoss, maxEquityLoss, collateralChange, maxAvailableCollateral, startTime, isCollectingFees,
                  fees[..])
    }

    function CaseView(): Case
      reads this, fees
    {
      Case(liquidator, accounts, View())
    }

    // ----- fee slots -----

    method FindFeeSlot(mint: Key) returns (k: nat)
      ensures k == FindSlot(fees[..], mint)
    {
      k := 0;
      while k < fees.Length && fees[k].mint != mint
        invariant k <= fees.Length
        invariant forall j :: 0 <= j < k ==> fees[j].mint != mint
      {
        k := k + 1;
      }
      var found := FindSlot(fees[..], mint);
      assert k < fees.Length ==> fees[..][k].mint == mint;
    }

    method AccrueLiquidationFee(mint: Key, amount: nat) returns (r: Result<()>)
      modifies fees
      ensures Refines(r, AccrueFee(old(fees[..]), mint, amount), fees[..])
      ensures r.Ok?
              ==> (forall other :: other != NO_KEY
                     ==> InSlots(fees[..], other)
                         == InSlots(old(fees[..]), other) + (if other == mint then amount else 0))
    {
      forall after, other | AccrueFee(fees[..], mint, amount) == Ok(after) && other != NO_KEY
        ensures InSlots(after, other) == InSlots(fees[..], other) + (if other == mint then amount else 0)
      {
        AccrueFeeAdds(fees[..], mint, amount, after, other);
      }
      var k := FindFeeSlot(mint);
      if k < fees.Length {
        if fees[k].amount + amount > U64_MAX {
          return Err(Panic);
        }
        fees[k] := Slot(mint, fees[k].amount + amount);
        return Ok(());
      }
      var free := FindFeeSlot(NO_KEY);
      if free == fees.Length {
        return Err(LiquidationFeeSlotsFull);
      }
      fees[free] := Slot(mint, amount);
      return Ok(());
    }

    method ClearLiquidationFee(mint: Key)
      modifies fees
      ensures var k := FindSlot(old(fees[..]), mint);
              fees[..] == if k < fees.Length then old(fees[..])[k := Slot(NO_KEY, 0)] else old(fees[..])
      ensures forall other ::
                other != NO_KEY && other != mint ==> InSlots(fees[..], other) == InSlots(old(fees[..]), other)
    {
      var k := FindFeeSlot(mint);
      if k < fees.Length {
        forall other: Key | other != NO_KEY && other != mint
          ensures InSlots(fees[..][k := Slot(NO_KEY, 0)], other) == InSlots(fees[..], other)
        {
          InSlotsUpdate(fees[..], k, Slot(NO_KEY, 0), other);
        }
        fees[k] := Slot(NO_KEY, 0);
      }
    }

    // ----- instructions -----

    /** Creates the caller's liquidation account, which must not exist, and claims the margin account. */
    method LiquidateBegin(caller: Key, v: Valuation, time: int) returns (r: Result<()>)
      requires fees.Length == FEE_SLOTS
      modifies this, fees
      ensures Refines(r, HandleBegin(old(CaseView()), caller, v, time), CaseView())
      ensures CaseInv(old(CaseView())) && old(liquidator) != NO_KEY ==> r.Err? && liquidator == old(liquidator)
      ensures CaseInv(old(CaseView())) && 0 <= v.liabilities && r.Ok? ==> CaseInv(CaseView()) && liquidator == caller
    {
      if CaseInv(CaseView()) && 0 <= v.liabilities { BeginKeepsInv(CaseView(), caller, v, time); }
      if caller == NO_KEY {
        return Err(ConstraintViolated);
      }
      if caller in accounts {
        return Err(AccountInUse);
      }
      accounts := accounts + {caller};
      var _ :- VerifyUnhealthy(v);
      if liquidator == caller {
        return Ok(());
      } else if liquidator != NO_KEY {
        return Err(Liquidating);
      }
      liquidator := caller;
      var maxLoss :- MaxEquityLoss(v);
      var maxCollateral :- MaxAvailableCollateral(v);
      equityLoss, collateralChange, isCollectingFees, startTime := 0, 0, false, time;
      maxEquityLoss, maxAvailableCollateral := maxLoss, maxCollateral;
      forall k | 0 <= k < fees.Length {
        fees[k] := Slot(NO_KEY, 0);
      }
      return Ok(());
    }

    method UpdateAndVerifyLiquidation(start: Valuation, end: Valuation) returns (r: Result<()>)
      modifies this
      ensures Refines(r, UpdateAndVerify(old(View()), start, end), View())
      ensures r.Ok? ==> equityLoss <= maxEquityLoss && 0 <= collateralChange
      ensures liquidator == old(liquidator) && accounts == old(accounts)
    {
      var drop :- Sub(start.equity, end.equity);
      equityLoss :- Add(equityLoss, drop);
      var before :- AvailableCollateral(start);
      var available :- AvailableCollateral(end);
      var gain :- Sub(available, before);
      collateralChange :- Add(collateralChange, gain);
      if equityLoss > maxEquityLoss {
        return Err(LiquidationLostValue);
      }
      if collateralChange < 0 {
        return Err(LiquidationLostValue);
      }
      if available > maxAvailableCollateral {
        return Err(LiquidationLostValue);
      }
      return Ok(());
    }

    method LiquidatorInvoke(a: Action) returns (r: Result<()>)
      requires a.Invoke?
      modifies this, fees
      ensures Refines(r, InvokeStep(old(View()), a), View())
      ensures r.Ok? ==> equityLoss <= maxEquityLoss && 0 <= collateralChange
      ensures r.Ok? && a.mint != NO_KEY
              ==> 21 * (InSlots(fees[..], a.mint) - InSlots(old(fees[..]), a.mint))
                  <= Max(0, Min(NetIncrease(a.changes, a.mint), NetRepaid(a.changes, a.mint)))
      ensures liquidator == old(liquidator) && accounts == old(accounts)
    {
      if InvokeFee(a).Ok? { InvokeFeeIsBounded(a); }
      if isCollectingFees {
        return Err(ConstraintViolated);
      }
      var increases := NetIncrease(a.changes, a.mint);
      var repayments := NetRepaid(a.changes, a.mint);
      var eligible :- EligibleTokens(increases, repayments);
      var fee :- LiquidationFee(eligible, a.decimals);
      var _ :- AccrueLiquidationFee(a.mint, fee);
      r := UpdateAndVerifyLiquidation(a.start, a.end);
    }

    /** Returns the tokens transferred to the liquidator. */
    method CollectLiquidationFee(a: Action) returns (r: Result<nat>)
      requires a.CollectFee?
      modifies this, fees
      ensures Refines(if r.Ok? then Ok(()) else Err(r.error), Step(old(View()), a), View())
      ensures r.Ok? ==> CollectStep(old(View()), a) == Ok((View(), r.value))
      ensures r.Ok? ==> isCollectingFees && FindSlot(old(fees[..]), a.mint) < fees.Length
                        && r.value <= old(fees[..])[FindSlot(old(fees[..]), a.mint)].amount
      ensures liquidator == old(liquidator) && accounts == old(accounts)
    {
      if CollectStep(View(), a).Ok? {
        CollectionPaysAtMostSlot(View(), a, CollectStep(View(), a).value.0, CollectStep(View(), a).value.1);
      }
      isCollectingFees := true;
      var k := FindFeeSlot(a.mint);
      if k == fees.Length {
        return Err(InvalidLiquidationFeeMint);
      }
      var fee :- FeeValue(fees[k].amount, a.decimals, a.price);
      if equityLoss <= 0 {
      } else if equityLoss > fee {
        equityLoss := equityLoss - fee;
        fee := 0;
      } else {
        fee := fee - equityLoss;
        equityLoss := 0;
      }
      var tokens :- FeeTokens(fee, a.decimals, a.price);
      if tokens > a.balance {
        return Err(TokenProgramError);
      }
      ClearLiquidationFee(a.mint);
      if a.health.requiredCollateral > a.health.effectiveCollateral {
        return Err(Unhealthy);
      }
      return Ok(tokens);
    }

    /** Closes the liquidation account of `owner`, which must be the claimant's. */
    method LiquidateEnd(authority: Key, owner: Key, time: int) returns (r: Result<()>)
      modifies this
      ensures Refines(r, HandleEnd(old(CaseView()), authority, owner, time), CaseView())
      ensures r.Ok? ==> liquidator == NO_KEY
                        && (authority == old(liquidator) || LIQUIDATION_TIMEOUT <= time - startTime)
    {
      if owner !in accounts {
        return Err(ConstraintViolated);
      }
      if liquidator != owner {
        return Err(UnauthorizedLiquidator);
      }
      var timedOut := time - startTime >= LIQUIDATION_TIMEOUT;
      if liquidator != authority && !timedOut {
        return Err(UnauthorizedLiquidator);
      }
      liquidator := NO_KEY;
      accounts := accounts - {owner};
      return Ok(());
    }

    // ----- the runtime -----

    /** Runs the handler of a request; the result is the tokens transferred to the liquidator. */
    method Dispatch(q: Request) returns (r: Result<nat>)
      requires fees.Length == FEE_SLOTS
      modifies this, fees
      ensures Refines(if r.Ok? then Ok(()) else Err(r.error), Handle(old(CaseView()), q), CaseView())
      ensures r.Ok? && q.Act? && q.action.CollectFee?
              ==> CollectStep(old(View()), q.action) == Ok((View(), r.value))
    {
      match q
      case BeginBy(caller, v, time) =>
        var _ :- LiquidateBegin(caller, v, time);
        return Ok(0);
      case EndBy(authority, owner, time) =>
        var _ :- LiquidateEnd(authority, owner, time);
        return Ok(0);
      case Act(caller, action) =>
        if caller !in accounts {
          return Err(ConstraintViolated);
        }
        if action.CollectFee? {
          r := CollectLiquidationFee(action);
        } else {
          var _ :- LiquidatorInvoke(action);
          return Ok(0);
        }
    }

    /** A request takes effect as a whole or not at all, and keeps the invariant of the account. */
    method Process(q: Request) returns (r: Result<nat>)
      requires fees.Length == FEE_SLOTS
      modifies this, fees
      ensures CaseView() == LiquidationCase.Process(old(CaseView()), q)
      ensures r.Ok? <==> Handle(old(CaseView()), q).Ok?
      ensures CaseInv(old(CaseView())) && Sound(q) ==> CaseInv(CaseView())
      ensures CaseInv(old(CaseView())) && r.Ok? && q.Act? ==> q.caller == liquidator == old(liquidator)
    {
      var before := CaseView();
      if CaseInv(before) && Sound(q) { RequestKeepsInv(before, q); }
      r := Dispatch(q);
      if r.Err? {
        liquidator, accounts := before.liquidator, before.accounts;
        var state := before.state;
        equityLoss, maxEquityLoss, collateralChange := state.equityLoss, state.maxEquityLoss, state.collateralChange;
        maxAvailableCollateral, startTime := state.maxAvailableCollateral, state.startTime;
        isCollectingFees := state.isCollectingFees;
        forall k | 0 <= k < fees.Length {
          fees[k] := state.fees[k];
        }
        assert fees[..] == state.fees;
      }
    }
  }
}
