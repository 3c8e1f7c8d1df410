/**
 The pool and its instructions as the program runs them: fields updated in place, step by step.

 Each method is proved to do what its function in `PoolModel` or `PoolLedger` says, on success and
 on failure. A failing method may leave fields half updated, as in the source; `Process` is the
 runtime, which then discards the changes.
 */
module MarginPoolProgram {
  import opened Outcomes
  import opened Rounding
  import opened FixedPoint
  import opened RateCurve
  import opened Compounding
  import opened PoolModel
  import opened PoolSafety
  import opened PoolLedger
  import opened PoolRuns
  import opened CatchUp

  class MarginPool {
    var config: Config
    var totalBorrowed: nat
    var uncollectedFees: nat
    var depositTokens: nat
    var depositNotes: nat
    var loanNotes: nat
    var accruedUntil: int

    constructor (time: int)
      ensures View() == EmptyPool(time)
    {
      config := EMPTY_CONFIG;
      totalBorrowed, uncollectedFees := 0, 0;
      depositTokens, depositNotes, loanNotes := 0, 0, 0;
      accruedUntil := time;
    }

    function View(): Pool
      reads this
    {
      Pool(config, totalBorrowed, uncollectedFees, depositTokens, depositNotes, loanNotes, accruedUntil)
    }

    method Restore(p: Pool)
      modifies this
      ensures View() == p
    {
      config, totalBorrowed, uncollectedFees := p.config, p.borrowed, p.fees;
      depositTokens, depositNotes, loanNotes, accruedUntil := p.tokens, p.depositNotes, p.loanNotes, p.accruedUntil;
    }

    method Deposit(amount: FullAmount) returns (r: Result<()>)
      modifies this
      ensures Refines(r, RecordDeposit(old(View()), amount), View())
      ensures r.Ok? <==> && old(depositTokens) + amount.tokens <= Min(U64_MAX, config.depositLimit)
                         && old(depositNotes) + amount.notes <= U64_MAX
      ensures r.Ok? ==> Net(View()) == Net(old(View())) + amount.tokens * ONE
      ensures r.Ok? ==> depositNotes == old(depositNotes) + amount.notes
    {
      depositTokens :- AddU64(depositTokens, amount.tokens);
      if depositTokens > config.depositLimit {
        return Err(DepositLimitReached);
      }
      depositNotes :- AddU64(depositNotes, amount.notes);
      return Ok(());
    }

    method Withdraw(amount: FullAmount) returns (r: Result<()>)
      modifies this
      ensures Refines(r, RecordWithdraw(old(View()), amount), View())
      ensures r.Ok? <==> amount.tokens <= old(depositTokens) && amount.notes <= old(depositNotes)
      ensures r.Ok? ==> Net(View()) == Net(old(View())) - amount.tokens * ONE
      ensures r.Ok? ==> depositNotes == old(depositNotes) - amount.notes
    {
      depositTokens :- SubU64(depositTokens, amount.tokens, InsufficientLiquidity);
      depositNotes :- SubU64(depositNotes, amount.notes, InsufficientLiquidity);
      return Ok(());
    }

    method Borrow(amount: FullAmount) returns (r: Result<()>)
      modifies this
      ensures Refines(r, RecordBorrow(old(View()), amount), View())
      ensures r.Ok? ==> Value(View()) == Value(old(View())) && totalBorrowed <= config.borrowLimit * ONE
      ensures r.Ok? ==> totalBorrowed == old(totalBorrowed) + amount.tokens * ONE
                        && loanNotes == old(loanNotes) + amount.notes
      ensures r.Ok? ==> totalBorrowed * 10_000 < Value(View()) * (MAX_POOL_UTIL_RATIO_AFTER_BORROW_BPS + 1)
    {
      if RecordBorrow(View(), amount).Ok? {
        BorrowKeepsValue(View(), amount, RecordBorrow(View(), amount).value);
        BorrowRespectsLimits(View(), amount, RecordBorrow(View(), amount).value);
      }
      if !config.allowLending {
        return Err(DepositsOnly);
      }
      depositTokens :- SubU64(depositTokens, amount.tokens, InsufficientLiquidity);
      loanNotes :- AddU64(loanNotes, amount.notes);
      var number :- FromInt(amount.tokens);
      totalBorrowed :- Add(totalBorrowed, number);
      var limit :- FromInt(config.borrowLimit);
      if totalBorrowed > limit {
        return Err(BorrowLimitReached);
      }
      var utilization :- UtilizationRate(View());
      var bps :- AsU64(utilization, BPS);
      if bps > MAX_POOL_UTIL_RATIO_AFTER_BORROW_BPS {
        return Err(ExceedsMaxBorrowUtilRatio);
      }
      return Ok(());
    }

    method Repay(amount: FullAmount) returns (r: Result<()>)
      modifies this
      ensures Refines(r, RecordRepay(old(View()), amount), View())
      ensures AsU64Ceil(old(totalBorrowed)).Ok?
              ==> (r.Ok? <==> && old(depositTokens) + amount.tokens <= U64_MAX && amount.notes <= old(loanNotes)
                              && amount.tokens * ONE < old(totalBorrowed) + ONE)
      ensures r.Ok? ==> Value(old(View())) <= Value(View()) < Value(old(View())) + ONE
      ensures r.Ok? ==> loanNotes == old(loanNotes) - amount.notes
    {
      if AsU64Ceil(totalBorrowed).Ok? { DebtIsReducible(totalBorrowed, amount.tokens); }
      if RecordRepay(View(), amount).Ok? { RepayKeepsValue(View(), amount, RecordRepay(View(), amount).value); }
      depositTokens :- AddU64(depositTokens, amount.tokens);
      loanNotes :- SubU64(loanNotes, amount.notes, InsufficientLiquidity);
      var owed :- AsU64Ceil(totalBorrowed);
      if owed < amount.tokens {
        return Err(RepaymentExceedsTotalOutstanding);
      }
      totalBorrowed := SaturatingSub(totalBorrowed, amount.tokens * ONE);
      return Ok(());
    }

    method MarginRepay(repay: FullAmount, withdraw: FullAmount) returns (r: Result<()>)
      modifies this
      ensures Refines(r, RecordMarginRepay(old(View()), repay, withdraw), View())
      ensures AsU64Ceil(old(totalBorrowed)).Ok?
              ==> (r.Ok? <==> && withdraw.notes <= old(depositNotes) && repay.notes <= old(loanNotes)
                              && repay.tokens * ONE < old(totalBorrowed) + ONE)
      ensures r.Ok? ==> depositNotes == old(depositNotes) - withdraw.notes && loanNotes == old(loanNotes) - repay.notes
      ensures r.Ok? ==> var paid := repay.tokens * ONE;
                        Net(old(View())) - paid <= Net(View()) < Net(old(View())) - paid + ONE
    {
      if AsU64Ceil(totalBorrowed).Ok? { DebtIsReducible(totalBorrowed, repay.tokens); }
      if ReduceDebt(totalBorrowed, repay.tokens).Ok? { ReduceDebtKeepsValue(totalBorrowed, repay.tokens); }
      depositNotes :- SubU64(depositNotes, withdraw.notes, InsufficientLiquidity);
      loanNotes :- SubU64(loanNotes, repay.notes, InsufficientLiquidity);
      var owed :- AsU64Ceil(totalBorrowed);
      if owed < repay.tokens {
        return Err(RepaymentExceedsTotalOutstanding);
      }
      totalBorrowed := SaturatingSub(totalBorrowed, repay.tokens * ONE);
      return Ok(());
    }

    method AccrueInterest(time: int) returns (r: Result<bool>)
      modifies this
      ensures Refines(if r.Ok? then Ok(()) else Err(r.error), AccruedPool(old(View()), time), View())
      ensures r.Ok? ==> Accrue(old(View()), time) == Ok((View(), r.value))
      ensures r.Ok? && FeesCapped(old(View()))
              ==> Net(old(View())) <= Net(View()) && (Backed(old(View())) ==> Backed(View()))
    {
      if FeesCapped(View()) && Accrue(View(), time).Ok? { AccrueKeepsBacking(View(), time); }
      var behind := time - accruedUntil;
      var toAccrue := Min(behind, MAX_ACCRUAL_SECONDS);
      if toAccrue < 0 {
        return Err(Panic);
      }
      if toAccrue == 0 {
        return Ok(true);
      }
      var rate :- InterestRate(View());
      var compound :- CompoundInterest(rate, toAccrue);
      var interest :- Mul(totalBorrowed, compound);
      var fee :- Mul(interest, FromBps(config.managementFeeRate));
      totalBorrowed :- Add(totalBorrowed, interest);
      uncollectedFees :- Add(uncollectedFees, fee);
      accruedUntil := accruedUntil + toAccrue;
      return Ok(behind == toAccrue);
    }

    method CollectAccruedFees() returns (r: Result<nat>)
      modifies this
      ensures r.Ok? ==> CollectFees(old(View())) == Ok((View(), r.value))
      ensures r.Err? ==> CollectFees(old(View())) == Err(r.error)
      ensures r.Ok? && Backed(old(View()))
              ==> Backed(View()) && Value(View()) == Value(old(View()))
                  && uncollectedFees < DepositNoteExchangeRate(old(View())).value
    {
      if Backed(View()) && CollectFees(View()).Ok? {
        CollectTakesWholeNotes(View(), CollectFees(View()).value.0, CollectFees(View()).value.1);
        CollectMovesExactly(View(), CollectFees(View()).value.0, CollectFees(View()).value.1);
      }
      var rate :- DepositNoteExchangeRate(View());
      var exact :- Div(uncollectedFees, rate);
      var feeNotes :- AsU64(exact, ONE);
      if feeNotes > 0 {
        var collected :- Mul(feeNotes * ONE, rate);
        uncollectedFees :- Sub(uncollectedFees, collected);
        depositNotes :- AddU64(depositNotes, feeNotes);
      }
      return Ok(feeNotes);
    }

    /** The client's loop: accrue until the pool reports that it is up to date. */
    method SyncInterest(time: int) returns (r: Result<nat>)
      modifies this
      ensures r.Ok? ==> AccrueUntilDone(old(View()), time) == Ok((View(), r.value))
      ensures r.Err? ==> AccrueUntilDone(old(View()), time) == Err(r.error)
      ensures r.Ok? && FeesCapped(old(View())) ==> CaughtUp(old(View()), View(), time, r.value)
    {
      ghost var before := View();
      OneCall(View(), time);
      var calls := 1;
      var done :- AccrueInterest(time);
      while !done
        invariant AccrueUntilDone(before, time) == AddCalls(Rest(View(), time, done), calls)
        invariant !done ==> accruedUntil < time
        decreases if done then 0 else time - accruedUntil
      {
        OneCall(View(), time);
        done :- AccrueInterest(time);
        calls := calls + 1;
      }
      if FeesCapped(before) { EndsCaughtUp(before, View(), time, calls); }
      return Ok(calls);
    }
  }

  function AccruedPool(p: Pool, time: int): Result<Pool> {
    var (after, _) :- Accrue(p, time);
    Ok(after)
  }

  /** The pool has caught up with the time, in as many calls as that takes, at no cost to note holders. */
  predicate CaughtUp(p: Pool, after: Pool, time: int, calls: nat) {
    && p.accruedUntil <= after.accruedUntil == time && calls == CallsNeeded(time - p.accruedUntil)
    && Net(p) <= Net(after)
  }

  lemma EndsCaughtUp(p: Pool, after: Pool, time: int, calls: nat)
    requires FeesCapped(p) && AccrueUntilDone(p, time) == Ok((after, calls))
    ensures CaughtUp(p, after, time, calls)
  {
    CatchUpEndsOnTime(p, time);
  }

  function AddCalls(r: Result<(Pool, nat)>, calls: nat): Result<(Pool, nat)> {
    var (after, more) :- r;
    Ok((after, more + calls))
  }

  /** What is still to be done from p: nothing, or the remaining calls. */
  function Rest(p: Pool, time: int, done: bool): Result<(Pool, nat)> {
    if done then Ok((p, 0)) else AccrueUntilDone(p, time)
  }

  lemma {:induction false} OneCall(p: Pool, time: int)
    ensures Accrue(p, time).Err? ==> AccrueUntilDone(p, time) == Err(Accrue(p, time).error)
    ensures Accrue(p, time).Ok?
            ==> var (after, done) := Accrue(p, time).value;
                && AccrueUntilDone(p, time) == AddCalls(Rest(after, time, done), 1)
                && (!done ==> p.accruedUntil < after.accruedUntil < time)
  {
  }

  /** The accounts an instruction works on: the pool, its vault and the two note mints. */
  class PoolAccounts {
    const pool: MarginPool
    var vault: nat
    var depositSupply: nat
    var loanSupply: nat
    var feeNotesWithdrawn: nat
    var feeTokensWithdrawn: nat

    constructor (time: int)
      ensures View() == NewLedger(time) && fresh(pool)
    {
      pool := new MarginPool(time);
      vault, depositSupply, loanSupply, feeNotesWithdrawn, feeTokensWithdrawn := 0, 0, 0, 0, 0;
    }

    function View(): Ledger
      reads this, pool
    {
      Ledger(pool.View(), vault, depositSupply, loanSupply, feeNotesWithdrawn, feeTokensWithdrawn)
    }

    method AccrueOrFail(time: int) returns (r: Result<()>)
      modifies pool
      ensures Refines(r, AccrueFully(old(pool.View()), time), pool.View())
    {
      var done :- pool.AccrueInterest(time);
      if !done {
        return Err(InterestAccrualBehind);
      }
      return Ok(());
    }

    method DepositHandler(i: Instruction) returns (r: Result<()>)
      requires i.DepositTokens?
      modifies this, pool
      ensures Refines(r, DepositStep(old(View()), i), View())
      ensures r.Ok? && Inv(old(View())) ==> Inv(View()) && KeepsRate(old(View()).pool, View().pool)
    {
      if Inv(View()) && DepositStep(View(), i).Ok? { DepositSafe(View(), i); }
      var _ :- AccrueOrFail(i.time);
      var source :- ConvertAmount(pool.View(), Tokens(i.sourceTokens), Deposit);
      var destination :- ConvertAmount(pool.View(), Notes(i.destinationNotes), Deposit);
      var amount :- CalculateFullAmount(pool.View(), source, destination, i.change, Deposit);
      var _ :- pool.Deposit(amount);
      var _ :- CheckEnabled(pool.View());
      var _ :- Take(i.sourceTokens, amount.tokens);
      vault :- AddU64(vault, amount.tokens);
      depositSupply :- AddU64(depositSupply, amount.notes);
      return Ok(());
    }

    method WithdrawHandler(i: Instruction) returns (r: Result<()>)
      requires i.WithdrawTokens?
      modifies this, pool
      ensures Refines(r, WithdrawStep(old(View()), i), View())
      ensures r.Ok? && Inv(old(View())) ==> Inv(View()) && NearlyKeepsRate(old(View()).pool, View().pool)
    {
      if Inv(View()) && WithdrawStep(View(), i).Ok? { WithdrawSafe(View(), i); }
      var _ :- AccrueOrFail(i.time);
      var source :- ConvertAmount(pool.View(), Notes(i.sourceNotes), Withdraw);
      var destination := FullAmount(i.destinationTokens, i.destinationTokens);
      var amount :- CalculateFullAmount(pool.View(), source, destination, i.change, Withdraw);
      var _ :- pool.Withdraw(amount);
      var _ :- CheckEnabled(pool.View());
      vault :- Take(vault, amount.tokens);
      depositSupply :- Burn(depositSupply, i.sourceNotes, amount.notes);
      return Ok(());
    }

    method MarginBorrowHandler(i: Instruction) returns (r: Result<()>)
      requires i.MarginBorrow?
      modifies this, pool
      ensures Refines(r, MarginBorrowStep(old(View()), i), View())
      ensures r.Ok? && Inv(old(View())) ==> Inv(View()) && KeepsRate(old(View()).pool, View().pool)
    {
      if Inv(View()) && MarginBorrowStep(View(), i).Ok? { MarginBorrowSafe(View(), i); }
      var _ :- AccrueOrFail(i.time);
      var source :- ConvertAmount(pool.View(), Notes(i.loanNotes), Borrow);
      var destination :- ConvertAmount(pool.View(), Notes(i.depositNotes), Deposit);
      var borrow :- CalculateFullAmount(pool.View(), source, destination, i.change, Borrow);
      var _ :- pool.Borrow(borrow);
      var deposit :- ConvertAmount(pool.View(), Tokens(borrow.tokens), Deposit);
      var _ :- pool.Deposit(deposit);
      var _ :- CheckEnabled(pool.View());
      loanSupply :- AddU64(loanSupply, borrow.notes);
      depositSupply :- AddU64(depositSupply, deposit.notes);
      return Ok(());
    }

    method MarginBorrowV2Handler(i: Instruction) returns (r: Result<()>)
      requires i.MarginBorrowV2?
      modifies this, pool
      ensures Refines(r, MarginBorrowV2Step(old(View()), i), View())
      ensures r.Ok? && Inv(old(View())) ==> Inv(View()) && KeepsRate(old(View()).pool, View().pool)
    {
      if Inv(View()) && MarginBorrowV2Step(View(), i).Ok? { MarginBorrowV2Safe(View(), i); }
      var _ :- AccrueOrFail(i.time);
      var source :- ConvertAmount(pool.View(), Notes(i.loanNotes), Borrow);
      var destination := FullAmount(i.destinationTokens, i.destinationTokens);
      var borrow :- CalculateFullAmount(pool.View(), source, destination, TokenChange(ShiftBy, i.tokens), Borrow);
      var _ :- pool.Borrow(borrow);
      var _ :- CheckEnabled(pool.View());
      loanSupply :- AddU64(loanSupply, borrow.notes);
      vault :- Take(vault, borrow.tokens);
      return Ok(());
    }

    method RepayHandler(i: Instruction) returns (r: Result<()>)
      requires i.RepayTokens?
      modifies this, pool
      ensures Refines(r, RepayStep(old(View()), i), View())
      ensures r.Ok? && Inv(old(View())) ==> Inv(View()) && KeepsRate(old(View()).pool, View().pool)
    {
      if Inv(View()) && RepayStep(View(), i).Ok? { RepaySafe(View(), i); }
      var _ :- AccrueOrFail(i.time);
      var source :- ConvertAmount(pool.View(), Tokens(i.sourceTokens), Borrow);
      var destination :- ConvertAmount(pool.View(), Notes(i.loanNotes), Deposit);
      var repay :- CalculateFullAmount(pool.View(), source, destination, i.change, Repay);
      var _ :- pool.Repay(repay);
      var _ :- CheckEnabled(pool.View());
      var _ :- Take(i.sourceTokens, repay.tokens);
      vault :- AddU64(vault, repay.tokens);
      loanSupply :- Burn(loanSupply, i.loanNotes, repay.notes);
      return Ok(());
    }

    method MarginRepayHandler(i: Instruction) returns (r: Result<()>)
      requires i.MarginRepay?
      modifies this, pool
      ensures Refines(r, MarginRepayStep(old(View()), i), View())
      ensures r.Ok? && Inv(old(View())) ==> Inv(View()) && NearlyKeepsRate(old(View()).pool, View().pool)
    {
      if Inv(View()) && MarginRepayStep(View(), i).Ok? { MarginRepaySafe(View(), i); }
      var _ :- AccrueOrFail(i.time);
      var source :- ConvertAmount(pool.View(), Notes(i.depositNotes), Withdraw);
      var destination :- ConvertAmount(pool.View(), Notes(i.loanNotes), Repay);
      var repay :- CalculateFullAmount(pool.View(), source, destination, i.change, Repay);
      var withdraw :- ConvertAmount(pool.View(), Tokens(repay.tokens), Withdraw);
      var _ :- pool.MarginRepay(repay, withdraw);
      var _ :- CheckEnabled(pool.View());
      loanSupply :- Burn(loanSupply, i.loanNotes, repay.notes);
      depositSupply :- Burn(depositSupply, i.depositNotes, withdraw.notes);
      return Ok(());
    }

    method CollectHandler(i: Instruction) returns (r: Result<()>)
      requires i.Collect?
      modifies this, pool
      ensures Refines(r, CollectStep(old(View()), i), View())
      ensures r.Ok? && Inv(old(View())) ==> Inv(View()) && KeepsRate(old(View()).pool, View().pool)
    {
      if Inv(View()) && CollectStep(View(), i).Ok? { CollectSafe(View(), i); }
      var done :- pool.AccrueInterest(i.time);
      if !done {
        return Ok(());
      }
      var feeNotes :- pool.CollectAccruedFees();
      var _ :- CheckEnabled(pool.View());
      depositSupply :- AddU64(depositSupply, feeNotes);
      var _ :- ConvertAmount(pool.View(), Notes(feeNotes), Withdraw);
      var _ :- ConvertAmount(pool.View(), Notes(vault), Withdraw);
      return Ok(());
    }

    method WithdrawFeesHandler(i: Instruction) returns (r: Result<()>)
      requires i.WithdrawFees?
      modifies this
      ensures Refines(r, WithdrawFeesStep(old(View()), i), View())
      ensures r.Ok? && Inv(old(View())) ==> Inv(View()) && KeepsRate(old(View()).pool, View().pool)
    {
      if Inv(View()) && WithdrawFeesStep(View(), i).Ok? { AdministrationSafe(View(), i); }
      var _ :- CheckEnabled(pool.View());
      var claimed :- ConvertAmount(pool.View(), Notes(i.feeNotes), Withdraw);
      vault :- Take(vault, claimed.tokens);
      depositSupply :- Burn(depositSupply, i.feeNotes, claimed.notes);
      feeNotesWithdrawn := feeNotesWithdrawn + claimed.notes;
      feeTokensWithdrawn := feeTokensWithdrawn + claimed.tokens;
      return Ok(());
    }

    method ConfigureHandler(i: Instruction) returns (r: Result<()>)
      requires i.Configure?
      modifies pool
      ensures Refines(r, ConfigureStep(old(View()), i), View())
      ensures r.Ok? && Inv(old(View())) ==> Inv(View()) && KeepsRate(old(View()).pool, View().pool)
    {
      if Inv(View()) && ConfigureStep(View(), i).Ok? { AdministrationSafe(View(), i); }
      pool.config := i.config;
      var _ :- CheckConfig(i.config);
      return Ok(());
    }

    method Dispatch(i: Instruction) returns (r: Result<()>)
      modifies this, pool
      ensures Refines(r, Step(old(View()), i), View())
    {
      match i
      case DepositTokens(_, _, _, _) => r := DepositHandler(i);
      case WithdrawTokens(_, _, _, _) => r := WithdrawHandler(i);
      case MarginBorrow(_, _, _, _) => r := MarginBorrowHandler(i);
      case MarginBorrowV2(_, _, _, _) => r := MarginBorrowV2Handler(i);
      case RepayTokens(_, _, _, _) => r := RepayHandler(i);
      case MarginRepay(_, _, _, _) => r := MarginRepayHandler(i);
      case Collect(_) => r := CollectHandler(i);
      case WithdrawFees(_) => r := WithdrawFeesHandler(i);
      case Configure(_) => r := ConfigureHandler(i);
    }

    /** The runtime: an instruction takes effect as a whole or not at all. */
    method Process(i: Instruction) returns (r: Result<()>)
      modifies this, pool
      ensures View() == Execute(old(View()), i)
      ensures r.Ok? <==> Step(old(View()), i).Ok?
      ensures Inv(old(View())) ==> Inv(View())
      ensures Inv(old(View())) && !Burns(i) ==> KeepsRate(old(View()).pool, View().pool)
      ensures Inv(old(View())) && Burns(i) && r.Ok? ==> NearlyKeepsRate(old(View()).pool, View().pool)
    {
      var before := View();
      if Inv(before) { StepSafe(before, i); }
      r := Dispatch(i);
      if r.Err? {
        pool.Restore(before.pool);
        vault, depositSupply, loanSupply := before.vault, before.depositSupply, before.loanSupply;
        feeNotesWithdrawn, feeTokensWithdrawn := before.feeNotesWithdrawn, before.feeTokensWithdrawn;
      }
    }
  }
}
