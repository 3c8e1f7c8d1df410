/**
 Where the rounding does not favour the pool.

 Notes burned for a number of tokens are the ceiling of a quotient that was already truncated. A
 withdrawal or a repayment that burns the last notes can therefore take slightly more than the net
 value, and the uncollected fees are then no longer covered.
 */
module PoolShortfall {
  import opened Outcomes
  import opened Rounding
  import opened FixedPoint
  import opened PoolModel
  import opened NoteRounding
  import opened PoolSafety
  import opened PoolLedger
  import opened PoolRuns
  import opened PoolScenes

  predicate Uncovered(p: Pool) {
    Net(p) < 0
  }

  lemma QuoteNeedsCover(p: Pool)
    requires DepositNoteExchangeRate(p).Ok?
    ensures !Uncovered(p)
  {
  }

  // ----- which instructions can uncover the fees -----

  /** The tokens that a successful burn takes out of the pool or off a debt. */
  function TokensTaken(l: Ledger, i: Instruction): nat
    requires Burns(i) && Step(l, i).Ok?
  {
    var mid := AccrueFully(l.pool, i.time).value;
    if i.WithdrawTokens? then
      var source := ConvertAmount(mid, Notes(i.sourceNotes), Withdraw).value;
      var destination := FullAmount(i.destinationTokens, i.destinationTokens);
      CalculateFullAmount(mid, source, destination, i.change, Withdraw).value.tokens
    else
      var source := ConvertAmount(mid, Notes(i.depositNotes), Withdraw).value;
      var destination := ConvertAmount(mid, Notes(i.loanNotes), Repay).value;
      CalculateFullAmount(mid, source, destination, i.change, Repay).value.tokens
  }

  /** A withdrawal takes more than the net value; a repayment, more than it while that much is owed. */
  predicate TakesMoreThanNet(l: Ledger, i: Instruction)
    requires Burns(i) && Step(l, i).Ok?
  {
    var mid, taken := AccrueFully(l.pool, i.time).value, TokensTaken(l, i) * ONE;
    Net(mid) < if i.WithdrawTokens? then taken else Min(mid.borrowed, taken)
  }

  lemma NotQuotedWhenUncovered(p: Pool)
    requires Uncovered(p)
    ensures DepositNoteExchangeRate(p) == Err(Panic)
  {
  }

  lemma SettlementNet(p: Pool, repay: FullAmount, withdraw: FullAmount, after: Pool)
    requires RecordMarginRepay(p, repay, withdraw) == Ok(after)
    ensures Net(after) == Net(p) - Min(p.borrowed, repay.tokens * ONE)
  {
  }

  lemma WithdrawalNet(l: Ledger, i: Instruction)
    requires i.WithdrawTokens? && Step(l, i).Ok?
    ensures Net(Step(l, i).value.pool) == Net(AccrueFully(l.pool, i.time).value) - TokensTaken(l, i) * ONE
  {
  }

  lemma RepaymentNet(l: Ledger, i: Instruction)
    requires i.MarginRepay? && Step(l, i).Ok?
    ensures var mid := AccrueFully(l.pool, i.time).value;
            Net(Step(l, i).value.pool) == Net(mid) - Min(mid.borrowed, TokensTaken(l, i) * ONE)
  {
    var mid := AccrueFully(l.pool, i.time).value;
    var source := ConvertAmount(mid, Notes(i.depositNotes), Withdraw).value;
    var destination := ConvertAmount(mid, Notes(i.loanNotes), Repay).value;
    var repay := CalculateFullAmount(mid, source, destination, i.change, Repay).value;
    var withdraw := ConvertAmount(mid, Tokens(repay.tokens), Withdraw).value;
    SettlementNet(mid, repay, withdraw, Step(l, i).value.pool);
  }

  /** The pool once interest has accrued, or as it is if that fails. */
  function AfterInterest(p: Pool, time: int): Pool {
    if Accrue(p, time).Ok? then Accrue(p, time).value.0 else p
  }

  lemma FullyAccrued(p: Pool, time: int)
    requires AccrueFully(p, time).Ok?
    ensures Accrue(p, time).Ok? && AfterInterest(p, time) == AccrueFully(p, time).value
  {
  }

  predicate Timed(i: Instruction) {
    !i.WithdrawFees? && !i.Configure?
  }

  /** What a successful instruction that burns nothing does to the net value after interest. */
  predicate KeepsNet(l: Ledger, i: Instruction, after: Ledger)
    requires Timed(i)
  {
    var mid := AfterInterest(l.pool, i.time);
    && Accrue(l.pool, i.time).Ok? && Net(mid) <= Net(after.pool)
    && (Uncovered(mid) ==> Net(after.pool) == Net(mid))
  }

  lemma DepositedNet(l: Ledger, i: Instruction, after: Ledger)
    requires i.DepositTokens? && DepositStep(l, i) == Ok(after)
    ensures KeepsNet(l, i, after)
  {
    FullyAccrued(l.pool, i.time);
    QuoteNeedsCover(AfterInterest(l.pool, i.time));
  }

  lemma BorrowedNet(l: Ledger, i: Instruction, after: Ledger)
    requires i.MarginBorrow? && MarginBorrowStep(l, i) == Ok(after)
    ensures KeepsNet(l, i, after)
  {
    FullyAccrued(l.pool, i.time);
    var pool := AccrueFully(l.pool, i.time).value;
    var source := ConvertAmount(pool, Notes(i.loanNotes), Borrow).value;
    var destination := ConvertAmount(pool, Notes(i.depositNotes), Deposit).value;
    var borrow := CalculateFullAmount(pool, source, destination, i.change, Borrow).value;
    var lent := RecordBorrow(pool, borrow).value;
    BorrowKeepsValue(pool, borrow, lent);
    QuoteNeedsCover(pool);
  }

  lemma LentNet(l: Ledger, i: Instruction, after: Ledger)
    requires i.MarginBorrowV2? && MarginBorrowV2Step(l, i) == Ok(after)
    ensures KeepsNet(l, i, after)
  {
    FullyAccrued(l.pool, i.time);
  }

  lemma RepaidNet(l: Ledger, i: Instruction, after: Ledger)
    requires i.RepayTokens? && RepayStep(l, i) == Ok(after)
    ensures KeepsNet(l, i, after)
  {
    FullyAccrued(l.pool, i.time);
    var pool := AccrueFully(l.pool, i.time).value;
    var source := ConvertAmount(pool, Tokens(i.sourceTokens), Borrow).value;
    var destination := ConvertAmount(pool, Notes(i.loanNotes), Deposit).value;
    var repay := CalculateFullAmount(pool, source, destination, i.change, Repay).value;
    RepayKeepsValue(pool, repay, after.pool);
    QuoteNeedsCover(pool);
  }

  lemma CollectedNet(l: Ledger, i: Instruction, after: Ledger)
    requires Inv(l) && i.Collect? && CollectStep(l, i) == Ok(after)
    ensures KeepsNet(l, i, after)
  {
    var (pool, done) := Accrue(l.pool, i.time).value;
    if done {
      var (collected, minted) := CollectFees(pool).value;
      AccrueKeepsBacking(l.pool, i.time);
      CollectMovesExactly(pool, collected, minted);
      MulLe(0, minted, DepositNoteExchangeRate(pool).value);
      QuoteNeedsCover(pool);
    }
  }

  /** Without a burn the net value never falls below what it is once interest has accrued. */
  lemma NetFallsOnlyByBurns(l: Ledger, i: Instruction, after: Ledger)
    requires Inv(l) && !Burns(i) && Timed(i) && Step(l, i) == Ok(after)
    ensures KeepsNet(l, i, after)
  {
    match i
    case DepositTokens(_, _, _, _) => DepositedNet(l, i, after);
    case MarginBorrow(_, _, _, _) => BorrowedNet(l, i, after);
    case MarginBorrowV2(_, _, _, _) => LentNet(l, i, after);
    case RepayTokens(_, _, _, _) => RepaidNet(l, i, after);
    case Collect(_) => CollectedNet(l, i, after);
  }

  /**
   The fees of a pool become uncovered if and only if a burn takes more than the net value: a
   withdrawal of more tokens than that, or a repayment with notes of more than that while the debt
   is higher too. It takes all the notes, and no deposit rate is quoted afterwards.
   */
  lemma UncoversExactly(l: Ledger, i: Instruction)
    requires Inv(l) && !Uncovered(l.pool)
    ensures var after := Execute(l, i).pool;
            && (Uncovered(after) <==> Burns(i) && Step(l, i).Ok? && TakesMoreThanNet(l, i))
            && (Uncovered(after) ==> after.depositNotes == 0 && DepositNoteExchangeRate(after) == Err(Panic))
  {
    if Step(l, i).Ok? {
      StepSafe(l, i);
      match i
      case WithdrawTokens(_, _, _, _) => WithdrawalNet(l, i);
      case MarginRepay(_, _, _, _) => RepaymentNet(l, i);
      case WithdrawFees(_) =>
      case Configure(_) =>
      case _ =>
        NetFallsOnlyByBurns(l, i, Execute(l, i));
        AccrueKeepsBacking(l.pool, i.time);
      if Uncovered(Execute(l, i).pool) { NotQuotedWhenUncovered(Execute(l, i).pool); }
    }
  }

  /** A deficit is at most the slack of the rate quoted once interest has accrued. */
  predicate SmallDeficit(l: Ledger, time: int, after: Pool)
    requires AccrueFully(l.pool, time).Ok?
  {
    var rate := DepositNoteExchangeRate(AccrueFully(l.pool, time).value);
    rate.Ok? && 0 < rate.value && 0 <= Net(after) + Slack(rate.value)
  }

  lemma WithdrawalDeficit(l: Ledger, i: Instruction, after: Ledger)
    requires Inv(l) && i.WithdrawTokens? && WithdrawStep(l, i) == Ok(after)
    ensures SmallDeficit(l, i.time, after.pool)
  {
    var pool := AccrueFully(l.pool, i.time).value;
    var source := ConvertAmount(pool, Notes(i.sourceNotes), Withdraw).value;
    var destination := FullAmount(i.destinationTokens, i.destinationTokens);
    var full := CalculateFullAmount(pool, source, destination, i.change, Withdraw).value;
    AccrueFullyKeeps(l.pool, i.time, pool);
    FullAmountIsConverted(pool, source, destination, i.change, Withdraw, full);
    WithdrawLeavesEnough(pool, full.tokens, full, after.pool);
  }

  lemma RepaymentDeficit(l: Ledger, i: Instruction, after: Ledger)
    requires Inv(l) && i.MarginRepay? && MarginRepayStep(l, i) == Ok(after)
    ensures SmallDeficit(l, i.time, after.pool)
  {
    var pool := AccrueFully(l.pool, i.time).value;
    var source := ConvertAmount(pool, Notes(i.depositNotes), Withdraw).value;
    var destination := ConvertAmount(pool, Notes(i.loanNotes), Repay).value;
    var repay := CalculateFullAmount(pool, source, destination, i.change, Repay).value;
    var burn := ConvertAmount(pool, Tokens(repay.tokens), Withdraw).value;
    assert RecordMarginRepay(pool, repay, burn) == Ok(after.pool);
    AccrueFullyKeeps(l.pool, i.time, pool);
    SettlementDeficit(pool, repay, burn, after.pool);
  }

  lemma SettlementDeficit(p: Pool, repay: FullAmount, burn: FullAmount, after: Pool)
    requires Backed(p) && ConvertAmount(p, Tokens(repay.tokens), Withdraw) == Ok(burn)
    requires RecordMarginRepay(p, repay, burn) == Ok(after)
    ensures var rate := DepositNoteExchangeRate(p);
            rate.Ok? && 0 < rate.value && 0 <= Net(after) + Slack(rate.value)
  {
    MarginRepayLeavesEnough(p, repay, burn, after);
    MulLe(0, DepositNoteExchangeRate(p).value, after.depositNotes);
  }

  /** However a burn leaves the pool, the fees exceed its value by at most the slack of the rate. */
  lemma DeficitIsSmall(l: Ledger, i: Instruction)
    requires Inv(l) && Burns(i) && Step(l, i).Ok?
    ensures AccrueFully(l.pool, i.time).Ok? && SmallDeficit(l, i.time, Step(l, i).value.pool)
  {
    if i.WithdrawTokens? {
      WithdrawalDeficit(l, i, Step(l, i).value);
    } else {
      RepaymentDeficit(l, i, Step(l, i).value);
    }
  }

  // ----- which pools are at risk -----

  /** All the notes pay for `tokens`, which are more than the net value. */
  predicate NotesPayFor(l: Ledger, tokens: nat)
    requires DepositNoteExchangeRate(l.pool).Ok?
  {
    && 0 < l.pool.depositNotes == l.depositSupply && !l.pool.config.disabled
    && Net(l.pool) < tokens * ONE
    && tokens * ONE * ONE < (l.pool.depositNotes * ONE + 1) * DepositNoteExchangeRate(l.pool).value
  }

  /** The lowest number of whole tokens above the net value. */
  function AboveNet(p: Pool): nat
    requires 0 <= Net(p)
  {
    DivNonNegative(Net(p), ONE);
    Net(p) / ONE + 1
  }

  /** A withdrawal can uncover the fees: the lowest number of tokens above the net value is there and is paid for. */
  predicate WithdrawalRisk(l: Ledger)
    requires !Uncovered(l.pool)
  {
    var t := AboveNet(l.pool);
    DepositNoteExchangeRate(l.pool).Ok? && NotesPayFor(l, t) && t <= l.pool.tokens && t <= l.vault
  }

  /** So can a repayment of t tokens: they are owed, more than the net value is owed, and they pay for loan notes. */
  predicate RepaymentRisk(l: Ledger, t: nat) {
    var p := l.pool;
    && DepositNoteExchangeRate(p).Ok? && NotesPayFor(l, t)
    && Net(p) < p.borrowed && AsU64Ceil(p.borrowed).Ok? && t <= AsU64Ceil(p.borrowed).value
    && LoanNoteExchangeRate(p).Ok? && 0 < LoanNoteExchangeRate(p).value
    && 0 < t * ONE / LoanNoteExchangeRate(p).value <= p.loanNotes
  }

  lemma NotesPayConverts(l: Ledger, t: nat)
    requires Inv(l) && DepositNoteExchangeRate(l.pool).Ok? && NotesPayFor(l, t) && t <= U64_MAX
    ensures var n := l.pool.depositNotes; var full := ConvertAmount(l.pool, Tokens(t), Withdraw);
            && ConvertAmount(l.pool, Notes(n), Withdraw).Ok?
            && full.Ok? && full.value.tokens == t && 0 < full.value.notes <= n
  {
    var p, rate := l.pool, DepositNoteExchangeRate(l.pool).value;
    DepositRateQuotesNet(p);
    MulLe(1, p.depositNotes, rate);
    MulCommutes(p.depositNotes, rate);
    NotesConvert(p.depositNotes, rate, t);
    MulLe(1, ONE, t * ONE);
    WithinNotesConverts(t, rate, p.depositNotes);
  }

  /** The withdrawal that uncovers the fees of a pool at risk. */
  lemma RiskyWithdrawal(l: Ledger) returns (i: Instruction)
    requires Inv(l) && !Uncovered(l.pool) && WithdrawalRisk(l)
    ensures i.WithdrawTokens? && i.time == l.pool.accruedUntil && Uncovered(Execute(l, i).pool)
  {
    var t, n := AboveNet(l.pool), l.pool.depositNotes;
    i := WithdrawTokens(l.pool.accruedUntil, TokenChange(ShiftBy, t), n, 0);
    NotesPayConverts(l, t);
    assert AccrueFully(l.pool, i.time) == Ok(l.pool);
    assert Step(l, i).Ok?;
  }

  lemma FloorOfFloor(t: nat, rate: nat, m: nat)
    requires 0 < rate && m * rate <= t * ONE < m * rate + rate
    ensures 0 <= t * ONE * ONE / rate && t * ONE * ONE / rate / ONE == m
  {
    var q := t * ONE * ONE / rate;
    DivNonNegative(t * ONE * ONE, rate);
    DivBounds(t * ONE * ONE, rate);
    DivBounds(q, ONE);
    DivNonNegative(q, ONE);
    FloorOfQuotient(t * ONE, rate, q, q / ONE);
    QuotientIsUnique(t * ONE, rate, q / ONE, m);
  }

  lemma LoanNotesConvert(t: nat, rate: nat, m: nat)
    requires 0 < rate && t <= U64_MAX && 0 < m == t * ONE / rate && m <= U64_MAX
    ensures ConvertAtRate(Tokens(t), Down, rate) == Ok(FullAmount(t, m))
    ensures ConvertAtRate(Notes(m), Up, rate).Ok? && 0 < ConvertAtRate(Notes(m), Up, rate).value.tokens
  {
    DivBounds(t * ONE, rate);
    FloorOfFloor(t, rate, m);
    assert m * ONE * rate == (m * rate) * ONE;
    MulPositive(m, rate);
    NotesAtRate(m, rate);
    DivAtLeast(ONE - 1 + m * rate, ONE, 1);
    DivBelow(ONE - 1 + m * rate, ONE, t + 1);
  }

  /** And the repayment that does. */
  lemma RiskyRepayment(l: Ledger, t: nat) returns (i: Instruction)
    requires Inv(l) && !Uncovered(l.pool) && RepaymentRisk(l, t)
    ensures i.MarginRepay? && i.time == l.pool.accruedUntil && Uncovered(Execute(l, i).pool)
  {
    var p, n, rate := l.pool, l.pool.depositNotes, LoanNoteExchangeRate(l.pool).value;
    var m := t * ONE / rate;
    i := MarginRepay(p.accruedUntil, TokenChange(ShiftBy, t), n, m);
    NotesPayConverts(l, t);
    LoanNotesConvert(t, rate, m);
    assert AccrueFully(p, i.time) == Ok(p);
    assert Step(l, i).Ok?;
    RepaymentNet(l, i);
  }

  /** A burn that uncovers the fees of a pool whose interest is up to date shows that it was at risk. */
  lemma UncoveringShowsRisk(l: Ledger, i: Instruction)
    requires Inv(l) && !Uncovered(l.pool) && Burns(i) && i.time == l.pool.accruedUntil
    requires Uncovered(Execute(l, i).pool)
    ensures i.WithdrawTokens? ==> WithdrawalRisk(l)
    ensures i.MarginRepay? ==> RepaymentRisk(l, TokensTaken(l, i))
  {
    var p := l.pool;
    assert AccrueFully(p, i.time) == Ok(p);
    UncoversExactly(l, i);
    var s := TokensTaken(l, i);
    if i.WithdrawTokens? { WithdrawalCosts(l, i, s); } else { RepaymentCosts(l, i, s); }
  }

  lemma WithdrawalCosts(l: Ledger, i: Instruction, s: nat)
    requires Inv(l) && i.WithdrawTokens? && AccrueFully(l.pool, i.time) == Ok(l.pool)
    requires Step(l, i).Ok? && s == TokensTaken(l, i) && !Uncovered(l.pool) && Net(l.pool) < s * ONE
    requires Step(l, i).value.pool.depositNotes == 0
    ensures WithdrawalRisk(l)
  {
    var p := l.pool;
    var source := ConvertAmount(p, Notes(i.sourceNotes), Withdraw).value;
    var destination := FullAmount(i.destinationTokens, i.destinationTokens);
    var full := CalculateFullAmount(p, source, destination, i.change, Withdraw).value;
    FullAmountIsConverted(p, source, destination, i.change, Withdraw, full);
    var rate, t := DepositNoteExchangeRate(p).value, AboveNet(p);
    UpNotesAtMost(s, rate, full, p.depositNotes);
    LowestAbove(Net(p), s, t, (p.depositNotes * ONE + 1) * rate);
  }

  lemma LowestAbove(net: nat, s: nat, t: nat, bound: nat)
    requires t == net / ONE + 1 && net < s * ONE && s * ONE * ONE < bound
    ensures t <= s && net < t * ONE && t * ONE * ONE < bound
  {
    DivBounds(net, ONE);
    MulLe(t * ONE, s * ONE, ONE);
  }

  lemma RepaymentCosts(l: Ledger, i: Instruction, s: nat)
    requires Inv(l) && i.MarginRepay? && AccrueFully(l.pool, i.time) == Ok(l.pool)
    requires Step(l, i).Ok? && s == TokensTaken(l, i) && !Uncovered(l.pool)
    requires Net(l.pool) < Min(l.pool.borrowed, s * ONE)
    requires Step(l, i).value.pool.depositNotes == 0
    ensures RepaymentRisk(l, s)
  {
    var p := l.pool;
    var source := ConvertAmount(p, Notes(i.depositNotes), Withdraw).value;
    var destination := ConvertAmount(p, Notes(i.loanNotes), Repay).value;
    var repay := CalculateFullAmount(p, source, destination, i.change, Repay).value;
    var withdraw := ConvertAmount(p, Tokens(repay.tokens), Withdraw).value;
    FullAmountIsConverted(p, source, destination, i.change, Repay, repay);
    UpNotesAtMost(s, DepositNoteExchangeRate(p).value, withdraw, p.depositNotes);
    DownFromTokens(s, LoanNoteExchangeRate(p).value, repay);
    DivIs(s * ONE, LoanNoteExchangeRate(p).value, repay.notes);
  }

  /** A burn works on the pool with interest accrued. */
  lemma BurnAccruesFirst(l: Ledger, i: Instruction, mid: Pool)
    requires Burns(i) && AccrueFully(l.pool, i.time) == Ok(mid)
    ensures mid.accruedUntil == i.time && Step(l, i) == Step(l.(pool := mid), i)
  {
    AccruedOnce(l.pool, i.time, mid);
    if i.WithdrawTokens? { WithdrawAccruesFirst(l, i, mid); } else { MarginRepayAccruesFirst(l, i, mid); }
  }

  lemma MarginRepayAccruesFirst(l: Ledger, i: Instruction, mid: Pool)
    requires i.MarginRepay? && AccrueFully(l.pool, i.time) == Ok(mid) == AccrueFully(mid, i.time)
    ensures MarginRepayStep(l, i) == MarginRepayStep(l.(pool := mid), i)
  {
  }

  /**
   At a given time some instruction can uncover the fees of a pool if and only if, once interest has
   accrued, all its notes pay for one token more than the whole tokens of its net value and those
   tokens are there, or for a number of tokens that is owed and exceeds the net value.
   */
  lemma PoolsAtRisk(l: Ledger, time: int)
    requires Inv(l) && !Uncovered(l.pool)
    ensures (exists i :: Timed(i) && i.time == time && Uncovered(Execute(l, i).pool))
            <==> AccrueFully(l.pool, time).Ok?
                 && var mid := l.(pool := AccrueFully(l.pool, time).value);
                    !Uncovered(mid.pool) && (WithdrawalRisk(mid) || exists t: nat :: RepaymentRisk(mid, t))
  {
    if AccrueFully(l.pool, time).Ok? {
      var mid := l.(pool := AccrueFully(l.pool, time).value);
      AccrueFullyKeeps(l.pool, time, mid.pool);
      assert mid.pool.accruedUntil == time;
      if WithdrawalRisk(mid) {
        var i := RiskyWithdrawal(mid);
        BurnAccruesFirst(l, i, mid.pool);
      }
      if t: nat :| RepaymentRisk(mid, t) {
        var i := RiskyRepayment(mid, t);
        BurnAccruesFirst(l, i, mid.pool);
      }
    }
    if i :| Timed(i) && i.time == time && Uncovered(Execute(l, i).pool) {
      UncoversExactly(l, i);
      var mid := l.(pool := AccrueFully(l.pool, time).value);
      BurnAccruesFirst(l, i, mid.pool);
      UncoveringShowsRisk(mid, i);
    }
  }

  // ----- it happens -----

  /** From its creation a pool can reach a state whose fees exceed its value, by a withdrawal and by a repayment. */
  lemma FeesCanBecomeUncovered()
    ensures Reachable(Scene(0, 1, 2, 1, 0, 1)) && Reachable(Scene(2 * ONE, 1, 0, 1, 2, 1))
    ensures Step(Scene(0, 1, 2, 1, 0, 1), WithdrawalOf(1, 2, 1)) == Ok(Scene(0, 1, 0, 0, 0, 1))
    ensures Step(Scene(2 * ONE, 1, 0, 1, 2, 1), SETTLEMENT) == Ok(Scene(0, 1, 0, 0, 0, 1))
    ensures Uncovered(Scene(0, 1, 0, 0, 0, 1).pool)
  {
    LastNote();
    LastNoteForTwo();
    LastNoteAndLoan();
    SettleWithLastNote();
  }
}
