/** What can become of a pool whose uncollected fees exceed its value. */
module PoolRecovery {
  import opened Outcomes
  import opened Rounding
  import opened FixedPoint
  import opened RateCurve
  import opened Compounding
  import opened PoolModel
  import opened NoteRounding
  import opened PoolSafety
  import opened PoolAccrual
  import opened PoolLedger
  import opened PoolRuns
  import opened PoolScenes
  import opened PoolShortfall

  /** What note holders gain by the interest that an instruction accrues: interest less fee. */
  function NetInterest(l: Ledger, i: Instruction): int {
    if Timed(i) && Step(l, i).Ok? then Net(AfterInterest(l.pool, i.time)) - Net(l.pool) else 0
  }

  lemma NoNotesNoTokens(p: Pool, tokens: nat, full: FullAmount)
    requires ConvertAmount(p, Tokens(tokens), Withdraw) == Ok(full) && full.notes == 0
    ensures tokens == 0
  {
  }

  /** Without notes a withdrawal takes nothing. */
  lemma WithdrawalOfNothing(l: Ledger, i: Instruction)
    requires i.WithdrawTokens? && l.pool.depositNotes == 0 && Step(l, i).Ok?
    ensures Accrue(l.pool, i.time).Ok? && !Uncovered(AfterInterest(l.pool, i.time))
    ensures Net(Step(l, i).value.pool) == Net(AfterInterest(l.pool, i.time))
  {
    var pool := AccrueFully(l.pool, i.time).value;
    FullyAccrued(l.pool, i.time);
    QuoteNeedsCover(pool);
    WithdrawalNet(l, i);
    var source := ConvertAmount(pool, Notes(i.sourceNotes), Withdraw).value;
    var destination := FullAmount(i.destinationTokens, i.destinationTokens);
    var full := CalculateFullAmount(pool, source, destination, i.change, Withdraw).value;
    FullAmountIsConverted(pool, source, destination, i.change, Withdraw, full);
    NoNotesNoTokens(pool, full.tokens, full);
  }

  lemma RepaymentOfNothing(l: Ledger, i: Instruction)
    requires i.MarginRepay? && l.pool.depositNotes == 0 && Step(l, i).Ok?
    ensures Accrue(l.pool, i.time).Ok? && !Uncovered(AfterInterest(l.pool, i.time))
    ensures Net(Step(l, i).value.pool) == Net(AfterInterest(l.pool, i.time))
  {
    var pool := AccrueFully(l.pool, i.time).value;
    FullyAccrued(l.pool, i.time);
    QuoteNeedsCover(pool);
    RepaymentNet(l, i);
    var source := ConvertAmount(pool, Notes(i.depositNotes), Withdraw).value;
    var destination := ConvertAmount(pool, Notes(i.loanNotes), Repay).value;
    var repay := CalculateFullAmount(pool, source, destination, i.change, Repay).value;
    NoNotesNoTokens(pool, repay.tokens, ConvertAmount(pool, Tokens(repay.tokens), Withdraw).value);
  }

  /**
   An instruction covers the fees again if and only if it succeeds and the interest it accrues, less
   the fee on it, makes up the deficit. Otherwise the deficit shrinks by that much and no more.
   */
  lemma RecoversByInterest(l: Ledger, i: Instruction)
    requires Inv(l) && Uncovered(l.pool)
    ensures !Uncovered(Execute(l, i).pool) <==> 0 <= Net(l.pool) + NetInterest(l, i)
    ensures Uncovered(Execute(l, i).pool) ==> Net(Execute(l, i).pool) == Net(l.pool) + NetInterest(l, i)
  {
    if Step(l, i).Ok? {
      match i
      case WithdrawTokens(_, _, _, _) => WithdrawalOfNothing(l, i);
      case MarginRepay(_, _, _, _) => RepaymentOfNothing(l, i);
      case WithdrawFees(_) => NotQuotedWhenUncovered(l.pool);
      case Configure(_) =>
      case _ => NetFallsOnlyByBurns(l, i, Step(l, i).value);
    }
  }

  // ----- over a run -----

  predicate StaysUncovered(l: Ledger, instructions: seq<Instruction>)
    decreases instructions
  {
    Uncovered(l.pool) && (instructions != [] ==> StaysUncovered(Execute(l, instructions[0]), instructions[1..]))
  }

  /** The interest less fees that a run accrues. */
  function EarnedOver(l: Ledger, instructions: seq<Instruction>): int
    decreases instructions
  {
    if instructions == [] then 0
    else NetInterest(l, instructions[0]) + EarnedOver(Execute(l, instructions[0]), instructions[1..])
  }

  lemma {:induction false} DeficitOverRun(l: Ledger, instructions: seq<Instruction>)
    requires Inv(l) && StaysUncovered(l, instructions)
    ensures Inv(Run(l, instructions)) && Uncovered(Run(l, instructions).pool)
    ensures Net(Run(l, instructions).pool) == Net(l.pool) + EarnedOver(l, instructions)
    decreases instructions
  {
    if instructions != [] {
      var next := Execute(l, instructions[0]);
      StepSafe(l, instructions[0]);
      RecoversByInterest(l, instructions[0]);
      DeficitOverRun(next, instructions[1..]);
    }
  }

  /** A pool recovers with the instruction that brings the net interest since then up to its deficit, and not before. */
  lemma RecoversWhenEarned(l: Ledger, instructions: seq<Instruction>, i: Instruction)
    requires Inv(l) && StaysUncovered(l, instructions)
    ensures var now := Run(l, instructions);
            !Uncovered(Execute(now, i).pool)
            <==> 0 <= Net(l.pool) + EarnedOver(l, instructions) + NetInterest(now, i)
  {
    DeficitOverRun(l, instructions);
    RecoversByInterest(Run(l, instructions), i);
  }

  lemma WholeFee(interest: nat)
    ensures interest * FromBps(MAX_MANAGEMENT_FEE_RATE) / ONE == interest
  {
    assert FromBps(MAX_MANAGEMENT_FEE_RATE) == ONE;
    DivIs(interest * ONE, ONE, interest);
  }

  lemma AccrualEarnsNothing(p: Pool, time: int)
    requires p.borrowed == 0 || p.config.managementFeeRate == MAX_MANAGEMENT_FEE_RATE
    ensures Net(AfterInterest(p, time)) == Net(p)
  {
    var after := AfterInterest(p, time);
    if after.borrowed >= p.borrowed { WholeFee(after.borrowed - p.borrowed); }
  }

  /** Without debt, or with all interest taken as a fee, an instruction earns nothing. */
  lemma NothingEarned(l: Ledger, i: Instruction)
    requires l.pool.borrowed == 0 || l.pool.config.managementFeeRate == MAX_MANAGEMENT_FEE_RATE
    ensures NetInterest(l, i) == 0
  {
    if Timed(i) { AccrualEarnsNothing(l.pool, i.time); }
  }

  /** A reachable pool that is uncovered, keeps a debt, and is covered again by interest that is no longer a fee. */
  lemma RecoveryInARun()
    ensures Reachable(Scene(36_514, 36_515, 0, 0, 1, 7_201)) && Uncovered(Scene(36_514, 36_515, 0, 0, 1, 7_201).pool)
    ensures Step(Scene(36_514, 36_515, 0, 0, 1, 7_201), Configure(DEAR_CONFIG)) == Ok(DEAR)
    ensures Step(DEAR, Collect(7_701)) == Ok(COVERED_AGAIN) && !Uncovered(COVERED_AGAIN.pool)
  {
    UncoveredWithDebt();
    CollectCovers();
  }

  // ----- which pools can recover -----

  /** The most interest that one accrual can charge on a debt: a week at 200%. */
  function BestWeek(borrowed: nat): nat {
    SeriesBelowATwentieth(2 * ONE, MAX_ACCRUAL_SECONDS);
    MulLe(0, CompoundInterest(2 * ONE, MAX_ACCRUAL_SECONDS).value, borrowed);
    DivNonNegative(borrowed * CompoundInterest(2 * ONE, MAX_ACCRUAL_SECONDS).value, ONE);
    borrowed * CompoundInterest(2 * ONE, MAX_ACCRUAL_SECONDS).value / ONE
  }

  lemma BestWeekGrows(b: nat, c: nat)
    requires b <= c
    ensures BestWeek(b) <= BestWeek(c)
  {
    SeriesBelowATwentieth(2 * ONE, MAX_ACCRUAL_SECONDS);
    var week := CompoundInterest(2 * ONE, MAX_ACCRUAL_SECONDS).value;
    MulLe(b, c, week);
    DivMono(b * week, c * week, ONE);
  }

  /** A configuration that lends, and under which all the interest goes to the pool, at 200%. */
  const DEAREST := Config(false, true, 1, 2, 20_000, 20_001, 20_002, 20_003, 0, 0, 2)

  /** One instruction charges a week of interest and no more. */
  function ChargeAWeek(p: Pool): Instruction {
    Collect(p.accruedUntil + MAX_ACCRUAL_SECONDS + 1)
  }

  lemma AWeekCharged(l: Ledger)
    requires l.pool.depositNotes == 0 && l.pool.config == DEAREST && RoomToAccrue(l.pool)
    ensures Execute(l, ChargeAWeek(l.pool)).pool
            == l.pool.(borrowed := l.pool.borrowed + BestWeek(l.pool.borrowed),
                       accruedUntil := l.pool.accruedUntil + MAX_ACCRUAL_SECONDS)
  {
    AccrueDefined(l.pool, ChargeAWeek(l.pool).time);
    assert InterestRate(l.pool) == Ok(2 * ONE);
  }

  /** Weeks of interest until the deficit is made up; each of them earns something, since the debt only grows. */
  lemma {:induction false} RecoveryRun(l: Ledger) returns (run: seq<Instruction>)
    requires l.pool.depositNotes == 0 && l.pool.config == DEAREST
    requires 0 < BestWeek(l.pool.borrowed) && l.pool.fees <= U192_MAX / 2
    requires Uncovered(l.pool) && ONE * (l.pool.borrowed - Net(l.pool)) <= U192_MAX
    ensures !Uncovered(Run(l, run).pool)
    decreases -Net(l.pool)
  {
    var i := ChargeAWeek(l.pool);
    AWeekCharged(l);
    BestWeekGrows(l.pool.borrowed, l.pool.borrowed + BestWeek(l.pool.borrowed));
    var next := Execute(l, i);
    if Uncovered(next.pool) {
      var rest := RecoveryRun(next);
      run := [i] + rest;
      assert run[1..] == rest;
    } else {
      run := [i];
      assert run[1..] == [];
    }
  }

  // ----- a first loan -----

  /**
   A loan of one token can be granted to a pool with next to no debt: it would not lend out all the
   tokens, the vault can pay it, and a loan note is worth something.
   */
  predicate CanLend(l: Ledger) {
    2 <= l.pool.tokens && 1 <= l.vault && l.pool.loanNotes <= ONE
  }

  /** Any debt of a token earns. */
  lemma ATokenEarns(borrowed: nat)
    requires ONE <= borrowed
    ensures 0 < BestWeek(borrowed)
  {
    SeriesBelowATwentieth(2 * ONE, MAX_ACCRUAL_SECONDS);
    var x := 2 * ONE * MAX_ACCRUAL_SECONDS / SECONDS_PER_YEAR;
    Expm1Monotone(x, x, 1, 10);
    var week := CompoundInterest(2 * ONE, MAX_ACCRUAL_SECONDS).value;
    assert 1 <= week;
    MulLe(ONE, borrowed, week);
    DivAtLeast(borrowed * week, ONE, 1);
  }

  lemma SmallDebtLoanRate(p: Pool)
    requires p.borrowed < ONE && p.loanNotes <= U64_MAX
    ensures LoanNoteExchangeRate(p).Ok?
    ensures 0 < LoanNoteExchangeRate(p).value <==> p.loanNotes <= ONE
    ensures LoanNoteExchangeRate(p).value <= ONE
  {
    LoanRateQuotesDebt(p);
    var rate, n := LoanNoteExchangeRate(p).value, Max(1, p.loanNotes);
    if 0 < rate { MulLe(1, rate, n); }
    MulLe(1, n, rate);
  }

  lemma OneTokenOfLoanNotes(rate: nat)
    requires 0 < rate <= ONE
    ensures ConvertAtRate(Tokens(1), Up, rate).Ok?
    ensures ConvertAtRate(Tokens(1), Up, rate).value.tokens == 1
    ensures 0 < ConvertAtRate(Tokens(1), Up, rate).value.notes <= ONE
  {
    MulLe(1, rate, ONE * ONE + 1);
    WithinNotesConverts(1, rate, ONE);
  }

  lemma HalfIsLent(borrowed: nat, value: nat)
    requires borrowed < ONE && borrowed + 2 * ONE <= value
    ensures 0 <= (borrowed + ONE) * ONE / value / BPS <= 9_500
  {
    var u := (borrowed + ONE) * ONE / value;
    DivNonNegative((borrowed + ONE) * ONE, value);
    DivBelow((borrowed + ONE) * ONE, value, ONE * 3 / 4);
    DivBounds(u, BPS);
  }

  lemma FirstLoanRecorded(p: Pool, full: FullAmount)
    requires p.config == DEAREST && p.borrowed < ONE && 2 <= p.tokens && full.tokens == 1 && full.notes <= ONE
    requires p.loanNotes <= ONE && Value(p) <= U192_MAX
    ensures RecordBorrow(p, full) == Ok(p.(tokens := p.tokens - 1, loanNotes := p.loanNotes + full.notes,
                                           borrowed := p.borrowed + ONE))
  {
    HalfIsLent(p.borrowed, Value(p));
  }

  /** The first loan, and what it makes of the pool. */
  lemma FirstLoan(l: Ledger) returns (i: Instruction)
    requires Inv(l) && l.pool.config == DEAREST && l.pool.borrowed < ONE && CanLend(l) && Value(l.pool) <= U192_MAX
    ensures var after := Execute(l, i);
            && after.pool.borrowed == l.pool.borrowed + ONE && Net(after.pool) == Net(l.pool)
            && after.pool.fees == l.pool.fees && after.pool.depositNotes == l.pool.depositNotes
            && after.pool.config == DEAREST
  {
    var p := l.pool;
    i := MarginBorrowV2(p.accruedUntil, 1, 0, 0);
    SmallDebtLoanRate(p);
    var rate := LoanNoteExchangeRate(p).value;
    OneTokenOfLoanNotes(rate);
    var full := ConvertAtRate(Tokens(1), Up, rate).value;
    assert ConvertAmount(p, Tokens(1), Borrow) == Ok(full);
    assert ConvertAmount(p, Notes(0), Borrow) == Ok(FullAmount(0, 0));
    assert AccrueFully(p, i.time) == Ok(p);
    FirstLoanRecorded(p, full);
    assert Step(l, i).Ok?;
  }

  // ----- pools that are stuck -----

  /** Nothing to earn and nothing to lend. */
  predicate Stuck(l: Ledger) {
    && Uncovered(l.pool) && l.pool.depositNotes == 0 && l.pool.loanNotes <= U64_MAX
    && BestWeek(l.pool.borrowed) == 0 && !CanLend(l)
  }

  lemma NoInterestAtAll(p: Pool, time: int)
    requires p.depositNotes == 0 && BestWeek(p.borrowed) == 0 && Accrue(p, time).Ok?
    ensures Accrue(p, time).value.0 == p.(accruedUntil := Accrue(p, time).value.0.accruedUntil)
  {
    var step := Min(time - p.accruedUntil, MAX_ACCRUAL_SECONDS);
    if 0 < step {
      var rate := InterestRate(p).value;
      CompoundInterestMonotone(rate, step, 2 * ONE, MAX_ACCRUAL_SECONDS);
      SeriesBelowATwentieth(2 * ONE, MAX_ACCRUAL_SECONDS);
      var compound := CompoundInterest(rate, step).value;
      MulLe(compound, CompoundInterest(2 * ONE, MAX_ACCRUAL_SECONDS).value, p.borrowed);
      DivMono(p.borrowed * compound, p.borrowed * CompoundInterest(2 * ONE, MAX_ACCRUAL_SECONDS).value, ONE);
    }
  }

  /** A single token may not be lent, since it would all be lent out. */
  lemma LastTokenIsNotLent(p: Pool, full: FullAmount)
    requires p.tokens <= 1 && 0 < full.tokens
    ensures RecordBorrow(p, full).Err?
  {
    if RecordBorrow(p, full).Ok? {
      BorrowRespectsLimits(p, full, RecordBorrow(p, full).value);
    }
  }

  lemma NoLoanIsGranted(l: Ledger, i: Instruction, mid: Pool)
    requires i.MarginBorrowV2? && MarginBorrowV2Step(l, i).Ok? && AccrueFully(l.pool, i.time) == Ok(mid)
    requires mid.borrowed < ONE && mid.loanNotes <= U64_MAX && !CanLend(l.(pool := mid))
    ensures MarginBorrowV2Step(l, i).value == l.(pool := mid)
  {
    var borrow := ConvertAmount(mid, Tokens(i.tokens), Borrow).value;
    SmallDebtLoanRate(mid);
    if 0 < i.tokens && mid.tokens <= 1 { LastTokenIsNotLent(mid, borrow); }
  }

  lemma StuckStays(l: Ledger, i: Instruction)
    requires Stuck(l)
    ensures Stuck(Execute(l, i)) && SameHoldings(l, Execute(l, i))
  {
    if ONE <= l.pool.borrowed { ATokenEarns(l.pool.borrowed); }
    if Step(l, i).Ok? && Timed(i) {
      NoInterestAtAll(l.pool, i.time);
      NotQuotedWhenUncovered(Accrue(l.pool, i.time).value.0);
      if i.MarginBorrowV2? { NoLoanIsGranted(l, i, Accrue(l.pool, i.time).value.0); }
    } else if i.WithdrawFees? {
      NotQuotedWhenUncovered(l.pool);
    }
  }

  predicate SameHoldings(l: Ledger, m: Ledger) {
    && m.pool.borrowed == l.pool.borrowed && m.pool.fees == l.pool.fees && m.pool.tokens == l.pool.tokens
    && m.pool.loanNotes == l.pool.loanNotes && m.vault == l.vault
  }

  /** Such a pool keeps its debt, its fees and its tokens, whatever instructions follow. */
  lemma {:induction false} StuckForever(l: Ledger, instructions: seq<Instruction>)
    requires Stuck(l)
    ensures Stuck(Run(l, instructions)) && SameHoldings(l, Run(l, instructions))
    decreases instructions
  {
    if instructions != [] {
      StuckStays(l, instructions[0]);
      StuckForever(Execute(l, instructions[0]), instructions[1..]);
    }
  }

  // ----- when recovery is possible -----

  lemma RunCons(l: Ledger, i: Instruction, next: Ledger, rest: seq<Instruction>)
    requires Execute(l, i) == next
    ensures Run(l, [i] + rest) == Run(next, rest)
  {
    assert ([i] + rest)[0] == i && ([i] + rest)[1..] == rest;
  }

  lemma LendAndCharge(l: Ledger) returns (run: seq<Instruction>)
    requires Inv(l) && Uncovered(l.pool) && l.pool.config == DEAREST && l.pool.borrowed < ONE && CanLend(l)
    requires l.pool.fees <= U192_MAX / 2 && ONE * (l.pool.borrowed + ONE - Net(l.pool)) <= U192_MAX
    ensures !Uncovered(Run(l, run).pool)
  {
    var i := FirstLoan(l);
    ATokenEarns(l.pool.borrowed + ONE);
    var charge := RecoveryRun(Execute(l, i));
    RunCons(l, i, Execute(l, i), charge);
    run := [i] + charge;
  }

  lemma ConfigureAndCharge(l: Ledger) returns (run: seq<Instruction>)
    requires Inv(l) && Uncovered(l.pool) && (0 < BestWeek(l.pool.borrowed) || CanLend(l))
    requires l.pool.fees <= U192_MAX / 2 && ONE * (l.pool.borrowed + ONE - Net(l.pool)) <= U192_MAX
    ensures !Uncovered(Run(l, run).pool)
  {
    var c := Configure(DEAREST);
    var next := l.(pool := l.pool.(config := DEAREST));
    assert Step(l, c) == Ok(next);
    var rest;
    if 0 < BestWeek(l.pool.borrowed) {
      rest := RecoveryRun(next);
    } else {
      if ONE <= l.pool.borrowed { ATokenEarns(l.pool.borrowed); }
      rest := LendAndCharge(next);
    }
    RunCons(l, c, next, rest);
    run := [c] + rest;
  }

  /**
   An uncovered pool has a run that covers its fees again if and only if a week at 200% earns a unit
   on its debt, or a first loan can be granted.
   */
  lemma RecoveryPossible(l: Ledger)
    requires Inv(l) && Uncovered(l.pool)
    requires l.pool.fees <= U192_MAX / 2 && ONE * (l.pool.borrowed + ONE - Net(l.pool)) <= U192_MAX
    ensures (exists run :: !Uncovered(Run(l, run).pool)) <==> 0 < BestWeek(l.pool.borrowed) || CanLend(l)
  {
    if 0 < BestWeek(l.pool.borrowed) || CanLend(l) {
      var run := ConfigureAndCharge(l);
    } else {
      forall run ensures Uncovered(Run(l, run).pool) { StuckForever(l, run); }
    }
  }
}
