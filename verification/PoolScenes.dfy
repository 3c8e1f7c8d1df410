/**
 Ledgers that a new pool really gets into, each one instruction after another.

 One configuration is used throughout: all interest is a fee, and the rates are so low that a
 second of interest on one token is a single unit of 10^-15. Every scene is reached from a new
 pool; other modules use them to show that an exception to a rule does occur.
 */
module PoolScenes {
  import opened Outcomes
  import opened Rounding
  import opened FixedPoint
  import opened RateCurve
  import opened Compounding
  import opened PoolModel
  import opened PoolLedger

  // ----- reachable ledgers -----

  ghost predicate Reachable(l: Ledger) {
    exists time: int, run: seq<Instruction> :: Run(NewLedger(time), run) == l
  }

  lemma {:induction false} RunThenExecute(l: Ledger, run: seq<Instruction>, i: Instruction)
    ensures Run(l, run + [i]) == Execute(Run(l, run), i)
    decreases run
  {
    if run == [] {
      assert run + [i] == [i];
      assert [i][1..] == [];
    } else {
      RunThenExecute(Execute(l, run[0]), run[1..], i);
      assert (run + [i])[1..] == run[1..] + [i];
    }
  }

  lemma StepReaches(l: Ledger, i: Instruction, after: Ledger)
    requires Reachable(l) && Step(l, i) == Ok(after)
    ensures Reachable(after)
  {
    var time, run :| Run(NewLedger(time), run) == l;
    RunThenExecute(NewLedger(time), run, i);
  }

  // ----- the stage -----

  const CONFIG := Config(false, true, 10_000, 10_001, 0, 1, 2, 3, 10_000, 10_000, 100)

  function Scene(borrowed: nat, fees: nat, tokens: nat, depositNotes: nat, loanNotes: nat, time: int): Ledger {
    Ledger(Pool(CONFIG, borrowed, fees, tokens, depositNotes, loanNotes, time), tokens, depositNotes, loanNotes, 0, 0)
  }

  function DepositOf(time: int, tokens: nat): Instruction {
    DepositTokens(time, TokenChange(ShiftBy, tokens), tokens, 0)
  }

  function WithdrawalOf(time: int, tokens: nat, notes: nat): Instruction {
    WithdrawTokens(time, TokenChange(ShiftBy, tokens), notes, 0)
  }

  function RepaymentOf(time: int, tokens: nat, loanNotes: nat): Instruction {
    RepayTokens(time, TokenChange(ShiftBy, tokens), tokens, loanNotes)
  }

  // ----- interest that is a whole number of units -----

  lemma {:induction false} SmallPower(x: nat, k: nat)
    requires x * x < ONE && 2 <= k
    ensures Power(x, k) == 0
  {
    if k == 2 {
      assert Power(x, 1) == x;
      DivIs(x * x, ONE, 0);
    } else {
      SmallPower(x, k - 1);
    }
  }

  /** The higher terms of the series vanish for a small argument. */
  lemma {:induction false} SmallSeries(x: nat, terms: nat)
    requires x * x < ONE && 1 <= terms
    ensures Expm1(x, terms) == x
  {
    if 1 < terms {
      SmallSeries(x, terms - 1);
      SmallPower(x, terms);
      DivIs(0, Factorial(terms), 0);
    }
  }

  // ----- a deposit and a first loan -----

  lemma Opened()
    ensures Reachable(Scene(0, 0, 0, 0, 0, 0))
  {
    assert Run(NewLedger(0), []) == NewLedger(0);
    StepReaches(NewLedger(0), Configure(CONFIG), Scene(0, 0, 0, 0, 0, 0));
  }

  lemma FirstDeposit()
    ensures Step(Scene(0, 0, 0, 0, 0, 0), DepositOf(0, 2_500)) == Ok(Scene(0, 0, 2_500, 2_500, 0, 0))
  {
  }

  lemma Funded()
    ensures Reachable(Scene(0, 0, 2_500, 2_500, 0, 0))
  {
    Opened();
    FirstDeposit();
    StepReaches(Scene(0, 0, 0, 0, 0, 0), DepositOf(0, 2_500), Scene(0, 0, 2_500, 2_500, 0, 0));
  }

  lemma LendOne()
    ensures Step(Scene(0, 0, 2_500, 2_500, 0, 0), MarginBorrowV2(0, 1, 0, 0)) == Ok(Scene(ONE, 0, 2_499, 2_500, 1, 0))
  {
  }

  /** One second of interest on one token, at a rate of 4 * 10^-8 per year: a single unit. */
  lemma OneUnitOfInterest()
    ensures AccrueFully(Scene(ONE, 0, 2_499, 2_500, 1, 0).pool, 1) == Ok(Scene(ONE + 1, 1, 2_499, 2_500, 1, 1).pool)
  {
    var p := Scene(ONE, 0, 2_499, 2_500, 1, 0).pool;
    assert UtilizationRate(p) == Ok(400_000_000_000);
    assert InterestRate(p) == Ok(40_000_000);
    SmallSeries(1, 5);
    assert CompoundInterest(40_000_000, 1) == Ok(1);
  }

  lemma OwedAmounts()
    ensures var owed := Scene(ONE + 1, 1, 2_499, 2_500, 1, 1).pool;
            && ConvertAmount(owed, Tokens(2), Borrow) == Ok(FullAmount(2, 2))
            && ConvertAmount(owed, Notes(1), Deposit) == Ok(FullAmount(1, 1))
            && ConvertAmount(owed, Tokens(2), Repay) == Ok(FullAmount(2, 1))
  {
    var owed := Scene(ONE + 1, 1, 2_499, 2_500, 1, 1).pool;
    assert LoanNoteExchangeRate(owed) == Ok(ONE + 1) && DepositNoteExchangeRate(owed) == Ok(ONE);
  }

  lemma RepayTwo()
    ensures Step(Scene(ONE, 0, 2_499, 2_500, 1, 0), RepaymentOf(1, 2, 1)) == Ok(Scene(0, 1, 2_501, 2_500, 0, 1))
  {
    OneUnitOfInterest();
    OwedAmounts();
    var owed := Scene(ONE + 1, 1, 2_499, 2_500, 1, 1).pool;
    assert RecordRepay(owed, FullAmount(2, 1)) == Ok(Scene(0, 1, 2_501, 2_500, 0, 1).pool);
  }

  /** A repayment of two tokens for a debt of one token and a unit leaves the pool the rest of the second token. */
  lemma Repaid()
    ensures Reachable(Scene(0, 1, 2_501, 2_500, 0, 1))
  {
    Funded();
    LendOne();
    StepReaches(Scene(0, 0, 2_500, 2_500, 0, 0), MarginBorrowV2(0, 1, 0, 0), Scene(ONE, 0, 2_499, 2_500, 1, 0));
    RepayTwo();
    StepReaches(Scene(ONE, 0, 2_499, 2_500, 1, 0), RepaymentOf(1, 2, 1), Scene(0, 1, 2_501, 2_500, 0, 1));
  }

  // ----- down to the last note -----

  lemma WithdrawAllButOne()
    ensures Step(Scene(0, 1, 2_501, 2_500, 0, 1), WithdrawalOf(1, 2_499, 2_500)) == Ok(Scene(0, 1, 2, 1, 0, 1))
  {
    var p := Scene(0, 1, 2_501, 2_500, 0, 1).pool;
    assert DepositNoteExchangeRate(p) == Ok(1_000_399_999_999_999);
    assert ConvertAmount(p, Notes(2_500), Withdraw) == Ok(FullAmount(2_500, 2_500));
    assert ConvertAmount(p, Tokens(2_499), Withdraw) == Ok(FullAmount(2_499, 2_499));
  }

  /** One note is left, worth two tokens but for a unit. */
  lemma LastNote()
    ensures Reachable(Scene(0, 1, 2, 1, 0, 1))
  {
    Repaid();
    WithdrawAllButOne();
    StepReaches(Scene(0, 1, 2_501, 2_500, 0, 1), WithdrawalOf(1, 2_499, 2_500), Scene(0, 1, 2, 1, 0, 1));
  }

  /** It can be withdrawn for two tokens. */
  lemma LastNoteForTwo()
    ensures Step(Scene(0, 1, 2, 1, 0, 1), WithdrawalOf(1, 2, 1)) == Ok(Scene(0, 1, 0, 0, 0, 1))
  {
    LastNoteAmounts();
  }

  lemma LastNoteAmounts()
    ensures var p := Scene(0, 1, 2, 1, 0, 1).pool;
            && ConvertAmount(p, Notes(1), Withdraw) == Ok(FullAmount(1, 1))
            && ConvertAmount(p, Tokens(1), Withdraw) == Ok(FullAmount(1, 1))
            && ConvertAmount(p, Tokens(2), Withdraw) == Ok(FullAmount(2, 1))
  {
    assert DepositNoteExchangeRate(Scene(0, 1, 2, 1, 0, 1).pool) == Ok(2 * ONE - 1);
  }

  // ----- a deposit that comes back larger -----

  lemma LastNoteForOne()
    ensures Step(Scene(0, 1, 2, 1, 0, 1), WithdrawalOf(1, 1, 1)) == Ok(Scene(0, 1, 1, 0, 0, 1))
  {
    LastNoteAmounts();
  }

  lemma DepositOneMore()
    ensures Step(Scene(0, 1, 1, 0, 0, 1), DepositOf(1, 1)) == Ok(Scene(0, 1, 2, 1, 0, 1))
  {
    var p := Scene(0, 1, 1, 0, 0, 1).pool;
    assert DepositNoteExchangeRate(p) == Ok(ONE);
    assert ConvertAmount(p, Tokens(1), Deposit) == Ok(FullAmount(1, 1));
    assert ConvertAmount(p, Notes(0), Deposit) == Ok(FullAmount(0, 0));
  }

  /** No notes are left, but a token less one unit is. */
  lemma Residue()
    ensures Reachable(Scene(0, 1, 1, 0, 0, 1))
  {
    LastNote();
    LastNoteForOne();
    StepReaches(Scene(0, 1, 2, 1, 0, 1), WithdrawalOf(1, 1, 1), Scene(0, 1, 1, 0, 0, 1));
  }

  // ----- a second loan -----

  lemma LendTwo()
    ensures Step(Scene(0, 1, 2_501, 2_500, 0, 1), MarginBorrowV2(1, 2, 0, 0))
            == Ok(Scene(2 * ONE, 1, 2_499, 2_500, 2, 1))
  {
    var p := Scene(0, 1, 2_501, 2_500, 0, 1).pool;
    assert ConvertAmount(p, Tokens(2), Borrow) == Ok(FullAmount(2, 2));
    assert UtilizationRate(Scene(2 * ONE, 1, 2_499, 2_500, 2, 1).pool) == Ok(799_680_127_948);
  }

  lemma SecondLoan()
    ensures Reachable(Scene(2 * ONE, 1, 2_499, 2_500, 2, 1))
  {
    Repaid();
    LendTwo();
    StepReaches(Scene(0, 1, 2_501, 2_500, 0, 1), MarginBorrowV2(1, 2, 0, 0), Scene(2 * ONE, 1, 2_499, 2_500, 2, 1));
  }

  lemma WithdrawAllTokens()
    ensures Step(Scene(2 * ONE, 1, 2_499, 2_500, 2, 1), WithdrawalOf(1, 2_499, 2_500))
            == Ok(Scene(2 * ONE, 1, 0, 1, 2, 1))
  {
    var p := Scene(2 * ONE, 1, 2_499, 2_500, 2, 1).pool;
    assert DepositNoteExchangeRate(p) == Ok(1_000_399_999_999_999);
    assert ConvertAmount(p, Notes(2_500), Withdraw) == Ok(FullAmount(2_500, 2_500));
    assert ConvertAmount(p, Tokens(2_499), Withdraw) == Ok(FullAmount(2_499, 2_499));
  }

  const SETTLEMENT := MarginRepay(1, TokenChange(ShiftBy, 2), 1, 2)

  /** The last deposit note settles the whole loan of two tokens, although it is worth a unit less. */
  lemma SettleWithLastNote()
    ensures Step(Scene(2 * ONE, 1, 0, 1, 2, 1), SETTLEMENT) == Ok(Scene(0, 1, 0, 0, 0, 1))
  {
    var p := Scene(2 * ONE, 1, 0, 1, 2, 1).pool;
    assert DepositNoteExchangeRate(p) == Ok(2 * ONE - 1) && LoanNoteExchangeRate(p) == Ok(ONE);
    assert ConvertAmount(p, Notes(1), Withdraw) == Ok(FullAmount(1, 1));
    assert ConvertAmount(p, Notes(2), Repay) == Ok(FullAmount(2, 2));
    assert ConvertAmount(p, Tokens(2), Repay) == Ok(FullAmount(2, 2));
    assert ConvertAmount(p, Tokens(2), Withdraw) == Ok(FullAmount(2, 1));
  }

  lemma LastNoteAndLoan()
    ensures Reachable(Scene(2 * ONE, 1, 0, 1, 2, 1))
  {
    SecondLoan();
    WithdrawAllTokens();
    StepReaches(Scene(2 * ONE, 1, 2_499, 2_500, 2, 1), WithdrawalOf(1, 2_499, 2_500), Scene(2 * ONE, 1, 0, 1, 2, 1));
  }

  // ----- the same loan, with its interest left unpaid -----

  /** Two hours of interest on two tokens. */
  lemma TwoHoursOfInterest()
    ensures AccrueFully(Scene(2 * ONE, 1, 2_499, 2_500, 2, 1).pool, 7_201)
            == Ok(Scene(2 * ONE + 36_514, 36_515, 2_499, 2_500, 2, 7_201).pool)
  {
    var p := Scene(2 * ONE, 1, 2_499, 2_500, 2, 1).pool;
    assert UtilizationRate(p) == Ok(799_680_127_948);
    assert InterestRate(p) == Ok(79_968_012);
    SmallSeries(18_257, 5);
    assert CompoundInterest(79_968_012, 7_200) == Ok(18_257);
  }

  lemma PrincipalAmounts()
    ensures var owed := Scene(2 * ONE + 36_514, 36_515, 2_499, 2_500, 2, 7_201).pool;
            && ConvertAmount(owed, Tokens(2), Borrow) == Ok(FullAmount(2, 2))
            && ConvertAmount(owed, Notes(2), Deposit) == Ok(FullAmount(3, 2))
            && ConvertAmount(owed, Tokens(2), Repay) == Ok(FullAmount(2, 1))
  {
    var owed := Scene(2 * ONE + 36_514, 36_515, 2_499, 2_500, 2, 7_201).pool;
    assert LoanNoteExchangeRate(owed) == Ok(ONE + 18_257) && DepositNoteExchangeRate(owed) == Ok(1_000_399_999_999_999);
  }

  lemma RepayThePrincipal()
    ensures Step(Scene(2 * ONE, 1, 2_499, 2_500, 2, 1), RepaymentOf(7_201, 2, 2))
            == Ok(Scene(36_514, 36_515, 2_501, 2_500, 1, 7_201))
  {
    TwoHoursOfInterest();
    PrincipalAmounts();
    var owed := Scene(2 * ONE + 36_514, 36_515, 2_499, 2_500, 2, 7_201).pool;
    assert RecordRepay(owed, FullAmount(2, 1)) == Ok(Scene(36_514, 36_515, 2_501, 2_500, 1, 7_201).pool);
  }

  lemma WithdrawBesideDebt()
    ensures Step(Scene(36_514, 36_515, 2_501, 2_500, 1, 7_201), WithdrawalOf(7_201, 2_499, 2_500))
            == Ok(Scene(36_514, 36_515, 2, 1, 1, 7_201))
  {
    var p := Scene(36_514, 36_515, 2_501, 2_500, 1, 7_201).pool;
    assert DepositNoteExchangeRate(p) == Ok(1_000_399_999_999_999);
    assert ConvertAmount(p, Notes(2_500), Withdraw) == Ok(FullAmount(2_500, 2_500));
    assert ConvertAmount(p, Tokens(2_499), Withdraw) == Ok(FullAmount(2_499, 2_499));
  }

  lemma LastNoteBesideDebt()
    ensures Step(Scene(36_514, 36_515, 2, 1, 1, 7_201), WithdrawalOf(7_201, 2, 1))
            == Ok(Scene(36_514, 36_515, 0, 0, 1, 7_201))
  {
    var p := Scene(36_514, 36_515, 2, 1, 1, 7_201).pool;
    assert DepositNoteExchangeRate(p) == Ok(2 * ONE - 1);
    assert ConvertAmount(p, Notes(1), Withdraw) == Ok(FullAmount(1, 1));
    assert ConvertAmount(p, Tokens(2), Withdraw) == Ok(FullAmount(2, 1));
  }

  /** The fees exceed the value by a unit, and there is still a debt. */
  lemma UncoveredWithDebt()
    ensures Reachable(Scene(36_514, 36_515, 0, 0, 1, 7_201))
  {
    SecondLoan();
    RepayThePrincipal();
    StepReaches(Scene(2 * ONE, 1, 2_499, 2_500, 2, 1), RepaymentOf(7_201, 2, 2),
                Scene(36_514, 36_515, 2_501, 2_500, 1, 7_201));
    WithdrawBesideDebt();
    StepReaches(Scene(36_514, 36_515, 2_501, 2_500, 1, 7_201), WithdrawalOf(7_201, 2_499, 2_500),
                Scene(36_514, 36_515, 2, 1, 1, 7_201));
    LastNoteBesideDebt();
    StepReaches(Scene(36_514, 36_515, 2, 1, 1, 7_201), WithdrawalOf(7_201, 2, 1),
                Scene(36_514, 36_515, 0, 0, 1, 7_201));
  }

  /** No fee, and 200% per year. */
  const DEAR_CONFIG := Config(false, true, 10_000, 10_001, 20_000, 20_001, 20_002, 20_003, 0, 10_000, 100)

  const DEAR := Ledger(Pool(DEAR_CONFIG, 36_514, 36_515, 0, 0, 1, 7_201), 0, 0, 1, 0, 0)

  const COVERED_AGAIN := Ledger(Pool(DEAR_CONFIG, 36_515, 36_515, 0, 0, 1, 7_701), 0, 0, 1, 0, 0)

  lemma DearSeries()
    ensures Expm1(31_709_791_983, 5) == 31_710_294_743
  {
    var x := 31_709_791_983;
    assert Power(x, 1) == x;
    assert Power(x, 2) == 1_005_510;
    assert Power(x, 3) == 31;
    assert Power(x, 4) == 0;
    assert Power(x, 5) == 0;
    assert Factorial(2) == 2 && Factorial(3) == 6 && Factorial(4) == 24 && Factorial(5) == 120;
  }

  lemma InterestCovers()
    ensures AccrueFully(DEAR.pool, 7_701) == Ok(COVERED_AGAIN.pool)
  {
    assert InterestRate(DEAR.pool) == Ok(2 * ONE);
    DearSeries();
    assert CompoundInterest(2 * ONE, 500) == Ok(31_710_294_743);
  }

  lemma CollectCovers()
    ensures Step(DEAR, Collect(7_701)) == Ok(COVERED_AGAIN)
  {
    InterestCovers();
    assert DepositNoteExchangeRate(COVERED_AGAIN.pool) == Ok(ONE);
    assert ConvertAmount(COVERED_AGAIN.pool, Notes(0), Withdraw) == Ok(FullAmount(0, 0));
  }

  // ----- a loan of three tokens -----

  lemma LendThree()
    ensures Step(Scene(0, 0, 2_500, 2_500, 0, 0), MarginBorrowV2(0, 3, 0, 0))
            == Ok(Scene(3 * ONE, 0, 2_497, 2_500, 3, 0))
  {
    assert ConvertAmount(Scene(0, 0, 2_500, 2_500, 0, 0).pool, Tokens(3), Borrow) == Ok(FullAmount(3, 3));
    assert UtilizationRate(Scene(3 * ONE, 0, 2_497, 2_500, 3, 0).pool) == Ok(1_200_000_000_000);
  }

  lemma ThreeLent()
    ensures Reachable(Scene(3 * ONE, 0, 2_497, 2_500, 3, 0))
  {
    Funded();
    LendThree();
    StepReaches(Scene(0, 0, 2_500, 2_500, 0, 0), MarginBorrowV2(0, 3, 0, 0), Scene(3 * ONE, 0, 2_497, 2_500, 3, 0));
  }

  lemma NineUnitsOfInterest()
    ensures AccrueFully(Scene(3 * ONE, 0, 2_497, 2_500, 3, 0).pool, 1)
            == Ok(Scene(3 * ONE + 9, 9, 2_497, 2_500, 3, 1).pool)
  {
    var p := Scene(3 * ONE, 0, 2_497, 2_500, 3, 0).pool;
    assert UtilizationRate(p) == Ok(1_200_000_000_000);
    assert InterestRate(p) == Ok(120_000_000);
    SmallSeries(3, 5);
    assert CompoundInterest(120_000_000, 1) == Ok(3);
  }

  lemma ThreeOwedAmounts()
    ensures var owed := Scene(3 * ONE + 9, 9, 2_497, 2_500, 3, 1).pool;
            && ConvertAmount(owed, Tokens(2), Borrow) == Ok(FullAmount(2, 2))
            && ConvertAmount(owed, Tokens(3), Borrow) == Ok(FullAmount(3, 3))
            && ConvertAmount(owed, Notes(3), Deposit) == Ok(FullAmount(3, 3))
            && ConvertAmount(owed, Tokens(2), Repay) == Ok(FullAmount(2, 1))
            && ConvertAmount(owed, Tokens(3), Repay) == Ok(FullAmount(3, 2))
  {
    var owed := Scene(3 * ONE + 9, 9, 2_497, 2_500, 3, 1).pool;
    assert LoanNoteExchangeRate(owed) == Ok(ONE + 3) && DepositNoteExchangeRate(owed) == Ok(ONE);
  }

  const CLOSE_LOAN := RepayTokens(1, TokenChange(SetDestinationTo, 0), 3, 3)

  /** Setting the loan to zero burns two of its three notes. */
  lemma CloseLeavesANote()
    ensures Step(Scene(3 * ONE, 0, 2_497, 2_500, 3, 0), CLOSE_LOAN) == Ok(Scene(9, 9, 2_500, 2_500, 1, 1))
  {
    NineUnitsOfInterest();
    ThreeOwedAmounts();
    var owed := Scene(3 * ONE + 9, 9, 2_497, 2_500, 3, 1).pool;
    assert RecordRepay(owed, FullAmount(3, 2)) == Ok(Scene(9, 9, 2_500, 2_500, 1, 1).pool);
  }

  /** Repaying two tokens burns one note. */
  lemma RepayTwoOfThree()
    ensures Step(Scene(3 * ONE, 0, 2_497, 2_500, 3, 0), RepaymentOf(1, 2, 3))
            == Ok(Scene(ONE + 9, 9, 2_499, 2_500, 2, 1))
  {
    NineUnitsOfInterest();
    ThreeOwedAmounts();
    var owed := Scene(3 * ONE + 9, 9, 2_497, 2_500, 3, 1).pool;
    assert RecordRepay(owed, FullAmount(2, 1)) == Ok(Scene(ONE + 9, 9, 2_499, 2_500, 2, 1).pool);
  }

  // ----- the first loan again, under a configuration that takes no fee -----

  const FREE_CONFIG := Config(false, true, 10_000, 10_001, 0, 1, 2, 3, 0, 10_000, 100)

  function FreeScene(borrowed: nat, tokens: nat, depositNotes: nat, loanNotes: nat, time: int): Ledger {
    Ledger(Pool(FREE_CONFIG, borrowed, 0, tokens, depositNotes, loanNotes, time), tokens, depositNotes, loanNotes, 0, 0)
  }

  lemma FreeInterest()
    ensures AccrueFully(FreeScene(ONE, 2_499, 2_500, 1, 0).pool, 1) == Ok(FreeScene(ONE + 1, 2_499, 2_500, 1, 1).pool)
  {
    var p := FreeScene(ONE, 2_499, 2_500, 1, 0).pool;
    assert UtilizationRate(p) == Ok(400_000_000_000);
    assert InterestRate(p) == Ok(40_000_000);
    SmallSeries(1, 5);
    assert CompoundInterest(40_000_000, 1) == Ok(1);
  }

  lemma FreeAmounts()
    ensures var owed := FreeScene(ONE + 1, 2_499, 2_500, 1, 1).pool;
            && ConvertAmount(owed, Tokens(2), Borrow) == Ok(FullAmount(2, 2))
            && ConvertAmount(owed, Notes(1), Deposit) == Ok(FullAmount(1, 1))
            && ConvertAmount(owed, Tokens(2), Repay) == Ok(FullAmount(2, 1))
  {
    var owed := FreeScene(ONE + 1, 2_499, 2_500, 1, 1).pool;
    assert LoanNoteExchangeRate(owed) == Ok(ONE + 1) && DepositNoteExchangeRate(owed) == Ok(ONE);
  }

  lemma FreeRepayment()
    ensures Step(FreeScene(ONE, 2_499, 2_500, 1, 0), RepaymentOf(1, 2, 1)) == Ok(FreeScene(0, 2_501, 2_500, 0, 1))
  {
    FreeInterest();
    FreeAmounts();
    var owed := FreeScene(ONE + 1, 2_499, 2_500, 1, 1).pool;
    assert RecordRepay(owed, FullAmount(2, 1)) == Ok(FreeScene(0, 2_501, 2_500, 0, 1).pool);
  }

  lemma FreeWithdrawals()
    ensures Step(FreeScene(0, 2_501, 2_500, 0, 1), WithdrawalOf(1, 2_499, 2_500)) == Ok(FreeScene(0, 2, 1, 0, 1))
    ensures Step(FreeScene(0, 2, 1, 0, 1), WithdrawalOf(1, 1, 1)) == Ok(FreeScene(0, 1, 0, 0, 1))
  {
    var p, q := FreeScene(0, 2_501, 2_500, 0, 1).pool, FreeScene(0, 2, 1, 0, 1).pool;
    assert DepositNoteExchangeRate(p) == Ok(1_000_400_000_000_000) && DepositNoteExchangeRate(q) == Ok(2 * ONE);
    assert ConvertAmount(p, Notes(2_500), Withdraw) == Ok(FullAmount(2_501, 2_500));
    assert ConvertAmount(p, Tokens(2_499), Withdraw) == Ok(FullAmount(2_499, 2_499));
    assert ConvertAmount(q, Notes(1), Withdraw) == Ok(FullAmount(2, 1));
    assert ConvertAmount(q, Tokens(1), Withdraw) == Ok(FullAmount(1, 1));
  }

  /** No notes are left, but a whole token is. */
  lemma WholeTokenLeft()
    ensures Reachable(FreeScene(0, 1, 0, 0, 1))
  {
    Funded();
    LendOne();
    StepReaches(Scene(0, 0, 2_500, 2_500, 0, 0), MarginBorrowV2(0, 1, 0, 0), Scene(ONE, 0, 2_499, 2_500, 1, 0));
    StepReaches(Scene(ONE, 0, 2_499, 2_500, 1, 0), Configure(FREE_CONFIG), FreeScene(ONE, 2_499, 2_500, 1, 0));
    FreeRepayment();
    StepReaches(FreeScene(ONE, 2_499, 2_500, 1, 0), RepaymentOf(1, 2, 1), FreeScene(0, 2_501, 2_500, 0, 1));
    FreeWithdrawals();
    StepReaches(FreeScene(0, 2_501, 2_500, 0, 1), WithdrawalOf(1, 2_499, 2_500), FreeScene(0, 2, 1, 0, 1));
    StepReaches(FreeScene(0, 2, 1, 0, 1), WithdrawalOf(1, 1, 1), FreeScene(0, 1, 0, 0, 1));
  }

  lemma FreeDeposit()
    ensures Step(FreeScene(0, 1, 0, 0, 1), DepositOf(1, 1)) == Ok(FreeScene(0, 2, 1, 0, 1))
  {
    var p := FreeScene(0, 1, 0, 0, 1).pool;
    assert DepositNoteExchangeRate(p) == Ok(ONE);
    assert ConvertAmount(p, Tokens(1), Deposit) == Ok(FullAmount(1, 1));
    assert ConvertAmount(p, Notes(0), Deposit) == Ok(FullAmount(0, 0));
  }

  /** The one note withdraws both tokens. */
  lemma FreeExit()
    ensures Step(FreeScene(0, 2, 1, 0, 1), WithdrawTokens(1, TokenChange(SetSourceTo, 0), 1, 0))
            == Ok(FreeScene(0, 0, 0, 0, 1))
  {
    var p := FreeScene(0, 2, 1, 0, 1).pool;
    assert DepositNoteExchangeRate(p) == Ok(2 * ONE);
    assert ConvertAmount(p, Notes(1), Withdraw) == Ok(FullAmount(2, 1));
    assert ConvertAmount(p, Tokens(2), Withdraw) == Ok(FullAmount(2, 1));
  }
}
