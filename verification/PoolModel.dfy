/**
 The accounting of a margin pool: a lending vault whose deposits and loans are held as notes.

 `Pool` is the state of `MarginPool`; every operation is a function from the state before it to the
 state after it. `MarginPoolProgram.dfy` holds the class that updates the same state in place.
 */
module PoolModel {
  import opened Outcomes
  import opened Rounding
  import opened FixedPoint
  import opened RateCurve
  import opened Compounding

  const MAX_POOL_UTIL_RATIO_AFTER_BORROW_BPS: nat := 9_500

  /** `borrowed` and `fees` are `Number`s, in units of 10^-15 token; the rest are whole tokens and notes. */
  datatype Pool = Pool(
    config: Config,
    borrowed: nat,
    fees: nat,
    tokens: nat,
    depositNotes: nat,
    loanNotes: nat,
    accruedUntil: int)

  datatype Amount = Tokens(value: nat) | Notes(value: nat)

  datatype FullAmount = FullAmount(tokens: nat, notes: nat)

  datatype PoolAction = Borrow | Deposit | Repay | Withdraw

  datatype RoundingDirection = Down | Up

  datatype ChangeKind = SetSourceTo | SetDestinationTo | ShiftBy

  datatype TokenChange = TokenChange(kind: ChangeKind, tokens: nat)

  // ----- value -----

  /** Everything the pool owns or is owed. */
  function Value(p: Pool): nat {
    p.borrowed + p.tokens * ONE
  }

  /** What is left for the holders of deposit notes once the uncollected fees are set aside. */
  function Net(p: Pool): int {
    Value(p) - p.fees
  }

  function TotalValue(p: Pool): Result<nat> {
    var tokens :- FromInt(p.tokens);
    Add(p.borrowed, tokens)
  }

  function UtilizationRate(p: Pool): Result<nat> {
    var total :- TotalValue(p);
    Div(p.borrowed, total)
  }

  function InterestRate(p: Pool): Result<nat> {
    if p.depositNotes == 0 then Ok(FromBps(p.config.borrowRate0)) else
    var utilization :- UtilizationRate(p);
    BorrowRate(p.config, utilization)
  }

  function DepositNoteExchangeRate(p: Pool): Result<nat> {
    var total :- TotalValue(p);
    var net :- Sub(total, p.fees);
    var notes :- FromInt(Max(1, p.depositNotes));
    Div(Max(ONE, net), notes)
  }

  function LoanNoteExchangeRate(p: Pool): Result<nat> {
    var notes :- FromInt(Max(1, p.loanNotes));
    Div(Max(ONE, p.borrowed), notes)
  }

  // ----- converting between tokens and notes -----

  function Direction(action: PoolAction, amount: Amount): RoundingDirection {
    match (action, amount)
    case (Borrow, Tokens(_)) => Up
    case (Deposit, Notes(_)) => Up
    case (Repay, Notes(_)) => Up
    case (Withdraw, Tokens(_)) => Up
    case _ => Down
  }

  function Round(x: nat, rounding: RoundingDirection): Result<nat> {
    match rounding
    case Down => AsU64(x, ONE)
    case Up => AsU64Ceil(x)
  }

  function ConvertAtRate(amount: Amount, rounding: RoundingDirection, rate: nat): Result<FullAmount> {
    var number :- FromInt(amount.value);
    match amount
    case Tokens(tokens) =>
      var exact :- Div(number, rate);
      var notes :- Round(exact, rounding);
      Ok(FullAmount(tokens, notes))
    case Notes(notes) =>
      var exact :- Mul(number, rate);
      var tokens :- Round(exact, rounding);
      Ok(FullAmount(tokens, notes))
  }

  function RateFor(p: Pool, action: PoolAction): Result<nat> {
    match action
    case Deposit => DepositNoteExchangeRate(p)
    case Withdraw => DepositNoteExchangeRate(p)
    case Repay => LoanNoteExchangeRate(p)
    case Borrow => LoanNoteExchangeRate(p)
  }

  function ConvertAmount(p: Pool, amount: Amount, action: PoolAction): Result<FullAmount> {
    var rate :- RateFor(p, action);
    var full :- ConvertAtRate(amount, Direction(action, amount), rate);
    var _ :- Require(full.notes == 0 <==> full.tokens == 0, InvalidAmount);
    Ok(full)
  }

  /** The tokens to move so that the source or the destination ends at the target. */
  function SetDifference(
    kind: ChangeKind, source: FullAmount, destination: FullAmount, target: nat, action: PoolAction): Result<nat>
  {
    match (action, kind)
    case (_, ShiftBy) => Err(InvalidSetTo)
    case (Borrow, SetDestinationTo) => SubU64(target, destination.tokens, SetMathOp)
    case (Deposit, SetDestinationTo) => SubU64(target, destination.tokens, SetMathOp)
    case (Repay, SetDestinationTo) => SubU64(destination.tokens, target, SetMathOp)
    case (Withdraw, SetDestinationTo) => SubU64(target, destination.tokens, SetMathOp)
    case (Borrow, SetSourceTo) => SubU64(target, source.tokens, SetMathOp)
    case (Deposit, SetSourceTo) => SubU64(source.tokens, target, SetMathOp)
    case (Repay, SetSourceTo) =>
      var drain :- SubU64(source.tokens, target, SetMathOp);
      Ok(Min(destination.tokens, drain))
    case (Withdraw, SetSourceTo) => SubU64(source.tokens, target, SetMathOp)
  }

  function CalculateFullAmount(
    p: Pool, source: FullAmount, destination: FullAmount, change: TokenChange, action: PoolAction): Result<FullAmount>
  {
    if change.kind == ShiftBy then ConvertAmount(p, Tokens(change.tokens), action) else
    var tokens :- SetDifference(change.kind, source, destination, change.tokens, action);
    ConvertAmount(p, Tokens(tokens), action)
  }

  // ----- recording operations -----

  function RecordDeposit(p: Pool, amount: FullAmount): Result<Pool> {
    var tokens :- AddU64(p.tokens, amount.tokens);
    var _ :- Require(tokens <= p.config.depositLimit, DepositLimitReached);
    var notes :- AddU64(p.depositNotes, amount.notes);
    Ok(p.(tokens := tokens, depositNotes := notes))
  }

  function RecordWithdraw(p: Pool, amount: FullAmount): Result<Pool> {
    var tokens :- SubU64(p.tokens, amount.tokens, InsufficientLiquidity);
    var notes :- SubU64(p.depositNotes, amount.notes, InsufficientLiquidity);
    Ok(p.(tokens := tokens, depositNotes := notes))
  }

  function RecordBorrow(p: Pool, amount: FullAmount): Result<Pool> {
    var _ :- Require(p.config.allowLending, DepositsOnly);
    var tokens :- SubU64(p.tokens, amount.tokens, InsufficientLiquidity);
    var notes :- AddU64(p.loanNotes, amount.notes);
    var number :- FromInt(amount.tokens);
    var borrowed :- Add(p.borrowed, number);
    var limit :- FromInt(p.config.borrowLimit);
    var _ :- Require(borrowed <= limit, BorrowLimitReached);
    var after := p.(tokens := tokens, loanNotes := notes, borrowed := borrowed);
    var utilization :- UtilizationRate(after);
    var bps :- AsU64(utilization, BPS);
    var _ :- Require(bps <= MAX_POOL_UTIL_RATIO_AFTER_BORROW_BPS, ExceedsMaxBorrowUtilRatio);
    Ok(after)
  }

  /** The guard against repaying more than is owed, and the debt that is left. */
  function ReduceDebt(borrowed: nat, tokens: nat): Result<nat> {
    var owed :- AsU64Ceil(borrowed);
    var _ :- Require(tokens <= owed, RepaymentExceedsTotalOutstanding);
    Ok(SaturatingSub(borrowed, tokens * ONE))
  }

  function RecordRepay(p: Pool, amount: FullAmount): Result<Pool> {
    var tokens :- AddU64(p.tokens, amount.tokens);
    var notes :- SubU64(p.loanNotes, amount.notes, InsufficientLiquidity);
    var borrowed :- ReduceDebt(p.borrowed, amount.tokens);
    Ok(p.(tokens := tokens, loanNotes := notes, borrowed := borrowed))
  }

  function RecordMarginRepay(p: Pool, repay: FullAmount, withdraw: FullAmount): Result<Pool> {
    var deposit :- SubU64(p.depositNotes, withdraw.notes, InsufficientLiquidity);
    var loan :- SubU64(p.loanNotes, repay.notes, InsufficientLiquidity);
    var borrowed :- ReduceDebt(p.borrowed, repay.tokens);
    Ok(p.(depositNotes := deposit, loanNotes := loan, borrowed := borrowed))
  }

  // ----- interest and fees -----

  /** One call of `accrue_interest`: the state after it, and whether it caught up with `time`. */
  function Accrue(p: Pool, time: int): Result<(Pool, bool)> {
    var behind := time - p.accruedUntil;
    var step := Min(behind, MAX_ACCRUAL_SECONDS);
    if step < 0 then Err(Panic)
    else if step == 0 then Ok((p, true))
    else
      var rate :- InterestRate(p);
      var compound :- CompoundInterest(rate, step);
      var interest :- Mul(p.borrowed, compound);
      var fee :- Mul(interest, FromBps(p.config.managementFeeRate));
      var borrowed :- Add(p.borrowed, interest);
      var fees :- Add(p.fees, fee);
      Ok((p.(borrowed := borrowed, fees := fees, accruedUntil := p.accruedUntil + step), behind == step))
  }

  /** How an instruction accrues: it fails unless interest is up to date afterwards. */
  function AccrueFully(p: Pool, time: int): Result<Pool> {
    var (after, done) :- Accrue(p, time);
    var _ :- Require(done, InterestAccrualBehind);
    Ok(after)
  }

  /** The state after `collect_accrued_fees`, and the notes to mint for the fees. */
  function CollectFees(p: Pool): Result<(Pool, nat)> {
    var rate :- DepositNoteExchangeRate(p);
    var exact :- Div(p.fees, rate);
    var notes :- AsU64(exact, ONE);
    if notes == 0 then Ok((p, 0)) else
    var collected :- Mul(notes * ONE, rate);
    var remainder :- Sub(p.fees, collected);
    var total :- AddU64(p.depositNotes, notes);
    Ok((p.(fees := remainder, depositNotes := total), notes))
  }
}
