/**
 The instructions of the margin-pool program, each as one step of a ledger.

 The ledger holds the pool, the balance of its vault and the supplies of the two note mints. The
 token accounts of the user enter a step as balances; the token program refuses to move or burn
 more than an account holds. An instruction that fails leaves no trace.
 */
module PoolLedger {
  import opened Outcomes
  import opened FixedPoint
  import opened RateCurve
  import opened PoolModel

  /** The last two fields add up what the `FeesWithdrawn` events report. */
  datatype Ledger = Ledger(
    pool: Pool,
    vault: nat,
    depositSupply: nat,
    loanSupply: nat,
    feeNotesWithdrawn: nat,
    feeTokensWithdrawn: nat)

  datatype Instruction =
    | DepositTokens(time: int, change: TokenChange, sourceTokens: nat, destinationNotes: nat)
    | WithdrawTokens(time: int, change: TokenChange, sourceNotes: nat, destinationTokens: nat)
    | MarginBorrow(time: int, change: TokenChange, loanNotes: nat, depositNotes: nat)
    | MarginBorrowV2(time: int, tokens: nat, loanNotes: nat, destinationTokens: nat)
    | RepayTokens(time: int, change: TokenChange, sourceTokens: nat, loanNotes: nat)
    | MarginRepay(time: int, change: TokenChange, depositNotes: nat, loanNotes: nat)
    | Collect(time: int)
    | WithdrawFees(feeNotes: nat)
    | Configure(config: Config)

  /** A pool that was just created: nothing in it, and the default configuration. */
  const EMPTY_CONFIG := Config(false, false, 0, 0, 0, 0, 0, 0, 0, 0, 0)

  function EmptyPool(time: int): Pool {
    Pool(EMPTY_CONFIG, 0, 0, 0, 0, 0, time)
  }

  function NewLedger(time: int): Ledger {
    Ledger(EmptyPool(time), 0, 0, 0, 0, 0)
  }

  /** Taking `amount` out of an account or a supply that holds `balance`. */
  function Take(balance: nat, amount: nat): Result<nat> {
    SubU64(balance, amount, TokenProgramError)
  }

  /** Burning notes from an account, which must hold them, and from the supply. */
  function Burn(supply: nat, balance: nat, notes: nat): Result<nat> {
    var _ :- Take(balance, notes);
    Take(supply, notes)
  }

  function CheckEnabled(p: Pool): Result<()> {
    Require(!p.config.disabled, Disabled)
  }

  function DepositStep(l: Ledger, i: Instruction): Result<Ledger>
    requires i.DepositTokens?
  {
    var pool :- AccrueFully(l.pool, i.time);
    var source :- ConvertAmount(pool, Tokens(i.sourceTokens), Deposit);
    var destination :- ConvertAmount(pool, Notes(i.destinationNotes), Deposit);
    var amount :- CalculateFullAmount(pool, source, destination, i.change, Deposit);
    var pool :- RecordDeposit(pool, amount);
    var _ :- CheckEnabled(pool);
    var _ :- Take(i.sourceTokens, amount.tokens);
    var vault :- AddU64(l.vault, amount.tokens);
    var supply :- AddU64(l.depositSupply, amount.notes);
    Ok(l.(pool := pool, vault := vault, depositSupply := supply))
  }

  function WithdrawStep(l: Ledger, i: Instruction): Result<Ledger>
    requires i.WithdrawTokens?
  {
    var pool :- AccrueFully(l.pool, i.time);
    var source :- ConvertAmount(pool, Notes(i.sourceNotes), Withdraw);
    var destination := FullAmount(i.destinationTokens, i.destinationTokens);
    var amount :- CalculateFullAmount(pool, source, destination, i.change, Withdraw);
    var pool :- RecordWithdraw(pool, amount);
    var _ :- CheckEnabled(pool);
    var vault :- Take(l.vault, amount.tokens);
    var supply :- Burn(l.depositSupply, i.sourceNotes, amount.notes);
    Ok(l.(pool := pool, vault := vault, depositSupply := supply))
  }

  function MarginBorrowStep(l: Ledger, i: Instruction): Result<Ledger>
    requires i.MarginBorrow?
  {
    var pool :- AccrueFully(l.pool, i.time);
    var source :- ConvertAmount(pool, Notes(i.loanNotes), Borrow);
    var destination :- ConvertAmount(pool, Notes(i.depositNotes), Deposit);
    var borrow :- CalculateFullAmount(pool, source, destination, i.change, Borrow);
    var pool :- RecordBorrow(pool, borrow);
    var deposit :- ConvertAmount(pool, Tokens(borrow.tokens), Deposit);
    var pool :- RecordDeposit(pool, deposit);
    var _ :- CheckEnabled(pool);
    var loanSupply :- AddU64(l.loanSupply, borrow.notes);
    var depositSupply :- AddU64(l.depositSupply, deposit.notes);
    Ok(l.(pool := pool, loanSupply := loanSupply, depositSupply := depositSupply))
  }

  function MarginBorrowV2Step(l: Ledger, i: Instruction): Result<Ledger>
    requires i.MarginBorrowV2?
  {
    var pool :- AccrueFully(l.pool, i.time);
    var source :- ConvertAmount(pool, Notes(i.loanNotes), Borrow);
    var destination := FullAmount(i.destinationTokens, i.destinationTokens);
    var borrow :- CalculateFullAmount(pool, source, destination, TokenChange(ShiftBy, i.tokens), Borrow);
    var pool :- RecordBorrow(pool, borrow);
    var _ :- CheckEnabled(pool);
    var supply :- AddU64(l.loanSupply, borrow.notes);
    var vault :- Take(l.vault, borrow.tokens);
    Ok(l.(pool := pool, loanSupply := supply, vault := vault))
  }

  /** The loan account's notes are valued with the deposit rate, as the source does. */
  function RepayStep(l: Ledger, i: Instruction): Result<Ledger>
    requires i.RepayTokens?
  {
    var pool :- AccrueFully(l.pool, i.time);
    var source :- ConvertAmount(pool, Tokens(i.sourceTokens), Borrow);
    var destination :- ConvertAmount(pool, Notes(i.loanNotes), Deposit);
    var repay :- CalculateFullAmount(pool, source, destination, i.change, Repay);
    var pool :- RecordRepay(pool, repay);
    var _ :- CheckEnabled(pool);
    var _ :- Take(i.sourceTokens, repay.tokens);
    var vault :- AddU64(l.vault, repay.tokens);
    var supply :- Burn(l.loanSupply, i.loanNotes, repay.notes);
    Ok(l.(pool := pool, vault := vault, loanSupply := supply))
  }

  function MarginRepayStep(l: Ledger, i: Instruction): Result<Ledger>
    requires i.MarginRepay?
  {
    var pool :- AccrueFully(l.pool, i.time);
    var source :- ConvertAmount(pool, Notes(i.depositNotes), Withdraw);
    var destination :- ConvertAmount(pool, Notes(i.loanNotes), Repay);
    var repay :- CalculateFullAmount(pool, source, destination, i.change, Repay);
    var withdraw :- ConvertAmount(pool, Tokens(repay.tokens), Withdraw);
    var pool :- RecordMarginRepay(pool, repay, withdraw);
    var _ :- CheckEnabled(pool);
    var loanSupply :- Burn(l.loanSupply, i.loanNotes, repay.notes);
    var depositSupply :- Burn(l.depositSupply, i.depositNotes, withdraw.notes);
    Ok(l.(pool := pool, loanSupply := loanSupply, depositSupply := depositSupply))
  }

  /** Accrual that cannot catch up in one call is kept; the fees are then left for a later collection. */
  function CollectStep(l: Ledger, i: Instruction): Result<Ledger>
    requires i.Collect?
  {
    var (pool, done) :- Accrue(l.pool, i.time);
    if !done then Ok(l.(pool := pool)) else
    var (pool, feeNotes) :- CollectFees(pool);
    var _ :- CheckEnabled(pool);
    var supply :- AddU64(l.depositSupply, feeNotes);
    var _ :- ConvertAmount(pool, Notes(feeNotes), Withdraw);
    var _ :- ConvertAmount(pool, Notes(l.vault), Withdraw);
    Ok(l.(pool := pool, depositSupply := supply))
  }

  /** Pays out and burns the collected fee notes; the pool itself is only read. */
  function WithdrawFeesStep(l: Ledger, i: Instruction): Result<Ledger>
    requires i.WithdrawFees?
  {
    var _ :- CheckEnabled(l.pool);
    var claimed :- ConvertAmount(l.pool, Notes(i.feeNotes), Withdraw);
    var vault :- Take(l.vault, claimed.tokens);
    var supply :- Burn(l.depositSupply, i.feeNotes, claimed.notes);
    Ok(l.(vault := vault, depositSupply := supply,
          feeNotesWithdrawn := l.feeNotesWithdrawn + claimed.notes,
          feeTokensWithdrawn := l.feeTokensWithdrawn + claimed.tokens))
  }

  function ConfigureStep(l: Ledger, i: Instruction): Result<Ledger>
    requires i.Configure?
  {
    var _ :- CheckConfig(i.config);
    Ok(l.(pool := l.pool.(config := i.config)))
  }

  function Step(l: Ledger, i: Instruction): Result<Ledger> {
    match i
    case DepositTokens(_, _, _, _) => DepositStep(l, i)
    case WithdrawTokens(_, _, _, _) => WithdrawStep(l, i)
    case MarginBorrow(_, _, _, _) => MarginBorrowStep(l, i)
    case MarginBorrowV2(_, _, _, _) => MarginBorrowV2Step(l, i)
    case RepayTokens(_, _, _, _) => RepayStep(l, i)
    case MarginRepay(_, _, _, _) => MarginRepayStep(l, i)
    case Collect(_) => CollectStep(l, i)
    case WithdrawFees(_) => WithdrawFeesStep(l, i)
    case Configure(_) => ConfigureStep(l, i)
  }

  /** A transaction: the step, or nothing at all when it fails. */
  function Execute(l: Ledger, i: Instruction): Ledger {
    match Step(l, i)
    case Ok(after) => after
    case Err(_) => l
  }

  function Run(l: Ledger, instructions: seq<Instruction>): Ledger
    decreases instructions
  {
    if instructions == [] then l
    else Run(Execute(l, instructions[0]), instructions[1..])
  }
}
