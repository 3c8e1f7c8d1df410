/**
 What each instruction moves: which account a change is measured on, at which rate its notes are
 valued, and how many notes are minted or burned for the tokens.

 The lemmas say it in terms of the balances of the instruction, the rates quoted once interest has
 accrued, and the ledger before and after.
 */
module PoolAmounts {
  import opened Outcomes
  import opened Rounding
  import opened FixedPoint
  import opened PoolModel
  import opened NoteRounding
  import opened PoolSafety
  import opened PoolLedger
  import opened PoolRuns

  /** All the notes that the tokens pay for in full. */
  predicate PaidInFull(notes: int, tokens: int, rate: nat) {
    notes * rate <= tokens * ONE < notes * rate + rate
  }

  /** The fewest notes n with tokens * 10^30 < (n * 10^15 + 1) * rate: worth the tokens, but for the slack. */
  ghost predicate FewestFor(notes: int, tokens: int, rate: nat) {
    && 0 <= notes && tokens * ONE * ONE < (notes * ONE + 1) * rate
    && (0 < notes ==> ((notes - 1) * ONE + 1) * rate <= tokens * ONE * ONE)
  }

  lemma FewestNotes(tokens: nat, rate: nat, full: FullAmount)
    requires ConvertAtRate(Tokens(tokens), Up, rate) == Ok(full)
    ensures FewestFor(full.notes, tokens, rate)
  {
    UpNotesAtMost(tokens, rate, full, full.notes);
    if 0 < full.notes { UpNotesAtMost(tokens, rate, full, full.notes - 1); }
  }

  lemma WorthDown(notes: nat, rate: nat, full: FullAmount)
    requires ConvertAtRate(Notes(notes), Down, rate) == Ok(full)
    ensures full == FullAmount(FloorValue(notes, rate), notes)
  {
    DownFromNotes(notes, rate, full);
    DivIs(notes * rate, ONE, full.tokens);
  }

  lemma WorthUp(notes: nat, rate: nat, full: FullAmount)
    requires ConvertAtRate(Notes(notes), Up, rate) == Ok(full)
    ensures full == FullAmount(CeilValue(notes, rate), notes)
  {
    UpFromNotes(notes, rate, full);
    DivIs(notes * rate + ONE - 1, ONE, full.tokens);
  }

  /** The instruction was executed: what it did, after accruing interest up to its time. */
  predicate Done(l: Ledger, i: Instruction, time: int, mid: Pool, after: Ledger) {
    Step(l, i) == Ok(after) && AccrueFully(l.pool, time) == Ok(mid)
  }

  // ----- deposit -----

  /**
   A deposit moves tokens from the wallet: all but the target, or as many as the value of the deposit
   account (at the deposit rate, rounded up) is below the target, or the given number. It mints the
   notes they pay for at the deposit rate.
   */
  lemma DepositMoves(l: Ledger, i: Instruction, mid: Pool, after: Ledger, rate: nat)
    requires i.DepositTokens? && Done(l, i, i.time, mid, after) && DepositNoteExchangeRate(mid) == Ok(rate)
    ensures var tokens := after.vault - l.vault;
            && tokens == (match i.change.kind
                          case SetSourceTo => i.sourceTokens - i.change.tokens
                          case SetDestinationTo => i.change.tokens - CeilValue(i.destinationNotes, rate)
                          case ShiftBy => i.change.tokens)
            && 0 <= tokens <= i.sourceTokens && PaidInFull(after.depositSupply - l.depositSupply, tokens, rate)
            && after.loanSupply == l.loanSupply && after.pool.tokens == mid.tokens + tokens
            && !mid.config.disabled && mid.tokens + tokens <= mid.config.depositLimit
  {
    var source := ConvertAmount(mid, Tokens(i.sourceTokens), Deposit).value;
    var destination := ConvertAmount(mid, Notes(i.destinationNotes), Deposit).value;
    var full := CalculateFullAmount(mid, source, destination, i.change, Deposit).value;
    FullAmountIsConverted(mid, source, destination, i.change, Deposit, full);
    DownFromTokens(i.sourceTokens, rate, source);
    WorthUp(i.destinationNotes, rate, destination);
    DownFromTokens(full.tokens, rate, full);
  }

  // ----- withdraw -----

  /**
   A withdrawal moves tokens to the wallet: the value of the deposit account (at the deposit rate,
   rounded down) beyond the target, or as many as the wallet is below the target, or the given
   number. It burns the fewest notes for them.
   */
  lemma WithdrawMoves(l: Ledger, i: Instruction, mid: Pool, after: Ledger, rate: nat)
    requires i.WithdrawTokens? && Done(l, i, i.time, mid, after) && DepositNoteExchangeRate(mid) == Ok(rate)
    ensures var tokens, burned := l.vault - after.vault, l.depositSupply - after.depositSupply;
            && tokens == (match i.change.kind
                          case SetSourceTo => FloorValue(i.sourceNotes, rate) - i.change.tokens
                          case SetDestinationTo => i.change.tokens - i.destinationTokens
                          case ShiftBy => i.change.tokens)
            && 0 <= tokens <= mid.tokens && FewestFor(burned, tokens, rate) && burned <= i.sourceNotes
            && after.loanSupply == l.loanSupply && after.pool.tokens == mid.tokens - tokens && !mid.config.disabled
  {
    var source := ConvertAmount(mid, Notes(i.sourceNotes), Withdraw).value;
    var destination := FullAmount(i.destinationTokens, i.destinationTokens);
    var full := CalculateFullAmount(mid, source, destination, i.change, Withdraw).value;
    FullAmountIsConverted(mid, source, destination, i.change, Withdraw, full);
    WorthDown(i.sourceNotes, rate, source);
    FewestNotes(full.tokens, rate, full);
  }

  // ----- margin borrow -----

  /** What a loan moves: the account that is set is short of its target by that much. */
  lemma LoanChange(p: Pool, source: FullAmount, destination: FullAmount, change: TokenChange, full: FullAmount)
    requires CalculateFullAmount(p, source, destination, change, Borrow) == Ok(full)
    ensures full.tokens == (match change.kind
                            case SetSourceTo => change.tokens - source.tokens
                            case SetDestinationTo => change.tokens - destination.tokens
                            case ShiftBy => change.tokens)
    ensures ConvertAmount(p, Tokens(full.tokens), Borrow) == Ok(full)
  {
  }

  /** What a repayment moves: the source beyond its target, but no more than the loan, or the loan beyond its target. */
  lemma RepaymentChange(p: Pool, source: FullAmount, destination: FullAmount, change: TokenChange, full: FullAmount)
    requires CalculateFullAmount(p, source, destination, change, Repay) == Ok(full)
    ensures full.tokens == (match change.kind
                            case SetSourceTo => Min(destination.tokens, source.tokens - change.tokens)
                            case SetDestinationTo => destination.tokens - change.tokens
                            case ShiftBy => change.tokens)
    ensures change.kind == SetSourceTo ==> change.tokens <= source.tokens
    ensures ConvertAmount(p, Tokens(full.tokens), Repay) == Ok(full)
  {
  }

  lemma LentRate(mid: Pool, borrow: FullAmount, lent: Pool)
    requires RecordBorrow(mid, borrow) == Ok(lent) && DepositNoteExchangeRate(mid).Ok?
    ensures DepositNoteExchangeRate(lent) == DepositNoteExchangeRate(mid)
  {
    BorrowKeepsValue(mid, borrow, lent);
  }

  /** What the amounts of a loan into a deposit are. */
  lemma LoanAmounts(
    mid: Pool, i: Instruction, loan: nat, rate: nat,
    source: FullAmount, destination: FullAmount, borrow: FullAmount, lent: Pool, deposit: FullAmount, done: Pool)
    requires i.MarginBorrow? && LoanNoteExchangeRate(mid) == Ok(loan) && DepositNoteExchangeRate(mid) == Ok(rate)
    requires ConvertAmount(mid, Notes(i.loanNotes), Borrow) == Ok(source)
    requires ConvertAmount(mid, Notes(i.depositNotes), Deposit) == Ok(destination)
    requires CalculateFullAmount(mid, source, destination, i.change, Borrow) == Ok(borrow)
    requires RecordBorrow(mid, borrow) == Ok(lent) && ConvertAmount(lent, Tokens(borrow.tokens), Deposit) == Ok(deposit)
    requires RecordDeposit(lent, deposit) == Ok(done)
    ensures done.borrowed == mid.borrowed + borrow.tokens * ONE && done.tokens == mid.tokens
    ensures mid.config.allowLending && mid.tokens <= mid.config.depositLimit
    ensures borrow.tokens == (match i.change.kind
                              case SetSourceTo => i.change.tokens - FloorValue(i.loanNotes, loan)
                              case SetDestinationTo => i.change.tokens - CeilValue(i.depositNotes, rate)
                              case ShiftBy => i.change.tokens)
    ensures FewestFor(borrow.notes, borrow.tokens, loan)
    ensures PaidInFull(deposit.notes, borrow.tokens, rate)
  {
    LoanChange(mid, source, destination, i.change, borrow);
    LentRate(mid, borrow, lent);
    WorthDown(i.loanNotes, loan, source);
    WorthUp(i.depositNotes, rate, destination);
    FewestNotes(borrow.tokens, loan, borrow);
    DownFromTokens(borrow.tokens, rate, deposit);
  }

  /**
   A loan into a deposit borrows as many tokens as the loan account (at the loan rate, rounded down)
   or the deposit account (at the deposit rate, rounded up) is below the target, or the given number.
   It mints the fewest loan notes for them, and the deposit notes they pay for; the vault stays.
   */
  lemma MarginBorrowMoves(l: Ledger, i: Instruction, mid: Pool, after: Ledger, loan: nat, rate: nat)
    returns (tokens: nat)
    requires i.MarginBorrow? && Done(l, i, i.time, mid, after)
    requires LoanNoteExchangeRate(mid) == Ok(loan) && DepositNoteExchangeRate(mid) == Ok(rate)
    ensures tokens == (match i.change.kind
                       case SetSourceTo => i.change.tokens - FloorValue(i.loanNotes, loan)
                       case SetDestinationTo => i.change.tokens - CeilValue(i.depositNotes, rate)
                       case ShiftBy => i.change.tokens)
    ensures after.pool.borrowed == mid.borrowed + tokens * ONE && after.pool.tokens == mid.tokens
    ensures after.vault == l.vault && FewestFor(after.loanSupply - l.loanSupply, tokens, loan)
    ensures PaidInFull(after.depositSupply - l.depositSupply, tokens, rate)
    ensures !mid.config.disabled && mid.config.allowLending && mid.tokens <= mid.config.depositLimit
  {
    var source := ConvertAmount(mid, Notes(i.loanNotes), Borrow).value;
    var destination := ConvertAmount(mid, Notes(i.depositNotes), Deposit).value;
    var borrow := CalculateFullAmount(mid, source, destination, i.change, Borrow).value;
    var lent := RecordBorrow(mid, borrow).value;
    var deposit := ConvertAmount(lent, Tokens(borrow.tokens), Deposit).value;
    LoanAmounts(mid, i, loan, rate, source, destination, borrow, lent, deposit, after.pool);
    tokens := borrow.tokens;
  }

  /** A loan from the vault pays out the given number of tokens and mints the fewest loan notes for them. */
  lemma MarginBorrowV2Moves(l: Ledger, i: Instruction, mid: Pool, after: Ledger, loan: nat)
    requires i.MarginBorrowV2? && Done(l, i, i.time, mid, after) && LoanNoteExchangeRate(mid) == Ok(loan)
    ensures after.vault == l.vault - i.tokens && after.pool.tokens == mid.tokens - i.tokens
    ensures after.pool.borrowed == mid.borrowed + i.tokens * ONE && after.depositSupply == l.depositSupply
    ensures FewestFor(after.loanSupply - l.loanSupply, i.tokens, loan)
    ensures !mid.config.disabled && mid.config.allowLending
  {
    var borrow := ConvertAmount(mid, Tokens(i.tokens), Borrow).value;
    FewestNotes(i.tokens, loan, borrow);
  }

  // ----- repay -----

  lemma RepayUnfolds(l: Ledger, i: Instruction, mid: Pool, after: Ledger)
    returns (source: FullAmount, destination: FullAmount, repay: FullAmount)
    requires i.RepayTokens? && Done(l, i, i.time, mid, after)
    ensures ConvertAmount(mid, Tokens(i.sourceTokens), Borrow) == Ok(source)
    ensures ConvertAmount(mid, Notes(i.loanNotes), Deposit) == Ok(destination)
    ensures CalculateFullAmount(mid, source, destination, i.change, Repay) == Ok(repay)
    ensures RecordRepay(mid, repay) == Ok(after.pool) && !mid.config.disabled && repay.tokens <= i.sourceTokens
    ensures after.vault == l.vault + repay.tokens && after.depositSupply == l.depositSupply
    ensures after.loanSupply == l.loanSupply - repay.notes && repay.notes <= i.loanNotes
  {
    source := ConvertAmount(mid, Tokens(i.sourceTokens), Borrow).value;
    destination := ConvertAmount(mid, Notes(i.loanNotes), Deposit).value;
    repay := CalculateFullAmount(mid, source, destination, i.change, Repay).value;
  }

  /** What the amounts of a repayment are. */
  lemma RepayAmounts(
    mid: Pool, i: Instruction, loan: nat, rate: nat, source: FullAmount, destination: FullAmount, repay: FullAmount)
    requires i.RepayTokens? && LoanNoteExchangeRate(mid) == Ok(loan) && DepositNoteExchangeRate(mid) == Ok(rate)
    requires ConvertAmount(mid, Tokens(i.sourceTokens), Borrow) == Ok(source)
    requires ConvertAmount(mid, Notes(i.loanNotes), Deposit) == Ok(destination)
    requires CalculateFullAmount(mid, source, destination, i.change, Repay) == Ok(repay)
    ensures repay.tokens == (match i.change.kind
                             case SetSourceTo => Min(CeilValue(i.loanNotes, rate), i.sourceTokens - i.change.tokens)
                             case SetDestinationTo => CeilValue(i.loanNotes, rate) - i.change.tokens
                             case ShiftBy => i.change.tokens)
    ensures i.change.kind == SetSourceTo ==> i.change.tokens <= i.sourceTokens
    ensures PaidInFull(repay.notes, repay.tokens, loan)
  {
    RepaymentChange(mid, source, destination, i.change, repay);
    UpFromTokens(i.sourceTokens, loan, source);
    WorthUp(i.loanNotes, rate, destination);
    DownFromTokens(repay.tokens, loan, repay);
  }

  /**
   A repayment moves tokens from the wallet: all but the target but no more than the loan, or the
   loan beyond the target, or the given number; the loan account is valued at the deposit rate,
   rounded up. It burns the loan notes they pay for at the loan rate.
   */
  lemma RepayMoves(l: Ledger, i: Instruction, mid: Pool, after: Ledger, loan: nat, rate: nat)
    requires i.RepayTokens? && Done(l, i, i.time, mid, after)
    requires LoanNoteExchangeRate(mid) == Ok(loan) && DepositNoteExchangeRate(mid) == Ok(rate)
    ensures var tokens, burned := after.vault - l.vault, l.loanSupply - after.loanSupply;
            var owed := CeilValue(i.loanNotes, rate);
            && tokens == (match i.change.kind
                          case SetSourceTo => Min(owed, i.sourceTokens - i.change.tokens)
                          case SetDestinationTo => owed - i.change.tokens
                          case ShiftBy => i.change.tokens)
            && 0 <= tokens <= i.sourceTokens && PaidInFull(burned, tokens, loan) && burned <= i.loanNotes
            && after.depositSupply == l.depositSupply && after.pool.tokens == mid.tokens + tokens
            && after.pool.borrowed == Max(0, mid.borrowed - tokens * ONE) && !mid.config.disabled
            && (i.change.kind == SetSourceTo ==> i.change.tokens <= i.sourceTokens)
  {
    var source, destination, repay := RepayUnfolds(l, i, mid, after);
    RepayAmounts(mid, i, loan, rate, source, destination, repay);
  }

  // ----- margin repay -----

  lemma MarginRepayUnfolds(l: Ledger, i: Instruction, mid: Pool, after: Ledger)
    returns (source: FullAmount, destination: FullAmount, repay: FullAmount, withdraw: FullAmount)
    requires i.MarginRepay? && Done(l, i, i.time, mid, after)
    ensures ConvertAmount(mid, Notes(i.depositNotes), Withdraw) == Ok(source)
    ensures ConvertAmount(mid, Notes(i.loanNotes), Repay) == Ok(destination)
    ensures CalculateFullAmount(mid, source, destination, i.change, Repay) == Ok(repay)
    ensures ConvertAmount(mid, Tokens(repay.tokens), Withdraw) == Ok(withdraw)
    ensures RecordMarginRepay(mid, repay, withdraw) == Ok(after.pool) && after.vault == l.vault
    ensures after.loanSupply == l.loanSupply - repay.notes && repay.notes <= i.loanNotes
    ensures after.depositSupply == l.depositSupply - withdraw.notes && withdraw.notes <= i.depositNotes
    ensures !mid.config.disabled
  {
    source := ConvertAmount(mid, Notes(i.depositNotes), Withdraw).value;
    destination := ConvertAmount(mid, Notes(i.loanNotes), Repay).value;
    repay := CalculateFullAmount(mid, source, destination, i.change, Repay).value;
    withdraw := ConvertAmount(mid, Tokens(repay.tokens), Withdraw).value;
  }

  /** What the amounts of a repayment with notes are. */
  lemma SettlementAmounts(
    mid: Pool, i: Instruction, loan: nat, rate: nat,
    source: FullAmount, destination: FullAmount, repay: FullAmount, withdraw: FullAmount)
    requires i.MarginRepay? && LoanNoteExchangeRate(mid) == Ok(loan) && DepositNoteExchangeRate(mid) == Ok(rate)
    requires ConvertAmount(mid, Notes(i.depositNotes), Withdraw) == Ok(source)
    requires ConvertAmount(mid, Notes(i.loanNotes), Repay) == Ok(destination)
    requires CalculateFullAmount(mid, source, destination, i.change, Repay) == Ok(repay)
    requires ConvertAmount(mid, Tokens(repay.tokens), Withdraw) == Ok(withdraw)
    ensures var owed, held := CeilValue(i.loanNotes, loan), FloorValue(i.depositNotes, rate);
            repay.tokens == (match i.change.kind
                             case SetSourceTo => Min(owed, held - i.change.tokens)
                             case SetDestinationTo => owed - i.change.tokens
                             case ShiftBy => i.change.tokens)
    ensures PaidInFull(repay.notes, repay.tokens, loan) && FewestFor(withdraw.notes, repay.tokens, rate)
  {
    RepaymentChange(mid, source, destination, i.change, repay);
    WorthDown(i.depositNotes, rate, source);
    WorthUp(i.loanNotes, loan, destination);
    DownFromTokens(repay.tokens, loan, repay);
    FewestNotes(repay.tokens, rate, withdraw);
  }

  /**
   A repayment with notes settles tokens of debt: the deposit account (at the deposit rate, rounded
   down) beyond the target but no more than the loan, or the loan (at the loan rate, rounded up)
   beyond the target, or the given number. It burns the loan notes they pay for and the fewest
   deposit notes for them; vault and tokens stay.
   */
  lemma MarginRepayMoves(l: Ledger, i: Instruction, mid: Pool, after: Ledger, loan: nat, rate: nat)
    returns (tokens: nat)
    requires i.MarginRepay? && Done(l, i, i.time, mid, after)
    requires LoanNoteExchangeRate(mid) == Ok(loan) && DepositNoteExchangeRate(mid) == Ok(rate)
    ensures var owed, held := CeilValue(i.loanNotes, loan), FloorValue(i.depositNotes, rate);
            tokens == (match i.change.kind
                       case SetSourceTo => Min(owed, held - i.change.tokens)
                       case SetDestinationTo => owed - i.change.tokens
                       case ShiftBy => i.change.tokens)
    ensures after.pool.borrowed == Max(0, mid.borrowed - tokens * ONE) && after.pool.tokens == mid.tokens
    ensures after.vault == l.vault && !mid.config.disabled && tokens * ONE < mid.borrowed + ONE
    ensures var burned := l.loanSupply - after.loanSupply; PaidInFull(burned, tokens, loan) && burned <= i.loanNotes
    ensures var burned := l.depositSupply - after.depositSupply;
            FewestFor(burned, tokens, rate) && burned <= i.depositNotes
  {
    var source, destination, repay, withdraw := MarginRepayUnfolds(l, i, mid, after);
    SettlementAmounts(mid, i, loan, rate, source, destination, repay, withdraw);
    ReduceDebtKeepsValue(mid.borrowed, repay.tokens);
    tokens := repay.tokens;
  }

  // ----- fees -----

  /**
   The payout of fees succeeds exactly when the pool is enabled, quotes a rate and the value of the
   notes, rounded down, is in the vault and the notes are in the supply; it pays that value, burns the
   notes, and leaves the pool alone.
   */
  lemma WithdrawFeesMoves(l: Ledger, i: Instruction)
    requires Inv(l) && i.WithdrawFees?
    ensures var rate := DepositNoteExchangeRate(l.pool);
            && (Step(l, i).Ok? <==> && !l.pool.config.disabled && rate.Ok? && i.feeNotes <= l.depositSupply
                                    && FloorValue(i.feeNotes, rate.value) <= l.vault)
            && (Step(l, i).Ok?
                ==> var tokens := FloorValue(i.feeNotes, rate.value);
                    Step(l, i).value == l.(vault := l.vault - tokens, depositSupply := l.depositSupply - i.feeNotes,
                                           feeNotesWithdrawn := l.feeNotesWithdrawn + i.feeNotes,
                                           feeTokensWithdrawn := l.feeTokensWithdrawn + tokens))
  {
    var p, rate := l.pool, DepositNoteExchangeRate(l.pool);
    if rate.Ok? {
      DepositRateQuotesNet(p);
      if i.feeNotes <= l.depositSupply && FloorValue(i.feeNotes, rate.value) <= l.vault {
        DivBounds(i.feeNotes * rate.value, ONE);
        MulLe(i.feeNotes, p.depositNotes, rate.value);
        NotesConvert(i.feeNotes, rate.value, p.tokens);
      }
      if ConvertAmount(p, Notes(i.feeNotes), Withdraw).Ok? {
        WorthDown(i.feeNotes, rate.value, ConvertAmount(p, Notes(i.feeNotes), Withdraw).value);
      }
    }
  }

  /**
   A fee collection that catches up mints the notes that all the fees pay for at the deposit rate; it
   needs a pool that is enabled and can still express its vault, taken as notes, in 64 bits. One that
   does not catch up only accrues.
   */
  lemma CollectMoves(l: Ledger, i: Instruction, mid: Pool, done: bool, after: Ledger)
    requires i.Collect? && Step(l, i) == Ok(after) && Accrue(l.pool, i.time) == Ok((mid, done)) && Inv(l)
    ensures !done ==> after == l.(pool := mid)
    ensures done
            ==> var rate, minted := DepositNoteExchangeRate(mid), after.depositSupply - l.depositSupply;
                && rate.Ok? && minted * rate.value <= mid.fees < minted * rate.value + rate.value
                && after.pool == mid.(fees := mid.fees - minted * rate.value, depositNotes := mid.depositNotes + minted)
                && after.vault == l.vault && after.loanSupply == l.loanSupply && !mid.config.disabled
                && DepositNoteExchangeRate(after.pool).Ok?
                && FloorValue(l.vault, DepositNoteExchangeRate(after.pool).value) <= U64_MAX
  {
    if done {
      var (collected, minted) := CollectFees(mid).value;
      CollectTakesWholeNotes(mid, collected, minted);
      var worth := ConvertAmount(collected, Notes(l.vault), Withdraw).value;
      WorthDown(l.vault, DepositNoteExchangeRate(collected).value, worth);
    }
  }

  /** A configuration replaces the old one exactly if knots and rates increase and the fee is at most 100%. */
  lemma ConfigureReplaces(l: Ledger, i: Instruction)
    requires i.Configure?
    ensures var c := i.config;
            Step(l, i).Ok? <==> && c.utilizationRate1 < c.utilizationRate2 && c.managementFeeRate <= 10_000
                                && c.borrowRate0 < c.borrowRate1 && c.borrowRate1 < c.borrowRate2
                                && c.borrowRate2 < c.borrowRate3
    ensures Execute(l, i) == l.(pool := l.pool.(config := if Step(l, i).Ok? then i.config else l.pool.config))
  {
  }

  // ----- disabled pools -----

  lemma DepositNeedsEnabled(l: Ledger, i: Instruction)
    requires i.DepositTokens? && DepositStep(l, i).Ok?
    ensures !l.pool.config.disabled
  {
  }

  lemma WithdrawNeedsEnabled(l: Ledger, i: Instruction)
    requires i.WithdrawTokens? && WithdrawStep(l, i).Ok?
    ensures !l.pool.config.disabled
  {
  }

  lemma MarginBorrowNeedsEnabled(l: Ledger, i: Instruction)
    requires i.MarginBorrow? && MarginBorrowStep(l, i).Ok?
    ensures !l.pool.config.disabled
  {
  }

  lemma MarginBorrowV2NeedsEnabled(l: Ledger, i: Instruction)
    requires i.MarginBorrowV2? && MarginBorrowV2Step(l, i).Ok?
    ensures !l.pool.config.disabled
  {
  }

  lemma RepayNeedsEnabled(l: Ledger, i: Instruction)
    requires i.RepayTokens? && RepayStep(l, i).Ok?
    ensures !l.pool.config.disabled
  {
  }

  lemma MarginRepayNeedsEnabled(l: Ledger, i: Instruction)
    requires i.MarginRepay? && MarginRepayStep(l, i).Ok?
    ensures !l.pool.config.disabled
  {
  }

  lemma CollectOfDisabled(l: Ledger, i: Instruction)
    requires i.Collect? && CollectStep(l, i).Ok? && l.pool.config.disabled
    ensures Accrue(l.pool, i.time) == Ok((CollectStep(l, i).value.pool, false))
  {
  }

  /** A disabled pool takes no instruction but a configuration and an accrual that falls short of the time. */
  lemma DisabledPoolRefuses(l: Ledger, i: Instruction)
    requires l.pool.config.disabled && Step(l, i).Ok?
    ensures i.Configure? || (i.Collect? && Accrue(l.pool, i.time) == Ok((Step(l, i).value.pool, false)))
  {
    match i
    case DepositTokens(_, _, _, _) => DepositNeedsEnabled(l, i);
    case WithdrawTokens(_, _, _, _) => WithdrawNeedsEnabled(l, i);
    case MarginBorrow(_, _, _, _) => MarginBorrowNeedsEnabled(l, i);
    case MarginBorrowV2(_, _, _, _) => MarginBorrowV2NeedsEnabled(l, i);
    case RepayTokens(_, _, _, _) => RepayNeedsEnabled(l, i);
    case MarginRepay(_, _, _, _) => MarginRepayNeedsEnabled(l, i);
    case Collect(_) => CollectOfDisabled(l, i);
    case WithdrawFees(_) =>
    case Configure(_) =>
  }
}
