/** Closing balances and repaying debts. */
module PoolClosing {
  import opened Outcomes
  import opened Rounding
  import opened FixedPoint
  import opened PoolModel
  import opened NoteRounding
  import opened PoolSafety
  import opened PoolLedger
  import opened PoolRuns
  import opened PoolScenes

  const EVERYTHING_FROM_SOURCE := TokenChange(SetSourceTo, 0)
  const EVERYTHING_AT_DESTINATION := TokenChange(SetDestinationTo, 0)

  // ----- setting a balance -----

  /** The source after an action: a loan account grows by it, a deposit or a wallet pays it. */
  function SourceAfter(action: PoolAction, balance: nat, tokens: nat): int {
    if action == Borrow then balance + tokens else balance - tokens
  }

  /** The destination after an action: a loan account shrinks by it, anything else receives it. */
  function DestinationAfter(action: PoolAction, balance: nat, tokens: nat): int {
    if action == Repay then balance - tokens else balance + tokens
  }

  /**
   Setting a balance moves exactly the tokens that bring the chosen account to the target, and is
   refused exactly when the action would have to run backwards. Draining a deposit into a loan
   stops early when the loan is repaid.
   */
  lemma SetReachesTarget(
    kind: ChangeKind, source: FullAmount, destination: FullAmount, target: nat, action: PoolAction)
    ensures var r := SetDifference(kind, source, destination, target, action);
            && (r.Err? ==> r.error == if kind == ShiftBy then InvalidSetTo else SetMathOp)
            && (kind == ShiftBy ==> r.Err?)
            && (kind == SetDestinationTo
                ==> (r.Ok? <==> exists t: nat :: DestinationAfter(action, destination.tokens, t) == target))
            && (kind == SetSourceTo
                ==> (r.Ok? <==> exists t: nat :: SourceAfter(action, source.tokens, t) == target))
            && (r.Ok? && kind == SetDestinationTo
                ==> DestinationAfter(action, destination.tokens, r.value) == target)
            && (r.Ok? && kind == SetSourceTo
                ==> SourceAfter(action, source.tokens, r.value) == target
                    || (action == Repay && target <= SourceAfter(action, source.tokens, r.value)
                        && DestinationAfter(action, destination.tokens, r.value) == 0))
  {
    var sourceGap: nat := if target <= source.tokens then source.tokens - target else target - source.tokens;
    var destinationGap: nat :=
      if target <= destination.tokens then destination.tokens - target else target - destination.tokens;
    var atSource, atDestination :=
      SourceAfter(action, source.tokens, sourceGap), DestinationAfter(action, destination.tokens, destinationGap);
  }

  // ----- closing a deposit -----

  /** Withdrawing everything burns exactly the notes of the account, with none left over and none missing. */
  lemma WithdrawAllIsExact(p: Pool, notes: nat, source: FullAmount, destination: FullAmount, full: FullAmount)
    requires Backed(p) && ConvertAmount(p, Notes(notes), Withdraw) == Ok(source)
    requires CalculateFullAmount(p, source, destination, EVERYTHING_FROM_SOURCE, Withdraw) == Ok(full)
    ensures full.notes == notes
    ensures full.tokens * ONE <= notes * DepositNoteExchangeRate(p).value < full.tokens * ONE + ONE
  {
    DepositRateQuotesNet(p);
    var rate := DepositNoteExchangeRate(p).value;
    DownFromNotes(notes, rate, source);
    DownThenUpIsExact(notes, rate, source, full);
  }

  // ----- closing a loan -----

  /**
   Repaying the whole loan computes a burn of at least the account's notes at any rate. It is
   exactly the account's notes if and only if the rounding of the debt up to whole tokens is
   worth less than one note, and so whenever a loan note is worth at least a token.
   */
  lemma RepayAllBurns(p: Pool, notes: nat, source: FullAmount, destination: FullAmount, full: FullAmount)
    requires ConvertAmount(p, Notes(notes), Repay) == Ok(destination)
    requires CalculateFullAmount(p, source, destination, EVERYTHING_AT_DESTINATION, Repay) == Ok(full)
    ensures notes <= full.notes && full.tokens == destination.tokens
    ensures var rate := LoanNoteExchangeRate(p).value;
            && (full.notes == notes <==> full.tokens * ONE - notes * rate < rate)
            && (ONE <= rate ==> full.notes == notes)
  {
    UpThenDown(notes, LoanNoteExchangeRate(p).value, destination, full);
  }

  /** So a `margin_repay` that closes a loan burns the whole loan account or does not happen. */
  lemma MarginRepayClosesExactly(l: Ledger, i: Instruction, after: Ledger)
    requires i.MarginRepay? && i.change == EVERYTHING_AT_DESTINATION && MarginRepayStep(l, i) == Ok(after)
    ensures after.loanSupply == l.loanSupply - i.loanNotes
  {
    var pool := AccrueFully(l.pool, i.time).value;
    var source := ConvertAmount(pool, Notes(i.depositNotes), Withdraw).value;
    var destination := ConvertAmount(pool, Notes(i.loanNotes), Repay).value;
    var repay := CalculateFullAmount(pool, source, destination, i.change, Repay).value;
    RepayAllBurns(pool, i.loanNotes, source, destination, repay);
  }

  // ----- closing a loan with `repay` -----

  /** A repayment with tokens up to the burn of the loan notes. */
  function RepaymentBeforeBurn(l: Ledger, i: Instruction): Result<FullAmount>
    requires i.RepayTokens?
  {
    var pool :- AccrueFully(l.pool, i.time);
    var source :- ConvertAmount(pool, Tokens(i.sourceTokens), Borrow);
    var destination :- ConvertAmount(pool, Notes(i.loanNotes), Deposit);
    var repay :- CalculateFullAmount(pool, source, destination, i.change, Repay);
    var pool :- RecordRepay(pool, repay);
    var _ :- CheckEnabled(pool);
    var _ :- Take(i.sourceTokens, repay.tokens);
    var _ :- AddU64(l.vault, repay.tokens);
    Ok(repay)
  }

  /** All that is left to fail is the burn, and it fails only for want of notes in the account. */
  lemma RepaymentEndsWithBurn(l: Ledger, i: Instruction)
    requires Inv(l) && i.RepayTokens?
    ensures RepayStep(l, i).Ok? ==> RepaymentBeforeBurn(l, i).Ok?
    ensures RepaymentBeforeBurn(l, i).Ok?
            ==> var burned := RepaymentBeforeBurn(l, i).value.notes;
                if burned <= i.loanNotes
                then RepayStep(l, i).Ok? && RepayStep(l, i).value.loanSupply == l.loanSupply - burned
                else RepayStep(l, i) == Err(TokenProgramError)
  {
    if AccrueFully(l.pool, i.time).Ok? { AccrueFullyKeeps(l.pool, i.time, AccrueFully(l.pool, i.time).value); }
  }

  lemma ClosingAmount(l: Ledger, i: Instruction, deposit: nat, loan: nat)
    requires i.RepayTokens? && i.change == EVERYTHING_AT_DESTINATION && RepaymentBeforeBurn(l, i).Ok?
    requires var mid := AccrueFully(l.pool, i.time).value;
             DepositNoteExchangeRate(mid) == Ok(deposit) && LoanNoteExchangeRate(mid) == Ok(loan)
    ensures var repay := RepaymentBeforeBurn(l, i).value;
            && repay.tokens == CeilValue(i.loanNotes, deposit)
            && repay.notes * loan <= repay.tokens * ONE < repay.notes * loan + loan
  {
    var mid, repay := AccrueFully(l.pool, i.time).value, RepaymentBeforeBurn(l, i).value;
    var destination := ConvertAmount(mid, Notes(i.loanNotes), Deposit).value;
    UpFromNotes(i.loanNotes, deposit, destination);
    DivIs(i.loanNotes * deposit + ONE - 1, ONE, destination.tokens);
    DownFromTokens(repay.tokens, loan, repay);
  }

  /** What burning the notes that `value` pays for does to an account, when everything else has passed. */
  ghost predicate BurnDecides(r: Result<Ledger>, supply: nat, notes: nat, value: nat, loan: nat) {
    var owed := notes * loan;
    && (r.Ok? && r.value.loanSupply == supply - notes <==> owed <= value < owed + loan)
    && (r.Ok? && r.value.loanSupply > supply - notes <==> value < owed)
    && (r == Err(TokenProgramError) <==> owed + loan <= value)
  }

  lemma OutcomeOfBurn(r: Result<Ledger>, supply: nat, notes: nat, burned: nat, value: nat, loan: nat)
    requires if burned <= notes then r.Ok? && r.value.loanSupply == supply - burned else r == Err(TokenProgramError)
    requires burned * loan <= value < burned * loan + loan
    ensures BurnDecides(r, supply, notes, value, loan)
  {
    QuotientIsUnique(value, loan, burned, notes);
    if notes < burned { MulLe(notes + 1, burned, loan); }
    if burned < notes { MulLe(burned + 1, notes, loan); }
  }

  /**
   Setting the loan to zero with `repay` has one of three outcomes, decided by the two quoted rates.
   Let v be the value of the account's notes at the deposit rate, in whole tokens. The loan is
   closed exactly when v pays for all its notes and not for one more; notes are left exactly when it
   pays for fewer; and the burn is refused exactly when it pays for more.
   */
  lemma RepayToZero(l: Ledger, i: Instruction, deposit: nat, loan: nat)
    requires Inv(l) && i.RepayTokens? && i.change == EVERYTHING_AT_DESTINATION && RepaymentBeforeBurn(l, i).Ok?
    requires var mid := AccrueFully(l.pool, i.time).value;
             DepositNoteExchangeRate(mid) == Ok(deposit) && LoanNoteExchangeRate(mid) == Ok(loan)
    ensures BurnDecides(RepayStep(l, i), l.loanSupply, i.loanNotes, CeilValue(i.loanNotes, deposit) * ONE, loan)
  {
    RepaymentEndsWithBurn(l, i);
    ClosingAmount(l, i, deposit, loan);
    var repay := RepaymentBeforeBurn(l, i).value;
    OutcomeOfBurn(RepayStep(l, i), l.loanSupply, i.loanNotes, repay.notes, repay.tokens * ONE, loan);
  }

  /** A run in which setting a loan of three notes to zero leaves one of them. */
  lemma RepayCanLeaveNotes()
    ensures Reachable(Scene(3 * ONE, 0, 2_497, 2_500, 3, 0))
    ensures CLOSE_LOAN.loanNotes == 3 && CLOSE_LOAN.change == EVERYTHING_AT_DESTINATION
    ensures Step(Scene(3 * ONE, 0, 2_497, 2_500, 3, 0), CLOSE_LOAN) == Ok(Scene(9, 9, 2_500, 2_500, 1, 1))
  {
    ThreeLent();
    CloseLeavesANote();
  }

  // ----- loan notes worth less than a token -----

  predicate LoansAtLeastOne(p: Pool) {
    ONE * Max(1, p.loanNotes) <= Max(ONE, p.borrowed)
  }

  lemma LoanRateAtLeastOne(p: Pool)
    requires LoanNoteExchangeRate(p).Ok?
    ensures ONE <= LoanNoteExchangeRate(p).value <==> LoansAtLeastOne(p)
  {
    LoanRateQuotesDebt(p);
    var rate, n := LoanNoteExchangeRate(p).value, Max(1, p.loanNotes);
    if ONE <= rate { MulLe(ONE, rate, n); } else { MulLe(rate + 1, ONE, n); }
  }

  lemma NotesOfNewLoan(borrowed: nat, notes: nat, rate: nat, tokens: nat, minted: nat)
    requires ONE <= rate && rate * Max(1, notes) <= Max(ONE, borrowed) && ONE * Max(1, notes) <= Max(ONE, borrowed)
    requires minted == 0 <==> tokens == 0
    requires tokens * ONE <= minted * rate + Slack(rate) && (0 < minted ==> (minted - 1) * rate < tokens * ONE)
    ensures Max(ONE, borrowed + tokens * ONE) < ONE * Max(1, notes + minted)
            <==> notes == 1 && borrowed < ONE && 0 < tokens
  {
    if 0 < minted { MulLe(ONE, rate, minted - 1); }
    assert minted <= tokens;
    if notes == 1 && borrowed < ONE {
      assert rate == ONE && Slack(rate) == 0;
    }
  }

  /** A new loan brings the rate below one only where a single note is owed less than a token. */
  lemma BorrowLowersLoanRate(p: Pool, full: FullAmount, after: Pool)
    requires LoansAtLeastOne(p) && ConvertAmount(p, Tokens(full.tokens), Borrow) == Ok(full)
    requires RecordBorrow(p, full) == Ok(after)
    ensures !LoansAtLeastOne(after) <==> p.loanNotes == 1 && p.borrowed < ONE && 0 < full.tokens
  {
    var rate := LoanNoteExchangeRate(p).value;
    LoanRateAtLeastOne(p);
    LoanRateQuotesDebt(p);
    UpFromTokens(full.tokens, rate, full);
    NotesOfNewLoan(p.borrowed, p.loanNotes, rate, full.tokens, full.notes);
  }

  predicate Borrows(i: Instruction) {
    i.MarginBorrow? || i.MarginBorrowV2?
  }

  predicate Repays(i: Instruction) {
    i.RepayTokens? || i.MarginRepay?
  }

  /** The tokens and loan notes of a successful loan or repayment. */
  function LoanAmount(l: Ledger, i: Instruction): FullAmount
    requires (Borrows(i) || Repays(i)) && Step(l, i).Ok?
  {
    var mid := AccrueFully(l.pool, i.time).value;
    match i
    case MarginBorrow(_, change, loanNotes, depositNotes) =>
      CalculateFullAmount(mid, ConvertAmount(mid, Notes(loanNotes), Borrow).value,
                          ConvertAmount(mid, Notes(depositNotes), Deposit).value, change, Borrow).value
    case MarginBorrowV2(_, tokens, loanNotes, destinationTokens) =>
      ConvertAmount(mid, Tokens(tokens), Borrow).value
    case RepayTokens(_, change, sourceTokens, loanNotes) =>
      CalculateFullAmount(mid, ConvertAmount(mid, Tokens(sourceTokens), Borrow).value,
                          ConvertAmount(mid, Notes(loanNotes), Deposit).value, change, Repay).value
    case MarginRepay(_, change, depositNotes, loanNotes) =>
      CalculateFullAmount(mid, ConvertAmount(mid, Notes(depositNotes), Withdraw).value,
                          ConvertAmount(mid, Notes(loanNotes), Repay).value, change, Repay).value
  }

  /** From the state with interest accrued: what a loan or a repayment must be to bring the rate below one. */
  predicate BringsBelowOne(l: Ledger, i: Instruction)
    requires (Borrows(i) || Repays(i)) && Step(l, i).Ok?
  {
    var mid, full := AccrueFully(l.pool, i.time).value, LoanAmount(l, i);
    if Borrows(i) then mid.loanNotes == 1 && mid.borrowed < ONE && 0 < full.tokens
    else Max(ONE, mid.borrowed - full.tokens * ONE) < ONE * Max(1, mid.loanNotes - full.notes)
  }

  /** A repayment burns the loan notes that the tokens pay for in full. */
  lemma RepaymentNotes(l: Ledger, i: Instruction)
    requires Repays(i) && Step(l, i).Ok?
    ensures var mid, full := AccrueFully(l.pool, i.time).value, LoanAmount(l, i);
            var rate := LoanNoteExchangeRate(mid);
            rate.Ok? && 0 < rate.value && full.notes == full.tokens * ONE / rate.value
  {
    var mid, full := AccrueFully(l.pool, i.time).value, LoanAmount(l, i);
    RepaymentIsConverted(l, i);
    var rate := LoanNoteExchangeRate(mid).value;
    DownFromTokens(full.tokens, rate, full);
    DivIs(full.tokens * ONE, rate, full.notes);
  }

  lemma RepaymentIsConverted(l: Ledger, i: Instruction)
    requires Repays(i) && Step(l, i).Ok?
    ensures var full := LoanAmount(l, i);
            ConvertAmount(AccrueFully(l.pool, i.time).value, Tokens(full.tokens), Repay) == Ok(full)
  {
    if i.RepayTokens? { RepayIsConverted(l, i); } else { MarginRepayIsConverted(l, i); }
  }

  lemma RepayIsConverted(l: Ledger, i: Instruction)
    requires i.RepayTokens? && RepayStep(l, i).Ok?
    ensures var full := LoanAmount(l, i);
            ConvertAmount(AccrueFully(l.pool, i.time).value, Tokens(full.tokens), Repay) == Ok(full)
  {
    var pool := AccrueFully(l.pool, i.time).value;
    var source := ConvertAmount(pool, Tokens(i.sourceTokens), Borrow).value;
    var destination := ConvertAmount(pool, Notes(i.loanNotes), Deposit).value;
    FullAmountIsConverted(pool, source, destination, i.change, Repay, LoanAmount(l, i));
  }

  lemma MarginRepayIsConverted(l: Ledger, i: Instruction)
    requires i.MarginRepay? && MarginRepayStep(l, i).Ok?
    ensures var full := LoanAmount(l, i);
            ConvertAmount(AccrueFully(l.pool, i.time).value, Tokens(full.tokens), Repay) == Ok(full)
  {
    var pool := AccrueFully(l.pool, i.time).value;
    var source := ConvertAmount(pool, Notes(i.depositNotes), Withdraw).value;
    var destination := ConvertAmount(pool, Notes(i.loanNotes), Repay).value;
    FullAmountIsConverted(pool, source, destination, i.change, Repay, LoanAmount(l, i));
  }

  /** The deposit that follows a loan leaves debt and loan notes as the loan made them. */
  lemma MarginBorrowRecords(l: Ledger, i: Instruction, mid: Pool)
    requires i.MarginBorrow? && Step(l, i).Ok? && AccrueFully(l.pool, i.time) == Ok(mid)
    ensures var borrow, after := LoanAmount(l, i), Step(l, i).value.pool;
            && ConvertAmount(mid, Tokens(borrow.tokens), Borrow) == Ok(borrow) && RecordBorrow(mid, borrow).Ok?
            && after.borrowed == RecordBorrow(mid, borrow).value.borrowed
            && after.loanNotes == RecordBorrow(mid, borrow).value.loanNotes
  {
    var source := ConvertAmount(mid, Notes(i.loanNotes), Borrow).value;
    var destination := ConvertAmount(mid, Notes(i.depositNotes), Deposit).value;
    FullAmountIsConverted(mid, source, destination, i.change, Borrow, LoanAmount(l, i));
  }

  lemma MarginBorrowLowers(l: Ledger, i: Instruction, mid: Pool)
    requires i.MarginBorrow? && Step(l, i).Ok? && AccrueFully(l.pool, i.time) == Ok(mid) && LoansAtLeastOne(mid)
    ensures !LoansAtLeastOne(Step(l, i).value.pool) <==> BringsBelowOne(l, i)
  {
    MarginBorrowRecords(l, i, mid);
    BorrowLowersLoanRate(mid, LoanAmount(l, i), RecordBorrow(mid, LoanAmount(l, i)).value);
  }

  lemma MarginBorrowV2Lowers(l: Ledger, i: Instruction, mid: Pool)
    requires i.MarginBorrowV2? && Step(l, i).Ok? && AccrueFully(l.pool, i.time) == Ok(mid) && LoansAtLeastOne(mid)
    ensures !LoansAtLeastOne(Step(l, i).value.pool) <==> BringsBelowOne(l, i)
  {
    var borrow := LoanAmount(l, i);
    BorrowLowersLoanRate(mid, borrow, RecordBorrow(mid, borrow).value);
  }

  lemma RepayRecords(l: Ledger, i: Instruction)
    requires i.RepayTokens? && RepayStep(l, i).Ok?
    ensures RecordRepay(AccrueFully(l.pool, i.time).value, LoanAmount(l, i)) == Ok(RepayStep(l, i).value.pool)
  {
  }

  lemma RepayLowers(l: Ledger, i: Instruction)
    requires i.RepayTokens? && RepayStep(l, i).Ok?
    ensures !LoansAtLeastOne(RepayStep(l, i).value.pool) <==> BringsBelowOne(l, i)
  {
    RepayRecords(l, i);
    DebtLeft(AccrueFully(l.pool, i.time).value.borrowed, LoanAmount(l, i).tokens);
  }

  lemma MarginRepayRecords(l: Ledger, i: Instruction)
    requires i.MarginRepay? && MarginRepayStep(l, i).Ok?
    ensures var mid, full := AccrueFully(l.pool, i.time).value, LoanAmount(l, i);
            var after := MarginRepayStep(l, i).value.pool;
            ReduceDebt(mid.borrowed, full.tokens) == Ok(after.borrowed) && after.loanNotes == mid.loanNotes - full.notes
  {
  }

  lemma MarginRepayLowers(l: Ledger, i: Instruction)
    requires i.MarginRepay? && MarginRepayStep(l, i).Ok?
    ensures !LoansAtLeastOne(MarginRepayStep(l, i).value.pool) <==> BringsBelowOne(l, i)
  {
    MarginRepayRecords(l, i);
    DebtLeft(AccrueFully(l.pool, i.time).value.borrowed, LoanAmount(l, i).tokens);
  }

  lemma DebtLeft(borrowed: nat, tokens: nat)
    requires ReduceDebt(borrowed, tokens).Ok?
    ensures Max(ONE, ReduceDebt(borrowed, tokens).value) == Max(ONE, borrowed - tokens * ONE)
  {
  }

  /**
   The loan rate falls below one if and only if a loan is taken while a single note is owed less than
   a token, or a repayment leaves fewer tokens of debt than notes. Nothing else brings it there.
   */
  lemma LoanRateFallsExactly(l: Ledger, i: Instruction)
    requires Inv(l) && LoansAtLeastOne(l.pool)
    ensures !LoansAtLeastOne(Execute(l, i).pool)
            <==> (Borrows(i) || Repays(i)) && Step(l, i).Ok? && BringsBelowOne(l, i)
  {
    if Step(l, i).Ok? && !i.WithdrawFees? && !i.Configure? {
      AccrueKeepsBacking(l.pool, i.time);
      var mid := Accrue(l.pool, i.time).value.0;
      match i
      case MarginBorrow(_, _, _, _) => MarginBorrowLowers(l, i, mid);
      case MarginBorrowV2(_, _, _, _) => MarginBorrowV2Lowers(l, i, mid);
      case RepayTokens(_, _, _, _) => RepayLowers(l, i);
      case MarginRepay(_, _, _, _) => MarginRepayLowers(l, i);
      case DepositTokens(_, _, _, _) => DepositLeavesLoans(l, i);
      case WithdrawTokens(_, _, _, _) => WithdrawLeavesLoans(l, i);
      case Collect(_) => CollectLeavesLoans(l, i);
    }
  }

  lemma DepositLeavesLoans(l: Ledger, i: Instruction)
    requires i.DepositTokens? && Step(l, i).Ok?
    ensures SameLoans(l, i.time, Step(l, i).value.pool)
  {
  }

  lemma WithdrawLeavesLoans(l: Ledger, i: Instruction)
    requires i.WithdrawTokens? && Step(l, i).Ok?
    ensures SameLoans(l, i.time, Step(l, i).value.pool)
  {
  }

  lemma CollectLeavesLoans(l: Ledger, i: Instruction)
    requires i.Collect? && Step(l, i).Ok?
    ensures SameLoans(l, i.time, Step(l, i).value.pool)
  {
  }

  predicate SameLoans(l: Ledger, time: int, after: Pool) {
    && Accrue(l.pool, time).Ok?
    && after.borrowed == Accrue(l.pool, time).value.0.borrowed
    && after.loanNotes == Accrue(l.pool, time).value.0.loanNotes
  }

  /** A run in which repaying two tokens brings the loan rate from above one to about one half. */
  lemma LoanRateCanFallBelowOne()
    ensures Reachable(Scene(3 * ONE, 0, 2_497, 2_500, 3, 0))
    ensures LoansAtLeastOne(Scene(3 * ONE, 0, 2_497, 2_500, 3, 0).pool)
    ensures Step(Scene(3 * ONE, 0, 2_497, 2_500, 3, 0), RepaymentOf(1, 2, 3))
            == Ok(Scene(ONE + 9, 9, 2_499, 2_500, 2, 1))
    ensures LoanNoteExchangeRate(Scene(ONE + 9, 9, 2_499, 2_500, 2, 1).pool) == Ok(500_000_000_000_004)
  {
    ThreeLent();
    RepayTwoOfThree();
    HalfATokenPerNote();
  }

  lemma HalfATokenPerNote()
    ensures LoanNoteExchangeRate(Scene(ONE + 9, 9, 2_499, 2_500, 2, 1).pool) == Ok(500_000_000_000_004)
  {
  }

  // ----- the guard on outstanding debt -----

  /**
   The tokens that close up to all loan notes never exceed the debt rounded up, unless there is no
   debt at all; then the guard rejects every close of a positive number of notes.
   */
  lemma DebtGuardAllowsClose(p: Pool, notes: nat, full: FullAmount)
    requires notes <= p.loanNotes && ConvertAmount(p, Notes(notes), Repay) == Ok(full)
    requires AsU64Ceil(p.borrowed).Ok?
    ensures full.tokens <= AsU64Ceil(p.borrowed).value <==> 0 < p.borrowed || notes == 0
  {
    var rate := LoanNoteExchangeRate(p).value;
    LoanRateQuotesDebt(p);
    UpFromNotes(notes, rate, full);
    DivBounds(ONE - 1 + p.borrowed, ONE);
    MulLe(notes, Max(1, p.loanNotes), rate);
  }

  /** Closing all loan notes of a debt of a token or more leaves fewer units of 10^-15 token than there were notes. */
  lemma CloseAllLeavesDust(p: Pool, full: FullAmount, left: nat)
    requires ONE <= p.borrowed && 0 < p.loanNotes
    requires ConvertAmount(p, Notes(p.loanNotes), Repay) == Ok(full)
    requires ReduceDebt(p.borrowed, full.tokens) == Ok(left)
    ensures left < p.loanNotes
  {
    var rate := LoanNoteExchangeRate(p).value;
    LoanRateQuotesDebt(p);
    UpFromNotes(p.loanNotes, rate, full);
    MulCommutes(p.loanNotes, rate);
    DustLeft(p.borrowed, p.loanNotes, rate * p.loanNotes, full.tokens * ONE);
  }

  lemma DustLeft(borrowed: nat, notes: nat, quoted: nat, paid: nat)
    requires borrowed < quoted + notes && quoted <= paid && 0 < notes
    ensures SaturatingSub(borrowed, paid) < notes
  {
  }
}
