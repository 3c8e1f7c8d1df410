/** What holds over every run of the pool's instructions, whatever their order and arguments. */
module PoolRuns {
  import opened Outcomes
  import opened Rounding
  import opened FixedPoint
  import opened PoolModel
  import opened NoteRounding
  import opened PoolSafety
  import opened PoolLedger

  // ----- the invariant -----

  /** The pool's books against the mints and the vault: they differ by what `withdraw_fees` took, and only by that. */
  predicate BooksBalance(l: Ledger) {
    && l.pool.loanNotes == l.loanSupply
    && l.pool.depositNotes == l.depositSupply + l.feeNotesWithdrawn
    && l.pool.tokens == l.vault + l.feeTokensWithdrawn
  }

  /** Tokens and notes are counted in 64 bits. */
  predicate Counts64(p: Pool) {
    p.tokens <= U64_MAX && p.depositNotes <= U64_MAX && p.loanNotes <= U64_MAX
  }

  predicate Inv(l: Ledger) {
    FeesCapped(l.pool) && Backed(l.pool) && BooksBalance(l) && Counts64(l.pool)
  }

  // ----- what each step consists of -----

  lemma FullAmountIsConverted(
    p: Pool, source: FullAmount, destination: FullAmount, change: TokenChange, action: PoolAction, full: FullAmount)
    requires CalculateFullAmount(p, source, destination, change, action) == Ok(full)
    ensures ConvertAmount(p, Tokens(full.tokens), action) == Ok(full)
  {
  }

  lemma AccrueFullyKeeps(p: Pool, time: int, after: Pool)
    requires Backed(p) && FeesCapped(p) && AccrueFully(p, time) == Ok(after)
    ensures Backed(after) && FeesCapped(after) && Accrued(p, after)
    ensures after.loanNotes == p.loanNotes
  {
    AccrueKeepsBacking(p, time);
  }

  lemma AccruedOnce(p: Pool, time: int, mid: Pool)
    requires AccrueFully(p, time) == Ok(mid)
    ensures mid.accruedUntil == time && AccrueFully(mid, time) == Ok(mid)
  {
  }

  lemma WithdrawAccruesFirst(l: Ledger, i: Instruction, mid: Pool)
    requires i.WithdrawTokens? && AccrueFully(l.pool, i.time) == Ok(mid) == AccrueFully(mid, i.time)
    ensures WithdrawStep(l, i) == WithdrawStep(l.(pool := mid), i)
  {
  }

  // ----- every step keeps the invariant and the rate -----

  lemma DepositSafe(l: Ledger, i: Instruction)
    requires Inv(l) && i.DepositTokens? && DepositStep(l, i).Ok?
    ensures Inv(DepositStep(l, i).value) && KeepsRate(l.pool, DepositStep(l, i).value.pool)
  {
    var after := DepositStep(l, i).value;
    var pool := AccrueFully(l.pool, i.time).value;
    var source := ConvertAmount(pool, Tokens(i.sourceTokens), Deposit).value;
    var destination := ConvertAmount(pool, Notes(i.destinationNotes), Deposit).value;
    var full := CalculateFullAmount(pool, source, destination, i.change, Deposit).value;
    FullAmountIsConverted(pool, source, destination, i.change, Deposit, full);
    AccrueFullyKeeps(l.pool, i.time, pool);
    DepositPaysItsNotes(pool, full.tokens, full, after.pool);
    KeepsRateFromBeforeAccrual(l.pool, pool, after.pool);
  }

  lemma WithdrawSafe(l: Ledger, i: Instruction)
    requires Inv(l) && i.WithdrawTokens? && WithdrawStep(l, i).Ok?
    ensures Inv(WithdrawStep(l, i).value) && NearlyKeepsRate(l.pool, WithdrawStep(l, i).value.pool)
  {
    var after := WithdrawStep(l, i).value;
    var pool := AccrueFully(l.pool, i.time).value;
    var source := ConvertAmount(pool, Notes(i.sourceNotes), Withdraw).value;
    var destination := FullAmount(i.destinationTokens, i.destinationTokens);
    var full := CalculateFullAmount(pool, source, destination, i.change, Withdraw).value;
    FullAmountIsConverted(pool, source, destination, i.change, Withdraw, full);
    AccrueFullyKeeps(l.pool, i.time, pool);
    WithdrawLeavesEnough(pool, full.tokens, full, after.pool);
    KeepsRateFromBeforeAccrual(l.pool, pool, after.pool);
  }

  /** Borrowing moves value from the vault to the debt; the deposit that follows is an ordinary one. */
  lemma MarginBorrowSafe(l: Ledger, i: Instruction)
    requires Inv(l) && i.MarginBorrow? && MarginBorrowStep(l, i).Ok?
    ensures Inv(MarginBorrowStep(l, i).value) && KeepsRate(l.pool, MarginBorrowStep(l, i).value.pool)
  {
    var after := MarginBorrowStep(l, i).value;
    var pool := AccrueFully(l.pool, i.time).value;
    var source := ConvertAmount(pool, Notes(i.loanNotes), Borrow).value;
    var destination := ConvertAmount(pool, Notes(i.depositNotes), Deposit).value;
    var borrow := CalculateFullAmount(pool, source, destination, i.change, Borrow).value;
    var lent := RecordBorrow(pool, borrow).value;
    var full := ConvertAmount(lent, Tokens(borrow.tokens), Deposit).value;
    AccrueFullyKeeps(l.pool, i.time, pool);
    BorrowKeepsValue(pool, borrow, lent);
    DepositPaysItsNotes(lent, borrow.tokens, full, after.pool);
    assert DepositNoteExchangeRate(lent) == DepositNoteExchangeRate(pool);
    KeepsRateFromBeforeAccrual(l.pool, pool, after.pool);
  }

  lemma MarginBorrowV2Safe(l: Ledger, i: Instruction)
    requires Inv(l) && i.MarginBorrowV2? && MarginBorrowV2Step(l, i).Ok?
    ensures Inv(MarginBorrowV2Step(l, i).value) && KeepsRate(l.pool, MarginBorrowV2Step(l, i).value.pool)
  {
    var after := MarginBorrowV2Step(l, i).value;
    var pool := AccrueFully(l.pool, i.time).value;
    AccrueFullyKeeps(l.pool, i.time, pool);
    SameNotesMoreValue(l.pool, after.pool);
  }

  lemma RepaySafe(l: Ledger, i: Instruction)
    requires Inv(l) && i.RepayTokens? && RepayStep(l, i).Ok?
    ensures Inv(RepayStep(l, i).value) && KeepsRate(l.pool, RepayStep(l, i).value.pool)
  {
    var after := RepayStep(l, i).value;
    var pool := AccrueFully(l.pool, i.time).value;
    var source := ConvertAmount(pool, Tokens(i.sourceTokens), Borrow).value;
    var destination := ConvertAmount(pool, Notes(i.loanNotes), Deposit).value;
    var repay := CalculateFullAmount(pool, source, destination, i.change, Repay).value;
    AccrueFullyKeeps(l.pool, i.time, pool);
    RepayKeepsValue(pool, repay, after.pool);
    SameNotesMoreValue(l.pool, after.pool);
  }

  lemma MarginRepaySafe(l: Ledger, i: Instruction)
    requires Inv(l) && i.MarginRepay? && MarginRepayStep(l, i).Ok?
    ensures Inv(MarginRepayStep(l, i).value) && NearlyKeepsRate(l.pool, MarginRepayStep(l, i).value.pool)
  {
    var after := MarginRepayStep(l, i).value;
    var pool := AccrueFully(l.pool, i.time).value;
    var source := ConvertAmount(pool, Notes(i.depositNotes), Withdraw).value;
    var destination := ConvertAmount(pool, Notes(i.loanNotes), Repay).value;
    var repay := CalculateFullAmount(pool, source, destination, i.change, Repay).value;
    var withdraw := ConvertAmount(pool, Tokens(repay.tokens), Withdraw).value;
    AccrueFullyKeeps(l.pool, i.time, pool);
    MarginRepayLeavesEnough(pool, repay, withdraw, after.pool);
    KeepsRateFromBeforeAccrual(l.pool, pool, after.pool);
  }

  lemma CollectSafe(l: Ledger, i: Instruction)
    requires Inv(l) && i.Collect? && CollectStep(l, i).Ok?
    ensures Inv(CollectStep(l, i).value) && KeepsRate(l.pool, CollectStep(l, i).value.pool)
  {
    var after := CollectStep(l, i).value;
    var (pool, done) := Accrue(l.pool, i.time).value;
    AccrueKeepsBacking(l.pool, i.time);
    if done {
      var minted := CollectFees(pool).value.1;
      CollectTakesWholeNotes(pool, after.pool, minted);
      CollectMovesExactly(pool, after.pool, minted);
      CollectKeepsRate(pool, after.pool, minted);
      KeepsRateFromBeforeAccrual(l.pool, pool, after.pool);
    } else {
      SameNotesMoreValue(l.pool, after.pool);
    }
  }

  lemma CollectKeepsRate(p: Pool, after: Pool, minted: nat)
    requires Backed(p) && CollectFees(p) == Ok((after, minted))
    ensures KeepsRate(p, after)
  {
    CollectTakesWholeNotes(p, after, minted);
    CollectMovesExactly(p, after, minted);
    DepositRateQuotesNet(p);
    MintKeepsQuote(DepositNoteExchangeRate(p).value, p.depositNotes, minted);
  }

  /** Neither the fee owner's payout nor a new configuration touches the value or the notes of the pool. */
  lemma AdministrationSafe(l: Ledger, i: Instruction)
    requires Inv(l) && (i.WithdrawFees? || i.Configure?) && Step(l, i).Ok?
    ensures Inv(Step(l, i).value) && KeepsRate(l.pool, Step(l, i).value.pool)
  {
    SameNotesMoreValue(l.pool, Step(l, i).value.pool);
  }

  predicate Burns(i: Instruction) {
    i.WithdrawTokens? || i.MarginRepay?
  }

  /** Any instruction keeps the books, the backing of the notes, and (but for a burn's slack) the quoted rate. */
  lemma StepSafe(l: Ledger, i: Instruction)
    requires Inv(l)
    ensures Inv(Execute(l, i))
    ensures !Burns(i) ==> KeepsRate(l.pool, Execute(l, i).pool)
    ensures Burns(i) && Step(l, i).Ok? ==> NearlyKeepsRate(l.pool, Execute(l, i).pool)
  {
    if Step(l, i).Err? {
      SameNotesMoreValue(l.pool, l.pool);
    } else {
      match i
      case DepositTokens(_, _, _, _) => DepositSafe(l, i);
      case WithdrawTokens(_, _, _, _) => WithdrawSafe(l, i);
      case MarginBorrow(_, _, _, _) => MarginBorrowSafe(l, i);
      case MarginBorrowV2(_, _, _, _) => MarginBorrowV2Safe(l, i);
      case RepayTokens(_, _, _, _) => RepaySafe(l, i);
      case MarginRepay(_, _, _, _) => MarginRepaySafe(l, i);
      case Collect(_) => CollectSafe(l, i);
      case WithdrawFees(_) => AdministrationSafe(l, i);
      case Configure(_) => AdministrationSafe(l, i);
    }
  }

  // ----- over whole runs -----

  lemma {:induction false} RunSafe(l: Ledger, instructions: seq<Instruction>)
    requires Inv(l)
    ensures Inv(Run(l, instructions))
    decreases instructions
  {
    if instructions != [] {
      StepSafe(l, instructions[0]);
      RunSafe(Execute(l, instructions[0]), instructions[1..]);
    }
  }

  /**
   From the creation of a pool on: outstanding deposit notes are each backed by a token net of the
   uncollected fees, so a quoted deposit rate is never below one, and the books agree with the
   mints and the vault up to what the fee owner has withdrawn.
   */
  lemma EveryReachableLedger(time: int, instructions: seq<Instruction>)
    ensures var l := Run(NewLedger(time), instructions);
            && (l.pool.depositNotes > 0 ==> ONE * l.pool.depositNotes <= Net(l.pool))
            && (DepositNoteExchangeRate(l.pool).Ok? ==> ONE <= DepositNoteExchangeRate(l.pool).value)
            && l.pool.loanNotes == l.loanSupply
            && l.pool.depositNotes - l.depositSupply == l.feeNotesWithdrawn
            && l.pool.tokens - l.vault == l.feeTokensWithdrawn
  {
    var l := Run(NewLedger(time), instructions);
    RunSafe(NewLedger(time), instructions);
    if DepositNoteExchangeRate(l.pool).Ok? { DepositRateQuotesNet(l.pool); }
  }

  // ----- how far the rate can fall -----

  /** Every deposit note is worth at least `rate`. */
  predicate Covers(p: Pool, rate: nat) {
    0 < p.depositNotes && rate * p.depositNotes <= Net(p)
  }

  /** The rate that is still covered after an instruction: a burn may cost the slack. */
  function NextFloor(rate: nat, i: Instruction): (floor: nat)
    requires ONE <= rate
    ensures ONE <= floor <= rate
  {
    SlackGrowsSlowly(rate, rate);
    if Burns(i) then rate - Slack(rate) else rate
  }

  function FloorAfter(rate: nat, instructions: seq<Instruction>): (floor: nat)
    requires ONE <= rate
    ensures ONE <= floor <= rate
    decreases instructions
  {
    if instructions == [] then rate
    else FloorAfter(NextFloor(rate, instructions[0]), instructions[1..])
  }

  function BurnCount(instructions: seq<Instruction>): nat {
    if instructions == [] then 0
    else (if Burns(instructions[0]) then 1 else 0) + BurnCount(instructions[1..])
  }

  lemma OneMoreBurn(burns: nat, slack: nat, later: nat)
    requires later <= slack
    ensures slack + burns * later <= (1 + burns) * slack
    ensures burns * later <= burns * slack
  {
    MulLe(later, slack, burns);
  }

  lemma {:induction false} FloorAfterBound(rate: nat, instructions: seq<Instruction>)
    requires ONE <= rate
    ensures rate - BurnCount(instructions) * Slack(rate) <= FloorAfter(rate, instructions)
    decreases instructions
  {
    if instructions != [] {
      var next, rest := NextFloor(rate, instructions[0]), instructions[1..];
      FloorAfterBound(next, rest);
      DivMono(next - 1, rate - 1, ONE);
      OneMoreBurn(BurnCount(rest), Slack(rate), Slack(next));
    }
  }

  predicate NotesNeverRunOut(l: Ledger, instructions: seq<Instruction>)
    decreases instructions
  {
    && 0 < l.pool.depositNotes
    && (instructions != [] ==> NotesNeverRunOut(Execute(l, instructions[0]), instructions[1..]))
  }

  lemma KeepsRateKeepsFloor(p: Pool, q: Pool, rate: nat)
    requires Backed(p) && Covers(p, rate) && KeepsRate(p, q)
    ensures Covers(q, rate)
  {
    if DepositNoteExchangeRate(p).Ok? {
      RateAtLeast(p, rate);
      MulLe(rate, DepositNoteExchangeRate(p).value, q.depositNotes);
    }
  }

  lemma NearlyKeepsRateLowersFloor(p: Pool, q: Pool, rate: nat)
    requires Backed(p) && Covers(p, rate) && NearlyKeepsRate(p, q) && ONE <= rate && 0 < q.depositNotes
    ensures Slack(rate) <= rate && Covers(q, rate - Slack(rate))
  {
    RateAtLeast(p, rate);
    var quoted := DepositNoteExchangeRate(p).value;
    SlackGrowsSlowly(rate, quoted);
    HigherRateCoversMore(rate, quoted, q.depositNotes);
    SlackPerNote(rate, q.depositNotes);
  }

  lemma SlackPerNote(rate: nat, n: nat)
    requires ONE <= rate && 1 <= n
    ensures (rate - Slack(rate)) * n <= rate * n - Slack(rate)
  {
    MulLe(1, n, Slack(rate));
    assert (rate - Slack(rate)) * n == rate * n - Slack(rate) * n;
  }

  lemma FloorStep(p: Pool, q: Pool, i: Instruction, rate: nat)
    requires Backed(p) && Covers(p, rate) && ONE <= rate && 0 < q.depositNotes
    requires !Burns(i) ==> KeepsRate(p, q)
    requires Burns(i) && q != p ==> NearlyKeepsRate(p, q)
    ensures Covers(q, NextFloor(rate, i))
  {
    if !Burns(i) {
      KeepsRateKeepsFloor(p, q, rate);
    } else if q != p {
      NearlyKeepsRateLowersFloor(p, q, rate);
    } else {
      MulLe(NextFloor(rate, i), rate, p.depositNotes);
    }
  }

  lemma {:induction false} RunKeepsFloor(l: Ledger, instructions: seq<Instruction>, rate: nat)
    requires Inv(l) && ONE <= rate && Covers(l.pool, rate) && NotesNeverRunOut(l, instructions)
    ensures Covers(Run(l, instructions).pool, FloorAfter(rate, instructions))
    decreases instructions
  {
    if instructions != [] {
      var i := instructions[0];
      StepSafe(l, i);
      FloorStep(l.pool, Execute(l, i).pool, i, rate);
      RunKeepsFloor(Execute(l, i), instructions[1..], NextFloor(rate, i));
    }
  }

  /**
   The truncated deposit rate over a run in which the notes never run out: it cannot fall without
   a burn, and each burn lowers it by at most ceil(rate) - 1 units of 10^-15, so not at all while
   the rate is exactly one.
   */
  lemma RateOverRun(l: Ledger, instructions: seq<Instruction>)
    requires Inv(l) && NotesNeverRunOut(l, instructions)
    requires DepositNoteExchangeRate(l.pool).Ok?
    requires DepositNoteExchangeRate(Run(l, instructions).pool).Ok?
    ensures var before := DepositNoteExchangeRate(l.pool).value;
            var after := DepositNoteExchangeRate(Run(l, instructions).pool).value;
            && ONE <= before && ONE <= after
            && before - BurnCount(instructions) * Slack(before) <= after
            && (BurnCount(instructions) == 0 || before == ONE ==> before <= after)
  {
    var before := DepositNoteExchangeRate(l.pool).value;
    DepositRateQuotesNet(l.pool);
    RunKeepsFloor(l, instructions, before);
    FloorAfterBound(before, instructions);
    RateAtLeast(Run(l, instructions).pool, FloorAfter(before, instructions));
    if before == ONE { assert BurnCount(instructions) * Slack(before) == 0; }
  }
}
