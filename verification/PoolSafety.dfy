/**
 What each pool operation does to the value behind the notes.

 `Backed` is the invariant: while deposit notes are outstanding, the value net of uncollected fees
 is at least one token per note. The lemmas below take the state in which amounts are converted,
 that is, after interest has been accrued.
 */
module PoolSafety {
  import opened Outcomes
  import opened Rounding
  import opened FixedPoint
  import opened RateCurve
  import opened PoolModel
  import opened NoteRounding

  predicate Backed(p: Pool) {
    p.depositNotes > 0 ==> ONE * p.depositNotes <= Net(p)
  }

  predicate FeesCapped(p: Pool) {
    p.config.managementFeeRate <= MAX_MANAGEMENT_FEE_RATE
  }

  /** `rate` is a lower bound on the value of each note, and no higher whole rate would be. */
  predicate QuotesNet(p: Pool, rate: nat) {
    && 0 <= Net(p)
    && rate * p.depositNotes <= Net(p)
    && (p.depositNotes > 0 ==> Net(p) < rate * p.depositNotes + p.depositNotes)
    && (p.depositNotes == 0 ==> rate == Max(ONE, Net(p)))
  }

  /** The quoted deposit rate is the net value per note, rounded down; it needs the fees to be covered. */
  lemma DepositRateQuotesNet(p: Pool)
    requires Backed(p) && DepositNoteExchangeRate(p).Ok?
    ensures QuotesNet(p, DepositNoteExchangeRate(p).value)
    ensures ONE <= DepositNoteExchangeRate(p).value
  {
    var n, net := Max(1, p.depositNotes), Max(ONE, Net(p));
    DivCancel(net, n, ONE);
    DivBounds(net, n);
    assert ONE * n <= net;
    DivAtLeast(net, n, ONE);
  }

  lemma RateAtLeast(p: Pool, rate: nat)
    requires DepositNoteExchangeRate(p).Ok? && 0 < p.depositNotes
    requires rate * p.depositNotes <= Net(p)
    ensures rate <= DepositNoteExchangeRate(p).value
  {
    var n, net := p.depositNotes, Max(ONE, Net(p));
    DivCancel(net, n, ONE);
    DivAtLeast(net, n, rate);
  }

  lemma LoanRateQuotesDebt(p: Pool)
    requires LoanNoteExchangeRate(p).Ok?
    ensures var rate := LoanNoteExchangeRate(p).value; var n := Max(1, p.loanNotes);
            rate * n <= Max(ONE, p.borrowed) < rate * n + n
  {
    DivCancel(Max(ONE, p.borrowed), Max(1, p.loanNotes), ONE);
    DivBounds(Max(ONE, p.borrowed), Max(1, p.loanNotes));
  }

  // ----- deposit -----

  /** Minting notes for at least the rate's worth each keeps the rate's worth behind every note. */
  lemma MintKeepsEnough(rate: nat, net: int, total: nat, paid: nat, minted: nat)
    requires ONE <= rate && rate * total <= net && minted * rate <= paid
    ensures rate * (total + minted) <= net + paid
    ensures ONE * (total + minted) <= net + paid
  {
    assert rate * (total + minted) == rate * total + minted * rate;
    MulLe(ONE, rate, total + minted);
  }

  /** A deposit pays at least the quoted rate for every note it mints. */
  lemma DepositPaysItsNotes(p: Pool, tokens: nat, full: FullAmount, after: Pool)
    requires Backed(p) && ConvertAmount(p, Tokens(tokens), Deposit) == Ok(full)
    requires RecordDeposit(p, full) == Ok(after)
    ensures Backed(after) && Net(after) == Net(p) + tokens * ONE
    ensures var rate := DepositNoteExchangeRate(p).value;
            full.notes * rate <= tokens * ONE && rate * after.depositNotes <= Net(after)
  {
    var rate := DepositNoteExchangeRate(p).value;
    DepositRateQuotesNet(p);
    DownFromTokens(tokens, rate, full);
    MintKeepsEnough(rate, Net(p), p.depositNotes, tokens * ONE, full.notes);
  }

  // ----- withdraw and margin repay -----

  /** Paying out `tokens` for notes rounded up leaves the rate's worth behind every other note, but for the slack. */
  lemma BurnLeavesEnough(rate: nat, net: int, total: nat, tokens: nat, burned: nat)
    requires ONE <= rate && burned <= total
    requires rate * total <= net && tokens * ONE <= burned * rate + Slack(rate)
    ensures rate * (total - burned) - Slack(rate) <= net - tokens * ONE
    ensures burned < total ==> ONE * (total - burned) <= net - tokens * ONE
  {
    assert rate * (total - burned) == rate * total - burned * rate;
    SlackGrowsSlowly(rate, rate);
    if burned < total {
      assert (rate - ONE) * (total - burned) == rate * (total - burned) - ONE * (total - burned);
      MulLe(1, total - burned, rate - ONE);
    }
  }

  lemma WithdrawLeavesEnough(p: Pool, tokens: nat, full: FullAmount, after: Pool)
    requires Backed(p) && ConvertAmount(p, Tokens(tokens), Withdraw) == Ok(full)
    requires RecordWithdraw(p, full) == Ok(after)
    ensures Backed(after) && Net(after) == Net(p) - tokens * ONE
    ensures var rate := DepositNoteExchangeRate(p).value;
            0 < rate && rate * after.depositNotes - Slack(rate) <= Net(after)
  {
    var rate := DepositNoteExchangeRate(p).value;
    DepositRateQuotesNet(p);
    UpFromTokens(tokens, rate, full);
    BurnLeavesEnough(rate, Net(p), p.depositNotes, tokens, full.notes);
  }

  /**
   A repayment lowers the debt by the tokens, or to zero when the tokens are its ceiling; so it
   never loses value and never gains a whole token.
   */
  lemma ReduceDebtKeepsValue(borrowed: nat, tokens: nat)
    requires ReduceDebt(borrowed, tokens).Ok?
    ensures var left := ReduceDebt(borrowed, tokens).value;
            borrowed <= left + tokens * ONE < borrowed + ONE && left <= borrowed
  {
    DivBounds(ONE - 1 + borrowed, ONE);
  }

  lemma MarginRepayLeavesEnough(p: Pool, repay: FullAmount, burn: FullAmount, after: Pool)
    requires Backed(p) && ConvertAmount(p, Tokens(repay.tokens), Withdraw) == Ok(burn)
    requires RecordMarginRepay(p, repay, burn) == Ok(after)
    ensures Backed(after)
    ensures Net(p) - repay.tokens * ONE <= Net(after) < Net(p) - repay.tokens * ONE + ONE
    ensures var rate := DepositNoteExchangeRate(p).value;
            0 < rate && rate * after.depositNotes - Slack(rate) <= Net(after)
  {
    var rate := DepositNoteExchangeRate(p).value;
    DepositRateQuotesNet(p);
    UpFromTokens(repay.tokens, rate, burn);
    BurnLeavesEnough(rate, Net(p), p.depositNotes, repay.tokens, burn.notes);
    ReduceDebtKeepsValue(p.borrowed, repay.tokens);
  }

  // ----- borrow and repay -----

  lemma BorrowKeepsValue(p: Pool, full: FullAmount, after: Pool)
    requires RecordBorrow(p, full) == Ok(after)
    ensures Value(after) == Value(p) && Net(after) == Net(p) && after.depositNotes == p.depositNotes
  {
  }

  /** A loan is granted only within the borrow limit, and only while less than 95.01% of the value is lent out. */
  lemma BorrowRespectsLimits(p: Pool, full: FullAmount, after: Pool)
    requires RecordBorrow(p, full) == Ok(after)
    ensures p.config.allowLending && after.borrowed <= p.config.borrowLimit * ONE
    ensures after.borrowed * 10_000 < Value(after) * (MAX_POOL_UTIL_RATIO_AFTER_BORROW_BPS + 1)
    ensures after.borrowed == p.borrowed + full.tokens * ONE && after.loanNotes == p.loanNotes + full.notes
  {
    UtilizationBelow(after.borrowed, Value(after), MAX_POOL_UTIL_RATIO_AFTER_BORROW_BPS);
  }

  lemma UtilizationBelow(borrowed: nat, total: nat, bps: nat)
    requires 0 < total && borrowed * ONE / total / BPS <= bps
    ensures borrowed * 10_000 < total * (bps + 1)
  {
    var utilization := borrowed * ONE / total;
    DivBounds(borrowed * ONE, total);
    DivBounds(utilization, BPS);
    MulLe(utilization + 1, (bps + 1) * BPS, total);
    assert (utilization + 1) * total == utilization * total + total;
    assert (bps + 1) * BPS * total == (total * (bps + 1)) * BPS;
  }

  lemma UtilizationWithin(borrowed: nat, total: nat, bps: nat)
    requires 0 < total && borrowed * 10_000 < total * (bps + 1)
    ensures 0 <= borrowed * ONE / total / BPS <= bps
  {
    var utilization := borrowed * ONE / total;
    DivNonNegative(borrowed * ONE, total);
    DivNonNegative(utilization, BPS);
    assert (bps + 1) * BPS * total == (total * (bps + 1)) * BPS;
    DivBelow(borrowed * ONE, total, (bps + 1) * BPS);
    DivBelow(utilization, BPS, bps + 1);
  }

  /**
   A loan is granted exactly if the pool lends, has the tokens, and stays within the borrow limit and
   below 95.01% utilization.
   */
  lemma LoanIsGranted(p: Pool, full: FullAmount)
    requires Value(p) * ONE <= U192_MAX && p.config.borrowLimit * ONE <= U192_MAX
    requires p.loanNotes + full.notes <= U64_MAX
    ensures RecordBorrow(p, full).Ok?
            <==> && p.config.allowLending && full.tokens <= p.tokens
                 && p.borrowed + full.tokens * ONE <= p.config.borrowLimit * ONE
                 && (p.borrowed + full.tokens * ONE) * 10_000 < Value(p) * 9_501
  {
    var borrowed, total := p.borrowed + full.tokens * ONE, Value(p);
    if 0 < total && full.tokens <= p.tokens {
      if borrowed * 10_000 < total * 9_501 { UtilizationWithin(borrowed, total, 9_500); }
      if RecordBorrow(p, full).Ok? { BorrowRespectsLimits(p, full, RecordBorrow(p, full).value); }
    }
  }

  /** A repayment is accepted exactly if it is less than a token above the debt. */
  lemma DebtIsReducible(borrowed: nat, tokens: nat)
    requires AsU64Ceil(borrowed).Ok?
    ensures ReduceDebt(borrowed, tokens).Ok? <==> tokens * ONE < borrowed + ONE
  {
    DivBounds(ONE - 1 + borrowed, ONE);
  }

  lemma RepayKeepsValue(p: Pool, full: FullAmount, after: Pool)
    requires RecordRepay(p, full) == Ok(after)
    ensures Value(p) <= Value(after) < Value(p) + ONE
    ensures Net(p) <= Net(after) && after.depositNotes == p.depositNotes
    ensures Backed(p) ==> Backed(after)
  {
    ReduceDebtKeepsValue(p.borrowed, full.tokens);
  }

  // ----- accrual and fee collection -----

  /** A share of at most 100% never exceeds the whole. */
  lemma ShareAtMost(amount: nat, bps: nat)
    requires bps <= 10_000
    ensures amount * FromBps(bps) / ONE <= amount
  {
    MulLe(FromBps(bps), ONE, amount);
    DivMono(amount * FromBps(bps), amount * ONE, ONE);
    DivIs(amount * ONE, ONE, amount);
  }

  /** Accrual adds interest to the debt and at most as much to the fees. */
  lemma AccrueKeepsBacking(p: Pool, time: int)
    requires FeesCapped(p) && Accrue(p, time).Ok?
    ensures var after := Accrue(p, time).value.0;
            && p.borrowed <= after.borrowed && p.fees <= after.fees && Net(p) <= Net(after)
            && after == p.(borrowed := after.borrowed, fees := after.fees, accruedUntil := after.accruedUntil)
            && (Backed(p) ==> Backed(after))
  {
    var after := Accrue(p, time).value.0;
    if after != p {
      ShareAtMost(after.borrowed - p.borrowed, p.config.managementFeeRate);
    }
  }

  /** The notes minted for the fees take all of them but a remainder worth less than one note. */
  lemma CollectTakesWholeNotes(p: Pool, after: Pool, minted: nat)
    requires CollectFees(p) == Ok((after, minted))
    ensures DepositNoteExchangeRate(p).Ok?
    ensures var rate := DepositNoteExchangeRate(p).value;
            && after == p.(fees := after.fees, depositNotes := p.depositNotes + minted)
            && after.fees == p.fees - minted * rate && after.fees < rate
  {
    var rate := DepositNoteExchangeRate(p).value;
    var q := p.fees * ONE / rate;
    DivBounds(p.fees * ONE, rate);
    DivBounds(q, ONE);
    FloorOfQuotient(p.fees, rate, q, minted);
    if minted > 0 { NotesAtRate(minted, rate); }
  }

  /**
   Collecting fees leaves the total value unchanged, moves exactly the value of the minted notes
   from the fees to the note holders, and leaves the quoted rate unchanged if there were notes before.
   */
  lemma CollectMovesExactly(p: Pool, after: Pool, minted: nat)
    requires Backed(p) && CollectFees(p) == Ok((after, minted))
    ensures Backed(after) && Value(after) == Value(p)
    ensures DepositNoteExchangeRate(p).Ok?
    ensures Net(after) == Net(p) + minted * DepositNoteExchangeRate(p).value
    ensures p.depositNotes > 0 && DepositNoteExchangeRate(after).Ok?
            ==> DepositNoteExchangeRate(after) == DepositNoteExchangeRate(p)
  {
    CollectTakesWholeNotes(p, after, minted);
    DepositRateQuotesNet(p);
    var rate := DepositNoteExchangeRate(p).value;
    MintKeepsEnough(rate, Net(p), p.depositNotes, minted * rate, minted);
    if p.depositNotes > 0 && DepositNoteExchangeRate(after).Ok? {
      MintKeepsQuote(rate, p.depositNotes, minted);
      DepositRateQuotesNet(after);
      SameQuote(after, rate, DepositNoteExchangeRate(after).value);
    }
  }

  lemma MintKeepsQuote(rate: nat, total: nat, minted: nat)
    ensures rate * (total + minted) == rate * total + minted * rate
  {
  }

  lemma SameQuote(p: Pool, a: nat, b: nat)
    requires QuotesNet(p, a) && QuotesNet(p, b)
    ensures a == b
  {
    if a < b { MulLe(a + 1, b, p.depositNotes); }
    if b < a { MulLe(b + 1, a, p.depositNotes); }
  }

  // ----- the rate from one state to the next -----

  /**
   No note is burned, and every deposit note in q is worth at least the rate that p quotes. Where p
   quotes none, because the quotation overflows, the value behind the same notes has not fallen.
   */
  predicate KeepsRate(p: Pool, q: Pool) {
    && p.depositNotes <= q.depositNotes
    && (DepositNoteExchangeRate(p).Ok? && q.depositNotes > 0
        ==> DepositNoteExchangeRate(p).value * q.depositNotes <= Net(q))
    && (DepositNoteExchangeRate(p).Err? && p.depositNotes > 0
        ==> Net(p) <= Net(q) && q.depositNotes == p.depositNotes)
  }

  /** The quoted rate still stands behind the notes that are left, but for its slack over all of them. */
  predicate NearlyKeepsRate(p: Pool, q: Pool) {
    && (p.depositNotes > 0 ==> DepositNoteExchangeRate(p).Ok?)
    && (DepositNoteExchangeRate(p).Ok? && q.depositNotes > 0
        ==> var rate := DepositNoteExchangeRate(p).value;
            0 < rate && rate * q.depositNotes - Slack(rate) <= Net(q))
  }

  /** The state `mid` is p with interest accrued, which can only add value. */
  predicate Accrued(p: Pool, mid: Pool) {
    && p.borrowed <= mid.borrowed && Net(p) <= Net(mid)
    && mid.tokens == p.tokens && mid.depositNotes == p.depositNotes
  }

  lemma SameNotesMoreValue(p: Pool, q: Pool)
    requires Backed(p) && Net(p) <= Net(q) && q.depositNotes == p.depositNotes
    ensures KeepsRate(p, q) && Backed(q)
  {
    if DepositNoteExchangeRate(p).Ok? {
      DepositRateQuotesNet(p);
    }
  }

  lemma AccruedRate(p: Pool, mid: Pool)
    requires Backed(p) && Accrued(p, mid) && DepositNoteExchangeRate(mid).Ok?
    ensures p.depositNotes > 0 ==> DepositNoteExchangeRate(p).Ok?
    ensures DepositNoteExchangeRate(p).Ok?
            ==> ONE <= DepositNoteExchangeRate(p).value <= DepositNoteExchangeRate(mid).value
  {
    if DepositNoteExchangeRate(p).Ok? {
      DepositRateQuotesNet(p);
      DepositRateQuotesNet(mid);
      if p.depositNotes > 0 { RateAtLeast(mid, DepositNoteExchangeRate(p).value); }
    }
  }

  /** What keeps the rate after accrual also keeps the lower rate from before it. */
  lemma KeepsRateFromBeforeAccrual(p: Pool, mid: Pool, q: Pool)
    requires Backed(p) && Accrued(p, mid) && DepositNoteExchangeRate(mid).Ok?
    ensures KeepsRate(mid, q) ==> KeepsRate(p, q)
    ensures NearlyKeepsRate(mid, q) ==> NearlyKeepsRate(p, q)
  {
    AccruedRate(p, mid);
    if DepositNoteExchangeRate(p).Ok? && q.depositNotes > 0 {
      var r, s := DepositNoteExchangeRate(p).value, DepositNoteExchangeRate(mid).value;
      SlackGrowsSlowly(r, s);
      HigherRateCoversMore(r, s, q.depositNotes);
    }
  }

  lemma HigherRateCoversMore(r: nat, s: nat, n: nat)
    requires r <= s && 1 <= n
    ensures r * n + (s - r) <= s * n
  {
    assert s * n == r * n + (s - r) * n;
    MulLe(1, n, s - r);
  }
}
