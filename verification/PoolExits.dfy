/** Holders of deposit notes leaving the pool, one after another. */
module PoolExits {
  import opened Outcomes
  import opened Rounding
  import opened FixedPoint
  import opened PoolModel
  import opened NoteRounding
  import opened PoolSafety
  import opened PoolLedger
  import opened PoolRuns
  import opened PoolClosing

  /** An account of deposit notes, and the tokens its owner already has. */
  datatype Holder = Holder(notes: nat, tokens: nat)

  /** Withdrawing everything: the source is set to zero. */
  predicate IsExit(i: Instruction) {
    i.WithdrawTokens? && i.change == EVERYTHING_FROM_SOURCE
  }

  function Exit(h: Holder, time: int): Instruction {
    WithdrawTokens(time, EVERYTHING_FROM_SOURCE, h.notes, h.tokens)
  }

  /**
   The pool and its vault hold enough for holders of `leaving` notes: everything but what `rate0`
   leaves to the notes that stay. Debt, uncollected fees and earlier payouts of fees may be as large
   as they like.
   */
  predicate CanPay(l: Ledger, leaving: nat, rate0: nat) {
    && Inv(l) && !l.pool.config.disabled && DepositNoteExchangeRate(l.pool).Ok?
    && leaving <= l.depositSupply
    && rate0 * l.pool.depositNotes <= Net(l.pool)
    && Net(l.pool) - rate0 * (l.pool.depositNotes - leaving) <= l.pool.tokens * ONE
    && Net(l.pool) - rate0 * (l.pool.depositNotes - leaving) <= l.vault * ONE
  }

  function TotalNotes(holders: seq<Holder>): nat {
    if holders == [] then 0 else holders[0].notes + TotalNotes(holders[1..])
  }

  /** Each holder leaves and is paid at least the rate. */
  predicate AllExit(l: Ledger, holders: seq<Holder>, time: int, rate0: nat)
    decreases holders
  {
    holders != []
    ==> var after := Execute(l, Exit(holders[0], time));
        && Step(l, Exit(holders[0], time)).Ok? && holders[0].notes * rate0 / ONE <= l.vault - after.vault
        && AllExit(after, holders[1..], time, rate0)
  }

  function AfterExits(l: Ledger, holders: seq<Holder>, time: int): Ledger
    decreases holders
  {
    if holders == [] then l else AfterExits(Execute(l, Exit(holders[0], time)), holders[1..], time)
  }

  // ----- one exit -----

  lemma RateIsQuoted(l: Ledger, leaving: nat, rate0: nat)
    requires CanPay(l, leaving, rate0)
    ensures QuotesNet(l.pool, DepositNoteExchangeRate(l.pool).value)
    ensures ONE <= DepositNoteExchangeRate(l.pool).value
    ensures 0 < l.pool.depositNotes ==> rate0 <= DepositNoteExchangeRate(l.pool).value
  {
    DepositRateQuotesNet(l.pool);
    if 0 < l.pool.depositNotes { RateAtLeast(l.pool, rate0); }
  }

  /** What some of the leaving notes are worth is within what is set aside for all of them. */
  lemma ShareOfLeaving(low: nat, rate: nat, total: nat, leaving: nat, notes: nat, net: nat)
    requires low <= rate && notes <= leaving <= total && rate * total <= net
    ensures notes * rate <= net - low * (total - leaving)
    ensures notes * rate <= rate * total
  {
    assert rate * total == notes * rate + rate * (total - notes);
    MulLe(low, rate, total - leaving);
    MulLe(total - leaving, total - notes, rate);
    MulLe(0, total - notes, rate);
  }

  /** The ledger after `tokens` are paid out for all the notes of a holder. */
  function PaidOut(l: Ledger, notes: nat, tokens: nat): Ledger
    requires notes <= l.depositSupply && notes <= l.pool.depositNotes && tokens <= l.pool.tokens && tokens <= l.vault
  {
    l.(pool := l.pool.(tokens := l.pool.tokens - tokens, depositNotes := l.pool.depositNotes - notes),
       vault := l.vault - tokens,
       depositSupply := l.depositSupply - notes)
  }

  lemma ExitConverts(l: Ledger, notes: nat, rate: nat)
    requires Inv(l) && DepositNoteExchangeRate(l.pool) == Ok(rate)
    requires notes <= l.depositSupply && FloorValue(notes, rate) <= l.pool.tokens
    ensures var tokens := FloorValue(notes, rate);
            && ConvertAmount(l.pool, Notes(notes), Withdraw) == Ok(FullAmount(tokens, notes))
            && ConvertAmount(l.pool, Tokens(tokens), Withdraw) == Ok(FullAmount(tokens, notes))
  {
    var p := l.pool;
    DepositRateQuotesNet(p);
    DivBounds(notes * rate, ONE);
    MulLe(notes, p.depositNotes, rate);
    NotesConvert(notes, rate, p.tokens);
  }

  lemma ExitNeeds(l: Ledger, i: Instruction, rate: nat)
    requires Inv(l) && IsExit(i) && i.time == l.pool.accruedUntil && DepositNoteExchangeRate(l.pool) == Ok(rate)
    requires WithdrawStep(l, i).Ok?
    ensures var tokens := FloorValue(i.sourceNotes, rate);
            && !l.pool.config.disabled && i.sourceNotes <= l.depositSupply
            && tokens <= l.pool.tokens && tokens <= l.vault
            && WithdrawStep(l, i).value == PaidOut(l, i.sourceNotes, tokens)
  {
    var p := l.pool;
    assert AccrueFully(p, i.time) == Ok(p);
    var source := ConvertAmount(p, Notes(i.sourceNotes), Withdraw).value;
    var destination := FullAmount(i.destinationTokens, i.destinationTokens);
    var full := CalculateFullAmount(p, source, destination, i.change, Withdraw).value;
    WithdrawAllIsExact(p, i.sourceNotes, source, destination, full);
    DivIs(i.sourceNotes * rate, ONE, full.tokens);
  }

  lemma ExitFollows(l: Ledger, i: Instruction, rate: nat)
    requires Inv(l) && IsExit(i) && i.time == l.pool.accruedUntil && DepositNoteExchangeRate(l.pool) == Ok(rate)
    requires !l.pool.config.disabled && i.sourceNotes <= l.depositSupply
    requires FloorValue(i.sourceNotes, rate) <= l.pool.tokens && FloorValue(i.sourceNotes, rate) <= l.vault
    ensures WithdrawStep(l, i).Ok?
  {
    assert AccrueFully(l.pool, i.time) == Ok(l.pool);
    ExitConverts(l, i.sourceNotes, rate);
  }

  /**
   An exit at any time: at the rate quoted once interest has accrued, it succeeds if and only if the
   pool is enabled and the notes exist and their value, in whole tokens, is in the pool and in the
   vault. It then burns the whole balance and pays exactly that value.
   */
  lemma ExitPaysInFull(l: Ledger, i: Instruction, mid: Pool, rate: nat)
    requires Inv(l) && IsExit(i)
    requires AccrueFully(l.pool, i.time) == Ok(mid) && DepositNoteExchangeRate(mid) == Ok(rate)
    ensures var tokens := FloorValue(i.sourceNotes, rate);
            && (Step(l, i).Ok? <==> && !mid.config.disabled && i.sourceNotes <= l.depositSupply
                                    && tokens <= mid.tokens && tokens <= l.vault)
            && (Step(l, i).Ok? ==> && i.sourceNotes <= mid.depositNotes
                                   && Step(l, i).value == PaidOut(l.(pool := mid), i.sourceNotes, tokens))
  {
    var m, tokens := l.(pool := mid), FloorValue(i.sourceNotes, rate);
    AccrueFullyKeeps(l.pool, i.time, mid);
    AccruedOnce(l.pool, i.time, mid);
    WithdrawAccruesFirst(l, i, mid);
    if WithdrawStep(m, i).Ok? { ExitNeeds(m, i, rate); }
    if !mid.config.disabled && i.sourceNotes <= l.depositSupply && tokens <= mid.tokens && tokens <= l.vault {
      ExitFollows(m, i, rate);
    }
  }

  // ----- exits in any run -----

  /** What an exit at a rate leaves behind every other note, and what it pays, at any lower rate. */
  lemma ExitShare(low: nat, rate: nat, total: nat, notes: nat)
    requires low <= rate && notes <= total
    ensures notes * low / ONE <= notes * rate / ONE
    ensures low * (total - notes) + notes * rate <= rate * total
  {
    MulLe(low, rate, notes);
    DivMono(notes * low, notes * rate, ONE);
    MulLe(low, rate, total - notes);
    assert rate * (total - notes) == rate * total - notes * rate;
  }

  /** A successful exit pays at least a covered rate and leaves it covered, also when it burns the last notes. */
  lemma ExitKeepsRate(l: Ledger, i: Instruction, rate0: nat)
    requires Inv(l) && IsExit(i) && Step(l, i).Ok? && 0 < l.pool.depositNotes
    requires rate0 * l.pool.depositNotes <= Net(l.pool)
    ensures var after := Step(l, i).value;
            && i.sourceNotes * rate0 / ONE <= l.vault - after.vault
            && rate0 * after.pool.depositNotes <= Net(after.pool)
  {
    var mid := AccrueFully(l.pool, i.time).value;
    var rate := DepositNoteExchangeRate(mid).value;
    AccrueFullyKeeps(l.pool, i.time, mid);
    ExitPaysInFull(l, i, mid, rate);
    DepositRateQuotesNet(mid);
    RateAtLeast(mid, rate0);
    ExitShare(rate0, rate, mid.depositNotes, i.sourceNotes);
    DivBounds(i.sourceNotes * rate, ONE);
  }

  /** Notes are burned by exits alone. */
  predicate OnlyExitsBurn(instructions: seq<Instruction>) {
    forall k :: 0 <= k < |instructions| && Burns(instructions[k]) ==> IsExit(instructions[k])
  }

  /** Each instruction finds notes outstanding; the last one may burn them all. */
  predicate NotesLast(l: Ledger, instructions: seq<Instruction>)
    decreases instructions
  {
    instructions != []
    ==> 0 < l.pool.depositNotes && NotesLast(Execute(l, instructions[0]), instructions[1..])
  }

  /** Every exit that succeeds is paid at least the rate. */
  predicate ExitsPaid(l: Ledger, instructions: seq<Instruction>, rate0: nat)
    decreases instructions
  {
    instructions != []
    ==> var i, after := instructions[0], Execute(l, instructions[0]);
        && (IsExit(i) && Step(l, i).Ok? ==> i.sourceNotes * rate0 / ONE <= l.vault - after.vault)
        && ExitsPaid(after, instructions[1..], rate0)
  }

  lemma StepBesidesExits(l: Ledger, i: Instruction, rate0: nat)
    requires Inv(l) && (Burns(i) ==> IsExit(i)) && 0 < l.pool.depositNotes
    requires rate0 * l.pool.depositNotes <= Net(l.pool)
    ensures var after := Execute(l, i);
            && Inv(after) && rate0 * after.pool.depositNotes <= Net(after.pool)
            && (IsExit(i) && Step(l, i).Ok? ==> i.sourceNotes * rate0 / ONE <= l.vault - after.vault)
  {
    StepSafe(l, i);
    if !Burns(i) {
      KeepsRateKeepsFloor(l.pool, Execute(l, i).pool, rate0);
    } else if Step(l, i).Ok? {
      ExitKeepsRate(l, i, rate0);
    }
  }

  /**
   Exits at any times, mixed with deposits, loans, repayments with tokens, accruals, fee collections
   and administration: while there are notes, every exit that succeeds is paid at least its notes'
   worth at a rate that was covered at the start, whatever the order; the notes that remain are still
   backed at that rate, and the uncollected fees stay covered.
   */
  lemma {:induction false} ExitsInAnyRun(l: Ledger, instructions: seq<Instruction>, rate0: nat)
    requires Inv(l) && rate0 * l.pool.depositNotes <= Net(l.pool)
    requires OnlyExitsBurn(instructions) && NotesLast(l, instructions)
    ensures ExitsPaid(l, instructions, rate0)
    ensures rate0 * Run(l, instructions).pool.depositNotes <= Net(Run(l, instructions).pool)
    ensures 0 <= Net(Run(l, instructions).pool)
    decreases instructions
  {
    if instructions != [] {
      StepBesidesExits(l, instructions[0], rate0);
      ExitsInAnyRun(Execute(l, instructions[0]), instructions[1..], rate0);
    } else {
      MulLe(0, l.pool.depositNotes, rate0);
    }
  }

  /** The rate quoted at the start is such a rate. */
  lemma QuotedRateBoundsExits(l: Ledger, instructions: seq<Instruction>, quoted: nat)
    requires Inv(l) && DepositNoteExchangeRate(l.pool) == Ok(quoted)
    requires OnlyExitsBurn(instructions) && NotesLast(l, instructions)
    ensures ExitsPaid(l, instructions, quoted)
    ensures quoted * Run(l, instructions).pool.depositNotes <= Net(Run(l, instructions).pool)
  {
    DepositRateQuotesNet(l.pool);
    ExitsInAnyRun(l, instructions, quoted);
  }

  // ----- everyone at once -----

  lemma HolderCanLeave(l: Ledger, h: Holder, leaving: nat, rate0: nat, rate: nat)
    requires CanPay(l, leaving, rate0) && h.notes <= leaving && DepositNoteExchangeRate(l.pool) == Ok(rate)
    ensures var tokens := FloorValue(h.notes, rate);
            && tokens <= l.pool.tokens && tokens <= l.vault
            && Step(l, Exit(h, l.pool.accruedUntil)) == Ok(PaidOut(l, h.notes, tokens))
  {
    var i := Exit(h, l.pool.accruedUntil);
    assert AccrueFully(l.pool, i.time) == Ok(l.pool);
    ValueIsThere(l, h.notes, leaving, rate0, rate);
    ExitPaysInFull(l, i, l.pool, rate);
  }

  lemma ValueIsThere(l: Ledger, notes: nat, leaving: nat, rate0: nat, rate: nat)
    requires CanPay(l, leaving, rate0) && notes <= leaving && DepositNoteExchangeRate(l.pool) == Ok(rate)
    ensures FloorValue(notes, rate) <= l.pool.tokens && FloorValue(notes, rate) <= l.vault
  {
    RateIsQuoted(l, leaving, rate0);
    if 0 < notes { ShareOfLeaving(rate0, rate, l.pool.depositNotes, leaving, notes, Net(l.pool)); }
    DivBounds(notes * rate, ONE);
  }

  /** What is set aside for the leaving notes pays for some of them, and for the others after that. */
  lemma OthersCanLeave(l: Ledger, notes: nat, tokens: nat, leaving: nat, rate0: nat, rate: nat)
    requires CanPay(l, leaving, rate0) && notes <= leaving && DepositNoteExchangeRate(l.pool) == Ok(rate)
    requires tokens == FloorValue(notes, rate) <= l.pool.tokens && tokens <= l.vault
    requires Inv(PaidOut(l, notes, tokens))
    ensures CanPay(PaidOut(l, notes, tokens), leaving - notes, rate0) && notes * rate0 / ONE <= tokens
  {
    RateIsQuoted(l, leaving, rate0);
    if 0 < l.pool.depositNotes { ShareTaken(Net(l.pool), l.pool.depositNotes, notes, rate0, rate, tokens); }
    StillQuoted(l, notes, tokens, rate);
    var stay := l.pool.depositNotes - leaving;
    assert l.pool.depositNotes - notes - (leaving - notes) == stay;
  }

  lemma ShareTaken(net: nat, total: nat, notes: nat, low: nat, rate: nat, tokens: nat)
    requires low <= rate && notes <= total && rate * total <= net && tokens == FloorValue(notes, rate)
    ensures tokens * ONE <= net && low * (total - notes) <= net - tokens * ONE && notes * low / ONE <= tokens
  {
    DivBounds(notes * rate, ONE);
    MulLe(notes, total, rate);
    ExitShare(low, rate, total, notes);
  }

  lemma StillQuoted(l: Ledger, notes: nat, tokens: nat, rate: nat)
    requires DepositNoteExchangeRate(l.pool) == Ok(rate)
    requires notes <= l.depositSupply && notes <= l.pool.depositNotes && tokens <= l.pool.tokens && tokens <= l.vault
    requires tokens * ONE <= Net(l.pool)
    ensures DepositNoteExchangeRate(PaidOut(l, notes, tokens).pool).Ok?
  {
  }

  lemma LeavingHolder(l: Ledger, h: Holder, leaving: nat, rate0: nat)
    requires CanPay(l, leaving, rate0) && h.notes <= leaving
    ensures Step(l, Exit(h, l.pool.accruedUntil)).Ok?
    ensures var after := Step(l, Exit(h, l.pool.accruedUntil)).value;
            && CanPay(after, leaving - h.notes, rate0)
            && after.pool.depositNotes == l.pool.depositNotes - h.notes
            && after.pool.fees == l.pool.fees && after.pool.accruedUntil == l.pool.accruedUntil
            && h.notes * rate0 / ONE <= l.vault - after.vault
  {
    var rate := DepositNoteExchangeRate(l.pool).value;
    HolderCanLeave(l, h, leaving, rate0, rate);
    StepSafe(l, Exit(h, l.pool.accruedUntil));
    OthersCanLeave(l, h.notes, FloorValue(h.notes, rate), leaving, rate0, rate);
  }

  /** The state of the pool after everyone has left: their notes are gone and the fees untouched. */
  predicate LeftBy(after: Pool, before: Pool, notes: nat, rate0: nat) {
    && after.depositNotes == before.depositNotes - notes && after.fees == before.fees
    && rate0 * after.depositNotes <= Net(after)
  }

  lemma LeftInTurn(after: Pool, next: Pool, before: Pool, rest: nat, first: nat, rate0: nat)
    requires LeftBy(after, next, rest, rate0) && next.fees == before.fees
    requires next.depositNotes == before.depositNotes - first
    ensures LeftBy(after, before, first + rest, rate0)
  {
  }

  lemma {:induction false} AllCanLeave(l: Ledger, holders: seq<Holder>, rate0: nat)
    requires CanPay(l, TotalNotes(holders), rate0)
    ensures AllExit(l, holders, l.pool.accruedUntil, rate0)
    ensures LeftBy(AfterExits(l, holders, l.pool.accruedUntil).pool, l.pool, TotalNotes(holders), rate0)
    decreases holders
  {
    if holders != [] {
      var first, rest, time := holders[0], holders[1..], l.pool.accruedUntil;
      LeavingHolder(l, first, TotalNotes(holders), rate0);
      var next := Step(l, Exit(first, time)).value;
      assert Execute(l, Exit(first, time)) == next;
      assert TotalNotes(rest) == TotalNotes(holders) - first.notes;
      AllCanLeave(next, rest, rate0);
      LeftInTurn(AfterExits(next, rest, time).pool, next.pool, l.pool, TotalNotes(rest), first.notes, rate0);
    }
  }

  /**
   When the vault holds what the leaving holders are owed once interest has accrued, all of them can
   leave at that time, in any order; each is paid at least the covered rate, the notes that remain
   are backed at it, and the uncollected fees are untouched.
   */
  lemma EveryExitIsPaid(l: Ledger, holders: seq<Holder>, time: int, mid: Pool, rate0: nat)
    requires Inv(l) && holders != [] && AccrueFully(l.pool, time) == Ok(mid)
    requires CanPay(l.(pool := mid), TotalNotes(holders), rate0)
    ensures AllExit(l, holders, time, rate0)
    ensures LeftBy(AfterExits(l, holders, time).pool, mid, TotalNotes(holders), rate0)
  {
    AccruedOnce(l.pool, time, mid);
    WithdrawAccruesFirst(l, Exit(holders[0], time), mid);
    AllCanLeave(l.(pool := mid), holders, rate0);
  }
}
