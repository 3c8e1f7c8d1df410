/**
 Going in and out of the pool: when a deposit comes back larger than it went in.

 A trip is a deposit followed by a withdrawal at the same time with the notes that were received.
 */
module PoolRoundTrip {
  import opened Outcomes
  import opened Rounding
  import opened FixedPoint
  import opened PoolModel
  import opened NoteRounding
  import opened PoolSafety
  import opened PoolLedger
  import opened PoolRuns
  import opened PoolClosing
  import opened PoolExits
  import opened PoolScenes

  /** The state after depositing `tokens`, and the notes that were minted. */
  ghost predicate Deposited(p: Pool, tokens: nat, paid: FullAmount, after: Pool) {
    ConvertAmount(p, Tokens(tokens), Deposit) == Ok(paid) && RecordDeposit(p, paid) == Ok(after)
  }

  // ----- into a pool with notes -----

  /** The value of newly minted notes at the next quoted rate never exceeds what was paid for them. */
  lemma MintedNotesWorthAtMostPaid(net: int, total: nat, paid: nat, minted: nat, rate: nat, next: nat)
    requires 0 < total
    requires rate * total <= net < rate * total + total
    requires minted * rate <= paid
    requires next * (total + minted) <= net + paid
    ensures minted * next <= paid
  {
    if rate < next {
      var d := next - rate;
      assert next * (total + minted) == rate * total + minted * rate + d * total + minted * d;
      MulLe(1, d, total);
      assert minted * next == minted * rate + minted * d;
    } else {
      MulLe(next, rate, minted);
    }
  }

  lemma NextQuote(p: Pool, tokens: nat, paid: FullAmount, after: Pool)
    requires Backed(p) && 0 < p.depositNotes && Deposited(p, tokens, paid, after)
    requires DepositNoteExchangeRate(after).Ok?
    ensures paid.notes * DepositNoteExchangeRate(after).value <= tokens * ONE
  {
    var rate := DepositNoteExchangeRate(p).value;
    DepositRateQuotesNet(p);
    DownFromTokens(tokens, rate, paid);
    DepositPaysItsNotes(p, tokens, paid, after);
    DepositRateQuotesNet(after);
    MintedNotesWorthAtMostPaid(Net(p), p.depositNotes, tokens * ONE, paid.notes, rate,
                               DepositNoteExchangeRate(after).value);
  }

  // ----- into a pool without notes -----

  /** The notes that a deposit into a pool without notes buys. */
  function FirstNotes(net: int, tokens: nat): nat
    requires 0 <= net
  {
    DivNonNegative(tokens * ONE, Max(ONE, net));
    tokens * ONE / Max(ONE, net)
  }

  /** A first deposit owns the whole pool, so its notes are quoted at the net value per note. */
  lemma FirstQuote(p: Pool, tokens: nat, paid: FullAmount, after: Pool, next: nat)
    requires p.depositNotes == 0 && 0 < tokens && Deposited(p, tokens, paid, after)
    requires DepositNoteExchangeRate(after) == Ok(next)
    ensures 0 <= Net(p) && 0 < paid.notes == FirstNotes(Net(p), tokens)
    ensures Max(ONE, Net(p)) <= tokens * ONE
    ensures next * paid.notes <= Net(p) + tokens * ONE < next * paid.notes + paid.notes
    ensures next == (Net(p) + tokens * ONE) / paid.notes
  {
    var rate := DepositNoteExchangeRate(p).value;
    DepositRateQuotesNet(p);
    DownFromTokens(tokens, rate, paid);
    DivIs(tokens * ONE, rate, paid.notes);
    MulLe(1, paid.notes, rate);
    DepositPaysItsNotes(p, tokens, paid, after);
    DepositRateQuotesNet(after);
    DivIs(Net(p) + tokens * ONE, paid.notes, next);
  }

  lemma Remainder(a: nat, d: nat, q: nat)
    requires 0 < d && q == a / d
    ensures a % d == a - q * d
  {
    DivBounds(a, d);
    MulCommutes(q, d);
  }

  // ----- a trip -----

  /**
   The deposit d took the ledger l, whose pool is `mid` once interest has accrued, to `after`; it
   paid tokens for notes, and the rate quoted after it is `next`.
   */
  ghost predicate DepositMade(l: Ledger, d: Instruction, mid: Pool, paid: FullAmount, after: Ledger, next: nat) {
    && Inv(l) && d.DepositTokens? && Step(l, d) == Ok(after) && AccrueFully(l.pool, d.time) == Ok(mid)
    && after.vault == l.vault + paid.tokens && after.depositSupply == l.depositSupply + paid.notes
    && DepositNoteExchangeRate(after.pool) == Ok(next)
  }

  lemma DepositParts(l: Ledger, d: Instruction, mid: Pool, paid: FullAmount, after: Ledger, next: nat)
    requires DepositMade(l, d, mid, paid, after, next)
    ensures Backed(mid) && Counts64(mid) && Deposited(mid, paid.tokens, paid, after.pool)
    ensures Inv(after) && !after.pool.config.disabled && ONE <= next
    ensures after.pool.tokens == mid.tokens + paid.tokens && after.pool.accruedUntil == d.time
  {
    var source := ConvertAmount(mid, Tokens(d.sourceTokens), Deposit).value;
    var destination := ConvertAmount(mid, Notes(d.destinationNotes), Deposit).value;
    var full := CalculateFullAmount(mid, source, destination, d.change, Deposit).value;
    FullAmountIsConverted(mid, source, destination, d.change, Deposit, full);
    AccrueFullyKeeps(l.pool, d.time, mid);
    AccruedOnce(l.pool, d.time, mid);
    assert paid == full;
    DepositSafe(l, d);
    DepositRateQuotesNet(after.pool);
  }

  /** The withdrawal succeeds and pays more than `tokens`. */
  predicate PaysMore(after: Ledger, w: Instruction, tokens: nat)
    requires w.WithdrawTokens?
  {
    Step(after, w).Ok? && tokens < after.vault - Step(after, w).value.vault
  }

  // ----- withdrawing all the notes received -----

  /** The unowned value of a pool without notes pays for a gain: a token, beyond what its quotation loses. */
  predicate ResidueIsGained(net: int, tokens: nat)
    requires 0 <= net
  {
    var notes := FirstNotes(net, tokens);
    0 < notes && ONE + (net + tokens * ONE) % notes <= net
  }

  lemma QuotationLoses(net: nat, tokens: nat, notes: nat, next: nat)
    requires 0 < notes && next == (net + tokens * ONE) / notes
    ensures tokens < FloorValue(notes, next) <==> ONE + (net + tokens * ONE) % notes <= net
  {
    Remainder(net + tokens * ONE, notes, next);
    MulCommutes(next, notes);
    DivBounds(notes * next, ONE);
  }

  /** When the notes received are worth more whole tokens than were paid for them. */
  lemma NotesWorthMore(p: Pool, tokens: nat, paid: FullAmount, after: Pool, next: nat)
    requires Backed(p) && Deposited(p, tokens, paid, after) && DepositNoteExchangeRate(after) == Ok(next)
    ensures 0 <= Net(p)
    ensures tokens < FloorValue(paid.notes, next) <==> p.depositNotes == 0 && ResidueIsGained(Net(p), tokens)
  {
    DepositRateQuotesNet(p);
    if 0 < p.depositNotes {
      NextQuote(p, tokens, paid, after);
      DivBounds(paid.notes * next, ONE);
    } else if 0 < tokens {
      FirstQuote(p, tokens, paid, after, next);
      QuotationLoses(Net(p), tokens, paid.notes, next);
    } else {
      assert paid.notes * next == 0;
    }
  }

  /**
   A deposit and an exit with all the notes received return more tokens than went in if and only if
   there were no notes before, the unowned value exceeds one token and the remainder of the new
   quotation, and what the notes are worth is in the pool and in the vault. So they never do when
   notes are outstanding, or with less than a token unowned.
   */
  lemma RoundTripByNotes(
    l: Ledger, d: Instruction, mid: Pool, paid: FullAmount, after: Ledger, next: nat, w: Instruction)
    requires DepositMade(l, d, mid, paid, after, next)
    requires IsExit(w) && w.time == d.time && w.sourceNotes == paid.notes
    ensures 0 <= Net(mid)
    ensures PaysMore(after, w, paid.tokens)
            <==> && mid.depositNotes == 0 && ResidueIsGained(Net(mid), paid.tokens)
                 && FloorValue(paid.notes, next) <= mid.tokens + paid.tokens
                 && FloorValue(paid.notes, next) <= l.vault + paid.tokens
  {
    DepositParts(l, d, mid, paid, after, next);
    NotesWorthMore(mid, paid.tokens, paid, after.pool, next);
    assert AccrueFully(after.pool, w.time) == Ok(after.pool);
    ExitPaysInFull(after, w, after.pool, next);
  }

  // ----- withdrawing by tokens for the notes received -----

  /** A withdrawal at that time, with the notes received, pays more than was deposited. */
  predicate ReturnsMore(after: Ledger, time: int, paid: FullAmount, w: Instruction) {
    w.WithdrawTokens? && w.time == time && w.sourceNotes == paid.notes && PaysMore(after, w, paid.tokens)
  }

  ghost predicate GainsBack(after: Ledger, time: int, paid: FullAmount) {
    exists w :: ReturnsMore(after, time, paid, w)
  }

  /**
   One token more than went in still costs no more than the notes received, at the rate quoted after
   the deposit; and what those notes are worth can be counted in 64 bits.
   */
  predicate OneMoreIsPaidFor(paid: FullAmount, next: nat) {
    && 0 < paid.tokens && (paid.tokens + 1) * ONE * ONE < (paid.notes * ONE + 1) * next
    && paid.notes * next < U64_MAX * ONE + ONE
  }

  /** What a withdrawal at the quoted rate pays, and what it costs. */
  lemma WithdrawalParts(l: Ledger, w: Instruction, rate: nat) returns (full: FullAmount)
    requires w.WithdrawTokens? && w.time == l.pool.accruedUntil && WithdrawStep(l, w).Ok?
    requires DepositNoteExchangeRate(l.pool) == Ok(rate)
    ensures full.tokens == l.vault - WithdrawStep(l, w).value.vault
    ensures ConvertAmount(l.pool, Tokens(full.tokens), Withdraw) == Ok(full)
    ensures RecordWithdraw(l.pool, full) == Ok(WithdrawStep(l, w).value.pool)
    ensures full.notes <= w.sourceNotes && full.tokens <= l.pool.tokens && full.tokens <= l.vault
    ensures w.sourceNotes * rate < U64_MAX * ONE + ONE
  {
    var p := l.pool;
    assert AccrueFully(p, w.time) == Ok(p);
    var source := ConvertAmount(p, Notes(w.sourceNotes), Withdraw).value;
    var destination := FullAmount(w.destinationTokens, w.destinationTokens);
    full := CalculateFullAmount(p, source, destination, w.change, Withdraw).value;
    FullAmountIsConverted(p, source, destination, w.change, Withdraw, full);
    DownFromNotes(w.sourceNotes, rate, source);
  }

  lemma GainNeeds(after: Ledger, w: Instruction, paid: FullAmount, next: nat)
    requires w.WithdrawTokens? && w.time == after.pool.accruedUntil && w.sourceNotes == paid.notes
    requires PaysMore(after, w, paid.tokens) && DepositNoteExchangeRate(after.pool) == Ok(next)
    ensures (paid.tokens + 1) * ONE * ONE < (paid.notes * ONE + 1) * next
    ensures 0 < paid.notes && paid.notes * next < U64_MAX * ONE + ONE
    ensures paid.tokens < after.pool.tokens && paid.tokens < after.vault
  {
    var out := WithdrawalParts(after, w, next);
    UpNotesAtMost(out.tokens, next, out, paid.notes);
    MulLe((paid.tokens + 1) * ONE, out.tokens * ONE, ONE);
  }

  lemma GainFollows(after: Ledger, paid: FullAmount, next: nat)
    requires Inv(after) && !after.pool.config.disabled && DepositNoteExchangeRate(after.pool) == Ok(next)
    requires ONE <= next <= 2 * paid.tokens * ONE && OneMoreIsPaidFor(paid, next)
    requires paid.notes <= after.depositSupply && paid.tokens < after.pool.tokens && paid.tokens < after.vault
    requires paid.notes * next * ONE <= U192_MAX
    ensures GainsBack(after, after.pool.accruedUntil, paid)
  {
    var t, n := paid.tokens + 1, paid.notes;
    var w := WithdrawTokens(after.pool.accruedUntil, TokenChange(ShiftBy, t), n, 0);
    NotesConvert(n, next, U64_MAX);
    WithinNotesConverts(t, next, n);
    assert AccrueFully(after.pool, w.time) == Ok(after.pool);
    assert Step(after, w).Ok?;
    assert ReturnsMore(after, w.time, paid, w);
  }

  lemma NextRateIsModest(p: Pool, tokens: nat, paid: FullAmount, after: Pool, next: nat)
    requires Backed(p) && Deposited(p, tokens, paid, after) && DepositNoteExchangeRate(after) == Ok(next)
    requires 0 < tokens
    ensures 0 < paid.notes && next <= 2 * tokens * ONE && paid.notes * next <= 2 * tokens * ONE
  {
    if 0 < p.depositNotes {
      NextQuote(p, tokens, paid, after);
    } else {
      FirstQuote(p, tokens, paid, after, next);
      MulCommutes(next, paid.notes);
    }
    MulLe(1, paid.notes, next);
  }

  /**
   A withdrawal with the notes received can return more than was deposited if and only if one more
   token than went in still costs no more than those notes, and there was a token in the pool and in
   the vault before. The notes are the ceiling of a truncated quotient, which is why they can.
   */
  lemma RoundTripByTokens(l: Ledger, d: Instruction, mid: Pool, paid: FullAmount, after: Ledger, next: nat)
    requires DepositMade(l, d, mid, paid, after, next)
    ensures GainsBack(after, d.time, paid) <==> OneMoreIsPaidFor(paid, next) && 1 <= mid.tokens && 1 <= l.vault
  {
    DepositParts(l, d, mid, paid, after, next);
    if GainsBack(after, d.time, paid) {
      var w :| ReturnsMore(after, d.time, paid, w);
      GainNeeds(after, w, paid, next);
    }
    if OneMoreIsPaidFor(paid, next) && 1 <= mid.tokens && 1 <= l.vault {
      NextRateIsModest(mid, paid.tokens, paid, after.pool, next);
      GainFollows(after, paid, next);
    }
  }

  lemma NotesPaidFor(tokens: nat, notes: nat, next: nat)
    requires notes * next <= tokens * ONE && next <= ONE * ONE
    ensures (notes * ONE + 1) * next <= (tokens + 1) * ONE * ONE
  {
    assert (notes * ONE + 1) * next == (notes * next) * ONE + next;
    MulLe(notes * next, tokens * ONE, ONE);
  }

  lemma OneMoreIsNotPaidFor(p: Pool, paid: FullAmount, after: Pool, next: nat)
    requires Backed(p) && 0 < p.depositNotes && Deposited(p, paid.tokens, paid, after)
    requires DepositNoteExchangeRate(after) == Ok(next) && next <= ONE * ONE
    ensures !OneMoreIsPaidFor(paid, next)
  {
    NextQuote(p, paid.tokens, paid, after);
    NotesPaidFor(paid.tokens, paid.notes, next);
  }

  /** With notes outstanding there is no gain at any rate up to 10^15 tokens per note. */
  lemma NoGainByTokens(l: Ledger, d: Instruction, mid: Pool, paid: FullAmount, after: Ledger, next: nat)
    requires DepositMade(l, d, mid, paid, after, next) && 0 < mid.depositNotes && next <= ONE * ONE
    ensures !GainsBack(after, d.time, paid)
  {
    DepositParts(l, d, mid, paid, after, next);
    OneMoreIsNotPaidFor(mid, paid, after.pool, next);
    RoundTripByTokens(l, d, mid, paid, after, next);
  }

  /** One more token costs no more than `tokens` notes only if the residue is a unit short of a token. */
  lemma LastUnit(net: nat, tokens: nat, d: nat)
    requires net < ONE && 0 < tokens && d * tokens <= net < d * tokens + tokens
    ensures (tokens + 1) * ONE * ONE < (tokens * ONE + 1) * (ONE + d)
            <==> net == ONE - 1 && d * tokens == ONE - 1
  {
    var gained := d * tokens;
    assert (tokens * ONE + 1) * (ONE + d) == tokens * ONE * ONE + gained * ONE + ONE + d;
    if 0 < d { MulLe(1, tokens, d); }
  }

  lemma LastUnitDivides(net: nat, tokens: nat, next: nat)
    requires net < ONE && 0 < tokens && next * tokens <= net + tokens * ONE < next * tokens + tokens
    ensures (tokens + 1) * ONE * ONE < (tokens * ONE + 1) * next
            <==> net == ONE - 1 && (ONE - 1) % tokens == 0
  {
    if next < ONE { MulLe(next + 1, ONE, tokens); }
    var d := next - ONE;
    assert next * tokens == d * tokens + tokens * ONE;
    LastUnit(net, tokens, d);
    DivIs(net, tokens, d);
    Remainder(net, tokens, d);
  }

  /**
   Without notes, and with less than a token unowned, a deposit gains if and only if the unowned
   value is one unit short of a token, the deposit divides it, and there was a token in the pool and
   in the vault.
   */
  lemma GainFromTheLastUnit(l: Ledger, d: Instruction, mid: Pool, paid: FullAmount, after: Ledger, next: nat)
    requires DepositMade(l, d, mid, paid, after, next) && mid.depositNotes == 0 && Net(mid) < ONE
    ensures GainsBack(after, d.time, paid)
            <==> && 0 < paid.tokens && Net(mid) == ONE - 1 && (ONE - 1) % paid.tokens == 0
                 && 1 <= mid.tokens && 1 <= l.vault
  {
    RoundTripByTokens(l, d, mid, paid, after, next);
    DepositParts(l, d, mid, paid, after, next);
    if 0 < paid.tokens && 1 <= mid.tokens { OneMoreAtTheLastUnit(mid, paid, after.pool, next); }
  }

  lemma OneMoreAtTheLastUnit(p: Pool, paid: FullAmount, after: Pool, next: nat)
    requires p.depositNotes == 0 && Net(p) < ONE && Deposited(p, paid.tokens, paid, after)
    requires DepositNoteExchangeRate(after) == Ok(next) && 0 < paid.tokens < U64_MAX
    ensures OneMoreIsPaidFor(paid, next) <==> Net(p) == ONE - 1 && (ONE - 1) % paid.tokens == 0
  {
    FirstQuote(p, paid.tokens, paid, after, next);
    DivIs(paid.tokens * ONE, ONE, paid.tokens);
    LastUnitDivides(Net(p), paid.tokens, next);
    MulCommutes(next, paid.notes);
  }

  // ----- giving the notes back in several withdrawals -----

  /** A burn at the quoted rate q leaves any other rate r covered, but for what was missing and r's slack. */
  lemma BurnAtAnyRate(net: int, total: nat, tokens: nat, burned: nat, q: nat, r: nat, missing: nat)
    requires ONE <= q && ONE <= r && burned < total && q * total <= net && r * total - missing <= net
    requires tokens * ONE <= burned * q + Slack(q)
    ensures r * (total - burned) - (missing + Slack(r)) <= net - tokens * ONE
  {
    assert q * (total - burned) == q * total - burned * q;
    assert r * (total - burned) == r * total - burned * r;
    if r <= q {
      SlackGrowsSlowly(r, q);
      HigherRateCoversMore(r, q, total - burned);
    } else {
      MulLe(q, r, burned);
      DivMono(q - 1, r - 1, ONE);
    }
  }

  /** Every note of p is worth r but for what is missing in all. */
  predicate CoversBut(p: Pool, r: nat, missing: nat) {
    r * p.depositNotes - missing <= Net(p)
  }

  /** From l to `end` nothing but payouts lowered the net value. */
  predicate OnlyPaid(l: Ledger, end: Ledger) {
    Net(end.pool) == Net(l.pool) - (l.vault - end.vault) * ONE
  }

  /** One withdrawal, once interest has accrued: what it pays and what it leaves behind a rate r. */
  lemma OneWithdrawal(l: Ledger, w: Instruction, r: nat, missing: nat)
    requires Inv(l) && w.WithdrawTokens? && w.time == l.pool.accruedUntil && ONE <= r
    requires 0 < Execute(l, w).pool.depositNotes && CoversBut(l.pool, r, missing)
    ensures var after := Execute(l, w);
            Inv(after) && OnlyPaid(l, after) && CoversBut(after.pool, r, missing + Slack(r))
  {
    StepSafe(l, w);
    if Step(l, w).Ok? {
      WithdrawalIsQuoted(l, w);
      var q := DepositNoteExchangeRate(l.pool).value;
      var full := WithdrawalParts(l, w, q);
      DepositRateQuotesNet(l.pool);
      UpFromTokens(full.tokens, q, full);
      BurnAtAnyRate(Net(l.pool), l.pool.depositNotes, full.tokens, full.notes, q, r, missing);
    }
  }

  predicate WithdrawalsAt(time: int, ws: seq<Instruction>) {
    forall k :: 0 <= k < |ws| ==> ws[k].WithdrawTokens? && ws[k].time == time
  }

  lemma WithdrawalBurns(l: Ledger, w: Instruction)
    requires w.WithdrawTokens? && w.time == l.pool.accruedUntil
    ensures Execute(l, w).pool.depositNotes <= l.pool.depositNotes
    ensures Execute(l, w).pool.accruedUntil == l.pool.accruedUntil
  {
    assert AccrueFully(l.pool, w.time) == Ok(l.pool);
  }

  lemma {:induction false} WithdrawalsBurn(l: Ledger, ws: seq<Instruction>)
    requires WithdrawalsAt(l.pool.accruedUntil, ws)
    ensures Run(l, ws).pool.depositNotes <= l.pool.depositNotes
    decreases ws
  {
    if ws != [] {
      WithdrawalBurns(l, ws[0]);
      WithdrawalsBurn(Execute(l, ws[0]), ws[1..]);
    }
  }

  lemma PaidOnwards(l: Ledger, next: Ledger, end: Ledger)
    requires OnlyPaid(l, next) && OnlyPaid(next, end)
    ensures OnlyPaid(l, end)
  {
  }

  /** The slack of several withdrawals. */
  function Slacks(k: nat, slack: nat): nat {
    if k == 0 then 0 else slack + Slacks(k - 1, slack)
  }

  lemma {:induction false} SlacksAre(k: nat, slack: nat)
    ensures Slacks(k, slack) == k * slack
  {
    if 0 < k {
      SlacksAre(k - 1, slack);
      assert k * slack == (k - 1) * slack + slack;
    }
  }

  lemma {:induction false} SeveralWithdrawals(l: Ledger, ws: seq<Instruction>, r: nat, missing: nat)
    requires Inv(l) && WithdrawalsAt(l.pool.accruedUntil, ws) && ONE <= r
    requires 0 < Run(l, ws).pool.depositNotes && CoversBut(l.pool, r, missing)
    ensures OnlyPaid(l, Run(l, ws)) && CoversBut(Run(l, ws).pool, r, missing + Slacks(|ws|, Slack(r)))
    decreases ws
  {
    if ws != [] {
      var next, rest := Execute(l, ws[0]), ws[1..];
      WithdrawalBurns(l, ws[0]);
      WithdrawalsBurn(next, rest);
      OneWithdrawal(l, ws[0], r, missing);
      SeveralWithdrawals(next, rest, r, missing + Slack(r));
      PaidOnwards(l, next, Run(next, rest));
    }
  }

  /**
   A deposit into a pool with notes, given back in any number of withdrawals at the same time that
   burn no more than the notes received, returns at most what went in, the remainder of the quotation
   at which it was made, and for each withdrawal the slack of that rate.
   */
  lemma TripInParts(
    l: Ledger, d: Instruction, mid: Pool, paid: FullAmount, after: Ledger, next: nat, ws: seq<Instruction>)
    requires DepositMade(l, d, mid, paid, after, next) && 0 < mid.depositNotes
    requires WithdrawalsAt(d.time, ws) && mid.depositNotes <= Run(after, ws).pool.depositNotes
    ensures DepositNoteExchangeRate(mid).Ok? && ONE <= DepositNoteExchangeRate(mid).value
    ensures var rate := DepositNoteExchangeRate(mid).value;
            && 0 <= Net(mid) - rate * mid.depositNotes < mid.depositNotes
            && (after.vault - Run(after, ws).vault) * ONE
               <= paid.tokens * ONE + (Net(mid) - rate * mid.depositNotes) + |ws| * Slack(rate)
  {
    DepositParts(l, d, mid, paid, after, next);
    DepositRateQuotesNet(mid);
    DepositPaysItsNotes(mid, paid.tokens, paid, after.pool);
    var rate, end := DepositNoteExchangeRate(mid).value, Run(after, ws);
    SeveralWithdrawals(after, ws, rate, 0);
    SlacksAre(|ws|, Slack(rate));
    MulLe(mid.depositNotes, end.pool.depositNotes, rate);
  }

  // ----- both exceptions do occur -----

  /** A run from a new pool in which one token goes in and two come out, by tokens. */
  lemma GainInARun()
    ensures Reachable(Scene(0, 1, 1, 0, 0, 1)) && Net(Scene(0, 1, 1, 0, 0, 1).pool) == ONE - 1
    ensures Step(Scene(0, 1, 1, 0, 0, 1), DepositOf(1, 1)) == Ok(Scene(0, 1, 2, 1, 0, 1))
    ensures Step(Scene(0, 1, 2, 1, 0, 1), WithdrawalOf(1, 2, 1)) == Ok(Scene(0, 1, 0, 0, 0, 1))
  {
    Residue();
    DepositOneMore();
    LastNoteForTwo();
  }

  /** And one in which the notes of one token are worth two. */
  lemma ResidueGainedInARun()
    ensures Reachable(FreeScene(0, 1, 0, 0, 1)) && Net(FreeScene(0, 1, 0, 0, 1).pool) == ONE
    ensures Step(FreeScene(0, 1, 0, 0, 1), DepositOf(1, 1)) == Ok(FreeScene(0, 2, 1, 0, 1))
    ensures Step(FreeScene(0, 2, 1, 0, 1), WithdrawTokens(1, EVERYTHING_FROM_SOURCE, 1, 0))
            == Ok(FreeScene(0, 0, 0, 0, 1))
  {
    WholeTokenLeft();
    FreeDeposit();
    FreeExit();
  }

  // ----- the residue of a pool without notes -----

  /** Some deposit at that time, and some withdrawal with the notes received, return more than went in. */
  ghost predicate SomeTripGains(l: Ledger, time: int) {
    exists d, after, paid :: TripGains(l, time, d, after, paid)
  }

  ghost predicate TripGains(l: Ledger, time: int, d: Instruction, after: Ledger, paid: FullAmount) {
    && d.DepositTokens? && d.time == time && Step(l, d) == Ok(after)
    && after.vault == l.vault + paid.tokens && after.depositSupply == l.depositSupply + paid.notes
    && GainsBack(after, time, paid)
  }

  lemma TripNeedsLiquidity(l: Ledger, d: Instruction, mid: Pool, paid: FullAmount, after: Ledger, w: Instruction)
    requires Inv(l) && d.DepositTokens? && Step(l, d) == Ok(after) && AccrueFully(l.pool, d.time) == Ok(mid)
    requires after.vault == l.vault + paid.tokens && after.depositSupply == l.depositSupply + paid.notes
    requires w.WithdrawTokens? && w.time == d.time && w.sourceNotes == paid.notes && PaysMore(after, w, paid.tokens)
    ensures 1 <= mid.tokens && 1 <= l.vault
  {
    DepositAccrues(l, d, after);
    WithdrawalIsQuoted(after, w);
    var next := DepositNoteExchangeRate(after.pool).value;
    assert ReturnsMore(after, d.time, paid, w);
    RoundTripByTokens(l, d, mid, paid, after, next);
  }

  /** No trip gains without a token in the pool and in the vault to gain. */
  lemma GainNeedsLiquidity(l: Ledger, time: int, mid: Pool)
    requires Inv(l) && AccrueFully(l.pool, time) == Ok(mid) && SomeTripGains(l, time)
    ensures 1 <= mid.tokens && 1 <= l.vault
  {
    var d, after, paid :| TripGains(l, time, d, after, paid);
    var w :| ReturnsMore(after, time, paid, w);
    TripNeedsLiquidity(l, d, mid, paid, after, w);
  }

  lemma DepositAccrues(l: Ledger, d: Instruction, after: Ledger)
    requires d.DepositTokens? && DepositStep(l, d) == Ok(after)
    ensures after.pool.accruedUntil == d.time
  {
    AccruedOnce(l.pool, d.time, AccrueFully(l.pool, d.time).value);
  }

  lemma WithdrawalIsQuoted(l: Ledger, w: Instruction)
    requires w.WithdrawTokens? && w.time == l.pool.accruedUntil && WithdrawStep(l, w).Ok?
    ensures DepositNoteExchangeRate(l.pool).Ok?
  {
    assert AccrueFully(l.pool, w.time) == Ok(l.pool);
  }

  /** The tokens that buy one note of a pool without notes: its net value, rounded up. */
  function PriceOfAll(net: int): nat
    requires 0 <= net
  {
    DivNonNegative(net + ONE - 1, ONE);
    (net + ONE - 1) / ONE
  }

  /** No notes, a token or more that nobody owns, and numbers within 64 and 192 bits. */
  predicate Ownerless(l: Ledger, time: int, mid: Pool) {
    && Inv(l) && AccrueFully(l.pool, time) == Ok(mid) && !mid.config.disabled
    && mid.depositNotes == 0 && ONE <= Net(mid) && (Value(mid) + Net(mid) + ONE) * ONE <= U192_MAX
    && mid.tokens + PriceOfAll(Net(mid)) <= mid.config.depositLimit <= U64_MAX
    && Net(mid) + PriceOfAll(Net(mid)) * ONE < U64_MAX * ONE + ONE
  }

  lemma BuyEverything(l: Ledger, time: int, mid: Pool, t: nat) returns (d: Instruction, after: Ledger)
    requires Ownerless(l, time, mid) && t == PriceOfAll(Net(mid))
    ensures d.DepositTokens? && d.time == time
    ensures DepositMade(l, d, mid, FullAmount(t, 1), after, Net(mid) + t * ONE)
  {
    DivBounds(Net(mid) + ONE - 1, ONE);
    d := DepositTokens(time, TokenChange(ShiftBy, t), t, 0);
    var bought := mid.(tokens := mid.tokens + t, depositNotes := 1);
    AccrueFullyKeeps(l.pool, time, mid);
    ResidueBuysOneNote(mid, t, bought);
    NothingForNothing(mid);
    after := l.(pool := bought, vault := l.vault + t, depositSupply := l.depositSupply + 1);
    assert Step(l, d) == Ok(after);
    QuoteForOneNote(bought);
  }

  lemma NothingForNothing(p: Pool)
    requires DepositNoteExchangeRate(p).Ok?
    ensures ConvertAmount(p, Notes(0), Deposit) == Ok(FullAmount(0, 0))
  {
  }

  /**
   In a pool without notes and with at least one token of unowned value, some deposit comes back
   larger than it went in if and only if there is a token in the pool and in the vault: just enough
   for one note owns everything, and can withdraw a token more than it paid.
   */
  lemma FirstDepositorOwnsTheResidue(l: Ledger, time: int, mid: Pool)
    requires Ownerless(l, time, mid)
    ensures SomeTripGains(l, time) <==> 1 <= mid.tokens && 1 <= l.vault
  {
    if SomeTripGains(l, time) { GainNeedsLiquidity(l, time, mid); }
    if 1 <= mid.tokens && 1 <= l.vault {
      var t := PriceOfAll(Net(mid));
      var d, after := BuyEverything(l, time, mid, t);
      OneNoteGains(l, d, mid, t, after);
    }
  }

  lemma OneNoteGains(l: Ledger, d: Instruction, mid: Pool, t: nat, after: Ledger)
    requires 0 <= Net(mid) && DepositMade(l, d, mid, FullAmount(t, 1), after, Net(mid) + t * ONE)
    requires t == PriceOfAll(Net(mid)) && ONE <= Net(mid) && Net(mid) + t * ONE < U64_MAX * ONE + ONE
    requires 1 <= mid.tokens && 1 <= l.vault
    ensures SomeTripGains(l, d.time)
  {
    var next := Net(mid) + t * ONE;
    assert OneMoreIsPaidFor(FullAmount(t, 1), next) by {
      DivBounds(Net(mid) + ONE - 1, ONE);
      OneNoteBuysOneMore(Net(mid), t);
    }
    RoundTripByTokens(l, d, mid, FullAmount(t, 1), after, next);
    assert TripGains(l, d.time, d, after, FullAmount(t, 1));
  }

  lemma OneNoteBuysOneMore(net: nat, t: nat)
    requires ONE <= net <= t * ONE < net + ONE && net + t * ONE < U64_MAX * ONE + ONE
    ensures OneMoreIsPaidFor(FullAmount(t, 1), net + t * ONE)
  {
    var next := net + t * ONE;
    assert (1 * ONE + 1) * next == next * ONE + next;
  }

  lemma ResidueBuysOneNote(p: Pool, tokens: nat, after: Pool)
    requires p.depositNotes == 0 && ONE <= Net(p) <= tokens * ONE < Net(p) + ONE
    requires (Value(p) + Net(p) + ONE) * ONE <= U192_MAX
    requires p.tokens + tokens <= p.config.depositLimit <= U64_MAX
    requires after == p.(tokens := p.tokens + tokens, depositNotes := 1)
    ensures Deposited(p, tokens, FullAmount(tokens, 1), after)
  {
    QuoteForOneNote(p);
    OneNoteFor(tokens, Net(p));
  }

  lemma QuoteForOneNote(p: Pool)
    requires p.depositNotes <= 1 && ONE <= Net(p) && Value(p) * ONE <= U192_MAX
    ensures DepositNoteExchangeRate(p) == Ok(Net(p))
  {
    DivIs(Net(p) * ONE, ONE, Net(p));
  }

  lemma OneNoteFor(tokens: nat, rate: nat)
    requires ONE <= rate <= tokens * ONE < rate + ONE && tokens * ONE * ONE <= U192_MAX
    ensures ConvertAtRate(Tokens(tokens), Down, rate) == Ok(FullAmount(tokens, 1))
  {
    var q := tokens * ONE * ONE / rate;
    DivAtLeast(tokens * ONE * ONE, rate, ONE);
    DivBelow(tokens * ONE * ONE, rate, 2 * ONE);
    DivIs(q, ONE, 1);
  }
}
