# Glow V1: accounting, liquidation and packing, verified

A Dafny 4.11 model of three parts of the Glow V1 lending protocol and of its client library, with
proofs of what they guarantee.

**The margin pool** is a lending vault. Depositors hold deposit notes and borrowers owe loan notes;
both are exchanged for tokens at rates that are themselves rounded down, on unsigned fixed-point
numbers in units of 10^-15. Interest is a truncated Taylor series over a piecewise-linear rate
curve. Write B for the debt, U for the uncollected fees, D for the tokens, N for the deposit notes,
L for the loan notes, T = B + D (total value) and V = T - U (net value).
- `PoolModel` is the state and every pool operation, as functions that may fail. Arithmetic that
  does not fit 192 or 64 bits panics.
- `PoolLedger` is the nine instructions, each one step of a ledger that also holds the vault and the
  supplies of the two note mints. A failing instruction leaves no trace.
- `MarginPoolProgram` is the pool and its handlers as classes whose fields are updated in place; each
  method is proved to do what its function says, errors included. `Process` adds the roll-back.
- `FixedPoint`, `Compounding`, `RateCurve`, `CatchUp` are the arithmetic under it.
- `PoolAmounts` says what each instruction moves, mints and burns, from its balances and the rates.
- `NoteRounding`, `PoolSafety`, `PoolRuns`, `PoolExits`, `PoolClosing`, `PoolRoundTrip`,
  `PoolShortfall`, `PoolRecovery`, `PoolAccrual` hold the theorems. `PoolScenes` holds ledgers that
  are reached from a new pool, instruction by instruction, to show that the exceptions do occur.

**A liquidation** of a margin account: begin, invokes under cumulative caps, fee collection, end.
`LiquidationModel` is the state machine over 128-bit signed numbers, `LiquidationSafety` the theorems
about it, `LiquidationCase` an account from one liquidation to the next with requests from anyone, and
`LiquidationProgram` the class with its roll-back. What the account is worth enters as an input.

**Transaction packing and lookup tables** in the client: `Packing` and `PackingOptimality` model the
greedy packer with its interpolating search, `LookupTables` the pruning and the exhaustive search.

## Main results

- In every ledger reachable from a new pool, outstanding deposit notes are backed one to one by net
  value, so a quoted deposit rate is at least 1; and the pool's books differ from the mints and the
  vault by exactly what the fee owner has withdrawn (`EveryReachableLedger`).
- Over any run in which deposit notes never run out, the deposit rate cannot fall without a burn, and
  a burn costs it at most ceil(rate) - 1 units of 10^-15 (`RateOverRun`).
- Holders who leave at any times, in any order, and with anything but other burns in between, are all
  paid at least the rate quoted before the first of them left, and the fees stay covered
  (`ExitsInAnyRun`, `QuotedRateBoundsExits`). An exit succeeds if and only if what it is worth is in
  the pool and in the vault (`ExitPaysInFull`), however much of the rest is lent out.
- A deposit followed by an exit with the notes received returns more tokens if and only if the pool
  had no notes, its unowned value exceeds a token and the loss of the new quotation, and the tokens
  are there (`RoundTripByNotes`); some withdrawal does if and only if one token more still costs no
  more than those notes and a token was there (`RoundTripByTokens`). So a deposit into a pool with
  notes never gains by one withdrawal, at rates up to 10^15 tokens per note and without any bound on
  the number of notes (`NoGainByTokens`), and by k withdrawals at most k times the slack of the rate
  and the remainder of its quotation (`TripInParts`).
- The uncollected fees are covered by the value of a pool until a burn takes more than the net value
  (`UncoversExactly`), which is possible exactly in the pools that `PoolsAtRisk` describes, and covered
  again exactly when interest less fees has made up the deficit (`RecoversWhenEarned`).
- The equity lost over a liquidation is at most 5% of the liabilities plus one dollar, whatever is
  invoked and however fees are offset (`EveryLiquidation`), and the liquidator is paid at most a
  twenty-first of what was both brought in and repaid (`LiquidatorIsPaidWhatWasAccrued`). Both hold
  for any sequence of requests from anyone until the liquidation is ended (`EveryCase`): nobody can
  take it over or begin it anew (`ClaimIsHeld`).
- The greedy grouping is a packing whenever there is one, and no order-preserving packing has fewer
  transactions, from either end (`GreedyIsOptimal`, `RightIsOptimal`); and pruning lookup
  tables before the exhaustive search loses nothing (`PruningLosesNothing`,
  `PerfectlyOptimizeLookupTables`).

## Where the code does not do what it says

Each is modelled as the code has it, with a lemma that shows it and one that says exactly when.

- "We always want a rounding position that is favourable to the pool" (state.rs:745): notes for a
  withdrawal by tokens are the ceiling of a quotient that was truncated first. The shortfall is
  bounded by the slack of the rate, but a withdrawal or a `margin_repay` of the last notes can leave
  the uncollected fees uncovered, and the deposit rate is then no longer quoted.
  `FeesCanBecomeUncovered` shows both in reachable pools; `UncoversExactly` and `PoolsAtRisk` say
  when. Such a pool recovers exactly by interest (`RecoversByInterest`, `RecoveryInARun`). It has a
  run that recovers if and only if a week at 200% earns a unit on its debt or a first loan can be
  granted (`RecoveryPossible`); otherwise it keeps its debt and its fees forever (`StuckForever`).
- For the same reason a depositor can gain: in a pool without notes and with one unit less than a
  token left over, a deposit that divides that remainder can be withdrawn with one token more, if a
  token is there (`GainFromTheLastUnit`, `GainInARun`).
- With no deposit notes the rate is documented to be 1 (state.rs:662-664); it is the larger of 1 and
  the net value, so that a first depositor can gain what nobody owned, if and only if a token is
  there to be gained (`FirstDepositorOwnsTheResidue`, `ResidueGainedInARun`).
- `repay` values the loan account at the deposit rate, so setting the loan to zero closes it, leaves
  notes or is refused, as the two rates decide (`RepayToZero`, `RepayCanLeaveNotes`); `margin_repay`
  closes exactly or not at all.
- Repayments and some loans can bring a loan note below the value of a token
  (`LoanRateFallsExactly`, `LoanRateCanFallBelowOne`).
- `configure` accepts borrow rates above 200%, with which interest can never be accrued
  (`AcceptedConfigCanStopAccrual`), and a first knot of zero, with which there is no rate at zero
  utilization (`BorrowRateDefined`).
- `condense` promises the smallest number of transactions; from twenty greedy groups on it returns
  its input unchanged (`CondenseCanMissTheSmallest`). The promise holds if and only if there are
  fewer than twenty or no two neighbouring groups fit together (`CondensedIsSmallest`,
  `CondensedRightIsSmallest`).
- `liquidate_begin` means to accept a second call of the same liquidator without effect; it is
  refused before that, since the account it creates exists (`SecondBeginIsRefused`).
- The liquidation fee scales tokens up by the decimals of the mint instead of down. The result is
  right when it fits, but an invoke on 36 or more tokens with nine decimals overflows
  (`FeeOfEligibleTokens`, `FeeNeedsSmallAmounts`).

## Model

| member | source | states |
|---|---|---|
| Compounding.Expm1Approx | libraries/rust/program-common/src/functions.rs:7-26 | the loop returns the sum of truncated terms, and cannot overflow for x up to 1 and up to twenty terms |
| Compounding.PowerError | libraries/rust/program-common/src/functions.rs:15-23 | the truncated power is never above the exact one and below it by at most one unit per multiplication |
| Compounding.Expm1Accuracy | libraries/rust/program-common/src/functions.rs:3-26 | the result is at most the exact partial sum and short of it by less than `terms` units of 10^-15 |
| Compounding.Expm1Monotone | libraries/rust/program-common/src/functions.rs:7-26 | a larger argument or more terms never give a smaller sum |
| Compounding.CompoundInterestMonotone | programs/margin-pool/src/util.rs:50-71 | defined exactly for rates up to 200% and times up to a week; grows with rate and time, also where the number of terms jumps |
| Compounding.SeriesBelowATwentieth | programs/margin-pool/src/util.rs:50-71 | the interest of one accrual is at most a twentieth of the debt |
| Compounding.TermsSuffice | programs/margin-pool/src/util.rs:45-66 | the number of terms is enough for twenty decimals at every rate and time that are accepted: no longer series is larger by more than 10^-20 |
| RateCurve.SegmentIsLinear | programs/margin-pool/src/util.rs:73-79 | interpolation follows the straight line from below, within less than run + 1 in the product |
| RateCurve.BorrowRateDefined | programs/margin-pool/src/state.rs:312-347 | for an accepted configuration the rate is defined if and only if the first knot or the utilization is positive, and lies between the rates of the knots around it |
| RateCurve.BorrowRateMonotone | programs/margin-pool/src/state.rs:312-347 | the rate never falls as utilization rises, within and across regimes |
| RateCurve.BorrowRateAtKnots | programs/margin-pool/src/state.rs:313-346 | each knot that is reached gets its configured rate exactly |
| RateCurve.BorrowRateOnCurve | programs/margin-pool/src/state.rs:312-347 | between any two neighbouring knots the rate is on the straight line through them, rounded down by less than 1 + ONE / run units |
| NoteRounding.DownFromTokens | programs/margin-pool/src/state.rs:639-641 | notes rounded down are exactly those the tokens pay for in full, despite the double truncation |
| NoteRounding.UpFromTokens | programs/margin-pool/src/state.rs:642-644 | notes rounded up are worth the tokens but for ceil(rate) - 1 units, and one note fewer would not be |
| NoteRounding.UpNotesAtMost | programs/margin-pool/src/state.rs:642-644 | the tokens that cost at most n notes, exactly: tokens * 10^30 < (n * 10^15 + 1) * rate |
| NoteRounding.DownFromNotes | programs/margin-pool/src/state.rs:651-653 | tokens rounded down are worth at most the notes, by less than a token |
| NoteRounding.UpFromNotes | programs/margin-pool/src/state.rs:654-656 | tokens rounded up are worth at least the notes, by less than a token |
| NoteRounding.ConversionFavoursPool | programs/margin-pool/src/state.rs:731-770 | in all eight cases of the rounding table the pool gets at least what it gives, within one note or token, except for the slack of withdrawals and loans by tokens |
| NoteRounding.DownThenUpIsExact | programs/margin-pool/src/state.rs:630-660 | notes to tokens rounded down and back rounded up is the identity at rates of at least 1 |
| NoteRounding.UpThenDown | programs/margin-pool/src/state.rs:630-660 | notes to tokens rounded up and back rounded down never loses a note, and is the identity if and only if the padding is worth less than a note |
| PoolSafety.DepositRateQuotesNet | programs/margin-pool/src/state.rs:665-672 | the quoted deposit rate is the largest whole rate that the net value covers for every note, and at least 1 in a backed pool |
| PoolSafety.LoanRateQuotesDebt | programs/margin-pool/src/state.rs:675-679 | the quoted loan rate is the largest whole rate that the debt covers for every loan note |
| PoolSafety.DepositPaysItsNotes | programs/margin-pool/src/state.rs:167-179 | a deposit pays at least the quoted rate for each note it mints and keeps the pool backed at that rate |
| PoolSafety.WithdrawLeavesEnough | programs/margin-pool/src/state.rs:182-193 | a withdrawal leaves the quoted rate behind every other note but for the slack, and keeps the pool backed |
| PoolSafety.MarginRepayLeavesEnough | programs/margin-pool/src/state.rs:249-280 | so does a repayment with deposit notes, which lowers the net value by the tokens, to within one token |
| PoolSafety.BorrowKeepsValue | programs/margin-pool/src/state.rs:196-208 | a loan leaves total value, net value and deposit notes as they were |
| PoolSafety.BorrowRespectsLimits | programs/margin-pool/src/state.rs:197-216 | a loan is granted only within the borrow limit and only below 95.01% utilization |
| PoolSafety.LoanIsGranted | programs/margin-pool/src/state.rs:196-219 | and within the 192-bit range it is granted exactly if the pool lends, has the tokens and stays within both limits |
| PoolSafety.DebtIsReducible | programs/margin-pool/src/state.rs:229-240 | a repayment is accepted exactly if it is less than a token above the debt |
| PoolSafety.ReduceDebtKeepsValue | programs/margin-pool/src/state.rs:229-240 | a repayment takes at least the debt it cancels and less than one token more |
| PoolSafety.RepayKeepsValue | programs/margin-pool/src/state.rs:222-243 | repaying never lowers the total value and raises it by less than one token |
| PoolSafety.AccrueKeepsBacking | programs/margin-pool/src/state.rs:286-309 | accrual only raises debt, fees and net value, and changes nothing else but the clock |
| PoolSafety.CollectTakesWholeNotes | programs/margin-pool/src/state.rs:357-373 | fee collection mints all whole notes the fees pay for; the remainder is worth less than one note |
| PoolSafety.CollectMovesExactly | programs/margin-pool/src/state.rs:357-373 | it leaves the total value, moves exactly the notes' value from fees to holders, and leaves the quoted rate unchanged if there were notes |
| PoolAccrual.InterestRateDefined | programs/margin-pool/src/state.rs:312-352 | with notes outstanding the utilization exists if and only if it fits 192 bits, and the rate then lies within the configured range, except at zero utilization with a zero knot |
| PoolAccrual.InterestRateOnCurve | programs/margin-pool/src/state.rs:312-352 | with notes outstanding the rate is the point of that curve at the largest utilization that does not exceed the debt's share of the value |
| PoolAccrual.AccrueDefined | programs/margin-pool/src/state.rs:286-309 | within 192 bits accrual over positive time succeeds if and only if there is a rate and it is at most 200% |
| PoolAccrual.AcceptedConfigCanStopAccrual | programs/margin-pool/src/instructions/configure.rs:153-171 | a configuration that is accepted can make every accrual fail |
| PoolAccrual.AccrueCharges | programs/margin-pool/src/state.rs:294-301 | the interest is the debt times the exact Taylor sum, or less by at most terms * 10^-15 of the debt plus one unit |
| PoolAccrual.AccrueTakesFee | programs/margin-pool/src/state.rs:287-307 | the fee is the configured share of the interest rounded down; the clock moves by the gap or a week and the result says which |
| CatchUp.CatchUpEndsOnTime | libraries/rust/client/src/state/margin_pool.rs:43 | the loop ends at the given time after max(1, ceil(gap / week)) calls, and net value never falls |
| CatchUp.CatchUpDefined | libraries/rust/client/src/state/margin_pool.rs:43 | given room for the numbers, the loop succeeds if and only if time does not run backwards and every call finds a rate of at most 200% |
| CatchUp.CatchUpSucceeds | libraries/rust/client/src/state/margin_pool.rs:43 | it always does for a backed pool under an accepted configuration with a positive first knot and rates up to 200% |
| CatchUp.RatesWithoutNotes | programs/margin-pool/src/state.rs:312-318 | without notes every call finds such a rate if and only if the lowest rate is at most 200% |
| PoolRuns.DepositSafe | programs/margin-pool/src/instructions/deposit.rs:125-201 | a deposit keeps books, backing and the rate quoted before it |
| PoolRuns.WithdrawSafe | programs/margin-pool/src/instructions/withdraw.rs:170-200 | a withdrawal keeps books and backing, and the rate but for its slack |
| PoolRuns.MarginBorrowSafe | programs/margin-pool/src/instructions/margin_borrow.rs:102-141 | borrowing into a deposit keeps books, backing and the rate |
| PoolRuns.MarginBorrowV2Safe | programs/margin-pool/src/instructions/margin_borrow_v2.rs:107-142 | borrowing from the vault keeps books, backing and the rate |
| PoolRuns.RepaySafe | programs/margin-pool/src/instructions/repay.rs:97-133 | repaying with tokens keeps books, backing and the rate |
| PoolRuns.MarginRepaySafe | programs/margin-pool/src/instructions/margin_repay.rs:107-142 | repaying with deposit notes keeps books and backing, and the rate but for its slack |
| PoolRuns.CollectSafe | programs/margin-pool/src/instructions/collect.rs:68-91 | fee collection keeps books, backing and the rate, also when accrual only gets part of the way |
| PoolRuns.AdministrationSafe | programs/margin-pool/src/instructions/withdraw_fees.rs:97-110 | paying out fees or configuring touches neither value nor notes of the pool |
| PoolAmounts.DepositMoves | programs/margin-pool/src/instructions/deposit.rs:172-201 | the tokens moved from the wallet for each kind of change (wallet less target; target less the deposit account at the deposit rate rounded up; the number given) and the notes minted for them |
| PoolAmounts.WithdrawMoves | programs/margin-pool/src/instructions/withdraw.rs:163-200 | the tokens moved to the wallet for each kind of change (deposit account at the deposit rate rounded down less target; target less wallet; the number given) and the fewest notes burned for them |
| PoolAmounts.MarginBorrowMoves | programs/margin-pool/src/instructions/margin_borrow.rs:90-141 | the tokens borrowed for each kind of change, with the loan account at the loan rate and the deposit account at the deposit rate, and the loan and deposit notes minted for them |
| PoolAmounts.MarginBorrowV2Moves | programs/margin-pool/src/instructions/margin_borrow_v2.rs:99-142 | the given tokens leave the vault, are added to the debt, and the fewest loan notes are minted for them |
| PoolAmounts.RepayMoves | programs/margin-pool/src/instructions/repay.rs:89-133 | the tokens moved from the wallet for each kind of change, with the loan account at the deposit rate rounded up, and the loan notes burned for them at the loan rate |
| PoolAmounts.MarginRepayMoves | programs/margin-pool/src/instructions/margin_repay.rs:89-142 | the tokens of debt settled for each kind of change, with the deposit account at the deposit rate and the loan account at the loan rate, and the notes of both kinds burned for them |
| PoolAmounts.CollectMoves | programs/margin-pool/src/instructions/collect.rs:68-91 | a collection that catches up mints the notes that all the fees pay for; one that does not only accrues |
| PoolAmounts.WithdrawFeesMoves | programs/margin-pool/src/instructions/withdraw_fees.rs:97-119 | the payout is the value of the fee notes rounded down; it succeeds exactly if the pool is enabled and quotes a rate, and notes and value are in the supply and the vault |
| PoolAmounts.ConfigureReplaces | programs/margin-pool/src/instructions/configure.rs:150-172 | a configuration replaces the old one exactly if knots and rates increase and the fee is at most 100% |
| PoolAmounts.DisabledPoolRefuses | programs/margin-pool/src/state.rs:153-158 | a disabled pool takes no instruction but a configuration and an accrual that falls short of the time |
| PoolRuns.StepSafe | programs/margin-pool/src/state.rs:167-373 | any instruction with any arguments keeps the invariant and (up to a burn's slack) the rate |
| PoolRuns.RunSafe | programs/margin-pool/src/state.rs:167-373 | any sequence of instructions keeps the invariant |
| PoolRuns.EveryReachableLedger | programs/margin-pool/src/state.rs:73-91 | from a new pool on: one token of net value per deposit note, a quoted rate of at least 1, loan notes equal to the loan supply, deposit notes and tokens equal to supply and vault plus what the fee owner withdrew |
| PoolRuns.RunKeepsFloor | programs/margin-pool/src/state.rs:630-672 | a rate that is covered at the start is covered at the end, less the slack of each burn |
| PoolRuns.RateOverRun | programs/margin-pool/src/state.rs:630-672 | over a run in which notes never run out the truncated rate falls by at most ceil(rate) - 1 units per burn, and not at all without burns or at a rate of exactly 1 |
| PoolExits.ExitPaysInFull | programs/margin-pool/src/instructions/withdraw.rs:163-200 | an exit at any time succeeds if and only if the pool is enabled, the notes exist and their value at the rate quoted after accrual is in the pool and in the vault; it burns the whole balance and pays exactly that value |
| PoolExits.ExitsInAnyRun | programs/margin-pool/src/instructions/withdraw.rs:163-200 | over any run whose only burns are exits, at any times: every exit that succeeds is paid at least a rate covered at the start, the rest stays backed at it, and the fees stay covered |
| PoolExits.EveryExitIsPaid | programs/margin-pool/src/instructions/withdraw.rs:176-200 | with liquidity for those who leave, any number of exits at one time in any order all succeed, each at a rate covered before the first; the rest stays backed at it and the fees are untouched |
| PoolExits.QuotedRateBoundsExits | programs/margin-pool/src/instructions/withdraw.rs:163-200 | the same for the rate quoted at the start of the run |
| PoolClosing.SetReachesTarget | programs/margin-pool/src/state.rs:490-591 | setting a balance moves exactly the tokens that bring the account to the target, is refused exactly when impossible, and a drain into a loan stops when the loan is repaid; a shift is no setting |
| PoolClosing.WithdrawAllIsExact | programs/margin-pool/src/state.rs:579-589 | setting the deposit to zero burns exactly the account's notes |
| PoolClosing.RepayAllBurns | programs/margin-pool/src/state.rs:528-535 | setting the loan to zero computes a burn of at least the account's notes, exactly them if and only if the padding is worth less than a note |
| PoolClosing.MarginRepayClosesExactly | programs/margin-pool/src/instructions/margin_repay.rs:114-142 | a `margin_repay` that closes a loan burns the whole loan account or does not happen |
| PoolClosing.RepayToZero | programs/margin-pool/src/instructions/repay.rs:97-133 | `repay` to zero closes the loan, leaves notes or is refused by the burn, each if and only if a condition on the two quoted rates |
| PoolClosing.RepayCanLeaveNotes | programs/margin-pool/src/instructions/repay.rs:108-111 | a run in which one of three notes is left |
| PoolClosing.LoanRateAtLeastOne | programs/margin-pool/src/state.rs:675-679 | a loan note is worth a token if and only if the debt is at least a token per note |
| PoolClosing.BorrowLowersLoanRate | programs/margin-pool/src/state.rs:196-208 | a loan brings the rate below 1 if and only if a single note is owed less than a token |
| PoolClosing.RepaymentNotes | programs/margin-pool/src/state.rs:528-535 | a repayment burns the loan notes its tokens pay for, rounded down |
| PoolClosing.LoanRateFallsExactly | programs/margin-pool/src/state.rs:196-280 | over all instructions: which loans and repayments bring the loan rate below 1, from the state before, and that nothing else does |
| PoolClosing.LoanRateCanFallBelowOne | programs/margin-pool/src/state.rs:675-679 | a run in which a repayment brings the loan rate from above 1 to one half |
| PoolClosing.DebtGuardAllowsClose | programs/margin-pool/src/state.rs:234-236 | the guard allows the close of any number of loan notes if and only if there is debt or there are no notes to close |
| PoolClosing.CloseAllLeavesDust | programs/margin-pool/src/state.rs:229-240 | closing all loan notes leaves fewer units of debt than there were notes |
| PoolRoundTrip.RoundTripByNotes | programs/margin-pool/src/state.rs:167-193 | a deposit and an exit with the notes received return more tokens if and only if there were no notes, the unowned value exceeds a token and the remainder of the new quotation, and the value is in the pool and in the vault |
| PoolRoundTrip.RoundTripByTokens | programs/margin-pool/src/state.rs:167-193 | some withdrawal with the notes received returns more if and only if one token more than went in costs no more than them and a token was in the pool and in the vault |
| PoolRoundTrip.NoGainByTokens | programs/margin-pool/src/state.rs:167-193 | so never in a pool with notes, at rates up to 10^15 tokens per note |
| PoolRoundTrip.TripInParts | programs/margin-pool/src/state.rs:167-193 | given back in k withdrawals, a deposit into a pool with notes returns at most what went in, the remainder of its quotation and k times the slack of its rate |
| PoolRoundTrip.GainFromTheLastUnit | programs/margin-pool/src/state.rs:642-644 | without notes and with less than a token unowned: if and only if a token less one unit is unowned, the deposit divides it, and a token was in the pool and in the vault |
| PoolRoundTrip.GainInARun | programs/margin-pool/src/state.rs:642-644 | a run in which one token goes in and two come out |
| PoolRoundTrip.ResidueGainedInARun | programs/margin-pool/src/state.rs:662-672 | a run in which no notes but a whole token are left and the next depositor takes it |
| PoolRoundTrip.FirstDepositorOwnsTheResidue | programs/margin-pool/src/state.rs:662-672 | without notes and with a token or more unowned some deposit and withdrawal gain if and only if a token is in the pool and in the vault |
| PoolShortfall.UncoversExactly | programs/margin-pool/src/state.rs:182-280 | over all instructions: fees become uncovered if and only if a withdrawal or a repayment with notes takes more than the net value (and the debt is higher too); it takes the last notes and ends the quotation |
| PoolShortfall.DeficitIsSmall | programs/margin-pool/src/state.rs:642-644 | by at most the slack of the rate |
| PoolShortfall.PoolsAtRisk | programs/margin-pool/src/state.rs:630-672 | some instruction at a given time can do so if and only if, with interest accrued, all notes pay for more tokens than the net value and those are there or owed |
| PoolShortfall.FeesCanBecomeUncovered | programs/margin-pool/src/state.rs:642-644 | reachable pools in which a withdrawal and a repayment do so |
| PoolRecovery.RecoversByInterest | programs/margin-pool/src/state.rs:286-309 | an instruction covers the fees again if and only if the interest it accrues, less fees, makes up the deficit, and otherwise changes the deficit by just that |
| PoolRecovery.RecoversWhenEarned | programs/margin-pool/src/state.rs:286-309 | over any run: the fees are covered again with the instruction that brings the net interest since then up to the deficit, and not before |
| PoolRecovery.NothingEarned | programs/margin-pool/src/state.rs:297-302 | without debt or with a fee of 100% nothing is earned |
| PoolRecovery.RecoveryInARun | programs/margin-pool/src/state.rs:286-309 | a reachable pool that is uncovered and recovers |
| PoolRecovery.RecoveryPossible | programs/margin-pool/src/state.rs:286-309 | a run that recovers exists if and only if a week at 200% earns a unit on the debt or a first loan can be granted: two tokens in the pool, one in the vault, and loan notes that are worth something |
| PoolRecovery.StuckForever | programs/margin-pool/src/state.rs:665-672 | a pool that can neither earn nor lend keeps debt, fees and tokens under every sequence of instructions |
| MarginPoolProgram.MarginPool.constructor | programs/margin-pool/src/state.rs:38-98 | a new pool is empty |
| MarginPoolProgram.MarginPool.Deposit | programs/margin-pool/src/state.rs:167-179 | accepted exactly within the deposit limit and 64 bits; the net value grows by the tokens, the notes by those minted |
| MarginPoolProgram.MarginPool.Withdraw | programs/margin-pool/src/state.rs:182-193 | accepted exactly if tokens and notes are there; the net value falls by the tokens, the notes by those burned |
| MarginPoolProgram.MarginPool.Borrow | programs/margin-pool/src/state.rs:196-219 | the fields or the error; the value stays, and the debt is within the borrow limit and 95.01% of the value |
| MarginPoolProgram.MarginPool.Repay | programs/margin-pool/src/state.rs:222-243 | accepted exactly if the notes are there and the tokens are less than one above the debt; the value never falls and grows by less than a token |
| MarginPoolProgram.MarginPool.MarginRepay | programs/margin-pool/src/state.rs:249-280 | accepted exactly if both kinds of notes are there and the tokens are less than one above the debt; the net value falls by the tokens, to within one token |
| MarginPoolProgram.MarginPool.AccrueInterest | programs/margin-pool/src/state.rs:286-309 | the fields, whether it caught up, or the error; the net value does not fall and backing is kept |
| MarginPoolProgram.MarginPool.CollectAccruedFees | programs/margin-pool/src/state.rs:357-373 | the fields, the notes to mint, or the error; the value stays, backing is kept, and the fees left are worth less than a note |
| MarginPoolProgram.MarginPool.SyncInterest | libraries/rust/client/src/state/margin_pool.rs:43 | the loop terminates, at the given time, after max(1, ceil(gap / week)) calls, with the caught-up pool or the error |
| MarginPoolProgram.PoolAccounts.DepositHandler | programs/margin-pool/src/instructions/deposit.rs:116-201 | the accounts after the instruction or the error; books, backing and the quoted rate are kept |
| MarginPoolProgram.PoolAccounts.WithdrawHandler | programs/margin-pool/src/instructions/withdraw.rs:163-200 | the accounts after the instruction or the error; books and backing are kept, and the rate but for its slack |
| MarginPoolProgram.PoolAccounts.MarginBorrowHandler | programs/margin-pool/src/instructions/margin_borrow.rs:90-141 | the accounts after the instruction or the error; books, backing and the quoted rate are kept |
| MarginPoolProgram.PoolAccounts.MarginBorrowV2Handler | programs/margin-pool/src/instructions/margin_borrow_v2.rs:99-142 | the accounts after the instruction or the error; books, backing and the quoted rate are kept |
| MarginPoolProgram.PoolAccounts.RepayHandler | programs/margin-pool/src/instructions/repay.rs:89-133 | the accounts after the instruction or the error; books, backing and the quoted rate are kept |
| MarginPoolProgram.PoolAccounts.MarginRepayHandler | programs/margin-pool/src/instructions/margin_repay.rs:89-142 | the accounts after the instruction or the error; books and backing are kept, and the rate but for its slack |
| MarginPoolProgram.PoolAccounts.CollectHandler | programs/margin-pool/src/instructions/collect.rs:68-91 | the accounts after the instruction or the error; books, backing and the quoted rate are kept |
| MarginPoolProgram.PoolAccounts.WithdrawFeesHandler | programs/margin-pool/src/instructions/withdraw_fees.rs:97-119 | vault, supply and the totals of the fee events after the payout; the pool is unchanged and the invariant kept |
| MarginPoolProgram.PoolAccounts.ConfigureHandler | programs/margin-pool/src/instructions/configure.rs:150-172 | the configuration is replaced if it is accepted; the invariant is kept |
| MarginPoolProgram.PoolAccounts.Process | programs/margin-pool/src/lib.rs:39-389 | an instruction takes effect as a whole or not at all, keeps the invariant, and the quoted rate but for the slack of a burn |
| LiquidationSafety.MaxEquityLossIs | programs/margin/src/instructions/liquidate_begin.rs:121-131 | the cap is 5% of the liabilities rounded down plus one dollar |
| LiquidationSafety.MaxAvailableCollateralIs | programs/margin/src/instructions/liquidate_begin.rs:133-138 | the limit is a tenth of the required collateral rounded down |
| LiquidationSafety.BeginIsGranted | programs/margin/src/instructions/liquidate_begin.rs:68-119 | a liquidation begins exactly for an account with fresh prices that is short of collateral or past due, with nothing lost, collected or accrued |
| LiquidationSafety.CollectingIsFinal | programs/margin/src/instructions/liquidator_invoke.rs:35-39 | once fees are being collected nothing is lost any more and collecting goes on |
| LiquidationSafety.NoInvokeAfterCollection | programs/margin/src/instructions/collect_liquidation_fee.rs:93-95 | no invoke succeeds after a collection, however many actions later |
| LiquidationSafety.LossStaysWithinCap | programs/margin/src/instructions/liquidator_invoke.rs:160-180 | the total equity loss of any sequence of actions respects the cap and the total collateral change is not negative |
| LiquidationSafety.EveryLiquidation | programs/margin/src/instructions/liquidate_begin.rs:96-107 | from begin on: loss at most 5% of the liabilities plus one dollar, collateral change not negative |
| LiquidationSafety.InvokesStayBelowLimit | programs/margin/src/instructions/liquidator_invoke.rs:182-190 | no invoke leaves more available collateral than a tenth of the required collateral at begin |
| LiquidationSafety.FeesPayTheExcess | programs/margin/src/instructions/collect_liquidation_fee.rs:123-134 | offsetting fees one by one pays their sum less min(sum, loss) and absorbs as much of the loss |
| LiquidationSafety.CollectionOrderDoesNotMatter | programs/margin/src/instructions/collect_liquidation_fee.rs:123-134 | any order of the same fees pays the same total and leaves the same loss |
| LiquidationSafety.CollectionsPayTheExcess | programs/margin/src/instructions/collect_liquidation_fee.rs:93-134 | a series of collections pays, in value, what the slots are worth beyond the loss |
| LiquidationSafety.CollectionsInAnyOrder | programs/margin/src/instructions/collect_liquidation_fee.rs:93-137 | collections from different slots at fixed prices find the same values in any order, pay the same total and leave the same loss |
| LiquidationSafety.FeeOfEligibleTokens | programs/margin/src/instructions/liquidator_invoke.rs:120-128 | the fee is at most a twenty-first of the eligible tokens; it is computed if and only if the scaled tokens fit 128 bits |
| LiquidationSafety.FeeNeedsSmallAmounts | programs/margin/src/instructions/liquidator_invoke.rs:124-128 | with nine decimals no fee is computed for 36 tokens or more |
| LiquidationSafety.InvokeFeeIsBounded | programs/margin/src/instructions/liquidator_invoke.rs:86-128 | 21 times the fee is at most the net increase and at most the net repayment |
| LiquidationSafety.NetFlows | programs/margin/src/instructions/liquidator_invoke.rs:87-112 | brought in is external increases less decreases, repaid is repayments less borrowings, of the fee's mint |
| LiquidationSafety.InvokeFeeIs | programs/margin/src/instructions/liquidator_invoke.rs:86-128 | the fee of an invoke, exactly, from those flows, and exactly when there is one |
| LiquidationSafety.RoomIsUsed | programs/margin/src/state/account.rs:822-843 | a fee is accrued exactly if its mint's slot has room or, without one, some slot is empty |
| LiquidationSafety.InvokeSucceeds | programs/margin/src/instructions/liquidator_invoke.rs:153-193 | an invoke succeeds exactly if fees are not being collected, its fee has room, and the loss, the collateral change and the collateral left are within their limits |
| LiquidationSafety.InvokeAccrues | programs/margin/src/instructions/liquidator_invoke.rs:120-151 | and then adds exactly its fee to its mint's slots, its loss and its collateral change to the totals, and nothing else |
| LiquidationSafety.CollectionPaysAtMostSlot | programs/margin/src/instructions/collect_liquidation_fee.rs:118-137 | a collection pays no more tokens than its slot holds, for every price |
| LiquidationSafety.CollectionPays | programs/margin/src/instructions/collect_liquidation_fee.rs:93-177 | at a positive price a collection absorbs the loss with the slot's worth as far as it goes and pays the tokens that the rest buys, rounded down; the account must hold them and be healthy |
| LiquidationSafety.CollectionOfFineTokensPays | programs/margin/src/instructions/collect_liquidation_fee.rs:118-137 | the same for mints with more than ten decimals, truncated to units of 10^-10 token |
| LiquidationSafety.FeeIsPaidInFull | programs/margin/src/instructions/collect_liquidation_fee.rs:118-137 | without a loss the slot is paid in full, but for a token and what a unit of value buys |
| LiquidationSafety.AccrueFeeAdds | programs/margin/src/state/account.rs:822-843 | accruing adds the fee to the tokens held for its mint and touches no other mint |
| LiquidationSafety.RunConserves | programs/margin/src/state/account.rs:822-855 | tokens held plus tokens paid never exceed tokens accrued, mint by mint, over any actions |
| LiquidationSafety.LiquidatorIsPaidWhatWasAccrued | programs/margin/src/instructions/collect_liquidation_fee.rs:123-169 | over a whole liquidation the payout in a mint is at most the fees accrued and a twenty-first of the eligible tokens |
| LiquidationCase.RequestKeepsInv | programs/margin/src/instructions/liquidate_begin.rs:52-105 | at any time exactly the claimant has a liquidation account, and its totals are within their limits |
| LiquidationCase.ClaimIsHeld | programs/margin/src/instructions/liquidate_begin.rs:78-94 | until it is ended a liquidation stays with its liquidator and is a run of that liquidator's own actions, whoever sends whatever |
| LiquidationCase.OnlyTheLiquidatorEnds | programs/margin/src/instructions/liquidate_end.rs:45-57 | before the timeout no sequence of requests by others ends it |
| LiquidationCase.EndsExactly | programs/margin/src/instructions/liquidate_end.rs:45-57 | a liquidation can be ended exactly by its liquidator at any time and by anyone after the timeout, on its own account |
| LiquidationCase.BeginsExactly | programs/margin/src/instructions/liquidate_begin.rs:52-119 | it begins exactly for a caller with a key, on an account that nobody has claimed and that is granted |
| LiquidationCase.SecondBeginIsRefused | programs/margin/src/instructions/liquidate_begin.rs:52-82 | a second begin is refused, also that of the claimant |
| LiquidationCase.EveryCase | programs/margin/src/instructions/liquidate_begin.rs:96-107 | the loss cap and the bound on the payout, for every sequence of requests from anyone until the end |
| LiquidationModel.FindSlot | programs/margin/src/state/account.rs:824-827 | the first slot of a mint, or the number of slots |
| Number128.QuotientTruncates | libraries/rust/program-common/src/number_128.rs:218-262 | division truncates toward zero |
| Number128.DecimalRoundTrip | libraries/rust/program-common/src/number_128.rs:77-128 | whole tokens survive the way into a number and back, less what does not fit ten decimals |
| LiquidationProgram.LiquidationState.constructor | programs/margin/src/state/account.rs:776-792 | no claim, no liquidation account and six empty fee slots |
| LiquidationProgram.LiquidationState.FindFeeSlot | programs/margin/src/state/account.rs:824-827 | the scan finds the first slot of the mint |
| LiquidationProgram.LiquidationState.AccrueLiquidationFee | programs/margin/src/state/account.rs:822-843 | the slots after accruing or the error; exactly the fee is added to its mint and no other mint changes |
| LiquidationProgram.LiquidationState.ClearLiquidationFee | programs/margin/src/state/account.rs:845-855 | the first slot of the mint is emptied; no other mint changes |
| LiquidationProgram.LiquidationState.LiquidateBegin | programs/margin/src/instructions/liquidate_begin.rs:68-119 | the claim, the accounts and the caps, or the error; an account that is claimed is never claimed again, and a new claim keeps the invariant |
| LiquidationProgram.LiquidationState.UpdateAndVerifyLiquidation | programs/margin/src/instructions/liquidator_invoke.rs:153-193 | the totals after the update, within the caps, or the error |
| LiquidationProgram.LiquidationState.LiquidatorInvoke | programs/margin/src/instructions/liquidator_invoke.rs:53-151 | the liquidation after an invoke or the error; the totals are within the caps and the fee added is at most a twenty-first of what was brought in and repaid |
| LiquidationProgram.LiquidationState.CollectLiquidationFee | programs/margin/src/instructions/collect_liquidation_fee.rs:87-177 | the liquidation after a collection and the tokens paid, at most those of the slot, or the error |
| LiquidationProgram.LiquidationState.LiquidateEnd | programs/margin/src/instructions/liquidate_end.rs:45-68 | ended by the liquidator at any time and by anyone after the timeout, by nobody else; the liquidation account is closed |
| LiquidationProgram.LiquidationState.Process | programs/margin/src/lib.rs:427-510 | a request takes effect as a whole or not at all and keeps the invariant; only the claimant can act |
| Packing.GroupingKeepsInstructions | libraries/rust/solana-client/src/transaction.rs:343-349 | joining neighbouring groups keeps every instruction in order and adds no transactions |
| Packing.JoinedCarry | libraries/rust/solana-client/src/transaction.rs:262-277 | a joined transaction carries the instructions and signers of its groups, in their order, and a part without instructions makes none |
| Packing.FindFirstCondensed | libraries/rust/solana-client/src/transaction.rs:424-458 | ends for every size and guess; returns the longest fitting prefix when sizes grow and one group fits |
| Packing.CondenseLeft | libraries/rust/solana-client/src/transaction.rs:394-418 | for all sizes and guesses: instructions unchanged, no group split, each transaction carries exactly its groups' instructions and signers in order, nothing merged beyond the size limit; with monotone sizes the greedy grouping below twenty parts, the input from twenty on |
| PackingOptimality.GreedyStaysAhead | libraries/rust/solana-client/src/transaction.rs:343-349 | from any group on greedy needs no more transactions than a packing that starts no later |
| PackingOptimality.GreedyIsOptimal | libraries/rust/solana-client/src/transaction.rs:343-349 | a packing exists if and only if each group fits, and then the greedy grouping is one and none has fewer transactions |
| PackingOptimality.GreedyIsPacking | libraries/rust/solana-client/src/transaction.rs:391-393 | every part of the greedy grouping fits if each group does, for any sizes |
| PackingOptimality.CondensedIsSmallest | libraries/rust/solana-client/src/transaction.rs:343-349 | the result is the smallest packing if and only if the greedy grouping has fewer than twenty parts or no two neighbours fit together |
| PackingOptimality.CondenseCanMissTheSmallest | libraries/rust/solana-client/src/transaction.rs:399-417 | forty groups of which any two fit together are returned as they are |
| PackingOptimality.DeepReverseInstructions | libraries/rust/solana-client/src/transaction.rs:45-50 | reversing groups and their contents reverses the instruction list |
| PackingOptimality.DeepReverseTwice | libraries/rust/solana-client/src/util/data.rs:43-48 | reversing twice is the identity |
| PackingOptimality.CondenseRight | libraries/rust/solana-client/src/transaction.rs:380-389 | for all sizes and guesses: instructions unchanged, no group split, each transaction carries exactly its groups' instructions in order and their signers, nothing merged beyond the size limit; with monotone sizes the greedy grouping from the end |
| PackingOptimality.RightIsOptimal | libraries/rust/solana-client/src/transaction.rs:343-359 | packing from the right gives a packing, and none has fewer transactions |
| PackingOptimality.CondensedRightIsSmallest | libraries/rust/solana-client/src/transaction.rs:343-367 | the result is the smallest packing under exactly the same condition |
| PackingOptimality.LastTransactionIsMaximal | libraries/rust/solana-client/src/transaction.rs:351-359 | its last transaction is the longest run of final groups that fits |
| LookupTables.ExcludeSubsetsAndUseless | libraries/rust/solana-client/src/lookup_tables.rs:184-202 | keeps exactly the tables with two matches or more of which no later table has all but `maxNovel` |
| LookupTables.SortBySizeSorts | libraries/rust/solana-client/src/lookup_tables.rs:188 | the tables are sorted by matches and none is lost |
| LookupTables.SortIsStable | libraries/rust/solana-client/src/lookup_tables.rs:188 | tables with as many matches keep their order |
| LookupTables.NovelAre | libraries/rust/solana-client/src/lookup_tables.rs:204-207 | the novel addresses of a table are those it does not share |
| LookupTables.BytesSaved | libraries/rust/solana-client/src/lookup_tables.rs:128-133 | the score is the change in bytes of a message that writes out every address no table provides |
| LookupTables.PruneCovers | libraries/rust/solana-client/src/lookup_tables.rs:177-183 | every table with two matches or more is a subset of a kept one |
| LookupTables.PruneIsFromTables | libraries/rust/solana-client/src/lookup_tables.rs:177-183 | every kept table is one of the tables and has two matches or more |
| LookupTables.KeptAreIncomparable | libraries/rust/solana-client/src/lookup_tables.rs:180-181 | no kept table is a subset of another |
| LookupTables.NoWorseSelection | libraries/rust/solana-client/src/lookup_tables.rs:132-133 | a selection can be replaced by supersets and by nothing for single matches at no cost |
| LookupTables.PruningLosesNothing | libraries/rust/solana-client/src/lookup_tables.rs:78-82 | the cheapest selection of the kept tables costs as much as the cheapest of all, in both directions |
| LookupTables.SubsetsFromContain | libraries/rust/solana-client/src/lookup_tables.rs:130 | the enumeration has every subset |
| LookupTables.SubsetsFromOrdered | libraries/rust/solana-client/src/lookup_tables.rs:130 | smaller subsets come first |
| LookupTables.BestKeptIsBest | libraries/rust/solana-client/src/lookup_tables.rs:78-82 | the best selection of the kept tables is not beaten by any selection of all tables |
| LookupTables.PerfectlyOptimize | libraries/rust/solana-client/src/lookup_tables.rs:128-138 | the ids of a selection with the least cost, and the fewest tables among those: each selected table once, in order |
| LookupTables.PerfectlyOptimizeLookupTables | libraries/rust/solana-client/src/lookup_tables.rs:71-88 | the ids of different tables of the input that together cost no more than any selection of them, through pruning, the single-table shortcut and the search |

## Left out

- Account validation, address derivation, cross-program calls, events and serialization; transfers, mints and burns are ledger updates, and the token accounts of a user enter as balances.
- Ownership and token-feature checks of the deposit and withdraw handlers, oracle parsing and note prices.
- The clock and account valuations are inputs; `Valuation` is taken as given and positions are not modelled.
- 64-bit overflow of timestamps: times are unbounded integers.
- PoolExits.EveryExitIsPaid: that everyone can leave is stated for one point in time; between different times the debt may take the liquidity, and `ExitPaysInFull` then decides exit by exit.
- PoolRoundTrip.FirstDepositorOwnsTheResidue: for a deposit limit that admits the deposit and for values within 64 and 192 bits.
- CatchUp.CatchUpDefined: given room for the debt to grow by a twentieth per call within 192 bits; beyond that the loop ends in an overflow at a time that is not characterised.
- PoolRecovery.RecoveryPossible: for fees and deficits that leave room within 192 bits.
- LiquidationSafety.BeginIsGranted: for liabilities and required collateral whose shares fit 128 bits; beyond that the source panics.
- LiquidationSafety.InvokeSucceeds: for valuations whose differences and sums fit 128 bits.
- LiquidationSafety.CollectionPays: for positive prices; for others `CollectionPaysAtMostSlot` still bounds the payout.
- PoolSafety.LoanIsGranted: for values and limits whose products fit 192 bits, and loan notes that fit 64.
- LiquidationCase.RequestKeepsInv: liabilities are taken to be not negative, and the system address is taken never to sign.
- PoolRuns.RateOverRun: for runs in which deposit notes never run out; after that a pool quotes afresh.
- LiquidationProgram.LiquidationState.CollectLiquidationFee: the price is an input, and the overflow error of subtracting fee and loss is not modelled, since with a price that is not negative the difference lies between the two.
- PackingOptimality.RightIsOptimal: the encoded size is a parameter that must not depend on reversing the instructions; float rounding of the search ratio is an arbitrary guess.
- LookupTables.PerfectlyOptimizeLookupTables: tables are labelled sets; positions in the caller's list, which the source numbers after filtering, and the rough optimiser for ten or more tables are not modelled.
- Interest pricing and valuation tools that use floating point, governance, metadata, clients and simulation.
