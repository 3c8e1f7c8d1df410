/**
 One liquidation of a margin account: begin, any number of invokes, fee collection, end.

 What the account is worth before and after each action is an input (`Valuation`); the model is the
 accounting of the caps and the fees across the actions.
 */
module LiquidationModel {
  import opened Outcomes
  import opened Rounding
  import opened Number128

  const LIQUIDATION_MAX_EQUITY_LOSS_PROPORTION_BPS: int := 500
  const LIQUIDATION_MAX_EQUITY_LOSS_CONSTANT: int := 1
  const LIQUIDATION_MAX_REQUIRED_COLLATERAL_INCREASE_BPS: int := 1_000
  const LIQUIDATION_FEE_BPS: int := 500
  const LIQUIDATION_TIMEOUT: int := 60
  const FEE_SLOTS: nat := 6

  type Key = nat

  /** `Pubkey::default()`: no liquidator, or an unused fee slot. */
  const NO_KEY: Key := 0

  datatype Valuation = Valuation(
    equity: int,
    liabilities: int,
    requiredCollateral: int,
    effectiveCollateral: int,
    stale: bool,
    pastDue: bool)

  datatype Slot = Slot(mint: Key, amount: nat)

  datatype Liquidation = Liquidation(
    equityLoss: int,
    maxEquityLoss: int,
    collateralChange: int,
    maxAvailableCollateral: int,
    startTime: int,
    isCollectingFees: bool,
    fees: seq<Slot>)

  datatype ChangeCause = BorrowChange | RepayChange | ExternalIncrease | ExternalDecrease | OtherChange

  datatype TokenBalanceChange = TokenBalanceChange(mint: Key, tokens: nat, cause: ChangeCause)

  // ----- begin -----

  function VerifyUnhealthy(v: Valuation): Result<()> {
    var _ :- Require(!v.stale, ConstraintViolated);
    Require(v.requiredCollateral > v.effectiveCollateral || v.pastDue, Healthy)
  }

  function AvailableCollateral(v: Valuation): Result<int> {
    Sub(v.effectiveCollateral, v.requiredCollateral)
  }

  function MaxEquityLoss(v: Valuation): Result<int> {
    var share :- Mul(FromBps(LIQUIDATION_MAX_EQUITY_LOSS_PROPORTION_BPS), v.liabilities);
    Add(share, LIQUIDATION_MAX_EQUITY_LOSS_CONSTANT * ONE)
  }

  function MaxAvailableCollateral(v: Valuation): Result<int> {
    Mul(v.requiredCollateral, FromBps(LIQUIDATION_MAX_REQUIRED_COLLATERAL_INCREASE_BPS))
  }

  function EmptySlots(): (slots: seq<Slot>)
    ensures |slots| == FEE_SLOTS
  {
    seq(FEE_SLOTS, _ => Slot(NO_KEY, 0))
  }

  function Begin(v: Valuation, time: int): Result<Liquidation> {
    var _ :- VerifyUnhealthy(v);
    var maxLoss :- MaxEquityLoss(v);
    var maxCollateral :- MaxAvailableCollateral(v);
    Ok(Liquidation(0, maxLoss, 0, maxCollateral, time, false, EmptySlots()))
  }

  // ----- invoke -----

  function NetIncrease(changes: seq<TokenBalanceChange>, mint: Key): int {
    if changes == [] then 0 else
    var c := changes[0];
    (if c.mint != mint then 0
     else match c.cause
          case ExternalIncrease => c.tokens
          case ExternalDecrease => 0 - c.tokens
          case _ => 0) + NetIncrease(changes[1..], mint)
  }

  function NetRepaid(changes: seq<TokenBalanceChange>, mint: Key): int {
    if changes == [] then 0 else
    var c := changes[0];
    (if c.mint != mint then 0
     else match c.cause
          case RepayChange => c.tokens
          case BorrowChange => 0 - c.tokens
          case _ => 0) + NetRepaid(changes[1..], mint)
  }

  /** The tokens a fee is taken on: the lower of what was brought in and what was repaid. */
  function EligibleTokens(increase: int, repaid: int): Result<nat> {
    var _ :- Require(0 <= repaid, LiquidationLostValue);
    var eligible := Max(0, Min(increase, repaid));
    if eligible <= U64_MAX then Ok(eligible) else Err(MathOpFailed)
  }

  /** The source scales by 10^decimals, not 10^-decimals, on the way in and on the way out. */
  function LiquidationFee(eligible: nat, decimals: nat): Result<nat> {
    var bps := FromBps(LIQUIDATION_FEE_BPS);
    var rate :- Div(bps, ONE + bps);
    var tokens :- FromDecimal(eligible, decimals);
    var fee :- Mul(rate, tokens);
    AsU64(fee, decimals)
  }

  /** The first slot of a mint, or the number of slots if there is none. */
  function FindSlot(slots: seq<Slot>, mint: Key): (k: nat)
    ensures k <= |slots|
    ensures k < |slots| ==> slots[k].mint == mint
    ensures forall j :: 0 <= j < k ==> slots[j].mint != mint
  {
    if slots == [] || slots[0].mint == mint then 0 else
    var k := FindSlot(slots[1..], mint);
    assert forall j :: 0 < j < k + 1 ==> slots[j] == slots[1..][j - 1];
    k + 1
  }

  function AccrueFee(slots: seq<Slot>, mint: Key, amount: nat): Result<seq<Slot>> {
    var k := FindSlot(slots, mint);
    if k < |slots| then
      var _ :- Require(slots[k].amount + amount <= U64_MAX, Panic);
      Ok(slots[k := Slot(mint, slots[k].amount + amount)])
    else
      var free := FindSlot(slots, NO_KEY);
      if free < |slots| then Ok(slots[free := Slot(mint, amount)]) else Err(LiquidationFeeSlotsFull)
  }

  function UpdateAndVerify(l: Liquidation, start: Valuation, end: Valuation): Result<Liquidation> {
    var drop :- Sub(start.equity, end.equity);
    var loss :- Add(l.equityLoss, drop);
    var before :- AvailableCollateral(start);
    var after :- AvailableCollateral(end);
    var gain :- Sub(after, before);
    var change :- Add(l.collateralChange, gain);
    var _ :- Require(loss <= l.maxEquityLoss, LiquidationLostValue);
    var _ :- Require(0 <= change, LiquidationLostValue);
    var _ :- Require(after <= l.maxAvailableCollateral, LiquidationLostValue);
    Ok(l.(equityLoss := loss, collateralChange := change))
  }

  // ----- collect -----

  /** A fee against a loss: the value that is paid, and the loss that remains. */
  function Offset(loss: int, fee: int): (int, int) {
    if loss <= 0 then (fee, loss)
    else if loss > fee then (0, loss - fee)
    else (fee - loss, 0)
  }

  function FeeValue(amount: nat, decimals: nat, price: int): Result<int> {
    var tokens :- FromDecimal(amount, 0 - decimals);
    Mul(tokens, price)
  }

  function FeeTokens(value: int, decimals: nat, price: int): Result<nat> {
    var tokens :- Div(value, price);
    AsU64(tokens, 0 - decimals)
  }

  // ----- the actions on a running liquidation -----

  datatype Action =
    | Invoke(mint: Key, decimals: nat, changes: seq<TokenBalanceChange>, start: Valuation, end: Valuation)
    | CollectFee(mint: Key, decimals: nat, price: int, balance: nat, health: Valuation)

  /** The fee an invoke accrues. */
  function InvokeFee(a: Action): Result<nat>
    requires a.Invoke?
  {
    var eligible :- EligibleTokens(NetIncrease(a.changes, a.mint), NetRepaid(a.changes, a.mint));
    LiquidationFee(eligible, a.decimals)
  }

  function InvokeStep(l: Liquidation, a: Action): Result<Liquidation>
    requires a.Invoke?
  {
    var _ :- Require(!l.isCollectingFees, ConstraintViolated);
    var fee :- InvokeFee(a);
    var fees :- AccrueFee(l.fees, a.mint, fee);
    UpdateAndVerify(l.(fees := fees), a.start, a.end)
  }

  /** The state after a collection, and the tokens it paid. */
  function CollectStep(l: Liquidation, a: Action): Result<(Liquidation, nat)>
    requires a.CollectFee?
  {
    var k := FindSlot(l.fees, a.mint);
    var _ :- Require(k < |l.fees|, InvalidLiquidationFeeMint);
    var value :- FeeValue(l.fees[k].amount, a.decimals, a.price);
    var (paid, loss) := Offset(l.equityLoss, value);
    var tokens :- FeeTokens(paid, a.decimals, a.price);
    var _ :- Require(tokens <= a.balance, TokenProgramError);
    var _ :- Require(a.health.requiredCollateral <= a.health.effectiveCollateral, Unhealthy);
    Ok((l.(isCollectingFees := true, equityLoss := loss, fees := l.fees[k := Slot(NO_KEY, 0)]), tokens))
  }

  function Step(l: Liquidation, a: Action): Result<Liquidation> {
    match a
    case Invoke(_, _, _, _, _) => InvokeStep(l, a)
    case CollectFee(_, _, _, _, _) =>
      var (after, _) :- CollectStep(l, a);
      Ok(after)
  }

  /** A failed action leaves no trace. */
  function Execute(l: Liquidation, a: Action): Liquidation {
    match Step(l, a)
    case Ok(after) => after
    case Err(_) => l
  }

  function Run(l: Liquidation, actions: seq<Action>): Liquidation
    decreases actions
  {
    if actions == [] then l else Run(Execute(l, actions[0]), actions[1..])
  }

  /** Anyone may end a liquidation that has timed out; before that, only its liquidator. */
  function End(l: Liquidation, liquidator: Key, authority: Key, time: int): Result<()> {
    Require(liquidator == authority || time - l.startTime >= LIQUIDATION_TIMEOUT, UnauthorizedLiquidator)
  }
}
