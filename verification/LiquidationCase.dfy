/**
 A margin account from one liquidation to the next: who may begin, act in and end a liquidation.

 `begin` creates a liquidation account for its caller, the actions need the caller's account, and
 `end` closes the account it is given. A failing request leaves no trace.
 */
module LiquidationCase {
  import opened Outcomes
  import opened Number128
  import opened LiquidationModel
  import opened LiquidationSafety

  /**
   `liquidator` is the claim noted on the margin account, `accounts` the liquidators whose liquidation
   account exists, and `state` the liquidation of the current claim.
   */
  datatype Case = Case(liquidator: Key, accounts: set<Key>, state: Liquidation)

  datatype Request =
    | BeginBy(caller: Key, v: Valuation, time: int)
    | Act(caller: Key, action: Action)
    | EndBy(authority: Key, owner: Key, time: int)

  function HandleBegin(c: Case, caller: Key, v: Valuation, time: int): Result<Case> {
    var _ :- Require(caller != NO_KEY, ConstraintViolated);
    var _ :- Require(caller !in c.accounts, AccountInUse);
    var _ :- VerifyUnhealthy(v);
    var accounts := c.accounts + {caller};
    if c.liquidator == caller then Ok(c.(accounts := accounts))
    else if c.liquidator != NO_KEY then Err(Liquidating)
    else
      var state :- Begin(v, time);
      Ok(Case(caller, accounts, state))
  }

  function HandleAct(c: Case, caller: Key, action: Action): Result<Case> {
    var _ :- Require(caller in c.accounts, ConstraintViolated);
    var state :- Step(c.state, action);
    Ok(c.(state := state))
  }

  function HandleEnd(c: Case, authority: Key, owner: Key, time: int): Result<Case> {
    var _ :- Require(owner in c.accounts, ConstraintViolated);
    var _ :- Require(c.liquidator == owner, UnauthorizedLiquidator);
    var _ :- End(c.state, c.liquidator, authority, time);
    Ok(c.(liquidator := NO_KEY, accounts := c.accounts - {owner}))
  }

  function Handle(c: Case, q: Request): Result<Case> {
    match q
    case BeginBy(caller, v, time) => HandleBegin(c, caller, v, time)
    case Act(caller, action) => HandleAct(c, caller, action)
    case EndBy(authority, owner, time) => HandleEnd(c, authority, owner, time)
  }

  function Process(c: Case, q: Request): Case {
    match Handle(c, q)
    case Ok(after) => after
    case Err(_) => c
  }

  function ProcessAll(c: Case, requests: seq<Request>): Case
    decreases requests
  {
    if requests == [] then c else ProcessAll(Process(c, requests[0]), requests[1..])
  }

  // ----- the invariant -----

  /** Exactly the claimant has a liquidation account, and the totals are within their limits. */
  predicate CaseInv(c: Case) {
    && c.accounts == (if c.liquidator == NO_KEY then {} else {c.liquidator})
    && |c.state.fees| == FEE_SLOTS
    && (c.liquidator != NO_KEY && !c.state.isCollectingFees
        ==> c.state.equityLoss <= c.state.maxEquityLoss && 0 <= c.state.collateralChange)
  }

  lemma ActionKeepsLimits(l: Liquidation, a: Action)
    requires Step(l, a).Ok?
    ensures var after := Step(l, a).value;
            && |after.fees| == |l.fees| && after.startTime == l.startTime
            && after.maxEquityLoss == l.maxEquityLoss && after.maxAvailableCollateral == l.maxAvailableCollateral
            && (!after.isCollectingFees
                ==> after.equityLoss <= after.maxEquityLoss && 0 <= after.collateralChange)
  {
    if a.Invoke? { InvokeEffect(l, a, Step(l, a).value); }
  }

  lemma BeginKeepsInv(c: Case, caller: Key, v: Valuation, time: int)
    requires CaseInv(c) && 0 <= v.liabilities
    ensures HandleBegin(c, caller, v, time).Ok? ==> CaseInv(HandleBegin(c, caller, v, time).value)
  {
    if MaxEquityLoss(v).Ok? { MaxEquityLossIs(v); }
  }

  /** A valuation never has negative liabilities. */
  predicate Sound(q: Request) {
    q.BeginBy? ==> 0 <= q.v.liabilities
  }

  lemma RequestKeepsInv(c: Case, q: Request)
    requires CaseInv(c) && Sound(q)
    ensures CaseInv(Process(c, q))
  {
    if Handle(c, q).Ok? {
      match q
      case BeginBy(caller, v, time) => BeginKeepsInv(c, caller, v, time);
      case Act(_, action) => ActionKeepsLimits(c.state, action);
      case EndBy(_, _, _) =>
    }
  }

  // ----- a claim is held until it is ended -----

  /** None of the requests ends the liquidation. */
  predicate NeverEnded(c: Case, requests: seq<Request>)
    decreases requests
  {
    requests != []
    ==> && (requests[0].EndBy? ==> Handle(c, requests[0]).Err?)
        && NeverEnded(Process(c, requests[0]), requests[1..])
  }

  /** What the claimant does among all the requests. */
  function ActionsOf(claimant: Key, requests: seq<Request>): seq<Action> {
    if requests == [] then []
    else if requests[0].Act? && requests[0].caller == claimant
    then [requests[0].action] + ActionsOf(claimant, requests[1..])
    else ActionsOf(claimant, requests[1..])
  }

  /** One request of anyone to a claimed account: an action of the claimant, its end, or nothing. */
  lemma ClaimedRequest(c: Case, q: Request)
    requires CaseInv(c) && c.liquidator != NO_KEY && (q.EndBy? ==> Handle(c, q).Err?)
    ensures Process(c, q) == (if q.Act? && q.caller == c.liquidator then c.(state := Execute(c.state, q.action)) else c)
    ensures q.BeginBy? ==> Handle(c, q).Err?
  {
  }

  /**
   Whoever sends whatever requests to an account under liquidation: until the liquidation is ended
   it stays with its liquidator, and its state is what a run of that liquidator's own actions makes
   of it. In particular nobody can begin anew and so reset the caps.
   */
  lemma {:induction false} ClaimIsHeld(c: Case, requests: seq<Request>)
    requires CaseInv(c) && c.liquidator != NO_KEY && NeverEnded(c, requests)
    ensures var after := ProcessAll(c, requests);
            && after.liquidator == c.liquidator && after.accounts == c.accounts
            && after.state == Run(c.state, ActionsOf(c.liquidator, requests))
    decreases requests
  {
    if requests != [] {
      var q, next := requests[0], Process(c, requests[0]);
      ClaimedRequest(c, q);
      if q.Act? && q.caller == c.liquidator {
        if Step(c.state, q.action).Ok? { ActionKeepsLimits(c.state, q.action); }
        var rest := ActionsOf(c.liquidator, requests[1..]);
        assert ([q.action] + rest)[1..] == rest;
      }
      ClaimIsHeld(next, requests[1..]);
    }
  }

  /** Before the timeout only the liquidator can end it. */
  lemma {:induction false} OnlyTheLiquidatorEnds(c: Case, requests: seq<Request>)
    requires CaseInv(c) && c.liquidator != NO_KEY
    requires forall k :: 0 <= k < |requests| && requests[k].EndBy?
               ==> requests[k].authority != c.liquidator && requests[k].time - c.state.startTime < LIQUIDATION_TIMEOUT
    ensures NeverEnded(c, requests)
    decreases requests
  {
    if requests != [] {
      var q, next := requests[0], Process(c, requests[0]);
      assert q.EndBy? ==> Handle(c, q).Err?;
      ClaimedRequest(c, q);
      if q.Act? && Step(c.state, q.action).Ok? { ActionKeepsLimits(c.state, q.action); }
      OnlyTheLiquidatorEnds(next, requests[1..]);
    }
  }

  /**
   A liquidation can be ended exactly by its liquidator at any time, and by anyone after the timeout,
   on its own account; so no account stays claimed against everybody's will.
   */
  lemma EndsExactly(c: Case, authority: Key, owner: Key, time: int)
    requires CaseInv(c)
    ensures Handle(c, EndBy(authority, owner, time)).Ok?
            <==> && c.liquidator != NO_KEY && owner == c.liquidator
                 && (authority == c.liquidator || LIQUIDATION_TIMEOUT <= time - c.state.startTime)
    ensures Handle(c, EndBy(authority, owner, time)).Ok?
            ==> Handle(c, EndBy(authority, owner, time)).value == c.(liquidator := NO_KEY, accounts := {})
  {
    if c.liquidator != NO_KEY { assert c.accounts - {c.liquidator} == {}; }
  }

  /** And it begins exactly for a caller with a key, on an account that nobody has claimed and that is granted. */
  lemma BeginsExactly(c: Case, caller: Key, v: Valuation, time: int)
    requires CaseInv(c)
    ensures HandleBegin(c, caller, v, time).Ok? <==> caller != NO_KEY && c.liquidator == NO_KEY && Begin(v, time).Ok?
    ensures HandleBegin(c, caller, v, time).Ok?
            ==> HandleBegin(c, caller, v, time).value == Case(caller, {caller}, Begin(v, time).value)
  {
    assert c.liquidator == NO_KEY ==> c.accounts + {caller} == {caller};
  }

  /**
   A second `begin` by the same liquidator is refused, since its liquidation account exists: the
   path on which the handler finds its own claim and does nothing is never taken.
   */
  lemma SecondBeginIsRefused(c: Case, caller: Key, v: Valuation, time: int)
    requires CaseInv(c) && c.liquidator != NO_KEY
    ensures HandleBegin(c, caller, v, time).Err?
    ensures caller == c.liquidator ==> HandleBegin(c, caller, v, time) == Err(AccountInUse)
  {
  }

  // ----- the bounds of a liquidation, for every sequence of requests -----

  /**
   From a successful `begin` until the liquidation is ended, whatever requests arrive and from
   whomever: the equity lost in it is at most 5% of the liabilities plus one dollar, and the tokens
   of a mint paid to the liquidator are at most a twenty-first of those brought in and repaid.
   */
  lemma EveryCase(c: Case, caller: Key, v: Valuation, time: int, requests: seq<Request>, mint: Key)
    requires CaseInv(c) && 0 <= v.liabilities && c.liquidator == NO_KEY && mint != NO_KEY
    requires HandleBegin(c, caller, v, time).Ok? && NeverEnded(HandleBegin(c, caller, v, time).value, requests)
    ensures Begin(v, time).Ok?
    ensures var l, actions := Begin(v, time).value, ActionsOf(caller, requests);
            && ProcessAll(HandleBegin(c, caller, v, time).value, requests).state == Run(l, actions)
            && 20 * (LossOver(l, actions) - ONE) <= v.liabilities && 0 <= CollateralOver(l, actions)
            && 21 * PaidOver(l, actions, mint) <= EligibleOver(l, actions, mint)
  {
    var begun := HandleBegin(c, caller, v, time).value;
    BeginKeepsInv(c, caller, v, time);
    ClaimIsHeld(begun, requests);
    EveryLiquidation(v, time, ActionsOf(caller, requests));
    LiquidatorIsPaidWhatWasAccrued(v, time, ActionsOf(caller, requests), mint);
  }
}
