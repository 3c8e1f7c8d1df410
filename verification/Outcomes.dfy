/**
 Results of fallible operations.

 A Solana transaction that returns an error or panics is rolled back, so every operation of the
 models returns a `Result`, and both kinds of failure are an `Err`.
 */
module Outcomes {

  datatype Error =
    | Panic                             // failed assertion, arithmetic overflow, `unwrap` of nothing
    | Disabled
    | InterestAccrualBehind
    | DepositsOnly
    | InsufficientLiquidity
    | InvalidAmount
    | InvalidSetTo
    | RepaymentExceedsTotalOutstanding
    | ExceedsMaxBorrowUtilRatio
    | SetMathOp
    | DepositLimitReached
    | BorrowLimitReached
    | InvalidConfigUtilRate
    | InvalidConfigBorrowRate
    | InvalidConfigManagementRate
    | TokenProgramError                 // a transfer or burn of more than the account holds
    | Healthy
    | Liquidating
    | LiquidationLostValue
    | LiquidationFeeSlotsFull
    | InvalidLiquidationFeeMint
    | UnauthorizedLiquidator
    | MathOpFailed
    | NumericalError
    | ConstraintViolated                // an account constraint of the instruction does not hold
    | AccountInUse                      // an account that is to be created exists already
    | Unhealthy
    | EncodeError

  datatype Result<+T> = Ok(value: T) | Err(error: Error) {

    predicate IsFailure() {
      Err?
    }

    function PropagateFailure<U>(): Result<U>
      requires Err?
    {
      Err(error)
    }

    function Extract(): T
      requires Ok?
    {
      value
    }
  }

  /** The guard of the source's `require!` and of its early error returns. */
  function Require(condition: bool, error: Error): Result<()> {
    if condition then Ok(()) else Err(error)
  }

  /** The outcome of a method against its function: the same error, or the state the function gives. */
  ghost predicate Refines<S>(r: Result<()>, spec: Result<S>, now: S) {
    match spec
    case Ok(after) => r == Ok(()) && now == after
    case Err(error) => r == Err(error)
  }
}
