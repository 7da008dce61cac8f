/** Error codes of the program, and the result type that carries them. */
module Outcome {

  datatype ErrorCode =
    | LiquidityZero
    | LiquidityTooHigh
    | LiquidityOverflow
    | LiquidityUnderflow
    | LiquidityNetError
    | InvalidTimestamp
    | InvalidTickIndex
    | InvalidRewardIndex
    | RewardVaultAmountInsufficient
    | TokenMaxExceeded
    | TokenMinSubceeded
    | DivideByZero
    | NumberDownCastError
    | MultiplicationOverflow
    | MultiplicationShiftRightOverflow
    | MulDivOverflow
    | SqrtPriceOutOfBounds
    | InvalidSqrtPriceLimitDirection
    | ZeroTradableAmount
    | AmountRemainingOverflow
    | AmountCalcOverflow
    | AmountOutBelowMinimum
    | AmountInAboveMaximum
    | InvalidTickArraySequence
    | TickArraySequenceInvalidIndex
    | InvalidStartTick
    | FeeRateMaxExceeded
    | ProtocolFeeRateMaxExceeded
    | UnknownPosition
    | InsufficientFunds

  /** The value of a computation, or the error that stopped it. */
  datatype Result<+T> = Ok(value: T) | Err(error: ErrorCode) {
    predicate IsFailure() { Err? }

    function PropagateFailure<U>(): Result<U>
      requires Err?
    {
      Err(error)
    }

    function Extract(): T
      requires Ok?
    {
      value
    }
  }

  datatype Option<+T> = None | Some(value: T)
}
