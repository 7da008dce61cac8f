/** One step of a swap inside a price interval (swap_math), and what it promises. */
module SwapMath {
  import opened Arithmetic
  import opened Outcome
  import opened TokenMath
  import opened CurveAmounts
  import SdkMath

  const FEE_RATE_MUL_VALUE: int := 1_000_000
  const MAX_FEE_RATE: int := 10_000

  datatype SwapStep = SwapStep(amountIn: u64, amountOut: u64, nextPrice: u128, feeAmount: u64)

  function GetAmountFixedDelta(current: u128, target: u128, liquidity: u128, isInput: bool, aToB: bool): Result<u64>
    requires 0 < current && 0 < target
  {
    if aToB == isInput then GetAmountDeltaA(current, target, liquidity, isInput)
    else GetAmountDeltaB(current, target, liquidity, isInput)
  }

  function GetAmountUnfixedDelta(current: u128, target: u128, liquidity: u128, isInput: bool, aToB: bool): Result<u64>
    requires 0 < current && 0 < target
  {
    if aToB == isInput then GetAmountDeltaB(current, target, liquidity, !isInput)
    else GetAmountDeltaA(current, target, liquidity, !isInput)
  }

  lemma FeeIsAside(amount: u64, feeRate: nat)
    requires feeRate <= MAX_FEE_RATE
    ensures FloorDiv(amount * (FEE_RATE_MUL_VALUE - feeRate), FEE_RATE_MUL_VALUE) <= amount
  {
    MulMono(0, feeRate, amount);
    assert amount * (FEE_RATE_MUL_VALUE - feeRate) == amount * FEE_RATE_MUL_VALUE - feeRate * amount;
  }

  /** What remains tradable after setting the fee aside; the 128-bit product cannot overflow. */
  function AmountAfterFee(amount: u64, feeRate: nat): (r: u64)
    requires feeRate <= MAX_FEE_RATE
    ensures r <= amount
  {
    FeeIsAside(amount, feeRate);
    FloorDiv(amount * (FEE_RATE_MUL_VALUE - feeRate), FEE_RATE_MUL_VALUE)
  }

  /** Fee charged on top of an input amount. */
  function FeeOn(amountIn: u64, feeRate: nat): u64
    requires feeRate <= MAX_FEE_RATE
  {
    MulMono(feeRate, FEE_RATE_MUL_VALUE - feeRate, amountIn);
    CeilLeast(amountIn * feeRate, FEE_RATE_MUL_VALUE - feeRate, amountIn);
    CeilDiv(amountIn * feeRate, FEE_RATE_MUL_VALUE - feeRate)
  }

  /** The fee is the least amount that is at least `feeRate` millionths of what the trader pays in total. */
  lemma FeeIsLeast(amountIn: u64, feeRate: nat, fee: int)
    requires feeRate <= MAX_FEE_RATE
    ensures FeeOn(amountIn, feeRate) <= fee <==> feeRate * (amountIn + fee) <= FEE_RATE_MUL_VALUE * fee
  {
    FeeCovers(amountIn, feeRate, fee);
    hide FeeOn;
    FeeAlgebra(amountIn, feeRate, fee);
  }

  lemma FeeCovers(amountIn: u64, feeRate: nat, fee: int)
    requires feeRate <= MAX_FEE_RATE
    ensures FeeOn(amountIn, feeRate) <= fee <==> amountIn * feeRate <= fee * (FEE_RATE_MUL_VALUE - feeRate)
  {
    CeilLeast(amountIn * feeRate, FEE_RATE_MUL_VALUE - feeRate, fee);
  }

  lemma FeeAlgebra(amountIn: int, feeRate: int, fee: int)
    ensures feeRate * (amountIn + fee) == amountIn * feeRate + feeRate * fee
    ensures fee * (FEE_RATE_MUL_VALUE - feeRate) == FEE_RATE_MUL_VALUE * fee - feeRate * fee
  {
  }

  /** The price travels from `current` toward `target`, and no step overshoots it. */
  predicate Toward(current: int, target: int, aToB: bool) {
    if aToB then target <= current else current <= target
  }

  /** The part of the remaining amount that may move the price. */
  function Tradable(amountRemaining: u64, feeRate: nat, isInput: bool): u64
    requires feeRate <= MAX_FEE_RATE
  {
    if isInput then AmountAfterFee(amountRemaining, feeRate) else amountRemaining
  }

  function ComputeSwap(amountRemaining: u64, feeRate: nat, liquidity: u128, current: u128, target: u128,
                       isInput: bool, aToB: bool): Result<SwapStep>
    requires feeRate <= MAX_FEE_RATE
    requires 0 < current && 0 < target && Toward(current, target, aToB)
  {
    var fixedToTarget :- GetAmountFixedDelta(current, target, liquidity, isInput, aToB);
    var amountCalc := Tradable(amountRemaining, feeRate, isInput);
    var next :- if amountCalc >= fixedToTarget then Ok(target)
                else GetNextSqrtPrice(current, liquidity, amountCalc, isInput, aToB);
    NextPriceInside(amountCalc, liquidity, current, target, isInput, aToB);
    var unfixed :- GetAmountUnfixedDelta(current, next, liquidity, isInput, aToB);
    var fixed :- if next == target then Ok(fixedToTarget)
                 else GetAmountFixedDelta(current, next, liquidity, isInput, aToB);
    var amountIn := if isInput then fixed else unfixed;
    var amountOut := if isInput then unfixed else Min(fixed, amountRemaining);
    var fee := if isInput && next != target then amountRemaining - amountIn else FeeOn(amountIn, feeRate);
    Ok(SwapStep(amountIn, amountOut, next, fee))
  }

  lemma FixedDeltaAgrees(current: u128, target: u128, liquidity: u128, isInput: bool, aToB: bool)
    requires 0 < current && 0 < target
    requires GetAmountFixedDelta(current, target, liquidity, isInput, aToB).Ok?
    ensures GetAmountFixedDelta(current, target, liquidity, isInput, aToB).value
         == SdkMath.GetAmountFixedDelta(current, target, liquidity, Specified(isInput), Direction(aToB))
  {
    AmountDeltaBAgrees(current, target, liquidity, isInput);
  }

  lemma UnfixedDeltaAgrees(current: u128, target: u128, liquidity: u128, isInput: bool, aToB: bool)
    requires 0 < current && 0 < target
    requires GetAmountUnfixedDelta(current, target, liquidity, isInput, aToB).Ok?
    ensures GetAmountUnfixedDelta(current, target, liquidity, isInput, aToB).value
         == SdkMath.GetAmountUnfixedDelta(current, target, liquidity, Specified(isInput), Direction(aToB))
  {
    AmountDeltaBAgrees(current, target, liquidity, !isInput);
  }

  /** A step that stops short keeps the price inside its interval and charges no more than it was given. */
  lemma NextPriceInside(amount: u64, liquidity: u128, current: u128, target: u128, isInput: bool, aToB: bool)
    requires 0 < current && 0 < target && Toward(current, target, aToB)
    ensures var whole := GetAmountFixedDelta(current, target, liquidity, isInput, aToB);
            var next := GetNextSqrtPrice(current, liquidity, amount, isInput, aToB);
            whole.Ok? && amount < whole.value && next.Ok? ==>
              && 0 < next.value
              && Toward(current, next.value, aToB) && Toward(next.value, target, aToB)
              && (isInput ==> next.value != target)
              && (var part := GetAmountFixedDelta(current, next.value, liquidity, isInput, aToB);
                  part.Ok? ==> if isInput then part.value <= amount else amount <= part.value)
  {
    var whole := GetAmountFixedDelta(current, target, liquidity, isInput, aToB);
    var next := GetNextSqrtPrice(current, liquidity, amount, isInput, aToB);
    if whole.Ok? && amount < whole.value && next.Ok? {
      var specified, direction := Specified(isInput), Direction(aToB);
      FixedDeltaAgrees(current, target, liquidity, isInput, aToB);
      SdkMath.NextPriceStaysBeforeTarget(current, target, liquidity, amount, specified, direction);
      NextPriceAgrees(current, liquidity, amount, isInput, aToB);
      SdkMath.NextPriceIsOptimal(current, liquidity, amount, specified, direction, next.value);
      if GetAmountFixedDelta(current, next.value, liquidity, isInput, aToB).Ok? {
        FixedDeltaAgrees(current, next.value, liquidity, isInput, aToB);
      }
    }
  }

  /** Exact amount of the input token between two prices. */
  ghost function ExactIn(liquidity: int, from: int, to: int, aToB: bool): real
    requires 0 < from && 0 < to
  {
    if aToB then ExactA(liquidity, to, from) else ExactB(liquidity, from, to)
  }

  ghost function ExactOut(liquidity: int, from: int, to: int, aToB: bool): real
    requires 0 < from && 0 < to
  {
    if aToB then ExactB(liquidity, to, from) else ExactA(liquidity, from, to)
  }

  /** What a successful step charges and pays, whichever amount was specified. */
  ghost predicate StepIsFair(step: SwapStep, amountRemaining: u64, liquidity: u128, current: u128, target: u128,
                             isInput: bool, aToB: bool)
    requires 0 < current
  {
    && 0 < step.nextPrice
    && Toward(current, step.nextPrice, aToB) && Toward(step.nextPrice, target, aToB)
    && step.amountIn as real >= ExactIn(liquidity, current, step.nextPrice, aToB)
    && step.amountOut as real <= ExactOut(liquidity, current, step.nextPrice, aToB)
    && (if isInput then step.amountIn + step.feeAmount <= amountRemaining else step.amountOut <= amountRemaining)
    && (step.nextPrice != target ==>
          if isInput then step.amountIn + step.feeAmount == amountRemaining else step.amountOut == amountRemaining)
  }

  /** Both roundings of both tokens lie within one token of the exact amounts. */
  lemma ExactTightly(liquidity: nat, from: nat, to: nat, isInput: bool, aToB: bool)
    requires 0 < from && 0 < to && Toward(from, to, aToB)
    ensures var fixed := SdkMath.GetAmountFixedDelta(from, to, liquidity, Specified(isInput), Direction(aToB));
            var unfixed := SdkMath.GetAmountUnfixedDelta(from, to, liquidity, Specified(isInput), Direction(aToB));
            var (charged, paid) := if isInput then (fixed, unfixed) else (unfixed, fixed);
            && charged as real - 1.0 < ExactIn(liquidity, from, to, aToB) <= charged as real
            && paid as real <= ExactOut(liquidity, from, to, aToB) < paid as real + 1.0
  {
    var lo, hi := Min(from, to), Max(from, to);
    RoundedATightly(liquidity, lo, hi);
    RoundedBTightly(liquidity, lo, hi);
    RoundedA(liquidity, lo, hi);
    RoundedB(liquidity, lo, hi);
    hide ExactA, ExactB, SdkMath.GetTokenAFromLiquidity, SdkMath.GetTokenBFromLiquidity;
  }

  /**
   * Every successful step is fair: it never overshoots, never charges below the exact
   * curve amount or pays above it, never exceeds the amount left, and exhausts that
   * amount unless it reached its target.
   */
  lemma ComputeSwapIsFair(amountRemaining: u64, feeRate: nat, liquidity: u128, current: u128, target: u128,
                          isInput: bool, aToB: bool)
    requires feeRate <= MAX_FEE_RATE
    requires 0 < current && 0 < target && Toward(current, target, aToB)
    requires ComputeSwap(amountRemaining, feeRate, liquidity, current, target, isInput, aToB).Ok?
    ensures StepIsFair(ComputeSwap(amountRemaining, feeRate, liquidity, current, target, isInput, aToB).value,
                       amountRemaining, liquidity, current, target, isInput, aToB)
  {
    var step := ComputeSwap(amountRemaining, feeRate, liquidity, current, target, isInput, aToB).value;
    var next := step.nextPrice;
    NextPriceInside(Tradable(amountRemaining, feeRate, isInput), liquidity, current, target, isInput, aToB);
    FixedDeltaAgrees(current, next, liquidity, isInput, aToB);
    UnfixedDeltaAgrees(current, next, liquidity, isInput, aToB);
    hide GetAmountFixedDelta, GetAmountUnfixedDelta, GetNextSqrtPrice, ExactIn, ExactOut, FeeOn, AmountAfterFee;
    ExactTightly(liquidity, current, next, isInput, aToB);
    if isInput && next == target {
      FeeFits(amountRemaining, step.amountIn, feeRate);
    }
  }

  /** An input fits what is left after the fee exactly if it fits together with its own least fee. */
  lemma FeeFits(amountRemaining: u64, amountIn: u64, feeRate: nat)
    requires feeRate <= MAX_FEE_RATE
    ensures amountIn <= AmountAfterFee(amountRemaining, feeRate)
       <==> amountIn + FeeOn(amountIn, feeRate) <= amountRemaining
  {
    FeeFitsShare(amountRemaining, amountIn, feeRate);
    FeeIsLeast(amountIn, feeRate, amountRemaining - amountIn);
    hide AmountAfterFee, FeeOn;
  }

  /** `charge` leaves at least the fee rate's share of `amount` over; rates are in millionths. */
  predicate LeavesFee(amount: nat, charge: int, feeRate: nat) {
    feeRate * amount <= 1_000_000 * (amount - charge)
  }

  lemma FeeFitsShare(amountRemaining: u64, charge: nat, feeRate: nat)
    requires feeRate <= MAX_FEE_RATE
    ensures charge <= AmountAfterFee(amountRemaining, feeRate) <==> LeavesFee(amountRemaining, charge, feeRate)
  {
    FloorGreatest(amountRemaining * (FEE_RATE_MUL_VALUE - feeRate), FEE_RATE_MUL_VALUE, charge);
  }

  // ---- what rounding costs the trader ----

  /** The tradable amount does not cover the whole way to the target. */
  predicate StopsShort(amountRemaining: u64, feeRate: nat, liquidity: u128, current: u128, target: u128,
                       isInput: bool, aToB: bool)
    requires feeRate <= MAX_FEE_RATE && 0 < current && 0 < target
  {
    var whole := GetAmountFixedDelta(current, target, liquidity, isInput, aToB);
    whole.Ok? && Tradable(amountRemaining, feeRate, isInput) < whole.value
  }

  /** One unit of price beyond `price`, in the direction of the swap. */
  function Beyond(price: int, aToB: bool): int {
    if aToB then price - 1 else price + 1
  }

  /**
   * The amounts of a step are the exact ones to less than one token: the charge, and also the payment unless
   * an exact-output step stopped short. A step that covers the way to its target ends there. It takes the least
   * fee, and so does every exact-output step. Where a step that stops short ends is said by the lemmas below.
   */
  lemma ComputeSwapIsTight(amountRemaining: u64, feeRate: nat, liquidity: u128, current: u128, target: u128,
                           isInput: bool, aToB: bool)
    requires feeRate <= MAX_FEE_RATE
    requires 0 < current && 0 < target && Toward(current, target, aToB)
    requires ComputeSwap(amountRemaining, feeRate, liquidity, current, target, isInput, aToB).Ok?
    ensures var step := ComputeSwap(amountRemaining, feeRate, liquidity, current, target, isInput, aToB).value;
            var short := StopsShort(amountRemaining, feeRate, liquidity, current, target, isInput, aToB);
            && 0 < step.nextPrice
            && step.amountIn as real - 1.0 < ExactIn(liquidity, current, step.nextPrice, aToB)
            && (isInput || !short ==> ExactOut(liquidity, current, step.nextPrice, aToB) < step.amountOut as real + 1.0)
            && (!short ==> step.nextPrice == target)
            && (!short || !isInput ==> step.feeAmount == FeeOn(step.amountIn, feeRate))
  {
    var step := ComputeSwap(amountRemaining, feeRate, liquidity, current, target, isInput, aToB).value;
    var next := step.nextPrice;
    NextPriceInside(Tradable(amountRemaining, feeRate, isInput), liquidity, current, target, isInput, aToB);
    FixedDeltaAgrees(current, next, liquidity, isInput, aToB);
    UnfixedDeltaAgrees(current, next, liquidity, isInput, aToB);
    hide GetAmountFixedDelta, GetAmountUnfixedDelta, GetNextSqrtPrice, ExactA, ExactB, FeeOn, AmountAfterFee;
    ExactTightly(liquidity, current, next, isInput, aToB);
  }

  /** A successful step that stops short ends at the price formula's price. */
  lemma ShortStep(amountRemaining: u64, feeRate: nat, liquidity: u128, current: u128, target: u128,
                  isInput: bool, aToB: bool)
    requires feeRate <= MAX_FEE_RATE
    requires 0 < current && 0 < target && Toward(current, target, aToB)
    requires ComputeSwap(amountRemaining, feeRate, liquidity, current, target, isInput, aToB).Ok?
    requires StopsShort(amountRemaining, feeRate, liquidity, current, target, isInput, aToB)
    ensures 0 < liquidity
    ensures var step := ComputeSwap(amountRemaining, feeRate, liquidity, current, target, isInput, aToB).value;
            var amount := Tradable(amountRemaining, feeRate, isInput);
            var specified, direction := Specified(isInput), Direction(aToB);
            && SdkMath.NextPriceDefined(current, liquidity, amount, specified, direction)
            && step.nextPrice == SdkMath.GetNextSqrtPrice(current, liquidity, amount, specified, direction) > 0
            && Toward(current, step.nextPrice, aToB)
            && (var fixed := SdkMath.GetAmountFixedDelta(current, step.nextPrice, liquidity, specified, direction);
                if isInput then step.amountIn == fixed <= amount && step.nextPrice != target
                              && step.amountIn + step.feeAmount == amountRemaining
                else step.amountOut == amount <= fixed)
  {
    var step := ComputeSwap(amountRemaining, feeRate, liquidity, current, target, isInput, aToB).value;
    var amount := Tradable(amountRemaining, feeRate, isInput);
    NextPriceInside(amount, liquidity, current, target, isInput, aToB);
    FixedDeltaAgrees(current, target, liquidity, isInput, aToB);
    SdkMath.NextPriceStaysBeforeTarget(current, target, liquidity, amount, Specified(isInput), Direction(aToB));
    NextPriceAgrees(current, liquidity, amount, isInput, aToB);
    FixedDeltaAgrees(current, step.nextPrice, liquidity, isInput, aToB);
    hide GetAmountFixedDelta, GetAmountUnfixedDelta, GetNextSqrtPrice, SdkMath.GetAmountFixedDelta,
         SdkMath.GetNextSqrtPrice, AmountAfterFee, FeeOn;
  }

  /**
   * An exact-input step that stops short spends all it was given. What is tradable covers the exact curve
   * to the price reached but not one unit of price further, so at most that one unit's worth stays
   * behind as extra fee; it is less than one token exactly if the price grid is fine at this price.
   */
  lemma ShortInputIsNearest(amountRemaining: u64, feeRate: nat, liquidity: u128, current: u128, target: u128, aToB: bool)
    requires feeRate <= MAX_FEE_RATE
    requires 0 < current && 0 < target && Toward(current, target, aToB)
    requires ComputeSwap(amountRemaining, feeRate, liquidity, current, target, true, aToB).Ok?
    requires StopsShort(amountRemaining, feeRate, liquidity, current, target, true, aToB)
    ensures var step := ComputeSwap(amountRemaining, feeRate, liquidity, current, target, true, aToB).value;
            var tradable := AmountAfterFee(amountRemaining, feeRate);
            && step.amountIn + step.feeAmount == amountRemaining
            && 0 < step.nextPrice && 0 < Beyond(step.nextPrice, aToB) && 0 < liquidity
            && ExactIn(liquidity, current, step.nextPrice, aToB) <= tradable as real
               < ExactIn(liquidity, current, Beyond(step.nextPrice, aToB), aToB)
            && SdkMath.NextPriceDefined(current, liquidity, tradable, SdkMath.Input, Direction(aToB))
            && (tradable as real - ExactIn(liquidity, current, step.nextPrice, aToB) < 1.0
                <==> SdkMath.FineGrained(current, liquidity, tradable, SdkMath.Input, Direction(aToB)))
  {
    var step := ComputeSwap(amountRemaining, feeRate, liquidity, current, target, true, aToB).value;
    var tradable := AmountAfterFee(amountRemaining, feeRate);
    ShortStep(amountRemaining, feeRate, liquidity, current, target, true, aToB);
    ComputeSwapIsFair(amountRemaining, feeRate, liquidity, current, target, true, aToB);
    var next, further := step.nextPrice, Beyond(step.nextPrice, aToB);
    hide ComputeSwap, StopsShort, AmountAfterFee, SdkMath.GetAmountFixedDelta, SdkMath.GetNextSqrtPrice,
         SdkMath.FineGrained, SdkMath.NextPriceDefined, ExactIn;
    SdkMath.NextPriceIsOptimal(current, liquidity, tradable, SdkMath.Input, Direction(aToB), further);
    SdkMath.NextPriceIsExact(current, liquidity, tradable, SdkMath.Input, Direction(aToB));
    ExactTightly(liquidity, current, next, true, aToB);
    ExactTightly(liquidity, current, further, true, aToB);
  }

  /**
   * The mirror for exact output: the whole requested amount is paid, the exact curve to the price reached
   * covers it and one unit of price nearer would not; the curve gives less than one token
   * more than was paid exactly if the price grid is fine at this price.
   */
  lemma ShortOutputIsNearest(amountRemaining: u64, feeRate: nat, liquidity: u128, current: u128, target: u128, aToB: bool)
    requires feeRate <= MAX_FEE_RATE
    requires 0 < current && 0 < target && Toward(current, target, aToB)
    requires ComputeSwap(amountRemaining, feeRate, liquidity, current, target, false, aToB).Ok?
    requires StopsShort(amountRemaining, feeRate, liquidity, current, target, false, aToB)
    ensures var step := ComputeSwap(amountRemaining, feeRate, liquidity, current, target, false, aToB).value;
            var nearer := Beyond(step.nextPrice, !aToB);
            && step.amountOut == amountRemaining
            && 0 < step.nextPrice && 0 < liquidity
            && amountRemaining as real <= ExactOut(liquidity, current, step.nextPrice, aToB)
            && (amountRemaining > 0 ==>
                  && step.nextPrice != current && 0 < nearer
                  && ExactOut(liquidity, current, nearer, aToB) < amountRemaining as real)
            && SdkMath.NextPriceDefined(current, liquidity, amountRemaining, SdkMath.Output, Direction(aToB))
            && (ExactOut(liquidity, current, step.nextPrice, aToB) - amountRemaining as real < 1.0
                <==> SdkMath.FineGrained(current, liquidity, amountRemaining, SdkMath.Output, Direction(aToB)))
  {
    var step := ComputeSwap(amountRemaining, feeRate, liquidity, current, target, false, aToB).value;
    ShortStep(amountRemaining, feeRate, liquidity, current, target, false, aToB);
    var next, nearer := step.nextPrice, Beyond(step.nextPrice, !aToB);
    hide ComputeSwap, StopsShort, SdkMath.GetAmountFixedDelta, SdkMath.GetNextSqrtPrice,
         SdkMath.FineGrained, SdkMath.NextPriceDefined, ExactOut;
    SdkMath.NextPriceIsExact(current, liquidity, amountRemaining, SdkMath.Output, Direction(aToB));
    ExactTightly(liquidity, current, next, false, aToB);
    if amountRemaining > 0 {
      NoDistanceReleasesNothing(current, liquidity, aToB);
      SdkMath.NextPriceIsOptimal(current, liquidity, amountRemaining, SdkMath.Output, Direction(aToB), nearer);
      ExactTightly(liquidity, current, nearer, false, aToB);
    }
  }

  /**
   * Where an exact-input step ends: at the furthest price on the way whose charge and the least fee on it together
   * fit the amount, or in other words leave the fee rate's share of the amount over.
   */
  lemma InputStepGoesFurthest(amountRemaining: u64, feeRate: nat, liquidity: u128, current: u128, target: u128,
                              aToB: bool, price: nat)
    requires feeRate <= MAX_FEE_RATE
    requires 0 < current && 0 < target && 0 < price
    requires Toward(current, price, aToB) && Toward(price, target, aToB)
    requires ComputeSwap(amountRemaining, feeRate, liquidity, current, target, true, aToB).Ok?
    ensures var step := ComputeSwap(amountRemaining, feeRate, liquidity, current, target, true, aToB).value;
            var charge := SdkMath.GetAmountFixedDelta(current, price, liquidity, SdkMath.Input, Direction(aToB));
            && charge < Q64
            && (Toward(price, step.nextPrice, aToB) <==> charge + FeeOn(charge, feeRate) <= amountRemaining)
            && (Toward(price, step.nextPrice, aToB) <==> LeavesFee(amountRemaining, charge, feeRate))
  {
    var charge := SdkMath.GetAmountFixedDelta(current, price, liquidity, SdkMath.Input, Direction(aToB));
    var tradable := AmountAfterFee(amountRemaining, feeRate);
    WholeWay(amountRemaining, feeRate, liquidity, current, target, true, aToB);
    DeltaGrows(current, price, target, liquidity, true, aToB);
    FeeFits(amountRemaining, charge, feeRate);
    FeeFitsShare(amountRemaining, charge, feeRate);
    if StopsShort(amountRemaining, feeRate, liquidity, current, target, true, aToB) {
      ShortStep(amountRemaining, feeRate, liquidity, current, target, true, aToB);
      hide ComputeSwap, StopsShort, AmountAfterFee, FeeOn, LeavesFee, SdkMath.GetAmountFixedDelta, SdkMath.GetNextSqrtPrice,
           SdkMath.NextPriceDefined;
      SdkMath.NextPriceIsOptimal(current, liquidity, tradable, SdkMath.Input, Direction(aToB), price);
    }
    hide ComputeSwap, StopsShort, AmountAfterFee, FeeOn, LeavesFee, SdkMath.GetAmountFixedDelta;
  }

  /** What a successful step found at its target, and where it ends if it has enough for it. */
  lemma WholeWay(amountRemaining: u64, feeRate: nat, liquidity: u128, current: u128, target: u128,
                 isInput: bool, aToB: bool)
    requires feeRate <= MAX_FEE_RATE
    requires 0 < current && 0 < target && Toward(current, target, aToB)
    requires ComputeSwap(amountRemaining, feeRate, liquidity, current, target, isInput, aToB).Ok?
    ensures var step := ComputeSwap(amountRemaining, feeRate, liquidity, current, target, isInput, aToB).value;
            var whole := SdkMath.GetAmountFixedDelta(current, target, liquidity, Specified(isInput), Direction(aToB));
            && whole < Q64
            && (StopsShort(amountRemaining, feeRate, liquidity, current, target, isInput, aToB)
                <==> Tradable(amountRemaining, feeRate, isInput) < whole)
            && (whole <= Tradable(amountRemaining, feeRate, isInput) ==>
                  step.nextPrice == target && (if isInput then step.amountIn else step.amountOut) == whole)
  {
    FixedDeltaAgrees(current, target, liquidity, isInput, aToB);
    hide GetAmountFixedDelta, GetAmountUnfixedDelta, SdkMath.GetAmountFixedDelta, AmountAfterFee, FeeOn;
  }

  /** A further price charges, or releases, at least as much. */
  lemma DeltaGrows(current: nat, price: nat, further: nat, liquidity: nat, isInput: bool, aToB: bool)
    requires 0 < current && 0 < price && 0 < further
    requires Toward(current, price, aToB) && Toward(price, further, aToB)
    ensures SdkMath.GetAmountFixedDelta(current, price, liquidity, Specified(isInput), Direction(aToB))
         <= SdkMath.GetAmountFixedDelta(current, further, liquidity, Specified(isInput), Direction(aToB))
  {
    ExactGrows(liquidity, current, price, further, aToB);
    hide SdkMath.GetAmountFixedDelta, ExactIn, ExactOut;
    ExactTightly(liquidity, current, price, isInput, aToB);
    ExactTightly(liquidity, current, further, isInput, aToB);
  }

  lemma ExactGrows(liquidity: nat, current: nat, price: nat, further: nat, aToB: bool)
    requires 0 < current && 0 < price && 0 < further
    requires Toward(current, price, aToB) && Toward(price, further, aToB)
    ensures ExactIn(liquidity, current, price, aToB) <= ExactIn(liquidity, current, further, aToB)
    ensures ExactOut(liquidity, current, price, aToB) <= ExactOut(liquidity, current, further, aToB)
  {
    hide ExactA, ExactB;
    if aToB {
      WiderSpan(liquidity, further, price, current, current);
    } else {
      WiderSpan(liquidity, current, current, price, further);
    }
  }

  /** Between prices further apart there is at least as much of both tokens. */
  lemma WiderSpan(liquidity: nat, lo: nat, inner: nat, inner': nat, hi: nat)
    requires 0 < lo <= inner <= inner' <= hi
    ensures ExactA(liquidity, inner, inner') <= ExactA(liquidity, lo, hi)
    ensures ExactB(liquidity, inner, inner') <= ExactB(liquidity, lo, hi)
  {
    hide Recip, Span;
    RecipDecreasing(lo, inner);
    RecipDecreasing(inner', hi);
    WiderDistance(lo, inner, inner', hi);
    Scales(liquidity, Recip(inner) - Recip(inner'), Recip(lo) - Recip(hi));
    Scales(liquidity, Span(inner, inner'), Span(lo, hi));
  }

  lemma WiderDistance(lo: int, inner: int, inner': int, hi: int)
    requires inner' - inner <= hi - lo
    ensures Span(inner, inner') <= Span(lo, hi)
  {
  }

  lemma Scales(liquidity: nat, x: real, y: real)
    requires x <= y
    ensures liquidity as real * x <= liquidity as real * y
  {
    RealMulMono(x, y, liquidity as real);
  }

  /**
   * Where an exact-output step ends: at its target if the way there releases no more than the amount, and else at the
   * nearest price whose release covers the amount. It pays what it releases, but no more than the amount.
   */
  lemma OutputStepGoesNearest(amountRemaining: u64, feeRate: nat, liquidity: u128, current: u128, target: u128,
                              aToB: bool, price: nat)
    requires feeRate <= MAX_FEE_RATE
    requires 0 < current && 0 < target && 0 < price
    requires Toward(current, price, aToB) && Toward(price, target, aToB)
    requires ComputeSwap(amountRemaining, feeRate, liquidity, current, target, false, aToB).Ok?
    ensures var step := ComputeSwap(amountRemaining, feeRate, liquidity, current, target, false, aToB).value;
            var whole := SdkMath.GetAmountFixedDelta(current, target, liquidity, SdkMath.Output, Direction(aToB));
            var release := SdkMath.GetAmountFixedDelta(current, price, liquidity, SdkMath.Output, Direction(aToB));
            if whole <= amountRemaining then step.nextPrice == target && step.amountOut == whole
            else
              && (Toward(step.nextPrice, price, aToB) <==> amountRemaining <= release)
              && step.amountOut == amountRemaining
  {
    WholeWay(amountRemaining, feeRate, liquidity, current, target, false, aToB);
    if StopsShort(amountRemaining, feeRate, liquidity, current, target, false, aToB) {
      ShortStep(amountRemaining, feeRate, liquidity, current, target, false, aToB);
      hide ComputeSwap, StopsShort, SdkMath.GetAmountFixedDelta, SdkMath.GetNextSqrtPrice, SdkMath.NextPriceDefined;
      SdkMath.NextPriceIsOptimal(current, liquidity, amountRemaining, SdkMath.Output, Direction(aToB), price);
    }
    hide ComputeSwap, StopsShort, SdkMath.GetAmountFixedDelta;
  }

  /** Whatever a step charges, its fee is at least the least one; what it charges beyond is left by a short input. */
  lemma FeeIsDue(amountRemaining: u64, feeRate: nat, liquidity: u128, current: u128, target: u128,
                 isInput: bool, aToB: bool)
    requires feeRate <= MAX_FEE_RATE
    requires 0 < current && 0 < target && Toward(current, target, aToB)
    requires ComputeSwap(amountRemaining, feeRate, liquidity, current, target, isInput, aToB).Ok?
    ensures var step := ComputeSwap(amountRemaining, feeRate, liquidity, current, target, isInput, aToB).value;
            && LeavesFee(step.amountIn + step.feeAmount, step.amountIn, feeRate)
            && (!isInput || !StopsShort(amountRemaining, feeRate, liquidity, current, target, isInput, aToB) ==>
                  1_000_000 * step.feeAmount <= feeRate * (step.amountIn + step.feeAmount) + 1_000_000)
  {
    var step := ComputeSwap(amountRemaining, feeRate, liquidity, current, target, isInput, aToB).value;
    ComputeSwapIsTight(amountRemaining, feeRate, liquidity, current, target, isInput, aToB);
    if StopsShort(amountRemaining, feeRate, liquidity, current, target, isInput, aToB) {
      ShortStep(amountRemaining, feeRate, liquidity, current, target, isInput, aToB);
    }
    hide ComputeSwap, StopsShort, SdkMath.GetAmountFixedDelta, SdkMath.GetNextSqrtPrice, SdkMath.NextPriceDefined, FeeOn,
         AmountAfterFee, ExactIn, ExactOut;
    FeeFits(amountRemaining, step.amountIn, feeRate);
    FeeIsLeast(step.amountIn, feeRate, step.feeAmount);
    FeeIsLeast(step.amountIn, feeRate, step.feeAmount - 1);
    FeeLessOne(feeRate, step.amountIn, step.feeAmount);
  }

  lemma FeeLessOne(feeRate: nat, amountIn: int, fee: int)
    ensures feeRate * (amountIn + (fee - 1)) == feeRate * (amountIn + fee) - feeRate
  {
  }

  lemma NoDistanceReleasesNothing(price: nat, liquidity: nat, aToB: bool)
    requires 0 < price
    ensures SdkMath.GetAmountFixedDelta(price, price, liquidity, SdkMath.Output, Direction(aToB)) == 0
  {
    assert liquidity * (price - price) * Q64 == 0 && liquidity * (price - price) == 0 && price * price > 0;
    FloorGreatest(0, price * price, 1);
  }

  /** Without a fee, an input of 4095 tokens can buy nothing: it does not move the price by one unit. */
  lemma DustCanBeEverything()
    ensures var liquidity, price, target := 0x1000 * Q64, Q64, Q64 + 0x1_0000_0000;
            ComputeSwap(4095, 0, liquidity, price, target, true, false) == Ok(SwapStep(0, 0, price, 4095))
  {
    assert FloorDiv(4095 * FEE_RATE_MUL_VALUE, FEE_RATE_MUL_VALUE) == 4095;
  }
}
