/** Which errors a swap can end with, and which it never does. */
module SwapErrors {
  import opened Arithmetic
  import opened Outcome
  import opened TokenMath
  import opened State
  import opened SwapMath
  import opened TickManager
  import opened TickSearch
  import opened SwapManager
  import opened Instructions
  import opened Ledger
  import opened SwapProofs
  import SdkMath

  // ---- the lists ----

  /** The tick arrays given do not reach as far as the swap. */
  predicate ArrayError(e: ErrorCode) {
    e == InvalidTickArraySequence || e == TickArraySequenceInvalidIndex
  }

  /** An amount or product does not fit its width. */
  predicate WidthError(e: ErrorCode) {
    e == MultiplicationOverflow || e == MultiplicationShiftRightOverflow || e == NumberDownCastError
    || e == TokenMaxExceeded
  }

  /** All that can stop the loop. */
  predicate LoopError(e: ErrorCode) {
    ArrayError(e) || WidthError(e) || e == AmountCalcOverflow || e == LiquidityOverflow
  }

  // ---- one step ----

  lemma {:induction false} SearchErrors(ticks: map<int, Tick>, arrays: seq<int>, spacing: nat, tick: int,
                                        aToB: bool, index: nat)
    requires spacing > 0
    ensures var r := GetNextInitializedTickIndex(ticks, arrays, spacing, tick, aToB, index);
            r.Err? ==> ArrayError(r.error)
    decreases |arrays| - index
  {
    if index + 1 < |arrays| {
      var start := arrays[index];
      SearchErrors(ticks, arrays, spacing,
                   if aToB then start - 1 else start + TICK_ARRAY_SIZE * spacing - 1, aToB, index + 1);
    }
    hide Scan, InSearchRange;
  }

  /** A price that stops short of a supported target is found, unless its product overflows. */
  lemma ShortPriceErrors(amount: u64, liquidity: u128, current: u128, target: u128, isInput: bool, aToB: bool)
    requires MIN_SQRT_PRICE <= current <= MAX_SQRT_PRICE && MIN_SQRT_PRICE <= target <= MAX_SQRT_PRICE
    requires Toward(current, target, aToB)
    requires GetAmountFixedDelta(current, target, liquidity, isInput, aToB).Ok?
    requires amount < GetAmountFixedDelta(current, target, liquidity, isInput, aToB).value
    ensures var r := GetNextSqrtPrice(current, liquidity, amount, isInput, aToB);
            r.Err? ==> r.error == MultiplicationOverflow
  {
    FixedDeltaAgrees(current, target, liquidity, isInput, aToB);
    SdkMath.NextPriceStaysBeforeTarget(current, target, liquidity, amount, Specified(isInput), Direction(aToB));
    hide GetAmountFixedDelta, SdkMath.GetAmountFixedDelta, SdkMath.GetLowerSqrtPriceFromTokenA,
         SdkMath.GetUpperSqrtPriceFromTokenA, SdkMath.GetLowerSqrtPriceFromTokenB, SdkMath.GetUpperSqrtPriceFromTokenB;
    Commutes(amount, current);
  }

  lemma Commutes(x: int, y: int)
    ensures x * y == y * x
  {
  }

  lemma ComputeSwapErrors(amountRemaining: u64, feeRate: nat, liquidity: u128, current: u128, target: u128,
                          isInput: bool, aToB: bool)
    requires feeRate <= MAX_FEE_RATE
    requires MIN_SQRT_PRICE <= current <= MAX_SQRT_PRICE && MIN_SQRT_PRICE <= target <= MAX_SQRT_PRICE
    requires Toward(current, target, aToB)
    ensures var r := ComputeSwap(amountRemaining, feeRate, liquidity, current, target, isInput, aToB);
            r.Err? ==> WidthError(r.error)
  {
    var amount := Tradable(amountRemaining, feeRate, isInput);
    var whole := GetAmountFixedDelta(current, target, liquidity, isInput, aToB);
    DeltaErrors(current, target, liquidity, isInput, aToB);
    if whole.Ok? {
      if amount < whole.value {
        ShortPriceErrors(amount, liquidity, current, target, isInput, aToB);
        NextPriceInside(amount, liquidity, current, target, isInput, aToB);
      }
      var next := if amount >= whole.value then Ok(target)
                  else GetNextSqrtPrice(current, liquidity, amount, isInput, aToB);
      if next.Ok? { DeltaErrors(current, next.value, liquidity, isInput, aToB); }
    }
    hide GetAmountFixedDelta, GetAmountUnfixedDelta, GetNextSqrtPrice, AmountAfterFee, FeeOn;
  }

  /** The product the price of A is computed from fits its width. */
  predicate PriceProductFits(amount: u64, liquidity: u128, current: u128, isInput: bool, aToB: bool) {
    isInput == aToB && amount > 0 ==> liquidity * current * Q64 < Q256
  }

  /** A price that stops short of a supported target is found exactly if its product fits. */
  lemma ShortPriceSucceeds(amount: u64, liquidity: u128, current: u128, target: u128, isInput: bool, aToB: bool)
    requires MIN_SQRT_PRICE <= current <= MAX_SQRT_PRICE && MIN_SQRT_PRICE <= target <= MAX_SQRT_PRICE
    requires Toward(current, target, aToB)
    requires GetAmountFixedDelta(current, target, liquidity, isInput, aToB).Ok?
    requires amount < GetAmountFixedDelta(current, target, liquidity, isInput, aToB).value
    ensures GetNextSqrtPrice(current, liquidity, amount, isInput, aToB).Ok?
       <==> PriceProductFits(amount, liquidity, current, isInput, aToB)
  {
    FixedDeltaAgrees(current, target, liquidity, isInput, aToB);
    SdkMath.NextPriceStaysBeforeTarget(current, target, liquidity, amount, Specified(isInput), Direction(aToB));
    hide GetAmountFixedDelta, SdkMath.GetAmountFixedDelta, SdkMath.GetLowerSqrtPriceFromTokenA,
         SdkMath.GetUpperSqrtPriceFromTokenA, SdkMath.GetLowerSqrtPriceFromTokenB, SdkMath.GetUpperSqrtPriceFromTokenB;
    Commutes(amount, current);
  }

  /**
   * A step between supported prices succeeds exactly if the whole way's rounded amount, the product of a price of A
   * it stops short at, and the other token's rounded amount fit their widths; no other limit applies.
   */
  lemma ComputeSwapSucceeds(amountRemaining: u64, feeRate: nat, liquidity: u128, current: u128, target: u128,
                            isInput: bool, aToB: bool)
    requires feeRate <= MAX_FEE_RATE
    requires MIN_SQRT_PRICE <= current <= MAX_SQRT_PRICE && MIN_SQRT_PRICE <= target <= MAX_SQRT_PRICE
    requires Toward(current, target, aToB)
    ensures var amount := Tradable(amountRemaining, feeRate, isInput);
            var specified, direction := Specified(isInput), Direction(aToB);
            var whole := SdkMath.GetAmountFixedDelta(current, target, liquidity, specified, direction);
            ComputeSwap(amountRemaining, feeRate, liquidity, current, target, isInput, aToB).Ok? <==>
              && whole < Q64
              && (amount < whole ==> PriceProductFits(amount, liquidity, current, isInput, aToB))
              && (var next := StepEnd(amount, liquidity, current, target, specified, direction);
                  0 < next && SdkMath.GetAmountUnfixedDelta(current, next, liquidity, specified, direction) < Q64)
  {
    var amount := Tradable(amountRemaining, feeRate, isInput);
    var specified, direction := Specified(isInput), Direction(aToB);
    var whole := GetAmountFixedDelta(current, target, liquidity, isInput, aToB);
    DeltaFits(current, target, liquidity, isInput, aToB);
    if whole.Ok? {
      var next := if amount < whole.value then GetNextSqrtPrice(current, liquidity, amount, isInput, aToB)
                  else Ok(target);
      if amount < whole.value {
        ShortPriceSucceeds(amount, liquidity, current, target, isInput, aToB);
        SdkMath.NextPriceStaysBeforeTarget(current, target, liquidity, amount, specified, direction);
        NextPriceInside(amount, liquidity, current, target, isInput, aToB);
        if next.Ok? {
          NextPriceAgrees(current, liquidity, amount, isInput, aToB);
          DeltaGrows(current, next.value, target, liquidity, isInput, aToB);
        }
      }
      if next.Ok? { DeltaFits(current, next.value, liquidity, isInput, aToB); }
    }
    hide GetAmountFixedDelta, GetAmountUnfixedDelta, GetNextSqrtPrice, AmountAfterFee, FeeOn, PriceProductFits,
         SdkMath.GetAmountFixedDelta, SdkMath.GetAmountUnfixedDelta, SdkMath.GetNextSqrtPrice, SdkMath.NextPriceDefined;
  }

  /** Where a step ends that has `amount` to trade. */
  function StepEnd(amount: u64, liquidity: u128, current: u128, target: u128, specified: SdkMath.AmountSpecified,
                   direction: SdkMath.SwapDirection): int
    requires 0 < current && 0 < target
  {
    if amount < SdkMath.GetAmountFixedDelta(current, target, liquidity, specified, direction)
       && SdkMath.NextPriceDefined(current, liquidity, amount, specified, direction)
    then SdkMath.GetNextSqrtPrice(current, liquidity, amount, specified, direction)
    else target
  }

  /** Between supported prices an amount is computed exactly if it fits 64 bits. */
  lemma DeltaFits(from: u128, to: u128, liquidity: u128, isInput: bool, aToB: bool)
    requires 0 < from <= MAX_SQRT_PRICE && 0 < to <= MAX_SQRT_PRICE
    ensures var r := GetAmountFixedDelta(from, to, liquidity, isInput, aToB);
            var q := SdkMath.GetAmountFixedDelta(from, to, liquidity, Specified(isInput), Direction(aToB));
            (r.Ok? <==> q < Q64) && (r.Ok? ==> r.value == q)
    ensures GetAmountUnfixedDelta(from, to, liquidity, isInput, aToB).Ok?
       <==> SdkMath.GetAmountUnfixedDelta(from, to, liquidity, Specified(isInput), Direction(aToB)) < Q64
  {
    AmountDeltaAAgrees(from, to, liquidity, isInput);
    AmountDeltaBAgrees(from, to, liquidity, isInput);
    AmountDeltaAAgrees(from, to, liquidity, !isInput);
    AmountDeltaBAgrees(from, to, liquidity, !isInput);
    hide GetAmountDeltaA, GetAmountDeltaB, SdkMath.GetTokenAFromLiquidity, SdkMath.GetTokenBFromLiquidity;
  }

  lemma DeltaErrors(from: u128, to: u128, liquidity: u128, isInput: bool, aToB: bool)
    requires 0 < from && 0 < to
    ensures var r := GetAmountFixedDelta(from, to, liquidity, isInput, aToB); r.Err? ==> WidthError(r.error)
    ensures var r := GetAmountUnfixedDelta(from, to, liquidity, isInput, aToB); r.Err? ==> WidthError(r.error)
  {
    hide SdkMath.GetTokenAFromLiquidity;
  }

  // ---- crossing a tick ----

  /** A tick's net liquidity is at most all the liquidity there is, in either direction. */
  lemma NetWithinTotal(s: Pool, t: int)
    requires TickSums(s)
    ensures -TotalLiquidity(s) <= TickAt(s.ticks, t).liquidityNet <= TotalLiquidity(s)
  {
    var ps, n := s.positions, |s.positions|;
    var all := LiquidityTerm(ps);
    var none, minus := (i: int) => 0, (i: int) => 0 - all(i);
    SumOrdered(NetTerm(ps, t), all, n);
    SumOrdered(minus, NetTerm(ps, t), n);
    SumAffine(none, minus, all, -1, n);
    SumZero(none, n);
    assert TickAgrees(s, t);
  }

  lemma {:induction false} SumZero(f: int -> int, n: nat)
    requires forall i | 0 <= i < n :: f(i) == 0
    ensures Sum(f, n) == 0
  {
    if n > 0 { SumZero(f, n - 1); }
  }

  lemma RangeWithinTotal(s: Pool, current: int)
    ensures 0 <= Sum(RangeTerm(s.positions, current), |s.positions|) <= TotalLiquidity(s)
  {
    SumBoundsTerm(RangeTerm(s.positions, current), |s.positions|);
    SumOrdered(RangeTerm(s.positions, current), LiquidityTerm(s.positions), |s.positions|);
  }

  /** What crossing a tick takes from the active liquidity is there; the result can only be too large. */
  lemma CrossingFits(s: Pool, stop: int, aToB: bool)
    requires WellFormed(s) && TickSums(s) && ActiveSum(s) && TickAt(s.ticks, stop).initialized
    requires SidesKept(s.ticks, s.tickCurrentIndex, if aToB then stop - 1 else stop, Some(stop))
    ensures var r := LiquidityAfterCross(TickAt(s.ticks, stop), aToB, s.liquidity);
            r.Err? ==> r.error == LiquidityOverflow && Q127 <= TotalLiquidity(s)
  {
    var after := if aToB then stop - 1 else stop;
    RangeSumMoves(s, after, Some(stop));
    RangeWithinTotal(s, after);
    NetWithinTotal(s, stop);
    hide TickSums, ActiveSum, WellFormed, SidesKept, TotalLiquidity, RangeTerm;
  }

  // ---- one turn, the loop, the instruction ----

  /** What the loop is not stopped by: see `LoopError`; too much liquidity takes 2^127 of it. */
  ghost predicate ListedError(s: Pool, r: Result<SwapCursor>) {
    r.Err? ==> LoopError(r.error) && (r.error == LiquidityOverflow ==> Q127 <= TotalLiquidity(s))
  }

  lemma StopSides(w: World, q: SwapRequest, c: SwapCursor, stop: (nat, int), step: SwapStep)
    requires CursorOk(w.pool, q, c) && TurnIs(w.pool, q, c, stop, step)
    ensures SidesKept(c.ticks, c.tick, if q.aToB then stop.1 - 1 else stop.1, Some(stop.1))
  {
    hide StepIsFair, PriceInTick;
  }

  lemma FinishErrors(w: World, q: SwapRequest, c: SwapCursor, stop: (nat, int), step: SwapStep)
    requires CursorOk(w.pool, q, c) && TurnIs(w.pool, q, c, stop, step)
    requires WellFormed(AtCursor(w.pool, q, c)) && TickSums(AtCursor(w.pool, q, c)) && ActiveSum(AtCursor(w.pool, q, c))
    ensures ListedError(w.pool, FinishStep(w.pool, q, c, stop, step))
  {
    StopSides(w, q, c, stop, step);
    SpendErrors(w, q, c, stop, step);
    if TickAt(c.ticks, stop.1).initialized { CrossingFits(AtCursor(w.pool, q, c), stop.1, q.aToB); }
    hide TickSums, ActiveSum, CursorOk, TurnIs, SpendAmounts, FeeGrowth, ProtocolShare, NextTickCrossUpdate,
         LiquidityAfterCross, Visible, SidesKept, WellFormed;
  }

  /** A fair step never spends more than remains. */
  lemma SpendErrors(w: World, q: SwapRequest, c: SwapCursor, stop: (nat, int), step: SwapStep)
    requires CursorOk(w.pool, q, c) && TurnIs(w.pool, q, c, stop, step)
    ensures var r := SpendAmounts(c, q.isInput, step); r.Err? ==> r.error == AmountCalcOverflow
  {
    hide NextStop, PriceInTick;
  }

  lemma TurnErrors(w: World, q: SwapRequest, c: SwapCursor)
    requires CursorOk(w.pool, q, c) && Unfinished(q, c) && Valid(WorldAt(w, q, c))
    ensures ListedError(w.pool, SwapIterate(w.pool, q, c))
  {
    var s := w.pool;
    CursorStep(w, q, c);
    hide Valid, GetNextInitializedTickIndex, ComputeSwap, FinishStep, StepTarget, NextStop, Toward, StepIsFair, CursorOk,
         TurnIs, TickSums, ActiveSum, WellFormed, AtCursor, TotalLiquidity, LoopError, ArrayError, WidthError;
    var stop := GetNextInitializedTickIndex(c.ticks, q.arrays, s.tickSpacing, c.tick, q.aToB, c.arrayIndex);
    if stop.Ok? {
      var target := StepTarget(s.curve, q, stop.value.1);
      var step := ComputeSwap(c.amountRemaining, s.feeRate, c.liquidity, c.sqrtPrice, target, q.isInput, q.aToB);
      if step.Ok? { FinishErrors(w, q, c, stop.value, step.value); }
    }
    Listed();
  }

  lemma Listed()
    ensures forall e: ErrorCode :: ArrayError(e) || WidthError(e) ==> LoopError(e) && e != LiquidityOverflow
  {
  }

  /** The parts of a turn: how its search and its step can fail, and that the step it books is fair. */
  lemma CursorStep(w: World, q: SwapRequest, c: SwapCursor)
    requires CursorOk(w.pool, q, c) && Unfinished(q, c) && Valid(WorldAt(w, q, c))
    ensures WellFormed(AtCursor(w.pool, q, c)) && TickSums(AtCursor(w.pool, q, c)) && ActiveSum(AtCursor(w.pool, q, c))
    ensures var s := w.pool;
            s.tickSpacing > 0 && s.curve.Valid() && s.feeRate <= MAX_FEE_RATE && 0 < c.sqrtPrice
            && MIN_SQRT_PRICE <= q.sqrtPriceLimit <= MAX_SQRT_PRICE
    ensures var s := w.pool;
            var stop := GetNextInitializedTickIndex(c.ticks, q.arrays, s.tickSpacing, c.tick, q.aToB, c.arrayIndex);
            if stop.Err? then SwapIterate(s, q, c) == Err(stop.error) && ArrayError(stop.error)
            else
              && MIN_TICK_INDEX <= stop.value.1 <= MAX_TICK_INDEX && stop.value.0 < |q.arrays|
              && var target := StepTarget(s.curve, q, stop.value.1);
                 && Toward(c.sqrtPrice, target, q.aToB)
                 && var step := ComputeSwap(c.amountRemaining, s.feeRate, c.liquidity, c.sqrtPrice, target,
                                            q.isInput, q.aToB);
                    if step.Err? then SwapIterate(s, q, c) == Err(step.error) && WidthError(step.error)
                    else TurnIs(s, q, c, stop.value, step.value)
                         && SwapIterate(s, q, c) == FinishStep(s, q, c, stop.value, step.value)
  {
    var s := w.pool;
    SearchErrors(c.ticks, q.arrays, s.tickSpacing, c.tick, q.aToB, c.arrayIndex);
    StopIsAhead(s, q, c);
    hide GetNextInitializedTickIndex, ComputeSwap, FinishStep, NextStop, StepIsFair, TickSums, ActiveSum, IdleRewards,
         HistoryMatches, Telescopes, Solvent, VaultsCover, TicksAligned, ArrayError, WidthError, AtCursor;
    var stop := GetNextInitializedTickIndex(c.ticks, q.arrays, s.tickSpacing, c.tick, q.aToB, c.arrayIndex);
    if stop.Ok? {
      var target := StepTarget(s.curve, q, stop.value.1);
      ComputeSwapErrors(c.amountRemaining, s.feeRate, c.liquidity, c.sqrtPrice, target, q.isInput, q.aToB);
      var step := ComputeSwap(c.amountRemaining, s.feeRate, c.liquidity, c.sqrtPrice, target, q.isInput, q.aToB);
      if step.Ok? {
        ComputeSwapIsFair(c.amountRemaining, s.feeRate, c.liquidity, c.sqrtPrice, target, q.isInput, q.aToB);
      }
    }
  }

  lemma {:induction false} LoopErrors(w: World, q: SwapRequest, c: SwapCursor)
    requires CursorOk(w.pool, q, c) && Valid(WorldAt(w, q, c))
    ensures ListedError(w.pool, SwapLoop(w.pool, q, c))
    decreases TurnsLeft(q, c)
  {
    if Unfinished(q, c) {
      IterateKeepsCursor(w.pool, q, c);
      TurnErrors(w, q, c);
      if SwapIterate(w.pool, q, c).Ok? {
        TurnKeepsValid(w, q, c);
        LoopErrors(w, q, SwapIterate(w.pool, q, c).value);
      }
    }
    hide SwapIterate, CursorOk, WorldAt, Valid, LoopError, TotalLiquidity;
  }

  /** A swap that was not refused ends only with a listed error. */
  lemma LoopErrorsAreListed(w: World, q: SwapRequest)
    requires Valid(w) && ArraysAligned(q.arrays, w.pool.tickSpacing)
    ensures Refusal(w.pool, q).None? ==> ListedError(w.pool, Swap(w.pool, q))
  {
    if Refusal(w.pool, q).None? {
      StartIsHere(w, q);
      LoopErrors(w, q, StartCursor(w.pool, q));
    }
  }

  /** What is wrong with the request itself. */
  predicate RequestError(e: ErrorCode) {
    e == InvalidStartTick || e == SqrtPriceOutOfBounds || e == InvalidSqrtPriceLimitDirection || e == ZeroTradableAmount
    || e == InvalidTimestamp || e == AmountOutBelowMinimum || e == AmountInAboveMaximum
  }

  /** The stages at which the instruction can fail. */
  lemma SwapStages(s: Pool, q: SwapRequest, threshold: u64, timestamp: u64)
    requires Aligned(s)
    ensures var r, accrued := SwapTokens(s, q, threshold, timestamp), AccrueRewards(s, timestamp);
            r.Err? ==>
              || RequestError(r.error)
              || (ArraysAligned(q.arrays, s.tickSpacing) && Refusal(s, q).None? && accrued.Ok?
                  && Aligned(accrued.value) && accrued.value.tickSpacing == s.tickSpacing
                  && match Swap(accrued.value, q)
                     case Err(error) => r.error == error
                     case Ok(c) =>
                       r.error == InsufficientFunds
                       && if q.aToB then AtCursor(accrued.value, q, c).vaultB < 0
                          else AtCursor(accrued.value, q, c).vaultA < 0)
  {
    AccrualErrors(s, timestamp);
    hide Swap, SwapAmounts;
  }

  lemma AccrualErrors(s: Pool, timestamp: u64)
    ensures AccrueRewards(s, timestamp).Err? ==> AccrueRewards(s, timestamp).error == InvalidTimestamp
  {
  }
}
