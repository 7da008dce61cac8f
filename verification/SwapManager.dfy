/** The swap loop: price steps, fee growth and tick crossings (swap_manager). */
module SwapManager {
  import opened Arithmetic
  import opened Outcome
  import opened TokenMath
  import opened State
  import opened SwapMath
  import opened TickManager
  import opened TickSearch

  const PROTOCOL_FEE_RATE_MUL_VALUE: int := 10_000
  const MAX_PROTOCOL_FEE_RATE: int := 2_500

  /** A swap request; `arrays` lists the start indexes of the tick arrays it brings. */
  datatype SwapRequest = SwapRequest(amount: u64, sqrtPriceLimit: u128, isInput: bool, aToB: bool, arrays: seq<int>)

  /**
   * Loop state of a swap. `accruals`, `lpFees` and `protocolShares` record, for specifications, the fee
   * growth each step added and how its fee was divided, without wrapping.
   */
  datatype SwapCursor = SwapCursor(
    amountRemaining: u64,
    amountCalculated: u64,
    sqrtPrice: u128,
    tick: int,
    liquidity: u128,
    protocolFee: u64,
    feeGrowthInput: u128,
    arrayIndex: nat,
    ticks: map<int, Tick>,
    accruals: seq<Accrual>,
    lpFees: nat,
    protocolShares: nat)

  /** A price lies in tick `t`, or on its upper edge right after crossing left. */
  ghost predicate PriceInTick(c: Curve, t: int, price: int)
    requires c.Valid()
  {
    && MIN_TICK_INDEX - 1 <= t <= MAX_TICK_INDEX
    && MIN_SQRT_PRICE <= price <= MAX_SQRT_PRICE
    && (MIN_TICK_INDEX <= t ==> SqrtPriceFromTickIndex(c, t) <= price)
    && (t < MAX_TICK_INDEX ==> price <= SqrtPriceFromTickIndex(c, t + 1))
  }

  ghost predicate CursorOk(s: Pool, q: SwapRequest, c: SwapCursor) {
    && WellFormed(s)
    && ArraysAligned(q.arrays, s.tickSpacing)
    && MIN_SQRT_PRICE <= q.sqrtPriceLimit <= MAX_SQRT_PRICE
    && TicksAligned(c.ticks, s.tickSpacing)
    && PriceInTick(s.curve, c.tick, c.sqrtPrice)
    && Toward(c.sqrtPrice, q.sqrtPriceLimit, q.aToB)
  }

  predicate Unfinished(q: SwapRequest, c: SwapCursor) {
    c.amountRemaining > 0 && q.sqrtPriceLimit != c.sqrtPrice
  }

  /** Share of a fee that goes to the protocol. */
  function ProtocolShare(fee: u64, rate: nat): (r: u64)
    requires rate <= MAX_PROTOCOL_FEE_RATE
    ensures r <= fee
  {
    MulMono(rate, PROTOCOL_FEE_RATE_MUL_VALUE, fee);
    FloorGreatest(fee * rate, PROTOCOL_FEE_RATE_MUL_VALUE, fee + 1);
    FloorDiv(fee * rate, PROTOCOL_FEE_RATE_MUL_VALUE)
  }

  function FeeGrowth(fee: u64, liquidity: u128): u128 {
    if liquidity > 0 then
      DivRoundAtMost(fee * Q64, liquidity, false);
      FloorDiv(fee * Q64, liquidity)
    else 0
  }

  function FeeAmounts(aToB: bool, growth: u128): GrowthAmounts {
    if aToB then [growth, 0, 0, 0, 0] else [0, growth, 0, 0, 0]
  }

  /** Liquidity after crossing `tick`; negating the most negative i128 does not fit. */
  function LiquidityAfterCross(tick: Tick, aToB: bool, liquidity: u128): Result<u128> {
    if !aToB then AddLiquidityDelta(liquidity, tick.liquidityNet)
    else if tick.liquidityNet == -Q127 then Err(LiquidityOverflow)
    else AddLiquidityDelta(liquidity, 0 - tick.liquidityNet)
  }

  function SpendAmounts(c: SwapCursor, isInput: bool, step: SwapStep): Result<(u64, u64)> {
    if isInput then
      if step.amountIn + step.feeAmount > c.amountRemaining then Err(AmountRemainingOverflow)
      else if c.amountCalculated + step.amountOut >= Q64 then Err(AmountCalcOverflow)
      else Ok((c.amountRemaining - step.amountIn - step.feeAmount, c.amountCalculated + step.amountOut))
    else
      if step.amountOut > c.amountRemaining then Err(AmountRemainingOverflow)
      else if c.amountCalculated + step.amountIn + step.feeAmount >= Q64 then Err(AmountCalcOverflow)
      else Ok((c.amountRemaining - step.amountOut, c.amountCalculated + step.amountIn + step.feeAmount))
  }

  /** Price the next step aims at: the next stop or the caller's limit, whichever comes first. */
  function StepTarget(c: Curve, q: SwapRequest, stop: int): (p: u128)
    requires c.Valid() && MIN_TICK_INDEX <= stop <= MAX_TICK_INDEX
    requires MIN_SQRT_PRICE <= q.sqrtPriceLimit <= MAX_SQRT_PRICE
    ensures MIN_SQRT_PRICE <= p <= MAX_SQRT_PRICE
  {
    if q.aToB then Max(q.sqrtPriceLimit, SqrtPriceFromTickIndex(c, stop))
    else Min(q.sqrtPriceLimit, SqrtPriceFromTickIndex(c, stop))
  }

  /** The cursor after the step's amounts and fees, with price and tick still where they were. */
  function AfterFees(s: Pool, q: SwapRequest, c: SwapCursor, step: SwapStep): Result<SwapCursor>
    requires s.protocolFeeRate <= MAX_PROTOCOL_FEE_RATE
  {
    var (remaining, calculated) :- SpendAmounts(c, q.isInput, step);
    var protocolFee := ProtocolShare(step.feeAmount, s.protocolFeeRate);
    var growth := FeeGrowth(step.feeAmount - protocolFee, c.liquidity);
    Ok(c.(amountRemaining := remaining,
          amountCalculated := calculated,
          protocolFee := WrapAdd64(c.protocolFee, protocolFee),
          feeGrowthInput := WrapAdd(c.feeGrowthInput, growth),
          accruals := c.accruals + [Accrual(c.tick, FeeAmounts(q.aToB, growth))],
          lpFees := c.lpFees + (step.feeAmount - protocolFee),
          protocolShares := c.protocolShares + protocolFee))
  }

  /** Crossing or passing `stop`: an initialized tick flips and moves the liquidity. */
  function AtStop(s: Pool, q: SwapRequest, c: SwapCursor, index: nat, stop: int): Result<SwapCursor>
    requires s.tickSpacing > 0 && index < |q.arrays|
  {
    var start := q.arrays[index];
    var tick := TickAt(c.ticks, stop);
    var offset := (stop - start) / s.tickSpacing;
    var moved := c.(
      arrayIndex := if (q.aToB && offset == 0) || (!q.aToB && offset == TICK_ARRAY_SIZE - 1) then index + 1 else index,
      tick := if q.aToB then stop - 1 else stop);
    if Visible(start, s.tickSpacing, stop) && tick.initialized then
      var growthA := if q.aToB then c.feeGrowthInput else s.feeGrowthGlobalA;
      var growthB := if q.aToB then s.feeGrowthGlobalB else c.feeGrowthInput;
      var liquidity :- LiquidityAfterCross(tick, q.aToB, c.liquidity);
      Ok(moved.(liquidity := liquidity,
                ticks := c.ticks[stop := NextTickCrossUpdate(tick, growthA, growthB, s.rewardInfos)]))
    else
      Ok(moved)
  }

  /** Books a computed step and moves price and tick. */
  function FinishStep(s: Pool, q: SwapRequest, c: SwapCursor, stop: (nat, int), step: SwapStep): Result<SwapCursor>
    requires WellFormed(s) && s.tickSpacing > 0
    requires MIN_TICK_INDEX <= stop.1 <= MAX_TICK_INDEX && stop.0 < |q.arrays|
  {
    var paid :- AfterFees(s, q, c, step);
    if step.nextPrice == SqrtPriceFromTickIndex(s.curve, stop.1) then
      var moved :- AtStop(s, q, paid, stop.0, stop.1);
      Ok(moved.(sqrtPrice := step.nextPrice))
    else if step.nextPrice != c.sqrtPrice then
      Ok(paid.(tick := s.curve.tickAt(step.nextPrice), sqrtPrice := step.nextPrice))
    else
      Ok(paid)
  }

  /** One turn of the swap loop. Rewards in `s` are already brought up to the time of the swap. */
  function SwapIterate(s: Pool, q: SwapRequest, c: SwapCursor): Result<SwapCursor>
    requires CursorOk(s, q, c) && Unfinished(q, c)
  {
    var stop :- GetNextInitializedTickIndex(c.ticks, q.arrays, s.tickSpacing, c.tick, q.aToB, c.arrayIndex);
    StopIsAhead(s, q, c);
    var target := StepTarget(s.curve, q, stop.1);
    var step :- ComputeSwap(c.amountRemaining, s.feeRate, c.liquidity, c.sqrtPrice, target, q.isInput, q.aToB);
    FinishStep(s, q, c, stop, step)
  }

  lemma PriceOrder(c: Curve, t: int, u: int)
    requires c.Valid() && MIN_TICK_INDEX <= t <= u <= MAX_TICK_INDEX
    ensures SqrtPriceFromTickIndex(c, t) <= SqrtPriceFromTickIndex(c, u)
  {
  }

  /** The next stop is on the way to the limit, so the step's target lies ahead of the price. */
  lemma StopIsAhead(s: Pool, q: SwapRequest, c: SwapCursor)
    requires CursorOk(s, q, c) && Unfinished(q, c)
    ensures var r := GetNextInitializedTickIndex(c.ticks, q.arrays, s.tickSpacing, c.tick, q.aToB, c.arrayIndex);
            r.Ok? ==>
              && NextStop(c.ticks, q.arrays, s.tickSpacing, c.tick, q.aToB, r.value)
              && Toward(c.sqrtPrice, SqrtPriceFromTickIndex(s.curve, r.value.1), q.aToB)
              && Toward(c.sqrtPrice, StepTarget(s.curve, q, r.value.1), q.aToB)
  {
    SearchFindsNextStop(c.ticks, q.arrays, s.tickSpacing, c.tick, q.aToB, c.arrayIndex);
    var r := GetNextInitializedTickIndex(c.ticks, q.arrays, s.tickSpacing, c.tick, q.aToB, c.arrayIndex);
    if r.Ok? {
      if q.aToB {
        PriceOrder(s.curve, r.value.1, c.tick);
      } else {
        PriceOrder(s.curve, c.tick + 1, r.value.1);
      }
    }
  }

  /** Turns left at most: each turn that does not finish the swap passes at least one tick. */
  ghost function TurnsLeft(q: SwapRequest, c: SwapCursor): int {
    if !Unfinished(q, c) then 0
    else if q.aToB then c.tick - MIN_TICK_INDEX + 2
    else MAX_TICK_INDEX - c.tick + 1
  }

  /** A turn keeps price and tick in step, respects the limit, and makes progress. */
  lemma IterateKeepsCursor(s: Pool, q: SwapRequest, c: SwapCursor)
    requires CursorOk(s, q, c) && Unfinished(q, c)
    ensures var r := SwapIterate(s, q, c);
            r.Ok? ==> CursorOk(s, q, r.value) && TurnsLeft(q, r.value) < TurnsLeft(q, c)
  {
    if SwapIterate(s, q, c).Ok? {
      var stop, step := TurnParts(s, q, c);
      FinishKeepsCursor(s, q, c, stop, step);
    }
  }

  /** The stop and the fair step that a successful turn is made of. */
  lemma TurnParts(s: Pool, q: SwapRequest, c: SwapCursor) returns (stop: (nat, int), step: SwapStep)
    requires CursorOk(s, q, c) && Unfinished(q, c)
    requires SwapIterate(s, q, c).Ok?
    ensures TurnIs(s, q, c, stop, step)
    ensures SwapIterate(s, q, c) == FinishStep(s, q, c, stop, step)
  {
    StopIsAhead(s, q, c);
    stop := GetNextInitializedTickIndex(c.ticks, q.arrays, s.tickSpacing, c.tick, q.aToB, c.arrayIndex).value;
    var target := StepTarget(s.curve, q, stop.1);
    step := ComputeSwap(c.amountRemaining, s.feeRate, c.liquidity, c.sqrtPrice, target, q.isInput, q.aToB).value;
    ComputeSwapIsFair(c.amountRemaining, s.feeRate, c.liquidity, c.sqrtPrice, target, q.isInput, q.aToB);
  }

  ghost predicate TurnIs(s: Pool, q: SwapRequest, c: SwapCursor, stop: (nat, int), step: SwapStep)
    requires CursorOk(s, q, c)
  {
    && NextStop(c.ticks, q.arrays, s.tickSpacing, c.tick, q.aToB, stop)
    && Toward(c.sqrtPrice, SqrtPriceFromTickIndex(s.curve, stop.1), q.aToB)
    && StepIsFair(step, c.amountRemaining, c.liquidity, c.sqrtPrice, StepTarget(s.curve, q, stop.1), q.isInput, q.aToB)
  }

  /** Until the swap is finished its price is strictly inside the limits, so the tick index is too. */
  lemma UnfinishedHasTurns(s: Pool, q: SwapRequest, c: SwapCursor)
    requires CursorOk(s, q, c) && Unfinished(q, c)
    ensures 0 < TurnsLeft(q, c)
  {
  }

  lemma FinishKeepsCursor(s: Pool, q: SwapRequest, c: SwapCursor, stop: (nat, int), step: SwapStep)
    requires CursorOk(s, q, c) && Unfinished(q, c)
    requires TurnIs(s, q, c, stop, step)
    ensures 0 < TurnsLeft(q, c)
    ensures var r := FinishStep(s, q, c, stop, step);
            r.Ok? ==> CursorOk(s, q, r.value) && TurnsLeft(q, r.value) < TurnsLeft(q, c)
  {
    UnfinishedHasTurns(s, q, c);
    if FinishStep(s, q, c, stop, step).Ok? {
      if step.nextPrice == SqrtPriceFromTickIndex(s.curve, stop.1) {
        StopKeepsCursor(s, q, c, stop, step);
      } else {
        ShortKeepsCursor(s, q, c, stop, step);
      }
    }
    hide FinishStep, CursorOk, TurnIs, TurnsLeft, Unfinished;
  }

  lemma StopKeepsCursor(s: Pool, q: SwapRequest, c: SwapCursor, stop: (nat, int), step: SwapStep)
    requires CursorOk(s, q, c) && Unfinished(q, c) && TurnIs(s, q, c, stop, step)
    requires step.nextPrice == SqrtPriceFromTickIndex(s.curve, stop.1)
    requires FinishStep(s, q, c, stop, step).Ok?
    ensures var r := FinishStep(s, q, c, stop, step).value; CursorOk(s, q, r) && TurnsLeft(q, r) < TurnsLeft(q, c)
  {
    UnfinishedHasTurns(s, q, c);
    AtStopMoves(s, q, AfterFees(s, q, c, step).value, stop.0, stop.1);
    StopIsInTick(s.curve, stop.1, q.aToB);
    hide AtStop, StepIsFair, PriceInTick, TicksAligned, UsableTick, SpendAmounts, FeeGrowth, ProtocolShare;
  }

  lemma ShortKeepsCursor(s: Pool, q: SwapRequest, c: SwapCursor, stop: (nat, int), step: SwapStep)
    requires CursorOk(s, q, c) && Unfinished(q, c) && TurnIs(s, q, c, stop, step)
    requires step.nextPrice != SqrtPriceFromTickIndex(s.curve, stop.1)
    requires FinishStep(s, q, c, stop, step).Ok?
    ensures var r := FinishStep(s, q, c, stop, step).value; CursorOk(s, q, r) && TurnsLeft(q, r) < TurnsLeft(q, c)
  {
    UnfinishedHasTurns(s, q, c);
    ShortStepFinishes(s, q, c, stop, step);
    hide StepIsFair, TicksAligned, UsableTick, SpendAmounts, FeeGrowth, ProtocolShare, NextStop;
  }

  lemma AtStopMoves(s: Pool, q: SwapRequest, c: SwapCursor, index: nat, stop: int)
    requires s.tickSpacing > 0 && index < |q.arrays| && TicksAligned(c.ticks, s.tickSpacing)
    requires AtStop(s, q, c, index, stop).Ok?
    ensures var r := AtStop(s, q, c, index, stop).value;
            && TicksAligned(r.ticks, s.tickSpacing)
            && r.tick == (if q.aToB then stop - 1 else stop)
            && r.amountRemaining == c.amountRemaining
  {
    var r := AtStop(s, q, c, index, stop).value;
    forall t | TickAt(r.ticks, t).initialized ensures UsableTick(t, s.tickSpacing) {
      assert TickAt(c.ticks, t).initialized;
    }
  }

  /** A step that stops before its tick has met the limit or spent the amount. */
  lemma ShortStepFinishes(s: Pool, q: SwapRequest, c: SwapCursor, stop: (nat, int), step: SwapStep)
    requires CursorOk(s, q, c) && TurnIs(s, q, c, stop, step)
    requires step.nextPrice != SqrtPriceFromTickIndex(s.curve, stop.1)
    requires AfterFees(s, q, c, step).Ok?
    ensures AfterFees(s, q, c, step).value.amountRemaining == 0 || step.nextPrice == q.sqrtPriceLimit
    ensures MIN_SQRT_PRICE <= step.nextPrice <= MAX_SQRT_PRICE
    ensures Toward(step.nextPrice, q.sqrtPriceLimit, q.aToB)
  {
  }

  lemma StopIsInTick(c: Curve, stop: int, aToB: bool)
    requires c.Valid() && MIN_TICK_INDEX <= stop <= MAX_TICK_INDEX
    ensures PriceInTick(c, if aToB then stop - 1 else stop, SqrtPriceFromTickIndex(c, stop))
  {
  }

  function SwapLoop(s: Pool, q: SwapRequest, c: SwapCursor): (r: Result<SwapCursor>)
    requires CursorOk(s, q, c)
    ensures r.Ok? ==> CursorOk(s, q, r.value) && !Unfinished(q, r.value)
    decreases TurnsLeft(q, c)
  {
    if !Unfinished(q, c) then Ok(c)
    else
      IterateKeepsCursor(s, q, c);
      var next :- SwapIterate(s, q, c);
      SwapLoop(s, q, next)
  }

  /** Ticks and price agree with the current tick, and only usable ticks are initialized. */
  ghost predicate Aligned(s: Pool) {
    WellFormed(s) && TicksAligned(s.ticks, s.tickSpacing) && PriceInTick(s.curve, s.tickCurrentIndex, s.sqrtPrice)
  }

  function StartCursor(s: Pool, q: SwapRequest): SwapCursor {
    SwapCursor(q.amount, 0, s.sqrtPrice, s.tickCurrentIndex, s.liquidity, 0,
               if q.aToB then s.feeGrowthGlobalA else s.feeGrowthGlobalB, 0, s.ticks, [], 0, 0)
  }

  /** Why a swap is refused before its loop, and before rewards are brought up to date. */
  function Refusal(s: Pool, q: SwapRequest): Option<ErrorCode> {
    if !(MIN_SQRT_PRICE <= q.sqrtPriceLimit <= MAX_SQRT_PRICE) then Some(SqrtPriceOutOfBounds)
    else if !Toward(s.sqrtPrice, q.sqrtPriceLimit, q.aToB) then Some(InvalidSqrtPriceLimitDirection)
    else if q.amount == 0 then Some(ZeroTradableAmount)
    else None
  }

  /** The checks before the loop, then the loop itself. */
  function Swap(s: Pool, q: SwapRequest): (r: Result<SwapCursor>)
    requires Aligned(s) && ArraysAligned(q.arrays, s.tickSpacing)
    ensures r.Ok? ==> CursorOk(s, q, r.value) && !Unfinished(q, r.value)
  {
    match Refusal(s, q)
    case Some(error) => Err(error)
    case None => SwapLoop(s, q, StartCursor(s, q))
  }

  /** Books a step's amounts, the protocol's share and the fee growth. */
  method TakeStep(s: Pool, q: SwapRequest, c: SwapCursor, step: SwapStep) returns (r: Result<SwapCursor>)
    requires s.protocolFeeRate <= MAX_PROTOCOL_FEE_RATE
    ensures r == AfterFees(s, q, c, step)
  {
    var remaining: int, calculated: int := c.amountRemaining, c.amountCalculated;
    if q.isInput {
      remaining := remaining - step.amountIn - step.feeAmount;
      calculated := calculated + step.amountOut;
    } else {
      remaining := remaining - step.amountOut;
      calculated := calculated + step.amountIn + step.feeAmount;
    }
    if remaining < 0 {
      return Err(AmountRemainingOverflow);
    }
    if calculated >= Q64 {
      return Err(AmountCalcOverflow);
    }
    var next := c.(amountRemaining := remaining, amountCalculated := calculated);
    var share := ProtocolShare(step.feeAmount, s.protocolFeeRate);
    next := next.(protocolFee := WrapAdd64(next.protocolFee, share));
    var fee := step.feeAmount - share;
    var growth := FeeGrowth(fee, c.liquidity);
    next := next.(feeGrowthInput := WrapAdd(next.feeGrowthInput, growth));
    next := next.(accruals := next.accruals + [Accrual(c.tick, FeeAmounts(q.aToB, growth))],
                  lpFees := next.lpFees + fee, protocolShares := next.protocolShares + share);
    r := Ok(next);
  }

  /** Passes a stop, crossing it if it is an initialized tick the array holds. */
  method PassStop(s: Pool, q: SwapRequest, c: SwapCursor, index: nat, stop: int) returns (r: Result<SwapCursor>)
    requires s.tickSpacing > 0 && index < |q.arrays|
    ensures r == AtStop(s, q, c, index, stop)
  {
    var start := q.arrays[index];
    var tick := TickAt(c.ticks, stop);
    var next := c;
    if Visible(start, s.tickSpacing, stop) && tick.initialized {
      var growthA := if q.aToB then c.feeGrowthInput else s.feeGrowthGlobalA;
      var growthB := if q.aToB then s.feeGrowthGlobalB else c.feeGrowthInput;
      var update := ComputeTickCrossUpdate(tick, growthA, growthB, s.rewardInfos);
      var liquidity :- LiquidityAfterCross(tick, q.aToB, c.liquidity);
      next := next.(liquidity := liquidity);
      next := next.(ticks := next.ticks[stop := update]);
    }
    var offset := (stop - start) / s.tickSpacing;
    if (q.aToB && offset == 0) || (!q.aToB && offset == TICK_ARRAY_SIZE - 1) {
      next := next.(arrayIndex := index + 1);
    } else {
      next := next.(arrayIndex := index);
    }
    next := next.(tick := if q.aToB then stop - 1 else stop);
    r := Ok(next);
  }

  /** The swap as the program runs it, on rewards brought up to the time of the swap. */
  method RunSwap(s: Pool, q: SwapRequest) returns (r: Result<SwapCursor>)
    requires Aligned(s) && ArraysAligned(q.arrays, s.tickSpacing)
    ensures r == Swap(s, q)
  {
    var refusal := Refusal(s, q);
    if refusal.Some? {
      return Err(refusal.value);
    }
    var c := StartCursor(s, q);
    while c.amountRemaining > 0 && q.sqrtPriceLimit != c.sqrtPrice
      invariant CursorOk(s, q, c)
      invariant SwapLoop(s, q, c) == Swap(s, q)
      decreases TurnsLeft(q, c)
    {
      ghost var before := c;
      hide AfterFees, AtStop, ComputeSwap, GetNextInitializedTickIndex, TurnsLeft, TicksAligned, PriceInTick, StepTarget;
      StopIsAhead(s, q, c);
      IterateKeepsCursor(s, q, c);
      var stop :- SearchSequence(c.ticks, q.arrays, s.tickSpacing, c.tick, q.aToB, c.arrayIndex);
      var stopPrice := SqrtPriceFromTickIndex(s.curve, stop.1);
      var target := StepTarget(s.curve, q, stop.1);
      var step :- ComputeSwap(c.amountRemaining, s.feeRate, c.liquidity, c.sqrtPrice, target, q.isInput, q.aToB);
      c :- TakeStep(s, q, c, step);
      if step.nextPrice == stopPrice {
        c :- PassStop(s, q, c, stop.0, stop.1);
      } else if step.nextPrice != c.sqrtPrice {
        c := c.(tick := s.curve.tickAt(step.nextPrice));
      }
      c := c.(sqrtPrice := step.nextPrice);
      assert Ok(c) == SwapIterate(s, q, before);
    }
    r := Ok(c);
  }
}
