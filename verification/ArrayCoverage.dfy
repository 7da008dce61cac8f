/** Tick arrays in sequence never fail a swap, as far as they reach. */
module ArrayCoverage {
  import opened Arithmetic
  import opened Outcome
  import opened State
  import opened SwapMath
  import opened TickSearch
  import opened SwapManager
  import opened TickManager
  import opened SwapErrors

  /** The cursor's array, if there is one left, can be searched from the cursor's tick. */
  predicate Positioned(s: Pool, q: SwapRequest, c: SwapCursor) {
    c.arrayIndex < |q.arrays| ==> InSearchRange(q.arrays[c.arrayIndex], s.tickSpacing, c.tick, !q.aToB)
  }

  /** The last tick the last array can hold. */
  function EndTick(s: Pool, q: SwapRequest): int
    requires q.arrays != []
  {
    var start := q.arrays[|q.arrays| - 1];
    if q.aToB then start else start + (TICK_ARRAY_SIZE - 1) * s.tickSpacing
  }

  /** The arrays reach the price limit, or the end of the supported ticks. */
  ghost predicate Reaches(s: Pool, q: SwapRequest)
    requires s.curve.Valid() && q.arrays != []
  {
    var end := EndTick(s, q);
    if q.aToB then
      end < MIN_TICK_INDEX || (end <= MAX_TICK_INDEX && SqrtPriceFromTickIndex(s.curve, end) <= q.sqrtPriceLimit)
    else
      MAX_TICK_INDEX < end || (MIN_TICK_INDEX <= end && q.sqrtPriceLimit <= SqrtPriceFromTickIndex(s.curve, end))
  }

  /** The cursor has run through all arrays, and its price has come to the last tick they can hold. */
  ghost predicate RanOut(s: Pool, q: SwapRequest, c: SwapCursor)
    requires s.curve.Valid() && q.arrays != []
  {
    var end := EndTick(s, q);
    if q.aToB then
      MIN_TICK_INDEX <= end && (end <= MAX_TICK_INDEX ==> c.sqrtPrice <= SqrtPriceFromTickIndex(s.curve, end))
    else
      end <= MAX_TICK_INDEX && (MIN_TICK_INDEX <= end ==> SqrtPriceFromTickIndex(s.curve, end) <= c.sqrtPrice)
  }

  ghost predicate OnTrack(s: Pool, q: SwapRequest, c: SwapCursor)
    requires s.curve.Valid()
  {
    && q.arrays != [] && InSequence(q.arrays, s.tickSpacing, q.aToB)
    && Positioned(s, q, c)
    && (|q.arrays| <= c.arrayIndex ==> RanOut(s, q, c))
  }

  /** A swap that has run through its arrays has met its limit, if they reach it. */
  lemma RanOutIsFinished(s: Pool, q: SwapRequest, c: SwapCursor)
    requires CursorOk(s, q, c) && q.arrays != [] && RanOut(s, q, c) && Reaches(s, q)
    ensures !Unfinished(q, c)
  {
  }

  /** When a stop is in the first or the last place of its array. */
  lemma StopOffset(start: int, spacing: nat, stop: int)
    requires spacing > 0 && start % spacing == 0 && InSearchRange(start, spacing, stop, false)
    ensures var offset := (stop - start) / spacing;
            && (offset == 0 <==> stop < start + spacing)
            && (offset == TICK_ARRAY_SIZE - 1 <==> start + (TICK_ARRAY_SIZE - 1) * spacing <= stop)
    ensures stop < start + spacing && stop % spacing == 0 ==> stop == start
  {
    var offset := OffsetOf(start, spacing, stop, true);
    if 1 <= offset { MulMono(1, offset, spacing); } else { assert offset * spacing == 0; }
    if offset < TICK_ARRAY_SIZE - 1 { MulMono(offset + 1, TICK_ARRAY_SIZE - 1, spacing); }
    if stop < start + spacing && stop != start { BetweenOffsets(start, spacing, 0, stop); }
  }

  /** Passing a stop leaves the cursor in the array that continues the search, or at the end of the last one. */
  lemma StopKeepsTrack(s: Pool, q: SwapRequest, c: SwapCursor, stop: (nat, int))
    requires CursorOk(s, q, c) && OnTrack(s, q, c)
    requires NextStop(c.ticks, q.arrays, s.tickSpacing, c.tick, q.aToB, stop)
    requires q.arrays[stop.0] <= MAX_TICK_INDEX ==> InSearchRange(q.arrays[stop.0], s.tickSpacing, stop.1, false)
    requires AtStop(s, q, c, stop.0, stop.1).Ok?
    ensures var next := AtStop(s, q, c, stop.0, stop.1).value.(sqrtPrice := SqrtPriceFromTickIndex(s.curve, stop.1));
            Unfinished(q, next) && Toward(next.sqrtPrice, q.sqrtPriceLimit, q.aToB) ==> OnTrack(s, q, next)
  {
    var start, spacing, end := q.arrays[stop.0], s.tickSpacing, EndTick(s, q);
    if start <= MAX_TICK_INDEX { StopOffset(start, spacing, stop.1); }
    if MIN_TICK_INDEX <= end <= stop.1 { PriceOrder(s.curve, end, stop.1); }
    if stop.1 <= end <= MAX_TICK_INDEX { PriceOrder(s.curve, stop.1, end); }
    hide NextTickCrossUpdate, LiquidityAfterCross, Quiet, PriceInTick;
    var next := AtStop(s, q, c, stop.0, stop.1).value.(sqrtPrice := SqrtPriceFromTickIndex(s.curve, stop.1));
    if Unfinished(q, next) && Toward(next.sqrtPrice, q.sqrtPriceLimit, q.aToB) {
      assert Positioned(s, q, next);
    }
  }

  /** The search of a turn on track is stopped by nothing but the end of the arrays. */
  lemma TrackIsSearched(s: Pool, q: SwapRequest, c: SwapCursor)
    requires CursorOk(s, q, c) && Unfinished(q, c) && OnTrack(s, q, c)
    ensures var r := GetNextInitializedTickIndex(c.ticks, q.arrays, s.tickSpacing, c.tick, q.aToB, c.arrayIndex);
            if |q.arrays| <= c.arrayIndex then r == Err(TickArraySequenceInvalidIndex)
            else
              && r.Ok? && NextStop(c.ticks, q.arrays, s.tickSpacing, c.tick, q.aToB, r.value)
              && (q.arrays[r.value.0] <= MAX_TICK_INDEX ==>
                    InSearchRange(q.arrays[r.value.0], s.tickSpacing, r.value.1, false))
  {
    StopIsAhead(s, q, c);
    UnfinishedHasTurns(s, q, c);
    if c.arrayIndex < |q.arrays| {
      SearchSucceeds(c.ticks, q.arrays, s.tickSpacing, c.tick, q.aToB, c.arrayIndex);
    }
    hide StepTarget;
  }

  /** What a turn does with its arrays: it stays on track, and fails for want of an array only at their end. */
  ghost predicate KeepsTrack(s: Pool, q: SwapRequest, c: SwapCursor, r: Result<SwapCursor>)
    requires s.curve.Valid()
  {
    match r
    case Ok(next) => Unfinished(q, next) ==> OnTrack(s, q, next)
    case Err(error) =>
      error != InvalidTickArraySequence && (error == TickArraySequenceInvalidIndex ==> |q.arrays| <= c.arrayIndex)
  }

  lemma FinishKeepsTrack(s: Pool, q: SwapRequest, c: SwapCursor, stop: (nat, int), step: SwapStep)
    requires CursorOk(s, q, c) && Unfinished(q, c) && OnTrack(s, q, c) && TurnIs(s, q, c, stop, step)
    requires q.arrays[stop.0] <= MAX_TICK_INDEX ==> InSearchRange(q.arrays[stop.0], s.tickSpacing, stop.1, false)
    ensures KeepsTrack(s, q, c, FinishStep(s, q, c, stop, step))
  {
    var paid := AfterFees(s, q, c, step);
    hide ProtocolShare, FeeGrowth;
    if paid.Ok? {
      if step.nextPrice == SqrtPriceFromTickIndex(s.curve, stop.1) {
        if AtStop(s, q, paid.value, stop.0, stop.1).Ok? { StopKeepsTrack(s, q, paid.value, stop); }
      } else {
        ShortStepFinishes(s, q, c, stop, step);
      }
    }
  }

  lemma TurnKeepsTrack(s: Pool, q: SwapRequest, c: SwapCursor)
    requires CursorOk(s, q, c) && Unfinished(q, c) && OnTrack(s, q, c)
    ensures KeepsTrack(s, q, c, SwapIterate(s, q, c))
  {
    TrackIsSearched(s, q, c);
    StopIsAhead(s, q, c);
    var stop := GetNextInitializedTickIndex(c.ticks, q.arrays, s.tickSpacing, c.tick, q.aToB, c.arrayIndex);
    if stop.Ok? {
      var target := StepTarget(s.curve, q, stop.value.1);
      ComputeSwapErrors(c.amountRemaining, s.feeRate, c.liquidity, c.sqrtPrice, target, q.isInput, q.aToB);
      var step := ComputeSwap(c.amountRemaining, s.feeRate, c.liquidity, c.sqrtPrice, target, q.isInput, q.aToB);
      if step.Ok? {
        ComputeSwapIsFair(c.amountRemaining, s.feeRate, c.liquidity, c.sqrtPrice, target, q.isInput, q.aToB);
        FinishKeepsTrack(s, q, c, stop.value, step.value);
      }
    }
    hide GetNextInitializedTickIndex, ComputeSwap, FinishStep, NextStop, StepIsFair, OnTrack, InSearchRange;
  }

  /** Arrays in sequence never fail a swap's loop, and those that reach its limit do not run out. */
  lemma {:induction false} LoopKeepsTrack(s: Pool, q: SwapRequest, c: SwapCursor)
    requires CursorOk(s, q, c) && (Unfinished(q, c) ==> OnTrack(s, q, c))
    ensures var r := SwapLoop(s, q, c);
            r.Err? ==>
              && q.arrays != []
              && r.error != InvalidTickArraySequence
              && (Reaches(s, q) ==> r.error != TickArraySequenceInvalidIndex)
    decreases TurnsLeft(q, c)
  {
    if Unfinished(q, c) {
      IterateKeepsCursor(s, q, c);
      TurnKeepsTrack(s, q, c);
      if SwapIterate(s, q, c).Ok? {
        LoopKeepsTrack(s, q, SwapIterate(s, q, c).value);
      } else if |q.arrays| <= c.arrayIndex && Reaches(s, q) {
        RanOutIsFinished(s, q, c);
      }
    }
    hide SwapIterate, CursorOk, Reaches, RanOut, Positioned;
  }

  /** Tick arrays as a swap needs them: in sequence, beginning with the one to be searched from the current tick. */
  predicate ArraysCover(s: Pool, q: SwapRequest) {
    && q.arrays != [] && InSequence(q.arrays, s.tickSpacing, q.aToB)
    && InSearchRange(q.arrays[0], s.tickSpacing, s.tickCurrentIndex, !q.aToB)
  }

  lemma SwapKeepsTrack(s: Pool, q: SwapRequest)
    requires Aligned(s) && ArraysAligned(q.arrays, s.tickSpacing) && ArraysCover(s, q)
    ensures Swap(s, q) != Err(InvalidTickArraySequence)
    ensures Reaches(s, q) ==> Swap(s, q) != Err(TickArraySequenceInvalidIndex)
  {
    if Refusal(s, q).None? { LoopKeepsTrack(s, q, StartCursor(s, q)); }
    hide InSearchRange, InSequence, Reaches, SwapLoop;
  }
}
