/** Every turn of the swap loop keeps the invariant. */
module SwapProofs {
  import opened Arithmetic
  import opened Outcome
  import opened TokenMath
  import opened CurveAmounts
  import opened State
  import opened SwapMath
  import opened TickManager
  import opened TickSearch
  import opened SwapManager
  import opened Instructions
  import opened Ledger
  import opened GrowthProofs
  import opened PrincipalProofs

  /** The pool and its books as they stand at a cursor of a swap on `w`. */
  ghost function WorldAt(w: World, q: SwapRequest, c: SwapCursor): World {
    World(AtCursor(w.pool, q, c), BooksAtCursor(w.books, q, c))
  }

  // ---- fees become growth ----

  /** Growth per unit of liquidity never distributes more than the fee. */
  lemma FeeGrowthFits(fee: u64, liquidity: u128)
    ensures liquidity * FeeGrowth(fee, liquidity) <= fee * Q64
  {
    if liquidity == 0 { assert liquidity * FeeGrowth(fee, liquidity) == 0; }
  }

  lemma FeesReachOneChannel(aToB: bool, growth: u128, liquidity: u128, fee: nat, k: int)
    requires 0 <= k < CHANNELS && liquidity * growth <= fee * Q64
    ensures liquidity * FeeAmounts(aToB, growth)[k] <= if k == (if aToB then 0 else 1) then Q64 * fee else 0
  {
    assert liquidity * 0 == 0;
  }

  lemma FeesAccrue(w: World, q: SwapRequest, c: SwapCursor, step: SwapStep)
    requires w.pool.protocolFeeRate <= MAX_PROTOCOL_FEE_RATE
    requires AfterFees(w.pool, q, c, step).Ok?
    ensures var paid := AfterFees(w.pool, q, c, step).value;
            exists e :: Accrues(WorldAt(w, q, c), WorldAt(w, q, paid), e)
  {
    var paid := AfterFees(w.pool, q, c, step).value;
    var fee := step.feeAmount - ProtocolShare(step.feeAmount, w.pool.protocolFeeRate);
    var e := Accrual(c.tick, FeeAmounts(q.aToB, FeeGrowth(fee, c.liquidity)));
    var u, v := WorldAt(w, q, c), WorldAt(w, q, paid);
    PaidGrows(w, q, c, step);
    FeesAreBooked(w.books, q, c, paid, fee);
    hide FeeGrowth, FeeAmounts, ProtocolShare, AfterFees, AtCursor, BooksAtCursor;
    assert Accrues(u, v, e);
  }

  lemma FeesAreBooked(b: Books, q: SwapRequest, c: SwapCursor, paid: SwapCursor, fee: u64)
    requires var e := Accrual(c.tick, FeeAmounts(q.aToB, FeeGrowth(fee, c.liquidity)));
             paid.accruals == c.accruals + [e] && paid.lpFees == c.lpFees + fee
    ensures var e := Accrual(c.tick, FeeAmounts(q.aToB, FeeGrowth(fee, c.liquidity)));
            var before, after := BooksAtCursor(b, q, c), BooksAtCursor(b, q, paid);
            && after == before.(history := before.history + [e], earned := after.earned)
            && forall k | 0 <= k < CHANNELS :: before.earned[k] + c.liquidity * e.amounts[k] <= after.earned[k]
  {
    FeeGrowthFits(fee, c.liquidity);
    hide FeeGrowth, FeeAmounts;
    forall k | 0 <= k < CHANNELS
      ensures BooksAtCursor(b, q, c).earned[k] + c.liquidity * FeeAmounts(q.aToB, FeeGrowth(fee, c.liquidity))[k]
           <= BooksAtCursor(b, q, paid).earned[k]
    {
      FeesReachOneChannel(q.aToB, FeeGrowth(fee, c.liquidity), c.liquidity, fee, k);
    }
    assert b.history + paid.accruals == (b.history + c.accruals) + [paid.accruals[|c.accruals|]];
  }

  /** What paying a step's fees does to pool and cursor. */
  lemma PaidGrows(w: World, q: SwapRequest, c: SwapCursor, step: SwapStep)
    requires w.pool.protocolFeeRate <= MAX_PROTOCOL_FEE_RATE
    requires AfterFees(w.pool, q, c, step).Ok?
    ensures var paid := AfterFees(w.pool, q, c, step).value;
            var fee := step.feeAmount - ProtocolShare(step.feeAmount, w.pool.protocolFeeRate);
            var amounts := FeeAmounts(q.aToB, FeeGrowth(fee, c.liquidity));
            var s, t := AtCursor(w.pool, q, c), AtCursor(w.pool, q, paid);
            && paid.accruals == c.accruals + [Accrual(c.tick, amounts)] && paid.lpFees == c.lpFees + fee
            && SameTicks(s, t) && s.tickCurrentIndex == c.tick && s.liquidity == c.liquidity
            && forall k | 0 <= k < CHANNELS :: Growth(t, k) == WrapAdd(Growth(s, k), amounts[k])
  {
    hide FeeGrowth, ProtocolShare, SpendAmounts, SwapAmounts, WrapAdd64;
  }

  // ---- moving the current tick ----

  /** Which side of each initialized tick the pool is on does not change, except at `crossed`. */
  ghost predicate SidesKept(ticks: map<int, Tick>, before: int, after: int, crossed: Option<int>) {
    forall t :: TickAt(ticks, t).initialized ==>
      if crossed == Some(t) then (before < t) != (after < t) else before < t <==> after < t
  }

  /** Every channel's outside growth at the tick has flipped; nothing else about it changed. */
  ghost predicate Flipped(s: Pool, old_: Tick, new_: Tick) {
    && new_.initialized == old_.initialized
    && new_.liquidityNet == old_.liquidityNet
    && new_.liquidityGross == old_.liquidityGross
    && forall k | 0 <= k < CHANNELS :: Outside(new_, k) == WrapSub(Growth(s, k), Outside(old_, k))
  }

  /** `v` is `u` with another current tick, after flipping the crossed tick if there is one. */
  ghost predicate TickMoves(u: World, v: World, crossed: Option<int>) {
    && v.books == u.books
    && v.pool.positions == u.pool.positions
    && v.pool.rewardInfos == u.pool.rewardInfos
    && (forall k | 0 <= k < CHANNELS :: Growth(v.pool, k) == Growth(u.pool, k))
    && SidesKept(u.pool.ticks, u.pool.tickCurrentIndex, v.pool.tickCurrentIndex, crossed)
    && (crossed.Some? ==> TickAt(u.pool.ticks, crossed.value).initialized)
    && (forall t :: if crossed == Some(t)
                    then Flipped(u.pool, TickAt(u.pool.ticks, t), TickAt(v.pool.ticks, t))
                    else TickAt(v.pool.ticks, t) == TickAt(u.pool.ticks, t))
    && (match crossed
        case None => v.pool.liquidity == u.pool.liquidity
        case Some(t) =>
          var net := TickAt(u.pool.ticks, t).liquidityNet;
          v.pool.liquidity == if v.pool.tickCurrentIndex < t then u.pool.liquidity - net else u.pool.liquidity + net)
  }

  lemma MoveKeepsInside(u: World, v: World, crossed: Option<int>, i: int, k: int)
    requires WellFormed(u.pool) && TickSums(u.pool) && TickMoves(u, v, crossed)
    requires 0 <= i < |u.pool.positions| && 0 <= k < CHANNELS && u.pool.positions[i].liquidity > 0
    ensures var p := u.pool.positions[i];
            Inside(v.pool, p.tickLowerIndex, p.tickUpperIndex, k) == Inside(u.pool, p.tickLowerIndex, p.tickUpperIndex, k)
  {
    var p := u.pool.positions[i];
    var lower, upper := p.tickLowerIndex, p.tickUpperIndex;
    ActiveTicks(u.pool, i);
    assert p.Bounds(lower) && p.Bounds(upper);
    var lowerOut, upperOut := Outside(TickAt(u.pool.ticks, lower), k), Outside(TickAt(u.pool.ticks, upper), k);
    match crossed
    case None =>
    case Some(t) =>
      InsideAcrossTick(Growth(u.pool, k), u.pool.tickCurrentIndex, v.pool.tickCurrentIndex, t,
                       true, lowerOut, Outside(TickAt(v.pool.ticks, lower), k), lower,
                       true, upperOut, Outside(TickAt(v.pool.ticks, upper), k), upper);
  }

  lemma MoveTelescopes(u: World, v: World, crossed: Option<int>, i: int, k: int)
    requires WellFormed(u.pool) && TickSums(u.pool) && BooksMatch(u) && TickMoves(u, v, crossed)
    requires 0 <= i < |u.pool.positions| && 0 <= k < CHANNELS && u.pool.positions[i].liquidity > 0
    requires TelescopesAt(u, i, k)
    ensures BooksMatch(v) && TelescopesAt(v, i, k)
  {
    MoveKeepsInside(u, v, crossed, i, k);
    hide Inside, Wrap, WrapSub, SidesKept, Flipped;
  }

  lemma MoveKeepsClaims(u: World, v: World, crossed: Option<int>, k: int)
    requires WellFormed(u.pool) && TickSums(u.pool) && TickMoves(u, v, crossed) && 0 <= k < CHANNELS
    ensures ClaimsWithin(u, v, k)
  {
    var f, g, n := UnsettledTerm(u.pool, k), UnsettledTerm(v.pool, k), |u.pool.positions|;
    hide Inside, WrapSub, TickSums, WellFormed, SidesKept, Flipped;
    forall i | 0 <= i < n ensures f(i) == g(i) {
      var p := u.pool.positions[i];
      if p.liquidity > 0 {
        MoveKeepsInside(u, v, crossed, i, k);
      } else {
        NoLiquidityUnsettled(u.pool, i, k);
        NoLiquidityUnsettled(v.pool, i, k);
      }
    }
    SumEqual(f, g, n);
  }

  /** Liquidity in range after the tick has moved, with or without a crossing. */
  lemma RangeSumMoves(s: Pool, after: int, crossed: Option<int>)
    requires WellFormed(s) && TickSums(s) && ActiveSum(s)
    requires SidesKept(s.ticks, s.tickCurrentIndex, after, crossed)
    requires crossed.Some? ==> TickAt(s.ticks, crossed.value).initialized
    ensures Sum(RangeTerm(s.positions, after), |s.positions|)
         == match crossed
            case None => s.liquidity
            case Some(t) =>
              var net := TickAt(s.ticks, t).liquidityNet;
              if after < t then s.liquidity - net else s.liquidity + net
  {
    var ps, n := s.positions, |s.positions|;
    var f, g := RangeTerm(ps, s.tickCurrentIndex), RangeTerm(ps, after);
    match crossed
    case None =>
      forall i | 0 <= i < n ensures f(i) == g(i) {
        SidesOfPosition(s, after, crossed, i);
        assert ps[i].Bounds(ps[i].tickLowerIndex) && ps[i].Bounds(ps[i].tickUpperIndex);
      }
      SumEqual(f, g, n);
    case Some(t) =>
      var h, sign := NetTerm(ps, t), if after < t then -1 else 1;
      forall i | 0 <= i < n ensures g(i) == f(i) + sign * h(i) {
        SidesOfPosition(s, after, crossed, i);
        assert ps[i].Bounds(ps[i].tickLowerIndex) && ps[i].Bounds(ps[i].tickUpperIndex);
      }
      SumAffine(f, g, h, sign, n);
      assert TickAgrees(s, t);
  }

  lemma SidesOfPosition(s: Pool, after: int, crossed: Option<int>, i: int)
    requires WellFormed(s) && TickSums(s) && SidesKept(s.ticks, s.tickCurrentIndex, after, crossed)
    requires 0 <= i < |s.positions|
    ensures var p := s.positions[i];
            && p.tickLowerIndex < p.tickUpperIndex
            && (p.liquidity > 0 ==> forall t | p.Bounds(t) ::
                  if crossed == Some(t) then (s.tickCurrentIndex < t) != (after < t)
                  else s.tickCurrentIndex < t <==> after < t)
  {
    assert s.positions[i] in s.positions;
    if s.positions[i].liquidity > 0 { ActiveTicks(s, i); }
  }

  /** Moving the tick, with or without a crossing, keeps everything but the vaults' side of the invariant. */
  lemma MoveKeeps(u: World, v: World, crossed: Option<int>)
    requires WellFormed(u.pool) && TickSums(u.pool) && ActiveSum(u.pool) && BooksMatch(u)
    requires HistoryMatches(u) && Telescopes(u) && (forall k | 0 <= k < CHANNELS :: Solvent(u, k))
    requires IdleRewards(u.pool) && TickMoves(u, v, crossed)
    ensures TickSums(v.pool) && ActiveSum(v.pool) && IdleRewards(v.pool) && BooksMatch(v) && HistoryMatches(v)
    ensures Telescopes(v) && (forall k | 0 <= k < CHANNELS :: Solvent(v, k))
    ensures WithinEarnings(u, v)
  {
    forall t ensures TickAgrees(v.pool, t) { assert TickAgrees(u.pool, t); }
    RangeSumMoves(u.pool, v.pool.tickCurrentIndex, crossed);
    forall i, k | 0 <= i < |v.pool.positions| && 0 <= k < CHANNELS && v.pool.positions[i].liquidity > 0
      ensures TelescopesAt(v, i, k)
    {
      MoveTelescopes(u, v, crossed, i, k);
    }
    forall k | 0 <= k < CHANNELS ensures Solvent(v, k) && WithinEarningsAt(u, v, k) {
      assert Solvent(u, k);
      MoveKeepsClaims(u, v, crossed, k);
    }
    IdleStaysIdle(u, v, crossed);
    hide ClaimsWithin, TelescopesAt, SidesKept, Flipped, PendingTerm, OwedTerm;
  }

  lemma IdleStaysIdle(u: World, v: World, crossed: Option<int>)
    requires IdleRewards(u.pool) && TickMoves(u, v, crossed)
    ensures IdleRewards(v.pool)
  {
    forall r, t | 0 <= r < NUM_REWARDS && !v.pool.rewardInfos[r].initialized
      ensures TickAt(v.pool.ticks, t).rewardGrowthsOutside[r] == 0
    {
      assert Outside(TickAt(u.pool.ticks, t), r + 2) == 0 && Growth(u.pool, r + 2) == 0;
      assert Outside(TickAt(v.pool.ticks, t), r + 2) == TickAt(v.pool.ticks, t).rewardGrowthsOutside[r];
    }
  }

  /** The code's crossing update flips every channel, initialized or not. */
  lemma CrossFlips(s: Pool, tick: Tick, t: int, growthA: u128, growthB: u128)
    requires IdleRewards(s) && tick == TickAt(s.ticks, t)
    requires growthA == s.feeGrowthGlobalA && growthB == s.feeGrowthGlobalB
    ensures Flipped(s, tick, NextTickCrossUpdate(tick, growthA, growthB, s.rewardInfos))
  {
  }

  /** The code's move after a step is a tick move; it crosses the stop exactly if the stop is initialized. */
  lemma FinishMoves(w: World, q: SwapRequest, c: SwapCursor, stop: (nat, int), step: SwapStep)
    returns (crossed: Option<int>)
    requires CursorOk(w.pool, q, c) && TurnIs(w.pool, q, c, stop, step)
    requires IdleRewards(AtCursor(w.pool, q, c))
    requires FinishStep(w.pool, q, c, stop, step).Ok?
    ensures TickMoves(WorldAt(w, q, AfterFees(w.pool, q, c, step).value),
                      WorldAt(w, q, FinishStep(w.pool, q, c, stop, step).value), crossed)
  {
    if step.nextPrice == SqrtPriceFromTickIndex(w.pool.curve, stop.1) && TickAt(c.ticks, stop.1).initialized {
      crossed := Some(stop.1);
      FinishCrosses(w, q, c, stop, step);
    } else {
      crossed := None;
      FinishPasses(w, q, c, stop, step);
    }
  }

  lemma FinishCrosses(w: World, q: SwapRequest, c: SwapCursor, stop: (nat, int), step: SwapStep)
    requires CursorOk(w.pool, q, c) && TurnIs(w.pool, q, c, stop, step)
    requires IdleRewards(AtCursor(w.pool, q, c))
    requires FinishStep(w.pool, q, c, stop, step).Ok?
    requires step.nextPrice == SqrtPriceFromTickIndex(w.pool.curve, stop.1) && TickAt(c.ticks, stop.1).initialized
    ensures TickMoves(WorldAt(w, q, AfterFees(w.pool, q, c, step).value),
                      WorldAt(w, q, FinishStep(w.pool, q, c, stop, step).value), Some(stop.1))
  {
    var paid, next := AfterFees(w.pool, q, c, step).value, FinishStep(w.pool, q, c, stop, step).value;
    var u, v := WorldAt(w, q, paid), WorldAt(w, q, next);
    var tick := TickAt(c.ticks, stop.1);
    CrossedStop(w.pool, q, c, stop, step);
    CrossFlips(u.pool, tick, stop.1, u.pool.feeGrowthGlobalA, u.pool.feeGrowthGlobalB);
    hide FinishStep, AfterFees, CursorOk, TurnIs, NextTickCrossUpdate, Flipped, SwapAmounts, SidesKept;
    assert u.pool.ticks == c.ticks && v.pool.ticks == next.ticks;
  }

  lemma CrossedStop(s: Pool, q: SwapRequest, c: SwapCursor, stop: (nat, int), step: SwapStep)
    requires CursorOk(s, q, c) && TurnIs(s, q, c, stop, step)
    requires FinishStep(s, q, c, stop, step).Ok?
    requires step.nextPrice == SqrtPriceFromTickIndex(s.curve, stop.1) && TickAt(c.ticks, stop.1).initialized
    ensures var paid, next := AfterFees(s, q, c, step).value, FinishStep(s, q, c, stop, step).value;
            var tick, u := TickAt(c.ticks, stop.1), AtCursor(s, q, paid);
            && next == paid.(arrayIndex := next.arrayIndex, tick := next.tick, sqrtPrice := next.sqrtPrice,
                             liquidity := next.liquidity, ticks := next.ticks)
            && paid.ticks == c.ticks && paid.tick == c.tick && paid.liquidity == c.liquidity
            && next.ticks == c.ticks[stop.1 := NextTickCrossUpdate(tick, u.feeGrowthGlobalA, u.feeGrowthGlobalB,
                                                                   s.rewardInfos)]
            && next.tick == (if q.aToB then stop.1 - 1 else stop.1)
            && next.liquidity == (if q.aToB then c.liquidity - tick.liquidityNet else c.liquidity + tick.liquidityNet)
            && SidesKept(c.ticks, c.tick, next.tick, Some(stop.1))
  {
    hide SpendAmounts, FeeGrowth, ProtocolShare, FeeAmounts, NextTickCrossUpdate;
  }

  lemma FinishPasses(w: World, q: SwapRequest, c: SwapCursor, stop: (nat, int), step: SwapStep)
    requires CursorOk(w.pool, q, c) && TurnIs(w.pool, q, c, stop, step)
    requires FinishStep(w.pool, q, c, stop, step).Ok?
    requires step.nextPrice == SqrtPriceFromTickIndex(w.pool.curve, stop.1) ==> !TickAt(c.ticks, stop.1).initialized
    ensures TickMoves(WorldAt(w, q, AfterFees(w.pool, q, c, step).value),
                      WorldAt(w, q, FinishStep(w.pool, q, c, stop, step).value), None)
  {
    var paid, next := AfterFees(w.pool, q, c, step).value, FinishStep(w.pool, q, c, stop, step).value;
    PassedQuietly(w.pool, q, c, stop, step);
    hide FinishStep, AfterFees, CursorOk, TurnIs;
    var u, v := WorldAt(w, q, paid), WorldAt(w, q, next);
    assert u.pool.ticks == v.pool.ticks == c.ticks;
  }

  lemma PassedQuietly(s: Pool, q: SwapRequest, c: SwapCursor, stop: (nat, int), step: SwapStep)
    requires CursorOk(s, q, c) && TurnIs(s, q, c, stop, step)
    requires FinishStep(s, q, c, stop, step).Ok?
    requires step.nextPrice == SqrtPriceFromTickIndex(s.curve, stop.1) ==> !TickAt(c.ticks, stop.1).initialized
    ensures var paid, next := AfterFees(s, q, c, step).value, FinishStep(s, q, c, stop, step).value;
            && next == paid.(arrayIndex := next.arrayIndex, tick := next.tick, sqrtPrice := next.sqrtPrice)
            && paid == c.(amountRemaining := paid.amountRemaining, amountCalculated := paid.amountCalculated,
                          protocolFee := paid.protocolFee, feeGrowthInput := paid.feeGrowthInput,
                          accruals := paid.accruals, lpFees := paid.lpFees, protocolShares := paid.protocolShares)
            && SidesKept(c.ticks, c.tick, next.tick, None)
  {
    if step.nextPrice != SqrtPriceFromTickIndex(s.curve, stop.1) && step.nextPrice != c.sqrtPrice {
      ShortStepStaysBetween(s, q, c, stop, step);
    }
  }

  lemma ShortStepStaysBetween(s: Pool, q: SwapRequest, c: SwapCursor, stop: (nat, int), step: SwapStep)
    requires CursorOk(s, q, c) && TurnIs(s, q, c, stop, step)
    requires step.nextPrice != SqrtPriceFromTickIndex(s.curve, stop.1) && step.nextPrice != c.sqrtPrice
    ensures var t := s.curve.tickAt(step.nextPrice);
            if q.aToB then stop.1 <= t <= c.tick else c.tick <= t < stop.1
  {
    var p := step.nextPrice;
    var t := s.curve.tickAt(p);
    assert MIN_SQRT_PRICE <= p <= MAX_SQRT_PRICE;
    if q.aToB {
      if t < stop.1 { PriceOrder(s.curve, t + 1, stop.1); }
      if c.tick < t { PriceOrder(s.curve, c.tick + 1, t); }
    } else {
      if stop.1 <= t { PriceOrder(s.curve, stop.1, t); }
      if t < c.tick { PriceOrder(s.curve, t + 1, c.tick); }
    }
  }

  // ---- the vaults ----

  /** Until the next stop, the price stays on one side of every active position's ends. */
  lemma StepKeepsSides(w: World, q: SwapRequest, c: SwapCursor, stop: (nat, int), step: SwapStep)
    requires CursorOk(w.pool, q, c) && TurnIs(w.pool, q, c, stop, step)
    requires TickSums(AtCursor(w.pool, q, c))
    ensures PriceSideKept(AtCursor(w.pool, q, c), step.nextPrice)
  {
    var s := AtCursor(w.pool, q, c);
    forall i | 0 <= i < |s.positions| && s.positions[i].liquidity > 0
      ensures SideAt(s, s.positions[i], step.nextPrice) && SideAt(s, s.positions[i], s.sqrtPrice)
    {
      AlignedSides(s, i);
      ActiveTicks(s, i);
      NextPriceSide(s, s.positions[i], q.aToB, stop.1, step.nextPrice);
    }
  }

  lemma NextPriceSide(s: Pool, p: Position, aToB: bool, stop: int, price: int)
    requires Aligned(s) && WellFormedPosition(p, s.tickSpacing) && SideAt(s, p, s.sqrtPrice)
    requires MIN_TICK_INDEX <= stop <= MAX_TICK_INDEX
    requires forall t | p.Bounds(t) :: TickAt(s.ticks, t).initialized
    requires if aToB then stop <= s.tickCurrentIndex && Quiet(s.ticks, stop + 1, s.tickCurrentIndex + 1)
             else s.tickCurrentIndex < stop && Quiet(s.ticks, s.tickCurrentIndex + 1, stop)
    requires if aToB then SqrtPriceFromTickIndex(s.curve, stop) <= price <= s.sqrtPrice
             else s.sqrtPrice <= price <= SqrtPriceFromTickIndex(s.curve, stop)
    ensures SideAt(s, p, price)
  {
    var lower, upper := p.tickLowerIndex, p.tickUpperIndex;
    assert p.Bounds(lower) && p.Bounds(upper);
    if aToB {
      if lower <= s.tickCurrentIndex { PriceOrder(s.curve, lower, stop); }
      if upper <= s.tickCurrentIndex { PriceOrder(s.curve, upper, stop); }
    } else {
      if s.tickCurrentIndex < lower { PriceOrder(s.curve, stop, lower); }
      if s.tickCurrentIndex < upper { PriceOrder(s.curve, stop, upper); }
    }
  }

  /** What a turn does to vaults, fees and the protocol's share, in the input and output token. */
  lemma TurnMovesTokens(w: World, q: SwapRequest, c: SwapCursor, stop: (nat, int), step: SwapStep)
    requires CursorOk(w.pool, q, c) && TurnIs(w.pool, q, c, stop, step)
    requires FinishStep(w.pool, q, c, stop, step).Ok?
    ensures var u, v := WorldAt(w, q, c), WorldAt(w, q, FinishStep(w.pool, q, c, stop, step).value);
            var share := ProtocolShare(step.feeAmount, w.pool.protocolFeeRate);
            && v.pool.sqrtPrice == step.nextPrice
            && v.books.paid == u.books.paid
            && (if q.aToB then
                  && v.pool.vaultA == u.pool.vaultA + step.amountIn + step.feeAmount
                  && v.pool.vaultB == u.pool.vaultB - step.amountOut
                  && v.books.earned[0] == u.books.earned[0] + Q64 * (step.feeAmount - share)
                  && v.books.earned[1] == u.books.earned[1]
                  && v.pool.protocolFeeOwedA <= u.pool.protocolFeeOwedA + share
                  && v.pool.protocolFeeOwedB == u.pool.protocolFeeOwedB
                else
                  && v.pool.vaultB == u.pool.vaultB + step.amountIn + step.feeAmount
                  && v.pool.vaultA == u.pool.vaultA - step.amountOut
                  && v.books.earned[1] == u.books.earned[1] + Q64 * (step.feeAmount - share)
                  && v.books.earned[0] == u.books.earned[0]
                  && v.pool.protocolFeeOwedB <= u.pool.protocolFeeOwedB + share
                  && v.pool.protocolFeeOwedA == u.pool.protocolFeeOwedA)
  {
    var share := ProtocolShare(step.feeAmount, w.pool.protocolFeeRate);
    WrappedShare(if q.aToB then w.pool.protocolFeeOwedA else w.pool.protocolFeeOwedB, c.protocolFee, share);
  }

  lemma WrappedShare(owed: u64, fee: u64, share: u64)
    ensures WrapAdd64(owed, WrapAdd64(fee, share)) <= WrapAdd64(owed, fee) + share
  {
  }

  /** A turn leaves each vault covering principal, earned fees and the protocol's share. */
  lemma TurnKeepsVaults(w: World, q: SwapRequest, c: SwapCursor, stop: (nat, int), step: SwapStep)
    requires CursorOk(w.pool, q, c) && TurnIs(w.pool, q, c, stop, step)
    requires TickSums(AtCursor(w.pool, q, c)) && ActiveSum(AtCursor(w.pool, q, c))
    requires VaultsCover(WorldAt(w, q, c))
    requires FinishStep(w.pool, q, c, stop, step).Ok?
    requires WellFormed(AtCursor(w.pool, q, FinishStep(w.pool, q, c, stop, step).value))
    ensures VaultsCover(WorldAt(w, q, FinishStep(w.pool, q, c, stop, step).value))
  {
    hide TotalPrincipalA, TotalPrincipalB, ExactA, ExactB, FinishStep, Recip;
    var u, v := WorldAt(w, q, c), WorldAt(w, q, FinishStep(w.pool, q, c, stop, step).value);
    StepKeepsSides(w, q, c, stop, step);
    TurnMovesTokens(w, q, c, stop, step);
    TotalPrincipalMovesA(u.pool, v.pool);
    TotalPrincipalMovesB(u.pool, v.pool);
    ExactFlips(c.liquidity, c.sqrtPrice, step.nextPrice);
  }

  lemma ExactFlips(liquidity: int, from: int, to: int)
    requires 0 < from && 0 < to
    ensures ExactA(liquidity, to, from) == 0.0 - ExactA(liquidity, from, to)
    ensures ExactB(liquidity, to, from) == 0.0 - ExactB(liquidity, from, to)
  {
    hide Recip;
  }

  // ---- one turn, then the whole loop ----

  /** Fees accruing and then the tick moving, with the vaults accounted for, keep the whole invariant. */
  lemma AccrualThenMove(u: World, m: World, v: World, e: Accrual, crossed: Option<int>)
    requires Valid(u) && Accrues(u, m, e) && TickMoves(m, v, crossed)
    requires WellFormed(m.pool) && m.pool.rewardInfos == u.pool.rewardInfos
    requires Aligned(v.pool) && VaultsCover(v)
    ensures Valid(v) && WithinEarnings(u, v)
  {
    hide TickSums, ActiveSum, HistoryMatches, Telescopes, Solvent, VaultsCover, WithinEarnings, Accrues, TickMoves,
         BooksMatch, IdleRewards;
    AccrualKeeps(u, m, e);
    IdleThroughAccrual(u, m, e);
    MoveKeeps(m, v, crossed);
    EarningsCompose(u, m, v);
  }

  lemma IdleThroughAccrual(u: World, m: World, e: Accrual)
    requires IdleRewards(u.pool) && Accrues(u, m, e) && m.pool.rewardInfos == u.pool.rewardInfos
    ensures IdleRewards(m.pool)
  {
  }

  /** A cursor's pool is aligned. */
  lemma CursorIsAligned(s: Pool, q: SwapRequest, c: SwapCursor)
    requires CursorOk(s, q, c)
    ensures Aligned(AtCursor(s, q, c)) && AtCursor(s, q, c).rewardInfos == s.rewardInfos
  {
  }

  lemma TurnKeepsValid(w: World, q: SwapRequest, c: SwapCursor)
    requires CursorOk(w.pool, q, c) && Unfinished(q, c)
    requires Valid(WorldAt(w, q, c)) && SwapIterate(w.pool, q, c).Ok?
    ensures Valid(WorldAt(w, q, SwapIterate(w.pool, q, c).value))
    ensures WithinEarnings(WorldAt(w, q, c), WorldAt(w, q, SwapIterate(w.pool, q, c).value))
  {
    var stop, step := TurnParts(w.pool, q, c);
    IterateKeepsCursor(w.pool, q, c);
    var paid, next := AfterFees(w.pool, q, c, step).value, SwapIterate(w.pool, q, c).value;
    CursorIsAligned(w.pool, q, next);
    PaidKeepsPool(w.pool, q, c, step);
    hide TickSums, ActiveSum, IdleRewards, HistoryMatches, Telescopes, Solvent, VaultsCover, WithinEarnings,
         SwapIterate, TurnIs, Accrues, TickMoves, AtCursor, BooksAtCursor, CursorOk, AfterFees, FinishStep;
    FeesAccrue(w, q, c, step);
    var e :| Accrues(WorldAt(w, q, c), WorldAt(w, q, paid), e);
    var crossed := FinishMoves(w, q, c, stop, step);
    TurnKeepsVaults(w, q, c, stop, step);
    AccrualThenMove(WorldAt(w, q, c), WorldAt(w, q, paid), WorldAt(w, q, next), e, crossed);
  }

  /** Paying a step's fees leaves the pool well-formed and its reward infos alone. */
  lemma PaidKeepsPool(s: Pool, q: SwapRequest, c: SwapCursor, step: SwapStep)
    requires CursorOk(s, q, c) && AfterFees(s, q, c, step).Ok?
    ensures WellFormed(AtCursor(s, q, AfterFees(s, q, c, step).value))
    ensures AtCursor(s, q, AfterFees(s, q, c, step).value).rewardInfos == AtCursor(s, q, c).rewardInfos
  {
  }

  lemma EarningsCompose(u: World, v: World, w: World)
    requires WithinEarnings(u, v) && WithinEarnings(v, w)
    ensures WithinEarnings(u, w)
  {
    forall k | 0 <= k < CHANNELS ensures WithinEarningsAt(u, w, k) {
      assert WithinEarningsAt(u, v, k) && WithinEarningsAt(v, w, k);
    }
  }

  lemma {:induction false} LoopKeepsValid(w: World, q: SwapRequest, c: SwapCursor)
    requires CursorOk(w.pool, q, c)
    requires Valid(WorldAt(w, q, c)) && SwapLoop(w.pool, q, c).Ok?
    ensures Valid(WorldAt(w, q, SwapLoop(w.pool, q, c).value))
    ensures WithinEarnings(WorldAt(w, q, c), WorldAt(w, q, SwapLoop(w.pool, q, c).value))
    decreases TurnsLeft(q, c)
  {
    if Unfinished(q, c) {
      IterateKeepsCursor(w.pool, q, c);
      TurnKeepsValid(w, q, c);
      var next := SwapIterate(w.pool, q, c).value;
      LoopKeepsValid(w, q, next);
      EarningsCompose(WorldAt(w, q, c), WorldAt(w, q, next), WorldAt(w, q, SwapLoop(w.pool, q, c).value));
    }
  }

  lemma StartIsHere(w: World, q: SwapRequest)
    ensures WorldAt(w, q, StartCursor(w.pool, q)) == w
  {
    var k := if q.aToB then 0 else 1;
    assert w.books.history + [] == w.books.history;
    assert w.books.earned[k := w.books.earned[k] + Q64 * 0] == w.books.earned;
  }

  /** A successful swap keeps the invariant, at every turn and at the end. */
  lemma SwapKeepsValid(w: World, q: SwapRequest)
    requires Valid(w) && ArraysAligned(q.arrays, w.pool.tickSpacing) && Swap(w.pool, q).Ok?
    ensures Valid(WorldAt(w, q, Swap(w.pool, q).value))
    ensures WithinEarnings(w, WorldAt(w, q, Swap(w.pool, q).value))
  {
    hide AtCursor, BooksAtCursor, TickSums, ActiveSum, IdleRewards, HistoryMatches, Telescopes, Solvent,
         VaultsCover, WithinEarnings;
    StartIsHere(w, q);
    LoopKeepsValid(w, q, StartCursor(w.pool, q));
  }
}
