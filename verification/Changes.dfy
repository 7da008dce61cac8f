/** Deposits and withdrawals: exactly when they succeed, what they move, and the owner's limits. */
module Changes {
  import opened Arithmetic
  import opened Outcome
  import opened State
  import opened TickManager
  import opened PositionManager
  import opened LiquidityManager
  import opened WhirlpoolManager
  import opened SwapManager
  import opened Instructions
  import opened Ledger
  import opened PrincipalProofs
  import opened StepProofs
  import opened TradeTerms
  import opened Withdrawals
  import SdkMath

  // ---- what a change is worth ----

  /** Tokens A that `amount` of liquidity in position `i` is worth at the current price, by the client's formula. */
  function PricedA(s: Pool, i: nat, amount: nat, roundUp: bool): nat
    requires WellFormed(s) && i < |s.positions|
  {
    assert s.positions[i] in s.positions;
    var lo := SqrtPriceFromTickIndex(s.curve, s.positions[i].tickLowerIndex);
    var hi := SqrtPriceFromTickIndex(s.curve, s.positions[i].tickUpperIndex);
    SdkMath.GetTokenAFromLiquidity(amount, Clamp(s.sqrtPrice, lo, hi), hi, roundUp)
  }

  function PricedB(s: Pool, i: nat, amount: nat, roundUp: bool): nat
    requires WellFormed(s) && i < |s.positions|
  {
    assert s.positions[i] in s.positions;
    var lo := SqrtPriceFromTickIndex(s.curve, s.positions[i].tickLowerIndex);
    var hi := SqrtPriceFromTickIndex(s.curve, s.positions[i].tickUpperIndex);
    SdkMath.GetTokenBFromLiquidity(amount, lo, Clamp(s.sqrtPrice, lo, hi), roundUp)
  }

  /** A change that can be computed leaves price and vaults alone, and is priced by those formulas if they fit 64 bits. */
  lemma ChangeIsPriced(s: Pool, i: nat, delta: i128, timestamp: u64)
    requires Aligned(s) && i < |s.positions| && delta != 0 && ModifyLiquidity(s, i, delta, timestamp).Ok?
    ensures var next := ModifyLiquidity(s, i, delta, timestamp).value;
            var a, b := PricedA(s, i, Magnitude(delta), delta > 0), PricedB(s, i, Magnitude(delta), delta > 0);
            && next.vaultA == s.vaultA && next.vaultB == s.vaultB
            && next.curve.Valid() && WellFormedPosition(s.positions[i], next.tickSpacing) && 0 < next.sqrtPrice
            && var r := CalculateLiquidityTokenDeltas(next, s.positions[i], delta);
               (r.Ok? <==> a < Q64 && b < Q64) && (r.Ok? ==> r.value == (a, b))
  {
    var next := ModifyLiquidity(s, i, delta, timestamp).value;
    AlignedSides(s, i);
    ModifyKeepsPrice(s, i, delta, timestamp);
    hide ModifyLiquidity, CalculateLiquidityTokenDeltas, SdkMath.GetTokenAFromLiquidity, SdkMath.GetTokenBFromLiquidity;
    TokenDeltasAreClamped(next, s.positions[i], delta);
  }

  lemma ModifyKeepsPrice(s: Pool, i: nat, delta: i128, timestamp: u64)
    requires i < |s.positions| && ModifyLiquidity(s, i, delta, timestamp).Ok?
    ensures var next := ModifyLiquidity(s, i, delta, timestamp).value;
            && next.curve == s.curve && next.tickSpacing == s.tickSpacing && next.sqrtPrice == s.sqrtPrice
            && next.tickCurrentIndex == s.tickCurrentIndex && next.vaultA == s.vaultA && next.vaultB == s.vaultB
  {
    hide CalculateModifyLiquidity;
  }

  lemma MagnitudeIs(amount: nat)
    requires amount < Q127
    ensures Magnitude(0 - amount) == amount == Magnitude(amount)
  {
  }

  // ---- deposits ----

  /** Everything `amount` is added to stays within its width. */
  predicate LiquidityFits(s: Pool, p: Position, amount: nat) {
    var lower, upper := TickAt(s.ticks, p.tickLowerIndex), TickAt(s.ticks, p.tickUpperIndex);
    && lower.liquidityGross + amount < Q128 && upper.liquidityGross + amount < Q128
    && lower.liquidityNet + amount < Q127 && -Q127 <= upper.liquidityNet - amount
    && (p.Covers(s.tickCurrentIndex) ==> s.liquidity + amount < Q128)
  }

  /** When the parts of a change that do not depend on ticks can be computed. */
  lemma PartsSucceed(s: Pool, p: Position, delta: i128, timestamp: u64, insideA: u128, insideB: u128,
                     rewardsInside: RewardGrowths)
    ensures NextWhirlpoolRewardInfos(s, timestamp).Ok? <==> s.rewardLastUpdatedTimestamp <= timestamp
    ensures NextPositionModifyLiquidityUpdate(p, delta, insideA, insideB, rewardsInside).Ok?
       <==> 0 <= p.liquidity + delta < Q128
  {
  }

  /** A change can be computed exactly if the clock allows it and pool, ticks and position can all take it. */
  lemma ChangeParts(s: Pool, p: Position, delta: i128, timestamp: u64)
    requires delta != 0
    ensures CalculateModifyLiquidity(s, p, delta, timestamp).Ok? <==>
              && s.rewardLastUpdatedTimestamp <= timestamp
              && 0 <= p.liquidity + delta < Q128
              && (p.Covers(s.tickCurrentIndex) ==> 0 <= s.liquidity + delta < Q128)
              && TakesDelta(TickAt(s.ticks, p.tickLowerIndex), delta, delta)
              && TakesDelta(TickAt(s.ticks, p.tickUpperIndex), delta, 0 - delta)
  {
    var infos := NextWhirlpoolRewardInfos(s, timestamp);
    var lower, upper := TickAt(s.ticks, p.tickLowerIndex), TickAt(s.ticks, p.tickUpperIndex);
    var (a, b) := NextFeeGrowthsInside(s.tickCurrentIndex, lower, p.tickLowerIndex, upper, p.tickUpperIndex,
                                       s.feeGrowthGlobalA, s.feeGrowthGlobalB);
    PartsSucceed(s, p, delta, timestamp, a, b, [0, 0, 0]);
    if infos.Ok? {
      var rewards := NextRewardGrowthsInside(s.tickCurrentIndex, lower, p.tickLowerIndex, upper, p.tickUpperIndex, infos.value);
      PartsSucceed(s, p, delta, timestamp, a, b, rewards);
      TickTakes(lower, p.tickLowerIndex, s, infos.value, delta, false);
      TickTakes(upper, p.tickUpperIndex, s, infos.value, delta, true);
    }
    hide NextFeeGrowthsInside, NextRewardGrowthsInside, NextWhirlpoolRewardInfos, NextPositionModifyLiquidityUpdate,
         NextTickModifyLiquidityUpdate, TakesDelta;
  }

  /** The tick's gross liquidity takes `delta`; unless that empties it, its net takes `netDelta`. */
  predicate TakesDelta(tick: Tick, delta: int, netDelta: int) {
    && 0 <= tick.liquidityGross + delta < Q128
    && (tick.liquidityGross + delta == 0 || -Q127 <= tick.liquidityNet + netDelta < Q127)
  }

  lemma TickTakes(tick: Tick, index: int, s: Pool, infos: RewardInfos, delta: i128, isUpper: bool)
    requires delta != 0
    ensures NextTickModifyLiquidityUpdate(tick, index, s.tickCurrentIndex, s.feeGrowthGlobalA, s.feeGrowthGlobalB, infos,
                                          delta, isUpper).Ok?
       <==> TakesDelta(tick, delta, if isUpper then 0 - delta else delta)
  {
  }

  /** A deposit can be computed exactly if the clock does not run backwards and every width is kept. */
  lemma DepositIsComputed(w: World, i: nat, amount: u128, timestamp: u64)
    requires Valid(w) && i < |w.pool.positions| && 0 < amount < Q127
    ensures ModifyLiquidity(w.pool, i, amount, timestamp).Ok?
       <==> w.pool.rewardLastUpdatedTimestamp <= timestamp && LiquidityFits(w.pool, w.pool.positions[i], amount)
  {
    var s, p := w.pool, w.pool.positions[i];
    hide Valid, CalculateModifyLiquidity, TickSums, ActiveSum;
    ValidSums(w);
    GrossCoversPosition(s, i, p.tickLowerIndex);
    ChangeParts(s, p, amount, timestamp);
  }

  /** A position's own liquidity is part of the gross liquidity of each of its ticks. */
  lemma GrossCoversPosition(s: Pool, i: nat, t: int)
    requires TickSums(s) && i < |s.positions| && s.positions[i].Bounds(t)
    ensures s.positions[i].liquidity <= TickAt(s.ticks, t).liquidityGross
  {
    SumBoundsTerm(GrossTerm(s.positions, t), |s.positions|);
    assert GrossTerm(s.positions, t)(i) == s.positions[i].liquidity;
    assert TickAgrees(s, t);
  }

  /** Where a deposit that is computed and priced ends: at its maximum amounts, or paid. */
  lemma DepositOutcome(s: Pool, i: nat, amount: u128, maxA: u64, maxB: u64, timestamp: u64)
    requires WellFormed(s) && i < |s.positions|
    ensures var r := IncreaseLiquidity(s, i, amount, maxA, maxB, timestamp);
            if !(0 < amount < Q127) || ModifyLiquidity(s, i, amount, timestamp).Err? then r.Err?
            else
              var next := ModifyLiquidity(s, i, amount, timestamp).value;
              && next.curve.Valid() && WellFormedPosition(s.positions[i], next.tickSpacing) && 0 < next.sqrtPrice
              && match CalculateLiquidityTokenDeltas(next, s.positions[i], amount)
                 case Err(_) => r.Err?
                 case Ok((a, b)) =>
                   if a <= maxA && b <= maxB then r == Ok(next.(vaultA := next.vaultA + a, vaultB := next.vaultB + b))
                   else r == Err(TokenMaxExceeded)
  {
    hide CalculateModifyLiquidity, CalculateLiquidityTokenDeltas, ModifyLiquidity, WellFormedPosition, Curve.Valid;
    assert s.positions[i] in s.positions;
    if 0 < amount < Q127 && ModifyLiquidity(s, i, amount, timestamp).Ok? { ModifyKeepsPrice(s, i, amount, timestamp); }
  }

  /**
   * A deposit succeeds exactly if its amount can be expressed, the clock does not run backwards, every width is kept, and
   * what it is worth, rounded up, is within the owner's limit for each token. It then moves exactly that.
   */
  lemma DepositDecides(w: World, i: nat, amount: u128, maxA: u64, maxB: u64, timestamp: u64)
    requires Valid(w) && i < |w.pool.positions|
    ensures WellFormed(w.pool)
    ensures var s := w.pool; var r := IncreaseLiquidity(s, i, amount, maxA, maxB, timestamp);
            var a, b := PricedA(s, i, amount, true), PricedB(s, i, amount, true);
            var computed := && 0 < amount < Q127 && s.rewardLastUpdatedTimestamp <= timestamp
                            && LiquidityFits(s, s.positions[i], amount);
            && (r.Ok? <==> computed && a <= maxA && b <= maxB)
            && (r.Ok? ==> r.value.vaultA == s.vaultA + a && r.value.vaultB == s.vaultB + b)
            && (computed && a < Q64 && b < Q64 && !(a <= maxA && b <= maxB) ==> r == Err(TokenMaxExceeded))
  {
    hide *;
    ValidParts(w);
    DepositOutcome(w.pool, i, amount, maxA, maxB, timestamp);
    if 0 < amount < Q127 {
      DepositIsComputed(w, i, amount, timestamp);
      if ModifyLiquidity(w.pool, i, amount, timestamp).Ok? {
        ChangeIsPriced(w.pool, i, amount, timestamp);
        MagnitudeIs(amount);
      }
    }
  }

  // ---- withdrawals ----

  lemma OwnTicks(p: Position)
    ensures p.Bounds(p.tickLowerIndex) && p.Bounds(p.tickUpperIndex)
  {
  }

  lemma TicksGive(s: Pool, p: Position, amount: nat)
    requires amount <= TickAt(s.ticks, p.tickLowerIndex).liquidityGross
    requires amount <= TickAt(s.ticks, p.tickUpperIndex).liquidityGross
    ensures NetsFit(s, p, amount) <==>
              && TakesDelta(TickAt(s.ticks, p.tickLowerIndex), 0 - amount, 0 - amount)
              && TakesDelta(TickAt(s.ticks, p.tickUpperIndex), 0 - amount, amount)
  {
  }

  /** A withdrawal can be computed exactly if the position has it, the clock does not run backwards and the nets fit. */
  lemma WithdrawalIsComputed(w: World, i: nat, amount: u128, timestamp: u64)
    requires Valid(w) && i < |w.pool.positions| && 0 < amount < Q127
    ensures ModifyLiquidity(w.pool, i, 0 - amount, timestamp).Ok?
       <==> && amount <= w.pool.positions[i].liquidity && w.pool.rewardLastUpdatedTimestamp <= timestamp
            && NetsFit(w.pool, w.pool.positions[i], amount)
  {
    ValidSums(w);
    hide *;
    ModifyOutcome(w.pool, i, 0 - amount, timestamp);
    WithdrawalParts(w.pool, i, amount, timestamp);
  }

  lemma WithdrawalParts(s: Pool, i: nat, amount: u128, timestamp: u64)
    requires TickSums(s) && ActiveSum(s) && i < |s.positions| && 0 < amount < Q127
    ensures CalculateModifyLiquidity(s, s.positions[i], 0 - amount, timestamp).Ok?
       <==> && amount <= s.positions[i].liquidity && s.rewardLastUpdatedTimestamp <= timestamp
            && NetsFit(s, s.positions[i], amount)
  {
    var p := s.positions[i];
    OwnTicks(p);
    hide *;
    GrossCoversPosition(s, i, p.tickLowerIndex);
    GrossCoversPosition(s, i, p.tickUpperIndex);
    ActiveCoversPosition(s, i);
    ChangeParts(s, p, 0 - amount, timestamp);
    if amount <= p.liquidity { TicksGive(s, p, amount); }
  }

  /** Where a withdrawal that is computed and priced ends: at its minimum amounts, for want of funds, or paid. */
  lemma WithdrawalOutcome(s: Pool, i: nat, amount: u128, minA: u64, minB: u64, timestamp: u64)
    requires WellFormed(s) && i < |s.positions|
    ensures var r := DecreaseLiquidity(s, i, amount, minA, minB, timestamp);
            if !(0 < amount < Q127) || ModifyLiquidity(s, i, 0 - amount, timestamp).Err? then r.Err?
            else
              var next := ModifyLiquidity(s, i, 0 - amount, timestamp).value;
              && next.curve.Valid() && WellFormedPosition(s.positions[i], next.tickSpacing) && 0 < next.sqrtPrice
              && match CalculateLiquidityTokenDeltas(next, s.positions[i], 0 - amount)
                 case Err(_) => r.Err?
                 case Ok((a, b)) =>
                   if a < minA || b < minB then r == Err(TokenMinSubceeded)
                   else r == Err(InsufficientFunds)
                        || r == Ok(next.(vaultA := next.vaultA - a, vaultB := next.vaultB - b))
  {
    hide CalculateModifyLiquidity, CalculateLiquidityTokenDeltas, ModifyLiquidity, WellFormedPosition, Curve.Valid;
    assert s.positions[i] in s.positions;
    if 0 < amount < Q127 && ModifyLiquidity(s, i, 0 - amount, timestamp).Ok? {
      ModifyKeepsPrice(s, i, 0 - amount, timestamp);
    }
  }

  /**
   * A withdrawal succeeds exactly if the position has the liquidity, the clock does not run backwards, the nets fit, and
   * what it is worth, rounded down, fits 64 bits and is at least the owner's minimum of each token. It then pays exactly
   * that: the vaults never run short.
   */
  lemma WithdrawalDecides(w: World, i: nat, amount: u128, minA: u64, minB: u64, timestamp: u64)
    requires Valid(w) && i < |w.pool.positions|
    ensures WellFormed(w.pool)
    ensures var s := w.pool; var r := DecreaseLiquidity(s, i, amount, minA, minB, timestamp);
            var a, b := PricedA(s, i, amount, false), PricedB(s, i, amount, false);
            var computed := && 0 < amount < Q127 && amount <= s.positions[i].liquidity
                            && s.rewardLastUpdatedTimestamp <= timestamp && NetsFit(s, s.positions[i], amount);
            && (r.Ok? <==> computed && minA <= a < Q64 && minB <= b < Q64)
            && (r.Ok? ==> r.value.vaultA == s.vaultA - a && r.value.vaultB == s.vaultB - b)
            && (computed && a < Q64 && b < Q64 && !(minA <= a && minB <= b) ==> r == Err(TokenMinSubceeded))
  {
    hide *;
    ValidParts(w);
    WithdrawalOutcome(w.pool, i, amount, minA, minB, timestamp);
    DecreaseIsFunded(w, i, amount, minA, minB, timestamp);
    if 0 < amount < Q127 {
      WithdrawalIsComputed(w, i, amount, timestamp);
      if ModifyLiquidity(w.pool, i, 0 - amount, timestamp).Ok? {
        ChangeIsPriced(w.pool, i, 0 - amount, timestamp);
        MagnitudeIs(amount);
      }
    }
  }
}
