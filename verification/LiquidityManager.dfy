/** Modifying a position's liquidity: state changes and token amounts (liquidity_manager). */
module LiquidityManager {
  import opened Arithmetic
  import opened Outcome
  import opened TokenMath
  import opened State
  import opened TickManager
  import opened PositionManager
  import opened WhirlpoolManager

  datatype ModifyLiquidityUpdate = ModifyLiquidityUpdate(
    whirlpoolLiquidity: u128,
    tickLowerUpdate: Tick,
    tickUpperUpdate: Tick,
    rewardInfos: RewardInfos,
    positionUpdate: PositionUpdate)

  /** State after changing `p` by `delta` at `timestamp`; a zero delta only settles what `p` has earned. */
  function CalculateModifyLiquidity(s: Pool, p: Position, delta: i128, timestamp: u64): Result<ModifyLiquidityUpdate> {
    if delta == 0 && p.liquidity == 0 then Err(LiquidityZero)
    else
      var lower, upper := p.tickLowerIndex, p.tickUpperIndex;
      var tickLower, tickUpper := TickAt(s.ticks, lower), TickAt(s.ticks, upper);
      var current := s.tickCurrentIndex;
      var infos :- NextWhirlpoolRewardInfos(s, timestamp);
      var liquidity :- NextWhirlpoolLiquidity(s, upper, lower, delta);
      var lowerUpdate :- NextTickModifyLiquidityUpdate(tickLower, lower, current, s.feeGrowthGlobalA,
                                                       s.feeGrowthGlobalB, infos, delta, false);
      var upperUpdate :- NextTickModifyLiquidityUpdate(tickUpper, upper, current, s.feeGrowthGlobalA,
                                                       s.feeGrowthGlobalB, infos, delta, true);
      var (insideA, insideB) := NextFeeGrowthsInside(current, tickLower, lower, tickUpper, upper,
                                                     s.feeGrowthGlobalA, s.feeGrowthGlobalB);
      var rewardsInside := NextRewardGrowthsInside(current, tickLower, lower, tickUpper, upper, infos);
      var positionUpdate :- NextPositionModifyLiquidityUpdate(p, delta, insideA, insideB, rewardsInside);
      Ok(ModifyLiquidityUpdate(liquidity, lowerUpdate, upperUpdate, infos, positionUpdate))
  }

  method ComputeModifyLiquidity(s: Pool, p: Position, delta: i128, timestamp: u64)
    returns (r: Result<ModifyLiquidityUpdate>)
    ensures r == CalculateModifyLiquidity(s, p, delta, timestamp)
  {
    if delta == 0 && p.liquidity == 0 {
      return Err(LiquidityZero);
    }
    var lower, upper := p.tickLowerIndex, p.tickUpperIndex;
    var tickLower, tickUpper := TickAt(s.ticks, lower), TickAt(s.ticks, upper);
    var current := s.tickCurrentIndex;
    var infos :- ComputeRewardInfos(s, timestamp);
    var liquidity :- NextWhirlpoolLiquidity(s, upper, lower, delta);
    var lowerUpdate :- NextTickModifyLiquidityUpdate(tickLower, lower, current, s.feeGrowthGlobalA,
                                                     s.feeGrowthGlobalB, infos, delta, false);
    var upperUpdate :- NextTickModifyLiquidityUpdate(tickUpper, upper, current, s.feeGrowthGlobalA,
                                                     s.feeGrowthGlobalB, infos, delta, true);
    var (insideA, insideB) := NextFeeGrowthsInside(current, tickLower, lower, tickUpper, upper,
                                                   s.feeGrowthGlobalA, s.feeGrowthGlobalB);
    var rewardsInside := ComputeRewardGrowthsInside(current, tickLower, lower, tickUpper, upper, infos);
    var positionUpdate :- ComputePositionUpdate(p, delta, insideA, insideB, rewardsInside);
    r := Ok(ModifyLiquidityUpdate(liquidity, lowerUpdate, upperUpdate, infos, positionUpdate));
  }

  /** Tokens that `delta` liquidity in a position's range is worth, rounded in the pool's favour. */
  function CalculateLiquidityTokenDeltas(s: Pool, p: Position, delta: i128): Result<(u64, u64)>
    requires s.curve.Valid() && WellFormedPosition(p, s.tickSpacing) && 0 < s.sqrtPrice
  {
    if delta == 0 then Err(LiquidityZero)
    else
      var liquidity: u128 := if delta < 0 then 0 - delta else delta;
      var roundUp := delta > 0;
      var lowerPrice := SqrtPriceFromTickIndex(s.curve, p.tickLowerIndex);
      var upperPrice := SqrtPriceFromTickIndex(s.curve, p.tickUpperIndex);
      if s.tickCurrentIndex < p.tickLowerIndex then
        var a :- GetAmountDeltaA(lowerPrice, upperPrice, liquidity, roundUp);
        Ok((a, 0))
      else if s.tickCurrentIndex < p.tickUpperIndex then
        var a :- GetAmountDeltaA(s.sqrtPrice, upperPrice, liquidity, roundUp);
        var b :- GetAmountDeltaB(lowerPrice, s.sqrtPrice, liquidity, roundUp);
        Ok((a, b))
      else
        var b :- GetAmountDeltaB(lowerPrice, upperPrice, liquidity, roundUp);
        Ok((0, b))
  }

  /** `sync_modify_liquidity_values` on account values. */
  function SyncModifyLiquidityValues(s: Pool, i: nat, u: ModifyLiquidityUpdate, timestamp: u64): Pool
    requires i < |s.positions|
  {
    var p := s.positions[i];
    s.(positions := s.positions[i := p.Update(u.positionUpdate)],
       ticks := s.ticks[p.tickLowerIndex := u.tickLowerUpdate][p.tickUpperIndex := u.tickUpperUpdate],
       rewardLastUpdatedTimestamp := timestamp,
       rewardInfos := u.rewardInfos,
       liquidity := u.whirlpoolLiquidity)
  }
}
