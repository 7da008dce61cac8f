/** Tick updates and growth-inside arithmetic (tick_manager). */
module TickManager {
  import opened Arithmetic
  import opened Outcome
  import opened TokenMath
  import opened State

  /** Growth below a tick, for one accumulator; an uninitialized tick counts all growth as below it. */
  function GrowthBelow(current: int, growth: u128, initialized: bool, outside: u128, tick: int): u128 {
    if !initialized then growth
    else if current < tick then WrapSub(growth, outside)
    else outside
  }

  /** Growth above a tick; an uninitialized tick counts none. */
  function GrowthAbove(current: int, growth: u128, initialized: bool, outside: u128, tick: int): u128 {
    if !initialized then 0
    else if current < tick then outside
    else WrapSub(growth, outside)
  }

  /** Growth recorded between two ticks. */
  function GrowthInside(current: int, growth: u128, lowerInit: bool, lowerOutside: u128, lower: int,
                        upperInit: bool, upperOutside: u128, upper: int): u128
  {
    WrapSub(WrapSub(growth, GrowthBelow(current, growth, lowerInit, lowerOutside, lower)),
            GrowthAbove(current, growth, upperInit, upperOutside, upper))
  }

  function NextFeeGrowthsInside(current: int, tickLower: Tick, lower: int, tickUpper: Tick, upper: int,
                                growthA: u128, growthB: u128): (u128, u128)
  {
    (GrowthInside(current, growthA, tickLower.initialized, tickLower.feeGrowthOutsideA, lower,
                  tickUpper.initialized, tickUpper.feeGrowthOutsideA, upper),
     GrowthInside(current, growthB, tickLower.initialized, tickLower.feeGrowthOutsideB, lower,
                  tickUpper.initialized, tickUpper.feeGrowthOutsideB, upper))
  }

  function NextRewardGrowthInside(current: int, tickLower: Tick, lower: int, tickUpper: Tick, upper: int,
                                  info: RewardInfo, i: nat): u128
    requires i < NUM_REWARDS
  {
    if !info.initialized then 0
    else GrowthInside(current, info.growthGlobalX64, tickLower.initialized, tickLower.rewardGrowthsOutside[i], lower,
                      tickUpper.initialized, tickUpper.rewardGrowthsOutside[i], upper)
  }

  function NextRewardGrowthsInside(current: int, tickLower: Tick, lower: int, tickUpper: Tick, upper: int,
                                   infos: RewardInfos): RewardGrowths
  {
    seq(NUM_REWARDS, i requires 0 <= i < NUM_REWARDS =>
      NextRewardGrowthInside(current, tickLower, lower, tickUpper, upper, infos[i], i))
  }

  method ComputeRewardGrowthsInside(current: int, tickLower: Tick, lower: int, tickUpper: Tick, upper: int,
                                    infos: RewardInfos)
    returns (inside: RewardGrowths)
    ensures inside == NextRewardGrowthsInside(current, tickLower, lower, tickUpper, upper, infos)
  {
    inside := [0, 0, 0];
    for i := 0 to NUM_REWARDS
      invariant |inside| == NUM_REWARDS
      invariant forall j | 0 <= j < i ::
          inside[j] == NextRewardGrowthInside(current, tickLower, lower, tickUpper, upper, infos[j], j)
      invariant forall j | i <= j < NUM_REWARDS :: inside[j] == 0
    {
      if !infos[i].initialized {
        continue;
      }
      var growth := infos[i].growthGlobalX64;
      var below := if !tickLower.initialized then growth
                   else if current < lower then WrapSub(growth, tickLower.rewardGrowthsOutside[i])
                   else tickLower.rewardGrowthsOutside[i];
      var above := if !tickUpper.initialized then 0
                   else if current < upper then tickUpper.rewardGrowthsOutside[i]
                   else WrapSub(growth, tickUpper.rewardGrowthsOutside[i]);
      inside := inside[i := WrapSub(WrapSub(growth, below), above)];
    }
  }

  function ToRewardGrowths(infos: RewardInfos): RewardGrowths {
    seq(NUM_REWARDS, i requires 0 <= i < NUM_REWARDS => infos[i].growthGlobalX64)
  }

  /** A tick the price has just passed: its outside growth flips side. */
  function NextTickCrossUpdate(tick: Tick, growthA: u128, growthB: u128, infos: RewardInfos): Tick {
    tick.(feeGrowthOutsideA := WrapSub(growthA, tick.feeGrowthOutsideA),
          feeGrowthOutsideB := WrapSub(growthB, tick.feeGrowthOutsideB),
          rewardGrowthsOutside := seq(NUM_REWARDS, i requires 0 <= i < NUM_REWARDS =>
            if infos[i].initialized then WrapSub(infos[i].growthGlobalX64, tick.rewardGrowthsOutside[i])
            else tick.rewardGrowthsOutside[i]))
  }

  method ComputeTickCrossUpdate(tick: Tick, growthA: u128, growthB: u128, infos: RewardInfos)
    returns (update: Tick)
    ensures update == NextTickCrossUpdate(tick, growthA, growthB, infos)
  {
    update := tick;
    update := update.(feeGrowthOutsideA := WrapSub(growthA, tick.feeGrowthOutsideA));
    update := update.(feeGrowthOutsideB := WrapSub(growthB, tick.feeGrowthOutsideB));
    for i := 0 to NUM_REWARDS
      invariant update == tick.(feeGrowthOutsideA := WrapSub(growthA, tick.feeGrowthOutsideA),
                                feeGrowthOutsideB := WrapSub(growthB, tick.feeGrowthOutsideB),
                                rewardGrowthsOutside := update.rewardGrowthsOutside)
      invariant forall j | 0 <= j < i ::
          update.rewardGrowthsOutside[j] == (
            if infos[j].initialized then WrapSub(infos[j].growthGlobalX64, tick.rewardGrowthsOutside[j])
            else tick.rewardGrowthsOutside[j])
      invariant forall j | i <= j < NUM_REWARDS :: update.rewardGrowthsOutside[j] == tick.rewardGrowthsOutside[j]
    {
      if !infos[i].initialized {
        continue;
      }
      update := update.(rewardGrowthsOutside := update.rewardGrowthsOutside[
        i := WrapSub(infos[i].growthGlobalX64, tick.rewardGrowthsOutside[i])]);
    }
    assert update.rewardGrowthsOutside == NextTickCrossUpdate(tick, growthA, growthB, infos).rewardGrowthsOutside;
  }

  /** The tick after `delta` liquidity is added to or removed from a position it bounds. */
  function NextTickModifyLiquidityUpdate(tick: Tick, index: int, current: int, growthA: u128, growthB: u128,
                                         infos: RewardInfos, delta: i128, isUpper: bool): Result<Tick>
  {
    if delta == 0 then Ok(tick)
    else
      var gross :- AddLiquidityDelta(tick.liquidityGross, delta);
      if gross == 0 then Ok(DEFAULT_TICK)
      else
        var net: int := if isUpper then tick.liquidityNet - delta else tick.liquidityNet + delta;
        if !(-Q127 <= net < Q127) then Err(LiquidityNetError)
        else if tick.liquidityGross == 0 then
          if current >= index then Ok(Tick(true, net, gross, growthA, growthB, ToRewardGrowths(infos)))
          else Ok(Tick(true, net, gross, 0, 0, [0, 0, 0]))
        else
          Ok(Tick(true, net, gross, tick.feeGrowthOutsideA, tick.feeGrowthOutsideB, tick.rewardGrowthsOutside))
  }
}
