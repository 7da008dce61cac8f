/** Settlement of a position's fees and rewards (position_manager). */
module PositionManager {
  import opened Arithmetic
  import opened Outcome
  import opened TokenMath
  import opened State

  /** Tokens earned by `liquidity` over a growth delta; an overflowing product earns nothing. */
  function GrowthEarned(liquidity: u128, inside: u128, checkpoint: u128): u64 {
    var r := CheckedMulShiftRight(liquidity, WrapSub(inside, checkpoint), false);
    if r.Ok? then r.value else 0
  }

  function NextPositionReward(liquidity: u128, info: PositionReward, inside: u128): PositionReward {
    PositionReward(inside,
      WrapAdd64(info.amountOwed, GrowthEarned(liquidity, inside, info.growthInsideCheckpoint)))
  }

  function NextPositionModifyLiquidityUpdate(p: Position, delta: i128, insideA: u128, insideB: u128,
                                             rewardsInside: RewardGrowths): Result<PositionUpdate>
  {
    var liquidity :- AddLiquidityDelta(p.liquidity, delta);
    Ok(PositionUpdate(
      liquidity,
      insideA, WrapAdd64(p.feeOwedA, GrowthEarned(p.liquidity, insideA, p.feeGrowthCheckpointA)),
      insideB, WrapAdd64(p.feeOwedB, GrowthEarned(p.liquidity, insideB, p.feeGrowthCheckpointB)),
      seq(NUM_REWARDS, i requires 0 <= i < NUM_REWARDS =>
        NextPositionReward(p.liquidity, p.rewardInfos[i], rewardsInside[i]))))
  }

  method ComputePositionUpdate(p: Position, delta: i128, insideA: u128, insideB: u128, rewardsInside: RewardGrowths)
    returns (r: Result<PositionUpdate>)
    ensures r == NextPositionModifyLiquidityUpdate(p, delta, insideA, insideB, rewardsInside)
  {
    var update := PositionUpdate(0, 0, 0, 0, 0, [PositionReward(0, 0), PositionReward(0, 0), PositionReward(0, 0)]);
    var feeDeltaA := GrowthEarned(p.liquidity, insideA, p.feeGrowthCheckpointA);
    var feeDeltaB := GrowthEarned(p.liquidity, insideB, p.feeGrowthCheckpointB);
    update := update.(feeGrowthCheckpointA := insideA, feeGrowthCheckpointB := insideB);
    update := update.(feeOwedA := WrapAdd64(p.feeOwedA, feeDeltaA), feeOwedB := WrapAdd64(p.feeOwedB, feeDeltaB));
    ghost var fees := update;
    for i := 0 to NUM_REWARDS
      invariant update == fees.(rewardInfos := update.rewardInfos)
      invariant forall j | 0 <= j < i ::
          update.rewardInfos[j] == NextPositionReward(p.liquidity, p.rewardInfos[j], rewardsInside[j])
    {
      var info := p.rewardInfos[i];
      var earned := GrowthEarned(p.liquidity, rewardsInside[i], info.growthInsideCheckpoint);
      update := update.(rewardInfos := update.rewardInfos[
        i := PositionReward(rewardsInside[i], WrapAdd64(info.amountOwed, earned))]);
    }
    var liquidity :- AddLiquidityDelta(p.liquidity, delta);
    update := update.(liquidity := liquidity);
    assert update.rewardInfos
        == NextPositionModifyLiquidityUpdate(p, delta, insideA, insideB, rewardsInside).value.rewardInfos;
    r := Ok(update);
  }
}
