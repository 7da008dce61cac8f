/** Time-based reward accrual and the in-range liquidity test (whirlpool_manager). */
module WhirlpoolManager {
  import opened Arithmetic
  import opened Outcome
  import opened TokenMath
  import opened State

  /** Growth a reward accrues over `elapsed` seconds; an overflowing product accrues nothing. */
  function RewardGrowthDelta(info: RewardInfo, liquidity: u128, elapsed: u64): u128 {
    if !info.initialized then 0
    else
      var r := CheckedMulDiv(elapsed, info.emissionsPerSecondX64, liquidity);
      if r.Ok? then r.value else 0
  }

  function NextRewardInfo(info: RewardInfo, liquidity: u128, elapsed: u64): RewardInfo {
    info.(growthGlobalX64 := WrapAdd(info.growthGlobalX64, RewardGrowthDelta(info, liquidity, elapsed)))
  }

  function NextWhirlpoolRewardInfos(s: Pool, timestamp: u64): Result<RewardInfos> {
    var last := s.rewardLastUpdatedTimestamp;
    if timestamp < last then Err(InvalidTimestamp)
    else if s.liquidity == 0 || timestamp == last then Ok(s.rewardInfos)
    else Ok(seq(NUM_REWARDS, i requires 0 <= i < NUM_REWARDS =>
      NextRewardInfo(s.rewardInfos[i], s.liquidity, timestamp - last)))
  }

  method ComputeRewardInfos(s: Pool, timestamp: u64) returns (r: Result<RewardInfos>)
    ensures r == NextWhirlpoolRewardInfos(s, timestamp)
  {
    var last := s.rewardLastUpdatedTimestamp;
    if timestamp < last {
      return Err(InvalidTimestamp);
    }
    if s.liquidity == 0 || timestamp == last {
      return Ok(s.rewardInfos);
    }
    var next := s.rewardInfos;
    var elapsed: u64 := timestamp - last;
    for i := 0 to NUM_REWARDS
      invariant forall j | 0 <= j < i :: next[j] == NextRewardInfo(s.rewardInfos[j], s.liquidity, elapsed)
      invariant forall j | i <= j < NUM_REWARDS :: next[j] == s.rewardInfos[j]
    {
      if !next[i].initialized {
        continue;
      }
      var delta := CheckedMulDiv(elapsed, next[i].emissionsPerSecondX64, s.liquidity);
      var growth := WrapAdd(next[i].growthGlobalX64, if delta.Ok? then delta.value else 0);
      next := next[i := next[i].(growthGlobalX64 := growth)];
    }
    assert next == NextWhirlpoolRewardInfos(s, timestamp).value;
    r := Ok(next);
  }

  function NextWhirlpoolLiquidity(s: Pool, upper: int, lower: int, delta: i128): Result<u128> {
    if s.tickCurrentIndex < upper && s.tickCurrentIndex >= lower
    then AddLiquidityDelta(s.liquidity, delta)
    else Ok(s.liquidity)
  }
}
