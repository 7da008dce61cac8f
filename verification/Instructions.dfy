/** The program's instructions as functions from accounts to accounts; an error leaves everything as it was. */
module Instructions {
  import opened Arithmetic
  import opened Outcome
  import opened TokenMath
  import opened State
  import opened WhirlpoolManager
  import opened LiquidityManager
  import opened SwapMath
  import opened SwapManager
  import opened TickSearch

  const DAY_IN_SECONDS: u64 := 86400

  const EMPTY_REWARDS: PositionRewards := [PositionReward(0, 0), PositionReward(0, 0), PositionReward(0, 0)]

  /** A pool as `initialize` leaves it, with empty vaults. */
  function InitializePool(curve: Curve, spacing: nat, price: u128, feeRate: nat, protocolFeeRate: nat): Pool {
    Pool(curve, spacing, feeRate, protocolFeeRate, 0, price, curve.tickAt(price), 0, 0, 0, 0, 0,
         [DEFAULT_REWARD, DEFAULT_REWARD, DEFAULT_REWARD], map[], [], 0, 0, [0, 0, 0])
  }

  function OpenPosition(s: Pool, lower: int, upper: int): Result<Pool> {
    if !UsableTick(lower, s.tickSpacing) || !UsableTick(upper, s.tickSpacing) || lower >= upper
    then Err(InvalidTickIndex)
    else Ok(s.(positions := s.positions + [Position(lower, upper, 0, 0, 0, 0, 0, EMPTY_REWARDS)]))
  }

  /** Brings the reward growths up to `timestamp` (`update_rewards` after `next_whirlpool_reward_infos`). */
  function AccrueRewards(s: Pool, timestamp: u64): Result<Pool> {
    var infos :- NextWhirlpoolRewardInfos(s, timestamp);
    Ok(RewardsAt(s, infos, timestamp))
  }

  function RewardsAt(s: Pool, infos: RewardInfos, timestamp: u64): Pool {
    s.(rewardInfos := infos, rewardLastUpdatedTimestamp := timestamp)
  }

  /** Calculate and commit a liquidity change, before any token moves. */
  function ModifyLiquidity(s: Pool, i: nat, delta: i128, timestamp: u64): Result<Pool>
    requires i < |s.positions|
  {
    var update :- CalculateModifyLiquidity(s, s.positions[i], delta, timestamp);
    Ok(SyncModifyLiquidityValues(s, i, update, timestamp))
  }

  function IncreaseLiquidity(s: Pool, i: nat, amount: u128, maxA: u64, maxB: u64, timestamp: u64): Result<Pool>
    requires WellFormed(s)
  {
    if i >= |s.positions| then Err(UnknownPosition)
    else if amount == 0 then Err(LiquidityZero)
    else
      var delta :- ConvertToLiquidityDelta(amount, true);
      var next :- ModifyLiquidity(s, i, delta, timestamp);
      var (a, b) :- CalculateLiquidityTokenDeltas(next, s.positions[i], delta);
      if a > maxA || b > maxB then Err(TokenMaxExceeded)
      else Ok(next.(vaultA := next.vaultA + a, vaultB := next.vaultB + b))
  }

  function DecreaseLiquidity(s: Pool, i: nat, amount: u128, minA: u64, minB: u64, timestamp: u64): Result<Pool>
    requires WellFormed(s)
  {
    if i >= |s.positions| then Err(UnknownPosition)
    else if amount == 0 then Err(LiquidityZero)
    else
      var delta :- ConvertToLiquidityDelta(amount, false);
      var next :- ModifyLiquidity(s, i, delta, timestamp);
      var (a, b) :- CalculateLiquidityTokenDeltas(next, s.positions[i], delta);
      if a < minA || b < minB then Err(TokenMinSubceeded)
      else if a > next.vaultA || b > next.vaultB then Err(InsufficientFunds)
      else Ok(next.(vaultA := next.vaultA - a, vaultB := next.vaultB - b))
  }

  /** Settles a position without touching liquidity or ticks. */
  function UpdateFeesAndRewards(s: Pool, i: nat, timestamp: u64): Result<Pool> {
    if i >= |s.positions| then Err(UnknownPosition)
    else
      var update :- CalculateModifyLiquidity(s, s.positions[i], 0, timestamp);
      Ok(s.(rewardInfos := update.rewardInfos,
            rewardLastUpdatedTimestamp := timestamp,
            positions := s.positions[i := s.positions[i].Update(update.positionUpdate)]))
  }

  function CollectFees(s: Pool, i: nat): Result<Pool> {
    if i >= |s.positions| then Err(UnknownPosition)
    else
      var p := s.positions[i];
      if p.feeOwedA > s.vaultA || p.feeOwedB > s.vaultB then Err(InsufficientFunds)
      else Ok(s.(positions := s.positions[i := p.(feeOwedA := 0, feeOwedB := 0)],
                 vaultA := s.vaultA - p.feeOwedA, vaultB := s.vaultB - p.feeOwedB))
  }

  function CollectProtocolFees(s: Pool): Result<Pool> {
    if s.protocolFeeOwedA > s.vaultA || s.protocolFeeOwedB > s.vaultB then Err(InsufficientFunds)
    else Ok(s.(protocolFeeOwedA := 0, protocolFeeOwedB := 0,
               vaultA := s.vaultA - s.protocolFeeOwedA, vaultB := s.vaultB - s.protocolFeeOwedB))
  }

  /** Tokens paid out now, and the amount still owed. */
  function CalculateCollectReward(owed: u64, vaultAmount: nat): (r: (u64, u64))
    ensures r.0 + r.1 == owed && r.0 <= vaultAmount
    ensures r.1 > 0 ==> r.0 == vaultAmount
  {
    if owed > vaultAmount then (vaultAmount, owed - vaultAmount) else (owed, 0)
  }

  function CollectReward(s: Pool, i: nat, r: nat): Result<Pool>
  {
    if i >= |s.positions| then Err(UnknownPosition)
    else if r >= NUM_REWARDS then Err(InvalidRewardIndex)
    else
      var p := s.positions[i];
      var (transfer, left) := CalculateCollectReward(p.rewardInfos[r].amountOwed, s.rewardVaults[r]);
      var info := p.rewardInfos[r].(amountOwed := left);
      Ok(s.(positions := s.positions[i := p.(rewardInfos := p.rewardInfos[r := info])],
            rewardVaults := s.rewardVaults[r := s.rewardVaults[r] - transfer]))
  }

  function SetRewardEmissions(s: Pool, r: nat, rate: u128, timestamp: u64): Result<Pool>
  {
    if r >= NUM_REWARDS then Err(InvalidRewardIndex)
    else
      var perDay :- CheckedMulShiftRight(DAY_IN_SECONDS, rate, false);
      if s.rewardVaults[r] < perDay then Err(RewardVaultAmountInsufficient)
      else
        var next :- AccrueRewards(s, timestamp);
        Ok(next.(rewardInfos := next.rewardInfos[r := next.rewardInfos[r].(emissionsPerSecondX64 := rate)]))
  }

  /** A reward can be initialized only at the lowest free index. */
  function InitializeReward(s: Pool, r: nat): Result<Pool> {
    if r >= NUM_REWARDS || s.rewardInfos[r].initialized
       || exists j | 0 <= j < r :: !s.rewardInfos[j].initialized
    then Err(InvalidRewardIndex)
    else Ok(s.(rewardInfos := s.rewardInfos[r := s.rewardInfos[r].(initialized := true)]))
  }

  /** Anyone may send tokens to a reward vault. */
  function FundReward(s: Pool, r: nat, amount: u64): Result<Pool>
  {
    if r >= NUM_REWARDS then Err(InvalidRewardIndex)
    else Ok(s.(rewardVaults := s.rewardVaults[r := s.rewardVaults[r] + amount]))
  }

  function SetFeeRate(s: Pool, rate: nat): Result<Pool> {
    if rate > MAX_FEE_RATE then Err(FeeRateMaxExceeded) else Ok(s.(feeRate := rate))
  }

  function SetProtocolFeeRate(s: Pool, rate: nat): Result<Pool> {
    if rate > MAX_PROTOCOL_FEE_RATE then Err(ProtocolFeeRateMaxExceeded) else Ok(s.(protocolFeeRate := rate))
  }

  /** Amounts of A and B a finished swap trades. */
  function SwapAmounts(q: SwapRequest, c: SwapCursor): (int, int) {
    if q.aToB == q.isInput then (q.amount - c.amountRemaining, c.amountCalculated)
    else (c.amountCalculated, q.amount - c.amountRemaining)
  }

  /** `update_after_swap`, with the ticks the swap crossed. */
  function UpdateAfterSwap(s: Pool, q: SwapRequest, c: SwapCursor): Pool {
    var moved := s.(tickCurrentIndex := c.tick, sqrtPrice := c.sqrtPrice, liquidity := c.liquidity, ticks := c.ticks);
    if q.aToB then
      moved.(feeGrowthGlobalA := c.feeGrowthInput,
             protocolFeeOwedA := WrapAdd64(s.protocolFeeOwedA, c.protocolFee))
    else
      moved.(feeGrowthGlobalB := c.feeGrowthInput,
             protocolFeeOwedB := WrapAdd64(s.protocolFeeOwedB, c.protocolFee))
  }

  /** The pool as it would stand if the swap stopped at this cursor and the tokens moved. */
  function AtCursor(s: Pool, q: SwapRequest, c: SwapCursor): Pool {
    var (a, b) := SwapAmounts(q, c);
    var moved := UpdateAfterSwap(s, q, c);
    if q.aToB then moved.(vaultA := s.vaultA + a, vaultB := s.vaultB - b)
    else moved.(vaultA := s.vaultA - a, vaultB := s.vaultB + b)
  }

  function SwapTokens(s: Pool, q: SwapRequest, otherThreshold: u64, timestamp: u64): Result<Pool>
    requires Aligned(s)
  {
    if !ArraysAligned(q.arrays, s.tickSpacing) then Err(InvalidStartTick)
    else if Refusal(s, q).Some? then Err(Refusal(s, q).value)
    else
      var accrued :- AccrueRewards(s, timestamp);
      var c :- Swap(accrued, q);
      var (a, b) := SwapAmounts(q, c);
      var other := if q.aToB == q.isInput then b else a;
      if q.isInput && otherThreshold > other then Err(AmountOutBelowMinimum)
      else if !q.isInput && otherThreshold < other then Err(AmountInAboveMaximum)
      else if (if q.aToB then b > s.vaultB else a > s.vaultA) then Err(InsufficientFunds)
      else Ok(AtCursor(accrued, q, c))
  }
}
