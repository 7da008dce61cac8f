/** The pool's accounts as values: global state, ticks, positions and vaults. */
module State {
  import opened Arithmetic
  import opened TokenMath

  const NUM_REWARDS: nat := 3
  const MAX_TICK_INDEX: int := 443636
  const MIN_TICK_INDEX: int := -443636

  type RewardGrowths = s: seq<u128> | |s| == NUM_REWARDS witness [0, 0, 0]

  datatype Tick = Tick(
    initialized: bool,
    liquidityNet: i128,
    liquidityGross: u128,
    feeGrowthOutsideA: u128,
    feeGrowthOutsideB: u128,
    rewardGrowthsOutside: RewardGrowths)

  const DEFAULT_TICK: Tick := Tick(false, 0, 0, 0, 0, [0, 0, 0])

  datatype RewardInfo = RewardInfo(initialized: bool, emissionsPerSecondX64: u128, growthGlobalX64: u128)

  const DEFAULT_REWARD: RewardInfo := RewardInfo(false, 0, 0)

  type RewardInfos = s: seq<RewardInfo> | |s| == NUM_REWARDS
    witness [DEFAULT_REWARD, DEFAULT_REWARD, DEFAULT_REWARD]

  datatype PositionReward = PositionReward(growthInsideCheckpoint: u128, amountOwed: u64)

  type PositionRewards = s: seq<PositionReward> | |s| == NUM_REWARDS
    witness [PositionReward(0, 0), PositionReward(0, 0), PositionReward(0, 0)]

  datatype PositionUpdate = PositionUpdate(
    liquidity: u128,
    feeGrowthCheckpointA: u128,
    feeOwedA: u64,
    feeGrowthCheckpointB: u128,
    feeOwedB: u64,
    rewardInfos: PositionRewards)

  datatype Position = Position(
    tickLowerIndex: int,
    tickUpperIndex: int,
    liquidity: u128,
    feeGrowthCheckpointA: u128,
    feeOwedA: u64,
    feeGrowthCheckpointB: u128,
    feeOwedB: u64,
    rewardInfos: PositionRewards)
  {
    function Update(u: PositionUpdate): Position {
      Position(tickLowerIndex, tickUpperIndex, u.liquidity, u.feeGrowthCheckpointA, u.feeOwedA,
               u.feeGrowthCheckpointB, u.feeOwedB, u.rewardInfos)
    }

    predicate Covers(tick: int) { tickLowerIndex <= tick < tickUpperIndex }

    predicate Bounds(tick: int) { tickLowerIndex == tick || tickUpperIndex == tick }
  }

  /**
   * The price curve: square-root price of each tick, and the tick a price falls in.
   * Its bit-level computation is not modelled; only the order it must respect.
   */
  datatype Curve = Curve(priceAt: int -> int, tickAt: int -> int) {
    ghost predicate Valid() {
      && priceAt(MIN_TICK_INDEX) == MIN_SQRT_PRICE
      && priceAt(MAX_TICK_INDEX) == MAX_SQRT_PRICE
      && (forall t, u | MIN_TICK_INDEX <= t < u <= MAX_TICK_INDEX :: priceAt(t) < priceAt(u))
      && (forall p | MIN_SQRT_PRICE <= p <= MAX_SQRT_PRICE ::
            && MIN_TICK_INDEX <= tickAt(p) <= MAX_TICK_INDEX
            && priceAt(tickAt(p)) <= p
            && (tickAt(p) < MAX_TICK_INDEX ==> p < priceAt(tickAt(p) + 1)))
    }

    /** Each tick raises the price by at least one part in a million; the program's ticks raise it by fifty. */
    ghost predicate Spaced() {
      forall t | MIN_TICK_INDEX <= t < MAX_TICK_INDEX :: 1_000_001 * priceAt(t) <= 1_000_000 * priceAt(t + 1)
    }
  }

  /** The requirements on a curve can be met, so every statement about such curves speaks of something. */
  lemma CurveExists()
    ensures exists c: Curve :: c.Valid() && c.Spaced()
  {
    var step := 0x10_0000;
    var c := Curve(
      (t: int) => if t == MAX_TICK_INDEX then MAX_SQRT_PRICE else MIN_SQRT_PRICE + step * (t - MIN_TICK_INDEX),
      (p: int) => if p == MAX_SQRT_PRICE then MAX_TICK_INDEX
                  else if (p - MIN_SQRT_PRICE) / step + MIN_TICK_INDEX < MAX_TICK_INDEX
                  then (p - MIN_SQRT_PRICE) / step + MIN_TICK_INDEX
                  else MAX_TICK_INDEX - 1);
    assert c.Valid() && c.Spaced();
  }

  /** `sqrt_price_from_tick_index` on the supported range. */
  function SqrtPriceFromTickIndex(c: Curve, tick: int): (p: u128)
    requires c.Valid() && MIN_TICK_INDEX <= tick <= MAX_TICK_INDEX
    ensures MIN_SQRT_PRICE <= p <= MAX_SQRT_PRICE
  {
    assert MIN_TICK_INDEX < tick ==> c.priceAt(MIN_TICK_INDEX) < c.priceAt(tick);
    assert tick < MAX_TICK_INDEX ==> c.priceAt(tick) < c.priceAt(MAX_TICK_INDEX);
    c.priceAt(tick)
  }

  type RewardVaults = s: seq<nat> | |s| == NUM_REWARDS witness [0, 0, 0]

  datatype Pool = Pool(
    curve: Curve,
    tickSpacing: nat,
    feeRate: nat,
    protocolFeeRate: nat,
    liquidity: u128,
    sqrtPrice: u128,
    tickCurrentIndex: int,
    protocolFeeOwedA: u64,
    protocolFeeOwedB: u64,
    feeGrowthGlobalA: u128,
    feeGrowthGlobalB: u128,
    rewardLastUpdatedTimestamp: u64,
    rewardInfos: RewardInfos,
    ticks: map<int, Tick>,
    positions: seq<Position>,
    vaultA: int,
    vaultB: int,
    rewardVaults: RewardVaults)

  /** A tick that was never written reads as the default, uninitialized tick. */
  function TickAt(ticks: map<int, Tick>, tick: int): Tick {
    if tick in ticks then ticks[tick] else DEFAULT_TICK
  }

  /** Tick indexes positions may use: in range and a multiple of the spacing. */
  predicate UsableTick(tick: int, spacing: nat) {
    spacing > 0 && MIN_TICK_INDEX <= tick <= MAX_TICK_INDEX && tick % spacing == 0
  }

  ghost predicate WellFormedPosition(p: Position, spacing: nat) {
    UsableTick(p.tickLowerIndex, spacing) && UsableTick(p.tickUpperIndex, spacing)
    && p.tickLowerIndex < p.tickUpperIndex
  }

  /** Facts about accounts that creating them establishes and nothing later changes. */
  ghost predicate WellFormed(s: Pool) {
    && s.curve.Valid()
    && s.feeRate <= 10_000
    && s.protocolFeeRate <= 2_500
    && MIN_SQRT_PRICE <= s.sqrtPrice <= MAX_SQRT_PRICE
    && (forall p | p in s.positions :: WellFormedPosition(p, s.tickSpacing))
  }

  // ---- the five growth channels: fees in A, fees in B, three rewards ----

  const CHANNELS: nat := 5

  type GrowthAmounts = s: seq<nat> | |s| == CHANNELS witness [0, 0, 0, 0, 0]

  /** Growth added to the five channels at one moment, with the current tick of that moment. */
  datatype Accrual = Accrual(tick: int, amounts: GrowthAmounts)

  function Growth(s: Pool, k: int): u128
    requires 0 <= k < CHANNELS
  {
    if k == 0 then s.feeGrowthGlobalA else if k == 1 then s.feeGrowthGlobalB
    else s.rewardInfos[k - 2].growthGlobalX64
  }

  function Outside(t: Tick, k: int): u128
    requires 0 <= k < CHANNELS
  {
    if k == 0 then t.feeGrowthOutsideA else if k == 1 then t.feeGrowthOutsideB
    else t.rewardGrowthsOutside[k - 2]
  }

  function Checkpoint(p: Position, k: int): u128
    requires 0 <= k < CHANNELS
  {
    if k == 0 then p.feeGrowthCheckpointA else if k == 1 then p.feeGrowthCheckpointB
    else p.rewardInfos[k - 2].growthInsideCheckpoint
  }

  function Owed(p: Position, k: int): u64
    requires 0 <= k < CHANNELS
  {
    if k == 0 then p.feeOwedA else if k == 1 then p.feeOwedB
    else p.rewardInfos[k - 2].amountOwed
  }
}
