/** What the invariant means for the people who use a pool. */
module Theorems {
  import opened Arithmetic
  import opened Outcome
  import opened TokenMath
  import opened State
  import opened TickManager
  import opened PositionManager
  import opened WhirlpoolManager
  import opened LiquidityManager
  import opened SwapMath
  import opened SwapManager
  import opened Instructions
  import opened Ledger
  import opened GrowthProofs
  import opened PrincipalProofs
  import opened ModifyProofs
  import opened StepProofs
  import opened Runs

  /** A state some run reaches from a fresh pool. */
  ghost predicate Reachable(w: World) {
    exists curve: Curve, spacing: nat, price: u128, feeRate: nat, protocolFeeRate: nat, steps: seq<Step> ::
      ReachedBy(w, curve, spacing, price, feeRate, protocolFeeRate, steps)
  }

  ghost predicate ReachedBy(w: World, curve: Curve, spacing: nat, price: u128, feeRate: nat, protocolFeeRate: nat,
                            steps: seq<Step>)
  {
    && curve.Valid() && MIN_SQRT_PRICE <= price <= MAX_SQRT_PRICE
    && feeRate <= MAX_FEE_RATE && protocolFeeRate <= MAX_PROTOCOL_FEE_RATE
    && (InitialValid(curve, spacing, price, feeRate, protocolFeeRate);
        w == Run(World(InitializePool(curve, spacing, price, feeRate, protocolFeeRate), EMPTY_BOOKS), steps))
  }

  lemma ReachedIsReachable(w: World, curve: Curve, spacing: nat, price: u128, feeRate: nat, protocolFeeRate: nat,
                           steps: seq<Step>)
    requires ReachedBy(w, curve, spacing, price, feeRate, protocolFeeRate, steps)
    ensures Reachable(w)
  {
  }

  lemma ReachableIsValid(w: World)
    requires Reachable(w)
    ensures Valid(w)
  {
    var curve, spacing, price, feeRate, protocolFeeRate, steps :|
      ReachedBy(w, curve, spacing, price, feeRate, protocolFeeRate, steps);
    InitialValid(curve, spacing, price, feeRate, protocolFeeRate);
    RunKeeps(World(InitializePool(curve, spacing, price, feeRate, protocolFeeRate), EMPTY_BOOKS), steps);
  }

  // ---- the liquidity index ----

  /** Sum of `liquidity_net` over the ticks up to `t`. */
  ghost function NetUpTo(s: Pool, t: int): int
    decreases t - MIN_TICK_INDEX + 1
  {
    if t < MIN_TICK_INDEX then 0 else NetUpTo(s, t - 1) + TickAt(s.ticks, t).liquidityNet
  }

  lemma {:induction false} NetUpToIsRange(s: Pool, t: int)
    requires WellFormed(s) && TickSums(s) && MIN_TICK_INDEX - 1 <= t
    ensures NetUpTo(s, t) == Sum(RangeTerm(s.positions, t), |s.positions|)
    decreases t - MIN_TICK_INDEX + 1
  {
    var ps, n := s.positions, |s.positions|;
    if t < MIN_TICK_INDEX {
      forall i | 0 <= i < n ensures RangeTerm(ps, t)(i) == 0 { assert ps[i] in ps; }
      SumAffine(RangeTerm(ps, t), RangeTerm(ps, t), RangeTerm(ps, t), -1, n);
    } else {
      NetUpToIsRange(s, t - 1);
      forall i | 0 <= i < n ensures RangeTerm(ps, t)(i) == RangeTerm(ps, t - 1)(i) + 1 * NetTerm(ps, t)(i) {
        assert ps[i] in ps;
      }
      SumAffine(RangeTerm(ps, t - 1), RangeTerm(ps, t), NetTerm(ps, t), 1, n);
      assert TickAgrees(s, t);
    }
  }

  /** In every reachable state: active liquidity, tick nets and position liquidity tell the same story. */
  lemma LiquidityIndexAgrees(w: World)
    requires Reachable(w)
    ensures w.pool.liquidity == Sum(RangeTerm(w.pool.positions, w.pool.tickCurrentIndex), |w.pool.positions|)
    ensures w.pool.liquidity == NetUpTo(w.pool, w.pool.tickCurrentIndex)
    ensures NetUpTo(w.pool, MAX_TICK_INDEX) == 0
  {
    ReachableIsValid(w);
    NetUpToIsRange(w.pool, w.pool.tickCurrentIndex);
    NetUpToIsRange(w.pool, MAX_TICK_INDEX);
    var ps, n := w.pool.positions, |w.pool.positions|;
    forall i | 0 <= i < n ensures RangeTerm(ps, MAX_TICK_INDEX)(i) == 0 { assert ps[i] in ps; }
    SumAffine(RangeTerm(ps, MAX_TICK_INDEX), RangeTerm(ps, MAX_TICK_INDEX), RangeTerm(ps, MAX_TICK_INDEX), -1, n);
  }

  // ---- growth ----

  /** Inside growth minus checkpoint is exactly the growth that happened in range since the last settlement. */
  lemma GrowthInsideTelescopes(w: World, i: nat, k: int)
    requires Reachable(w) && i < |w.pool.positions| && 0 <= k < CHANNELS && w.pool.positions[i].liquidity > 0
    ensures BooksMatch(w)
    ensures var p := w.pool.positions[i];
            WrapSub(Inside(w.pool, p.tickLowerIndex, p.tickUpperIndex, k), Checkpoint(p, k))
            == Wrap(GrowthInRange(w.books.history, w.books.since[i], p.tickLowerIndex, p.tickUpperIndex, k))
  {
    ReachableIsValid(w);
    assert TelescopesAt(w, i, k);
  }

  /**
   * Everything ever paid, everything owed, and everything a settlement could still credit,
   * over all positions together, fits in what the channel earned.
   */
  lemma ChannelIsSolvent(w: World, k: int)
    requires Reachable(w) && 0 <= k < CHANNELS
    ensures Q64 * (w.books.paid[k] + Sum(OwedTerm(w.pool.positions, k), |w.pool.positions|))
            + Sum(UnsettledTerm(w.pool, k), |w.pool.positions|) <= w.books.earned[k]
  {
    ReachableIsValid(w);
    ChannelClaimsFit(w, k);
  }

  lemma ChannelClaimsFit(w: World, k: int)
    requires BooksMatch(w) && Telescopes(w) && 0 <= k < CHANNELS && Solvent(w, k)
    ensures Q64 * (w.books.paid[k] + Sum(OwedTerm(w.pool.positions, k), |w.pool.positions|))
            + Sum(UnsettledTerm(w.pool, k), |w.pool.positions|) <= w.books.earned[k]
  {
    var n, f, g := |w.pool.positions|, UnsettledTerm(w.pool, k), PendingTerm(w.pool.positions, w.books, k);
    forall i | 0 <= i < n ensures f(i) <= g(i) {
      UnsettledAtMostPending(w, i, k);
    }
    SumOrdered(f, g, n);
    hide UnsettledTerm, PendingTerm, OwedTerm;
  }

  lemma UnsettledAtMostPending(w: World, i: nat, k: int)
    requires BooksMatch(w) && Telescopes(w) && i < |w.pool.positions| && 0 <= k < CHANNELS
    ensures UnsettledTerm(w.pool, k)(i) <= PendingTerm(w.pool.positions, w.books, k)(i)
  {
    var p := w.pool.positions[i];
    var unsettled := WrapSub(Inside(w.pool, p.tickLowerIndex, p.tickUpperIndex, k), Checkpoint(p, k));
    if p.liquidity > 0 {
      assert TelescopesAt(w, i, k);
      WrapAtMost(Pending(w, i, k));
    }
    hide Inside, Telescopes, Wrap, WrapSub, GrowthInRange;
    if p.liquidity > 0 {
      MulMono(unsettled, Pending(w, i, k), p.liquidity);
    } else {
      assert 0 * unsettled == 0 == 0 * Pending(w, i, k);
    }
  }

  /**
   * A liquidity change, whatever ticks it initializes, keeps or clears: every other position's
   * unsettled growth stays as it was, and the changed position starts again from zero.
   */
  lemma ModifyDisturbsNobody(w: World, i: nat, delta: i128, timestamp: u64, j: nat, k: int)
    requires Valid(w) && i < |w.pool.positions| && ModifyLiquidity(w.pool, i, delta, timestamp).Ok?
    requires j < |w.pool.positions| && 0 <= k < CHANNELS
    ensures AccrueRewards(w.pool, timestamp).Ok?
    ensures var s, t := Accrued(w, timestamp).pool, ModifyLiquidity(w.pool, i, delta, timestamp).value;
            && |t.positions| == |s.positions| == |w.pool.positions|
            && (t.positions[j].liquidity > 0 ==>
                  Unsettled(t, j, k) == if j == i then 0 else Unsettled(s, j, k))
  {
    ModifyIsModified(w, i, delta, timestamp);
    hide ModifyLiquidity, AccrueRewards, Inside, TickChanges, PositionModified, Unsettled;
    var s, t := Accrued(w, timestamp).pool, ModifyLiquidity(w.pool, i, delta, timestamp).value;
    assert s.positions[i] in s.positions;
    ModifiedSums(s, t, i, delta);
    ModifiedUnsettled(s, t, i, delta, j, k);
  }

  lemma ModifiedUnsettled(s: Pool, t: Pool, i: nat, delta: int, j: nat, k: int)
    requires Modified(s, t, i, delta) && TickSums(s) && TickSums(t)
    requires j < |t.positions| && 0 <= k < CHANNELS
    ensures t.positions[j].liquidity > 0 ==> Unsettled(t, j, k) == if j == i then 0 else Unsettled(s, j, k)
  {
    if t.positions[j].liquidity > 0 {
      ModifyKeepsInside(s, t, i, delta, j, k);
      NothingSince(Checkpoint(t.positions[i], k));
      hide Inside, TickChanges, WrapSub;
    }
  }

  /** Growth inside a position's range since its checkpoint, as the ticks record it. */
  function Unsettled(s: Pool, j: nat, k: int): u128
    requires j < |s.positions| && 0 <= k < CHANNELS
  {
    var p := s.positions[j];
    WrapSub(Inside(s, p.tickLowerIndex, p.tickUpperIndex, k), Checkpoint(p, k))
  }

  /** Whole tokens due to `liquidity` for Q64.64 growth. */
  function FairShare(liquidity: nat, growth: nat): nat {
    FloorDiv(liquidity * growth, Q64)
  }

  /**
   * A settlement credits what the simple view says, liquidity times the growth that happened in range since the
   * last settlement, rounded down once, exactly when that product fits 128 bits.
   */
  lemma SettlementCreditsGrowth(w: World, i: nat, delta: i128, timestamp: u64, k: int)
    requires Valid(w) && i < |w.pool.positions| && ModifyLiquidity(w.pool, i, delta, timestamp).Ok?
    requires 0 <= k < CHANNELS
    ensures AccrueRewards(w.pool, timestamp).Ok?
    ensures CreditsGrowth(Accrued(w, timestamp), ModifyLiquidity(w.pool, i, delta, timestamp).value, i, k)
  {
    ModifyIsModified(w, i, delta, timestamp);
    hide ModifyLiquidity, AccrueRewards, TickChanges, PositionModified, Telescopes, CreditsGrowth;
    ModifiedCredits(Accrued(w, timestamp), ModifyLiquidity(w.pool, i, delta, timestamp).value, i, delta, k);
  }

  /** In `t`, position `i` of `u` has been credited for channel `k`: its fair share exactly if the product fits. */
  ghost predicate CreditsGrowth(u: World, t: Pool, i: nat, k: int)
    requires 0 <= k < CHANNELS
  {
    && i < |u.pool.positions| == |u.books.since| == |t.positions|
    && (var p, growth := u.pool.positions[i], Pending(u, i, k);
        && Owed(t.positions[i], k) == WrapAdd64(Owed(p, k), Earned(u.pool, p, k))
        && (Earned(u.pool, p, k) == FairShare(p.liquidity, growth) <==> p.liquidity * growth < Q128))
  }

  lemma ModifiedCredits(u: World, t: Pool, i: nat, delta: int, k: int)
    requires Modified(u.pool, t, i, delta) && BooksMatch(u) && Telescopes(u) && 0 <= k < CHANNELS
    ensures CreditsGrowth(u, t, i, k)
  {
    CreditedGrowth(u, i, k);
    hide Earned, Inside, Pending, FairShare, Telescopes, TickChanges;
  }

  lemma CreditedGrowth(u: World, i: nat, k: int)
    requires BooksMatch(u) && Telescopes(u) && i < |u.pool.positions| && 0 <= k < CHANNELS
    ensures var p, growth := u.pool.positions[i], Pending(u, i, k);
            Earned(u.pool, p, k) == FairShare(p.liquidity, growth) <==> p.liquidity * growth < Q128
  {
    var p, growth := u.pool.positions[i], Pending(u, i, k);
    if p.liquidity > 0 { assert TelescopesAt(u, i, k); }
    hide Inside, Pending, GrowthEarned, Telescopes;
    EarnedIsFloor(p.liquidity, Inside(u.pool, p.tickLowerIndex, p.tickUpperIndex, k), Checkpoint(p, k), growth);
  }

  lemma EarnedIsFloor(liquidity: u128, inside: u128, checkpoint: u128, growth: nat)
    requires liquidity > 0 ==> WrapSub(inside, checkpoint) == Wrap(growth)
    ensures GrowthEarned(liquidity, inside, checkpoint) == FairShare(liquidity, growth) <==> liquidity * growth < Q128
  {
    if Q128 <= liquidity * growth {
      FloorGreatest(liquidity * growth, Q64, Q64);
    } else if liquidity == 0 || growth == 0 {
      assert liquidity * growth == 0;
    } else {
      MulMono(1, liquidity, growth);
    }
  }

  // ---- what is earned ----

  /** A swap step's fee reaches the active liquidity up to less than one unit of growth. */
  lemma FeeGrowthIsTight(fee: u64, liquidity: u128)
    requires liquidity > 0
    ensures liquidity * FeeGrowth(fee, liquidity) <= fee * Q64 < liquidity * (FeeGrowth(fee, liquidity) + 1)
  {
    var g := FeeGrowth(fee, liquidity);
    assert liquidity * (g + 1) == g * liquidity + liquidity;
  }

  /** Time's emission reaches the active liquidity up to less than one unit of growth, unless the product overflows. */
  lemma RewardGrowthIsTight(info: RewardInfo, liquidity: u128, elapsed: u64)
    requires liquidity > 0 && info.initialized
    ensures var g, emission := RewardGrowthDelta(info, liquidity, elapsed), elapsed * info.emissionsPerSecondX64;
            if emission < Q128 then liquidity * g <= emission < liquidity * (g + 1) else g == 0
  {
    var g, emission := RewardGrowthDelta(info, liquidity, elapsed), elapsed * info.emissionsPerSecondX64;
    if emission < Q128 {
      assert g == FloorDiv(emission, liquidity);
      assert liquidity * (g + 1) == g * liquidity + liquidity;
    }
  }

  // ---- rewards ----

  /**
   * After emissions are set against a vault amount, then for a day without another rate change,
   * whatever else happens, the reward distributes less than that amount plus one token.
   */
  lemma OneDayOfRewardsIsBounded(w: World, r: nat, rate: u128, timestamp: u64, steps: seq<Step>)
    requires Valid(w) && r < NUM_REWARDS && SetRewardEmissions(w.pool, r, rate, timestamp).Ok?
    requires RateUntouched(steps, r)
    ensures var start := Next(w, SetEmissions(r, rate, timestamp));
            Valid(start) &&
            (var end := Run(start, steps);
             end.pool.rewardLastUpdatedTimestamp <= timestamp + DAY_IN_SECONDS ==>
               Distributed(end, r + 2) - Distributed(start, r + 2) < Q64 * (w.pool.rewardVaults[r] + 1))
  {
    var start := Next(w, SetEmissions(r, rate, timestamp));
    StepKeeps(w, SetEmissions(r, rate, timestamp));
    EmissionsAreSet(w, r, rate, timestamp);
    hide Valid, Next, Run, Rate, Distributed, SetRewardEmissions, RateUntouched, EarnsByRate;
    var end := Run(start, steps);
    RunKeeps(start, steps);
    RunEarnsByRate(start, steps, r);
    if end.pool.rewardLastUpdatedTimestamp <= timestamp + DAY_IN_SECONDS {
      assert WithinEarningsAt(start, end, r + 2);
      DayOfEarnings(start, end, r, rate);
    }
  }

  /**
   * The check looks at one day's emission alone, not at what the vault already owes. While the vault also covers
   * all claims when the rate is set, it covers them throughout the day, whatever happens.
   */
  lemma OneDayStaysCovered(w: World, r: nat, rate: u128, timestamp: u64, steps: seq<Step>)
    requires Valid(w) && r < NUM_REWARDS && SetRewardEmissions(w.pool, r, rate, timestamp).Ok?
    requires RateUntouched(steps, r)
    requires var start := Next(w, SetEmissions(r, rate, timestamp));
             Claims(start, r + 2) + DAY_IN_SECONDS * rate <= Q64 * start.pool.rewardVaults[r]
    ensures var start := Next(w, SetEmissions(r, rate, timestamp));
            Valid(start) &&
            (var end := Run(start, steps);
             end.pool.rewardLastUpdatedTimestamp <= timestamp + DAY_IN_SECONDS ==>
               Claims(end, r + 2) <= Q64 * end.pool.rewardVaults[r])
  {
    var start := Next(w, SetEmissions(r, rate, timestamp));
    StepKeeps(w, SetEmissions(r, rate, timestamp));
    EmissionsAreSet(w, r, rate, timestamp);
    hide Valid, Next, Run, Rate, Distributed, Claims, SetRewardEmissions, RateUntouched, EarnsByRate, Funded;
    var end := Run(start, steps);
    RunKeeps(start, steps);
    RunEarnsByRate(start, steps, r);
    RunConservesReward(start, steps, r);
    if end.pool.rewardLastUpdatedTimestamp <= timestamp + DAY_IN_SECONDS {
      assert WithinEarningsAt(start, end, r + 2);
      DayOfEarnings(start, end, r, rate);
    }
  }

  lemma DayOfEarnings(start: World, end: World, r: nat, rate: u128)
    requires r < NUM_REWARDS && EarnsByRate(start, end, r) && Rate(start.pool, r) == rate
    requires end.pool.rewardLastUpdatedTimestamp <= start.pool.rewardLastUpdatedTimestamp + DAY_IN_SECONDS
    ensures end.books.earned[r + 2] - start.books.earned[r + 2] <= DAY_IN_SECONDS * rate
  {
    MulMono(end.pool.rewardLastUpdatedTimestamp - start.pool.rewardLastUpdatedTimestamp, DAY_IN_SECONDS, rate);
  }

  lemma EmissionsAreSet(w: World, r: nat, rate: u128, timestamp: u64)
    requires Valid(w) && r < NUM_REWARDS && SetRewardEmissions(w.pool, r, rate, timestamp).Ok?
    ensures var start := Next(w, SetEmissions(r, rate, timestamp));
            && Rate(start.pool, r) == rate
            && start.pool.rewardLastUpdatedTimestamp == timestamp
    ensures DAY_IN_SECONDS * rate < Q64 * (w.pool.rewardVaults[r] + 1)
  {
    DayWorthFits(rate, w.pool.rewardVaults[r]);
    hide Valid;
  }

  lemma DayWorthFits(rate: u128, vault: nat)
    requires var perDay := CheckedMulShiftRight(DAY_IN_SECONDS, rate, false); perDay.Ok? && perDay.value <= vault
    ensures DAY_IN_SECONDS * rate < Q64 * (vault + 1)
  {
  }

  /** Settling first never changes what a liquidity change at the same time does. */
  lemma PokeIsNeutral(s: Pool, i: nat, delta: i128, timestamp: u64)
    requires i < |s.positions| && UpdateFeesAndRewards(s, i, timestamp).Ok?
    ensures i < |UpdateFeesAndRewards(s, i, timestamp).value.positions|
    ensures ModifyLiquidity(UpdateFeesAndRewards(s, i, timestamp).value, i, delta, timestamp)
         == ModifyLiquidity(s, i, delta, timestamp)
  {
    var p, poked := s.positions[i], UpdateFeesAndRewards(s, i, timestamp).value;
    var first := CalculateModifyLiquidity(s, p, 0, timestamp).value;
    var lower, upper := p.tickLowerIndex, p.tickUpperIndex;
    var tickLower, tickUpper := TickAt(s.ticks, lower), TickAt(s.ticks, upper);
    var (a, b) := NextFeeGrowthsInside(s.tickCurrentIndex, tickLower, lower, tickUpper, upper,
                                       s.feeGrowthGlobalA, s.feeGrowthGlobalB);
    var rs := NextRewardGrowthsInside(s.tickCurrentIndex, tickLower, lower, tickUpper, upper, first.rewardInfos);
    PositionPokeIsNeutral(p, first.positionUpdate, delta, a, b, rs);
    hide NextTickModifyLiquidityUpdate, NextFeeGrowthsInside, NextRewardGrowthsInside, NextPositionModifyLiquidityUpdate;
    assert NextWhirlpoolRewardInfos(poked, timestamp) == Ok(first.rewardInfos);
    assert CalculateModifyLiquidity(poked, poked.positions[i], delta, timestamp)
        == CalculateModifyLiquidity(s, p, delta, timestamp);
    if ModifyLiquidity(s, i, delta, timestamp).Ok? {
      assert ModifyLiquidity(poked, i, delta, timestamp).value.positions
          == ModifyLiquidity(s, i, delta, timestamp).value.positions;
    }
  }

  lemma PositionPokeIsNeutral(p: Position, first: PositionUpdate, delta: i128, a: u128, b: u128, rs: RewardGrowths)
    requires NextPositionModifyLiquidityUpdate(p, 0, a, b, rs) == Ok(first)
    ensures NextPositionModifyLiquidityUpdate(p.Update(first), delta, a, b, rs)
         == NextPositionModifyLiquidityUpdate(p, delta, a, b, rs)
  {
    hide GrowthEarned, WrapAdd64, NextPositionReward;
    forall i | 0 <= i < NUM_REWARDS
      ensures NextPositionReward(p.liquidity, NextPositionReward(p.liquidity, p.rewardInfos[i], rs[i]), rs[i])
           == NextPositionReward(p.liquidity, p.rewardInfos[i], rs[i])
    {
      RewardPokeIsNeutral(p.liquidity, p.rewardInfos[i], rs[i]);
    }
    SettledEarnsNothing(p.liquidity, a, first.feeOwedA);
    SettledEarnsNothing(p.liquidity, b, first.feeOwedB);
    var again := NextPositionModifyLiquidityUpdate(p.Update(first), delta, a, b, rs);
    var once := NextPositionModifyLiquidityUpdate(p, delta, a, b, rs);
    if once.Ok? {
      assert again.value.rewardInfos == once.value.rewardInfos;
    }
  }

  lemma RewardPokeIsNeutral(liquidity: u128, info: PositionReward, inside: u128)
    ensures NextPositionReward(liquidity, NextPositionReward(liquidity, info, inside), inside)
         == NextPositionReward(liquidity, info, inside)
  {
    var once := NextPositionReward(liquidity, info, inside);
    SettledEarnsNothing(liquidity, inside, once.amountOwed);
    hide GrowthEarned, WrapAdd64;
  }

  lemma SettledEarnsNothing(liquidity: u128, inside: u128, owed: u64)
    ensures GrowthEarned(liquidity, inside, inside) == 0
    ensures WrapAdd64(owed, 0) == owed
  {
  }

  /** Standing on either side of a tick at that tick's own price, a change is priced the same, errors included. */
  lemma CrossingKeepsTokens(s: Pool, t: Pool, p: Position, delta: i128)
    requires Aligned(s) && Aligned(t) && t.curve == s.curve && t.tickSpacing == s.tickSpacing
    requires t.sqrtPrice == s.sqrtPrice && WellFormedPosition(p, s.tickSpacing)
    ensures CalculateLiquidityTokenDeltas(s, p, delta) == CalculateLiquidityTokenDeltas(t, p, delta)
  {
    PositionSide(s, p);
    PositionSide(t, p);
    TokenDeltasClamp(s, p, delta);
    TokenDeltasClamp(t, p, delta);
    hide CalculateLiquidityTokenDeltas, ClampedDeltas;
  }
}
