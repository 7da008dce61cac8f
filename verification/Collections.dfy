/** Settling, collecting and setting rates: exactly when each succeeds, what it moves, and what it leaves alone. */
module Collections {
  import opened Arithmetic
  import opened Outcome
  import opened TokenMath
  import opened State
  import opened TickManager
  import opened WhirlpoolManager
  import opened Instructions
  import opened Ledger
  import opened ModifyProofs
  import opened StepProofs
  import opened Theorems
  import opened Withdrawals

  /** `t` differs from `s` in nothing but position `i` and the tokens in the vaults. */
  ghost predicate OnlyPays(s: Pool, t: Pool, i: nat) {
    && i < |s.positions| == |t.positions|
    && t.positions == s.positions[i := t.positions[i]]
    && t == s.(positions := t.positions, vaultA := t.vaultA, vaultB := t.vaultB, rewardVaults := t.rewardVaults)
  }

  // ---- fees ----

  /**
   * Collecting fees always succeeds. Each vault falls by exactly the position's debt in its token, both debts are
   * then zero, and nothing else of the position or the pool changes.
   */
  lemma FeesArePaidInFull(w: World, i: nat)
    requires Valid(w) && i < |w.pool.positions|
    ensures CollectFees(w.pool, i).Ok?
    ensures var s, t := w.pool, CollectFees(w.pool, i).value;
            && OnlyPays(s, t, i) && t.rewardVaults == s.rewardVaults
            && Owed(t.positions[i], 0) == 0 == Owed(t.positions[i], 1)
            && t.vaultA + Owed(s.positions[i], 0) == s.vaultA && t.vaultB + Owed(s.positions[i], 1) == s.vaultB
            && s.positions[i] == t.positions[i].(feeOwedA := s.positions[i].feeOwedA, feeOwedB := s.positions[i].feeOwedB)
  {
    FeesAreFunded(w, i);
    hide Valid;
  }

  /** The protocol's fees are always paid too, exactly, and are then no longer owed; nothing else changes. */
  lemma ProtocolIsPaidInFull(w: World)
    requires Valid(w)
    ensures CollectProtocolFees(w.pool).Ok?
    ensures var s, t := w.pool, CollectProtocolFees(w.pool).value;
            && t.protocolFeeOwedA == 0 == t.protocolFeeOwedB
            && t.vaultA + s.protocolFeeOwedA == s.vaultA && t.vaultB + s.protocolFeeOwedB == s.vaultB
            && s == t.(vaultA := s.vaultA, vaultB := s.vaultB,
                       protocolFeeOwedA := s.protocolFeeOwedA, protocolFeeOwedB := s.protocolFeeOwedB)
  {
    FeesAreFunded(w, 0);
    hide Valid;
  }

  // ---- rewards ----

  /**
   * Collecting a reward pays as much of the debt as the vault holds. What leaves the vault and what stays owed add up to
   * the debt, something stays owed only if the vault is empty then, and nothing else changes.
   */
  lemma RewardIsPaid(s: Pool, i: nat, r: nat)
    requires i < |s.positions| && r < NUM_REWARDS
    ensures CollectReward(s, i, r).Ok?
    ensures var t := CollectReward(s, i, r).value;
            && OnlyPays(s, t, i) && t.vaultA == s.vaultA && t.vaultB == s.vaultB
            && 0 <= s.rewardVaults[r] - t.rewardVaults[r]
            && (s.rewardVaults[r] - t.rewardVaults[r]) + Owed(t.positions[i], r + 2) == Owed(s.positions[i], r + 2)
            && (Owed(t.positions[i], r + 2) > 0 ==> t.rewardVaults[r] == 0)
            && t.rewardVaults == s.rewardVaults[r := t.rewardVaults[r]]
            && var info := t.positions[i].rewardInfos[r].(amountOwed := Owed(s.positions[i], r + 2));
               s.positions[i] == t.positions[i].(rewardInfos := t.positions[i].rewardInfos[r := info])
  {
    var p, q := s.positions[i], CollectReward(s, i, r).value.positions[i];
    var info := q.rewardInfos[r].(amountOwed := Owed(p, r + 2));
    assert q.rewardInfos[r := info] == p.rewardInfos;
  }

  // ---- rewards over time ----

  /** `growth` is what `elapsed` seconds at the reward's rate are worth to `liquidity`; an overflowing product is lost. */
  predicate GrowthOfTime(growth: nat, info: RewardInfo, liquidity: nat, elapsed: nat) {
    var emission := elapsed * info.emissionsPerSecondX64;
    if !info.initialized || liquidity == 0 || emission >= Q128 then growth == 0
    else liquidity * growth <= emission < liquidity * (growth + 1)
  }

  /** In `t` reward `r` has grown, modulo 2^128, by what `elapsed` seconds are worth. */
  ghost predicate GrewWithTime(s: Pool, t: Pool, r: nat, elapsed: nat)
    requires r < NUM_REWARDS
  {
    exists growth: nat ::
      && GrowthOfTime(growth, s.rewardInfos[r], s.liquidity, elapsed)
      && t.rewardInfos[r] == s.rewardInfos[r].(growthGlobalX64 := (s.rewardInfos[r].growthGlobalX64 + growth) % Q128)
  }

  /** Rewards are brought up to date exactly if the clock does not run backwards, and then by the time that has passed. */
  lemma AccrualFollowsClock(s: Pool, timestamp: u64)
    ensures AccrueRewards(s, timestamp).Ok? <==> s.rewardLastUpdatedTimestamp <= timestamp
    ensures AccrueRewards(s, timestamp).Ok? ==>
              var t, elapsed := AccrueRewards(s, timestamp).value, timestamp - s.rewardLastUpdatedTimestamp;
              && t == s.(rewardInfos := t.rewardInfos, rewardLastUpdatedTimestamp := timestamp)
              && forall r | 0 <= r < NUM_REWARDS :: GrewWithTime(s, t, r, elapsed)
  {
    if s.rewardLastUpdatedTimestamp <= timestamp {
      var t, elapsed := AccrueRewards(s, timestamp).value, timestamp - s.rewardLastUpdatedTimestamp;
      forall r | 0 <= r < NUM_REWARDS ensures GrewWithTime(s, t, r, elapsed) {
        var info := s.rewardInfos[r];
        var growth := if s.liquidity == 0 then 0 else RewardGrowthDelta(info, s.liquidity, elapsed);
        TimeIsWorth(info, s.liquidity, elapsed);
        NoTimeNoGrowth(info, s.liquidity);
        hide RewardGrowthDelta, GrowthOfTime;
        assert GrowthOfTime(growth, info, s.liquidity, elapsed);
        assert t.rewardInfos[r] == info.(growthGlobalX64 := (info.growthGlobalX64 + growth) % Q128);
      }
    }
  }

  lemma TimeIsWorth(info: RewardInfo, liquidity: u128, elapsed: u64)
    ensures GrowthOfTime(if liquidity == 0 then 0 else RewardGrowthDelta(info, liquidity, elapsed),
                         info, liquidity, elapsed)
  {
    if liquidity > 0 && info.initialized { RewardGrowthIsTight(info, liquidity, elapsed); }
    hide CheckedMulDiv;
  }

  lemma NoTimeNoGrowth(info: RewardInfo, liquidity: u128)
    ensures liquidity > 0 ==> RewardGrowthDelta(info, liquidity, 0) == 0
  {
  }

  /**
   * A rate is set exactly if the reward exists, a day of it can be computed and is at most what the vault holds, rounded
   * down, and the clock does not run backwards. Rewards are brought up to date at the old rate; nothing else changes.
   */
  lemma EmissionsDecide(s: Pool, r: nat, rate: u128, timestamp: u64)
    requires r < NUM_REWARDS
    ensures var v := SetRewardEmissions(s, r, rate, timestamp);
            var day := 86_400 * rate;
            && (v.Ok? <==> && day < Q128 && day < Q64 * (s.rewardVaults[r] + 1)
                           && s.rewardLastUpdatedTimestamp <= timestamp)
            && (v.Ok? ==>
                  && AccrueRewards(s, timestamp).Ok?
                  && v.value.rewardInfos[r].emissionsPerSecondX64 == rate
                  && var u := AccrueRewards(s, timestamp).value;
                     && v.value == u.(rewardInfos := v.value.rewardInfos)
                     && v.value.rewardInfos == u.rewardInfos[r := u.rewardInfos[r].(emissionsPerSecondX64 := rate)])
  {
    FloorGreatest(86_400 * rate, Q64, s.rewardVaults[r] + 1);
    hide NextWhirlpoolRewardInfos;
    AccrualFollowsClock(s, timestamp);
  }

  // ---- settling ----

  /**
   * A position is settled exactly if it has liquidity and the clock does not run backwards. Then rewards are up to date,
   * every debt is credited with the growth that happened in range, and nothing but the position changes beside.
   */
  lemma SettlementDecides(w: World, i: nat, timestamp: u64)
    requires Valid(w) && i < |w.pool.positions|
    ensures UpdateFeesAndRewards(w.pool, i, timestamp).Ok?
       <==> w.pool.positions[i].liquidity > 0 && w.pool.rewardLastUpdatedTimestamp <= timestamp
    ensures UpdateFeesAndRewards(w.pool, i, timestamp).Ok? ==>
              && AccrueRewards(w.pool, timestamp).Ok?
              && var u, t := Accrued(w, timestamp), UpdateFeesAndRewards(w.pool, i, timestamp).value;
                 && OnlyPays(u.pool, t, i)
                 && t.vaultA == w.pool.vaultA && t.vaultB == w.pool.vaultB && t.rewardVaults == w.pool.rewardVaults
                 && t.positions[i].liquidity == w.pool.positions[i].liquidity
                 && (forall k | 0 <= k < CHANNELS :: CreditsGrowth(u, t, i, k))
  {
    SettlementSucceeds(w.pool, i, timestamp);
    if UpdateFeesAndRewards(w.pool, i, timestamp).Ok? {
      SettleIsModified(w, i, timestamp);
      AccruedByUpdate(w, i, timestamp);
      var u, t := Accrued(w, timestamp), UpdateFeesAndRewards(w.pool, i, timestamp).value;
      hide UpdateFeesAndRewards, AccrueRewards, BooksAccrued, TickChanges, CreditsGrowth;
      forall k | 0 <= k < CHANNELS ensures CreditsGrowth(u, t, i, k) { ModifiedCredits(u, t, i, 0, k); }
    }
  }

  lemma SettlementSucceeds(s: Pool, i: nat, timestamp: u64)
    requires i < |s.positions|
    ensures UpdateFeesAndRewards(s, i, timestamp).Ok?
       <==> s.positions[i].liquidity > 0 && s.rewardLastUpdatedTimestamp <= timestamp
  {
    hide NextFeeGrowthsInside, NextRewardGrowthsInside;
  }

  // ---- accounts and settings ----

  /**
   * A position is opened exactly if its ticks are in range, multiples of a spacing that is not zero, and in order. It is
   * the last one then, holds nothing and is owed nothing; nothing else changes.
   */
  lemma OpeningDecides(s: Pool, lower: int, upper: int)
    ensures var r := OpenPosition(s, lower, upper);
            && (r.Ok? <==> && MIN_TICK_INDEX <= lower < upper <= MAX_TICK_INDEX && s.tickSpacing > 0
                           && lower % s.tickSpacing == 0 == upper % s.tickSpacing)
            && (r.Ok? ==>
                  && |r.value.positions| == |s.positions| + 1 && r.value.positions[..|s.positions|] == s.positions
                  && r.value == s.(positions := r.value.positions)
                  && var p := r.value.positions[|s.positions|];
                     && (p.tickLowerIndex, p.tickUpperIndex, p.liquidity) == (lower, upper, 0)
                     && forall k | 0 <= k < CHANNELS :: Owed(p, k) == 0)
  {
  }

  /** A rate is set exactly if it is at most its maximum, a reward begun exactly if it is the first not begun. */
  lemma SettingsDecide(s: Pool, rate: nat, r: nat)
    ensures var v := SetFeeRate(s, rate); if rate <= 10_000 then v == Ok(s.(feeRate := rate)) else v.Err?
    ensures var v := SetProtocolFeeRate(s, rate); if rate <= 2_500 then v == Ok(s.(protocolFeeRate := rate)) else v.Err?
    ensures InitializeReward(s, r).Ok?
       <==> r < NUM_REWARDS && !s.rewardInfos[r].initialized && forall j | 0 <= j < r :: s.rewardInfos[j].initialized
    ensures InitializeReward(s, r).Ok? ==>
              var v := InitializeReward(s, r).value;
              && v == s.(rewardInfos := v.rewardInfos)
              && v.rewardInfos == s.rewardInfos[r := s.rewardInfos[r].(initialized := true)]
  {
  }
}
