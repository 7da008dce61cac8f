/** Changing or settling a position keeps the invariant and disturbs nobody else. */
module ModifyProofs {
  import opened Arithmetic
  import opened Outcome
  import opened State
  import opened TickManager
  import opened PositionManager
  import opened LiquidityManager
  import opened SwapManager
  import opened Instructions
  import opened Ledger
  import opened GrowthProofs

  // ---- what a modification does, tick by tick ----

  /** A tick after `delta`: cleared when empty, recorded by convention when new, otherwise growth untouched. */
  ghost predicate TickModified(s: Pool, t: int, before: Tick, after: Tick, delta: int, isUpper: bool) {
    if delta == 0 then after == before
    else
      && after.liquidityGross == before.liquidityGross + delta
      && if after.liquidityGross == 0 then after == DEFAULT_TICK
         else
           && after.initialized
           && after.liquidityNet == (if isUpper then before.liquidityNet - delta else before.liquidityNet + delta)
           && forall k | 0 <= k < CHANNELS ::
                Outside(after, k) == if before.liquidityGross > 0 then Outside(before, k)
                                     else if s.tickCurrentIndex >= t then Growth(s, k) else 0
  }

  /** `v` is `s` after position `i` was settled and changed by `delta`. */
  ghost predicate Modified(s: Pool, v: Pool, i: nat, delta: int) {
    && i < |s.positions|
    && v == s.(positions := v.positions, ticks := v.ticks, liquidity := v.liquidity)
    && |v.positions| == |s.positions|
    && v.positions == s.positions[i := v.positions[i]]
    && PositionModified(s, s.positions[i], v.positions[i], delta)
    && v.liquidity == (if s.positions[i].Covers(s.tickCurrentIndex) then s.liquidity + delta else s.liquidity)
    && forall t :: TickChanges(s, v, s.positions[i], delta, t)
  }

  ghost predicate TickChanges(s: Pool, v: Pool, p: Position, delta: int, t: int) {
    if p.Bounds(t) then TickModified(s, t, TickAt(s.ticks, t), TickAt(v.ticks, t), delta, t == p.tickUpperIndex)
    else TickAt(v.ticks, t) == TickAt(s.ticks, t)
  }

  ghost predicate PositionModified(s: Pool, p: Position, after: Position, delta: int) {
    && after.tickLowerIndex == p.tickLowerIndex && after.tickUpperIndex == p.tickUpperIndex
    && after.liquidity == p.liquidity + delta
    && forall k | 0 <= k < CHANNELS ::
         && Checkpoint(after, k) == Inside(s, p.tickLowerIndex, p.tickUpperIndex, k)
         && Owed(after, k) == WrapAdd64(Owed(p, k), Earned(s, p, k))
  }

  // ---- the code does that ----

  /** Accruing first and then modifying at the same time is the same as modifying. */
  lemma ModifyFactors(s: Pool, p: Position, delta: i128, timestamp: u64)
    requires AccrueRewards(s, timestamp).Ok?
    ensures CalculateModifyLiquidity(s, p, delta, timestamp)
         == CalculateModifyLiquidity(AccrueRewards(s, timestamp).value, p, delta, timestamp)
  {
    hide NextTickModifyLiquidityUpdate, NextFeeGrowthsInside, NextRewardGrowthsInside, NextPositionModifyLiquidityUpdate;
  }

  lemma TickUpdateModifies(s: Pool, t: int, delta: i128, isUpper: bool)
    ensures var r := NextTickModifyLiquidityUpdate(TickAt(s.ticks, t), t, s.tickCurrentIndex, s.feeGrowthGlobalA,
                                                   s.feeGrowthGlobalB, s.rewardInfos, delta, isUpper);
            r.Ok? ==> TickModified(s, t, TickAt(s.ticks, t), r.value, delta, isUpper)
  {
  }

  /** The code's per-channel inside growths are the generic ones, idle rewards included. */
  lemma CodeInside(s: Pool, lower: int, upper: int, r: nat)
    requires IdleRewards(s) && r < NUM_REWARDS
    ensures NextRewardGrowthsInside(s.tickCurrentIndex, TickAt(s.ticks, lower), lower, TickAt(s.ticks, upper), upper,
                                    s.rewardInfos)[r] == Inside(s, lower, upper, r + 2)
  {
  }

  lemma PositionUpdateModifies(s: Pool, p: Position, delta: i128, u: PositionUpdate)
    requires IdleRewards(s)
    requires var lower, upper := p.tickLowerIndex, p.tickUpperIndex;
             var tickLower, tickUpper := TickAt(s.ticks, lower), TickAt(s.ticks, upper);
             var (a, b) := NextFeeGrowthsInside(s.tickCurrentIndex, tickLower, lower, tickUpper, upper,
                                                s.feeGrowthGlobalA, s.feeGrowthGlobalB);
             var rs := NextRewardGrowthsInside(s.tickCurrentIndex, tickLower, lower, tickUpper, upper, s.rewardInfos);
             NextPositionModifyLiquidityUpdate(p, delta, a, b, rs) == Ok(u)
    ensures PositionModified(s, p, p.Update(u), delta)
  {
    hide GrowthInside, GrowthEarned, WrapAdd64;
    forall k | 0 <= k < CHANNELS
      ensures Checkpoint(p.Update(u), k) == Inside(s, p.tickLowerIndex, p.tickUpperIndex, k)
      ensures Owed(p.Update(u), k) == WrapAdd64(Owed(p, k), Earned(s, p, k))
    {
      if k >= 2 { CodeInside(s, p.tickLowerIndex, p.tickUpperIndex, k - 2); }
    }
  }

  /** On an accrued pool, calculating and committing a change is a modification. */
  lemma CalculateModifies(s: Pool, i: nat, delta: i128)
    requires i < |s.positions| && s.positions[i].tickLowerIndex < s.positions[i].tickUpperIndex
    requires IdleRewards(s)
    requires CalculateModifyLiquidity(s, s.positions[i], delta, s.rewardLastUpdatedTimestamp).Ok?
    ensures var u := CalculateModifyLiquidity(s, s.positions[i], delta, s.rewardLastUpdatedTimestamp).value;
            && Modified(s, SyncModifyLiquidityValues(s, i, u, s.rewardLastUpdatedTimestamp), i, delta)
            && u.rewardInfos == s.rewardInfos
  {
    var p, now := s.positions[i], s.rewardLastUpdatedTimestamp;
    var u := CalculateModifyLiquidity(s, p, delta, now).value;
    var v := SyncModifyLiquidityValues(s, i, u, now);
    TickUpdateModifies(s, p.tickLowerIndex, delta, false);
    TickUpdateModifies(s, p.tickUpperIndex, delta, true);
    hide NextTickModifyLiquidityUpdate, NextFeeGrowthsInside, NextRewardGrowthsInside,
         NextPositionModifyLiquidityUpdate, TickModified, PositionModified;
    PositionUpdateModifies(s, p, delta, u.positionUpdate);
    forall t ensures TickChanges(s, v, p, delta, t) {
    }
  }

  // ---- nobody else is disturbed ----

  /** Below and above of a tick that stays in use read the same, also when it was just initialized. */
  lemma TickSidesKept(s: Pool, t: int, before: Tick, after: Tick, delta: int, isUpper: bool, k: int)
    requires 0 <= k < CHANNELS && TickModified(s, t, before, after, delta, isUpper)
    requires before.initialized <==> before.liquidityGross > 0
    requires after.liquidityGross > 0
    ensures GrowthBelow(s.tickCurrentIndex, Growth(s, k), after.initialized, Outside(after, k), t)
         == GrowthBelow(s.tickCurrentIndex, Growth(s, k), before.initialized, Outside(before, k), t)
    ensures GrowthAbove(s.tickCurrentIndex, Growth(s, k), after.initialized, Outside(after, k), t)
         == GrowthAbove(s.tickCurrentIndex, Growth(s, k), before.initialized, Outside(before, k), t)
  {
  }

  /**
   * Inside growth of every position that has liquidity afterwards is unchanged: for other
   * positions this is non-interference, for the modified one soundness of its checkpoint.
   */
  lemma ModifyKeepsInside(s: Pool, v: Pool, i: nat, delta: int, j: nat, k: int)
    requires Modified(s, v, i, delta) && TickSums(s) && TickSums(v)
    requires j < |v.positions| && v.positions[j].liquidity > 0 && 0 <= k < CHANNELS
    ensures var p := v.positions[j];
            Inside(v, p.tickLowerIndex, p.tickUpperIndex, k) == Inside(s, p.tickLowerIndex, p.tickUpperIndex, k)
  {
    var p := v.positions[j];
    ActiveTicks(v, j);
    forall t | p.Bounds(t)
      ensures GrowthBelow(s.tickCurrentIndex, Growth(s, k), TickAt(v.ticks, t).initialized, Outside(TickAt(v.ticks, t), k), t)
           == GrowthBelow(s.tickCurrentIndex, Growth(s, k), TickAt(s.ticks, t).initialized, Outside(TickAt(s.ticks, t), k), t)
      ensures GrowthAbove(s.tickCurrentIndex, Growth(s, k), TickAt(v.ticks, t).initialized, Outside(TickAt(v.ticks, t), k), t)
           == GrowthAbove(s.tickCurrentIndex, Growth(s, k), TickAt(s.ticks, t).initialized, Outside(TickAt(s.ticks, t), k), t)
    {
      assert TickChanges(s, v, s.positions[i], delta, t) && TickAgrees(s, t);
      if s.positions[i].Bounds(t) {
        TickSidesKept(s, t, TickAt(s.ticks, t), TickAt(v.ticks, t), delta, t == s.positions[i].tickUpperIndex, k);
      }
    }
    assert p.Bounds(p.tickLowerIndex) && p.Bounds(p.tickUpperIndex);
  }

  // ---- sums ----

  /** If no liquidity is bounded by a tick, none of it counts toward the tick's net either. */
  lemma GrossZeroNetZero(ps: seq<Position>, t: int)
    requires Sum(GrossTerm(ps, t), |ps|) == 0
    ensures Sum(NetTerm(ps, t), |ps|) == 0
  {
    SumBoundsTerm(GrossTerm(ps, t), |ps|);
    forall i | 0 <= i < |ps| ensures NetTerm(ps, t)(i) == GrossTerm(ps, t)(i) + -1 * GrossTerm(ps, t)(i) {
      assert GrossTerm(ps, t)(i) <= 0;
    }
    SumAffine(GrossTerm(ps, t), NetTerm(ps, t), GrossTerm(ps, t), -1, |ps|);
  }

  lemma ModifiedSumsAt(s: Pool, v: Pool, i: nat, delta: int, t: int)
    requires Modified(s, v, i, delta) && TickSums(s)
    requires s.positions[i].tickLowerIndex < s.positions[i].tickUpperIndex
    ensures TickAgrees(v, t)
  {
    var n, p := |s.positions|, s.positions[i];
    SumOneChanged(GrossTerm(s.positions, t), GrossTerm(v.positions, t), n, i);
    SumOneChanged(NetTerm(s.positions, t), NetTerm(v.positions, t), n, i);
    assert TickAgrees(s, t) && TickChanges(s, v, p, delta, t);
    if Sum(GrossTerm(v.positions, t), n) == 0 { GrossZeroNetZero(v.positions, t); }
  }

  lemma ModifiedSums(s: Pool, v: Pool, i: nat, delta: int)
    requires Modified(s, v, i, delta) && TickSums(s) && ActiveSum(s)
    requires s.positions[i].tickLowerIndex < s.positions[i].tickUpperIndex
    ensures TickSums(v) && ActiveSum(v)
  {
    forall t ensures TickAgrees(v, t) { ModifiedSumsAt(s, v, i, delta, t); }
    SumOneChanged(RangeTerm(s.positions, s.tickCurrentIndex), RangeTerm(v.positions, s.tickCurrentIndex),
                  |s.positions|, i);
  }

  lemma ModifiedIdle(s: Pool, v: Pool, i: nat, delta: int)
    requires Modified(s, v, i, delta) && IdleRewards(s)
    ensures IdleRewards(v)
  {
    forall r, t | 0 <= r < NUM_REWARDS && !v.rewardInfos[r].initialized
      ensures TickAt(v.ticks, t).rewardGrowthsOutside[r] == 0
    {
      assert TickChanges(s, v, s.positions[i], delta, t);
      assert Outside(TickAt(s.ticks, t), r + 2) == 0 && Growth(s, r + 2) == 0;
      assert Outside(TickAt(v.ticks, t), r + 2) == TickAt(v.ticks, t).rewardGrowthsOutside[r];
    }
  }

  lemma ModifiedAligned(s: Pool, v: Pool, i: nat, delta: int)
    requires Modified(s, v, i, delta) && Aligned(s)
    ensures Aligned(v)
  {
    assert s.positions[i] in s.positions;
    forall p | p in v.positions ensures WellFormedPosition(p, v.tickSpacing) {
      var j :| 0 <= j < |v.positions| && v.positions[j] == p;
      assert s.positions[j] in s.positions;
    }
    forall t | TickAt(v.ticks, t).initialized ensures UsableTick(t, v.tickSpacing) {
      assert TickChanges(s, v, s.positions[i], delta, t);
    }
  }

  // ---- the books ----

  lemma ModifiedTelescopes(w: World, v: World, i: nat, delta: int)
    requires Modified(w.pool, v.pool, i, delta) && TickSums(w.pool) && TickSums(v.pool)
    requires BooksMatch(w) && Telescopes(w) && v.books == BooksSettled(w.pool, w.books, i)
    ensures BooksMatch(v) && Telescopes(v)
  {
    forall j, k | 0 <= j < |v.pool.positions| && 0 <= k < CHANNELS && v.pool.positions[j].liquidity > 0
      ensures TelescopesAt(v, j, k)
    {
      ModifyKeepsInside(w.pool, v.pool, i, delta, j, k);
      if j != i { assert TelescopesAt(w, j, k); }
    }
  }

  lemma ModifiedSolvent(w: World, v: World, i: nat, delta: int, k: int)
    requires Modified(w.pool, v.pool, i, delta) && TickSums(w.pool) && TickSums(v.pool)
    requires BooksMatch(w) && Telescopes(w) && v.books == BooksSettled(w.pool, w.books, i)
    requires 0 <= k < CHANNELS && Solvent(w, k)
    ensures Solvent(v, k) && WithinEarningsAt(w, v, k)
  {
    ModifiedClaims(w, v, i, delta, k);
    var ps, qs, n := w.pool.positions, v.pool.positions, |w.pool.positions|;
    forall j | 0 <= j < n && j != i
      ensures PendingTerm(ps, w.books, k)(j) == PendingTerm(qs, v.books, k)(j)
      ensures OwedTerm(ps, k)(j) == OwedTerm(qs, k)(j)
    {
    }
    SettledTerms(w, v, i, delta, k);
    hide PendingTerm, OwedTerm, TickChanges, PositionModified, Telescopes, TickSums, ClaimsWithin;
    SumOneChanged(PendingTerm(ps, w.books, k), PendingTerm(qs, v.books, k), n, i);
    SumOneChanged(OwedTerm(ps, k), OwedTerm(qs, k), n, i);
  }

  /** Settling a position turns its claim on growth into a debt of at most that size; other claims stay. */
  lemma ModifiedClaims(w: World, v: World, i: nat, delta: int, k: int)
    requires Modified(w.pool, v.pool, i, delta) && TickSums(w.pool) && TickSums(v.pool)
    requires BooksMatch(w) && v.books == BooksSettled(w.pool, w.books, i) && 0 <= k < CHANNELS
    ensures ClaimsWithin(w, v, k)
  {
    var ps, qs, n := w.pool.positions, v.pool.positions, |w.pool.positions|;
    forall j | 0 <= j < n && j != i
      ensures UnsettledTerm(w.pool, k)(j) == UnsettledTerm(v.pool, k)(j)
      ensures OwedTerm(ps, k)(j) == OwedTerm(qs, k)(j)
    {
      OtherUnsettledKept(w.pool, v.pool, i, delta, j, k);
    }
    SettledClaim(w.pool, v.pool, i, delta, k);
    hide UnsettledTerm, OwedTerm, TickChanges, PositionModified, TickSums;
    SumOneChanged(UnsettledTerm(w.pool, k), UnsettledTerm(v.pool, k), n, i);
    SumOneChanged(OwedTerm(ps, k), OwedTerm(qs, k), n, i);
  }

  lemma OtherUnsettledKept(s: Pool, v: Pool, i: nat, delta: int, j: nat, k: int)
    requires Modified(s, v, i, delta) && TickSums(s) && TickSums(v)
    requires j < |s.positions| && j != i && 0 <= k < CHANNELS
    ensures UnsettledTerm(s, k)(j) == UnsettledTerm(v, k)(j)
  {
    if s.positions[j].liquidity > 0 {
      ModifyKeepsInside(s, v, i, delta, j, k);
    } else {
      NoLiquidityUnsettled(s, j, k);
      NoLiquidityUnsettled(v, j, k);
    }
    hide Inside, WrapSub, TickChanges, TickSums, PositionModified;
  }

  lemma SettledClaim(s: Pool, v: Pool, i: nat, delta: int, k: int)
    requires Modified(s, v, i, delta) && TickSums(s) && TickSums(v) && 0 <= k < CHANNELS
    ensures UnsettledTerm(v, k)(i) == 0
    ensures Q64 * OwedTerm(v.positions, k)(i) <= Q64 * OwedTerm(s.positions, k)(i) + UnsettledTerm(s, k)(i)
  {
    var p := s.positions[i];
    EarnedWithinUnsettled(s, i, k);
    if v.positions[i].liquidity > 0 {
      ModifyKeepsInside(s, v, i, delta, i, k);
      NothingSince(Checkpoint(v.positions[i], k));
      NothingTimes(v.positions[i].liquidity);
    } else {
      NoLiquidityUnsettled(v, i, k);
    }
    hide Inside, Wrap, WrapSub, TickChanges, TickSums, Earned;
  }

  lemma NothingSince(checkpoint: u128)
    ensures WrapSub(checkpoint, checkpoint) == 0
  {
  }

  lemma EarnedWithinUnsettled(s: Pool, i: nat, k: int)
    requires i < |s.positions| && 0 <= k < CHANNELS
    ensures Q64 * Earned(s, s.positions[i], k) <= UnsettledTerm(s, k)(i)
  {
    var p := s.positions[i];
    var inside := Inside(s, p.tickLowerIndex, p.tickUpperIndex, k);
    EarnedAtMostPending(p.liquidity, inside, Checkpoint(p, k), WrapSub(inside, Checkpoint(p, k)));
    WrapSmall(WrapSub(inside, Checkpoint(p, k)));
    hide Inside, Wrap, WrapSub, GrowthEarned;
  }

  /** The settled position: its pending growth is gone, and no more than that was credited or is owed. */
  lemma SettledTerms(w: World, v: World, i: nat, delta: int, k: int)
    requires Modified(w.pool, v.pool, i, delta) && 0 <= k < CHANNELS
    requires BooksMatch(w) && Telescopes(w) && v.books == BooksSettled(w.pool, w.books, i)
    ensures PendingTerm(v.pool.positions, v.books, k)(i) == 0
    ensures Q64 * (v.books.credited[k] - w.books.credited[k]) <= PendingTerm(w.pool.positions, w.books, k)(i)
    ensures OwedTerm(v.pool.positions, k)(i)
         <= OwedTerm(w.pool.positions, k)(i) + (v.books.credited[k] - w.books.credited[k])
  {
    EarnedWithinPending(w, i, k);
    NothingPending(v.pool.positions, v.books, i, k);
    hide PendingTerm, Earned, Inside, Telescopes, TickChanges, Wrap;
  }

  lemma EarnedWithinPending(w: World, i: nat, k: int)
    requires BooksMatch(w) && Telescopes(w) && i < |w.pool.positions| && 0 <= k < CHANNELS
    ensures Q64 * Earned(w.pool, w.pool.positions[i], k) <= PendingTerm(w.pool.positions, w.books, k)(i)
  {
    var p := w.pool.positions[i];
    if p.liquidity > 0 { assert TelescopesAt(w, i, k); }
    EarnedAtMostPending(p.liquidity, Inside(w.pool, p.tickLowerIndex, p.tickUpperIndex, k), Checkpoint(p, k),
                        Pending(w, i, k));
    hide Inside, Telescopes, GrowthEarned, GrowthInRange, Wrap, WrapSub;
  }

  /** A position settled at the end of the history has no growth pending. */
  lemma NothingPending(ps: seq<Position>, b: Books, i: nat, k: int)
    requires i < |ps| && i < |b.since| && b.since[i] == |b.history| && 0 <= k < CHANNELS
    ensures PendingTerm(ps, b, k)(i) == 0
  {
    NothingTimes(ps[i].liquidity);
  }

  lemma NothingTimes(x: int)
    ensures x * 0 == 0
  {
  }
}
