/** Each instruction keeps the invariant. */
module StepProofs {
  import opened Arithmetic
  import opened Outcome
  import opened CurveAmounts
  import opened State
  import opened TickManager
  import PositionManager
  import opened WhirlpoolManager
  import opened LiquidityManager
  import opened TickSearch
  import opened SwapMath
  import opened SwapManager
  import opened Instructions
  import opened Ledger
  import opened GrowthProofs
  import opened PrincipalProofs
  import opened ModifyProofs
  import opened SwapProofs

  // ---- time passes ----

  lemma RewardDeltaFits(info: RewardInfo, liquidity: u128, elapsed: u64)
    requires liquidity > 0
    ensures liquidity * RewardGrowthDelta(info, liquidity, elapsed)
         <= (if info.initialized then elapsed * info.emissionsPerSecondX64 else 0)
    ensures elapsed == 0 ==> RewardGrowthDelta(info, liquidity, elapsed) == 0
  {
    var n := elapsed * info.emissionsPerSecondX64;
    if RewardGrowthDelta(info, liquidity, elapsed) == 0 {
      assert liquidity * 0 == 0;
    } else if elapsed == 0 {
      assert n == 0;
      FloorGreatest(0, liquidity, 1);
    }
  }

  /** The accrued pool and its books. */
  ghost function Accrued(w: World, timestamp: u64): World
    requires AccrueRewards(w.pool, timestamp).Ok?
  {
    World(AccrueRewards(w.pool, timestamp).value, BooksAccrued(w.pool, w.books, timestamp))
  }

  lemma AccrueIsAccrual(w: World, timestamp: u64)
    requires AccrueRewards(w.pool, timestamp).Ok?
    ensures Accrues(w, Accrued(w, timestamp), Accrual(w.pool.tickCurrentIndex, RewardAmounts(w.pool, timestamp)))
  {
    var s, v := w.pool, Accrued(w, timestamp);
    var e := Accrual(s.tickCurrentIndex, RewardAmounts(s, timestamp));
    var elapsed := timestamp - s.rewardLastUpdatedTimestamp;
    hide RewardGrowthDelta;
    forall k | 0 <= k < CHANNELS
      ensures Growth(v.pool, k) == WrapAdd(Growth(s, k), e.amounts[k])
      ensures w.books.earned[k] + s.liquidity * e.amounts[k] <= v.books.earned[k]
    {
      if k >= 2 && s.liquidity > 0 {
        RewardDeltaFits(s.rewardInfos[k - 2], s.liquidity, elapsed);
      } else {
        assert s.liquidity * e.amounts[k] == 0;
      }
    }
  }

  lemma AccrueKeepsValid(w: World, timestamp: u64)
    requires Valid(w) && AccrueRewards(w.pool, timestamp).Ok?
    ensures Valid(Accrued(w, timestamp)) && WithinEarnings(w, Accrued(w, timestamp))
  {
    var v := Accrued(w, timestamp);
    AccrueIsAccrual(w, timestamp);
    AccrualKeeps(w, v, Accrual(w.pool.tickCurrentIndex, RewardAmounts(w.pool, timestamp)));
    PrincipalSame(w.pool, v.pool);
  }

  // ---- liquidity changes ----

  /** Everything in the invariant except the vaults survives a modification. */
  lemma ModifiedKeeps(w: World, v: World, i: nat, delta: int)
    requires Valid(w) && Modified(w.pool, v.pool, i, delta) && v.books == BooksSettled(w.pool, w.books, i)
    ensures Aligned(v.pool) && TickSums(v.pool) && ActiveSum(v.pool) && IdleRewards(v.pool)
    ensures BooksMatch(v) && HistoryMatches(v) && Telescopes(v) && (forall k | 0 <= k < CHANNELS :: Solvent(v, k))
    ensures WithinEarnings(w, v)
  {
    assert w.pool.positions[i] in w.pool.positions;
    ModifiedAligned(w.pool, v.pool, i, delta);
    ModifiedSums(w.pool, v.pool, i, delta);
    ModifiedIdle(w.pool, v.pool, i, delta);
    ModifiedTelescopes(w, v, i, delta);
    forall k | 0 <= k < CHANNELS ensures Solvent(v, k) && WithinEarningsAt(w, v, k) {
      ModifiedSolvent(w, v, i, delta, k);
    }
  }

  /** Calculating and committing, seen as accrual followed by a modification. */
  lemma ModifyIsModified(w: World, i: nat, delta: i128, timestamp: u64)
    requires Valid(w) && i < |w.pool.positions|
    requires ModifyLiquidity(w.pool, i, delta, timestamp).Ok?
    ensures AccrueRewards(w.pool, timestamp).Ok?
    ensures Valid(Accrued(w, timestamp)) && WithinEarnings(w, Accrued(w, timestamp))
    ensures Modified(Accrued(w, timestamp).pool, ModifyLiquidity(w.pool, i, delta, timestamp).value, i, delta)
  {
    ModifyFactors(w.pool, w.pool.positions[i], delta, timestamp);
    AccrueKeepsValid(w, timestamp);
    var s := Accrued(w, timestamp).pool;
    assert s.positions[i] in s.positions;
    CalculateModifies(s, i, delta);
    hide CalculateModifyLiquidity;
  }

  /** A world whose pool differs from a modified one only by tokens moved into the vaults. */
  lemma TokensKeepValid(w: World, v: World, i: nat, delta: i128, a: int, b: int)
    requires Valid(w) && i < |w.pool.positions|
    requires Modified(w.pool, v.pool.(vaultA := w.pool.vaultA, vaultB := w.pool.vaultB), i, delta)
    requires v.books == BooksSettled(w.pool, w.books, i)
    requires v.pool.vaultA == w.pool.vaultA + a && v.pool.vaultB == w.pool.vaultB + b
    requires WellFormedPosition(w.pool.positions[i], w.pool.tickSpacing)
    requires var p := w.pool.positions[i];
             var lo := SqrtPriceFromTickIndex(w.pool.curve, p.tickLowerIndex);
             var hi := SqrtPriceFromTickIndex(w.pool.curve, p.tickUpperIndex);
             var x := Clamp(w.pool.sqrtPrice, lo, hi);
             ExactA(delta, x, hi) <= a as real && ExactB(delta, lo, x) <= b as real
    ensures Valid(v) && WithinEarnings(w, v)
  {
    var u := World(v.pool.(vaultA := w.pool.vaultA, vaultB := w.pool.vaultB), v.books);
    ModifiedKeeps(w, u, i, delta);
    MovedTokens(u, v);
    EarningsCompose(w, u, v);
    PrincipalShifts(w.pool, v.pool, i, delta);
    hide ExactA, ExactB, TotalPrincipalA, TotalPrincipalB, TickSums, ActiveSum, IdleRewards, Telescopes, Solvent,
         WithinEarnings;
  }

  /** Tokens in vaults play no part in the rest of the invariant. */
  lemma MovedTokens(u: World, v: World)
    requires v.books == u.books
    requires v.pool == u.pool.(vaultA := v.pool.vaultA, vaultB := v.pool.vaultB)
    requires Aligned(u.pool) && TickSums(u.pool) && ActiveSum(u.pool) && IdleRewards(u.pool)
    requires BooksMatch(u) && HistoryMatches(u) && Telescopes(u) && (forall k | 0 <= k < CHANNELS :: Solvent(u, k))
    ensures Aligned(v.pool) && TickSums(v.pool) && ActiveSum(v.pool) && IdleRewards(v.pool)
    ensures BooksMatch(v) && HistoryMatches(v) && Telescopes(v) && (forall k | 0 <= k < CHANNELS :: Solvent(v, k))
    ensures WithinEarnings(u, v)
  {
    StakesKept(u, v);
    forall k | 0 <= k < CHANNELS ensures Solvent(v, k) && WithinEarningsAt(u, v, k) {
      assert Solvent(u, k);
      StakesKeepClaims(u, v, k);
    }
  }

  /** Positions keep range, liquidity and checkpoints; ticks and growth stay. */
  ghost predicate SameStakes(u: World, v: World) {
    && |v.pool.positions| == |u.pool.positions|
    && (forall j | 0 <= j < |u.pool.positions| :: SameStake(u.pool.positions[j], v.pool.positions[j]))
    && (forall j, k | 0 <= j < |u.pool.positions| && 0 <= k < CHANNELS ::
          Checkpoint(v.pool.positions[j], k) == Checkpoint(u.pool.positions[j], k))
    && v.pool.ticks == u.pool.ticks
    && v.pool.tickCurrentIndex == u.pool.tickCurrentIndex
    && v.pool.liquidity == u.pool.liquidity
    && (forall k | 0 <= k < CHANNELS :: Growth(v.pool, k) == Growth(u.pool, k))
    && v.books.history == u.books.history && v.books.since == u.books.since
  }

  lemma StakesKept(u: World, v: World)
    requires SameStakes(u, v)
    ensures TickSums(u.pool) ==> TickSums(v.pool)
    ensures ActiveSum(u.pool) ==> ActiveSum(v.pool)
    ensures BooksMatch(u) ==> BooksMatch(v)
    ensures HistoryMatches(u) ==> HistoryMatches(v)
    ensures BooksMatch(u) && Telescopes(u) ==> Telescopes(v)
    ensures forall k | 0 <= k < CHANNELS ::
              Sum(PendingTerm(v.pool.positions, v.books, k), |u.pool.positions|)
              == Sum(PendingTerm(u.pool.positions, u.books, k), |u.pool.positions|)
  {
    var ps, qs, n := u.pool.positions, v.pool.positions, |u.pool.positions|;
    if TickSums(u.pool) {
      forall t ensures TickAgrees(v.pool, t) {
        assert TickAgrees(u.pool, t);
        SumEqual(GrossTerm(ps, t), GrossTerm(qs, t), n);
        SumEqual(NetTerm(ps, t), NetTerm(qs, t), n);
      }
    }
    SumEqual(RangeTerm(ps, u.pool.tickCurrentIndex), RangeTerm(qs, u.pool.tickCurrentIndex), n);
    if BooksMatch(u) && Telescopes(u) {
      forall i, k | 0 <= i < n && 0 <= k < CHANNELS && qs[i].liquidity > 0 ensures TelescopesAt(v, i, k) {
        assert TelescopesAt(u, i, k);
      }
    }
    forall k | 0 <= k < CHANNELS
      ensures Sum(PendingTerm(qs, v.books, k), n) == Sum(PendingTerm(ps, u.books, k), n)
    {
      SumEqual(PendingTerm(ps, u.books, k), PendingTerm(qs, v.books, k), n);
    }
  }

  /** With the same stakes, claims change only by the debts. */
  lemma StakesKeepClaims(u: World, v: World, k: int)
    requires SameStakes(u, v) && 0 <= k < CHANNELS
    ensures Claims(v, k) - Claims(u, k)
         == Q64 * (Sum(OwedTerm(v.pool.positions, k), |u.pool.positions|)
                   - Sum(OwedTerm(u.pool.positions, k), |u.pool.positions|))
  {
    var f, g, n := UnsettledTerm(u.pool, k), UnsettledTerm(v.pool, k), |u.pool.positions|;
    hide Inside, WrapSub, GrowthInside;
    forall i | 0 <= i < n ensures f(i) == g(i) {
      InsideSame(u.pool, v.pool, u.pool.positions[i].tickLowerIndex, u.pool.positions[i].tickUpperIndex, k);
    }
    SumEqual(f, g, n);
  }

  lemma InsideSame(s: Pool, t: Pool, lower: int, upper: int, k: int)
    requires 0 <= k < CHANNELS && t.ticks == s.ticks && t.tickCurrentIndex == s.tickCurrentIndex
    requires Growth(t, k) == Growth(s, k)
    ensures Inside(t, lower, upper, k) == Inside(s, lower, upper, k)
  {
    hide GrowthInside;
  }

  /** Books after position `i` was settled at `timestamp`. */
  ghost function SettledAt(w: World, i: nat, timestamp: u64): Books
    requires AccrueRewards(w.pool, timestamp).Ok? && i < |w.pool.positions| == |w.books.since|
  {
    BooksSettled(Accrued(w, timestamp).pool, Accrued(w, timestamp).books, i)
  }

  /** Tokens that a liquidity change moves into a vault: out of it for a withdrawal. */
  function Inward(delta: int, tokens: int): int {
    if delta > 0 then tokens else 0 - tokens
  }

  /** A liquidity change whose priced tokens have moved keeps the invariant. */
  lemma ChangeKeepsValid(w: World, i: nat, delta: i128, timestamp: u64, v: World, a: u64, b: u64)
    requires Valid(w) && i < |w.pool.positions|
    requires ModifyLiquidity(w.pool, i, delta, timestamp).Ok?
    requires var next := ModifyLiquidity(w.pool, i, delta, timestamp).value;
             && next.curve.Valid() && WellFormedPosition(w.pool.positions[i], next.tickSpacing) && 0 < next.sqrtPrice
             && CalculateLiquidityTokenDeltas(next, w.pool.positions[i], delta) == Ok((a, b))
             && v.pool == next.(vaultA := next.vaultA + Inward(delta, a), vaultB := next.vaultB + Inward(delta, b))
    requires AccrueRewards(w.pool, timestamp).Ok? && |w.books.since| == |w.pool.positions|
    requires v.books == SettledAt(w, i, timestamp)
    ensures Keeps(w, v)
  {
    ModifyIsModified(w, i, delta, timestamp);
    var u, next := Accrued(w, timestamp), ModifyLiquidity(w.pool, i, delta, timestamp).value;
    assert next.curve == w.pool.curve && next.tickSpacing == w.pool.tickSpacing;
    ModifyMovesTokens(w, i, delta, timestamp);
    hide ModifyLiquidity, CalculateLiquidityTokenDeltas, AccrueRewards, Valid, WithinEarnings, ExactA, ExactB, BooksAccrued;
    assert v.pool.(vaultA := next.vaultA, vaultB := next.vaultB) == next;
    TokensKeepValid(u, v, i, delta, Inward(delta, a), Inward(delta, b));
    EarningsCompose(w, u, v);
  }

  lemma ValidParts(w: World)
    requires Valid(w)
    ensures WellFormed(w.pool) && Aligned(w.pool) && BooksMatch(w) && |w.books.since| == |w.pool.positions|
  {
  }

  /** The pool after a change of liquidity in either direction, once its priced tokens have moved. */
  ghost predicate ChangedTo(s: Pool, i: nat, delta: i128, timestamp: u64, t: Pool) {
    && i < |s.positions| && ModifyLiquidity(s, i, delta, timestamp).Ok?
    && var next := ModifyLiquidity(s, i, delta, timestamp).value;
       && next.curve.Valid() && WellFormedPosition(s.positions[i], next.tickSpacing) && 0 < next.sqrtPrice
       && CalculateLiquidityTokenDeltas(next, s.positions[i], delta).Ok?
       && var (a, b) := CalculateLiquidityTokenDeltas(next, s.positions[i], delta).value;
          t == next.(vaultA := next.vaultA + Inward(delta, a), vaultB := next.vaultB + Inward(delta, b))
  }

  lemma IncreaseChanges(s: Pool, i: nat, amount: u128, maxA: u64, maxB: u64, timestamp: u64)
    requires WellFormed(s) && IncreaseLiquidity(s, i, amount, maxA, maxB, timestamp).Ok?
    ensures amount < Q127
    ensures ChangedTo(s, i, amount, timestamp, IncreaseLiquidity(s, i, amount, maxA, maxB, timestamp).value)
  {
    assert s.positions[i] in s.positions;
    hide CalculateModifyLiquidity, CalculateLiquidityTokenDeltas;
  }

  lemma DecreaseChanges(s: Pool, i: nat, amount: u128, minA: u64, minB: u64, timestamp: u64)
    requires WellFormed(s) && DecreaseLiquidity(s, i, amount, minA, minB, timestamp).Ok?
    ensures amount < Q127
    ensures ChangedTo(s, i, 0 - amount, timestamp, DecreaseLiquidity(s, i, amount, minA, minB, timestamp).value)
  {
    assert s.positions[i] in s.positions;
    hide CalculateModifyLiquidity, CalculateLiquidityTokenDeltas;
  }

  lemma ChangedKeepsValid(w: World, i: nat, delta: i128, timestamp: u64, t: Pool)
    requires Valid(w) && ChangedTo(w.pool, i, delta, timestamp, t)
    ensures AccrueRewards(w.pool, timestamp).Ok? && i < |w.pool.positions| == |w.books.since|
    ensures Keeps(w, World(t, SettledAt(w, i, timestamp)))
  {
    ValidParts(w);
    hide Valid, ModifyLiquidity, CalculateLiquidityTokenDeltas, SettledAt, AccrueRewards, Keeps;
    ModifyIsModified(w, i, delta, timestamp);
    var (a, b) := CalculateLiquidityTokenDeltas(ModifyLiquidity(w.pool, i, delta, timestamp).value,
                                                w.pool.positions[i], delta).value;
    ChangeKeepsValid(w, i, delta, timestamp, World(t, SettledAt(w, i, timestamp)), a, b);
  }

  lemma IncreaseKeepsValid(w: World, i: nat, amount: u128, maxA: u64, maxB: u64, timestamp: u64)
    requires Valid(w) && IncreaseLiquidity(w.pool, i, amount, maxA, maxB, timestamp).Ok?
    ensures AccrueRewards(w.pool, timestamp).Ok? && i < |w.pool.positions|
    ensures Keeps(w, World(IncreaseLiquidity(w.pool, i, amount, maxA, maxB, timestamp).value, SettledAt(w, i, timestamp)))
  {
    hide *;
    ValidParts(w);
    IncreaseChanges(w.pool, i, amount, maxA, maxB, timestamp);
    ChangedKeepsValid(w, i, amount, timestamp, IncreaseLiquidity(w.pool, i, amount, maxA, maxB, timestamp).value);
  }

  lemma DecreaseKeepsValid(w: World, i: nat, amount: u128, minA: u64, minB: u64, timestamp: u64)
    requires Valid(w) && DecreaseLiquidity(w.pool, i, amount, minA, minB, timestamp).Ok?
    ensures AccrueRewards(w.pool, timestamp).Ok? && i < |w.pool.positions|
    ensures Keeps(w, World(DecreaseLiquidity(w.pool, i, amount, minA, minB, timestamp).value, SettledAt(w, i, timestamp)))
  {
    hide *;
    ValidParts(w);
    DecreaseChanges(w.pool, i, amount, minA, minB, timestamp);
    ChangedKeepsValid(w, i, 0 - amount, timestamp, DecreaseLiquidity(w.pool, i, amount, minA, minB, timestamp).value);
  }

  /** The tokens a liquidity change moves cover its exact change of principal. */
  lemma ModifyMovesTokens(w: World, i: nat, delta: i128, timestamp: u64)
    requires Valid(w) && i < |w.pool.positions|
    requires AccrueRewards(w.pool, timestamp).Ok? && ModifyLiquidity(w.pool, i, delta, timestamp).Ok?
    requires var next := ModifyLiquidity(w.pool, i, delta, timestamp).value;
             && Modified(Accrued(w, timestamp).pool, next, i, delta)
             && WellFormedPosition(w.pool.positions[i], w.pool.tickSpacing)
             && CalculateLiquidityTokenDeltas(next, w.pool.positions[i], delta).Ok?
    ensures var s, p := w.pool, w.pool.positions[i];
            var (a, b) := CalculateLiquidityTokenDeltas(ModifyLiquidity(s, i, delta, timestamp).value, p, delta).value;
            var lo := SqrtPriceFromTickIndex(s.curve, p.tickLowerIndex);
            var hi := SqrtPriceFromTickIndex(s.curve, p.tickUpperIndex);
            var x := Clamp(s.sqrtPrice, lo, hi);
            if delta > 0 then ExactA(delta, x, hi) <= a as real && ExactB(delta, lo, x) <= b as real
            else a as real <= 0.0 - ExactA(delta, x, hi) && b as real <= 0.0 - ExactB(delta, lo, x)
  {
    var next := ModifyLiquidity(w.pool, i, delta, timestamp).value;
    AlignedSides(w.pool, i);
    hide ModifyLiquidity, ExactA, ExactB;
    TokenDeltasCoverPrincipal(next, w.pool.positions[i], delta);
  }

  // ---- settling, paying out, opening ----

  lemma SettleIsModified(w: World, i: nat, timestamp: u64)
    requires Valid(w) && UpdateFeesAndRewards(w.pool, i, timestamp).Ok?
    ensures AccrueRewards(w.pool, timestamp).Ok? && i < |w.pool.positions|
    ensures Valid(Accrued(w, timestamp)) && WithinEarnings(w, Accrued(w, timestamp))
    ensures Modified(Accrued(w, timestamp).pool, UpdateFeesAndRewards(w.pool, i, timestamp).value, i, 0)
  {
    AccruedByUpdate(w, i, timestamp);
    AccrueKeepsValid(w, timestamp);
    var s, v := Accrued(w, timestamp).pool, UpdateFeesAndRewards(w.pool, i, timestamp).value;
    assert s.positions[i] in s.positions;
    CalculateModifies(s, i, 0);
    var u := CalculateModifyLiquidity(s, s.positions[i], 0, timestamp).value;
    hide CalculateModifyLiquidity, UpdateFeesAndRewards, Accrued, PositionModified;
    SettledIsModified(s, v, i, u);
  }

  lemma AccruedByUpdate(w: World, i: nat, timestamp: u64)
    requires UpdateFeesAndRewards(w.pool, i, timestamp).Ok?
    ensures AccrueRewards(w.pool, timestamp).Ok? && i < |w.pool.positions|
    ensures var s, p := Accrued(w, timestamp).pool, w.pool.positions[i];
            && CalculateModifyLiquidity(s, p, 0, timestamp).Ok?
            && s.rewardLastUpdatedTimestamp == timestamp
            && UpdateFeesAndRewards(w.pool, i, timestamp).value
               == s.(rewardInfos := CalculateModifyLiquidity(s, p, 0, timestamp).value.rewardInfos,
                     positions := s.positions[
                       i := p.Update(CalculateModifyLiquidity(s, p, 0, timestamp).value.positionUpdate)])
  {
    ModifyFactors(w.pool, w.pool.positions[i], 0, timestamp);
    hide NextTickModifyLiquidityUpdate, NextFeeGrowthsInside, NextRewardGrowthsInside,
         PositionManager.NextPositionModifyLiquidityUpdate;
  }

  /** Committing only the position of a zero-delta update is still the whole modification. */
  lemma SettledIsModified(s: Pool, v: Pool, i: nat, u: ModifyLiquidityUpdate)
    requires i < |s.positions| && u.rewardInfos == s.rewardInfos
    requires Modified(s, SyncModifyLiquidityValues(s, i, u, s.rewardLastUpdatedTimestamp), i, 0)
    requires v == s.(positions := s.positions[i := s.positions[i].Update(u.positionUpdate)])
    ensures Modified(s, v, i, 0)
  {
    var sync := SyncModifyLiquidityValues(s, i, u, s.rewardLastUpdatedTimestamp);
    forall t ensures TickChanges(s, v, s.positions[i], 0, t) {
      assert TickChanges(s, sync, s.positions[i], 0, t);
    }
  }

  lemma SettleKeepsValid(w: World, i: nat, timestamp: u64)
    requires Valid(w) && UpdateFeesAndRewards(w.pool, i, timestamp).Ok?
    ensures AccrueRewards(w.pool, timestamp).Ok? && i < |w.pool.positions|
    ensures Keeps(w, World(UpdateFeesAndRewards(w.pool, i, timestamp).value, SettledAt(w, i, timestamp)))
  {
    SettleIsModified(w, i, timestamp);
    var u, v := Accrued(w, timestamp), World(UpdateFeesAndRewards(w.pool, i, timestamp).value, SettledAt(w, i, timestamp));
    ModifiedKeeps(u, v, i, 0);
    EarningsCompose(w, u, v);
    PrincipalSame(u.pool, v.pool);
  }

  /** Paying `amount` of one channel's debt to position `i` keeps that channel's accounts. */
  lemma PaymentSolvent(u: World, v: World, i: nat, k: int, amount: nat)
    requires SameStakes(u, v) && BooksMatch(u) && i < |u.pool.positions| && 0 <= k < CHANNELS
    requires v.pool.positions == u.pool.positions[i := v.pool.positions[i]]
    requires v.books.credited == u.books.credited && v.books.earned == u.books.earned
    requires Owed(v.pool.positions[i], k) == Owed(u.pool.positions[i], k) - amount
    requires v.books.paid[k] == u.books.paid[k] + amount
    requires Solvent(u, k)
    ensures Solvent(v, k) && WithinEarningsAt(u, v, k)
  {
    StakesKept(u, v);
    StakesKeepClaims(u, v, k);
    hide PendingTerm, TickSums, ActiveSum, Telescopes, HistoryMatches, SameStakes, Claims;
    SumOneChanged(OwedTerm(u.pool.positions, k), OwedTerm(v.pool.positions, k), |u.pool.positions|, i);
  }

  lemma CollectFeesKeepsValid(w: World, i: nat)
    requires Valid(w) && CollectFees(w.pool, i).Ok?
    ensures i < |w.pool.positions|
    ensures var p := w.pool.positions[i];
            Keeps(w, World(CollectFees(w.pool, i).value, BooksPaid(BooksPaid(w.books, 0, p.feeOwedA), 1, p.feeOwedB)))
  {
    var p := w.pool.positions[i];
    var v := World(CollectFees(w.pool, i).value, BooksPaid(BooksPaid(w.books, 0, p.feeOwedA), 1, p.feeOwedB));
    StakesKept(w, v);
    forall k | 0 <= k < CHANNELS ensures Solvent(v, k) && WithinEarningsAt(w, v, k) {
      PaymentSolvent(w, v, i, k, if k == 0 then p.feeOwedA else if k == 1 then p.feeOwedB else 0);
    }
    PositionsWellFormed(w.pool, v.pool);
    PrincipalSame(w.pool, v.pool);
  }

  lemma PositionsWellFormed(s: Pool, t: Pool)
    requires forall p | p in s.positions :: WellFormedPosition(p, s.tickSpacing)
    requires t.tickSpacing == s.tickSpacing && |t.positions| == |s.positions|
    requires forall j | 0 <= j < |s.positions| :: SameStake(s.positions[j], t.positions[j])
    ensures forall p | p in t.positions :: WellFormedPosition(p, t.tickSpacing)
  {
    forall p | p in t.positions ensures WellFormedPosition(p, t.tickSpacing) {
      var j :| 0 <= j < |t.positions| && t.positions[j] == p;
      assert s.positions[j] in s.positions;
    }
  }

  lemma CollectRewardKeepsValid(w: World, i: nat, r: nat)
    requires Valid(w) && CollectReward(w.pool, i, r).Ok?
    ensures i < |w.pool.positions| && r < NUM_REWARDS
    ensures var transfer := CalculateCollectReward(w.pool.positions[i].rewardInfos[r].amountOwed, w.pool.rewardVaults[r]).0;
            Keeps(w, World(CollectReward(w.pool, i, r).value, BooksPaid(w.books, r + 2, transfer)))
  {
    var transfer := CalculateCollectReward(w.pool.positions[i].rewardInfos[r].amountOwed, w.pool.rewardVaults[r]).0;
    var v := World(CollectReward(w.pool, i, r).value, BooksPaid(w.books, r + 2, transfer));
    forall j, k | 0 <= j < |w.pool.positions| && 0 <= k < CHANNELS
      ensures Checkpoint(v.pool.positions[j], k) == Checkpoint(w.pool.positions[j], k)
    {
    }
    StakesKept(w, v);
    forall k | 0 <= k < CHANNELS ensures Solvent(v, k) && WithinEarningsAt(w, v, k) {
      PaymentSolvent(w, v, i, k, if k == r + 2 then transfer else 0);
    }
    PositionsWellFormed(w.pool, v.pool);
    PrincipalSame(w.pool, v.pool);
  }

  /** A pool that differs only in rates, reward flags, reward vaults or protocol fees paid out. */
  lemma SettingsKeepValid(w: World, t: Pool)
    requires Valid(w)
    requires t == w.pool.(feeRate := t.feeRate, protocolFeeRate := t.protocolFeeRate, rewardVaults := t.rewardVaults,
                          rewardInfos := t.rewardInfos, protocolFeeOwedA := t.protocolFeeOwedA,
                          protocolFeeOwedB := t.protocolFeeOwedB, vaultA := t.vaultA, vaultB := t.vaultB)
    requires t.feeRate <= MAX_FEE_RATE && t.protocolFeeRate <= MAX_PROTOCOL_FEE_RATE
    requires forall r | 0 <= r < NUM_REWARDS ::
               && t.rewardInfos[r].growthGlobalX64 == w.pool.rewardInfos[r].growthGlobalX64
               && (w.pool.rewardInfos[r].initialized ==> t.rewardInfos[r].initialized)
    requires t.vaultA - t.protocolFeeOwedA == w.pool.vaultA - w.pool.protocolFeeOwedA
    requires t.vaultB - t.protocolFeeOwedB == w.pool.vaultB - w.pool.protocolFeeOwedB
    ensures Keeps(w, World(t, w.books))
  {
    var v := World(t, w.books);
    StakesKept(w, v);
    forall k | 0 <= k < CHANNELS ensures Solvent(v, k) && WithinEarningsAt(w, v, k) {
      assert Solvent(w, k);
      StakesKeepClaims(w, v, k);
    }
    PrincipalSame(w.pool, t);
    hide TotalPrincipalA, TotalPrincipalB, TickSums, ActiveSum, Telescopes, Solvent, WithinEarningsAt;
  }

  lemma SetEmissionsKeepsValid(w: World, r: nat, rate: u128, timestamp: u64)
    requires Valid(w) && SetRewardEmissions(w.pool, r, rate, timestamp).Ok?
    ensures AccrueRewards(w.pool, timestamp).Ok?
    ensures Keeps(w, World(SetRewardEmissions(w.pool, r, rate, timestamp).value, Accrued(w, timestamp).books))
  {
    AccrueKeepsValid(w, timestamp);
    var u, t := Accrued(w, timestamp), SetRewardEmissions(w.pool, r, rate, timestamp).value;
    SettingsKeepValid(u, t);
    EarningsCompose(w, u, World(t, u.books));
  }

  lemma OpenKeepsValid(w: World, lower: int, upper: int)
    requires Valid(w) && OpenPosition(w.pool, lower, upper).Ok?
    ensures Keeps(w, World(OpenPosition(w.pool, lower, upper).value,
                        w.books.(since := w.books.since + [|w.books.history|])))
  {
    var v := World(OpenPosition(w.pool, lower, upper).value, w.books.(since := w.books.since + [|w.books.history|]));
    OpenAligned(w.pool, v.pool);
    OpenSums(w.pool, v.pool);
    OpenTelescopes(w, v);
    forall k | 0 <= k < CHANNELS ensures Solvent(v, k) && WithinEarningsAt(w, v, k) { OpenSolvent(w, v, k); }
    OpenPrincipal(w.pool, v.pool);
    hide TickSums, ActiveSum, Telescopes, Solvent, WithinEarningsAt, TotalPrincipalA, TotalPrincipalB, Aligned;
  }

  /** `t` is `s` with one more position, which has no liquidity. */
  ghost predicate Opened(s: Pool, t: Pool) {
    && t == s.(positions := t.positions) && |t.positions| == |s.positions| + 1
    && t.positions[..|s.positions|] == s.positions
    && t.positions[|s.positions|].liquidity == 0
  }

  lemma OpenAligned(s: Pool, t: Pool)
    requires Opened(s, t) && Aligned(s) && WellFormedPosition(t.positions[|s.positions|], s.tickSpacing)
    ensures Aligned(t)
  {
    forall p | p in t.positions ensures WellFormedPosition(p, t.tickSpacing) {
      if p !in s.positions { assert p == t.positions[|s.positions|]; }
    }
  }

  lemma OpenSums(s: Pool, t: Pool)
    requires Opened(s, t)
    ensures TickSums(s) ==> TickSums(t)
    ensures ActiveSum(s) ==> ActiveSum(t)
  {
    var ps, qs, n := s.positions, t.positions, |s.positions|;
    if TickSums(s) {
      forall x ensures TickAgrees(t, x) {
        assert TickAgrees(s, x);
        SumEqual(GrossTerm(ps, x), GrossTerm(qs, x), n);
        SumEqual(NetTerm(ps, x), NetTerm(qs, x), n);
      }
    }
    SumEqual(RangeTerm(ps, s.tickCurrentIndex), RangeTerm(qs, s.tickCurrentIndex), n);
  }

  lemma OpenTelescopes(w: World, v: World)
    requires BooksMatch(w) && Telescopes(w) && Opened(w.pool, v.pool)
    requires v.books == w.books.(since := w.books.since + [|w.books.history|])
    ensures BooksMatch(v) && Telescopes(v)
  {
    forall j, k | 0 <= j < |v.pool.positions| && 0 <= k < CHANNELS && v.pool.positions[j].liquidity > 0
      ensures TelescopesAt(v, j, k)
    {
      assert TelescopesAt(w, j, k) && v.pool.positions[j] == v.pool.positions[..|w.pool.positions|][j];
    }
  }

  lemma OpenSolvent(w: World, v: World, k: int)
    requires BooksMatch(w) && 0 <= k < CHANNELS && Solvent(w, k)
    requires Opened(w.pool, v.pool) && Owed(v.pool.positions[|w.pool.positions|], k) == 0
    requires v.books == w.books.(since := w.books.since + [|w.books.history|])
    ensures Solvent(v, k) && WithinEarningsAt(w, v, k)
  {
    var n := |w.pool.positions|;
    assert forall j | 0 <= j < n :: v.pool.positions[j] == v.pool.positions[..n][j];
    SumEqual(PendingTerm(w.pool.positions, w.books, k), PendingTerm(v.pool.positions, v.books, k), n);
    SumEqual(OwedTerm(w.pool.positions, k), OwedTerm(v.pool.positions, k), n);
    assert PendingTerm(v.pool.positions, v.books, k)(n) == 0;
    OpenKeepsClaims(w, v, k);
    hide PendingTerm, OwedTerm, ClaimsWithin;
  }

  lemma OpenKeepsClaims(w: World, v: World, k: int)
    requires Opened(w.pool, v.pool) && 0 <= k < CHANNELS && Owed(v.pool.positions[|w.pool.positions|], k) == 0
    requires v.books.paid == w.books.paid && v.books.earned == w.books.earned
    ensures ClaimsWithin(w, v, k)
  {
    var n := |w.pool.positions|;
    assert forall j | 0 <= j < n :: v.pool.positions[j] == v.pool.positions[..n][j];
    SumEqual(OwedTerm(w.pool.positions, k), OwedTerm(v.pool.positions, k), n);
    NoLiquidityUnsettled(v.pool, n, k);
    hide Inside, WrapSub;
    forall j | 0 <= j < n ensures UnsettledTerm(w.pool, k)(j) == UnsettledTerm(v.pool, k)(j) {
      InsideSame(w.pool, v.pool, w.pool.positions[j].tickLowerIndex, w.pool.positions[j].tickUpperIndex, k);
    }
    SumEqual(UnsettledTerm(w.pool, k), UnsettledTerm(v.pool, k), n);
  }

  lemma OpenPrincipal(s: Pool, t: Pool)
    requires WellFormed(s) && WellFormed(t) && Opened(s, t)
    ensures TotalPrincipalA(t) == TotalPrincipalA(s) && TotalPrincipalB(t) == TotalPrincipalB(s)
  {
    var n := |s.positions|;
    assert forall j | 0 <= j < n :: t.positions[j] == t.positions[..n][j];
    forall i | 0 <= i < n
      ensures PrincipalTermA(s)(i) == PrincipalTermA(t)(i) && PrincipalTermB(s)(i) == PrincipalTermB(t)(i)
    {
      TermsSame(s, t, i);
    }
    assert t.positions[n] in t.positions;
    assert PrincipalTermA(t)(n) == 0.0 && PrincipalTermB(t)(n) == 0.0;
    hide PrincipalTermA, PrincipalTermB;
    RealSumEqual(PrincipalTermA(s), PrincipalTermA(t), n);
    RealSumEqual(PrincipalTermB(s), PrincipalTermB(t), n);
  }

  // ---- trading ----

  lemma TradeKeepsValid(w: World, q: SwapRequest, threshold: u64, timestamp: u64)
    requires Valid(w) && SwapTokens(w.pool, q, threshold, timestamp).Ok?
    ensures AccrueRewards(w.pool, timestamp).Ok? && Valid(Accrued(w, timestamp))
    ensures ArraysAligned(q.arrays, w.pool.tickSpacing) && Swap(Accrued(w, timestamp).pool, q).Ok?
    ensures Keeps(w, World(SwapTokens(w.pool, q, threshold, timestamp).value,
                        BooksAtCursor(Accrued(w, timestamp).books, q, Swap(Accrued(w, timestamp).pool, q).value)))
  {
    AccrueKeepsValid(w, timestamp);
    var u := Accrued(w, timestamp);
    SwapKeepsValid(u, q);
    EarningsCompose(w, u, WorldAt(u, q, Swap(u.pool, q).value));
  }
}
