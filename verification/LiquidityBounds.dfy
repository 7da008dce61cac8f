/** How much liquidity the vaults can stand behind, and what that rules out. */
module LiquidityBounds {
  import opened Arithmetic
  import opened Outcome
  import opened TokenMath
  import opened CurveAmounts
  import opened State
  import opened SwapManager
  import opened TickSearch
  import opened Instructions
  import opened Ledger
  import opened StepProofs
  import opened Theorems
  import opened SwapErrors
  import opened ArrayCoverage
  import opened Withdrawals

  /** Each unit of liquidity stands for at least this part of a token of A or B, over any range. */
  const BACKING: int := 0x20_0000_0000_0000

  // ---- one unit of liquidity ----

  lemma RecipAtLeast(x: int)
    requires 0 < x <= MAX_SQRT_PRICE
    ensures 1.0 <= 0x1_0000_0000 as real * Recip(x)
  {
    var c := 0x1_0000_0000 as real;
    RecipMul(x);
    hide Recip;
    assert (c * Recip(x)) * x as real == c * Q64 as real == (0x1_0000_0000 * Q64) as real;
    assert x <= 0x1_0000_0000 * Q64;
    RealMulCancel(1.0, c * Recip(x), x as real);
  }

  /** The part of a range above the price is backed by A in proportion to its share of the upper price. */
  lemma UpperPartIsBacked(x: int, hi: int)
    requires 0 < x <= hi <= MAX_SQRT_PRICE
    ensures (hi - x) as real <= (Recip(x) - Recip(hi)) * (0x1_0000_0000 as real * hi as real)
  {
    RecipMul(x);
    RecipMul(hi);
    RecipAtLeast(x);
    hide Recip;
    RealMulMono(1.0, 0x1_0000_0000 as real * Recip(x), (hi - x) as real);
    BackedAlgebra(Recip(x), Recip(hi), x as real, hi as real, 0x1_0000_0000 as real);
  }

  lemma BackedAlgebra(rx: real, rh: real, x: real, h: real, c: real)
    requires rx * x == rh * h
    ensures (rx - rh) * (c * h) == (c * rx) * (h - x)
  {
    assert (rx - rh) * (c * h) == c * (rx * h - rh * h);
    assert (c * rx) * (h - x) == c * (rx * h - rx * x);
  }

  /** The part below the price is backed by B likewise. */
  lemma LowerPartIsBacked(lo: int, x: int, hi: int)
    requires MIN_SQRT_PRICE <= lo <= x <= hi
    ensures (x - lo) as real <= Span(lo, x) * (0x1_0000_0000 as real * hi as real)
  {
    var d, m := (x - lo) as real, 0x1_0000_0000 as real * hi as real;
    assert Q64 as real <= m;
    RealMulMono(Q64 as real, m, Span(lo, x));
    assert Span(lo, x) * Q64 as real == d;
  }

  lemma UnitIsBacked(lo: int, x: int, hi: int)
    requires MIN_SQRT_PRICE <= lo <= x <= hi <= MAX_SQRT_PRICE && 1_000_001 * lo <= 1_000_000 * hi
    ensures 1.0 <= BACKING as real * (Recip(x) - Recip(hi) + Span(lo, x))
  {
    UpperPartIsBacked(x, hi);
    LowerPartIsBacked(lo, x, hi);
    hide Recip, Span;
    var unit, m := Recip(x) - Recip(hi) + Span(lo, x), 0x1_0000_0000 as real * hi as real;
    assert (hi - lo) as real <= unit * m by { SumTimes(Recip(x) - Recip(hi), Span(lo, x), m); }
    UnitFromWhole(unit, hi as real, (hi - lo) as real);
  }

  lemma SumTimes(a: real, b: real, m: real)
    ensures (a + b) * m == a * m + b * m
  {
  }

  lemma UnitFromWhole(unit: real, h: real, span: real)
    requires 0.0 < h && span <= unit * (0x1_0000_0000 as real * h) && h <= 1_000_001.0 * span
    ensures 1.0 <= BACKING as real * unit
  {
    var k := 1_000_001.0 * 0x1_0000_0000 as real;
    assert h <= (k * unit) * h by {
      assert 1_000_001.0 * (unit * (0x1_0000_0000 as real * h)) == (k * unit) * h;
    }
    if k * unit < 1.0 { RealMulStrict(k * unit, 1.0, h); }
    assert 0.0 < unit;
    RealMulMono(k, BACKING as real, unit);
  }

  // ---- all liquidity ----

  lemma PositionIsBacked(s: Pool, i: int)
    requires WellFormed(s) && s.curve.Spaced() && 0 <= i < |s.positions|
    ensures s.positions[i].liquidity as real <= BACKING as real * (PrincipalTermA(s)(i) + PrincipalTermB(s)(i))
  {
    var p := s.positions[i];
    assert p in s.positions;
    RangeIsSpaced(s.curve, p.tickLowerIndex, p.tickUpperIndex);
    var lo, hi := SqrtPriceFromTickIndex(s.curve, p.tickLowerIndex), SqrtPriceFromTickIndex(s.curve, p.tickUpperIndex);
    hide Recip, Span, ExactA, ExactB, Curve.Valid, Curve.Spaced;
    RangeIsBacked(p.liquidity, lo, Clamp(s.sqrtPrice, lo, hi), hi);
  }

  lemma RangeIsSpaced(c: Curve, lower: int, upper: int)
    requires c.Valid() && c.Spaced() && MIN_TICK_INDEX <= lower < upper <= MAX_TICK_INDEX
    ensures 1_000_001 * SqrtPriceFromTickIndex(c, lower) <= 1_000_000 * SqrtPriceFromTickIndex(c, upper)
    ensures SqrtPriceFromTickIndex(c, lower) <= SqrtPriceFromTickIndex(c, upper)
  {
    PriceOrder(c, lower + 1, upper);
    PriceOrder(c, lower, upper);
  }

  lemma RangeIsBacked(liquidity: nat, lo: int, x: int, hi: int)
    requires MIN_SQRT_PRICE <= lo <= x <= hi <= MAX_SQRT_PRICE && 1_000_001 * lo <= 1_000_000 * hi
    ensures liquidity as real <= BACKING as real * (ExactA(liquidity, x, hi) + ExactB(liquidity, lo, x))
  {
    UnitIsBacked(lo, x, hi);
    hide Recip, Span;
    LiquidityScales(liquidity, Recip(x) - Recip(hi), Span(lo, x));
  }

  lemma LiquidityScales(liquidity: nat, a: real, b: real)
    requires 1.0 <= BACKING as real * (a + b)
    ensures liquidity as real <= BACKING as real * (liquidity as real * a + liquidity as real * b)
  {
    RealMulMono(1.0, BACKING as real * (a + b), liquidity as real);
    assert BACKING as real * (a + b) * liquidity as real
        == BACKING as real * (liquidity as real * a + liquidity as real * b);
  }

  lemma {:induction false} BackedSums(f: int -> int, a: int -> real, b: int -> real, n: nat)
    requires forall i | 0 <= i < n :: f(i) as real <= BACKING as real * (a(i) + b(i))
    ensures Sum(f, n) as real <= BACKING as real * (RealSum(a, n) + RealSum(b, n))
  {
    if n > 0 { BackedSums(f, a, b, n - 1); }
  }

  lemma PrincipalBacksLiquidity(s: Pool)
    requires WellFormed(s) && s.curve.Spaced()
    ensures TotalLiquidity(s) as real <= BACKING as real * (TotalPrincipalA(s) + TotalPrincipalB(s))
  {
    var f, n := LiquidityTerm(s.positions), |s.positions|;
    forall i | 0 <= i < n ensures f(i) as real <= BACKING as real * (PrincipalTermA(s)(i) + PrincipalTermB(s)(i)) {
      PositionIsBacked(s, i);
    }
    hide PrincipalTermA, PrincipalTermB, LiquidityTerm, WellFormed;
    BackedSums(f, PrincipalTermA(s), PrincipalTermB(s), n);
  }

  /** With 64-bit vaults, all positions together never hold as much as 2^118 liquidity. */
  lemma LiquidityStaysSmall(w: World)
    requires Valid(w) && w.pool.curve.Spaced() && VaultsFit(w.pool)
    ensures TotalLiquidity(w.pool) < BACKING * 2 * Q64 < Q127
  {
    ValidParts(w);
    PrincipalBacksLiquidity(w.pool);
    VaultAbovePrincipal(w);
    hide Valid, WellFormed, TotalLiquidity, TotalPrincipalA, TotalPrincipalB;
    var a, b := TotalPrincipalA(w.pool), TotalPrincipalB(w.pool);
    assert a + b < 2.0 * Q64 as real;
  }

  // ---- what that rules out ----

  lemma PositionWithinTotal(s: Pool, i: nat)
    requires i < |s.positions|
    ensures s.positions[i].liquidity <= TotalLiquidity(s)
  {
    SumBoundsTerm(LiquidityTerm(s.positions), |s.positions|);
    assert LiquidityTerm(s.positions)(i) <= TotalLiquidity(s);
  }

  lemma NetsAlwaysFit(w: World, i: nat, amount: u128)
    requires Valid(w) && w.pool.curve.Spaced() && VaultsFit(w.pool)
    requires i < |w.pool.positions| && amount <= w.pool.positions[i].liquidity
    ensures NetsFit(w.pool, w.pool.positions[i], amount) && amount < Q127
  {
    var p := w.pool.positions[i];
    LiquidityStaysSmall(w);
    PositionWithinTotal(w.pool, i);
    NetWithinTotal(w.pool, p.tickLowerIndex);
    NetWithinTotal(w.pool, p.tickUpperIndex);
    hide Valid, TotalLiquidity, VaultsFit;
  }

  /**
   * On a curve whose ticks are a part in a million apart, whatever a position holds can be withdrawn, all of it or
   * part of it, at any time: no check, width or vault stands in the way.
   */
  lemma EveryWithdrawalSucceeds(w: World, i: nat, amount: u128, timestamp: u64)
    requires Reachable(w) && i < |w.pool.positions| && 0 < amount <= w.pool.positions[i].liquidity
    requires w.pool.rewardLastUpdatedTimestamp <= timestamp && VaultsFit(w.pool) && w.pool.curve.Spaced()
    ensures WellFormed(w.pool) && DecreaseLiquidity(w.pool, i, amount, 0, 0, timestamp).Ok?
  {
    ReachableIsValid(w);
    NetsAlwaysFit(w, i, amount);
    WithdrawalSucceeds(w, i, amount, timestamp);
    hide Valid, Reachable, NetsFit, DecreaseLiquidity;
  }

  /**
   * All a swap can fail with: the request, the arrays it brings, or an amount too large for its width. It never
   * underflows liquidity, spends more than remains, divides by zero or empties a vault, and on a spaced
   * curve with 64-bit vaults it never overflows liquidity either. Arrays in sequence from the current tick on
   * never fail it, as far as they reach.
   */
  lemma SwapFailures(w: World, q: SwapRequest, threshold: u64, timestamp: u64)
    requires Reachable(w)
    ensures Aligned(w.pool)
    ensures var r := SwapTokens(w.pool, q, threshold, timestamp);
            r.Err? ==>
              && (RequestError(r.error) || LoopError(r.error))
              && (w.pool.curve.Spaced() && VaultsFit(w.pool) ==> r.error != LiquidityOverflow)
              && (ArraysCover(w.pool, q) ==> r.error != InvalidTickArraySequence)
              && (ArraysCover(w.pool, q) && Reaches(w.pool, q) ==> r.error != TickArraySequenceInvalidIndex)
  {
    ReachableIsValid(w);
    ValidParts(w);
    hide Valid, Reachable, SwapTokens, Swap, AccrueRewards, TotalLiquidity, Accrued, LoopError, RequestError,
         VaultsFit, Aligned, Curve.Spaced, ListedError, ArraysCover, Reaches;
    TradeIsFunded(w, q, threshold, timestamp);
    SwapStages(w.pool, q, threshold, timestamp);
    if AccrueRewards(w.pool, timestamp).Ok? && ArraysAligned(q.arrays, w.pool.tickSpacing) {
      AccruedSwapFailures(w, q, timestamp);
      if ArraysCover(w.pool, q) { AccruedSwapKeepsTrack(w, q, timestamp); }
    }
    NotArrays();
  }

  lemma AccruedSwapFailures(w: World, q: SwapRequest, timestamp: u64)
    requires Valid(w) && AccrueRewards(w.pool, timestamp).Ok? && ArraysAligned(q.arrays, w.pool.tickSpacing)
    ensures Aligned(AccrueRewards(w.pool, timestamp).value)
    ensures AccrueRewards(w.pool, timestamp).value.tickSpacing == w.pool.tickSpacing
    ensures var r := Swap(AccrueRewards(w.pool, timestamp).value, q);
            Refusal(w.pool, q).None? && r.Err? ==>
              LoopError(r.error) && (w.pool.curve.Spaced() && VaultsFit(w.pool) ==> r.error != LiquidityOverflow)
  {
    AccrueKeepsValid(w, timestamp);
    LoopErrorsAreListed(Accrued(w, timestamp), q);
    if w.pool.curve.Spaced() && VaultsFit(w.pool) { LiquidityStaysSmall(Accrued(w, timestamp)); }
    hide Swap, TotalLiquidity, LoopError, Curve.Spaced, TickSums, ActiveSum, Telescopes, Solvent, VaultsCover;
  }

  lemma AccruedSwapKeepsTrack(w: World, q: SwapRequest, timestamp: u64)
    requires Valid(w) && AccrueRewards(w.pool, timestamp).Ok? && ArraysAligned(q.arrays, w.pool.tickSpacing)
    requires ArraysCover(w.pool, q)
    ensures Aligned(AccrueRewards(w.pool, timestamp).value)
    ensures AccrueRewards(w.pool, timestamp).value.tickSpacing == w.pool.tickSpacing
    ensures Swap(AccrueRewards(w.pool, timestamp).value, q) != Err(InvalidTickArraySequence)
    ensures Reaches(w.pool, q) ==> Swap(AccrueRewards(w.pool, timestamp).value, q) != Err(TickArraySequenceInvalidIndex)
  {
    AccrueKeepsValid(w, timestamp);
    SwapKeepsTrack(Accrued(w, timestamp).pool, q);
    hide Swap, TickSums, ActiveSum, Telescopes, Solvent, VaultsCover;
  }

  lemma NotArrays()
    ensures !RequestError(InvalidTickArraySequence) && !RequestError(TickArraySequenceInvalidIndex)
  {
  }
}
