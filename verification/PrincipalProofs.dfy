/** Exact principal: how prices and liquidity changes move the positions' total. */
module PrincipalProofs {
  import opened Arithmetic
  import opened Outcome
  import opened TokenMath
  import opened CurveAmounts
  import opened State
  import opened LiquidityManager
  import opened SwapManager
  import opened Ledger
  import SdkMath

  /** The pool's price and `price` both lie on the side of every active position's ends that the current tick says. */
  ghost predicate PriceSideKept(s: Pool, price: int) {
    && WellFormed(s)
    && MIN_SQRT_PRICE <= price <= MAX_SQRT_PRICE
    && forall i | 0 <= i < |s.positions| && s.positions[i].liquidity > 0 ::
         SideAt(s, s.positions[i], price) && SideAt(s, s.positions[i], s.sqrtPrice)
  }

  ghost predicate SideAt(s: Pool, p: Position, price: int)
    requires s.curve.Valid() && WellFormedPosition(p, s.tickSpacing)
  {
    var lo, hi := SqrtPriceFromTickIndex(s.curve, p.tickLowerIndex), SqrtPriceFromTickIndex(s.curve, p.tickUpperIndex);
    if s.tickCurrentIndex < p.tickLowerIndex then price <= lo
    else if s.tickCurrentIndex < p.tickUpperIndex then lo <= price <= hi
    else hi <= price
  }

  /** `c` per unit, for `weight` units: a product the proofs below need not look into. */
  ghost function Times(c: real, weight: int): real { c * weight as real }

  lemma TimesNothing(c: real, weight: int)
    ensures Times(c, 0) == 0.0 && Times(0.0, weight) == 0.0
  {
  }

  lemma SpanMovesA(liquidity: int, from: int, to: int, hi: int)
    requires 0 < from && 0 < to && 0 < hi
    ensures ExactA(liquidity, to, hi) == ExactA(liquidity, from, hi) + Times(Recip(to) - Recip(from), liquidity)
  {
    hide Recip;
  }

  lemma SpanMovesB(liquidity: int, lo: int, from: int, to: int)
    ensures ExactB(liquidity, lo, to) == ExactB(liquidity, lo, from) + Times(Span(from, to), liquidity)
  {
    var l, x, y := liquidity as real, Span(lo, to), Span(lo, from);
    assert x - y == Span(from, to);
    assert l * x == l * y + (x - y) * l;
  }

  /** Liquidity of a position that counts at the current tick. */
  function ActiveShare(s: Pool, p: Position): nat {
    if p.Covers(s.tickCurrentIndex) then p.liquidity else 0
  }

  lemma PrincipalMovesA(s: Pool, p: Position, price: u128)
    requires s.curve.Valid() && WellFormedPosition(p, s.tickSpacing) && 0 < price && 0 < s.sqrtPrice
    requires p.liquidity > 0 ==> SideAt(s, p, price) && SideAt(s, p, s.sqrtPrice)
    ensures PrincipalA(s.curve, price, p, s.tickSpacing) == PrincipalA(s.curve, s.sqrtPrice, p, s.tickSpacing)
         + Times(Recip(price) - Recip(s.sqrtPrice), ActiveShare(s, p))
  {
    PriceOrder(s.curve, p.tickLowerIndex, p.tickUpperIndex);
    var lo, hi := SqrtPriceFromTickIndex(s.curve, p.tickLowerIndex), SqrtPriceFromTickIndex(s.curve, p.tickUpperIndex);
    var x, y := Clamp(s.sqrtPrice, lo, hi), Clamp(price, lo, hi);
    SpanMovesA(p.liquidity, x, y, hi);
    TimesNothing(Recip(price) - Recip(s.sqrtPrice), p.liquidity);
    TimesNothing(Recip(y) - Recip(x), p.liquidity);
    hide ExactA, Recip, Times;
  }

  lemma PrincipalMovesB(s: Pool, p: Position, price: u128)
    requires s.curve.Valid() && WellFormedPosition(p, s.tickSpacing) && 0 < price && 0 < s.sqrtPrice
    requires p.liquidity > 0 ==> SideAt(s, p, price) && SideAt(s, p, s.sqrtPrice)
    ensures PrincipalB(s.curve, price, p, s.tickSpacing) == PrincipalB(s.curve, s.sqrtPrice, p, s.tickSpacing)
         + Times(Span(s.sqrtPrice, price), ActiveShare(s, p))
  {
    PriceOrder(s.curve, p.tickLowerIndex, p.tickUpperIndex);
    var lo, hi := SqrtPriceFromTickIndex(s.curve, p.tickLowerIndex), SqrtPriceFromTickIndex(s.curve, p.tickUpperIndex);
    var x, y := Clamp(s.sqrtPrice, lo, hi), Clamp(price, lo, hi);
    SpanMovesB(p.liquidity, lo, x, y);
    TimesNothing(Span(s.sqrtPrice, price), p.liquidity);
    TimesNothing(Span(x, y), p.liquidity);
    assert Span(x, x) == 0.0;
    hide ExactB, Span, Times;
  }

  /** `t` is `s` at another price of the same interval. */
  ghost predicate PriceMoves(s: Pool, t: Pool) {
    && PriceSideKept(s, t.sqrtPrice) && ActiveSum(s) && WellFormed(t)
    && t.positions == s.positions && t.curve == s.curve && t.tickSpacing == s.tickSpacing
  }

  lemma TermMovesA(s: Pool, t: Pool, i: int)
    requires PriceMoves(s, t) && 0 <= i < |s.positions|
    ensures PrincipalTermA(t)(i) == PrincipalTermA(s)(i)
         + Times(Recip(t.sqrtPrice) - Recip(s.sqrtPrice), RangeTerm(s.positions, s.tickCurrentIndex)(i))
  {
    assert s.positions[i] in s.positions;
    PrincipalMovesA(s, s.positions[i], t.sqrtPrice);
    hide Recip, PrincipalA, Times;
  }

  lemma ExactAScales(liquidity: int, from: int, to: int)
    requires 0 < from && 0 < to
    ensures Times(Recip(to) - Recip(from), liquidity) == ExactA(liquidity, to, from)
  {
    hide Recip;
  }

  lemma ExactBScales(liquidity: int, from: int, to: int)
    ensures Times(Span(from, to), liquidity) == ExactB(liquidity, from, to)
  {
  }

  lemma TotalScalesA(s: Pool, t: Pool, c: real)
    requires WellFormed(s) && WellFormed(t) && ActiveSum(s) && |t.positions| == |s.positions|
    requires forall i | 0 <= i < |s.positions| ::
               PrincipalTermA(t)(i) == PrincipalTermA(s)(i) + Times(c, RangeTerm(s.positions, s.tickCurrentIndex)(i))
    ensures TotalPrincipalA(t) == TotalPrincipalA(s) + Times(c, s.liquidity)
  {
    hide PrincipalTermA, RangeTerm, WellFormed;
    RealSumAffine(PrincipalTermA(s), PrincipalTermA(t), RangeTerm(s.positions, s.tickCurrentIndex), c, |s.positions|);
  }

  /** Inside one interval, total principal moves exactly as the active liquidity's curve. */
  lemma TotalPrincipalMovesA(s: Pool, t: Pool)
    requires PriceMoves(s, t)
    ensures TotalPrincipalA(t) == TotalPrincipalA(s) + ExactA(s.liquidity, t.sqrtPrice, s.sqrtPrice)
  {
    var c := Recip(t.sqrtPrice) - Recip(s.sqrtPrice);
    hide PrincipalTermA, TotalPrincipalA, ExactA, Recip, RangeTerm, Times;
    TermsMoveA(s, t, c);
    TotalScalesA(s, t, c);
    ExactAScales(s.liquidity, s.sqrtPrice, t.sqrtPrice);
  }

  lemma TermsMoveA(s: Pool, t: Pool, c: real)
    requires PriceMoves(s, t) && c == Recip(t.sqrtPrice) - Recip(s.sqrtPrice)
    ensures forall i | 0 <= i < |s.positions| ::
              PrincipalTermA(t)(i) == PrincipalTermA(s)(i) + Times(c, RangeTerm(s.positions, s.tickCurrentIndex)(i))
  {
    hide PrincipalTermA, RangeTerm, Recip, Times;
    forall i | 0 <= i < |s.positions|
      ensures PrincipalTermA(t)(i) == PrincipalTermA(s)(i) + Times(c, RangeTerm(s.positions, s.tickCurrentIndex)(i))
    {
      TermMovesA(s, t, i);
    }
  }

  lemma TermMovesB(s: Pool, t: Pool, i: int)
    requires PriceMoves(s, t) && 0 <= i < |s.positions|
    ensures PrincipalTermB(t)(i) == PrincipalTermB(s)(i)
         + Times(Span(s.sqrtPrice, t.sqrtPrice), RangeTerm(s.positions, s.tickCurrentIndex)(i))
  {
    assert s.positions[i] in s.positions;
    PrincipalMovesB(s, s.positions[i], t.sqrtPrice);
    hide Span, PrincipalB, Times;
  }

  lemma TotalScalesB(s: Pool, t: Pool, c: real)
    requires WellFormed(s) && WellFormed(t) && ActiveSum(s) && |t.positions| == |s.positions|
    requires forall i | 0 <= i < |s.positions| ::
               PrincipalTermB(t)(i) == PrincipalTermB(s)(i) + Times(c, RangeTerm(s.positions, s.tickCurrentIndex)(i))
    ensures TotalPrincipalB(t) == TotalPrincipalB(s) + Times(c, s.liquidity)
  {
    hide PrincipalTermB, RangeTerm, WellFormed;
    RealSumAffine(PrincipalTermB(s), PrincipalTermB(t), RangeTerm(s.positions, s.tickCurrentIndex), c, |s.positions|);
  }

  lemma TotalPrincipalMovesB(s: Pool, t: Pool)
    requires PriceMoves(s, t)
    ensures TotalPrincipalB(t) == TotalPrincipalB(s) + ExactB(s.liquidity, s.sqrtPrice, t.sqrtPrice)
  {
    var c := Span(s.sqrtPrice, t.sqrtPrice);
    hide PrincipalTermB, TotalPrincipalB, ExactB, Span, RangeTerm, Times;
    TermsMoveB(s, t, c);
    TotalScalesB(s, t, c);
    ExactBScales(s.liquidity, s.sqrtPrice, t.sqrtPrice);
  }

  lemma TermsMoveB(s: Pool, t: Pool, c: real)
    requires PriceMoves(s, t) && c == Span(s.sqrtPrice, t.sqrtPrice)
    ensures forall i | 0 <= i < |s.positions| ::
              PrincipalTermB(t)(i) == PrincipalTermB(s)(i) + Times(c, RangeTerm(s.positions, s.tickCurrentIndex)(i))
  {
    hide PrincipalTermB, RangeTerm, Span, Times;
    forall i | 0 <= i < |s.positions|
      ensures PrincipalTermB(t)(i) == PrincipalTermB(s)(i) + Times(c, RangeTerm(s.positions, s.tickCurrentIndex)(i))
    {
      TermMovesB(s, t, i);
    }
  }

  /** In an aligned pool the current price is on the side of each position that the current tick says. */
  lemma PositionSide(s: Pool, p: Position)
    requires Aligned(s) && WellFormedPosition(p, s.tickSpacing)
    ensures SideAt(s, p, s.sqrtPrice)
  {
    if s.tickCurrentIndex < p.tickLowerIndex {
      PriceOrder(s.curve, s.tickCurrentIndex + 1, p.tickLowerIndex);
    } else if s.tickCurrentIndex < p.tickUpperIndex {
      PriceOrder(s.curve, p.tickLowerIndex, s.tickCurrentIndex);
      PriceOrder(s.curve, s.tickCurrentIndex + 1, p.tickUpperIndex);
    } else {
      PriceOrder(s.curve, p.tickUpperIndex, s.tickCurrentIndex);
    }
  }

  lemma AlignedSides(s: Pool, i: int)
    requires Aligned(s) && 0 <= i < |s.positions|
    ensures WellFormedPosition(s.positions[i], s.tickSpacing) && SideAt(s, s.positions[i], s.sqrtPrice)
  {
    assert s.positions[i] in s.positions;
    PositionSide(s, s.positions[i]);
  }

  lemma ExactANonNegative(liquidity: nat, lo: int, hi: int)
    requires 0 < lo <= hi
    ensures 0.0 <= ExactA(liquidity, lo, hi)
  {
    RecipDecreasing(lo, hi);
    RealMulMono(0.0, Recip(lo) - Recip(hi), liquidity as real);
  }

  lemma ExactBNonNegative(liquidity: nat, lo: int, hi: int)
    requires lo <= hi
    ensures 0.0 <= ExactB(liquidity, lo, hi)
  {
    RealMulMono(0.0, Span(lo, hi), liquidity as real);
  }

  lemma PrincipalNonNegative(s: Pool, i: int)
    requires WellFormed(s) && 0 <= i < |s.positions|
    ensures 0.0 <= PrincipalTermA(s)(i) && 0.0 <= PrincipalTermB(s)(i)
  {
    var p := s.positions[i];
    assert p in s.positions;
    PriceOrder(s.curve, p.tickLowerIndex, p.tickUpperIndex);
    var lo, hi := SqrtPriceFromTickIndex(s.curve, p.tickLowerIndex), SqrtPriceFromTickIndex(s.curve, p.tickUpperIndex);
    ExactANonNegative(p.liquidity, Clamp(s.sqrtPrice, lo, hi), hi);
    ExactBNonNegative(p.liquidity, lo, Clamp(s.sqrtPrice, lo, hi));
  }

  lemma TotalPrincipalBounds(s: Pool)
    requires WellFormed(s)
    ensures 0.0 <= TotalPrincipalA(s) && 0.0 <= TotalPrincipalB(s)
    ensures forall i | 0 <= i < |s.positions| ::
              PrincipalTermA(s)(i) <= TotalPrincipalA(s) && PrincipalTermB(s)(i) <= TotalPrincipalB(s)
  {
    forall i | 0 <= i < |s.positions| ensures 0.0 <= PrincipalTermA(s)(i) && 0.0 <= PrincipalTermB(s)(i) {
      PrincipalNonNegative(s, i);
    }
    RealSumBoundsTerm(PrincipalTermA(s), |s.positions|);
    RealSumBoundsTerm(PrincipalTermB(s), |s.positions|);
  }

  /** Token amounts of `liquidity` between two ends, with the price already clamped to them. */
  function ClampedDeltas(lo: u128, x: u128, hi: u128, liquidity: u128, roundUp: bool): Result<(u64, u64)>
    requires 0 < lo && 0 < x && 0 < hi
  {
    var a :- GetAmountDeltaA(x, hi, liquidity, roundUp);
    var b :- GetAmountDeltaB(lo, x, liquidity, roundUp);
    Ok((a, b))
  }

  function Magnitude(delta: i128): u128 {
    if delta < 0 then 0 - delta else delta
  }

  /** The three-way token delta is one clamped formula, errors included. */
  lemma TokenDeltasClamp(s: Pool, p: Position, delta: i128)
    requires s.curve.Valid() && WellFormedPosition(p, s.tickSpacing) && 0 < s.sqrtPrice
    requires SideAt(s, p, s.sqrtPrice)
    ensures var lo := SqrtPriceFromTickIndex(s.curve, p.tickLowerIndex);
            var hi := SqrtPriceFromTickIndex(s.curve, p.tickUpperIndex);
            var x := Clamp(s.sqrtPrice, lo, hi);
            && lo <= x <= hi
            && CalculateLiquidityTokenDeltas(s, p, delta)
               == if delta == 0 then Err(LiquidityZero) else ClampedDeltas(lo, x, hi, Magnitude(delta), delta > 0)
  {
    PriceOrder(s.curve, p.tickLowerIndex, p.tickUpperIndex);
    var lo, hi := SqrtPriceFromTickIndex(s.curve, p.tickLowerIndex), SqrtPriceFromTickIndex(s.curve, p.tickUpperIndex);
    NothingBetween(Magnitude(delta), lo, delta > 0);
    NothingBetween(Magnitude(delta), hi, delta > 0);
    hide GetAmountDeltaA, GetAmountDeltaB;
  }

  lemma NothingBetween(liquidity: u128, x: u128, roundUp: bool)
    requires 0 < x
    ensures GetAmountDeltaA(x, x, liquidity, roundUp) == Ok(0) && GetAmountDeltaB(x, x, liquidity, roundUp) == Ok(0)
  {
    EmptySpan(liquidity, x, roundUp);
    assert liquidity * (x - x) * Q64 == 0;
    hide SdkMath.GetTokenAFromLiquidity;
  }

  /**
   * A liquidity change is priced exactly if it is not zero and both rounded amounts fit 64 bits; its price is
   * then the clamped formula, rounded up for deposits and down for withdrawals.
   */
  lemma TokenDeltasAreClamped(s: Pool, p: Position, delta: i128)
    requires s.curve.Valid() && WellFormedPosition(p, s.tickSpacing) && 0 < s.sqrtPrice
    requires SideAt(s, p, s.sqrtPrice)
    ensures var lo := SqrtPriceFromTickIndex(s.curve, p.tickLowerIndex);
            var hi := SqrtPriceFromTickIndex(s.curve, p.tickUpperIndex);
            var x := Clamp(s.sqrtPrice, lo, hi);
            var a := SdkMath.GetTokenAFromLiquidity(Magnitude(delta), x, hi, delta > 0);
            var b := SdkMath.GetTokenBFromLiquidity(Magnitude(delta), lo, x, delta > 0);
            var r := CalculateLiquidityTokenDeltas(s, p, delta);
            && lo <= x <= hi
            && (r.Ok? <==> delta != 0 && a < Q64 && b < Q64)
            && (r.Ok? ==> r.value == (a, b))
  {
    TokenDeltasClamp(s, p, delta);
    var lo, hi := SqrtPriceFromTickIndex(s.curve, p.tickLowerIndex), SqrtPriceFromTickIndex(s.curve, p.tickUpperIndex);
    var x := Clamp(s.sqrtPrice, lo, hi);
    AmountDeltaAAgrees(x, hi, Magnitude(delta), delta > 0);
    AmountDeltaBAgrees(lo, x, Magnitude(delta), delta > 0);
    hide CalculateLiquidityTokenDeltas, GetAmountDeltaA, GetAmountDeltaB,
         SdkMath.GetTokenAFromLiquidity, SdkMath.GetTokenBFromLiquidity;
  }

  /** Deposits cover the exact change of a position's principal; withdrawals stay within it. */
  lemma TokenDeltasCoverPrincipal(s: Pool, p: Position, delta: i128)
    requires s.curve.Valid() && WellFormedPosition(p, s.tickSpacing) && 0 < s.sqrtPrice
    requires SideAt(s, p, s.sqrtPrice)
    requires CalculateLiquidityTokenDeltas(s, p, delta).Ok?
    ensures var lo := SqrtPriceFromTickIndex(s.curve, p.tickLowerIndex);
            var hi := SqrtPriceFromTickIndex(s.curve, p.tickUpperIndex);
            var x := Clamp(s.sqrtPrice, lo, hi);
            var (a, b) := CalculateLiquidityTokenDeltas(s, p, delta).value;
            if delta > 0 then ExactA(delta, x, hi) <= a as real && ExactB(delta, lo, x) <= b as real
            else a as real <= 0.0 - ExactA(delta, x, hi) && b as real <= 0.0 - ExactB(delta, lo, x)
  {
    TokenDeltasAreClamped(s, p, delta);
    var lo, hi := SqrtPriceFromTickIndex(s.curve, p.tickLowerIndex), SqrtPriceFromTickIndex(s.curve, p.tickUpperIndex);
    var x := Clamp(s.sqrtPrice, lo, hi);
    var liquidity := Magnitude(delta);
    RoundedA(liquidity, x, hi);
    RoundedB(liquidity, lo, x);
    ExactNegates(delta, lo, x, hi);
    hide ExactA, ExactB, CalculateLiquidityTokenDeltas;
  }

  lemma ExactNegates(delta: int, lo: int, x: int, hi: int)
    requires 0 < lo && 0 < x && 0 < hi
    ensures ExactA(0 - delta, x, hi) == 0.0 - ExactA(delta, x, hi)
    ensures ExactB(0 - delta, lo, x) == 0.0 - ExactB(delta, lo, x)
  {
    hide Recip;
    assert (0 - delta) as real == 0.0 - delta as real;
  }

  lemma EmptySpan(liquidity: nat, x: int, roundUp: bool)
    requires 0 < x
    ensures SdkMath.GetTokenAFromLiquidity(liquidity, x, x, roundUp) == 0
    ensures SdkMath.GetTokenBFromLiquidity(liquidity, x, x, roundUp) == 0
  {
    assert x * x > 0 && liquidity * (x - x) * Q64 == 0 && liquidity * (x - x) == 0;
    CeilLeast(0, x * x, 0);
    FloorGreatest(0, x * x, 1);
  }

  /** Pools that agree on price and on every position's range and liquidity have the same principal. */
  lemma PrincipalSame(s: Pool, t: Pool)
    requires WellFormed(s) && WellFormed(t)
    requires t.curve == s.curve && t.tickSpacing == s.tickSpacing && t.sqrtPrice == s.sqrtPrice
    requires |t.positions| == |s.positions|
    requires forall i | 0 <= i < |s.positions| ::
               SameStake(s.positions[i], t.positions[i])
    ensures TotalPrincipalA(t) == TotalPrincipalA(s) && TotalPrincipalB(t) == TotalPrincipalB(s)
  {
    forall i | 0 <= i < |s.positions|
      ensures PrincipalTermA(s)(i) == PrincipalTermA(t)(i) && PrincipalTermB(s)(i) == PrincipalTermB(t)(i)
    {
      TermsSame(s, t, i);
    }
    hide PrincipalTermA, PrincipalTermB;
    RealSumEqual(PrincipalTermA(s), PrincipalTermA(t), |s.positions|);
    RealSumEqual(PrincipalTermB(s), PrincipalTermB(t), |s.positions|);
  }

  ghost predicate SameStake(p: Position, q: Position) {
    q.tickLowerIndex == p.tickLowerIndex && q.tickUpperIndex == p.tickUpperIndex && q.liquidity == p.liquidity
  }

  lemma TermsSame(s: Pool, t: Pool, i: nat)
    requires WellFormed(s) && WellFormed(t)
    requires t.curve == s.curve && t.tickSpacing == s.tickSpacing && t.sqrtPrice == s.sqrtPrice
    requires i < |s.positions| && i < |t.positions| && SameStake(s.positions[i], t.positions[i])
    ensures PrincipalTermA(s)(i) == PrincipalTermA(t)(i) && PrincipalTermB(s)(i) == PrincipalTermB(t)(i)
  {
    hide ExactA, ExactB;
    assert s.positions[i] in s.positions && t.positions[i] in t.positions;
  }

  /** Changing one position's liquidity moves the totals by the exact amounts of the change. */
  lemma PrincipalShifts(s: Pool, t: Pool, i: nat, delta: int)
    requires WellFormed(s) && WellFormed(t)
    requires t.curve == s.curve && t.tickSpacing == s.tickSpacing && t.sqrtPrice == s.sqrtPrice
    requires i < |s.positions| == |t.positions|
    requires t.positions == s.positions[i := t.positions[i]]
    requires t.positions[i].tickLowerIndex == s.positions[i].tickLowerIndex
    requires t.positions[i].tickUpperIndex == s.positions[i].tickUpperIndex
    requires t.positions[i].liquidity == s.positions[i].liquidity + delta
    requires WellFormedPosition(s.positions[i], s.tickSpacing)
    ensures var p := s.positions[i];
            var lo := SqrtPriceFromTickIndex(s.curve, p.tickLowerIndex);
            var hi := SqrtPriceFromTickIndex(s.curve, p.tickUpperIndex);
            var x := Clamp(s.sqrtPrice, lo, hi);
            && TotalPrincipalA(t) == TotalPrincipalA(s) + ExactA(delta, x, hi)
            && TotalPrincipalB(t) == TotalPrincipalB(s) + ExactB(delta, lo, x)
  {
    forall j | 0 <= j < |s.positions| && j != i
      ensures PrincipalTermA(s)(j) == PrincipalTermA(t)(j) && PrincipalTermB(s)(j) == PrincipalTermB(t)(j)
    {
      TermsSame(s, t, j);
    }
    TermShifts(s, t, i, delta);
    hide PrincipalTermA, PrincipalTermB, ExactA, ExactB;
    RealSumOneChanged(PrincipalTermA(s), PrincipalTermA(t), |s.positions|, i);
    RealSumOneChanged(PrincipalTermB(s), PrincipalTermB(t), |s.positions|, i);
  }

  lemma TermShifts(s: Pool, t: Pool, i: nat, delta: int)
    requires WellFormed(s) && WellFormed(t)
    requires t.curve == s.curve && t.tickSpacing == s.tickSpacing && t.sqrtPrice == s.sqrtPrice
    requires i < |s.positions| == |t.positions|
    requires t.positions[i].tickLowerIndex == s.positions[i].tickLowerIndex
    requires t.positions[i].tickUpperIndex == s.positions[i].tickUpperIndex
    requires t.positions[i].liquidity == s.positions[i].liquidity + delta
    requires WellFormedPosition(s.positions[i], s.tickSpacing)
    ensures var p := s.positions[i];
            var lo := SqrtPriceFromTickIndex(s.curve, p.tickLowerIndex);
            var hi := SqrtPriceFromTickIndex(s.curve, p.tickUpperIndex);
            var x := Clamp(s.sqrtPrice, lo, hi);
            && PrincipalTermA(t)(i) == PrincipalTermA(s)(i) + ExactA(delta, x, hi)
            && PrincipalTermB(t)(i) == PrincipalTermB(s)(i) + ExactB(delta, lo, x)
  {
    var p := s.positions[i];
    assert p in s.positions && t.positions[i] in t.positions;
    PriceOrder(s.curve, p.tickLowerIndex, p.tickUpperIndex);
    var lo, hi := SqrtPriceFromTickIndex(s.curve, p.tickLowerIndex), SqrtPriceFromTickIndex(s.curve, p.tickUpperIndex);
    ExactAdds(p.liquidity, delta, lo, Clamp(s.sqrtPrice, lo, hi), hi);
    hide ExactA, ExactB;
  }

  lemma ExactAdds(l: int, delta: int, lo: int, x: int, hi: int)
    requires 0 < lo && 0 < x && 0 < hi
    ensures ExactA(l + delta, x, hi) == ExactA(l, x, hi) + ExactA(delta, x, hi)
    ensures ExactB(l + delta, lo, x) == ExactB(l, lo, x) + ExactB(delta, lo, x)
  {
    hide Recip;
    assert (l + delta) as real == l as real + delta as real;
  }
}
