/** The on-chain amount, price and liquidity arithmetic, with its width limits and errors. */
module TokenMath {
  import opened Arithmetic
  import opened Outcome
  import SdkMath

  const MIN_SQRT_PRICE: int := 4295048016
  const MAX_SQRT_PRICE: int := 79226673515401279992447579055

  // ---- bit_math ----

  function CheckedMulDiv(n0: u128, n1: u128, d: u128): Result<u128> {
    if d == 0 then Err(DivideByZero)
    else if n0 * n1 >= Q128 then Err(MulDivOverflow)
    else
      QuotientFits(n0, n1, d);
      Ok(FloorDiv(n0 * n1, d))
  }

  lemma QuotientFits(n0: nat, n1: nat, d: int)
    requires 0 < d
    ensures 0 <= n0 * n1 && FloorDiv(n0 * n1, d) <= n0 * n1
  {
    MulMono(0, n0, n1);
    DivRoundAtMost(n0 * n1, d, false);
  }

  function CheckedMulShiftRight(n0: u128, n1: u128, roundUp: bool): Result<u64> {
    if n0 == 0 || n1 == 0 then Ok(0)
    else if n0 * n1 >= Q128 then Err(MultiplicationShiftRightOverflow)
    else
      var shifted := FloorDiv(n0 * n1, Q64);
      if roundUp && (n0 * n1) % Q64 > 0 then
        if shifted == Q64 - 1 then Err(MultiplicationOverflow) else Ok(shifted + 1)
      else Ok(shifted)
  }

  // ---- liquidity_math ----

  function AddLiquidityDelta(liquidity: u128, delta: i128): Result<u128> {
    if delta >= 0 then
      if liquidity + delta < Q128 then Ok(liquidity + delta) else Err(LiquidityOverflow)
    else
      if liquidity + delta >= 0 then Ok(liquidity + delta) else Err(LiquidityUnderflow)
  }

  function ConvertToLiquidityDelta(amount: u128, positive: bool): Result<i128> {
    if amount >= Q127 then Err(LiquidityTooHigh)
    else Ok(if positive then amount else 0 - amount)
  }

  // ---- token_math ----

  function GetAmountDeltaA(price0: u128, price1: u128, liquidity: u128, roundUp: bool): Result<u64>
    requires 0 < price0 && 0 < price1
  {
    var lo, hi := Min(price0, price1), Max(price0, price1);
    if liquidity * (hi - lo) * Q64 >= Q256 then Err(MultiplicationOverflow)
    else
      var q := SdkMath.GetTokenAFromLiquidity(liquidity, price0, price1, roundUp);
      if q >= Q128 then Err(NumberDownCastError)
      else if q >= Q64 then Err(TokenMaxExceeded)
      else Ok(q)
  }

  function GetAmountDeltaB(price0: u128, price1: u128, liquidity: u128, roundUp: bool): Result<u64> {
    CheckedMulShiftRight(liquidity, Max(price0, price1) - Min(price0, price1), roundUp)
  }

  function GetNextSqrtPriceFromARoundUp(price: u128, liquidity: u128, amount: u64, isInput: bool): Result<u128>
    requires 0 < price
  {
    if amount == 0 then Ok(price)
    else if liquidity * price * Q64 >= Q256 then Err(MultiplicationOverflow)
    else if !isInput && liquidity * Q64 <= price * amount then Err(DivideByZero)
    else
      assert price * amount > 0;
      var next := if isInput then SdkMath.GetLowerSqrtPriceFromTokenA(amount, liquidity, price)
                  else SdkMath.GetUpperSqrtPriceFromTokenA(amount, liquidity, price);
      if next >= Q128 then Err(NumberDownCastError)
      else if next < MIN_SQRT_PRICE then Err(TokenMinSubceeded)
      else if next > MAX_SQRT_PRICE then Err(TokenMaxExceeded)
      else Ok(next)
  }

  function GetNextSqrtPriceFromBRoundDown(price: u128, liquidity: u128, amount: u64, isInput: bool): Result<u128> {
    if liquidity == 0 then Err(DivideByZero)
    else
      var next := if isInput then SdkMath.GetUpperSqrtPriceFromTokenB(amount, liquidity, price)
                  else SdkMath.GetLowerSqrtPriceFromTokenB(amount, liquidity, price);
      if 0 <= next < Q128 then Ok(next) else Err(SqrtPriceOutOfBounds)
  }

  function GetNextSqrtPrice(price: u128, liquidity: u128, amount: u64, isInput: bool, aToB: bool): Result<u128>
    requires 0 < price
  {
    if isInput == aToB then GetNextSqrtPriceFromARoundUp(price, liquidity, amount, isInput)
    else GetNextSqrtPriceFromBRoundDown(price, liquidity, amount, isInput)
  }

  // ---- what successful calls return ----

  function Specified(isInput: bool): SdkMath.AmountSpecified {
    if isInput then SdkMath.Input else SdkMath.Output
  }

  function Direction(aToB: bool): SdkMath.SwapDirection {
    if aToB then SdkMath.AtoB else SdkMath.BtoA
  }

  /** The B amount is computed exactly when its rounded value fits 64 bits: the 128-bit limit is implied. */
  lemma AmountDeltaBAgrees(price0: u128, price1: u128, liquidity: u128, roundUp: bool)
    ensures var r := GetAmountDeltaB(price0, price1, liquidity, roundUp);
            var q := SdkMath.GetTokenBFromLiquidity(liquidity, price0, price1, roundUp);
            && (r.Ok? ==> r.value == q)
            && (r.Ok? <==> q < Q64)
  {
    var n := liquidity * (Max(price0, price1) - Min(price0, price1));
    if liquidity == 0 || price0 == price1 {
      assert n == 0;
      assert DivRound(0, Q64, roundUp) == 0;
    } else {
      assert n == Q64 * (n / Q64) + n % Q64;
    }
  }

  /** Below the greatest price the same holds for A: the 256-bit limit is implied too. */
  lemma AmountDeltaAAgrees(price0: u128, price1: u128, liquidity: u128, roundUp: bool)
    requires 0 < price0 <= MAX_SQRT_PRICE && 0 < price1 <= MAX_SQRT_PRICE
    ensures var r := GetAmountDeltaA(price0, price1, liquidity, roundUp);
            var q := SdkMath.GetTokenAFromLiquidity(liquidity, price0, price1, roundUp);
            && (r.Ok? ==> r.value == q)
            && (r.Ok? <==> q < Q64)
  {
    var lo, hi := Min(price0, price1), Max(price0, price1);
    var n, d, q := liquidity * (hi - lo) * Q64, hi * lo, SdkMath.GetTokenAFromLiquidity(liquidity, price0, price1, roundUp);
    PriceProduct(lo, hi);
    MulMono(0, liquidity, hi - lo);
    if q < Q64 { MulMono(q + 1, Q64, d); OneMore(q, d); }
  }

  lemma OneMore(q: int, d: int)
    ensures (q + 1) * d == q * d + d
  {
  }

  lemma PriceProduct(lo: int, hi: int)
    requires 0 < lo <= hi <= MAX_SQRT_PRICE
    ensures 0 < hi * lo && Q64 * (hi * lo) < Q256
  {
    MulMono(lo, MAX_SQRT_PRICE, hi);
    MulMono(hi, MAX_SQRT_PRICE, MAX_SQRT_PRICE);
  }

  /**
   * A successful next price, whichever branch gave it, is the client formula's: also the early
   * return for a zero amount, whose formula rounds back to the price itself.
   */
  lemma NextPriceAgrees(price: u128, liquidity: u128, amount: u64, isInput: bool, aToB: bool)
    requires 0 < price && 0 < liquidity
    requires GetNextSqrtPrice(price, liquidity, amount, isInput, aToB).Ok?
    ensures SdkMath.NextPriceDefined(price, liquidity, amount, Specified(isInput), Direction(aToB))
    ensures GetNextSqrtPrice(price, liquidity, amount, isInput, aToB).value
         == SdkMath.GetNextSqrtPrice(price, liquidity, amount, Specified(isInput), Direction(aToB))
  {
    if isInput == aToB {
      if amount == 0 { NoAmountNoMove(price, liquidity); } else { AmountMoves(price, amount); }
    }
  }

  lemma AmountMoves(price: nat, amount: nat)
    requires 0 < price && 0 < amount
    ensures amount * price == price * amount > 0
  {
  }

  lemma NoAmountNoMove(price: nat, liquidity: nat)
    requires 0 < price && 0 < liquidity
    ensures SdkMath.GetLowerSqrtPriceFromTokenA(0, liquidity, price) == price
    ensures SdkMath.GetUpperSqrtPriceFromTokenA(0, liquidity, price) == price
  {
    CeilOfMultiple(price, liquidity * Q64);
    SdkMath.ScaledFirst(liquidity, price);
    assert 0 * price == 0 && (liquidity * Q64) * price == price * (liquidity * Q64);
  }

  lemma CeilOfMultiple(x: nat, d: int)
    requires d > 0
    ensures x * d >= 0 && CeilDiv(x * d, d) == x
  {
    CeilLeast(x * d, d, x);
    assert (x - 1) * d == x * d - d;
    if x > 0 { CeilLeast(x * d, d, x - 1); }
  }
}

/** Exact curve amounts over the reals, and how rounding relates to them. */
module CurveAmounts {
  import opened Arithmetic
  import SdkMath

  /** Reserve of A per unit of liquidity below a price going to infinity. */
  ghost function Recip(price: int): real
    requires 0 < price
  {
    Q64 as real / price as real
  }

  ghost function ExactA(liquidity: int, lo: int, hi: int): real
    requires 0 < lo && 0 < hi
  {
    liquidity as real * (Recip(lo) - Recip(hi))
  }

  /** Reserve of B per unit of liquidity between two prices. */
  ghost function Span(lo: int, hi: int): real {
    (hi - lo) as real / Q64 as real
  }

  ghost function ExactB(liquidity: int, lo: int, hi: int): real {
    liquidity as real * Span(lo, hi)
  }

  lemma RecipMul(price: int)
    requires 0 < price
    ensures Recip(price) * price as real == Q64 as real
    ensures Recip(price) > 0.0
  {
  }

  lemma RecipDecreasing(lo: int, hi: int)
    requires 0 < lo <= hi
    ensures Recip(hi) <= Recip(lo)
  {
    RecipMul(lo);
    RecipMul(hi);
    if Recip(hi) > Recip(lo) {
      RealMulStrict(Recip(lo), Recip(hi), lo as real);
      RealMulMono(lo as real, hi as real, Recip(hi));
    }
  }

  lemma RealMulMono(x: real, y: real, z: real)
    requires x <= y && 0.0 <= z
    ensures x * z <= y * z
  {
  }

  lemma RealMulStrict(x: real, y: real, z: real)
    requires x < y && 0.0 < z
    ensures x * z < y * z
  {
  }

  /** `exact` is the unrounded quotient of `n` by `d`. */
  ghost predicate IsQuotient(exact: real, n: int, d: int) {
    exact * d as real == n as real
  }

  lemma ExactAScaled(liquidity: int, lo: int, hi: int)
    requires 0 < lo && 0 < hi
    ensures 0 < hi * lo && IsQuotient(ExactA(liquidity, lo, hi), liquidity * (hi - lo) * Q64, hi * lo)
  {
    RecipMul(lo);
    RecipMul(hi);
    var l, x, y, rx, ry := liquidity as real, lo as real, hi as real, Recip(lo), Recip(hi);
    assert (hi * lo) as real == y * x;
    assert (liquidity * (hi - lo) * Q64) as real == l * (y - x) * Q64 as real;
    calc {
      l * (rx - ry) * (y * x);
      l * ((rx * x) * y - (ry * y) * x);
      l * (Q64 as real * y - Q64 as real * x);
    }
  }

  /** Rounding up never asks for less than the exact amount; rounding down never pays more. */
  lemma RoundedA(liquidity: nat, lo: int, hi: int)
    requires 0 < lo <= hi
    ensures SdkMath.GetTokenAFromLiquidity(liquidity, lo, hi, false) as real <= ExactA(liquidity, lo, hi)
    ensures ExactA(liquidity, lo, hi) <= SdkMath.GetTokenAFromLiquidity(liquidity, lo, hi, true) as real
    ensures SdkMath.GetTokenAFromLiquidity(liquidity, hi, lo, false) as real <= ExactA(liquidity, lo, hi)
    ensures ExactA(liquidity, lo, hi) <= SdkMath.GetTokenAFromLiquidity(liquidity, hi, lo, true) as real
  {
    SdkMath.TokenAIs(liquidity, lo, hi, false);
    SdkMath.TokenAIs(liquidity, lo, hi, true);
    ExactAScaled(liquidity, lo, hi);
    hide ExactA, SdkMath.GetTokenAFromLiquidity, IsQuotient;
    RoundedQuotient(liquidity * (hi - lo) * Q64, hi * lo, ExactA(liquidity, lo, hi));
  }

  lemma RealMulCancel(x: real, y: real, z: real)
    requires x * z <= y * z && 0.0 < z
    ensures x <= y
  {
    if y < x { RealMulStrict(y, x, z); }
  }

  lemma RoundedQuotient(n: nat, d: int, exact: real)
    requires 0 < d && IsQuotient(exact, n, d)
    ensures FloorDiv(n, d) as real <= exact
    ensures exact <= CeilDiv(n, d) as real
  {
    FloorBelow(FloorDiv(n, d), n, d, exact);
    CeilAbove(CeilDiv(n, d), n, d, exact);
  }

  /** Rounding moves the exact amount by less than one token, in either direction. */
  lemma RoundedATightly(liquidity: nat, lo: int, hi: int)
    requires 0 < lo <= hi
    ensures var exact := ExactA(liquidity, lo, hi);
            && exact < SdkMath.GetTokenAFromLiquidity(liquidity, lo, hi, false) as real + 1.0
            && SdkMath.GetTokenAFromLiquidity(liquidity, lo, hi, true) as real - 1.0 < exact
            && exact < SdkMath.GetTokenAFromLiquidity(liquidity, hi, lo, false) as real + 1.0
            && SdkMath.GetTokenAFromLiquidity(liquidity, hi, lo, true) as real - 1.0 < exact
  {
    SdkMath.TokenAIs(liquidity, lo, hi, false);
    SdkMath.TokenAIs(liquidity, lo, hi, true);
    ExactAScaled(liquidity, lo, hi);
    hide ExactA, SdkMath.GetTokenAFromLiquidity, IsQuotient;
    TightQuotient(liquidity * (hi - lo) * Q64, hi * lo, ExactA(liquidity, lo, hi));
  }

  lemma RoundedBTightly(liquidity: nat, lo: int, hi: int)
    requires 0 <= lo <= hi
    ensures var exact := ExactB(liquidity, lo, hi);
            && exact < SdkMath.GetTokenBFromLiquidity(liquidity, lo, hi, false) as real + 1.0
            && SdkMath.GetTokenBFromLiquidity(liquidity, lo, hi, true) as real - 1.0 < exact
            && exact < SdkMath.GetTokenBFromLiquidity(liquidity, hi, lo, false) as real + 1.0
            && SdkMath.GetTokenBFromLiquidity(liquidity, hi, lo, true) as real - 1.0 < exact
  {
    SdkMath.TokenBIs(liquidity, lo, hi, false);
    SdkMath.TokenBIs(liquidity, lo, hi, true);
    ExactBScaled(liquidity, lo, hi);
    hide ExactB, SdkMath.GetTokenBFromLiquidity, IsQuotient;
    TightQuotient(liquidity * (hi - lo), Q64, ExactB(liquidity, lo, hi));
  }

  lemma TightQuotient(n: nat, d: int, exact: real)
    requires 0 < d && IsQuotient(exact, n, d)
    ensures exact < FloorDiv(n, d) as real + 1.0
    ensures CeilDiv(n, d) as real - 1.0 < exact
  {
    assert (FloorDiv(n, d) + 1) * d == FloorDiv(n, d) * d + d;
    assert (CeilDiv(n, d) - 1) * d == CeilDiv(n, d) * d - d;
    StrictAbove(FloorDiv(n, d) + 1, n, d, exact);
    StrictBelow(CeilDiv(n, d) - 1, n, d, exact);
  }

  lemma StrictAbove(q: int, n: int, d: int, exact: real)
    requires 0 < d && n < q * d && IsQuotient(exact, n, d)
    ensures exact < q as real
  {
    assert (q * d) as real == q as real * d as real;
    if q as real <= exact { RealMulMono(q as real, exact, d as real); }
  }

  lemma StrictBelow(q: int, n: int, d: int, exact: real)
    requires 0 < d && q * d < n && IsQuotient(exact, n, d)
    ensures q as real < exact
  {
    assert (q * d) as real == q as real * d as real;
    if exact <= q as real { RealMulMono(exact, q as real, d as real); }
  }

  lemma FloorBelow(q: int, n: int, d: int, exact: real)
    requires 0 < d && q * d <= n && IsQuotient(exact, n, d)
    ensures q as real <= exact
  {
    assert (q * d) as real == q as real * d as real;
    RealMulCancel(q as real, exact, d as real);
  }

  lemma CeilAbove(q: int, n: int, d: int, exact: real)
    requires 0 < d && n <= q * d && IsQuotient(exact, n, d)
    ensures exact <= q as real
  {
    assert (q * d) as real == q as real * d as real;
    RealMulCancel(exact, q as real, d as real);
  }

  lemma RoundedB(liquidity: nat, lo: int, hi: int)
    requires 0 <= lo <= hi
    ensures SdkMath.GetTokenBFromLiquidity(liquidity, lo, hi, false) as real <= ExactB(liquidity, lo, hi)
    ensures ExactB(liquidity, lo, hi) <= SdkMath.GetTokenBFromLiquidity(liquidity, lo, hi, true) as real
    ensures SdkMath.GetTokenBFromLiquidity(liquidity, hi, lo, false) as real <= ExactB(liquidity, lo, hi)
    ensures ExactB(liquidity, lo, hi) <= SdkMath.GetTokenBFromLiquidity(liquidity, hi, lo, true) as real
  {
    SdkMath.TokenBIs(liquidity, lo, hi, false);
    SdkMath.TokenBIs(liquidity, lo, hi, true);
    ExactBScaled(liquidity, lo, hi);
    hide ExactB, SdkMath.GetTokenBFromLiquidity, IsQuotient;
    RoundedQuotient(liquidity * (hi - lo), Q64, ExactB(liquidity, lo, hi));
  }

  lemma ExactBScaled(liquidity: int, lo: int, hi: int)
    ensures IsQuotient(ExactB(liquidity, lo, hi), liquidity * (hi - lo), Q64)
  {
    assert (liquidity * (hi - lo)) as real == liquidity as real * (hi - lo) as real;
  }
}
