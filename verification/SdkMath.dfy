/** The client library's price and amount formulas, over unbounded integers. */
module SdkMath {
  import opened Arithmetic

  datatype AmountSpecified = Input | Output
  datatype SwapDirection = AtoB | BtoA

  // ---- swap-utils: the next square-root price ----

  function GetLowerSqrtPriceFromTokenA(amount: nat, liquidity: nat, sqrtPrice: nat): nat
    requires liquidity * Q64 + amount * sqrtPrice > 0
  {
    CeilDiv(liquidity * sqrtPrice * Q64, liquidity * Q64 + amount * sqrtPrice)
  }

  function GetUpperSqrtPriceFromTokenA(amount: nat, liquidity: nat, sqrtPrice: nat): nat
    requires liquidity * Q64 - amount * sqrtPrice > 0
  {
    CeilDiv(liquidity * sqrtPrice * Q64, liquidity * Q64 - amount * sqrtPrice)
  }

  /** May be negative: the formula itself does not stop at zero. */
  function GetLowerSqrtPriceFromTokenB(amount: nat, liquidity: nat, sqrtPrice: nat): int
    requires liquidity > 0
  {
    sqrtPrice - CeilDiv(amount * Q64, liquidity)
  }

  function GetUpperSqrtPriceFromTokenB(amount: nat, liquidity: nat, sqrtPrice: nat): nat
    requires liquidity > 0
  {
    sqrtPrice + FloorDiv(amount * Q64, liquidity)
  }

  /** The four-way choice divides by something positive. */
  predicate NextPriceDefined(sqrtPrice: nat, liquidity: nat, amount: nat,
                             specified: AmountSpecified, direction: SwapDirection)
  {
    match (specified, direction)
    case (Input, AtoB) => liquidity * Q64 + amount * sqrtPrice > 0
    case (Output, BtoA) => liquidity * Q64 - amount * sqrtPrice > 0
    case _ => liquidity > 0
  }

  function GetNextSqrtPrice(sqrtPrice: nat, liquidity: nat, amount: nat,
                            specified: AmountSpecified, direction: SwapDirection): int
    requires NextPriceDefined(sqrtPrice, liquidity, amount, specified, direction)
  {
    match (specified, direction)
    case (Input, AtoB) => GetLowerSqrtPriceFromTokenA(amount, liquidity, sqrtPrice)
    case (Output, BtoA) => GetUpperSqrtPriceFromTokenA(amount, liquidity, sqrtPrice)
    case (Input, BtoA) => GetUpperSqrtPriceFromTokenB(amount, liquidity, sqrtPrice)
    case (Output, AtoB) => GetLowerSqrtPriceFromTokenB(amount, liquidity, sqrtPrice)
  }

  // ---- position-util: amounts between two prices ----

  function GetTokenAFromLiquidity(liquidity: nat, price0: nat, price1: nat, roundUp: bool): nat
    requires 0 < price0 && 0 < price1
  {
    var lo, hi := Min(price0, price1), Max(price0, price1);
    assert hi * lo > 0;
    DivRound(liquidity * (hi - lo) * Q64, hi * lo, roundUp)
  }

  function GetTokenBFromLiquidity(liquidity: nat, price0: nat, price1: nat, roundUp: bool): nat {
    var lo, hi := Min(price0, price1), Max(price0, price1);
    DivRound(liquidity * (hi - lo), Q64, roundUp)
  }

  function GetAmountFixedDelta(current: nat, target: nat, liquidity: nat,
                               specified: AmountSpecified, direction: SwapDirection): nat
    requires 0 < current && 0 < target
  {
    if specified.Input? == direction.AtoB? then
      GetTokenAFromLiquidity(liquidity, current, target, specified.Input?)
    else
      GetTokenBFromLiquidity(liquidity, current, target, specified.Input?)
  }

  function GetAmountUnfixedDelta(current: nat, target: nat, liquidity: nat,
                                 specified: AmountSpecified, direction: SwapDirection): nat
    requires 0 < current && 0 < target
  {
    if specified.Input? == direction.AtoB? then
      GetTokenBFromLiquidity(liquidity, current, target, specified.Output?)
    else
      GetTokenAFromLiquidity(liquidity, current, target, specified.Output?)
  }

  // ---- position-util: liquidity from a token budget ----

  function GetLiquidityFromTokenA(amount: nat, lower: nat, upper: nat, roundUp: bool): nat
    requires lower < upper
  {
    DivRound(FloorDiv(amount * lower * upper, upper - lower), Q64, roundUp)
  }

  function GetLiquidityFromTokenB(amount: nat, lower: nat, upper: nat, roundUp: bool): nat
    requires lower < upper
  {
    DivRound(amount * Q64, upper - lower, roundUp)
  }

  /** The rounded-down quote is exactly the greatest liquidity whose rounded-up deposit fits the budget. */
  lemma LiquidityFromTokenAIsOptimal(amount: nat, lower: nat, upper: nat, liquidity: nat)
    requires 0 < lower < upper
    ensures GetTokenAFromLiquidity(liquidity, lower, upper, true) <= amount
       <==> liquidity <= GetLiquidityFromTokenA(amount, lower, upper, false)
  {
    var d := upper - lower;
    var n := liquidity * d * Q64;
    CeilLeast(n, upper * lower, amount);
    assert n == (liquidity * Q64) * d;
    assert amount * (upper * lower) == amount * lower * upper;
    FloorGreatest(amount * lower * upper, d, liquidity * Q64);
    FloorGreatest(FloorDiv(amount * lower * upper, d), Q64, liquidity);
  }

  lemma LiquidityFromTokenBIsOptimal(amount: nat, lower: nat, upper: nat, liquidity: nat)
    requires lower < upper
    ensures GetTokenBFromLiquidity(liquidity, lower, upper, true) <= amount
       <==> liquidity <= GetLiquidityFromTokenB(amount, lower, upper, false)
  {
    var d := upper - lower;
    CeilLeast(liquidity * d, Q64, amount);
    FloorGreatest(amount * Q64, d, liquidity);
  }

  /** The rounded-up quote of B is the least liquidity whose rounded-down worth covers the amount. */
  lemma LiquidityToCoverTokenBIsLeast(amount: nat, lower: nat, upper: nat, liquidity: nat)
    requires lower < upper
    ensures amount <= GetTokenBFromLiquidity(liquidity, lower, upper, false)
       <==> GetLiquidityFromTokenB(amount, lower, upper, true) <= liquidity
  {
    var d := upper - lower;
    FloorGreatest(liquidity * d, Q64, amount);
    CeilLeast(amount * Q64, d, liquidity);
  }

  /**
   * The rounded-up quote of A takes the ceiling of a floor, which is the least such liquidity or one short of it:
   * what covers the amount is at least the quote, one more than the quote always covers it, and the
   * quote itself does exactly if its product does.
   */
  lemma LiquidityToCoverTokenAIsNear(amount: nat, lower: nat, upper: nat, liquidity: nat)
    requires 0 < lower < upper
    ensures var quote := GetLiquidityFromTokenA(amount, lower, upper, true);
            var covers := amount <= GetTokenAFromLiquidity(liquidity, lower, upper, false);
            && (covers ==> quote <= liquidity)
            && (quote < liquidity ==> covers)
            && (liquidity == quote ==> (covers <==> amount * (upper * lower) <= (quote * Q64) * (upper - lower)))
  {
    ReleasedA(liquidity, lower, upper, amount);
    ReorderProduct(amount, lower, upper);
    hide GetTokenAFromLiquidity;
    CeilOfFloorIsNear(amount * lower * upper, upper - lower, liquidity);
  }

  lemma ReorderProduct(amount: nat, lower: nat, upper: nat)
    ensures amount * (upper * lower) == amount * lower * upper
  {
  }

  /** The ceiling of the floor of `n / d` over 2^64 is the least multiple of 2^64 that covers `n / d`, or one short of it. */
  lemma CeilOfFloorIsNear(n: nat, d: int, m: nat)
    requires d > 0
    ensures var quote := CeilDiv(FloorDiv(n, d), Q64);
            && (n <= (m * Q64) * d ==> quote <= m)
            && (quote < m ==> n <= (m * Q64) * d)
  {
    var floor := FloorDiv(n, d);
    FloorIsNear(n, d, m * Q64);
    CeilLeast(floor, Q64, m);
    CeilLeast(floor, Q64, m - 1);
    hide FloorDiv, CeilDiv;
  }

  lemma FloorIsNear(n: nat, d: int, m: int)
    requires d > 0
    ensures n <= m * d ==> FloorDiv(n, d) <= m
    ensures FloorDiv(n, d) < m ==> n <= m * d
  {
    var floor := FloorDiv(n, d);
    hide FloorDiv;
    if m < floor { MulMono(m + 1, floor, d); OneFurther(m, d); }
    if floor < m { MulMono(floor + 1, m, d); OneFurther(floor, d); }
  }

  lemma OneFurther(m: int, d: int)
    ensures (m + 1) * d == m * d + d
  {
  }

  // ---- what the next price means ----

  /** The amounts do not depend on the order of the prices. */
  lemma TokenAIs(liquidity: nat, lo: nat, hi: nat, roundUp: bool)
    requires 0 < lo <= hi
    ensures 0 < hi * lo && 0 <= liquidity * (hi - lo) * Q64
    ensures GetTokenAFromLiquidity(liquidity, lo, hi, roundUp) == DivRound(liquidity * (hi - lo) * Q64, hi * lo, roundUp)
    ensures GetTokenAFromLiquidity(liquidity, hi, lo, roundUp) == DivRound(liquidity * (hi - lo) * Q64, hi * lo, roundUp)
  {
    assert Min(lo, hi) == Min(hi, lo) == lo && Max(lo, hi) == Max(hi, lo) == hi;
    MulMono(0, liquidity, hi - lo);
    hide DivRound;
  }

  lemma TokenBIs(liquidity: nat, lo: nat, hi: nat, roundUp: bool)
    requires lo <= hi
    ensures 0 <= liquidity * (hi - lo)
    ensures GetTokenBFromLiquidity(liquidity, lo, hi, roundUp) == DivRound(liquidity * (hi - lo), Q64, roundUp)
    ensures GetTokenBFromLiquidity(liquidity, hi, lo, roundUp) == DivRound(liquidity * (hi - lo), Q64, roundUp)
  {
    assert Min(lo, hi) == Min(hi, lo) == lo && Max(lo, hi) == Max(hi, lo) == hi;
    MulMono(0, liquidity, hi - lo);
    hide DivRound;
  }

  /** A rounded-up charge fits an amount exactly if the unrounded product does; likewise for releases. */
  lemma ChargedA(liquidity: nat, lo: nat, hi: nat, amount: int)
    requires 0 < lo <= hi
    ensures var charge := GetTokenAFromLiquidity(liquidity, hi, lo, true);
            charge <= amount <==> (liquidity * Q64) * (hi - lo) <= amount * (hi * lo)
  {
    TokenAIs(liquidity, lo, hi, true);
    hide GetTokenAFromLiquidity;
    ScaledFirst(liquidity, hi - lo);
    CeilLeast(liquidity * (hi - lo) * Q64, hi * lo, amount);
  }

  lemma ReleasedA(liquidity: nat, lo: nat, hi: nat, amount: int)
    requires 0 < lo <= hi
    ensures var release := GetTokenAFromLiquidity(liquidity, lo, hi, false);
            amount <= release <==> amount * (hi * lo) <= (liquidity * Q64) * (hi - lo)
  {
    TokenAIs(liquidity, lo, hi, false);
    hide GetTokenAFromLiquidity;
    ScaledFirst(liquidity, hi - lo);
    FloorGreatest(liquidity * (hi - lo) * Q64, hi * lo, amount);
  }

  lemma ScaledFirst(liquidity: int, distance: int)
    ensures liquidity * distance * Q64 == (liquidity * Q64) * distance
  {
  }

  lemma ChargedB(liquidity: nat, lo: nat, hi: nat, amount: int)
    requires lo <= hi
    ensures GetTokenBFromLiquidity(liquidity, lo, hi, true) <= amount <==> liquidity * (hi - lo) <= amount * Q64
  {
    TokenBIs(liquidity, lo, hi, true);
    hide GetTokenBFromLiquidity;
    CeilLeast(liquidity * (hi - lo), Q64, amount);
  }

  lemma ReleasedB(liquidity: nat, lo: nat, hi: nat, amount: int)
    requires lo <= hi
    ensures amount <= GetTokenBFromLiquidity(liquidity, hi, lo, false) <==> amount * Q64 <= liquidity * (hi - lo)
  {
    TokenBIs(liquidity, lo, hi, false);
    hide GetTokenBFromLiquidity;
    FloorGreatest(liquidity * (hi - lo), Q64, amount);
  }

  lemma LowerPriceFromA(amount: nat, liquidity: nat, p: nat, r: nat)
    requires 0 < r <= p && 0 < liquidity
    ensures liquidity * Q64 + amount * p > 0
    ensures GetTokenAFromLiquidity(liquidity, p, r, true) <= amount
       <==> GetLowerSqrtPriceFromTokenA(amount, liquidity, p) <= r
  {
    ChargedA(liquidity, r, p, amount);
    LowerPriceLeast(amount, liquidity, p, r);
    PriceAlgebra(liquidity * Q64, amount, p, r);
    hide GetTokenAFromLiquidity, GetLowerSqrtPriceFromTokenA;
  }

  lemma LowerPriceLeast(amount: nat, liquidity: nat, p: nat, r: nat)
    requires 0 < p && 0 < liquidity
    ensures liquidity * Q64 + amount * p > 0
    ensures GetLowerSqrtPriceFromTokenA(amount, liquidity, p) <= r
       <==> p * (liquidity * Q64) <= r * (liquidity * Q64 + amount * p)
  {
    assert amount * p >= 0 && liquidity * p * Q64 == p * (liquidity * Q64);
    CeilLeast(p * (liquidity * Q64), liquidity * Q64 + amount * p, r);
  }

  lemma UpperPriceFromA(amount: nat, liquidity: nat, p: nat, r: nat)
    requires 0 < p <= r && liquidity * Q64 - amount * p > 0
    ensures GetTokenAFromLiquidity(liquidity, p, r, false) >= amount
       <==> GetUpperSqrtPriceFromTokenA(amount, liquidity, p) <= r
  {
    ReleasedA(liquidity, p, r, amount);
    UpperPriceLeast(amount, liquidity, p, r);
    PriceAlgebra(liquidity * Q64, amount, p, r);
    hide GetTokenAFromLiquidity, GetUpperSqrtPriceFromTokenA;
  }

  lemma UpperPriceLeast(amount: nat, liquidity: nat, p: nat, r: int)
    requires 0 < p && liquidity * Q64 - amount * p > 0
    ensures GetUpperSqrtPriceFromTokenA(amount, liquidity, p) <= r
       <==> p * (liquidity * Q64) <= r * (liquidity * Q64 - amount * p)
  {
    assert liquidity * p * Q64 == p * (liquidity * Q64);
    CeilLeast(p * (liquidity * Q64), liquidity * Q64 - amount * p, r);
  }

  lemma PriceAlgebra(x: int, amount: int, p: int, r: int)
    ensures x * (p - r) == p * x - r * x
    ensures x * (r - p) == r * x - p * x
    ensures r * (x + amount * p) == r * x + amount * (p * r)
    ensures r * (x - amount * p) == r * x - amount * (r * p)
  {
    assert r * (amount * p) == amount * (p * r) == amount * (r * p);
  }

  lemma UpperPriceFromB(amount: nat, liquidity: nat, p: nat, r: nat)
    requires 0 < liquidity && p <= r
    ensures GetTokenBFromLiquidity(liquidity, p, r, true) <= amount
       <==> r <= GetUpperSqrtPriceFromTokenB(amount, liquidity, p)
  {
    ChargedB(liquidity, p, r, amount);
    FloorGreatest(amount * Q64, liquidity, r - p);
    hide GetTokenBFromLiquidity;
    assert (r - p) * liquidity == liquidity * (r - p);
  }

  lemma LowerPriceFromB(amount: nat, liquidity: nat, p: nat, r: nat)
    requires 0 < liquidity && r <= p
    ensures GetTokenBFromLiquidity(liquidity, p, r, false) >= amount
       <==> r <= GetLowerSqrtPriceFromTokenB(amount, liquidity, p)
  {
    ReleasedB(liquidity, r, p, amount);
    CeilLeast(amount * Q64, liquidity, p - r);
    hide GetTokenBFromLiquidity;
    assert (p - r) * liquidity == liquidity * (p - r);
  }

  /** `r` lies on the way from `p`, in the direction of the swap. */
  predicate OnTheWay(p: int, r: int, direction: SwapDirection) {
    if direction.AtoB? then r <= p else p <= r
  }

  /**
   * The next price is optimal in all four cases. For exact input it is the furthest price whose
   * charge fits the amount; for exact output, the nearest whose release covers it.
   */
  lemma NextPriceIsOptimal(p: nat, liquidity: nat, amount: nat, specified: AmountSpecified, direction: SwapDirection,
                           r: nat)
    requires 0 < p && 0 < liquidity && 0 < r && OnTheWay(p, r, direction)
    requires NextPriceDefined(p, liquidity, amount, specified, direction)
    ensures var q := GetNextSqrtPrice(p, liquidity, amount, specified, direction);
            var delta := GetAmountFixedDelta(p, r, liquidity, specified, direction);
            if specified.Input? then delta <= amount <==> OnTheWay(r, q, direction)
            else amount <= delta <==> OnTheWay(q, r, direction)
  {
    match (specified, direction)
    case (Input, AtoB) => LowerPriceFromA(amount, liquidity, p, r);
    case (Output, BtoA) => UpperPriceFromA(amount, liquidity, p, r);
    case (Input, BtoA) => UpperPriceFromB(amount, liquidity, p, r);
    case (Output, AtoB) => LowerPriceFromB(amount, liquidity, p, r);
  }

  /** The next price never lies behind the current one. */
  lemma NextPriceMovesOn(p: nat, liquidity: nat, amount: nat, specified: AmountSpecified, direction: SwapDirection)
    requires 0 < p && 0 < liquidity && NextPriceDefined(p, liquidity, amount, specified, direction)
    ensures OnTheWay(p, GetNextSqrtPrice(p, liquidity, amount, specified, direction), direction)
  {
    match (specified, direction)
    case (Input, AtoB) =>
      NoDistanceNoAmount(p, liquidity);
      LowerPriceFromA(amount, liquidity, p, p);
    case (Output, BtoA) => UpperPriceAhead(amount, liquidity, p);
    case _ =>
  }

  lemma UpperPriceAhead(amount: nat, liquidity: nat, p: nat)
    requires 0 < p && liquidity * Q64 - amount * p > 0
    ensures p <= GetUpperSqrtPriceFromTokenA(amount, liquidity, p)
  {
    var x := liquidity * Q64;
    var d := x - amount * p;
    UpperPriceLeast(amount, liquidity, p, p - 1);
    hide GetUpperSqrtPriceFromTokenA;
    assert (p - 1) * d < p * x by {
      assert 0 <= p * (amount * p);
      assert p * d == p * x - p * (amount * p) && (p - 1) * d == p * d - d;
    }
  }

  lemma NoDistanceNoAmount(p: nat, liquidity: nat)
    requires 0 < p
    ensures GetTokenAFromLiquidity(liquidity, p, p, true) == 0
  {
    assert liquidity * (p - p) * Q64 == 0 && p * p > 0;
    CeilLeast(0, p * p, 0);
  }

  /**
   * Rounding the next price gives away less than one token: the slack it leaves in the amount
   * formula is below one token's worth. `FineGuards` gives guards that need no price formula.
   */
  predicate FineGrained(p: nat, liquidity: nat, amount: nat, specified: AmountSpecified, direction: SwapDirection)
    requires 0 < liquidity && NextPriceDefined(p, liquidity, amount, specified, direction)
  {
    match (specified, direction)
    case (Input, AtoB) =>
      RoundUpSlack(liquidity * p * Q64, liquidity * Q64 + amount * p)
      < p * GetLowerSqrtPriceFromTokenA(amount, liquidity, p)
    case (Output, BtoA) =>
      RoundUpSlack(liquidity * p * Q64, liquidity * Q64 - amount * p)
      < p * GetUpperSqrtPriceFromTokenA(amount, liquidity, p)
    case (Input, BtoA) => amount * Q64 % liquidity < Q64
    case (Output, AtoB) => RoundUpSlack(amount * Q64, liquidity) < Q64
  }

  /** What rounding a quotient up adds to the dividend. */
  function RoundUpSlack(n: nat, d: int): nat
    requires d > 0
  {
    CeilDiv(n, d) * d - n
  }

  /**
   * Guards on price, liquidity and amount that make the price fine-grained: for B, liquidity of at most 2^64; for A taken
   * out, liquidity of at most price^2 / 2^64; for A put in, the same with the reserve after the amount.
   */
  lemma FineGuards(p: nat, liquidity: nat, amount: nat, specified: AmountSpecified, direction: SwapDirection)
    requires 0 < p && 0 < liquidity && NextPriceDefined(p, liquidity, amount, specified, direction)
    requires match (specified, direction)
             case (Input, AtoB) =>
               (liquidity * Q64 + amount * p) * (liquidity * Q64 + amount * p) <= p * (p * (liquidity * Q64))
             case (Output, BtoA) => liquidity * Q64 <= p * p
             case _ => liquidity <= Q64
    ensures FineGrained(p, liquidity, amount, specified, direction)
  {
    match (specified, direction)
    case (Input, AtoB) => FineGuardIn(p, liquidity, amount);
    case (Output, BtoA) => FineGuardOut(p, liquidity, amount);
    case _ =>
  }

  lemma FineGuardIn(p: nat, liquidity: nat, amount: nat)
    requires 0 < p && 0 < liquidity && 0 < liquidity * Q64 + amount * p
    requires (liquidity * Q64 + amount * p) * (liquidity * Q64 + amount * p) <= p * (p * (liquidity * Q64))
    ensures FineGrained(p, liquidity, amount, Input, AtoB)
  {
    var d, q := liquidity * Q64 + amount * p, GetLowerSqrtPriceFromTokenA(amount, liquidity, p);
    ScaledFirst(liquidity, p);
    LowerPriceLeast(amount, liquidity, p, q);
    var n := p * (liquidity * Q64);
    assert RoundUpSlack(liquidity * p * Q64, d) < d;
    hide GetLowerSqrtPriceFromTokenA, RoundUpSlack;
    ProductCovers(p, q, d, n);
  }

  lemma ProductCovers(p: nat, q: nat, d: nat, n: nat)
    requires 0 < d && n <= q * d && d * d <= p * n
    ensures d <= p * q
  {
    MulMono(n, q * d, p);
    assert (q * d) * p == (p * q) * d && n * p == p * n;
    assert d * d <= (p * q) * d;
    assert d * d < (p * q + 1) * d;
    MulCancel(d, p * q + 1, d);
  }

  lemma FineGuardOut(p: nat, liquidity: nat, amount: nat)
    requires 0 < p && 0 < liquidity * Q64 - amount * p && liquidity * Q64 <= p * p
    ensures 0 < liquidity && FineGrained(p, liquidity, amount, Output, BtoA)
  {
    var d, q := liquidity * Q64 - amount * p, GetUpperSqrtPriceFromTokenA(amount, liquidity, p);
    MulMono(0, amount, p);
    UpperPriceAhead(amount, liquidity, p);
    assert RoundUpSlack(liquidity * p * Q64, d) < d;
    hide GetUpperSqrtPriceFromTokenA, RoundUpSlack;
    MulMono(p, q, p);
    assert q * p == p * q;
  }

  /** With `px`, `qx` and `pq` standing for products, what is left of the argument is linear. */
  lemma FineIsLinear(rounded: int, amount: int, px: int, qx: int, pq: int, scaled: int, slack: int, isInput: bool)
    requires if isInput then rounded <= amount && (rounded <= amount - 1 <==> px - qx <= scaled - pq)
             else amount <= rounded && (amount + 1 <= rounded <==> scaled + pq <= qx - px)
    requires slack == (if isInput then qx + scaled else qx - scaled) - px
    ensures rounded == amount <==> slack < pq
  {
  }

  lemma FineLowerPriceFromA(amount: nat, liquidity: nat, p: nat)
    requires 0 < p && 0 < liquidity
    ensures liquidity * Q64 + amount * p > 0 && 0 < GetLowerSqrtPriceFromTokenA(amount, liquidity, p) <= p
    ensures GetTokenAFromLiquidity(liquidity, p, GetLowerSqrtPriceFromTokenA(amount, liquidity, p), true) == amount
       <==> FineGrained(p, liquidity, amount, Input, AtoB)
  {
    LowerPriceIsPositive(amount, liquidity, p);
    var x, q := liquidity * Q64, GetLowerSqrtPriceFromTokenA(amount, liquidity, p);
    ChargedA(liquidity, q, p, amount - 1);
    LowerPriceFromA(amount, liquidity, p, q);
    PriceAlgebra(x, amount, p, q);
    OneLess(amount, p * q);
    ScaledFirst(liquidity, p);
    var slack := RoundUpSlack(liquidity * p * Q64, x + amount * p);
    assert slack == q * (x + amount * p) - p * x;
    hide GetTokenAFromLiquidity, GetLowerSqrtPriceFromTokenA, RoundUpSlack;
    FineIsLinear(GetTokenAFromLiquidity(liquidity, p, q, true), amount, p * x, q * x, p * q, amount * (p * q), slack, true);
  }

  lemma LowerPriceIsPositive(amount: nat, liquidity: nat, p: nat)
    requires 0 < p && 0 < liquidity
    ensures liquidity * Q64 + amount * p > 0 && 0 < GetLowerSqrtPriceFromTokenA(amount, liquidity, p) <= p
  {
    MulMono(0, amount, p);
    MulMono(1, liquidity, p);
    ScaledFirst(liquidity, p);
    NextPriceMovesOn(p, liquidity, amount, Input, AtoB);
    LowerPriceLeast(amount, liquidity, p, 0);
    hide GetLowerSqrtPriceFromTokenA;
  }

  lemma OneLess(amount: int, x: int)
    ensures (amount - 1) * x == amount * x - x && (amount + 1) * x == amount * x + x
  {
  }

  lemma FineUpperPriceFromA(amount: nat, liquidity: nat, p: nat)
    requires 0 < p && liquidity * Q64 - amount * p > 0
    ensures p <= GetUpperSqrtPriceFromTokenA(amount, liquidity, p) && 0 < liquidity
    ensures GetTokenAFromLiquidity(liquidity, p, GetUpperSqrtPriceFromTokenA(amount, liquidity, p), false) == amount
       <==> FineGrained(p, liquidity, amount, Output, BtoA)
  {
    MulMono(0, amount, p);
    UpperPriceAhead(amount, liquidity, p);
    var x, q := liquidity * Q64, GetUpperSqrtPriceFromTokenA(amount, liquidity, p);
    ReleasedA(liquidity, p, q, amount + 1);
    UpperPriceFromA(amount, liquidity, p, q);
    PriceAlgebra(x, amount, p, q);
    OneLess(amount, q * p);
    ScaledFirst(liquidity, p);
    var slack := RoundUpSlack(liquidity * p * Q64, x - amount * p);
    assert slack == q * (x - amount * p) - p * x;
    hide GetTokenAFromLiquidity, GetUpperSqrtPriceFromTokenA, RoundUpSlack;
    FineIsLinear(GetTokenAFromLiquidity(liquidity, p, q, false), amount, p * x, q * x, p * q, amount * (q * p),
                 slack, false);
  }

  lemma FinePricesFromB(amount: nat, liquidity: nat, p: nat)
    requires 0 < liquidity
    ensures GetTokenBFromLiquidity(liquidity, p, GetUpperSqrtPriceFromTokenB(amount, liquidity, p), true) == amount
       <==> FineGrained(p, liquidity, amount, Input, BtoA)
    ensures var q := GetLowerSqrtPriceFromTokenB(amount, liquidity, p);
            0 <= q ==> (GetTokenBFromLiquidity(liquidity, p, q, false) == amount
                        <==> FineGrained(p, liquidity, amount, Output, AtoB))
  {
    var up, down := GetUpperSqrtPriceFromTokenB(amount, liquidity, p), GetLowerSqrtPriceFromTokenB(amount, liquidity, p);
    UpperPriceFromB(amount, liquidity, p, up);
    ChargedB(liquidity, p, up, amount - 1);
    assert amount * Q64 == FloorDiv(amount * Q64, liquidity) * liquidity + amount * Q64 % liquidity;
    assert (up - p) * liquidity == liquidity * (up - p);
    if 0 <= down {
      LowerPriceFromB(amount, liquidity, p, down);
      ReleasedB(liquidity, down, p, amount + 1);
      assert (p - down) * liquidity == liquidity * (p - down);
    }
    hide GetTokenBFromLiquidity;
  }

  /** At the next price the rounded fixed-side amount is the requested one exactly if the price grid is fine there. */
  lemma NextPriceIsExact(p: nat, liquidity: nat, amount: nat, specified: AmountSpecified, direction: SwapDirection)
    requires 0 < p && 0 < liquidity && NextPriceDefined(p, liquidity, amount, specified, direction)
    requires 0 < GetNextSqrtPrice(p, liquidity, amount, specified, direction)
    ensures GetAmountFixedDelta(p, GetNextSqrtPrice(p, liquidity, amount, specified, direction), liquidity,
                                specified, direction) == amount
       <==> FineGrained(p, liquidity, amount, specified, direction)
  {
    match (specified, direction)
    case (Input, AtoB) => FineLowerPriceFromA(amount, liquidity, p);
    case (Output, BtoA) => FineUpperPriceFromA(amount, liquidity, p);
    case _ => FinePricesFromB(amount, liquidity, p);
  }

  /**
   * When the amount does not cover the whole distance to `target`, the formula is
   * defined and its price lies between the current price and the target.
   */
  lemma NextPriceStaysBeforeTarget(p: nat, target: nat, liquidity: nat, amount: nat,
                                   specified: AmountSpecified, direction: SwapDirection)
    requires 0 < p && 0 < target && OnTheWay(p, target, direction)
    requires amount < GetAmountFixedDelta(p, target, liquidity, specified, direction)
    ensures 0 < liquidity && NextPriceDefined(p, liquidity, amount, specified, direction)
    ensures var q := GetNextSqrtPrice(p, liquidity, amount, specified, direction);
            && OnTheWay(p, q, direction) && OnTheWay(q, target, direction)
            && (specified.Input? ==> q != target)
  {
    NoLiquidityNoAmount(p, target, specified, direction);
    if direction.AtoB? {
      assert 0 <= amount * p;
    } else if specified.Output? {
      ReleaseIsReachable(p, target, liquidity, amount);
    }
    NextPriceMovesOn(p, liquidity, amount, specified, direction);
    NextPriceIsOptimal(p, liquidity, amount, specified, direction, target);
  }

  lemma ReleaseIsReachable(p: nat, target: nat, liquidity: nat, amount: nat)
    requires 0 < p <= target
    requires amount < GetTokenAFromLiquidity(liquidity, p, target, false)
    ensures liquidity * Q64 - amount * p > 0
  {
    var x := liquidity * Q64;
    ReleasedA(liquidity, p, target, amount + 1);
    hide GetTokenAFromLiquidity;
    PriceAlgebra(x, 0, p, target);
    assert target * p > 0 && p * x >= 0;
    assert (amount + 1) * (target * p) == (amount * p) * target + target * p;
    MulCancel(amount * p, x, target);
  }

  lemma NoLiquidityNoAmount(p: nat, target: nat, specified: AmountSpecified, direction: SwapDirection)
    requires 0 < p && 0 < target
    ensures GetAmountFixedDelta(p, target, 0, specified, direction) == 0
  {
    var lo, hi := Min(p, target), Max(p, target);
    assert 0 * (hi - lo) * Q64 == 0 && hi * lo > 0;
    CeilLeast(0, hi * lo, 0);
    FloorGreatest(0, hi * lo, 1);
  }
}
