/** The client's quotes for deposits and withdrawals, and that the program accepts them. */
module Quotes {
  import opened Arithmetic
  import opened Outcome
  import opened State
  import opened SwapManager
  import opened Instructions
  import opened Ledger
  import opened PrincipalProofs
  import opened StepProofs
  import opened Withdrawals
  import opened Changes
  import SdkMath

  datatype Slippage = Slippage(numerator: nat, denominator: nat)

  /** Liquidity, the tokens it is estimated to cost or yield, and the limits to give to the instruction. */
  datatype Quote = Quote(liquidity: nat, estA: nat, estB: nat, limitA: nat, limitB: nat)

  function AdjustForSlippage(n: nat, slippage: Slippage, up: bool): nat
    requires slippage.denominator > 0
  {
    var (num, den) := (slippage.numerator, slippage.denominator);
    if up then FloorDiv(n * (den + num), den) else FloorDiv(n * den, den + num)
  }

  /** The quote for `liquidity` between the prices that its tokens A, and its tokens B, span. */
  function QuoteOf(liquidity: nat, fromA: nat, toA: nat, fromB: nat, toB: nat, slippage: Slippage, deposit: bool): Quote
    requires 0 < fromA && 0 < toA && slippage.denominator > 0
  {
    var estA := SdkMath.GetTokenAFromLiquidity(liquidity, fromA, toA, deposit);
    var estB := SdkMath.GetTokenBFromLiquidity(liquidity, fromB, toB, deposit);
    Quote(liquidity, estA, estB, AdjustForSlippage(estA, slippage, deposit), AdjustForSlippage(estB, slippage, deposit))
  }

  /** One token alone, where the price is outside the position's range. */
  function QuoteOfA(liquidity: nat, lo: nat, hi: nat, slippage: Slippage, deposit: bool): Quote
    requires 0 < lo && 0 < hi && slippage.denominator > 0
  {
    var est := SdkMath.GetTokenAFromLiquidity(liquidity, lo, hi, deposit);
    Quote(liquidity, est, 0, AdjustForSlippage(est, slippage, deposit), 0)
  }

  function QuoteOfB(liquidity: nat, lo: nat, hi: nat, slippage: Slippage, deposit: bool): Quote
    requires slippage.denominator > 0
  {
    var est := SdkMath.GetTokenBFromLiquidity(liquidity, lo, hi, deposit);
    Quote(liquidity, 0, est, 0, AdjustForSlippage(est, slippage, deposit))
  }

  /**
   * The deposit that `amount` of one token pays for. None where the formula divides by zero: the price is in range but
   * at the end where the position holds none of the token.
   */
  function IncreaseQuote(s: Pool, i: nat, inA: bool, amount: u64, slippage: Slippage): Option<Quote>
    requires WellFormed(s) && i < |s.positions| && slippage.denominator > 0
    requires SideOf(s, i)
  {
    var p, x := s.positions[i], s.sqrtPrice;
    var lo, hi := LowerPrice(s, i), UpperPrice(s, i);
    if s.tickCurrentIndex < p.tickLowerIndex then
      if inA then Some(QuoteOfA(SdkMath.GetLiquidityFromTokenA(amount, lo, hi, false), lo, hi, slippage, true))
      else Some(Quote(0, 0, 0, 0, 0))
    else if s.tickCurrentIndex < p.tickUpperIndex then
      if (if inA then x == hi else x == lo) then None
      else
        var liquidity := if inA then SdkMath.GetLiquidityFromTokenA(amount, x, hi, false)
                         else SdkMath.GetLiquidityFromTokenB(amount, lo, x, false);
        Some(QuoteOf(liquidity, x, hi, lo, x, slippage, true))
    else
      if inA then Some(Quote(0, 0, 0, 0, 0))
      else Some(QuoteOfB(SdkMath.GetLiquidityFromTokenB(amount, lo, hi, false), lo, hi, slippage, true))
  }

  function DecreaseQuote(s: Pool, i: nat, liquidity: u128, slippage: Slippage): Quote
    requires WellFormed(s) && i < |s.positions| && slippage.denominator > 0
  {
    var p, x := s.positions[i], s.sqrtPrice;
    var lo, hi := LowerPrice(s, i), UpperPrice(s, i);
    if s.tickCurrentIndex < p.tickLowerIndex then QuoteOfA(liquidity, lo, hi, slippage, false)
    else if s.tickCurrentIndex < p.tickUpperIndex then QuoteOf(liquidity, x, hi, lo, x, slippage, false)
    else QuoteOfB(liquidity, lo, hi, slippage, false)
  }

  function LowerPrice(s: Pool, i: nat): u128
    requires WellFormed(s) && i < |s.positions|
  {
    assert s.positions[i] in s.positions;
    SqrtPriceFromTickIndex(s.curve, s.positions[i].tickLowerIndex)
  }

  function UpperPrice(s: Pool, i: nat): (p: u128)
    requires WellFormed(s) && i < |s.positions|
    ensures LowerPrice(s, i) < p
  {
    assert s.positions[i] in s.positions;
    SqrtPriceFromTickIndex(s.curve, s.positions[i].tickUpperIndex)
  }

  /** Price and tick agree on which side of the position's range they are. */
  predicate SideOf(s: Pool, i: nat)
    requires WellFormed(s) && i < |s.positions|
  {
    var p := s.positions[i];
    p.Covers(s.tickCurrentIndex) ==> LowerPrice(s, i) <= s.sqrtPrice <= UpperPrice(s, i)
  }

  /** A limit is the estimate scaled by the tolerance, rounded down. */
  lemma SlippageScales(n: nat, slippage: Slippage)
    requires slippage.denominator > 0
    ensures var (num, den) := (slippage.numerator, slippage.denominator);
            var (up, down) := (AdjustForSlippage(n, slippage, true), AdjustForSlippage(n, slippage, false));
            && den * up <= n * (den + num) < den * (up + 1)
            && (den + num) * down <= n * den < (den + num) * (down + 1)
  {
    var (num, den) := (slippage.numerator, slippage.denominator);
    MulMono(0, n, den + num);
    MulMono(0, n, den);
    FloorBrackets(n * (den + num), den);
    FloorBrackets(n * den, den + num);
    hide FloorDiv;
  }

  lemma FloorBrackets(n: nat, d: int)
    requires d > 0
    ensures d * FloorDiv(n, d) <= n < d * (FloorDiv(n, d) + 1)
  {
    assert d * (FloorDiv(n, d) + 1) == FloorDiv(n, d) * d + d;
  }

  /** The tolerance only loosens a limit, and none leaves it exact. */
  lemma SlippageLoosens(n: nat, slippage: Slippage)
    requires slippage.denominator > 0
    ensures var (up, down) := (AdjustForSlippage(n, slippage, true), AdjustForSlippage(n, slippage, false));
            down <= n <= up && (slippage.numerator == 0 ==> down == n == up)
  {
    var (num, den) := (slippage.numerator, slippage.denominator);
    MulMono(den, den + num, n);
    AtLeast(n * (den + num), den, n);
    AtMost(n * den, den + num, n);
    if num == 0 {
      AtMost(n * den, den, n);
      AtLeast(n * den, den, n);
    }
    hide FloorDiv;
  }

  lemma AtLeast(n: nat, d: int, x: int)
    requires d > 0 && x * d <= n
    ensures x <= FloorDiv(n, d)
  {
    FloorGreatest(n, d, x);
  }

  lemma AtMost(n: nat, d: int, x: int)
    requires d > 0 && n <= x * d
    ensures FloorDiv(n, d) <= x
  {
    FloorGreatest(n, d, x + 1);
    assert (x + 1) * d == x * d + d;
  }

  lemma SidesAgree(s: Pool, i: nat)
    requires Aligned(s) && i < |s.positions|
    ensures SideOf(s, i)
    ensures var lo, hi := LowerPrice(s, i), UpperPrice(s, i);
            if s.tickCurrentIndex < s.positions[i].tickLowerIndex then Clamp(s.sqrtPrice, lo, hi) == lo
            else if s.tickCurrentIndex < s.positions[i].tickUpperIndex then Clamp(s.sqrtPrice, lo, hi) == s.sqrtPrice
            else Clamp(s.sqrtPrice, lo, hi) == hi
  {
    AlignedSides(s, i);
  }

  /** The position takes the token at the current price. */
  predicate Takes(s: Pool, i: nat, inA: bool)
    requires WellFormed(s) && i < |s.positions|
  {
    var lo, hi := LowerPrice(s, i), UpperPrice(s, i);
    if inA then Clamp(s.sqrtPrice, lo, hi) < hi else lo < Clamp(s.sqrtPrice, lo, hi)
  }

  /**
   * Where the position takes the given token, a deposit quote is what the program will price its liquidity at, within the
   * limits it quotes, and its liquidity is the greatest whose charge in that token is at most the amount. Elsewhere
   * the quote, if there is one, is nothing.
   */
  lemma IncreaseQuoteIsPriced(s: Pool, i: nat, inA: bool, amount: u64, slippage: Slippage, other: nat)
    requires Aligned(s) && i < |s.positions| && slippage.denominator > 0
    ensures SideOf(s, i)
    ensures var r := IncreaseQuote(s, i, inA, amount, slippage);
            if Takes(s, i, inA) then
              && r.Some?
              && var quote := r.value;
                 && quote.estA == PricedA(s, i, quote.liquidity, true) <= quote.limitA
                 && quote.estB == PricedB(s, i, quote.liquidity, true) <= quote.limitB
                 && ((if inA then PricedA(s, i, other, true) else PricedB(s, i, other, true)) <= amount
                     <==> other <= quote.liquidity)
            else r.Some? ==> r.value == Quote(0, 0, 0, 0, 0)
  {
    SidesAgree(s, i);
    var lo, hi, x := LowerPrice(s, i), UpperPrice(s, i), s.sqrtPrice;
    if Takes(s, i, inA) {
      var quote := IncreaseQuote(s, i, inA, amount, slippage).value;
      SlippageLoosens(quote.estA, slippage);
      SlippageLoosens(quote.estB, slippage);
      EmptySpan(quote.liquidity, lo, true);
      EmptySpan(quote.liquidity, hi, true);
      var y := Clamp(x, lo, hi);
      if inA {
        SdkMath.LiquidityFromTokenAIsOptimal(amount, y, hi, other);
      } else {
        SdkMath.LiquidityFromTokenBIsOptimal(amount, lo, y, other);
      }
      hide SdkMath.GetTokenAFromLiquidity, SdkMath.GetTokenBFromLiquidity, SdkMath.GetLiquidityFromTokenA,
           SdkMath.GetLiquidityFromTokenB, AdjustForSlippage, LowerPrice, UpperPrice;
    }
  }

  lemma DecreaseQuoteIsPriced(s: Pool, i: nat, liquidity: u128, slippage: Slippage)
    requires Aligned(s) && i < |s.positions| && slippage.denominator > 0
    ensures var quote := DecreaseQuote(s, i, liquidity, slippage);
            && quote.limitA <= quote.estA == PricedA(s, i, liquidity, false)
            && quote.limitB <= quote.estB == PricedB(s, i, liquidity, false)
  {
    SidesAgree(s, i);
    var quote := DecreaseQuote(s, i, liquidity, slippage);
    SlippageLoosens(quote.estA, slippage);
    SlippageLoosens(quote.estB, slippage);
    EmptySpan(liquidity, LowerPrice(s, i), false);
    EmptySpan(liquidity, UpperPrice(s, i), false);
    hide SdkMath.GetTokenAFromLiquidity, SdkMath.GetTokenBFromLiquidity, AdjustForSlippage, LowerPrice, UpperPrice;
  }

  /**
   * On the pool it was made for, whatever the slippage tolerance, the program accepts a deposit quote that it can
   * express and compute. It charges exactly the estimates, and no more than the amount of the given token.
   */
  lemma QuotedDepositIsAccepted(w: World, i: nat, inA: bool, amount: u64, slippage: Slippage, timestamp: u64)
    requires Valid(w) && i < |w.pool.positions| && slippage.denominator > 0
    requires SideOf(w.pool, i) && w.pool.rewardLastUpdatedTimestamp <= timestamp
    ensures var s := w.pool; var r := IncreaseQuote(s, i, inA, amount, slippage);
            && r.Some? && 0 < r.value.liquidity < Q127 && r.value.limitA < Q64 && r.value.limitB < Q64
            && LiquidityFits(s, s.positions[i], r.value.liquidity)
            ==>
              var quote := r.value;
              var done := IncreaseLiquidity(s, i, quote.liquidity, quote.limitA, quote.limitB, timestamp);
              && done.Ok?
              && done.value.vaultA == s.vaultA + quote.estA && done.value.vaultB == s.vaultB + quote.estB
              && (if inA then quote.estA else quote.estB) <= amount
  {
    ValidParts(w);
    var r := IncreaseQuote(w.pool, i, inA, amount, slippage);
    hide Valid, IncreaseQuote, IncreaseLiquidity, PricedA, PricedB, LiquidityFits, Aligned, WellFormed, SideOf;
    if r.Some? && 0 < r.value.liquidity < Q127 && r.value.limitA < Q64 && r.value.limitB < Q64 {
      IncreaseQuoteIsPriced(w.pool, i, inA, amount, slippage, r.value.liquidity);
      DepositDecides(w, i, r.value.liquidity, r.value.limitA, r.value.limitB, timestamp);
    }
  }

  /** And it accepts a withdrawal quote for what a position holds, and pays exactly the estimates. */
  lemma QuotedWithdrawalIsAccepted(w: World, i: nat, liquidity: u128, slippage: Slippage, timestamp: u64)
    requires Valid(w) && i < |w.pool.positions| && slippage.denominator > 0
    requires w.pool.rewardLastUpdatedTimestamp <= timestamp
    requires 0 < liquidity <= w.pool.positions[i].liquidity && liquidity < Q127
    requires NetsFit(w.pool, w.pool.positions[i], liquidity)
    ensures WellFormed(w.pool)
    ensures var s := w.pool; var quote := DecreaseQuote(s, i, liquidity, slippage);
            quote.estA < Q64 && quote.estB < Q64 ==>
              && quote.limitA < Q64 && quote.limitB < Q64
              && var done := DecreaseLiquidity(s, i, liquidity, quote.limitA, quote.limitB, timestamp);
                 && done.Ok?
                 && done.value.vaultA == s.vaultA - quote.estA && done.value.vaultB == s.vaultB - quote.estB
  {
    ValidParts(w);
    var quote := DecreaseQuote(w.pool, i, liquidity, slippage);
    hide Valid, DecreaseQuote, DecreaseLiquidity, PricedA, PricedB, NetsFit, Aligned, WellFormed;
    DecreaseQuoteIsPriced(w.pool, i, liquidity, slippage);
    if quote.estA < Q64 && quote.estB < Q64 {
      WithdrawalDecides(w, i, liquidity, quote.limitA, quote.limitB, timestamp);
    }
  }
}
