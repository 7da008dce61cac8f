/** Rounding always favours the pool: swap paths, split orders, and how often one settles. */
module Rounding {
  import opened Arithmetic
  import opened Outcome
  import opened CurveAmounts
  import opened State
  import opened SwapMath
  import opened PositionManager
  import opened WhirlpoolManager
  import opened PrincipalProofs
  import SdkMath

  // ---- any path of swap steps at constant liquidity ----

  datatype Leg = Leg(amount: u64, feeRate: nat, target: u128, isInput: bool, aToB: bool)

  predicate LegOk(leg: Leg, price: u128) {
    leg.feeRate <= MAX_FEE_RATE && 0 < price && 0 < leg.target && Toward(price, leg.target, leg.aToB)
  }

  /** Where a walk ends. */
  datatype Walked = Walked(price: u128, netA: int, netB: int)

  /**
   * Final price, and net A and B charged, over a path of steps in any mix of directions and modes.
   * Fees come on top and are not counted.
   */
  function Walk(liquidity: u128, price: u128, legs: seq<Leg>): Result<Walked>
    decreases |legs|
  {
    if legs == [] then Ok(Walked(price, 0, 0))
    else if !LegOk(legs[0], price) then Err(SqrtPriceOutOfBounds)
    else
      var leg := legs[0];
      var step :- ComputeSwap(leg.amount, leg.feeRate, liquidity, price, leg.target, leg.isInput, leg.aToB);
      var rest :- Walk(liquidity, step.nextPrice, legs[1..]);
      var (paid, got) := (step.amountIn, step.amountOut);
      Ok(if leg.aToB then Walked(rest.price, rest.netA + paid, rest.netB - got)
         else Walked(rest.price, rest.netA - got, rest.netB + paid))
  }

  lemma ExactChains(liquidity: int, p: int, q: int, r: int)
    requires 0 < p && 0 < q && 0 < r
    ensures ExactA(liquidity, r, p) == ExactA(liquidity, r, q) + ExactA(liquidity, q, p)
    ensures ExactB(liquidity, p, r) == ExactB(liquidity, p, q) + ExactB(liquidity, q, r)
    ensures ExactA(liquidity, p, q) == 0.0 - ExactA(liquidity, q, p)
    ensures ExactB(liquidity, p, q) == 0.0 - ExactB(liquidity, q, p)
  {
    hide Recip;
  }

  /** Before any fee, a path pays at least the exact curve amounts between its ends; a round trip gains neither token. */
  lemma {:induction false} NoRoundingProfit(liquidity: u128, price: u128, legs: seq<Leg>)
    requires 0 < price && Walk(liquidity, price, legs).Ok?
    ensures var end := Walk(liquidity, price, legs).value;
            && 0 < end.price
            && ExactA(liquidity, end.price, price) <= end.netA as real
            && ExactB(liquidity, price, end.price) <= end.netB as real
            && (end.price == price ==> 0 <= end.netA && 0 <= end.netB)
    decreases |legs|
  {
    if legs != [] {
      var leg := legs[0];
      var step := ComputeSwap(leg.amount, leg.feeRate, liquidity, price, leg.target, leg.isInput, leg.aToB).value;
      ComputeSwapIsFair(leg.amount, leg.feeRate, liquidity, price, leg.target, leg.isInput, leg.aToB);
      NoRoundingProfit(liquidity, step.nextPrice, legs[1..]);
      var end := Walk(liquidity, price, legs).value;
      ExactChains(liquidity, price, step.nextPrice, end.price);
      ExactNothing(liquidity, price);
      hide ExactA, ExactB, ComputeSwap;
    } else {
      ExactNothing(liquidity, price);
    }
  }

  lemma ExactNothing(liquidity: int, price: int)
    requires 0 < price
    ensures ExactA(liquidity, price, price) == 0.0 && ExactB(liquidity, price, price) == 0.0
  {
  }

  // ---- splitting an exact-input order ----

  /** Selling A in two pieces ends at a price no lower than selling it at once. */
  lemma SplitPriceAtoB(p: nat, liquidity: nat, first: nat, second: nat)
    requires 0 < p && 0 < liquidity
    ensures var p1 := SdkMath.GetLowerSqrtPriceFromTokenA(first, liquidity, p);
            0 < p1 <= p
            && SdkMath.GetLowerSqrtPriceFromTokenA(first + second, liquidity, p)
               <= SdkMath.GetLowerSqrtPriceFromTokenA(second, liquidity, p1) <= p1
  {
    LowerPriceCovers(first, liquidity, p);
    var p1 := SdkMath.GetLowerSqrtPriceFromTokenA(first, liquidity, p);
    LowerPriceCovers(second, liquidity, p1);
    var p2 := SdkMath.GetLowerSqrtPriceFromTokenA(second, liquidity, p1);
    hide SdkMath.GetLowerSqrtPriceFromTokenA;
    TwoSteps(liquidity * Q64, p, p1, p2, first, second);
    SdkMath.LowerPriceLeast(first + second, liquidity, p, p2);
  }

  lemma LowerPriceCovers(amount: nat, liquidity: nat, p: nat)
    requires 0 < p && 0 < liquidity
    ensures liquidity * Q64 + amount * p > 0
    ensures var q := SdkMath.GetLowerSqrtPriceFromTokenA(amount, liquidity, p);
            0 < q <= p && p * (liquidity * Q64) <= q * (liquidity * Q64 + amount * p)
  {
    var q := SdkMath.GetLowerSqrtPriceFromTokenA(amount, liquidity, p);
    SdkMath.NextPriceMovesOn(p, liquidity, amount, SdkMath.Input, SdkMath.AtoB);
    SdkMath.LowerPriceLeast(amount, liquidity, p, q);
    hide SdkMath.GetLowerSqrtPriceFromTokenA;
    assert 0 < p * (liquidity * Q64);
  }

  lemma TwoSteps(x: nat, p: nat, p1: nat, p2: nat, first: nat, second: nat)
    requires 0 < p1
    requires p * x <= p1 * (x + first * p)
    requires p1 * x <= p2 * (x + second * p1)
    ensures p * x <= p2 * (x + (first + second) * p)
  {
    var w := p2 * (x + (first + second) * p);
    MulMono(p1 * x, p2 * (x + second * p1), p);
    MulMono(p * x, p1 * (x + first * p), p2);
    TwoStepsAlgebra(x, p, p1, p2, first, second);
    if w < p * x { MulStrict(w, p * x, p1); }
  }

  lemma MulStrict(a: int, b: int, z: int)
    requires a < b && 0 < z
    ensures a * z < b * z
  {
  }

  lemma TwoStepsAlgebra(x: int, p: int, p1: int, p2: int, first: int, second: int)
    ensures (p2 * (x + (first + second) * p)) * p1
         == p2 * p1 * x + p2 * p1 * first * p + p2 * p1 * second * p
    ensures (p2 * (x + second * p1)) * p == p2 * x * p + p2 * p1 * second * p
    ensures (p1 * (x + first * p)) * p2 == p2 * p1 * x + p2 * p1 * first * p
    ensures (p1 * x) * p == (p * x) * p1
    ensures (p * x) * p2 == p2 * x * p
  {
    assert (first + second) * p == first * p + second * p;
    Spread(p2, x, first * p + second * p, p1);
    Spread(p2, x, second * p1, p);
    Spread(p1, x, first * p, p2);
    Reorder(p2, p1, first, p);
    Reorder(p2, p1, second, p);
  }

  lemma Spread(a: int, b: int, c: int, d: int)
    ensures (a * (b + c)) * d == a * b * d + a * c * d
  {
  }

  lemma Reorder(a: int, b: int, c: int, d: int)
    ensures a * (c * d) * b == a * b * c * d == b * (c * d) * a
    ensures a * (c * b) * d == a * b * c * d
  {
  }

  lemma FloorSum(m: nat, n: nat, d: int)
    requires d > 0
    ensures FloorDiv(m, d) + FloorDiv(n, d) <= FloorDiv(m + n, d) <= FloorDiv(m, d) + FloorDiv(n, d) + 1
  {
    var a, b := FloorDiv(m, d), FloorDiv(n, d);
    assert (a + b) * d == a * d + b * d && (a + b + 2) * d == a * d + b * d + d + d;
    FloorGreatest(m + n, d, a + b);
    FloorGreatest(m + n, d, a + b + 2);
  }

  lemma FloorMono(m: nat, n: nat, d: int)
    requires d > 0 && m <= n
    ensures FloorDiv(m, d) <= FloorDiv(n, d)
  {
    FloorGreatest(n, d, FloorDiv(m, d));
  }

  /** Two sales of A yield at most what one sale of the whole yields. */
  lemma SplittingAtoBNeverHelps(p: nat, liquidity: nat, first: nat, second: nat)
    requires 0 < p && 0 < liquidity
    ensures var p1 := SdkMath.GetLowerSqrtPriceFromTokenA(first, liquidity, p);
            var p2 := SdkMath.GetLowerSqrtPriceFromTokenA(second, liquidity, p1);
            var whole := SdkMath.GetLowerSqrtPriceFromTokenA(first + second, liquidity, p);
            SdkMath.GetTokenBFromLiquidity(liquidity, p, p1, false)
            + SdkMath.GetTokenBFromLiquidity(liquidity, p1, p2, false)
            <= SdkMath.GetTokenBFromLiquidity(liquidity, p, whole, false)
  {
    SplitPriceAtoB(p, liquidity, first, second);
    var p1 := SdkMath.GetLowerSqrtPriceFromTokenA(first, liquidity, p);
    var p2 := SdkMath.GetLowerSqrtPriceFromTokenA(second, liquidity, p1);
    var whole := SdkMath.GetLowerSqrtPriceFromTokenA(first + second, liquidity, p);
    hide SdkMath.GetLowerSqrtPriceFromTokenA;
    PiecesOfB(liquidity, p, p1, p2, whole);
  }

  lemma PiecesOfB(liquidity: nat, p: nat, p1: nat, p2: nat, whole: nat)
    requires whole <= p2 <= p1 <= p
    ensures SdkMath.GetTokenBFromLiquidity(liquidity, p, p1, false)
            + SdkMath.GetTokenBFromLiquidity(liquidity, p1, p2, false)
            <= SdkMath.GetTokenBFromLiquidity(liquidity, p, whole, false)
  {
    assert liquidity * (p - p1) + liquidity * (p1 - p2) == liquidity * (p - p2);
    MulMono(p - p2, p - whole, liquidity);
    FloorSum(liquidity * (p - p1), liquidity * (p1 - p2), Q64);
    FloorMono(liquidity * (p - p2), liquidity * (p - whole), Q64);
  }

  /** Two sales of B yield at most what one sale of the whole yields. */
  lemma SplittingBtoANeverHelps(p: nat, liquidity: nat, first: nat, second: nat)
    requires 0 < p && 0 < liquidity
    ensures var p1 := SdkMath.GetUpperSqrtPriceFromTokenB(first, liquidity, p);
            var p2 := SdkMath.GetUpperSqrtPriceFromTokenB(second, liquidity, p1);
            var whole := SdkMath.GetUpperSqrtPriceFromTokenB(first + second, liquidity, p);
            SdkMath.GetTokenAFromLiquidity(liquidity, p, p1, false)
            + SdkMath.GetTokenAFromLiquidity(liquidity, p1, p2, false)
            <= SdkMath.GetTokenAFromLiquidity(liquidity, p, whole, false)
  {
    var p1 := SdkMath.GetUpperSqrtPriceFromTokenB(first, liquidity, p);
    var p2 := SdkMath.GetUpperSqrtPriceFromTokenB(second, liquidity, p1);
    var whole := SdkMath.GetUpperSqrtPriceFromTokenB(first + second, liquidity, p);
    FloorSum(first * Q64, second * Q64, liquidity);
    assert p <= p1 <= p2 <= whole;
    RoundedA(liquidity, p, p1);
    RoundedA(liquidity, p1, p2);
    ExactChains(liquidity, p2, p1, p);
    ExactChains(liquidity, whole, p2, p);
    ExactANonNegative(liquidity, p2, whole);
    ExactIsFloor(liquidity, p, whole,
                 SdkMath.GetTokenAFromLiquidity(liquidity, p, p1, false)
                 + SdkMath.GetTokenAFromLiquidity(liquidity, p1, p2, false));
    hide ExactA, Recip, SdkMath.GetTokenAFromLiquidity;
  }

  /** A whole number of tokens within the exact amount is within the rounded-down amount. */
  lemma ExactIsFloor(liquidity: nat, lo: int, hi: int, tokens: int)
    requires 0 < lo <= hi
    ensures tokens as real <= ExactA(liquidity, lo, hi)
        ==> tokens <= SdkMath.GetTokenAFromLiquidity(liquidity, lo, hi, false)
  {
    if tokens as real <= ExactA(liquidity, lo, hi) {
      assert hi * lo > 0;
      ExactAScaled(liquidity, lo, hi);
      WholeFits(tokens, hi * lo, liquidity * (hi - lo) * Q64, ExactA(liquidity, lo, hi));
      SdkMath.ReleasedA(liquidity, lo, hi, tokens);
      hide ExactA, SdkMath.GetTokenAFromLiquidity;
      assert liquidity * (hi - lo) * Q64 == (liquidity * Q64) * (hi - lo);
    }
  }

  lemma WholeFits(x: int, d: int, n: int, exact: real)
    requires 0 < d && x as real <= exact && IsQuotient(exact, n, d)
    ensures x * d <= n
  {
    RealMulMono(x as real, exact, d as real);
    assert (x * d) as real == x as real * d as real;
  }

  // ---- settling often, or once ----

  function Total(xs: seq<nat>): nat {
    if xs == [] then 0 else xs[0] + Total(xs[1..])
  }

  /** A debt and its checkpoint after the position is settled following each growth increment. */
  function SettledEach(liquidity: u128, debt: PositionReward, growths: seq<nat>): PositionReward
    decreases |growths|
  {
    if growths == [] then debt
    else
      var next := NextPositionReward(liquidity, debt, WrapAdd(debt.growthInsideCheckpoint, growths[0]));
      SettledEach(liquidity, next, growths[1..])
  }

  /** The same debt after one settlement at the end. */
  function SettledAtEnd(liquidity: u128, debt: PositionReward, growths: seq<nat>): PositionReward {
    NextPositionReward(liquidity, debt, WrapAdd(debt.growthInsideCheckpoint, Total(growths)))
  }

  /** What `growth` is worth to `liquidity` before any rounding, in tokens scaled by 2^64. */
  function Worth(liquidity: nat, growth: nat): nat {
    MulMono(0, liquidity, growth);
    liquidity * growth
  }

  /** The tokens credited for it in 128-bit arithmetic: a product that does not fit is credited nothing. */
  function Credit(liquidity: nat, growth: nat): nat {
    if Worth(liquidity, growth) < Q128 then FloorDiv(Worth(liquidity, growth), Q64) else 0
  }

  function Credits(liquidity: nat, growths: seq<nat>): nat {
    if growths == [] then 0 else Credit(liquidity, growths[0]) + Credits(liquidity, growths[1..])
  }

  lemma EarnedIsCredit(liquidity: u128, checkpoint: u128, growth: nat)
    requires liquidity == 0 || growth < Q128
    ensures GrowthEarned(liquidity, WrapAdd(checkpoint, growth), checkpoint) == Credit(liquidity, growth)
  {
    if growth < Q128 {
      WrapRoundTrip(checkpoint, growth);
    }
    hide WrapAdd, WrapSub, Wrap;
    if liquidity == 0 || growth == 0 { assert liquidity * growth == 0; }
  }

  lemma WrapRoundTrip(checkpoint: u128, growth: nat)
    requires growth < Q128
    ensures WrapSub(WrapAdd(checkpoint, growth), checkpoint) == growth
  {
    ModAdd(checkpoint + growth, 0 - checkpoint);
  }

  /** Settling after each increment adds up the credits, in a debt that wraps at 2^64. */
  lemma {:induction false} EachOwes(liquidity: u128, debt: PositionReward, growths: seq<nat>)
    requires liquidity == 0 || Total(growths) < Q128
    ensures SettledEach(liquidity, debt, growths).amountOwed == Wrap64(debt.amountOwed + Credits(liquidity, growths))
    decreases |growths|
  {
    hide NextPositionReward, WrapAdd, Credit, Wrap64;
    if growths == [] {
      Wrap64Small(debt.amountOwed);
    } else {
      var next := NextPositionReward(liquidity, debt, WrapAdd(debt.growthInsideCheckpoint, growths[0]));
      NextOwes(liquidity, debt, growths[0]);
      EachOwes(liquidity, next, growths[1..]);
      WrapLater(debt.amountOwed + Credit(liquidity, growths[0]), Credits(liquidity, growths[1..]));
    }
  }

  lemma NextOwes(liquidity: u128, debt: PositionReward, growth: nat)
    requires liquidity == 0 || growth < Q128
    ensures NextPositionReward(liquidity, debt, WrapAdd(debt.growthInsideCheckpoint, growth)).amountOwed
         == Wrap64(debt.amountOwed + Credit(liquidity, growth))
  {
    EarnedIsCredit(liquidity, debt.growthInsideCheckpoint, growth);
    hide WrapAdd, GrowthEarned, Credit, Wrap64;
  }

  lemma WrapLater(x: int, y: int)
    ensures Wrap64(Wrap64(x) + y) == Wrap64(x + y)
  {
    var q := x / Q64;
    assert x == q * Q64 + x % Q64;
    ShiftBy(x % Q64 + y, q);
  }

  lemma ShiftBy(x: int, q: int)
    ensures (x + q * Q64) % Q64 == x % Q64
  {
  }

  lemma EndOwes(liquidity: u128, debt: PositionReward, growths: seq<nat>)
    requires liquidity == 0 || Total(growths) < Q128
    ensures SettledAtEnd(liquidity, debt, growths).amountOwed
         == Wrap64(debt.amountOwed + Credit(liquidity, Total(growths)))
  {
    NextOwes(liquidity, debt, Total(growths));
    hide NextPositionReward, WrapAdd, Credit, Wrap64;
  }

  lemma {:induction false} CreditsBounds(liquidity: nat, growths: seq<nat>)
    requires Worth(liquidity, Total(growths)) < Q128
    ensures Q64 * Credits(liquidity, growths) <= Worth(liquidity, Total(growths))
    ensures growths != [] ==> Worth(liquidity, Total(growths)) < Q64 * (Credits(liquidity, growths) + |growths|)
    decreases |growths|
  {
    if growths != [] {
      var g, rest := growths[0], growths[1..];
      assert Worth(liquidity, Total(growths)) == Worth(liquidity, g) + Worth(liquidity, Total(rest));
      if rest == [] { assert Worth(liquidity, Total(rest)) == 0; }
      hide Worth;
      CreditsBounds(liquidity, rest);
    }
  }

  /** Without overflow, n settlements credit at most what one would, and lose at most n - 1 tokens. */
  lemma SettlingOftenLosesLittle(liquidity: u128, debt: PositionReward, growths: seq<nat>)
    requires growths != [] && Worth(liquidity, Total(growths)) < Q128
    ensures Credits(liquidity, growths) <= Credit(liquidity, Total(growths))
         <= Credits(liquidity, growths) + |growths| - 1
    ensures SettledEach(liquidity, debt, growths).amountOwed == Wrap64(debt.amountOwed + Credits(liquidity, growths))
    ensures SettledAtEnd(liquidity, debt, growths).amountOwed
         == Wrap64(debt.amountOwed + Credit(liquidity, Total(growths)))
  {
    SmallProduct(liquidity, Total(growths));
    EachOwes(liquidity, debt, growths);
    EndOwes(liquidity, debt, growths);
    CreditsBounds(liquidity, growths);
    hide SettledEach, SettledAtEnd, Credits, Wrap64, Worth;
    FloorGreatest(Worth(liquidity, Total(growths)), Q64, Credits(liquidity, growths));
    FloorGreatest(Worth(liquidity, Total(growths)), Q64, Credits(liquidity, growths) + |growths|);
  }

  lemma SmallProduct(liquidity: nat, growth: nat)
    requires Worth(liquidity, growth) < Q128
    ensures liquidity == 0 || growth < Q128
  {
    if liquidity > 0 { MulMono(1, liquidity, growth); }
  }

  /**
   * While the debt and everything earned together fit, nothing wraps and nothing is forfeit: settling once owes
   * exactly the fair share, at least what settling often owes, and at most n - 1 tokens more.
   */
  lemma SafeSettlement(liquidity: u128, debt: PositionReward, growths: seq<nat>)
    requires growths != [] && Q64 * debt.amountOwed + Worth(liquidity, Total(growths)) < Q128
    ensures var each := SettledEach(liquidity, debt, growths).amountOwed;
            var once := SettledAtEnd(liquidity, debt, growths).amountOwed;
            && each <= once <= each + |growths| - 1
            && once == debt.amountOwed + FloorDiv(Worth(liquidity, Total(growths)), Q64)
  {
    hide SettledEach, SettledAtEnd, Credits, Credit, Total, Wrap64, Worth;
    SettlingOftenLosesLittle(liquidity, debt, growths);
    WholeCredit(liquidity, Total(growths));
    Wrap64Small(debt.amountOwed + Credits(liquidity, growths));
    Wrap64Small(debt.amountOwed + Credit(liquidity, Total(growths)));
  }

  lemma WholeCredit(liquidity: nat, growth: nat)
    ensures CreditFor(Worth(liquidity, growth), Credit(liquidity, growth))
    ensures Worth(liquidity, growth) < Q128 ==> Credit(liquidity, growth) == FloorDiv(Worth(liquidity, growth), Q64)
  {
    hide Worth;
  }

  /** `credit` whole tokens are credited for a worth that may not fit 128 bits. */
  predicate CreditFor(worth: nat, credit: nat) {
    if worth < Q128 then credit < Q64 && credit * Q64 <= worth < credit * Q64 + Q64 else credit == 0
  }

  /** A sum of a debt and a credit wraps at most once beyond what the credit does itself. */
  lemma Wrap64Sum(owed: u64, credit: nat)
    ensures Wrap64(owed + credit)
         == if owed + Wrap64(credit) < Q64 then owed + Wrap64(credit) else owed + Wrap64(credit) - Q64
  {
    WrapLater(credit, owed);
    Wrap64Twice(owed + Wrap64(credit));
    hide Wrap64;
  }

  lemma Wrap64Twice(x: int)
    requires 0 <= x < 2 * Q64
    ensures Wrap64(x) == if x < Q64 then x else x - Q64
  {
  }

  /** A growth increment earns nothing by itself: less than one token, or a product past 128 bits. */
  predicate EarnsNothing(liquidity: nat, growth: nat) {
    Worth(liquidity, growth) < Q64 || Q128 <= Worth(liquidity, growth)
  }

  lemma CreditIsNothing(liquidity: nat, growth: nat)
    ensures Credit(liquidity, growth) == 0 <==> EarnsNothing(liquidity, growth)
  {
    hide Worth;
    FloorGreatest(Worth(liquidity, growth), Q64, 1);
  }

  lemma {:induction false} CreditsAreNothing(liquidity: nat, growths: seq<nat>)
    ensures Credits(liquidity, growths) == 0 <==> forall j | 0 <= j < |growths| :: EarnsNothing(liquidity, growths[j])
  {
    if growths != [] {
      var rest := growths[1..];
      CreditsAreNothing(liquidity, rest);
      CreditIsNothing(liquidity, growths[0]);
      hide EarnsNothing, Credit;
      assert forall j | 0 < j < |growths| :: growths[j] == rest[j - 1];
      if forall j | 0 <= j < |rest| :: EarnsNothing(liquidity, rest[j]) {
        forall j | 0 < j < |growths| ensures EarnsNothing(liquidity, growths[j]) {
          assert EarnsNothing(liquidity, rest[j - 1]);
        }
      } else {
        var j :| 0 <= j < |rest| && !EarnsNothing(liquidity, rest[j]);
        assert !EarnsNothing(liquidity, growths[j + 1]);
      }
    }
  }

  /** No overflow; or the credits, too, wrap the debt; or the whole overflows and the credits are worth nothing. */
  predicate OnceIsBest(owed: u64, credits: u64, whole: nat) {
    || Q64 * owed + whole < Q128
    || Q64 <= owed + credits
    || (Q128 <= whole && credits == 0)
  }

  /** Settling once leaves at least the debt that settling often leaves exactly if `OnceIsBest`. */
  lemma OneSettlementIsBest(liquidity: u128, debt: PositionReward, growths: seq<nat>)
    requires growths != [] && (liquidity == 0 || Total(growths) < Q128)
    ensures SettledEach(liquidity, debt, growths).amountOwed <= SettledAtEnd(liquidity, debt, growths).amountOwed
       <==> OnceIsBest(debt.amountOwed, Wrap64(Credits(liquidity, growths)), Worth(liquidity, Total(growths)))
  {
    hide SettledEach, SettledAtEnd, Credits, Credit, Total, Wrap64, Worth, OnceIsBest, CreditFor;
    EachOwes(liquidity, debt, growths);
    EndOwes(liquidity, debt, growths);
    WholeCredit(liquidity, Total(growths));
    if Worth(liquidity, Total(growths)) < Q128 { SettlingOftenLosesLittle(liquidity, debt, growths); }
    var credits, credit := Credits(liquidity, growths), Credit(liquidity, Total(growths));
    CreditFits(Worth(liquidity, Total(growths)), credit);
    Wrap64Sum(debt.amountOwed, credits);
    Wrap64Sum(debt.amountOwed, credit);
    Wrap64Small(credits);
    Wrap64Small(credit);
    CompareDebts(debt.amountOwed, Wrap64(credits), credit, Worth(liquidity, Total(growths)));
  }

  lemma CreditFits(worth: nat, credit: nat)
    requires CreditFor(worth, credit)
    ensures credit < Q64
  {
  }

  /** The comparison of the two debts, once each has wrapped. */
  lemma CompareDebts(owed: u64, each: u64, once: u64, whole: nat)
    requires CreditFor(whole, once) && (whole < Q128 ==> each <= once)
    ensures (if owed + each < Q64 then owed + each else owed + each - Q64)
            <= (if owed + once < Q64 then owed + once else owed + once - Q64)
       <==> OnceIsBest(owed, each, whole)
  {
  }

  /**
   * For a debt that is collected before it overflows, which is what the program asks of owners: settling often then
   * owes every credit, and settling once is at least as good exactly if all of it still fits, or nothing was earned.
   */
  lemma OneSettlementOfASoundDebt(liquidity: u128, debt: PositionReward, growths: seq<nat>)
    requires growths != [] && (liquidity == 0 || Total(growths) < Q128)
    requires debt.amountOwed + Credits(liquidity, growths) < Q64
    ensures SettledEach(liquidity, debt, growths).amountOwed == debt.amountOwed + Credits(liquidity, growths)
    ensures SettledEach(liquidity, debt, growths).amountOwed <= SettledAtEnd(liquidity, debt, growths).amountOwed
       <==> || Q64 * debt.amountOwed + Worth(liquidity, Total(growths)) < Q128
            || (Q128 <= Worth(liquidity, Total(growths))
                && forall j | 0 <= j < |growths| :: EarnsNothing(liquidity, growths[j]))
  {
    EachOwes(liquidity, debt, growths);
    OneSettlementIsBest(liquidity, debt, growths);
    CreditsAreNothing(liquidity, growths);
    Wrap64Small(debt.amountOwed + Credits(liquidity, growths));
    Wrap64Small(Credits(liquidity, growths));
    hide SettledEach, SettledAtEnd, Credits, EarnsNothing, Total, Wrap64, Worth;
  }

  /** One token short of full, a debt survives two settlements of half a token each; one settlement wraps it to 0. */
  lemma OneSettlementCanWrap()
    ensures var debt, growths := PositionReward(0, Q64 - 1), [Q64 / 2, Q64 / 2];
            SettledEach(1, debt, growths).amountOwed == Q64 - 1 && SettledAtEnd(1, debt, growths).amountOwed == 0
  {
    var debt: PositionReward, growths: seq<nat> := PositionReward(0, Q64 - 1), [Q64 / 2, Q64 / 2];
    assert growths[1..] == [Q64 / 2] && growths[1..][1..] == [];
    assert Total(growths[1..]) == Q64 / 2 && Total(growths) == Q64;
    assert Credit(1, Q64 / 2) == 0 && Credit(1, Q64) == 1;
    hide SettledEach, SettledAtEnd, Credit, Total;
    assert Credits(1, growths[1..]) == 0;
    assert Credits(1, growths) == 0;
    EachOwes(1, debt, growths);
    EndOwes(1, debt, growths);
  }

  // ---- accruing often, or once ----

  /** Growth when a reward accrues after each of several intervals. */
  function AccruedOften(info: RewardInfo, liquidity: u128, times: seq<u64>): nat {
    if times == [] then 0
    else RewardGrowthDelta(info, liquidity, times[0]) + AccruedOften(info, liquidity, times[1..])
  }

  lemma {:induction false} AccruedOftenBounds(info: RewardInfo, liquidity: u128, times: seq<u64>)
    requires info.initialized && liquidity > 0
    requires Total(times) * info.emissionsPerSecondX64 < Q128
    ensures liquidity * AccruedOften(info, liquidity, times) <= Total(times) * info.emissionsPerSecondX64
    ensures times != [] ==> Total(times) * info.emissionsPerSecondX64
                            < liquidity * (AccruedOften(info, liquidity, times) + |times|)
    decreases |times|
  {
    if times == [] {
      assert liquidity * 0 == 0 && 0 * info.emissionsPerSecondX64 == 0;
    } else {
      var t, rest, rate := times[0], times[1..], info.emissionsPerSecondX64;
      assert Total(times) * rate == t * rate + Total(rest) * rate;
      MulMono(0, t, rate);
      MulMono(0, Total(rest), rate);
      AccruedOftenBounds(info, liquidity, rest);
      DeltaIsFloor(info, liquidity, t);
      if rest == [] { assert Total(rest) * rate == 0; }
      var q, more := FloorDiv(t * rate, liquidity), AccruedOften(info, liquidity, rest);
      hide RewardGrowthDelta, FloorDiv;
      FloorsAdd(liquidity, q, more, |rest|, t * rate, Total(rest) * rate);
    }
  }

  lemma FloorsAdd(d: nat, q: nat, more: nat, n: nat, a: int, b: int)
    requires q * d <= a < q * d + d && d * more <= b
    requires if n > 0 then b < d * (more + n) else b == 0
    ensures d * (q + more) <= a + b < d * (q + more + n + 1)
  {
    assert d * (q + more) == q * d + d * more;
    assert d * (q + more + n + 1) == q * d + d + d * (more + n);
    MulMono(0, more + n, d);
  }

  /** n accruals grow at most what one over the whole interval would, and lose at most n - 1 units. */
  lemma AccruingOftenLosesLittle(info: RewardInfo, liquidity: u128, times: seq<u64>)
    requires info.initialized && liquidity > 0 && times != []
    requires Total(times) < Q64 && Total(times) * info.emissionsPerSecondX64 < Q128
    ensures AccruedOften(info, liquidity, times) <= RewardGrowthDelta(info, liquidity, Total(times))
    ensures RewardGrowthDelta(info, liquidity, Total(times)) <= AccruedOften(info, liquidity, times) + |times| - 1
  {
    AccruedOftenBounds(info, liquidity, times);
    DeltaIsFloor(info, liquidity, Total(times));
    FloorBetween(Total(times) * info.emissionsPerSecondX64, liquidity, AccruedOften(info, liquidity, times), |times|);
    hide AccruedOften, RewardGrowthDelta, FloorDiv;
  }

  /** An interval accrues nothing by itself: less than one unit of growth, or a product past 128 bits. */
  predicate AccruesNothing(rate: nat, liquidity: nat, elapsed: nat) {
    elapsed * rate < liquidity || Q128 <= elapsed * rate
  }

  lemma DeltaIsNothing(info: RewardInfo, liquidity: u128, elapsed: u64)
    requires info.initialized && liquidity > 0
    ensures Q128 <= elapsed * info.emissionsPerSecondX64 ==> RewardGrowthDelta(info, liquidity, elapsed) == 0
    ensures RewardGrowthDelta(info, liquidity, elapsed) == 0
       <==> AccruesNothing(info.emissionsPerSecondX64, liquidity, elapsed)
  {
    if elapsed * info.emissionsPerSecondX64 < Q128 {
      DeltaIsFloor(info, liquidity, elapsed);
      FloorGreatest(elapsed * info.emissionsPerSecondX64, liquidity, 1);
    }
  }

  lemma {:induction false} AccruedOftenForNothing(info: RewardInfo, liquidity: u128, times: seq<u64>)
    requires info.initialized && liquidity > 0
    ensures AccruedOften(info, liquidity, times) == 0
       <==> forall j | 0 <= j < |times| :: AccruesNothing(info.emissionsPerSecondX64, liquidity, times[j])
  {
    if times != [] {
      var rest, rate := times[1..], info.emissionsPerSecondX64;
      AccruedOftenForNothing(info, liquidity, rest);
      DeltaIsNothing(info, liquidity, times[0]);
      hide AccruesNothing, RewardGrowthDelta;
      assert forall j | 0 < j < |times| :: times[j] == rest[j - 1];
      if forall j | 0 <= j < |rest| :: AccruesNothing(rate, liquidity, rest[j]) {
        forall j | 0 < j < |times| ensures AccruesNothing(rate, liquidity, times[j]) {
          assert AccruesNothing(rate, liquidity, rest[j - 1]);
        }
      } else {
        var j :| 0 <= j < |rest| && !AccruesNothing(rate, liquidity, rest[j]);
        assert !AccruesNothing(rate, liquidity, times[j + 1]);
      }
    }
  }

  /**
   * One accrual grows at least as much as many exactly when its product does not overflow, or each of the
   * many intervals would have accrued nothing.
   */
  lemma OneAccrualIsBest(info: RewardInfo, liquidity: u128, times: seq<u64>)
    requires info.initialized && liquidity > 0 && times != [] && Total(times) < Q64
    ensures AccruedOften(info, liquidity, times) <= RewardGrowthDelta(info, liquidity, Total(times))
       <==> || Total(times) * info.emissionsPerSecondX64 < Q128
            || forall j | 0 <= j < |times| :: AccruesNothing(info.emissionsPerSecondX64, liquidity, times[j])
  {
    AccruedOftenForNothing(info, liquidity, times);
    DeltaIsNothing(info, liquidity, Total(times));
    hide AccruesNothing, RewardGrowthDelta;
    if Total(times) * info.emissionsPerSecondX64 < Q128 {
      AccruingOftenLosesLittle(info, liquidity, times);
    }
  }

  /** At 2^111 per second, two stretches of 2^16 seconds accrue 2^127 of growth to liquidity 2, and one of 2^17 none. */
  lemma OneAccrualCanForfeit()
    ensures var info, times := RewardInfo(true, 0x8000_0000_0000_0000_0000_0000_0000, 0), [0x1_0000, 0x1_0000];
            && AccruedOften(info, 2, times) == 0x8000_0000_0000_0000_0000_0000_0000_0000
            && RewardGrowthDelta(info, 2, Total(times)) == 0
  {
    var info: RewardInfo := RewardInfo(true, 0x8000_0000_0000_0000_0000_0000_0000, 0);
    var times: seq<u64> := [0x1_0000, 0x1_0000];
    assert times[1..] == [0x1_0000] && times[1..][1..] == [];
    assert Total(times[1..]) == 0x1_0000 && Total(times) == 0x2_0000;
    assert RewardGrowthDelta(info, 2, 0x1_0000) == 0x4000_0000_0000_0000_0000_0000_0000_0000;
    assert RewardGrowthDelta(info, 2, 0x2_0000) == 0;
    hide RewardGrowthDelta;
    assert AccruedOften(info, 2, times[1..]) == 0x4000_0000_0000_0000_0000_0000_0000_0000;
  }

  lemma DeltaIsFloor(info: RewardInfo, liquidity: u128, elapsed: u64)
    requires info.initialized && liquidity > 0 && elapsed * info.emissionsPerSecondX64 < Q128
    ensures 0 <= elapsed * info.emissionsPerSecondX64
    ensures RewardGrowthDelta(info, liquidity, elapsed) == FloorDiv(elapsed * info.emissionsPerSecondX64, liquidity)
  {
  }

  lemma FloorBetween(n: nat, d: int, q: nat, slack: nat)
    requires d > 0 && d * q <= n < d * (q + slack)
    ensures q <= FloorDiv(n, d) <= q + slack - 1
  {
    FloorGreatest(n, d, q);
    FloorGreatest(n, d, q + slack);
  }
}
