/** The terms of a trade: its fees and how they are divided, its price, and the trader's own limit. */
module TradeTerms {
  import opened Arithmetic
  import opened Outcome
  import opened CurveAmounts
  import opened State
  import opened SwapMath
  import opened WhirlpoolManager
  import opened TickManager
  import opened TickSearch
  import opened SwapManager
  import opened Instructions
  import opened Ledger
  import opened PrincipalProofs
  import opened SwapProofs
  import opened StepProofs

  // ---- one step's fee ----

  /** Growth of the input token's fees recorded by the latest step. */
  function LatestGrowth(q: SwapRequest, c: SwapCursor): nat
    requires c.accruals != []
  {
    c.accruals[|c.accruals| - 1].amounts[if q.aToB then 0 else 1]
  }

  /** `growth` gives `liquidity` its part of `fee`, up to less than one unit; with nobody in range there is none. */
  predicate GrowthOfFee(growth: nat, fee: int, liquidity: nat) {
    if liquidity == 0 then growth == 0 else liquidity * growth <= fee * Q64 < liquidity * (growth + 1)
  }

  /**
   * How a step's fee is divided: the protocol gets its rate of it, rounded down once, in ten-thousandths; all the rest
   * is the liquidity providers', and is the growth recorded for the tick the step began in.
   */
  lemma FeeIsDivided(s: Pool, q: SwapRequest, c: SwapCursor, step: SwapStep)
    requires s.protocolFeeRate <= MAX_PROTOCOL_FEE_RATE && AfterFees(s, q, c, step).Ok?
    ensures var next := AfterFees(s, q, c, step).value;
            var share, rest := next.protocolShares - c.protocolShares, next.lpFees - c.lpFees;
            && share + rest == step.feeAmount
            && 10_000 * share <= step.feeAmount * s.protocolFeeRate < 10_000 * (share + 1)
            && next.protocolFee == (c.protocolFee + share) % Q64
            && |next.accruals| == |c.accruals| + 1 && next.accruals[..|c.accruals|] == c.accruals
            && next.accruals[|c.accruals|] == Accrual(c.tick, FeeAmounts(q.aToB, LatestGrowth(q, next)))
            && GrowthOfFee(LatestGrowth(q, next), rest, c.liquidity)
            && next.feeGrowthInput == (c.feeGrowthInput + LatestGrowth(q, next)) % Q128
  {
    var share := ProtocolShare(step.feeAmount, s.protocolFeeRate);
    var next := AfterFees(s, q, c, step).value;
    var growth := FeeGrowth(step.feeAmount - share, c.liquidity);
    assert next.accruals == c.accruals + [Accrual(c.tick, FeeAmounts(q.aToB, growth))];
    assert LatestGrowth(q, next) == growth;
    ShareIsFloor(step.feeAmount, s.protocolFeeRate);
    GrowthIsFloor(step.feeAmount - share, c.liquidity);
    hide ProtocolShare, FeeGrowth, GrowthOfFee, SpendAmounts;
  }

  lemma ShareIsFloor(fee: u64, rate: nat)
    requires rate <= MAX_PROTOCOL_FEE_RATE
    ensures 10_000 * ProtocolShare(fee, rate) <= fee * rate < 10_000 * (ProtocolShare(fee, rate) + 1)
  {
  }

  lemma GrowthIsFloor(fee: u64, liquidity: u128)
    ensures GrowthOfFee(FeeGrowth(fee, liquidity), fee, liquidity)
  {
    var g := FeeGrowth(fee, liquidity);
    assert liquidity * (g + 1) == g * liquidity + liquidity;
  }

  // ---- the fees of a whole swap ----

  /** Input charged up to a cursor, fees included, and output paid. */
  function Charged(q: SwapRequest, c: SwapCursor): int {
    if q.isInput then q.amount - c.amountRemaining else c.amountCalculated
  }

  function Paid(q: SwapRequest, c: SwapCursor): int {
    if q.isInput then c.amountCalculated else q.amount - c.amountRemaining
  }

  /** All fees up to a cursor. */
  function Fees(c: SwapCursor): nat { c.lpFees + c.protocolShares }

  function TurnsBetween(c: SwapCursor, d: SwapCursor): int { |d.accruals| - |c.accruals| }

  /** A step that does not exceed the amount left is booked in full, exactly if the other amount still fits 64 bits. */
  lemma StepIsBooked(s: Pool, q: SwapRequest, c: SwapCursor, step: SwapStep)
    requires s.protocolFeeRate <= MAX_PROTOCOL_FEE_RATE
    requires (if q.isInput then step.amountIn + step.feeAmount else step.amountOut) <= c.amountRemaining
    ensures var r := AfterFees(s, q, c, step);
            && (r.Ok? <==>
                  c.amountCalculated + (if q.isInput then step.amountOut else step.amountIn + step.feeAmount) < Q64)
            && (r.Ok? ==> Charged(q, r.value) == Charged(q, c) + step.amountIn + step.feeAmount
                          && Paid(q, r.value) == Paid(q, c) + step.amountOut
                          && r.value.sqrtPrice == c.sqrtPrice && r.value.tick == c.tick && r.value.ticks == c.ticks
                          && r.value.liquidity == c.liquidity && r.value.arrayIndex == c.arrayIndex)
  {
    hide ProtocolShare, FeeGrowth;
  }

  /**
   * From `c` to `d` the fees are at least the fee rate of all that was charged, and for exact output at most one token
   * more for each turn; the protocol's part is its rate of the fees, up to one token for each turn.
   */
  predicate FeesAreDue(s: Pool, q: SwapRequest, c: SwapCursor, d: SwapCursor) {
    var turns, fees, charged := TurnsBetween(c, d), Fees(d) - Fees(c), Charged(q, d) - Charged(q, c);
    var share := d.protocolShares - c.protocolShares;
    && 0 <= turns && 0 <= charged && Paid(q, c) <= Paid(q, d)
    && s.feeRate * charged <= 1_000_000 * fees
    && (!q.isInput ==> 1_000_000 * fees <= s.feeRate * charged + 1_000_000 * turns)
    && 10_000 * share <= fees * s.protocolFeeRate <= 10_000 * (share + turns)
  }

  lemma StepFeesAreDue(s: Pool, q: SwapRequest, c: SwapCursor, step: SwapStep, target: u128)
    requires WellFormed(s) && 0 < c.sqrtPrice && 0 < target && Toward(c.sqrtPrice, target, q.aToB)
    requires ComputeSwap(c.amountRemaining, s.feeRate, c.liquidity, c.sqrtPrice, target, q.isInput, q.aToB) == Ok(step)
    requires AfterFees(s, q, c, step).Ok?
    ensures FeesAreDue(s, q, c, AfterFees(s, q, c, step).value)
  {
    FeeIsDue(c.amountRemaining, s.feeRate, c.liquidity, c.sqrtPrice, target, q.isInput, q.aToB);
    FeeIsDivided(s, q, c, step);
    hide ComputeSwap, StopsShort, ProtocolShare, FeeGrowth, GrowthOfFee;
  }

  /** Passing a stop leaves amounts and fees alone. */
  lemma FinishKeepsFees(s: Pool, q: SwapRequest, c: SwapCursor, stop: (nat, int), step: SwapStep)
    requires WellFormed(s) && s.tickSpacing > 0
    requires MIN_TICK_INDEX <= stop.1 <= MAX_TICK_INDEX && stop.0 < |q.arrays|
    requires FinishStep(s, q, c, stop, step).Ok?
    ensures AfterFees(s, q, c, step).Ok?
    ensures var paid, next := AfterFees(s, q, c, step).value, FinishStep(s, q, c, stop, step).value;
            && next.amountRemaining == paid.amountRemaining && next.amountCalculated == paid.amountCalculated
            && next.lpFees == paid.lpFees && next.protocolShares == paid.protocolShares && next.accruals == paid.accruals
  {
    hide ProtocolShare, FeeGrowth, SpendAmounts, NextTickCrossUpdate, LiquidityAfterCross, Visible;
  }

  lemma TurnFeesAreDue(s: Pool, q: SwapRequest, c: SwapCursor)
    requires CursorOk(s, q, c) && Unfinished(q, c) && SwapIterate(s, q, c).Ok?
    ensures FeesAreDue(s, q, c, SwapIterate(s, q, c).value)
  {
    StopIsAhead(s, q, c);
    var stop := GetNextInitializedTickIndex(c.ticks, q.arrays, s.tickSpacing, c.tick, q.aToB, c.arrayIndex).value;
    var target := StepTarget(s.curve, q, stop.1);
    var step := ComputeSwap(c.amountRemaining, s.feeRate, c.liquidity, c.sqrtPrice, target, q.isInput, q.aToB).value;
    hide GetNextInitializedTickIndex, ComputeSwap, AfterFees, FinishStep, StepTarget, FeesAreDue;
    FinishKeepsFees(s, q, c, stop, step);
    StepFeesAreDue(s, q, c, step, target);
    SameFees(s, q, c, AfterFees(s, q, c, step).value, SwapIterate(s, q, c).value);
  }

  lemma SameFees(s: Pool, q: SwapRequest, c: SwapCursor, paid: SwapCursor, next: SwapCursor)
    requires FeesAreDue(s, q, c, paid)
    requires next.amountRemaining == paid.amountRemaining && next.amountCalculated == paid.amountCalculated
    requires next.lpFees == paid.lpFees && next.protocolShares == paid.protocolShares && next.accruals == paid.accruals
    ensures FeesAreDue(s, q, c, next)
  {
  }

  lemma FeesCompose(s: Pool, q: SwapRequest, c: SwapCursor, d: SwapCursor, e: SwapCursor)
    requires FeesAreDue(s, q, c, d) && FeesAreDue(s, q, d, e)
    ensures FeesAreDue(s, q, c, e)
  {
    Distributes(s.feeRate, Charged(q, e) - Charged(q, d), Charged(q, d) - Charged(q, c));
    Distributes(s.protocolFeeRate, Fees(e) - Fees(d), Fees(d) - Fees(c));
    hide Charged, Fees, Paid;
  }

  lemma Distributes(rate: int, x: int, y: int)
    ensures rate * (x + y) == rate * x + rate * y && (x + y) * rate == x * rate + y * rate
  {
  }

  lemma {:induction false} LoopFeesAreDue(s: Pool, q: SwapRequest, c: SwapCursor)
    requires CursorOk(s, q, c) && SwapLoop(s, q, c).Ok?
    ensures FeesAreDue(s, q, c, SwapLoop(s, q, c).value)
    decreases TurnsLeft(q, c)
  {
    if Unfinished(q, c) {
      IterateKeepsCursor(s, q, c);
      TurnFeesAreDue(s, q, c);
      var next := SwapIterate(s, q, c).value;
      LoopFeesAreDue(s, q, next);
      FeesCompose(s, q, c, next, SwapLoop(s, q, c).value);
    } else {
      assert s.feeRate * 0 == 0 == 0 * s.protocolFeeRate;
    }
    hide SwapIterate, CursorOk;
  }

  // ---- the price of a whole swap ----

  /** Vault and exact principal of the token a swap brings in, and of the one it takes out. */
  function VaultIn(s: Pool, q: SwapRequest): int { if q.aToB then s.vaultA else s.vaultB }

  function VaultOut(s: Pool, q: SwapRequest): int { if q.aToB then s.vaultB else s.vaultA }

  ghost function PrincipalIn(s: Pool, q: SwapRequest): real
    requires WellFormed(s)
  {
    if q.aToB then TotalPrincipalA(s) else TotalPrincipalB(s)
  }

  ghost function PrincipalOut(s: Pool, q: SwapRequest): real
    requires WellFormed(s)
  {
    if q.aToB then TotalPrincipalB(s) else TotalPrincipalA(s)
  }

  /**
   * From `u` to `v` the trader brought the fees and what the positions' principal gained on the curve, and took out what
   * it lost, each up to one token for each turn, rounded against the trader. For exact output only the rounding of what
   * is taken out is not bounded this way: it stops at the amount asked for.
   */
  ghost predicate PricedTightly(u: Pool, v: Pool, q: SwapRequest, fees: int, turns: int)
    requires WellFormed(u) && WellFormed(v)
  {
    var surplus := (VaultIn(v, q) - VaultIn(u, q) - fees) as real - (PrincipalIn(v, q) - PrincipalIn(u, q));
    var kept := PrincipalOut(u, q) - PrincipalOut(v, q) - (VaultOut(u, q) - VaultOut(v, q)) as real;
    && 0.0 <= surplus <= turns as real
    && 0.0 <= kept && (q.isInput ==> kept <= turns as real)
  }

  lemma StepIsPricedTightly(w: World, q: SwapRequest, c: SwapCursor, stop: (nat, int), step: SwapStep)
    requires CursorOk(w.pool, q, c) && TurnIs(w.pool, q, c, stop, step)
    requires ComputeSwap(c.amountRemaining, w.pool.feeRate, c.liquidity, c.sqrtPrice, StepTarget(w.pool.curve, q, stop.1),
                         q.isInput, q.aToB) == Ok(step)
    requires TickSums(AtCursor(w.pool, q, c)) && ActiveSum(AtCursor(w.pool, q, c))
    requires FinishStep(w.pool, q, c, stop, step).Ok?
    requires WellFormed(AtCursor(w.pool, q, c))
    requires WellFormed(AtCursor(w.pool, q, FinishStep(w.pool, q, c, stop, step).value))
    ensures PricedTightly(AtCursor(w.pool, q, c), AtCursor(w.pool, q, FinishStep(w.pool, q, c, stop, step).value), q,
                          step.feeAmount, 1)
  {
    hide TotalPrincipalA, TotalPrincipalB, ExactA, ExactB, FinishStep, Recip, ComputeSwap, StopsShort, StepTarget, TickSums,
         ActiveSum;
    ComputeSwapIsTight(c.amountRemaining, w.pool.feeRate, c.liquidity, c.sqrtPrice, StepTarget(w.pool.curve, q, stop.1),
                       q.isInput, q.aToB);
    var u, v := WorldAt(w, q, c), WorldAt(w, q, FinishStep(w.pool, q, c, stop, step).value);
    StepKeepsSides(w, q, c, stop, step);
    TurnMovesTokens(w, q, c, stop, step);
    TotalPrincipalMovesA(u.pool, v.pool);
    TotalPrincipalMovesB(u.pool, v.pool);
    ExactFlips(c.liquidity, c.sqrtPrice, step.nextPrice);
  }

  lemma TurnIsPricedTightly(w: World, q: SwapRequest, c: SwapCursor)
    requires CursorOk(w.pool, q, c) && Unfinished(q, c) && SwapIterate(w.pool, q, c).Ok? && Valid(WorldAt(w, q, c))
    ensures var next := SwapIterate(w.pool, q, c).value;
            && Valid(WorldAt(w, q, next)) && TurnsBetween(c, next) == 1
            && PricedTightly(AtCursor(w.pool, q, c), AtCursor(w.pool, q, next), q, Fees(next) - Fees(c), 1)
  {
    TurnKeepsValid(w, q, c);
    var stop, step := BookedStep(w, q, c);
    hide Valid, SwapIterate, FinishStep, AfterFees, AtCursor, BooksAtCursor, CursorOk, TurnIs, ComputeSwap, PricedTightly;
    ValidParts(WorldAt(w, q, c));
    ValidParts(WorldAt(w, q, SwapIterate(w.pool, q, c).value));
    ValidSums(WorldAt(w, q, c));
    StepIsPricedTightly(w, q, c, stop, step);
  }

  lemma ValidSums(w: World)
    requires Valid(w)
    ensures TickSums(w.pool) && ActiveSum(w.pool)
  {
  }

  /** The stop and the computed step a turn is made of, and the fee it books. */
  lemma BookedStep(w: World, q: SwapRequest, c: SwapCursor) returns (stop: (nat, int), step: SwapStep)
    requires CursorOk(w.pool, q, c) && Unfinished(q, c) && SwapIterate(w.pool, q, c).Ok?
    ensures TurnIs(w.pool, q, c, stop, step)
    ensures ComputeSwap(c.amountRemaining, w.pool.feeRate, c.liquidity, c.sqrtPrice, StepTarget(w.pool.curve, q, stop.1),
                        q.isInput, q.aToB) == Ok(step)
    ensures SwapIterate(w.pool, q, c) == FinishStep(w.pool, q, c, stop, step)
    ensures var next := SwapIterate(w.pool, q, c).value;
            TurnsBetween(c, next) == 1 && Fees(next) - Fees(c) == step.feeAmount
  {
    StopIsAhead(w.pool, q, c);
    stop := GetNextInitializedTickIndex(c.ticks, q.arrays, w.pool.tickSpacing, c.tick, q.aToB, c.arrayIndex).value;
    var target := StepTarget(w.pool.curve, q, stop.1);
    step := ComputeSwap(c.amountRemaining, w.pool.feeRate, c.liquidity, c.sqrtPrice, target, q.isInput, q.aToB).value;
    ComputeSwapIsFair(c.amountRemaining, w.pool.feeRate, c.liquidity, c.sqrtPrice, target, q.isInput, q.aToB);
    hide GetNextInitializedTickIndex, ComputeSwap, AfterFees, FinishStep, StepTarget, NextStop, StepIsFair;
    FinishKeepsFees(w.pool, q, c, stop, step);
    FeeIsDivided(w.pool, q, c, step);
  }

  lemma TightlyComposes(u: Pool, v: Pool, x: Pool, q: SwapRequest, f: int, g: int, m: int, n: int)
    requires WellFormed(u) && WellFormed(v) && WellFormed(x)
    requires PricedTightly(u, v, q, f, m) && PricedTightly(v, x, q, g, n)
    ensures PricedTightly(u, x, q, f + g, m + n)
  {
    hide PrincipalIn, PrincipalOut, VaultIn, VaultOut;
  }

  lemma {:induction false} LoopIsPricedTightly(w: World, q: SwapRequest, c: SwapCursor)
    requires CursorOk(w.pool, q, c) && SwapLoop(w.pool, q, c).Ok? && Valid(WorldAt(w, q, c))
    ensures var end := SwapLoop(w.pool, q, c).value;
            && Valid(WorldAt(w, q, end))
            && PricedTightly(AtCursor(w.pool, q, c), AtCursor(w.pool, q, end), q, Fees(end) - Fees(c),
                             TurnsBetween(c, end))
    decreases TurnsLeft(q, c)
  {
    hide SwapIterate, CursorOk, AtCursor, BooksAtCursor, Valid, PricedTightly;
    ValidParts(WorldAt(w, q, c));
    if Unfinished(q, c) {
      IterateKeepsCursor(w.pool, q, c);
      TurnIsPricedTightly(w, q, c);
      var next, end := SwapIterate(w.pool, q, c).value, SwapLoop(w.pool, q, c).value;
      UnfinishedHasTurns(w.pool, q, c);
      LoopIsPricedTightly(w, q, next);
      ValidParts(WorldAt(w, q, next));
      ValidParts(WorldAt(w, q, end));
      TightlyComposes(AtCursor(w.pool, q, c), AtCursor(w.pool, q, next), AtCursor(w.pool, q, end), q,
                      Fees(next) - Fees(c), Fees(end) - Fees(next), 1, TurnsBetween(next, end));
    } else {
      NothingIsPricedTightly(AtCursor(w.pool, q, c), q);
    }
  }

  lemma NothingIsPricedTightly(s: Pool, q: SwapRequest)
    requires WellFormed(s)
    ensures PricedTightly(s, s, q, 0, 0)
  {
    hide TotalPrincipalA, TotalPrincipalB;
  }

  // ---- the whole instruction ----

  /**
   * A trade never moves more than the amount specified, and less only if it met its price limit; the other amount keeps
   * the trader's own threshold.
   */
  predicate KeepsLimits(s: Pool, v: Pool, q: SwapRequest, threshold: u64) {
    var charged, paid := VaultIn(v, q) - VaultIn(s, q), VaultOut(s, q) - VaultOut(v, q);
    var specified := if q.isInput then charged else paid;
    && 0 <= charged && 0 <= paid && specified <= q.amount
    && (specified < q.amount ==> v.sqrtPrice == q.sqrtPriceLimit)
    && (if q.isInput then threshold <= paid else charged <= threshold)
  }

  /** The finished swap behind a successful trade, and what it moved. */
  lemma TradeIsSwap(s: Pool, q: SwapRequest, threshold: u64, timestamp: u64)
    requires Aligned(s) && SwapTokens(s, q, threshold, timestamp).Ok?
    ensures AccrueRewards(s, timestamp).Ok? && ArraysAligned(q.arrays, s.tickSpacing)
    ensures var u, v := AccrueRewards(s, timestamp).value, SwapTokens(s, q, threshold, timestamp).value;
            && Aligned(u) && u.tickSpacing == s.tickSpacing && u.feeRate == s.feeRate
            && u.protocolFeeRate == s.protocolFeeRate && u.vaultA == s.vaultA && u.vaultB == s.vaultB
            && Refusal(u, q).None? && Swap(u, q).Ok?
            && var c := Swap(u, q).value;
               && v == AtCursor(u, q, c)
               && VaultIn(v, q) - VaultIn(s, q) == Charged(q, c) && VaultOut(s, q) - VaultOut(v, q) == Paid(q, c)
               && (if q.isInput then threshold <= Paid(q, c) else Charged(q, c) <= threshold)
  {
    hide Swap;
  }

  lemma SwapKeepsLimits(u: Pool, q: SwapRequest)
    requires Aligned(u) && ArraysAligned(q.arrays, u.tickSpacing) && Swap(u, q).Ok?
    ensures var c := Swap(u, q).value;
            && FeesAreDue(u, q, StartCursor(u, q), c)
            && (c.amountRemaining > 0 ==> AtCursor(u, q, c).sqrtPrice == q.sqrtPriceLimit)
  {
    LoopFeesAreDue(u, q, StartCursor(u, q));
    hide SwapLoop, FeesAreDue;
  }

  lemma TradeKeepsLimits(s: Pool, q: SwapRequest, threshold: u64, timestamp: u64)
    requires Aligned(s) && SwapTokens(s, q, threshold, timestamp).Ok?
    ensures KeepsLimits(s, SwapTokens(s, q, threshold, timestamp).value, q, threshold)
  {
    TradeIsSwap(s, q, threshold, timestamp);
    SwapKeepsLimits(AccrueRewards(s, timestamp).value, q);
    hide SwapTokens, Swap, AccrueRewards, Aligned, AtCursor, VaultIn, VaultOut;
  }

  /**
   * What a trade costs: the fees are at least the fee rate of all it charges, the protocol's part is its rate of the
   * fees, and beside the fees it is priced as the curve is.
   */
  lemma TradeKeepsTerms(w: World, q: SwapRequest, threshold: u64, timestamp: u64)
    requires Valid(w) && SwapTokens(w.pool, q, threshold, timestamp).Ok?
    ensures AccrueRewards(w.pool, timestamp).Ok? && ArraysAligned(q.arrays, w.pool.tickSpacing)
    ensures var s, v := w.pool, SwapTokens(w.pool, q, threshold, timestamp).value;
            var u := AccrueRewards(s, timestamp).value;
            && Aligned(u) && u.tickSpacing == s.tickSpacing && Swap(u, q).Ok? && WellFormed(s) && WellFormed(v)
            && var c := Swap(u, q).value;
               && VaultIn(v, q) - VaultIn(s, q) == Charged(q, c) && VaultOut(s, q) - VaultOut(v, q) == Paid(q, c)
               && FeesAreDue(s, q, StartCursor(s, q), c)
               && PricedTightly(s, v, q, Fees(c), |c.accruals|)
  {
    ValidParts(w);
    hide Valid, SwapTokens, Swap, AtCursor, AccrueRewards, FeesAreDue, PricedTightly, VaultIn, VaultOut, Charged, Paid;
    TradeIsSwap(w.pool, q, threshold, timestamp);
    AccruedSwapIsPriced(w, q, timestamp);
    AccruedFeesAreDue(w.pool, q, timestamp);
  }

  lemma AccruedFeesAreDue(s: Pool, q: SwapRequest, timestamp: u64)
    requires Aligned(s) && AccrueRewards(s, timestamp).Ok?
    requires var u := AccrueRewards(s, timestamp).value;
             && Aligned(u) && ArraysAligned(q.arrays, u.tickSpacing) && Swap(u, q).Ok?
    ensures FeesAreDue(s, q, StartCursor(s, q), Swap(AccrueRewards(s, timestamp).value, q).value)
  {
    var u := AccrueRewards(s, timestamp).value;
    hide NextWhirlpoolRewardInfos, WellFormed, FeesAreDue, Swap;
    SwapKeepsLimits(u, q);
    assert StartCursor(u, q) == StartCursor(s, q);
    SameRates(s, u, q, StartCursor(s, q), Swap(u, q).value);
  }

  lemma SameRates(s: Pool, u: Pool, q: SwapRequest, c: SwapCursor, d: SwapCursor)
    requires FeesAreDue(u, q, c, d) && u.feeRate == s.feeRate && u.protocolFeeRate == s.protocolFeeRate
    ensures FeesAreDue(s, q, c, d)
  {
  }

  lemma AccruedSwapIsPriced(w: World, q: SwapRequest, timestamp: u64)
    requires Valid(w) && AccrueRewards(w.pool, timestamp).Ok? && ArraysAligned(q.arrays, w.pool.tickSpacing)
    requires Aligned(AccrueRewards(w.pool, timestamp).value)
    requires AccrueRewards(w.pool, timestamp).value.tickSpacing == w.pool.tickSpacing
    requires Swap(AccrueRewards(w.pool, timestamp).value, q).Ok?
    ensures var u := AccrueRewards(w.pool, timestamp).value; var c := Swap(u, q).value;
            && WellFormed(w.pool) && WellFormed(AtCursor(u, q, c))
            && PricedTightly(w.pool, AtCursor(u, q, c), q, Fees(c), |c.accruals|)
  {
    ValidParts(w);
    AccrualKeepsVaults(w.pool, timestamp);
    hide Valid, AccrueRewards, Swap, PricedTightly, AtCursor, BooksAccrued, WellFormed, TotalPrincipalA, TotalPrincipalB;
    AccrueKeepsValid(w, timestamp);
    var u := Accrued(w, timestamp);
    SwapIsPricedTightly(u, q);
    PricedFrom(w.pool, u.pool, AtCursor(u.pool, q, Swap(u.pool, q).value), q, Fees(Swap(u.pool, q).value),
               |Swap(u.pool, q).value.accruals|);
  }

  lemma SwapIsPricedTightly(w: World, q: SwapRequest)
    requires Valid(w) && Aligned(w.pool) && ArraysAligned(q.arrays, w.pool.tickSpacing) && Swap(w.pool, q).Ok?
    ensures var c := Swap(w.pool, q).value;
            && WellFormed(w.pool) && WellFormed(AtCursor(w.pool, q, c))
            && PricedTightly(w.pool, AtCursor(w.pool, q, c), q, Fees(c), |c.accruals|)
  {
    hide Valid, SwapLoop, PricedTightly, AtCursor, BooksAtCursor, WellFormed;
    StartIsHere(w, q);
    LoopIsPricedTightly(w, q, StartCursor(w.pool, q));
    ValidParts(w);
    ValidParts(WorldAt(w, q, Swap(w.pool, q).value));
  }

  lemma AccrualKeepsVaults(s: Pool, timestamp: u64)
    requires WellFormed(s) && AccrueRewards(s, timestamp).Ok?
    ensures var u := AccrueRewards(s, timestamp).value;
            && WellFormed(u) && u.vaultA == s.vaultA && u.vaultB == s.vaultB
            && TotalPrincipalA(u) == TotalPrincipalA(s) && TotalPrincipalB(u) == TotalPrincipalB(s)
  {
    hide NextWhirlpoolRewardInfos, TotalPrincipalA, TotalPrincipalB;
    PrincipalSame(s, AccrueRewards(s, timestamp).value);
  }

  lemma PricedFrom(s: Pool, u: Pool, v: Pool, q: SwapRequest, fees: int, turns: int)
    requires WellFormed(s) && WellFormed(u) && WellFormed(v) && PricedTightly(u, v, q, fees, turns)
    requires u.vaultA == s.vaultA && u.vaultB == s.vaultB
    requires TotalPrincipalA(u) == TotalPrincipalA(s) && TotalPrincipalB(u) == TotalPrincipalB(s)
    ensures PricedTightly(s, v, q, fees, turns)
  {
    hide TotalPrincipalA, TotalPrincipalB, WellFormed;
  }
}
