/** Nobody's withdrawal can be refused for lack of tokens or of recorded liquidity. */
module Withdrawals {
  import opened Arithmetic
  import opened Outcome
  import opened TokenMath
  import opened CurveAmounts
  import opened State
  import opened TickManager
  import opened LiquidityManager
  import opened SwapMath
  import opened SwapManager
  import opened TickSearch
  import opened Instructions
  import opened Ledger
  import opened GrowthProofs
  import opened PrincipalProofs
  import opened ModifyProofs
  import opened SwapProofs
  import opened StepProofs
  import opened Runs
  import opened Theorems
  import opened SwapErrors
  import opened TradeTerms
  import opened Rounding
  import SdkMath

  // ---- the vaults cover every claim at once ----

  /** What one position is owed and could still be credited fits in what its channel earned and has not paid. */
  lemma PositionClaimFits(w: World, i: nat, k: int)
    requires BooksMatch(w) && i < |w.pool.positions| && 0 <= k < CHANNELS && Solvent(w, k)
    ensures Q64 * Owed(w.pool.positions[i], k) + w.pool.positions[i].liquidity * Pending(w, i, k)
         <= w.books.earned[k] - Q64 * w.books.paid[k]
  {
    var ps, n := w.pool.positions, |w.pool.positions|;
    SumBoundsTerm(OwedTerm(ps, k), n);
    assert OwedTerm(ps, k)(i) == Owed(ps[i], k);
    forall j | 0 <= j < n ensures 0 <= PendingTerm(ps, w.books, k)(j) {
      MulMono(0, GrowthInRange(w.books.history, w.books.since[j], ps[j].tickLowerIndex, ps[j].tickUpperIndex, k),
              ps[j].liquidity);
    }
    SumBoundsTerm(PendingTerm(ps, w.books, k), n);
    assert PendingTerm(ps, w.books, k)(i) == ps[i].liquidity * Pending(w, i, k);
  }

  function Vault(s: Pool, k: int): int
    requires 0 <= k < 2
  {
    if k == 0 then s.vaultA else s.vaultB
  }

  /** Fees earned and not paid are in the vault. */
  lemma FeesAreInVault(w: World, k: int)
    requires Valid(w) && 0 <= k < 2
    ensures w.books.earned[k] - Q64 * w.books.paid[k] <= Q64 * Vault(w.pool, k)
  {
    TotalPrincipalBounds(w.pool);
    hide TotalPrincipalA, TotalPrincipalB, TickSums, ActiveSum, IdleRewards, Telescopes, Solvent;
  }

  /**
   * A fee never overflows the program's arithmetic: with 64-bit vaults, in every reachable state the
   * product a settlement multiplies fits 128 bits, together with what is already owed.
   */
  lemma FeesNeverOverflow(w: World, i: nat, k: int)
    requires Valid(w) && i < |w.pool.positions| && 0 <= k < 2 && Vault(w.pool, k) < Q64
    ensures w.pool.positions[i].liquidity * Pending(w, i, k) + Q64 * Owed(w.pool.positions[i], k) < Q128
  {
    PositionClaimFits(w, i, k);
    FeesAreInVault(w, k);
    hide Valid, Pending;
  }

  /** So a settlement credits each fee exactly, and the 64-bit debt never wraps. */
  lemma FeesAreCreditedExactly(w: World, i: nat, delta: i128, timestamp: u64, k: int)
    requires Valid(w) && i < |w.pool.positions| && ModifyLiquidity(w.pool, i, delta, timestamp).Ok?
    requires 0 <= k < 2 && Vault(w.pool, k) < Q64
    ensures |ModifyLiquidity(w.pool, i, delta, timestamp).value.positions| == |w.pool.positions| == |w.books.since|
    ensures Owed(ModifyLiquidity(w.pool, i, delta, timestamp).value.positions[i], k)
         == Owed(w.pool.positions[i], k) + FairShare(w.pool.positions[i].liquidity, Pending(w, i, k))
  {
    ModifyIsModified(w, i, delta, timestamp);
    SettlementCreditsGrowth(w, i, delta, timestamp, k);
    FeesNeverOverflow(Accrued(w, timestamp), i, k);
    AccrualAddsNoFees(w, i, timestamp, k);
    var p := w.pool.positions[i];
    hide Valid, ModifyLiquidity, AccrueRewards, Pending, Modified, Earned, FairShare, WrapAdd64;
    ShareAdds(p.liquidity, Pending(w, i, k), Owed(p, k));
  }

  lemma ShareAdds(liquidity: nat, growth: nat, owed: u64)
    requires liquidity * growth + Q64 * owed < Q128
    ensures liquidity * growth < Q128
    ensures FairShare(liquidity, growth) < Q64
    ensures WrapAdd64(owed, FairShare(liquidity, growth)) == owed + FairShare(liquidity, growth)
  {
    MulMono(0, liquidity, growth);
  }

  lemma AccrualAddsNoFees(w: World, i: nat, timestamp: u64, k: int)
    requires AccrueRewards(w.pool, timestamp).Ok? && 0 <= k < 2
    requires BooksMatch(w) && i < |w.pool.positions|
    ensures Pending(Accrued(w, timestamp), i, k) == Pending(w, i, k)
  {
    var p, h := w.pool.positions[i], w.books.history;
    HistoryExtends(h, Accrual(w.pool.tickCurrentIndex, RewardAmounts(w.pool, timestamp)), w.books.since[i],
                   p.tickLowerIndex, p.tickUpperIndex, k);
  }

  /**
   * Owners of fees need not mind how often they settle: however the growth since the last settlement is divided,
   * settling once owes the exact fair share, at least what settling after each part owes, and for n parts
   * at most n - 1 tokens more.
   */
  lemma FeesSettleBestOnce(w: World, i: nat, k: int, growths: seq<nat>)
    requires Valid(w) && i < |w.pool.positions| && 0 <= k < 2 && Vault(w.pool, k) < Q64
    requires growths != [] && Total(growths) == Pending(w, i, k)
    ensures var p := w.pool.positions[i];
            var debt := PositionReward(Checkpoint(p, k), Owed(p, k));
            var each := SettledEach(p.liquidity, debt, growths).amountOwed;
            var once := SettledAtEnd(p.liquidity, debt, growths).amountOwed;
            && each <= once <= each + |growths| - 1
            && once == Owed(p, k) + FairShare(p.liquidity, Pending(w, i, k))
  {
    var p := w.pool.positions[i];
    FeesNeverOverflow(w, i, k);
    hide Valid, Pending, SettledEach, SettledAtEnd, Total;
    SafeSettlement(p.liquidity, PositionReward(Checkpoint(p, k), Owed(p, k)), growths);
  }

  // ---- the protocol's share ----

  /** What the protocol is owed of the token a swap brings in. */
  function ProtocolOwedIn(s: Pool, q: SwapRequest): u64 {
    if q.aToB then s.protocolFeeOwedA else s.protocolFeeOwedB
  }

  /** A turn brings tokens in, and adds its protocol share to the wrapped debt. */
  lemma TurnAddsShare(w: World, q: SwapRequest, c: SwapCursor)
    requires CursorOk(w.pool, q, c) && Unfinished(q, c) && SwapIterate(w.pool, q, c).Ok?
    ensures var next := SwapIterate(w.pool, q, c).value;
            var u, v := AtCursor(w.pool, q, c), AtCursor(w.pool, q, next);
            && c.protocolShares <= next.protocolShares
            && VaultIn(u, q) + (next.protocolShares - c.protocolShares) <= VaultIn(v, q)
            && (ProtocolOwedIn(u, q) + (next.protocolShares - c.protocolShares) < Q64 ==>
                  ProtocolOwedIn(v, q) == ProtocolOwedIn(u, q) + (next.protocolShares - c.protocolShares))
  {
    var stop, step := TurnParts(w.pool, q, c);
    TurnMovesTokens(w, q, c, stop, step);
    FinishBooksShare(w.pool, q, c, stop, step);
    OwedAtCursor(w.pool, q, c);
    OwedAtCursor(w.pool, q, SwapIterate(w.pool, q, c).value);
    hide SwapIterate, FinishStep, CursorOk, TurnIs, AtCursor, ProtocolShare, BooksAtCursor, WrapAdd64, ProtocolOwedIn;
    WrappedTwice(ProtocolOwedIn(w.pool, q), c.protocolFee, ProtocolShare(step.feeAmount, w.pool.protocolFeeRate));
  }

  lemma OwedAtCursor(s: Pool, q: SwapRequest, c: SwapCursor)
    ensures ProtocolOwedIn(AtCursor(s, q, c), q) == WrapAdd64(ProtocolOwedIn(s, q), c.protocolFee)
  {
    hide WrapAdd64, SwapAmounts;
  }

  lemma FinishBooksShare(s: Pool, q: SwapRequest, c: SwapCursor, stop: (nat, int), step: SwapStep)
    requires CursorOk(s, q, c) && TurnIs(s, q, c, stop, step) && FinishStep(s, q, c, stop, step).Ok?
    ensures var next, share := FinishStep(s, q, c, stop, step).value, ProtocolShare(step.feeAmount, s.protocolFeeRate);
            next.protocolShares == c.protocolShares + share && next.protocolFee == WrapAdd64(c.protocolFee, share)
  {
    hide SpendAmounts, ProtocolShare, FeeGrowth, WrapAdd64, CursorOk, TurnIs;
  }

  lemma WrappedTwice(owed: u64, fee: u64, share: u64)
    ensures WrapAdd64(owed, fee) + share < Q64 ==>
              WrapAdd64(owed, WrapAdd64(fee, share)) == WrapAdd64(owed, fee) + share
  {
  }

  /** Through the loop the incoming vault only grows, and while it holds 64 bits the protocol's debt never wraps. */
  lemma {:induction false} SharesAddUp(w: World, q: SwapRequest, c: SwapCursor)
    requires CursorOk(w.pool, q, c) && Valid(WorldAt(w, q, c)) && SwapLoop(w.pool, q, c).Ok?
    ensures var end := SwapLoop(w.pool, q, c).value;
            var u, v := AtCursor(w.pool, q, c), AtCursor(w.pool, q, end);
            && VaultIn(u, q) <= VaultIn(v, q) && c.protocolShares <= end.protocolShares
            && (VaultIn(v, q) < Q64 ==>
                  ProtocolOwedIn(v, q) == ProtocolOwedIn(u, q) + (end.protocolShares - c.protocolShares))
    decreases TurnsLeft(q, c)
  {
    if Unfinished(q, c) {
      IterateKeepsCursor(w.pool, q, c);
      TurnAddsShare(w, q, c);
      TurnKeepsValid(w, q, c);
      OwedWithinVault(WorldAt(w, q, c), q);
      SharesAddUp(w, q, SwapIterate(w.pool, q, c).value);
    }
    hide SwapIterate, CursorOk, AtCursor, Valid;
  }

  lemma OwedWithinVault(w: World, q: SwapRequest)
    requires Valid(w)
    ensures ProtocolOwedIn(w.pool, q) <= VaultIn(w.pool, q)
  {
    VaultAbovePrincipal(w);
    hide Valid, TotalPrincipalA, TotalPrincipalB;
  }

  /** A swap that leaves 64-bit vaults adds its whole protocol share to what the protocol is owed. */
  lemma ProtocolFeesNeverWrap(w: World, q: SwapRequest, threshold: u64, timestamp: u64)
    requires Valid(w) && SwapTokens(w.pool, q, threshold, timestamp).Ok?
    requires VaultsFit(SwapTokens(w.pool, q, threshold, timestamp).value)
    ensures AccrueRewards(w.pool, timestamp).Ok? && ArraysAligned(q.arrays, w.pool.tickSpacing)
    ensures var u, v := AccrueRewards(w.pool, timestamp).value, SwapTokens(w.pool, q, threshold, timestamp).value;
            && Aligned(u) && u.tickSpacing == w.pool.tickSpacing && Swap(u, q).Ok?
            && ProtocolOwedIn(v, q) == ProtocolOwedIn(w.pool, q) + Swap(u, q).value.protocolShares
  {
    AccrueKeepsValid(w, timestamp);
    var u := Accrued(w, timestamp);
    StartIsHere(u, q);
    SharesAddUp(u, q, StartCursor(u.pool, q));
    hide Valid, SwapLoop, CursorOk, BooksAtCursor, SwapAmounts;
  }

  /** Fees a channel has credited but not paid, and growth still pending, fit in what it earned and has not paid. */
  lemma ClaimsFit(w: World, k: int)
    requires BooksMatch(w) && Telescopes(w) && 0 <= k < CHANNELS && Solvent(w, k)
    ensures 0 <= Sum(UnsettledTerm(w.pool, k), |w.pool.positions|)
    ensures 0 <= Sum(OwedTerm(w.pool.positions, k), |w.pool.positions|)
    ensures forall i | 0 <= i < |w.pool.positions| ::
              Owed(w.pool.positions[i], k) <= Sum(OwedTerm(w.pool.positions, k), |w.pool.positions|)
    ensures Sum(OwedTerm(w.pool.positions, k), |w.pool.positions|) as real
            + Sum(UnsettledTerm(w.pool, k), |w.pool.positions|) as real / Q64 as real
         <= w.books.earned[k] as real / Q64 as real - w.books.paid[k] as real
  {
    var n := |w.pool.positions|;
    ChannelClaimsFit(w, k);
    TermsNonNegative(w, k);
    SumBoundsTerm(UnsettledTerm(w.pool, k), n);
    SumBoundsTerm(OwedTerm(w.pool.positions, k), n);
    forall i | 0 <= i < n
      ensures Owed(w.pool.positions[i], k) <= Sum(OwedTerm(w.pool.positions, k), n)
    {
      assert OwedTerm(w.pool.positions, k)(i) == Owed(w.pool.positions[i], k);
    }
    hide UnsettledTerm, OwedTerm, Solvent, Telescopes;
  }

  lemma TermsNonNegative(w: World, k: int)
    requires 0 <= k < CHANNELS
    ensures forall i | 0 <= i < |w.pool.positions| ::
              0 <= UnsettledTerm(w.pool, k)(i) && 0 <= OwedTerm(w.pool.positions, k)(i)
  {
    forall i | 0 <= i < |w.pool.positions| ensures 0 <= UnsettledTerm(w.pool, k)(i) {
      var p := w.pool.positions[i];
      MulMono(0, WrapSub(Inside(w.pool, p.tickLowerIndex, p.tickUpperIndex, k), Checkpoint(p, k)), p.liquidity);
    }
  }

  /**
   * In every reachable state each vault holds at least: the exact curve amount of all
   * positions, all fees owed, all fees not yet settled, and the protocol's share.
   */
  lemma VaultsCoverAllClaims(w: World)
    requires Valid(w)
    ensures w.pool.vaultA as real >= TotalPrincipalA(w.pool)
            + Sum(OwedTerm(w.pool.positions, 0), |w.pool.positions|) as real
            + Sum(UnsettledTerm(w.pool, 0), |w.pool.positions|) as real / Q64 as real
            + w.pool.protocolFeeOwedA as real
    ensures w.pool.vaultB as real >= TotalPrincipalB(w.pool)
            + Sum(OwedTerm(w.pool.positions, 1), |w.pool.positions|) as real
            + Sum(UnsettledTerm(w.pool, 1), |w.pool.positions|) as real / Q64 as real
            + w.pool.protocolFeeOwedB as real
    ensures 0.0 <= TotalPrincipalA(w.pool) && 0.0 <= TotalPrincipalB(w.pool)
  {
    ClaimsFit(w, 0);
    ClaimsFit(w, 1);
    TotalPrincipalBounds(w.pool);
    hide TotalPrincipalA, TotalPrincipalB, OwedTerm, UnsettledTerm;
  }

  /** What is left of a vault after principal is non-negative. */
  lemma VaultAbovePrincipal(w: World)
    requires Valid(w)
    ensures w.pool.vaultA as real >= TotalPrincipalA(w.pool) + w.pool.protocolFeeOwedA as real
    ensures w.pool.vaultB as real >= TotalPrincipalB(w.pool) + w.pool.protocolFeeOwedB as real
    ensures 0.0 <= TotalPrincipalA(w.pool) && 0.0 <= TotalPrincipalB(w.pool)
  {
    ClaimsFit(w, 0);
    ClaimsFit(w, 1);
    VaultsCoverAllClaims(w);
    hide TotalPrincipalA, TotalPrincipalB, OwedTerm, UnsettledTerm;
  }

  /** Tokens withdrawn with a position's liquidity are in the vault. */
  lemma DecreaseIsFunded(w: World, i: nat, amount: u128, minA: u64, minB: u64, timestamp: u64)
    requires Valid(w)
    ensures DecreaseLiquidity(w.pool, i, amount, minA, minB, timestamp) != Err(InsufficientFunds)
  {
    hide *;
    ValidParts(w);
    if DecreaseLiquidity(w.pool, i, amount, minA, minB, timestamp) == Err(InsufficientFunds) {
      ShortOfFunds(w.pool, i, amount, minA, minB, timestamp);
      PayoutIsFunded(w, i, 0 - amount, timestamp);
    }
  }

  /** Where the instruction runs out of funds: the change is computed and priced, and a vault holds less. */
  lemma ShortOfFunds(s: Pool, i: nat, amount: u128, minA: u64, minB: u64, timestamp: u64)
    requires WellFormed(s) && DecreaseLiquidity(s, i, amount, minA, minB, timestamp) == Err(InsufficientFunds)
    ensures i < |s.positions| && 0 < amount < Q127 && ModifyLiquidity(s, i, 0 - amount, timestamp).Ok?
    ensures var next := ModifyLiquidity(s, i, 0 - amount, timestamp).value;
            && next.curve.Valid() && WellFormedPosition(s.positions[i], next.tickSpacing) && 0 < next.sqrtPrice
            && CalculateLiquidityTokenDeltas(next, s.positions[i], 0 - amount).Ok?
            && var (a, b) := CalculateLiquidityTokenDeltas(next, s.positions[i], 0 - amount).value;
               a > next.vaultA || b > next.vaultB
  {
    hide ModifyLiquidity, CalculateModifyLiquidity, CalculateLiquidityTokenDeltas, WellFormedPosition, Curve.Valid;
    ChangePaysNothing(s, i, 0 - amount, timestamp);
  }

  lemma PayoutIsFunded(w: World, i: nat, delta: i128, timestamp: u64)
    requires Valid(w) && i < |w.pool.positions| && delta < 0 && ModifyLiquidity(w.pool, i, delta, timestamp).Ok?
    ensures var next := ModifyLiquidity(w.pool, i, delta, timestamp).value;
            && next.curve.Valid() && WellFormedPosition(w.pool.positions[i], next.tickSpacing) && 0 < next.sqrtPrice
            && (CalculateLiquidityTokenDeltas(next, w.pool.positions[i], delta).Ok? ==>
                  var (a, b) := CalculateLiquidityTokenDeltas(next, w.pool.positions[i], delta).value;
                  a <= next.vaultA && b <= next.vaultB)
  {
    var next, p := ModifyLiquidity(w.pool, i, delta, timestamp).value, w.pool.positions[i];
    ModifyIsModified(w, i, delta, timestamp);
    AlignedSides(w.pool, i);
    hide Valid, ModifyLiquidity, CalculateLiquidityTokenDeltas, ExactA, ExactB, PositionModified, TickChanges;
    WithdrawalFits(Accrued(w, timestamp), next, i, delta);
    if CalculateLiquidityTokenDeltas(next, p, delta).Ok? { ModifyMovesTokens(w, i, delta, timestamp); }
  }

  lemma WithdrawalFits(u: World, next: Pool, i: nat, delta: i128)
    requires Valid(u) && i < |u.pool.positions| && Modified(u.pool, next, i, delta)
    requires WellFormedPosition(u.pool.positions[i], u.pool.tickSpacing)
    ensures next.vaultA == u.pool.vaultA && next.vaultB == u.pool.vaultB
    ensures var s, p := u.pool, u.pool.positions[i];
            var lo := SqrtPriceFromTickIndex(s.curve, p.tickLowerIndex);
            var hi := SqrtPriceFromTickIndex(s.curve, p.tickUpperIndex);
            var x := Clamp(s.sqrtPrice, lo, hi);
            && 0.0 - ExactA(delta, x, hi) <= s.vaultA as real
            && 0.0 - ExactB(delta, lo, x) <= s.vaultB as real
  {
    ModifiedAligned(u.pool, next, i, delta);
    VaultAbovePrincipal(u);
    PrincipalShifts(u.pool, next, i, delta);
    TotalPrincipalBounds(next);
    hide TotalPrincipalA, TotalPrincipalB, ExactA, ExactB, PrincipalTermA, PrincipalTermB;
  }

  /** Neither computing a liquidity change nor pricing it fails for lack of funds. */
  lemma CalculateFundErrors(s: Pool, p: Position, delta: i128, timestamp: u64)
    ensures CalculateModifyLiquidity(s, p, delta, timestamp) != Err(InsufficientFunds)
  {
    hide NextFeeGrowthsInside, NextRewardGrowthsInside;
  }

  lemma PricingFundErrors(s: Pool, p: Position, delta: i128)
    requires s.curve.Valid() && WellFormedPosition(p, s.tickSpacing) && 0 < s.sqrtPrice
    ensures CalculateLiquidityTokenDeltas(s, p, delta) != Err(InsufficientFunds)
  {
    hide SdkMath.GetTokenAFromLiquidity;
  }

  lemma TradeIsFunded(w: World, q: SwapRequest, threshold: u64, timestamp: u64)
    requires Valid(w)
    ensures SwapTokens(w.pool, q, threshold, timestamp) != Err(InsufficientFunds)
  {
    ValidParts(w);
    hide Valid, SwapTokens, Swap, AccrueRewards, AtCursor, Aligned, LoopError, RequestError, TotalLiquidity, Accrued;
    SwapStages(w.pool, q, threshold, timestamp);
    if AccrueRewards(w.pool, timestamp).Ok? && ArraysAligned(q.arrays, w.pool.tickSpacing) && Refusal(w.pool, q).None? {
      AccruedTradeIsFunded(w, q, timestamp);
    }
    NotInsufficient();
  }

  lemma NotInsufficient()
    ensures !RequestError(InsufficientFunds) && !LoopError(InsufficientFunds)
  {
  }

  lemma AccruedTradeIsFunded(w: World, q: SwapRequest, timestamp: u64)
    requires Valid(w) && AccrueRewards(w.pool, timestamp).Ok? && ArraysAligned(q.arrays, w.pool.tickSpacing)
    requires Refusal(w.pool, q).None?
    ensures var s := AccrueRewards(w.pool, timestamp).value;
            && Aligned(s) && s.tickSpacing == w.pool.tickSpacing
            && match Swap(s, q)
               case Err(error) => LoopError(error)
               case Ok(c) => 0 <= AtCursor(s, q, c).vaultA && 0 <= AtCursor(s, q, c).vaultB
  {
    AccrueKeepsValid(w, timestamp);
    var u := Accrued(w, timestamp);
    LoopErrorsAreListed(u, q);
    hide Swap, AtCursor, LoopError, TickSums, ActiveSum, Telescopes, Solvent, VaultsCover, IdleRewards;
    if Swap(u.pool, q).Ok? {
      SwapKeepsValid(u, q);
      VaultsNonNegative(WorldAt(u, q, Swap(u.pool, q).value));
    }
  }

  /**
   * With some amount and a limit in range and ahead of the price, a trade fails where its swap does, and otherwise exactly
   * if the swap would pay less than the threshold of an exact input, or charge more than that of an exact output.
   */
  lemma TradeDecides(w: World, q: SwapRequest, threshold: u64, timestamp: u64)
    requires Valid(w) && AccrueRewards(w.pool, timestamp).Ok? && ArraysAligned(q.arrays, w.pool.tickSpacing)
    requires MIN_SQRT_PRICE <= q.sqrtPriceLimit <= MAX_SQRT_PRICE && 0 < q.amount
    requires if q.aToB then q.sqrtPriceLimit <= w.pool.sqrtPrice else w.pool.sqrtPrice <= q.sqrtPriceLimit
    ensures var s, u := w.pool, AccrueRewards(w.pool, timestamp).value;
            && Aligned(s) && Aligned(u) && u.tickSpacing == s.tickSpacing
            && var r := SwapTokens(s, q, threshold, timestamp);
               match Swap(u, q)
               case Err(error) => r == Err(error)
               case Ok(c) =>
                 var v := AtCursor(u, q, c);
                 r == if q.isInput && VaultOut(s, q) - VaultOut(v, q) < threshold then Err(AmountOutBelowMinimum)
                      else if !q.isInput && threshold < VaultIn(v, q) - VaultIn(s, q) then Err(AmountInAboveMaximum)
                      else Ok(v)
  {
    ValidParts(w);
    AccruedTradeIsFunded(w, q, timestamp);
    hide Valid, Swap, LoopError, Refusal;
  }

  lemma VaultsNonNegative(w: World)
    requires Valid(w)
    ensures 0 <= w.pool.vaultA && 0 <= w.pool.vaultB
  {
    VaultAbovePrincipal(w);
    hide Valid, TotalPrincipalA, TotalPrincipalB;
  }

  /** No instruction, in any reachable state, finds too few tokens in a vault. */
  lemma PayoutsNeverFail(w: World, step: Step)
    requires Reachable(w)
    ensures Aligned(w.pool)
    ensures Apply(w.pool, step) != Err(InsufficientFunds)
  {
    ReachableIsValid(w);
    match step
    case Decrease(i, l, a, b, t) => DecreaseIsFunded(w, i, l, a, b, t);
    case Trade(q, threshold, t) => TradeIsFunded(w, q, threshold, t);
    case TakeFees(i) => FeesAreFunded(w, i);
    case TakeProtocolFees => FeesAreFunded(w, 0);
    case _ => OthersPayNothing(w.pool, step);
  }

  lemma FeesAreFunded(w: World, i: nat)
    requires Valid(w)
    ensures CollectFees(w.pool, i) != Err(InsufficientFunds)
    ensures CollectProtocolFees(w.pool).Ok?
  {
    ClaimsFit(w, 0);
    ClaimsFit(w, 1);
    VaultsCoverAllClaims(w);
    hide Valid, TotalPrincipalA, TotalPrincipalB, OwedTerm, UnsettledTerm;
  }

  lemma OthersPayNothing(s: Pool, step: Step)
    requires Aligned(s)
    requires !step.Decrease? && !step.Trade? && !step.TakeFees? && !step.TakeProtocolFees?
    ensures Apply(s, step) != Err(InsufficientFunds)
  {
    match step
    case Increase(i, amount, _, _, t) => if 0 < amount < Q127 { ChangePaysNothing(s, i, amount, t); }
    case Settle(i, t) => if i < |s.positions| { CalculateFundErrors(s, s.positions[i], 0, t); }
    case _ =>
    hide CalculateModifyLiquidity, CalculateLiquidityTokenDeltas, ModifyLiquidity;
  }

  lemma ChangePaysNothing(s: Pool, i: nat, delta: i128, timestamp: u64)
    requires WellFormed(s)
    ensures i < |s.positions| ==>
              var next := ModifyLiquidity(s, i, delta, timestamp);
              && next != Err(InsufficientFunds)
              && WellFormedPosition(s.positions[i], s.tickSpacing)
              && (next.Ok? ==> next.value.curve == s.curve && next.value.tickSpacing == s.tickSpacing
                               && next.value.sqrtPrice == s.sqrtPrice
                               && CalculateLiquidityTokenDeltas(next.value, s.positions[i], delta) != Err(InsufficientFunds))
  {
    if i < |s.positions| {
      assert s.positions[i] in s.positions;
      CalculateFundErrors(s, s.positions[i], delta, timestamp);
      hide CalculateModifyLiquidity, CalculateLiquidityTokenDeltas;
      if ModifyLiquidity(s, i, delta, timestamp).Ok? {
        PricingFundErrors(ModifyLiquidity(s, i, delta, timestamp).value, s.positions[i], delta);
      }
    }
  }

  /** Where a reward vault covers all claims, every debt is collected in full. */
  lemma CoveredDebtsArePaid(w: World, i: nat, r: nat)
    requires r < NUM_REWARDS && i < |w.pool.positions| && Claims(w, r + 2) <= Q64 * w.pool.rewardVaults[r]
    ensures CollectReward(w.pool, i, r).Ok?
    ensures Owed(CollectReward(w.pool, i, r).value.positions[i], r + 2) == 0
  {
    DebtWithinClaims(w, i, r + 2);
    hide Claims;
  }

  lemma DebtWithinClaims(w: World, i: nat, k: int)
    requires i < |w.pool.positions| && 0 <= k < CHANNELS
    ensures Q64 * Owed(w.pool.positions[i], k) <= Claims(w, k)
  {
    var n := |w.pool.positions|;
    TermsNonNegative(w, k);
    assert OwedTerm(w.pool.positions, k)(i) == Owed(w.pool.positions[i], k);
    hide UnsettledTerm, OwedTerm;
    SumBoundsTerm(UnsettledTerm(w.pool, k), n);
    SumBoundsTerm(OwedTerm(w.pool.positions, k), n);
  }

  /**
   * A reward vault may run short, which is why rewards are paid in part. But as long as the tokens ever sent
   * to it cover what the reward has earned, it too can honour every claim at once.
   */
  lemma FundedRewardsCoverClaims(w: World, curve: Curve, spacing: nat, price: u128, feeRate: nat, protocolFeeRate: nat,
                                 steps: seq<Step>, r: nat)
    requires r < NUM_REWARDS && ReachedBy(w, curve, spacing, price, feeRate, protocolFeeRate, steps)
    requires w.books.earned[r + 2] <= Q64 * Funded(steps, r)
    ensures Q64 * Sum(OwedTerm(w.pool.positions, r + 2), |w.pool.positions|)
            + Sum(UnsettledTerm(w.pool, r + 2), |w.pool.positions|) <= Q64 * w.pool.rewardVaults[r]
  {
    InitialValid(curve, spacing, price, feeRate, protocolFeeRate);
    var start := World(InitializePool(curve, spacing, price, feeRate, protocolFeeRate), EMPTY_BOOKS);
    RunConservesReward(start, steps, r);
    ReachedIsReachable(w, curve, spacing, price, feeRate, protocolFeeRate, steps);
    ChannelIsSolvent(w, r + 2);
    hide OwedTerm, UnsettledTerm, Run, Valid, Reachable;
  }

  // ---- a position's own liquidity is always there to remove ----

  /** Both of a position's ticks keep their net liquidity in range when `amount` is removed, or are cleared. */
  predicate NetsFit(s: Pool, p: Position, amount: int) {
    var lower, upper := TickAt(s.ticks, p.tickLowerIndex), TickAt(s.ticks, p.tickUpperIndex);
    && (lower.liquidityGross == amount || -Q127 <= lower.liquidityNet - amount)
    && (upper.liquidityGross == amount || upper.liquidityNet + amount < Q127)
  }

  /**
   * Removing at most the position's own liquidity never underflows or overflows anywhere: it fails exactly
   * if the clock runs backwards or a net would leave its signed range.
   */
  lemma WithdrawalNeverUnderflows(w: World, i: nat, amount: u128, timestamp: u64)
    requires Reachable(w) && i < |w.pool.positions| && 0 < amount <= w.pool.positions[i].liquidity && amount < Q127
    ensures var r := CalculateModifyLiquidity(w.pool, w.pool.positions[i], 0 - amount, timestamp);
            if timestamp < w.pool.rewardLastUpdatedTimestamp then r == Err(InvalidTimestamp)
            else if NetsFit(w.pool, w.pool.positions[i], amount) then r.Ok?
            else r == Err(LiquidityNetError)
  {
    ReachableIsValid(w);
    var s, p := w.pool, w.pool.positions[i];
    ActiveTicks(s, i);
    assert p.Bounds(p.tickLowerIndex) && p.Bounds(p.tickUpperIndex);
    ActiveCoversPosition(s, i);
    hide Valid, NextFeeGrowthsInside, NextRewardGrowthsInside;
  }

  /** A vault is a token account, which holds a 64-bit amount. */
  predicate VaultsFit(s: Pool) {
    s.vaultA < Q64 && s.vaultB < Q64
  }

  /**
   * Whatever a position holds can be withdrawn, in amounts an instruction can express: the change is
   * computed and priced and the vaults pay for it. Only a net leaving its signed range can refuse it.
   */
  lemma WithdrawalSucceeds(w: World, i: nat, amount: u128, timestamp: u64)
    requires Reachable(w) && i < |w.pool.positions| && 0 < amount <= w.pool.positions[i].liquidity && amount < Q127
    requires w.pool.rewardLastUpdatedTimestamp <= timestamp && VaultsFit(w.pool)
    ensures WellFormed(w.pool)
    ensures var r := DecreaseLiquidity(w.pool, i, amount, 0, 0, timestamp);
            if NetsFit(w.pool, w.pool.positions[i], amount) then r.Ok? else r == Err(LiquidityNetError)
  {
    ReachableIsValid(w);
    WithdrawalNeverUnderflows(w, i, amount, timestamp);
    ChangeDecides(w, i, amount, timestamp);
    hide Valid, Reachable, DecreaseLiquidity, CalculateModifyLiquidity, NetsFit;
  }

  /** A withdrawal that can be computed is priced and paid; otherwise it fails with the same error. */
  lemma ChangeDecides(w: World, i: nat, amount: u128, timestamp: u64)
    requires Valid(w) && i < |w.pool.positions| && 0 < amount < Q127 && VaultsFit(w.pool)
    ensures WellFormed(w.pool)
    ensures match CalculateModifyLiquidity(w.pool, w.pool.positions[i], 0 - amount, timestamp)
            case Ok(_) => DecreaseLiquidity(w.pool, i, amount, 0, 0, timestamp).Ok?
            case Err(error) => DecreaseLiquidity(w.pool, i, amount, 0, 0, timestamp) == Err(error)
  {
    hide *;
    ValidParts(w);
    ModifyOutcome(w.pool, i, 0 - amount, timestamp);
    DecreaseOutcome(w.pool, i, amount, timestamp);
    DecreaseIsFunded(w, i, amount, 0, 0, timestamp);
    if ModifyLiquidity(w.pool, i, 0 - amount, timestamp).Ok? {
      WithdrawalIsPriced(w, i, 0 - amount, timestamp);
    }
  }

  lemma ModifyOutcome(s: Pool, i: nat, delta: i128, timestamp: u64)
    requires i < |s.positions|
    ensures ModifyLiquidity(s, i, delta, timestamp).Ok? ==>
              var next := ModifyLiquidity(s, i, delta, timestamp).value;
              next.curve == s.curve && next.tickSpacing == s.tickSpacing && next.sqrtPrice == s.sqrtPrice
    ensures match CalculateModifyLiquidity(s, s.positions[i], delta, timestamp)
            case Ok(_) => ModifyLiquidity(s, i, delta, timestamp).Ok?
            case Err(error) => ModifyLiquidity(s, i, delta, timestamp) == Err(error)
  {
    hide CalculateModifyLiquidity;
  }

  /** Without minimum amounts, a withdrawal fails only where the change, its pricing or the payout does. */
  lemma DecreaseOutcome(s: Pool, i: nat, amount: u128, timestamp: u64)
    requires WellFormed(s) && i < |s.positions| && 0 < amount < Q127
    ensures var r, next := DecreaseLiquidity(s, i, amount, 0, 0, timestamp), ModifyLiquidity(s, i, 0 - amount, timestamp);
            if next.Err? then r == Err(next.error)
            else
              next.value.curve.Valid() && WellFormedPosition(s.positions[i], next.value.tickSpacing)
              && 0 < next.value.sqrtPrice
              && (CalculateLiquidityTokenDeltas(next.value, s.positions[i], 0 - amount).Ok?
                  ==> r.Ok? || r == Err(InsufficientFunds))
  {
    hide ModifyLiquidity, CalculateModifyLiquidity, CalculateLiquidityTokenDeltas, WellFormedPosition, UsableTick;
    assert s.positions[i] in s.positions;
    ModifyOutcome(s, i, 0 - amount, timestamp);
    var next := ModifyLiquidity(s, i, 0 - amount, timestamp);
    if next.Ok? {
      var r := CalculateLiquidityTokenDeltas(next.value, s.positions[i], 0 - amount);
      if r.Ok? { var (a: u64, b: u64) := r.value; assert 0 <= a && 0 <= b; }
    }
  }

  /** What the vaults can pay, the pricing can express. */
  lemma WithdrawalIsPriced(w: World, i: nat, delta: i128, timestamp: u64)
    requires Valid(w) && i < |w.pool.positions| && delta < 0 && VaultsFit(w.pool)
    requires ModifyLiquidity(w.pool, i, delta, timestamp).Ok?
    ensures var next := ModifyLiquidity(w.pool, i, delta, timestamp).value;
            && next.curve.Valid() && WellFormedPosition(w.pool.positions[i], next.tickSpacing) && 0 < next.sqrtPrice
            && CalculateLiquidityTokenDeltas(next, w.pool.positions[i], delta).Ok?
  {
    ModifyIsModified(w, i, delta, timestamp);
    AlignedSides(w.pool, i);
    var next, p := ModifyLiquidity(w.pool, i, delta, timestamp).value, w.pool.positions[i];
    WithdrawalFits(Accrued(w, timestamp), next, i, delta);
    TokenDeltasAreClamped(next, p, delta);
    var lo, hi := SqrtPriceFromTickIndex(next.curve, p.tickLowerIndex), SqrtPriceFromTickIndex(next.curve, p.tickUpperIndex);
    hide Valid, ModifyLiquidity, CalculateLiquidityTokenDeltas, ExactA, ExactB;
    var x := Clamp(next.sqrtPrice, lo, hi);
    RoundedA(Magnitude(delta), x, hi);
    RoundedB(Magnitude(delta), lo, x);
    ExactNegates(delta, lo, x, hi);
  }

  lemma ActiveCoversPosition(s: Pool, i: nat)
    requires ActiveSum(s) && i < |s.positions|
    ensures s.positions[i].Covers(s.tickCurrentIndex) ==> s.positions[i].liquidity <= s.liquidity
  {
    SumBoundsTerm(RangeTerm(s.positions, s.tickCurrentIndex), |s.positions|);
    assert RangeTerm(s.positions, s.tickCurrentIndex)(i) <= s.liquidity;
  }

  /** Removing more than the position holds always fails. */
  lemma OverdrawAlwaysFails(s: Pool, i: nat, amount: u128, timestamp: u64)
    requires i < |s.positions| && s.positions[i].liquidity < amount < Q127
    ensures CalculateModifyLiquidity(s, s.positions[i], 0 - amount, timestamp).Err?
  {
  }

  // ---- deposits and withdrawals at one price ----

  /** Net tokens a depositor pays over a series of liquidity changes at one price, if every change succeeds. */
  function NetPaid(s: Pool, p: Position, deltas: seq<i128>): Result<(int, int)>
    requires s.curve.Valid() && WellFormedPosition(p, s.tickSpacing) && 0 < s.sqrtPrice
  {
    if deltas == [] then Ok((0, 0))
    else
      var (a, b) :- CalculateLiquidityTokenDeltas(s, p, deltas[0]);
      var (c, d) :- NetPaid(s, p, deltas[1..]);
      Ok(if deltas[0] > 0 then (c + a, d + b) else (c - a, d - b))
  }

  function NetLiquidity(deltas: seq<i128>): int {
    if deltas == [] then 0 else deltas[0] + NetLiquidity(deltas[1..])
  }

  /**
   * At one price, whatever is deposited and withdrawn in whatever pieces, the depositor has paid at
   * least the exact amount for the liquidity that remains; taking everything out never profits.
   */
  lemma {:induction false} RoundTripsNeverProfit(s: Pool, p: Position, deltas: seq<i128>)
    requires s.curve.Valid() && WellFormedPosition(p, s.tickSpacing) && 0 < s.sqrtPrice
    requires SideAt(s, p, s.sqrtPrice) && NetPaid(s, p, deltas).Ok?
    ensures var lo := SqrtPriceFromTickIndex(s.curve, p.tickLowerIndex);
            var hi := SqrtPriceFromTickIndex(s.curve, p.tickUpperIndex);
            var x := Clamp(s.sqrtPrice, lo, hi);
            var (a, b) := NetPaid(s, p, deltas).value;
            && ExactA(NetLiquidity(deltas), x, hi) <= a as real
            && ExactB(NetLiquidity(deltas), lo, x) <= b as real
            && (NetLiquidity(deltas) == 0 ==> 0 <= a && 0 <= b)
    decreases |deltas|
  {
    var lo, hi := SqrtPriceFromTickIndex(s.curve, p.tickLowerIndex), SqrtPriceFromTickIndex(s.curve, p.tickUpperIndex);
    var x := Clamp(s.sqrtPrice, lo, hi);
    NoLiquidityNoPrincipal(lo, x, hi);
    if deltas != [] {
      var rest := deltas[1..];
      RoundTripsNeverProfit(s, p, rest);
      TokenDeltasCoverPrincipal(s, p, deltas[0]);
      ExactAdds(NetLiquidity(rest), deltas[0], lo, x, hi);
      hide ExactA, ExactB, CalculateLiquidityTokenDeltas;
    }
  }

  lemma NoLiquidityNoPrincipal(lo: int, x: int, hi: int)
    requires 0 < lo && 0 < x && 0 < hi
    ensures ExactA(0, x, hi) == 0.0 && ExactB(0, lo, x) == 0.0
  {
  }

  // ---- the same over runs of instructions ----

  predicate ChangesOnly(steps: seq<Step>, i: nat) {
    forall step | step in steps :: (step.Increase? || step.Decrease?) && step.position == i
  }

  /** Position `i` keeps its range, the price stays, and the vaults gained what its change of liquidity is worth. */
  ghost predicate PaidFor(s: Pool, t: Pool, i: nat) {
    && i < |s.positions| == |t.positions|
    && t.curve == s.curve && t.tickSpacing == s.tickSpacing && t.sqrtPrice == s.sqrtPrice && s.curve.Valid()
    && 0 < s.sqrtPrice
    && var p, q := s.positions[i], t.positions[i];
       && WellFormedPosition(p, s.tickSpacing)
       && q.tickLowerIndex == p.tickLowerIndex && q.tickUpperIndex == p.tickUpperIndex
       && var lo, hi := SqrtPriceFromTickIndex(s.curve, p.tickLowerIndex), SqrtPriceFromTickIndex(s.curve, p.tickUpperIndex);
          var x := Clamp(s.sqrtPrice, lo, hi);
          && 0 < x
          && ExactA(q.liquidity - p.liquidity, x, hi) <= (t.vaultA - s.vaultA) as real
          && ExactB(q.liquidity - p.liquidity, lo, x) <= (t.vaultB - s.vaultB) as real
  }

  lemma UnchangedIsPaidFor(w: World, i: nat)
    requires Valid(w) && i < |w.pool.positions|
    ensures PaidFor(w.pool, w.pool, i)
  {
    var s, p := w.pool, w.pool.positions[i];
    AlignedSides(s, i);
    var lo, hi := SqrtPriceFromTickIndex(s.curve, p.tickLowerIndex), SqrtPriceFromTickIndex(s.curve, p.tickUpperIndex);
    NoLiquidityNoPrincipal(lo, Clamp(s.sqrtPrice, lo, hi), hi);
    hide ExactA, ExactB, TickSums, ActiveSum, Telescopes, Solvent, VaultsCover;
  }

  /** A change of liquidity moves the position's liquidity and the vaults, and leaves what they are priced by. */
  lemma ChangeMoves(w: World, i: nat, delta: i128, timestamp: u64, t: Pool)
    requires Valid(w) && ChangedTo(w.pool, i, delta, timestamp, t)
    ensures AccrueRewards(w.pool, timestamp).Ok?
    ensures Modified(Accrued(w, timestamp).pool, ModifyLiquidity(w.pool, i, delta, timestamp).value, i, delta)
    ensures |t.positions| == |w.pool.positions|
    ensures var s, p, q := w.pool, w.pool.positions[i], t.positions[i];
            && t.curve == s.curve && t.tickSpacing == s.tickSpacing && t.sqrtPrice == s.sqrtPrice
            && q.tickLowerIndex == p.tickLowerIndex && q.tickUpperIndex == p.tickUpperIndex
            && q.liquidity - p.liquidity == delta
  {
    ValidParts(w);
    hide Valid, ModifyLiquidity, CalculateLiquidityTokenDeltas, TickChanges, Curve.Valid, Inward, AccrueRewards,
         WithinEarnings, BooksAccrued, SqrtPriceFromTickIndex;
    ModifyIsModified(w, i, delta, timestamp);
  }

  lemma ChangeIsPaidFor(w: World, i: nat, delta: i128, timestamp: u64, t: Pool)
    requires Valid(w) && ChangedTo(w.pool, i, delta, timestamp, t)
    ensures PaidFor(w.pool, t, i)
  {
    ValidParts(w);
    hide Valid, ModifyLiquidity, CalculateLiquidityTokenDeltas, ExactA, ExactB, Curve.Valid, Inward, AccrueRewards,
         Modified;
    AlignedSides(w.pool, i);
    ChangeMoves(w, i, delta, timestamp, t);
    ModifyMovesTokens(w, i, delta, timestamp);
    var next := ModifyLiquidity(w.pool, i, delta, timestamp).value;
    var (a, b) := CalculateLiquidityTokenDeltas(next, w.pool.positions[i], delta).value;
    InwardIs(delta, a);
    InwardIs(delta, b);
  }

  lemma InwardIs(delta: int, tokens: int)
    ensures Inward(delta, tokens) as real == if delta > 0 then tokens as real else 0.0 - tokens as real
  {
  }

  lemma IncreaseIsPaidFor(w: World, i: nat, amount: u128, a: u64, b: u64, t: u64)
    requires Valid(w) && i < |w.pool.positions| && IncreaseLiquidity(w.pool, i, amount, a, b, t).Ok?
    ensures PaidFor(w.pool, IncreaseLiquidity(w.pool, i, amount, a, b, t).value, i)
  {
    ValidParts(w);
    hide Valid, PaidFor, ChangedTo, IncreaseLiquidity;
    IncreaseChanges(w.pool, i, amount, a, b, t);
    ChangeIsPaidFor(w, i, amount, t, IncreaseLiquidity(w.pool, i, amount, a, b, t).value);
  }

  lemma DecreaseIsPaidFor(w: World, i: nat, amount: u128, a: u64, b: u64, t: u64)
    requires Valid(w) && i < |w.pool.positions| && DecreaseLiquidity(w.pool, i, amount, a, b, t).Ok?
    ensures PaidFor(w.pool, DecreaseLiquidity(w.pool, i, amount, a, b, t).value, i)
  {
    ValidParts(w);
    hide Valid, PaidFor, ChangedTo, DecreaseLiquidity;
    DecreaseChanges(w.pool, i, amount, a, b, t);
    ChangeIsPaidFor(w, i, 0 - amount, t, DecreaseLiquidity(w.pool, i, amount, a, b, t).value);
  }

  lemma StepIsPaidFor(w: World, step: Step, i: nat)
    requires Valid(w) && i < |w.pool.positions| && (step.Increase? || step.Decrease?) && step.position == i
    ensures PaidFor(w.pool, Next(w, step).pool, i)
  {
    ValidParts(w);
    hide Valid, PaidFor, IncreaseLiquidity, DecreaseLiquidity, BooksAfter;
    if Apply(w.pool, step).Err? {
      UnchangedIsPaidFor(w, i);
    } else {
      match step
      case Increase(_, amount, a, b, t) => IncreaseIsPaidFor(w, i, amount, a, b, t);
      case Decrease(_, amount, a, b, t) => DecreaseIsPaidFor(w, i, amount, a, b, t);
    }
  }

  lemma PaymentsAdd(s: Pool, t: Pool, u: Pool, i: nat)
    requires PaidFor(s, t, i) && PaidFor(t, u, i)
    ensures PaidFor(s, u, i)
  {
    var p := s.positions[i];
    var lo, hi := SqrtPriceFromTickIndex(s.curve, p.tickLowerIndex), SqrtPriceFromTickIndex(s.curve, p.tickUpperIndex);
    ExactAdds(t.positions[i].liquidity - p.liquidity, u.positions[i].liquidity - t.positions[i].liquidity,
              lo, Clamp(s.sqrtPrice, lo, hi), hi);
    hide ExactA, ExactB;
  }

  /**
   * Over any run of deposits and withdrawals of a position, failing ones included, the vaults gain at least what its
   * change of liquidity is worth; a run that ends with the liquidity it began with takes nothing out.
   */
  lemma {:induction false} DepositRunsNeverProfit(w: World, steps: seq<Step>, i: nat)
    requires Valid(w) && i < |w.pool.positions| && ChangesOnly(steps, i)
    ensures PaidFor(w.pool, Run(w, steps).pool, i)
    ensures Run(w, steps).pool.positions[i].liquidity == w.pool.positions[i].liquidity ==>
              w.pool.vaultA <= Run(w, steps).pool.vaultA && w.pool.vaultB <= Run(w, steps).pool.vaultB
    decreases |steps|
  {
    if steps == [] {
      UnchangedIsPaidFor(w, i);
    } else {
      var next := Next(w, steps[0]);
      StepKeeps(w, steps[0]);
      assert steps[0] in steps && forall step | step in steps[1..] :: step in steps;
      StepIsPaidFor(w, steps[0], i);
      hide Valid, Next, PaidFor;
      PaidForKeepsCount(w.pool, next.pool, i);
      DepositRunsNeverProfit(next, steps[1..], i);
      PaymentsAdd(w.pool, next.pool, Run(w, steps).pool, i);
    }
    NothingForNothing(w.pool, Run(w, steps).pool, i);
  }

  lemma PaidForKeepsCount(s: Pool, t: Pool, i: nat)
    requires PaidFor(s, t, i)
    ensures i < |t.positions|
  {
  }

  lemma NothingForNothing(s: Pool, t: Pool, i: nat)
    requires PaidFor(s, t, i)
    ensures i < |s.positions| == |t.positions|
    ensures t.positions[i].liquidity == s.positions[i].liquidity ==> s.vaultA <= t.vaultA && s.vaultB <= t.vaultB
  {
    var p := s.positions[i];
    var lo, hi := SqrtPriceFromTickIndex(s.curve, p.tickLowerIndex), SqrtPriceFromTickIndex(s.curve, p.tickUpperIndex);
    NoLiquidityNoPrincipal(lo, Clamp(s.sqrtPrice, lo, hi), hi);
    hide ExactA, ExactB;
  }
}
