/** Tokens A and B over whole runs: none appears and none disappears. */
module TokenFlows {
  import opened Arithmetic
  import opened TokenMath
  import opened State
  import opened WhirlpoolManager
  import opened LiquidityManager
  import opened SwapManager
  import opened TickSearch
  import opened Instructions
  import opened Ledger
  import opened StepProofs
  import opened Runs
  import opened TradeTerms
  import opened Withdrawals
  import opened Changes

  /** Tokens in a vault, and tokens of it paid to owners as fees. */
  function FeeTokens(w: World, k: int): int
    requires 0 <= k < 2
  {
    Vault(w.pool, k) + w.books.paid[k]
  }

  /** What a change of liquidity is worth in one token. */
  function Priced(s: Pool, i: nat, amount: nat, roundUp: bool, k: int): nat
    requires WellFormed(s) && i < |s.positions| && 0 <= k < 2
  {
    if k == 0 then PricedA(s, i, amount, roundUp) else PricedB(s, i, amount, roundUp)
  }

  /** Tokens a finished swap brings into vault `k`, or takes out of it if negative. */
  function Traded(q: SwapRequest, c: SwapCursor, k: int): int
    requires 0 <= k < 2
  {
    if (k == 0) == q.aToB then Charged(q, c) else 0 - Paid(q, c)
  }

  /**
   * Tokens an instruction brings into vault `k` other than as fees collected: deposits bring what they are worth,
   * withdrawals take it, trades bring and take what was traded, and the protocol takes what it is owed.
   */
  ghost function Brought(w: World, step: Step, k: int): int
    requires Valid(w) && 0 <= k < 2
  {
    ValidParts(w);
    var s := w.pool;
    if Apply(s, step).Err? then 0
    else
      match step
      case Increase(i, amount, _, _, _) => Priced(s, i, amount, true, k)
      case Decrease(i, amount, _, _, _) => 0 - Priced(s, i, amount, false, k)
      case Trade(q, threshold, t) =>
        TradeIsSwap(s, q, threshold, t);
        Traded(q, Swap(AccrueRewards(s, t).value, q).value, k)
      case TakeProtocolFees => 0 - (if k == 0 then s.protocolFeeOwedA else s.protocolFeeOwedB)
      case _ => 0
  }

  ghost function BroughtBy(w: World, steps: seq<Step>, k: int): int
    requires Valid(w) && 0 <= k < 2
    decreases |steps|
  {
    if steps == [] then 0
    else
      StepKeeps(w, steps[0]);
      Brought(w, steps[0], k) + BroughtBy(Next(w, steps[0]), steps[1..], k)
  }

  /** The step moved exactly what it accounts for. */
  ghost predicate Conserves(w: World, step: Step, k: int)
    requires Valid(w) && 0 <= k < 2
  {
    FeeTokens(Next(w, step), k) == FeeTokens(w, k) + Brought(w, step, k)
  }

  lemma ChangeConserves(w: World, step: Step, k: int)
    requires Valid(w) && 0 <= k < 2 && (step.Increase? || step.Decrease?) && Apply(w.pool, step).Ok?
    ensures Conserves(w, step, k)
  {
    ValidParts(w);
    ChangeNeedsPosition(w.pool, step);
    hide Valid, IncreaseLiquidity, DecreaseLiquidity, Priced, LiquidityFits, NetsFit, Aligned, WellFormed;
    BooksKeepPaid(w, step);
    match step
    case Increase(i, amount, maxA, maxB, t) => DepositDecides(w, i, amount, maxA, maxB, t);
    case Decrease(i, amount, minA, minB, t) => WithdrawalDecides(w, i, amount, minA, minB, t);
    PricedIs(w.pool, step.position, step.liquidity, step.Increase?, k);
  }

  lemma ChangeNeedsPosition(s: Pool, step: Step)
    requires Aligned(s) && (step.Increase? || step.Decrease?) && Apply(s, step).Ok?
    ensures step.position < |s.positions|
  {
    hide ModifyLiquidity, CalculateLiquidityTokenDeltas;
  }

  lemma PricedIs(s: Pool, i: nat, amount: nat, roundUp: bool, k: int)
    requires WellFormed(s) && i < |s.positions| && 0 <= k < 2
    ensures Priced(s, i, amount, roundUp, k)
         == if k == 0 then PricedA(s, i, amount, roundUp) else PricedB(s, i, amount, roundUp)
  {
  }

  /** Only collections are paid from debts. */
  lemma BooksKeepPaid(w: World, step: Step)
    requires Valid(w) && !step.TakeFees? && !step.TakeReward?
    ensures BooksAfter(w, step).paid == w.books.paid
  {
    hide Valid, AccrueRewards, Swap, ArraysAligned;
  }

  lemma TradeConserves(w: World, q: SwapRequest, threshold: u64, t: u64, k: int)
    requires Valid(w) && 0 <= k < 2 && SwapTokens(w.pool, q, threshold, t).Ok?
    ensures Conserves(w, Trade(q, threshold, t), k)
  {
    ValidParts(w);
    hide Valid, SwapTokens, Swap, AccrueRewards, Charged, Paid, AtCursor, BooksAfter, Aligned, WellFormed;
    BooksKeepPaid(w, Trade(q, threshold, t));
    TradeIsSwap(w.pool, q, threshold, t);
  }

  /** Collections pay from the vaults what they take off debts. */
  lemma CollectionConserves(w: World, step: Step, k: int)
    requires Valid(w) && 0 <= k < 2 && Apply(w.pool, step).Ok?
    requires step.TakeFees? || step.TakeReward? || step.TakeProtocolFees?
    ensures Conserves(w, step, k)
  {
    ValidParts(w);
    hide Valid, Aligned, WellFormed;
  }

  /** The other instructions move neither token. */
  lemma OthersConserve(w: World, step: Step, k: int)
    requires Valid(w) && 0 <= k < 2 && Apply(w.pool, step).Ok?
    requires !step.Increase? && !step.Decrease? && !step.Trade?
    requires !step.TakeFees? && !step.TakeReward? && !step.TakeProtocolFees?
    ensures Conserves(w, step, k)
  {
    ValidParts(w);
    hide Valid, Aligned, WellFormed, BooksAfter;
    BooksKeepPaid(w, step);
    OthersKeepVaults(w.pool, step);
  }

  lemma OthersKeepVaults(s: Pool, step: Step)
    requires Aligned(s) && Apply(s, step).Ok?
    requires !step.Increase? && !step.Decrease? && !step.Trade?
    requires !step.TakeFees? && !step.TakeReward? && !step.TakeProtocolFees?
    ensures Apply(s, step).value.vaultA == s.vaultA && Apply(s, step).value.vaultB == s.vaultB
  {
    hide CalculateModifyLiquidity, NextWhirlpoolRewardInfos, CheckedMulShiftRight, Aligned, UsableTick;
  }

  /** Every instruction moves exactly the tokens it accounts for. */
  lemma StepConservesTokens(w: World, step: Step, k: int)
    requires Valid(w) && 0 <= k < 2
    ensures Conserves(w, step, k)
  {
    ValidParts(w);
    if Apply(w.pool, step).Ok? {
      hide Valid, Conserves, Aligned, WellFormed, Next, BooksAfter;
      match step
      case Increase(_, _, _, _, _) => ChangeConserves(w, step, k);
      case Decrease(_, _, _, _, _) => ChangeConserves(w, step, k);
      case Trade(q, threshold, t) => TradeConserves(w, q, threshold, t, k);
      case TakeFees(_) => CollectionConserves(w, step, k);
      case TakeReward(_, _) => CollectionConserves(w, step, k);
      case TakeProtocolFees => CollectionConserves(w, step, k);
      case _ => OthersConserve(w, step, k);
    } else {
      hide Valid, Apply;
    }
  }

  /**
   * Over any run, failing instructions included, what is in a vault and what owners collected as fees are what was there
   * at the start and what deposits, withdrawals, trades and the protocol's collections moved.
   */
  lemma {:induction false} RunConservesTokens(w: World, steps: seq<Step>, k: int)
    requires Valid(w) && 0 <= k < 2
    ensures FeeTokens(Run(w, steps), k) == FeeTokens(w, k) + BroughtBy(w, steps, k)
    decreases |steps|
  {
    if steps != [] {
      StepKeeps(w, steps[0]);
      StepConservesTokens(w, steps[0], k);
      hide Valid, Next, Brought, FeeTokens;
      RunConservesTokens(Next(w, steps[0]), steps[1..], k);
    }
  }
}
