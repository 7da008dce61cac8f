/** Whole runs: any sequence of instructions, in any order, some of which may fail. */
module Runs {
  import opened Arithmetic
  import opened Outcome
  import opened TokenMath
  import opened State
  import opened SwapMath
  import opened SwapManager
  import opened TickSearch
  import opened Instructions
  import opened WhirlpoolManager
  import opened LiquidityManager
  import opened Ledger
  import opened SwapProofs
  import opened ModifyProofs
  import opened StepProofs

  datatype Step =
    | Open(lower: int, upper: int)
    | Increase(position: nat, liquidity: u128, maxA: u64, maxB: u64, timestamp: u64)
    | Decrease(position: nat, liquidity: u128, minA: u64, minB: u64, timestamp: u64)
    | Settle(position: nat, timestamp: u64)
    | TakeFees(position: nat)
    | TakeReward(position: nat, reward: nat)
    | TakeProtocolFees
    | SetEmissions(reward: nat, rate: u128, timestamp: u64)
    | StartReward(reward: nat)
    | Fund(reward: nat, amount: u64)
    | SetFee(feeRate: nat)
    | SetProtocolFee(feeRate: nat)
    | Trade(request: SwapRequest, threshold: u64, timestamp: u64)

  function Apply(s: Pool, step: Step): Result<Pool>
    requires Aligned(s)
  {
    match step
    case Open(lower, upper) => OpenPosition(s, lower, upper)
    case Increase(i, l, a, b, t) => IncreaseLiquidity(s, i, l, a, b, t)
    case Decrease(i, l, a, b, t) => DecreaseLiquidity(s, i, l, a, b, t)
    case Settle(i, t) => UpdateFeesAndRewards(s, i, t)
    case TakeFees(i) => CollectFees(s, i)
    case TakeReward(i, r) => CollectReward(s, i, r)
    case TakeProtocolFees => CollectProtocolFees(s)
    case SetEmissions(r, rate, t) => SetRewardEmissions(s, r, rate, t)
    case StartReward(r) => InitializeReward(s, r)
    case Fund(r, amount) => FundReward(s, r, amount)
    case SetFee(rate) => SetFeeRate(s, rate)
    case SetProtocolFee(rate) => SetProtocolFeeRate(s, rate)
    case Trade(q, threshold, t) => SwapTokens(s, q, threshold, t)
  }

  /** When an instruction reads the clock, the time it reads. */
  function TimeOf(step: Step): Option<u64> {
    match step
    case Increase(_, _, _, _, t) => Some(t)
    case Decrease(_, _, _, _, t) => Some(t)
    case Settle(_, t) => Some(t)
    case SetEmissions(_, _, t) => Some(t)
    case Trade(_, _, t) => Some(t)
    case _ => None
  }

  /** The books once `step` has succeeded on `w`. */
  ghost function BooksAfter(w: World, step: Step): Books
    requires Valid(w)
  {
    var (s, b) := (w.pool, w.books);
    match step
    case Open(_, _) => b.(since := b.since + [|b.history|])
    case Increase(i, _, _, _, t) => BooksSettledAt(w, i, t)
    case Decrease(i, _, _, _, t) => BooksSettledAt(w, i, t)
    case Settle(i, t) => BooksSettledAt(w, i, t)
    case TakeFees(i) =>
      if i >= |s.positions| then b
      else BooksPaid(BooksPaid(b, 0, s.positions[i].feeOwedA), 1, s.positions[i].feeOwedB)
    case TakeReward(i, r) =>
      if i >= |s.positions| || r >= NUM_REWARDS then b
      else BooksPaid(b, r + 2, CalculateCollectReward(s.positions[i].rewardInfos[r].amountOwed, s.rewardVaults[r]).0)
    case SetEmissions(_, _, t) => if AccrueRewards(s, t).Err? then b else Accrued(w, t).books
    case Trade(q, _, t) =>
      if AccrueRewards(s, t).Err? || !ArraysAligned(q.arrays, s.tickSpacing) then b
      else
        AccrueKeepsValid(w, t);
        var c := Swap(Accrued(w, t).pool, q);
        if c.Err? then b else BooksAtCursor(Accrued(w, t).books, q, c.value)
    case _ => b
  }

  ghost function BooksSettledAt(w: World, i: nat, timestamp: u64): Books
    requires Valid(w)
  {
    if AccrueRewards(w.pool, timestamp).Err? || i >= |w.pool.positions| then w.books else SettledAt(w, i, timestamp)
  }

  /** A failed instruction changes nothing. */
  ghost function Next(w: World, step: Step): World
    requires Valid(w)
  {
    var r := Apply(w.pool, step);
    if r.Err? then w else World(r.value, BooksAfter(w, step))
  }

  lemma StepKeeps(w: World, step: Step)
    requires Valid(w)
    ensures Keeps(w, Next(w, step))
  {
    if Apply(w.pool, step).Ok? {
      if TimeOf(step).Some? {
        TimedStepKeeps(w, step);
      } else if step.Open? || step.TakeFees? || step.TakeReward? {
        AccountStepKeeps(w, step);
      } else {
        SettingStepKeeps(w, step);
      }
    } else {
      assert forall k | 0 <= k < CHANNELS :: WithinEarningsAt(w, w, k);
    }
  }

  lemma TimedStepKeeps(w: World, step: Step)
    requires Valid(w) && Apply(w.pool, step).Ok? && TimeOf(step).Some?
    ensures Keeps(w, Next(w, step))
  {
    hide Valid, WithinEarnings, IncreaseLiquidity, DecreaseLiquidity, UpdateFeesAndRewards, SwapTokens,
         SetRewardEmissions, Swap, AccrueRewards;
    match step
    case Increase(i, l, a, b, t) => IncreaseKeepsValid(w, i, l, a, b, t);
    case Decrease(i, l, a, b, t) => DecreaseKeepsValid(w, i, l, a, b, t);
    case Settle(i, t) => SettleKeepsValid(w, i, t);
    case SetEmissions(r, rate, t) => SetEmissionsKeepsValid(w, r, rate, t);
    case Trade(q, threshold, t) => TradeKeepsValid(w, q, threshold, t);
  }

  lemma AccountStepKeeps(w: World, step: Step)
    requires Valid(w) && Apply(w.pool, step).Ok? && (step.Open? || step.TakeFees? || step.TakeReward?)
    ensures Keeps(w, Next(w, step))
  {
    hide Valid, WithinEarnings, CollectFees, CollectReward, OpenPosition;
    match step
    case Open(lower, upper) => OpenKeepsValid(w, lower, upper);
    case TakeFees(i) => CollectFeesKeepsValid(w, i);
    case TakeReward(i, r) => CollectRewardKeepsValid(w, i, r);
  }

  lemma SettingStepKeeps(w: World, step: Step)
    requires Valid(w) && Apply(w.pool, step).Ok?
    requires step.TakeProtocolFees? || step.StartReward? || step.Fund? || step.SetFee? || step.SetProtocolFee?
    ensures Keeps(w, Next(w, step))
  {
    SettingsKeepValid(w, Apply(w.pool, step).value);
  }

  /** The state after all of `steps`. */
  ghost function Run(w: World, steps: seq<Step>): World
    requires Valid(w)
    decreases |steps|
  {
    if steps == [] then w
    else
      StepKeeps(w, steps[0]);
      Run(Next(w, steps[0]), steps[1..])
  }

  /** Every reachable state satisfies the invariant, and every run distributes within its earnings. */
  lemma {:induction false} RunKeeps(w: World, steps: seq<Step>)
    requires Valid(w)
    ensures Keeps(w, Run(w, steps))
    decreases |steps|
  {
    if steps == [] {
      assert forall k | 0 <= k < CHANNELS :: WithinEarningsAt(w, w, k);
    } else {
      StepKeeps(w, steps[0]);
      RunKeeps(Next(w, steps[0]), steps[1..]);
      EarningsCompose(w, Next(w, steps[0]), Run(w, steps));
    }
  }

  /** A freshly initialized pool satisfies the invariant. */
  lemma InitialValid(curve: Curve, spacing: nat, price: u128, feeRate: nat, protocolFeeRate: nat)
    requires curve.Valid() && MIN_SQRT_PRICE <= price <= MAX_SQRT_PRICE
    requires feeRate <= MAX_FEE_RATE && protocolFeeRate <= MAX_PROTOCOL_FEE_RATE
    ensures Valid(World(InitializePool(curve, spacing, price, feeRate, protocolFeeRate), EMPTY_BOOKS))
  {
    var s := InitializePool(curve, spacing, price, feeRate, protocolFeeRate);
    forall t ensures TickAgrees(s, t) {}
  }

  // ---- rewards over time ----

  ghost predicate RateUntouched(steps: seq<Step>, r: nat) {
    forall step | step in steps :: !(step.SetEmissions? && step.reward == r)
  }

  function Rate(s: Pool, r: nat): u128
    requires r < NUM_REWARDS
  {
    s.rewardInfos[r].emissionsPerSecondX64
  }

  /** From `w` to `v` reward `r` kept its rate and earned at most rate times elapsed time. */
  ghost predicate EarnsByRate(w: World, v: World, r: nat)
    requires r < NUM_REWARDS
  {
    && Rate(v.pool, r) == Rate(w.pool, r)
    && w.pool.rewardLastUpdatedTimestamp <= v.pool.rewardLastUpdatedTimestamp
    && v.books.earned[r + 2] - w.books.earned[r + 2]
       <= Rate(w.pool, r) * (v.pool.rewardLastUpdatedTimestamp - w.pool.rewardLastUpdatedTimestamp)
  }

  lemma AccruedEarnsByRate(w: World, timestamp: u64, r: nat)
    requires r < NUM_REWARDS && AccrueRewards(w.pool, timestamp).Ok?
    ensures EarnsByRate(w, Accrued(w, timestamp), r)
    ensures Accrued(w, timestamp).pool.rewardLastUpdatedTimestamp == timestamp
  {
    MulMono(0, Rate(w.pool, r), timestamp - w.pool.rewardLastUpdatedTimestamp);
  }

  lemma StepEarnsByRate(w: World, step: Step, r: nat)
    requires Valid(w) && r < NUM_REWARDS && !(step.SetEmissions? && step.reward == r)
    ensures EarnsByRate(w, Next(w, step), r)
  {
    if Apply(w.pool, step).Ok? {
      hide Valid, EarnsByRate, Apply, Next;
      match step
      case Increase(_, _, _, _, t) => TimedStep(w, step, t, r);
      case Decrease(_, _, _, _, t) => TimedStep(w, step, t, r);
      case Settle(_, t) => TimedStep(w, step, t, r);
      case SetEmissions(_, _, t) => TimedStep(w, step, t, r);
      case Trade(_, _, t) => TimedStep(w, step, t, r);
      case _ => InstantStep(w, step, r);
    } else {
      assert Rate(w.pool, r) * 0 == 0;
    }
  }

  lemma TimedStep(w: World, step: Step, t: u64, r: nat)
    requires Valid(w) && r < NUM_REWARDS && Apply(w.pool, step).Ok? && TimeOf(step) == Some(t)
    requires !(step.SetEmissions? && step.reward == r)
    ensures EarnsByRate(w, Next(w, step), r)
  {
    TimedStepFollowsAccrual(w, step, t, r);
    hide Valid, Apply, Next, EarnsByRate;
    AccruedEarnsByRate(w, t, r);
    RatePassesOn(w, Accrued(w, t), Next(w, step), r);
  }

  /** After its accrual, a timed instruction touches neither rate, clock nor what the reward earned. */
  lemma TimedStepFollowsAccrual(w: World, step: Step, t: u64, r: nat)
    requires Valid(w) && r < NUM_REWARDS && Apply(w.pool, step).Ok? && TimeOf(step) == Some(t)
    requires !(step.SetEmissions? && step.reward == r)
    ensures AccrueRewards(w.pool, t).Ok?
    ensures SameReward(Accrued(w, t), Next(w, step), r)
  {
    hide Valid, IncreaseLiquidity, DecreaseLiquidity, UpdateFeesAndRewards, SetRewardEmissions, SwapTokens, AccrueRewards,
         Next, SameReward, Accrued;
    match step
    case Increase(i, l, a, b, _) => IncreaseFollowsAccrual(w, i, l, a, b, t, r);
    case Decrease(i, l, a, b, _) => DecreaseFollowsAccrual(w, i, l, a, b, t, r);
    case Settle(i, _) => SettleFollowsAccrual(w, i, t, r);
    case SetEmissions(other, rate, _) => SetEmissionsFollowsAccrual(w, other, rate, t, r);
    case Trade(q, threshold, _) => TradeFollowsAccrual(w, q, threshold, t, r);
  }

  /** `v` has the rate, clock and earnings of reward `r` that `u` has. */
  predicate SameReward(u: World, v: World, r: nat)
    requires r < NUM_REWARDS
  {
    && Rate(v.pool, r) == Rate(u.pool, r)
    && v.pool.rewardLastUpdatedTimestamp == u.pool.rewardLastUpdatedTimestamp
    && v.books.earned[r + 2] == u.books.earned[r + 2]
  }

  lemma IncreaseFollowsAccrual(w: World, i: nat, amount: u128, a: u64, b: u64, t: u64, r: nat)
    requires Valid(w) && r < NUM_REWARDS && IncreaseLiquidity(w.pool, i, amount, a, b, t).Ok?
    ensures AccrueRewards(w.pool, t).Ok?
    ensures SameReward(Accrued(w, t), Next(w, Increase(i, amount, a, b, t)), r)
  {
    ValidParts(w);
    hide Valid, IncreaseLiquidity, AccrueRewards, ChangedTo, BooksAccrued;
    IncreaseChanges(w.pool, i, amount, a, b, t);
    ChangeFollowsAccrual(w, i, amount, t, IncreaseLiquidity(w.pool, i, amount, a, b, t).value);
  }

  lemma DecreaseFollowsAccrual(w: World, i: nat, amount: u128, a: u64, b: u64, t: u64, r: nat)
    requires Valid(w) && r < NUM_REWARDS && DecreaseLiquidity(w.pool, i, amount, a, b, t).Ok?
    ensures AccrueRewards(w.pool, t).Ok?
    ensures SameReward(Accrued(w, t), Next(w, Decrease(i, amount, a, b, t)), r)
  {
    ValidParts(w);
    hide Valid, DecreaseLiquidity, AccrueRewards, ChangedTo, BooksAccrued;
    DecreaseChanges(w.pool, i, amount, a, b, t);
    ChangeFollowsAccrual(w, i, 0 - amount, t, DecreaseLiquidity(w.pool, i, amount, a, b, t).value);
  }

  lemma ChangeFollowsAccrual(w: World, i: nat, delta: i128, t: u64, v: Pool)
    requires Valid(w) && ChangedTo(w.pool, i, delta, t, v)
    ensures AccrueRewards(w.pool, t).Ok? && i < |w.pool.positions|
    ensures v.rewardInfos == AccrueRewards(w.pool, t).value.rewardInfos
    ensures v.rewardLastUpdatedTimestamp == AccrueRewards(w.pool, t).value.rewardLastUpdatedTimestamp
  {
    ValidParts(w);
    hide Valid, ModifyLiquidity, CalculateLiquidityTokenDeltas, TickChanges, PositionModified, AccrueRewards;
    ModifyIsModified(w, i, delta, t);
  }

  lemma SettleFollowsAccrual(w: World, i: nat, t: u64, r: nat)
    requires Valid(w) && r < NUM_REWARDS && UpdateFeesAndRewards(w.pool, i, t).Ok?
    ensures AccrueRewards(w.pool, t).Ok?
    ensures SameReward(Accrued(w, t), Next(w, Settle(i, t)), r)
  {
    ValidParts(w);
    SettleIsModified(w, i, t);
    hide Valid, UpdateFeesAndRewards, AccrueRewards, TickChanges, PositionModified;
  }

  lemma SetEmissionsFollowsAccrual(w: World, other: nat, rate: u128, t: u64, r: nat)
    requires Valid(w) && r < NUM_REWARDS && r != other && SetRewardEmissions(w.pool, other, rate, t).Ok?
    ensures AccrueRewards(w.pool, t).Ok?
    ensures SameReward(Accrued(w, t), Next(w, SetEmissions(other, rate, t)), r)
  {
    hide Valid, AccrueRewards, CheckedMulShiftRight;
  }

  lemma TradeFollowsAccrual(w: World, q: SwapRequest, threshold: u64, t: u64, r: nat)
    requires Valid(w) && r < NUM_REWARDS && SwapTokens(w.pool, q, threshold, t).Ok?
    ensures AccrueRewards(w.pool, t).Ok?
    ensures SameReward(Accrued(w, t), Next(w, Trade(q, threshold, t)), r)
  {
    ValidParts(w);
    hide Valid, AccrueRewards, SwapTokens, BooksAfter;
    TradeKeepsRewards(w.pool, q, threshold, t);
    TradeEarnsNoReward(w, q, threshold, t, r);
  }

  lemma TradeKeepsRewards(s: Pool, q: SwapRequest, threshold: u64, t: u64)
    requires Aligned(s) && SwapTokens(s, q, threshold, t).Ok?
    ensures AccrueRewards(s, t).Ok?
    ensures var u, v := AccrueRewards(s, t).value, SwapTokens(s, q, threshold, t).value;
            v.rewardInfos == u.rewardInfos && v.rewardLastUpdatedTimestamp == u.rewardLastUpdatedTimestamp
  {
    hide AccrueRewards, Swap, Refusal, SwapAmounts;
  }

  lemma TradeEarnsNoReward(w: World, q: SwapRequest, threshold: u64, t: u64, r: nat)
    requires Valid(w) && r < NUM_REWARDS && SwapTokens(w.pool, q, threshold, t).Ok?
    ensures AccrueRewards(w.pool, t).Ok?
    ensures BooksAfter(w, Trade(q, threshold, t)).earned[r + 2] == Accrued(w, t).books.earned[r + 2]
  {
    hide Valid, AccrueRewards, Swap, SwapTokens, Keeps;
    TradeKeepsValid(w, q, threshold, t);
  }

  lemma RatePassesOn(w: World, u: World, v: World, r: nat)
    requires r < NUM_REWARDS && EarnsByRate(w, u, r)
    requires SameReward(u, v, r)
    ensures EarnsByRate(w, v, r)
  {
  }

  lemma InstantStep(w: World, step: Step, r: nat)
    requires Valid(w) && r < NUM_REWARDS && Apply(w.pool, step).Ok?
    requires !step.Increase? && !step.Decrease? && !step.Settle? && !step.SetEmissions? && !step.Trade?
    ensures EarnsByRate(w, Next(w, step), r)
  {
    assert Rate(w.pool, r) * 0 == 0;
  }

  lemma {:induction false} RunEarnsByRate(w: World, steps: seq<Step>, r: nat)
    requires Valid(w) && r < NUM_REWARDS && RateUntouched(steps, r)
    ensures EarnsByRate(w, Run(w, steps), r)
    decreases |steps|
  {
    if steps == [] {
      assert Rate(w.pool, r) * 0 == 0;
    } else {
      var u := Next(w, steps[0]);
      StepKeeps(w, steps[0]);
      assert steps[0] in steps && forall step | step in steps[1..] :: step in steps;
      StepEarnsByRate(w, steps[0], r);
      RunEarnsByRate(u, steps[1..], r);
      RatesCompose(w, u, Run(w, steps), r);
    }
  }

  lemma RatesCompose(u: World, v: World, w: World, r: nat)
    requires r < NUM_REWARDS && EarnsByRate(u, v, r) && EarnsByRate(v, w, r)
    ensures EarnsByRate(u, w, r)
  {
    var rate := Rate(u.pool, r);
    var (a, b, c) := (u.pool.rewardLastUpdatedTimestamp, v.pool.rewardLastUpdatedTimestamp,
                      w.pool.rewardLastUpdatedTimestamp);
    assert rate * (c - a) == rate * (b - a) + rate * (c - b);
  }

  // ---- reward tokens ----

  /** Reward tokens in the vault and reward tokens paid out. */
  function RewardTokens(w: World, r: nat): int
    requires r < NUM_REWARDS
  {
    w.pool.rewardVaults[r] + w.books.paid[r + 2]
  }

  function FundedBy(step: Step, r: nat): nat {
    if step.Fund? && step.reward == r then step.amount else 0
  }

  function Funded(steps: seq<Step>, r: nat): nat {
    if steps == [] then 0 else FundedBy(steps[0], r) + Funded(steps[1..], r)
  }

  lemma StepConservesReward(w: World, step: Step, r: nat)
    requires Valid(w) && r < NUM_REWARDS
    ensures RewardTokens(Next(w, step), r) == RewardTokens(w, r) + FundedBy(step, r)
  {
    if Apply(w.pool, step).Ok? {
      if TimeOf(step).Some? {
        TimedStepMovesNoReward(w, step, r);
      } else {
        InstantStepMovesReward(w, step, r);
      }
    }
    hide Valid, Apply, BooksAfter, Funded;
  }

  lemma InstantStepMovesReward(w: World, step: Step, r: nat)
    requires Valid(w) && r < NUM_REWARDS && Apply(w.pool, step).Ok? && TimeOf(step).None?
    ensures RewardTokens(Next(w, step), r) == RewardTokens(w, r) + FundedBy(step, r)
  {
    hide Valid, IncreaseLiquidity, DecreaseLiquidity, UpdateFeesAndRewards, SetRewardEmissions, SwapTokens, Swap,
         BooksSettledAt, Accrued, AccrueRewards, UsableTick;
  }

  lemma TimedStepMovesNoReward(w: World, step: Step, r: nat)
    requires Valid(w) && r < NUM_REWARDS && Apply(w.pool, step).Ok? && TimeOf(step).Some?
    ensures RewardTokens(Next(w, step), r) == RewardTokens(w, r)
  {
    hide Valid, CalculateLiquidityTokenDeltas, CalculateModifyLiquidity, NextWhirlpoolRewardInfos, Swap, SwapAmounts,
         CheckedMulShiftRight, Refusal, ArraysAligned, CreditedAfter;
  }

  /** Over any run the reward tokens in the vault and those paid out are the ones it started with and those sent in. */
  lemma {:induction false} RunConservesReward(w: World, steps: seq<Step>, r: nat)
    requires Valid(w) && r < NUM_REWARDS
    ensures RewardTokens(Run(w, steps), r) == RewardTokens(w, r) + Funded(steps, r)
    decreases |steps|
  {
    if steps != [] {
      StepKeeps(w, steps[0]);
      StepConservesReward(w, steps[0], r);
      RunConservesReward(Next(w, steps[0]), steps[1..], r);
    }
  }
}
