/** Concrete runs from a fresh pool: what overflow, neglect and an unfunded debt do to the owner of a reward. */
module RewardRuns {
  import opened Arithmetic
  import opened Outcome
  import opened TokenMath
  import opened State
  import opened PositionManager
  import opened WhirlpoolManager
  import opened TickManager
  import opened ModifyProofs
  import opened Instructions
  import opened Ledger
  import opened StepProofs
  import opened Runs
  import opened Theorems

  /** 2^111 per second scaled by 2^64: a day of it still fits the one-day check against a 64-bit vault. */
  const RATE: u128 := 0x8000_0000_0000_0000_0000_0000_0000
  const HALF_RATE: u128 := 0x4000_0000_0000_0000_0000_0000_0000
  const HALF_TIME: u64 := 0x1_0000
  const HALF_GROWTH: u128 := 0x4000_0000_0000_0000_0000_0000_0000_0000
  const FULL_TIME: u64 := 0x2_0000
  const FULL_GROWTH: u128 := 0x8000_0000_0000_0000_0000_0000_0000_0000
  const HALF_TOKENS: u64 := 0x8000_0000_0000_0000
  const FULL_VAULT: u64 := 0xffff_ffff_ffff_ffff

  /** A fully funded reward, and one position with liquidity 2 over the whole range. */
  const SETUP: seq<Step> := [
    StartReward(0),
    Fund(0, FULL_VAULT),
    SetEmissions(0, RATE, 0),
    Open(MIN_TICK_INDEX, MAX_TICK_INDEX),
    Increase(0, 2, Q64 - 1, Q64 - 1, 0)]

  /** Clock, rate and growth of the reward; checkpoint and debt of the position; tokens in the vault and paid out. */
  datatype Stake = Stake(time: u64, rate: u128, growth: u128, checkpoint: u128, owed: u64, vault: u64, paid: nat)

  const START: Stake := Stake(0, RATE, 0, 0, 0, FULL_VAULT, 0)

  ghost predicate StakedPool(s: Pool, k: Stake) {
    && s.tickCurrentIndex == MIN_TICK_INDEX && s.liquidity == 2
    && s.rewardLastUpdatedTimestamp == k.time && s.rewardVaults[0] == k.vault
    && s.rewardInfos[0] == RewardInfo(true, k.rate, k.growth)
    && |s.positions| == 1
    && s.positions[0].tickLowerIndex == MIN_TICK_INDEX && s.positions[0].tickUpperIndex == MAX_TICK_INDEX
    && s.positions[0].liquidity == 2 && s.positions[0].rewardInfos[0] == PositionReward(k.checkpoint, k.owed)
    && EmptyBelow(TickAt(s.ticks, MIN_TICK_INDEX)) && EmptyBelow(TickAt(s.ticks, MAX_TICK_INDEX))
  }

  ghost predicate Staked(w: World, k: Stake) {
    StakedPool(w.pool, k) && w.books.paid[2] == k.paid
  }

  predicate EmptyBelow(tick: Tick) {
    tick.initialized && tick.rewardGrowthsOutside[0] == 0
  }

  // ---- what each instruction does to a stake ----

  function Later(k: Stake, elapsed: u64): Stake
    requires k.time + elapsed < Q64
  {
    k.(time := k.time + elapsed,
       growth := WrapAdd(k.growth, RewardGrowthDelta(RewardInfo(true, k.rate, k.growth), 2, elapsed)))
  }

  function AfterSettle(k: Stake, elapsed: u64): Stake
    requires k.time + elapsed < Q64
  {
    var l := Later(k, elapsed);
    l.(checkpoint := l.growth, owed := WrapAdd64(k.owed, GrowthEarned(2, l.growth, k.checkpoint)))
  }

  function AfterTake(k: Stake): Stake {
    var transfer := Min(k.owed, k.vault);
    k.(owed := k.owed - transfer, vault := k.vault - transfer, paid := k.paid + transfer)
  }

  lemma TimePasses(s: Pool, k: Stake, elapsed: u64)
    requires StakedPool(s, k) && k.time + elapsed < Q64
    ensures AccrueRewards(s, k.time + elapsed).Ok?
    ensures StakedPool(AccrueRewards(s, k.time + elapsed).value, Later(k, elapsed))
  {
    if elapsed == 0 { RewardDeltaFits(s.rewardInfos[0], 2, 0); }
    hide RewardGrowthDelta;
  }

  /** Setting a rate brings the reward up to date first. */
  lemma RateIsSet(w: World, k: Stake, rate: u128, elapsed: u64)
    requires Valid(w) && Staked(w, k) && k.time + elapsed < Q64 && DayFits(rate, k.vault)
    ensures Staked(Next(w, SetEmissions(0, rate, k.time + elapsed)), Later(k, elapsed).(rate := rate))
  {
    TimePasses(w.pool, k, elapsed);
    hide Valid, CheckedMulShiftRight, AccrueRewards, RewardGrowthDelta;
  }

  /** The one-day check of the vault. */
  predicate DayFits(rate: u128, vault: nat) {
    var perDay := CheckedMulShiftRight(DAY_IN_SECONDS, rate, false);
    perDay.Ok? && perDay.value <= vault
  }

  /** All growth happened inside the whole range. */
  lemma InsideIsGrowth(s: Pool, k: Stake)
    requires StakedPool(s, k)
    ensures Inside(s, MIN_TICK_INDEX, MAX_TICK_INDEX, 2) == k.growth
  {
  }

  /** On an up-to-date pool a settlement moves the checkpoint to the reward's growth and adds the credit to the debt. */
  lemma SettlementMoves(s: Pool, k: Stake)
    requires StakedPool(s, k)
    ensures UpdateFeesAndRewards(s, 0, k.time).Ok?
    ensures StakedPool(UpdateFeesAndRewards(s, 0, k.time).value,
                       k.(checkpoint := k.growth, owed := WrapAdd64(k.owed, GrowthEarned(2, k.growth, k.checkpoint))))
  {
    InsideIsGrowth(s, k);
    hide GrowthInside, GrowthEarned, RewardGrowthDelta, TickAt, WrapAdd64;
  }

  lemma SettlingAccruesFirst(s: Pool, time: u64)
    requires AccrueRewards(s, time).Ok? && 0 < |s.positions|
    ensures UpdateFeesAndRewards(s, 0, time) == UpdateFeesAndRewards(AccrueRewards(s, time).value, 0, time)
  {
    ModifyFactors(s, s.positions[0], 0, time);
    hide NextTickModifyLiquidityUpdate, NextFeeGrowthsInside, NextRewardGrowthsInside, NextPositionModifyLiquidityUpdate;
  }

  lemma StakeSettles(w: World, k: Stake, elapsed: u64)
    requires Valid(w) && Staked(w, k) && k.time + elapsed < Q64
    ensures Staked(Next(w, Settle(0, k.time + elapsed)), AfterSettle(k, elapsed))
  {
    var now := k.time + elapsed;
    TimePasses(w.pool, k, elapsed);
    SettlementMoves(AccrueRewards(w.pool, now).value, Later(k, elapsed));
    SettlingAccruesFirst(w.pool, now);
    SettlementPaysNothing(w, now);
    hide Valid, AccrueRewards, UpdateFeesAndRewards, GrowthEarned, WrapAdd64, Next, StakedPool;
  }

  lemma SettlementPaysNothing(w: World, time: u64)
    requires Valid(w) && 0 < |w.pool.positions| && UpdateFeesAndRewards(w.pool, 0, time).Ok?
    requires AccrueRewards(w.pool, time).Ok?
    ensures var v := Next(w, Settle(0, time));
            v.pool == UpdateFeesAndRewards(w.pool, 0, time).value && v.books.paid == w.books.paid
  {
    ValidParts(w);
    hide Valid, UpdateFeesAndRewards, Earned, NextWhirlpoolRewardInfos;
  }

  lemma StakeIsPaid(w: World, k: Stake)
    requires Valid(w) && Staked(w, k)
    ensures Staked(Next(w, TakeReward(0, 0)), AfterTake(k))
  {
    hide Valid;
  }

  // ---- getting there ----

  lemma LowestPriceIsLowestTick(curve: Curve)
    requires curve.Valid()
    ensures curve.tickAt(MIN_SQRT_PRICE) == MIN_TICK_INDEX
  {
    var t := curve.tickAt(MIN_SQRT_PRICE);
    assert MIN_TICK_INDEX < t ==> curve.priceAt(MIN_TICK_INDEX) < curve.priceAt(t);
  }

  /** The pool once the reward runs and the position is open, still empty. */
  function Prepared(curve: Curve): Pool {
    InitializePool(curve, 1, MIN_SQRT_PRICE, 0, 0).(
      rewardInfos := [RewardInfo(true, RATE, 0), DEFAULT_REWARD, DEFAULT_REWARD],
      rewardVaults := [FULL_VAULT, 0, 0],
      positions := [Position(MIN_TICK_INDEX, MAX_TICK_INDEX, 0, 0, 0, 0, 0, EMPTY_REWARDS)])
  }

  ghost function Fresh(curve: Curve): World
    requires curve.Valid()
    ensures Valid(Fresh(curve))
  {
    InitialValid(curve, 1, MIN_SQRT_PRICE, 0, 0);
    World(InitializePool(curve, 1, MIN_SQRT_PRICE, 0, 0), EMPTY_BOOKS)
  }

  lemma RunFirst(w: World, step: Step, rest: seq<Step>)
    requires Valid(w)
    ensures Valid(Next(w, step)) && Run(w, [step] + rest) == Run(Next(w, step), rest)
  {
    StepKeeps(w, step);
    assert ([step] + rest)[1..] == rest;
  }

  lemma RewardIsStarted(w: World, curve: Curve)
    requires curve.Valid() && w == Fresh(curve)
    ensures Next(w, StartReward(0)).pool
         == w.pool.(rewardInfos := [RewardInfo(true, 0, 0), DEFAULT_REWARD, DEFAULT_REWARD])
    ensures Next(w, StartReward(0)).books == w.books
  {
    hide Valid;
  }

  lemma RewardIsFunded(w: World, amount: u64)
    requires Valid(w) && w.pool.rewardVaults == [0, 0, 0]
    ensures Next(w, Fund(0, amount)).pool == w.pool.(rewardVaults := [amount, 0, 0])
    ensures Next(w, Fund(0, amount)).books == w.books
  {
    hide Valid;
  }

  lemma EmissionsStart(w: World)
    requires Valid(w) && w.pool.rewardVaults[0] == FULL_VAULT && w.pool.rewardLastUpdatedTimestamp == 0
    requires w.pool.rewardInfos == [RewardInfo(true, 0, 0), DEFAULT_REWARD, DEFAULT_REWARD]
    ensures Next(w, SetEmissions(0, RATE, 0)).pool
         == w.pool.(rewardInfos := [RewardInfo(true, RATE, 0), DEFAULT_REWARD, DEFAULT_REWARD])
    ensures Next(w, SetEmissions(0, RATE, 0)).books.paid == w.books.paid
  {
    RateIsAllowed();
    hide Valid, CheckedMulShiftRight;
  }

  lemma PositionIsOpened(w: World)
    requires Valid(w) && w.pool.positions == [] && w.pool.tickSpacing == 1
    ensures Next(w, Open(MIN_TICK_INDEX, MAX_TICK_INDEX)).pool
         == w.pool.(positions := [Position(MIN_TICK_INDEX, MAX_TICK_INDEX, 0, 0, 0, 0, 0, EMPTY_REWARDS)])
    ensures Next(w, Open(MIN_TICK_INDEX, MAX_TICK_INDEX)).books.paid == w.books.paid
  {
    hide Valid;
  }

  lemma FilledPoolIsStaked(curve: Curve)
    requires curve.Valid()
    ensures WellFormed(Prepared(curve)) && AccrueRewards(Prepared(curve), 0) == Ok(Prepared(curve))
    ensures IncreaseLiquidity(Prepared(curve), 0, 2, Q64 - 1, Q64 - 1, 0).Ok?
    ensures StakedPool(IncreaseLiquidity(Prepared(curve), 0, 2, Q64 - 1, Q64 - 1, 0).value, START)
  {
    LowestPriceIsLowestTick(curve);
    WholeRangeIsPriced();
    hide GetAmountDeltaA, GetAmountDeltaB;
  }

  lemma PositionIsFilled(w: World, curve: Curve)
    requires Valid(w) && curve.Valid() && w.pool == Prepared(curve) && w.books.paid == NOTHING
    ensures Staked(Next(w, Increase(0, 2, Q64 - 1, Q64 - 1, 0)), START)
  {
    FilledPoolIsStaked(curve);
    ValidParts(w);
    hide Valid, IncreaseLiquidity, AccrueRewards, StakedPool, Earned;
  }

  /** Liquidity 2 over the whole range costs a 64-bit amount of A, and no B at the lowest price. */
  lemma WholeRangeIsPriced()
    ensures GetAmountDeltaA(MIN_SQRT_PRICE, MAX_SQRT_PRICE, 2, true).Ok?
    ensures GetAmountDeltaB(MIN_SQRT_PRICE, MIN_SQRT_PRICE, 2, true) == Ok(0)
  {
    AmountDeltaAAgrees(MIN_SQRT_PRICE, MAX_SQRT_PRICE, 2, true);
    CeilLeast(2 * (MAX_SQRT_PRICE - MIN_SQRT_PRICE) * Q64, MAX_SQRT_PRICE * MIN_SQRT_PRICE, Q64 - 1);
  }

  lemma SetupStakes(curve: Curve, rest: seq<Step>) returns (w: World)
    requires curve.Valid()
    ensures Valid(w) && Staked(w, START) && Run(Fresh(curve), SETUP + rest) == Run(w, rest)
  {
    hide Valid, Run, Next, Staked;
    var w0 := Fresh(curve);
    RunFirst(w0, SETUP[0], SETUP[1..] + rest);
    RewardIsStarted(w0, curve);
    var w1 := Next(w0, SETUP[0]);
    RunFirst(w1, SETUP[1], SETUP[2..] + rest);
    RewardIsFunded(w1, FULL_VAULT);
    var w2 := Next(w1, SETUP[1]);
    RunFirst(w2, SETUP[2], SETUP[3..] + rest);
    EmissionsStart(w2);
    var w3 := Next(w2, SETUP[2]);
    RunFirst(w3, SETUP[3], SETUP[4..] + rest);
    PositionIsOpened(w3);
    var w4 := Next(w3, SETUP[3]);
    RunFirst(w4, SETUP[4], rest);
    PositionIsFilled(w4, curve);
    w := Next(w4, SETUP[4]);
    assert SETUP + rest == [SETUP[0]] + (SETUP[1..] + rest);
    assert SETUP[1..] + rest == [SETUP[1]] + (SETUP[2..] + rest);
    assert SETUP[2..] + rest == [SETUP[2]] + (SETUP[3..] + rest);
    assert SETUP[3..] + rest == [SETUP[3]] + (SETUP[4..] + rest);
    assert SETUP[4..] + rest == [SETUP[4]] + rest;
  }

  // ---- constants ----

  lemma RateIsAllowed()
    ensures DayFits(RATE, FULL_VAULT) && DayFits(HALF_RATE, HALF_TOKENS - 1)
  {
  }

  /** Over half the time the product fits; over the whole it overflows and nothing accrues. */
  lemma TimeGrows(growth: u128)
    ensures RewardGrowthDelta(RewardInfo(true, RATE, growth), 2, HALF_TIME) == HALF_GROWTH
    ensures RewardGrowthDelta(RewardInfo(true, RATE, growth), 2, FULL_TIME) == 0
    ensures RewardGrowthDelta(RewardInfo(true, RATE, growth), 2, 0) == 0
  {
  }

  /** Half the growth is half of 2^64 tokens; the whole overflows and is nothing. */
  lemma GrowthEarns()
    ensures GrowthEarned(2, HALF_GROWTH, 0) == GrowthEarned(2, FULL_GROWTH, HALF_GROWTH) == HALF_TOKENS
    ensures GrowthEarned(2, FULL_GROWTH, 0) == 0 == GrowthEarned(2, 0, 0)
  {
  }

  lemma NoWrap(x: u128, y: nat)
    requires x + y < Q128
    ensures WrapAdd(x, y) == x + y
  {
    hide Wrap;
    WrapSmall(x + y);
  }

  lemma NoWrap64(x: u64, y: u64)
    requires x + y < Q64
    ensures WrapAdd64(x, y) == x + y
  {
    hide Wrap64;
    Wrap64Small(x + y);
  }

  // The stake through the runs.
  const EAGER_OWED: Stake := Stake(HALF_TIME, RATE, HALF_GROWTH, HALF_GROWTH, HALF_TOKENS, FULL_VAULT, 0)
  const EAGER_HALF: Stake := Stake(HALF_TIME, RATE, HALF_GROWTH, HALF_GROWTH, 0, HALF_TOKENS - 1, HALF_TOKENS)
  const EAGER_FULL: Stake := Stake(FULL_TIME, RATE, FULL_GROWTH, FULL_GROWTH, HALF_TOKENS, HALF_TOKENS - 1, HALF_TOKENS)
  const EAGER_END: Stake := Stake(FULL_TIME, RATE, FULL_GROWTH, FULL_GROWTH, 1, 0, FULL_VAULT)
  const PATIENT_HALF: Stake := Stake(HALF_TIME, RATE, HALF_GROWTH, 0, 0, FULL_VAULT, 0)
  const PATIENT_END: Stake := Stake(FULL_TIME, RATE, FULL_GROWTH, FULL_GROWTH, 0, FULL_VAULT, 0)
  const NEGLECTED_END: Stake := Stake(FULL_TIME, RATE, 0, 0, 0, FULL_VAULT, 0)

  lemma HalfPasses()
    ensures Later(START, HALF_TIME) == PATIENT_HALF
    ensures Later(EAGER_HALF, HALF_TIME) == EAGER_HALF.(time := FULL_TIME, growth := FULL_GROWTH)
    ensures Later(PATIENT_HALF, HALF_TIME) == PATIENT_HALF.(time := FULL_TIME, growth := FULL_GROWTH)
  {
    hide RewardGrowthDelta, WrapAdd;
    TimeGrows(0);
    TimeGrows(HALF_GROWTH);
    NoWrap(0, HALF_GROWTH);
    NoWrap(HALF_GROWTH, HALF_GROWTH);
  }

  lemma WholePasses()
    ensures Later(START, FULL_TIME) == START.(time := FULL_TIME)
    ensures Later(EAGER_FULL, 0) == EAGER_FULL
  {
    hide RewardGrowthDelta, WrapAdd;
    TimeGrows(0);
    TimeGrows(FULL_GROWTH);
    NoWrap(0, 0);
    NoWrap(FULL_GROWTH, 0);
  }

  lemma EagerStakes()
    ensures AfterSettle(START, HALF_TIME) == EAGER_OWED && AfterTake(EAGER_OWED) == EAGER_HALF
    ensures AfterSettle(EAGER_HALF, HALF_TIME) == EAGER_FULL && AfterTake(EAGER_FULL) == EAGER_END
  {
    hide Later, GrowthEarned, WrapAdd64;
    HalfPasses();
    GrowthEarns();
    NoWrap64(0, HALF_TOKENS);
  }

  lemma PatientStakes()
    ensures AfterSettle(PATIENT_HALF, HALF_TIME) == PATIENT_END && AfterTake(PATIENT_END) == PATIENT_END
  {
    hide Later, GrowthEarned, WrapAdd64;
    HalfPasses();
    GrowthEarns();
    NoWrap64(0, 0);
  }

  lemma NeglectedStakes()
    ensures AfterSettle(START, FULL_TIME) == NEGLECTED_END && AfterTake(NEGLECTED_END) == NEGLECTED_END
  {
    hide Later, GrowthEarned, WrapAdd64;
    WholePasses();
    GrowthEarns();
    NoWrap64(0, 0);
  }

  // ---- the runs ----

  /** Settles and collects after each half of the time. */
  const EAGER: seq<Step> := [Settle(0, HALF_TIME), TakeReward(0, 0), Settle(0, FULL_TIME), TakeReward(0, 0)]

  /** Settles and collects once at the end; the same rate is set again meanwhile, which brings the reward up to date. */
  const PATIENT: seq<Step> := [SetEmissions(0, RATE, HALF_TIME), Settle(0, FULL_TIME), TakeReward(0, 0)]

  /** Nobody touches the pool until the end. */
  const NEGLECTED: seq<Step> := [Settle(0, FULL_TIME), TakeReward(0, 0)]

  /** When the vault no longer holds what is already owed, a new rate is set, and then the debt is collected. */
  const OVERSPENT: seq<Step> := [Settle(0, HALF_TIME), TakeReward(0, 0), Settle(0, FULL_TIME),
                                 SetEmissions(0, HALF_RATE, FULL_TIME), TakeReward(0, 0)]

  /** Reward tokens the position's owner has received or is owed. */
  function Gained(w: World): int
    requires |w.pool.positions| > 0
  {
    w.books.paid[2] + w.pool.positions[0].rewardInfos[0].amountOwed
  }

  /**
   * The same reward over the same time, from the same start. Settled after each half, the owner gains 2^64 tokens;
   * settled once, the settlement's product overflows and the owner gains nothing.
   */
  lemma SettlingOnceForfeits(curve: Curve)
    requires curve.Valid()
    ensures var eager, patient := Run(Fresh(curve), SETUP + EAGER), Run(Fresh(curve), SETUP + PATIENT);
            && Reachable(eager) && Reachable(patient) && |eager.pool.positions| == |patient.pool.positions| == 1
            && eager.pool.rewardLastUpdatedTimestamp == patient.pool.rewardLastUpdatedTimestamp
            && eager.pool.rewardInfos[0] == patient.pool.rewardInfos[0]
            && Gained(eager) == Q64 && Gained(patient) == 0
  {
    FreshRunIsReachable(curve, SETUP + EAGER);
    FreshRunIsReachable(curve, SETUP + PATIENT);
    EagerRun(curve);
    PatientRun(curve);
    hide Run, Fresh, Reachable, Valid;
  }

  /** Over the same time, a pool that nobody touches accrues nothing at all: the accrual's own product overflows. */
  lemma NeglectForfeits(curve: Curve)
    requires curve.Valid()
    ensures var eager, neglected := Run(Fresh(curve), SETUP + EAGER), Run(Fresh(curve), SETUP + NEGLECTED);
            && Reachable(neglected) && |eager.pool.positions| == |neglected.pool.positions| == 1
            && neglected.pool.rewardLastUpdatedTimestamp == eager.pool.rewardLastUpdatedTimestamp
            && eager.pool.rewardInfos[0].growthGlobalX64 == FULL_GROWTH && Gained(eager) == Q64
            && neglected.pool.rewardInfos[0].growthGlobalX64 == 0 && Gained(neglected) == 0
  {
    FreshRunIsReachable(curve, SETUP + NEGLECTED);
    EagerRun(curve);
    NeglectedRun(curve);
    hide Run, Fresh, Reachable, Valid;
  }

  /** A new rate passes its one-day check although the vault is already owed in full: collecting leaves it empty. */
  lemma OneDayCheckIgnoresDebts(curve: Curve)
    requires curve.Valid()
    ensures var w := Run(Fresh(curve), SETUP + OVERSPENT);
            && Reachable(w) && |w.pool.positions| == 1
            && w.pool.rewardInfos[0].emissionsPerSecondX64 == HALF_RATE > 0
            && w.pool.rewardVaults[0] == 0 && w.pool.positions[0].rewardInfos[0].amountOwed == 1
  {
    FreshRunIsReachable(curve, SETUP + OVERSPENT);
    OverspentRun(curve);
    hide Run, Fresh, Reachable, Valid;
  }

  lemma FreshRunIsReachable(curve: Curve, steps: seq<Step>)
    requires curve.Valid()
    ensures Reachable(Run(Fresh(curve), steps))
  {
    ReachedIsReachable(Run(Fresh(curve), steps), curve, 1, MIN_SQRT_PRICE, 0, 0, steps);
  }

  /** The eager run up to its last collection. */
  lemma FirstHalf(curve: Curve, rest: seq<Step>) returns (w: World)
    requires curve.Valid()
    ensures Valid(w) && Staked(w, EAGER_FULL)
    ensures Run(Fresh(curve), SETUP + ([Settle(0, HALF_TIME), TakeReward(0, 0), Settle(0, FULL_TIME)] + rest))
         == Run(w, rest)
  {
    hide Valid, Run, Next, Staked, Fresh, AfterSettle, AfterTake;
    var a, b, c := Settle(0, HALF_TIME), TakeReward(0, 0), Settle(0, FULL_TIME);
    assert [a, b, c] + rest == [a] + ([b] + ([c] + rest));
    EagerStakes();
    var w0 := SetupStakes(curve, [a] + ([b] + ([c] + rest)));
    RunFirst(w0, a, [b] + ([c] + rest));
    StakeSettles(w0, START, HALF_TIME);
    var w1 := Next(w0, a);
    RunFirst(w1, b, [c] + rest);
    StakeIsPaid(w1, EAGER_OWED);
    var w2 := Next(w1, b);
    RunFirst(w2, c, rest);
    StakeSettles(w2, EAGER_HALF, HALF_TIME);
    w := Next(w2, c);
  }

  lemma EagerRun(curve: Curve)
    requires curve.Valid()
    ensures Staked(Run(Fresh(curve), SETUP + EAGER), EAGER_END)
  {
    hide Valid, Run, Next, Staked, Fresh, AfterSettle, AfterTake;
    var last := TakeReward(0, 0);
    var w := FirstHalf(curve, [last] + []);
    assert EAGER == [Settle(0, HALF_TIME), TakeReward(0, 0), Settle(0, FULL_TIME)] + ([last] + []);
    EagerStakes();
    RunFirst(w, last, []);
    StakeIsPaid(w, EAGER_FULL);
    RunNone(Next(w, last));
  }

  lemma RunNone(w: World)
    requires Valid(w)
    ensures Run(w, []) == w
  {
  }

  lemma PatientRun(curve: Curve)
    requires curve.Valid()
    ensures Staked(Run(Fresh(curve), SETUP + PATIENT), PATIENT_END)
  {
    hide Valid, Run, Next, Staked, Fresh, AfterSettle, AfterTake, Later, DayFits;
    var a, b, c := SetEmissions(0, RATE, HALF_TIME), Settle(0, FULL_TIME), TakeReward(0, 0);
    assert PATIENT == [a] + ([b] + ([c] + []));
    HalfPasses();
    PatientStakes();
    RateIsAllowed();
    var w0 := SetupStakes(curve, [a] + ([b] + ([c] + [])));
    RunFirst(w0, a, [b] + ([c] + []));
    RateIsSet(w0, START, RATE, HALF_TIME);
    var w1 := Next(w0, a);
    RunFirst(w1, b, [c] + []);
    StakeSettles(w1, PATIENT_HALF, HALF_TIME);
    var w2 := Next(w1, b);
    RunFirst(w2, c, []);
    StakeIsPaid(w2, PATIENT_END);
    RunNone(Next(w2, c));
  }

  lemma NeglectedRun(curve: Curve)
    requires curve.Valid()
    ensures Staked(Run(Fresh(curve), SETUP + NEGLECTED), NEGLECTED_END)
  {
    hide Valid, Run, Next, Staked, Fresh, AfterSettle, AfterTake;
    var a, b := Settle(0, FULL_TIME), TakeReward(0, 0);
    assert NEGLECTED == [a] + ([b] + []);
    NeglectedStakes();
    var w0 := SetupStakes(curve, [a] + ([b] + []));
    RunFirst(w0, a, [b] + []);
    StakeSettles(w0, START, FULL_TIME);
    var w1 := Next(w0, a);
    RunFirst(w1, b, []);
    StakeIsPaid(w1, NEGLECTED_END);
    RunNone(Next(w1, b));
  }

  lemma OverspentRun(curve: Curve)
    requires curve.Valid()
    ensures Staked(Run(Fresh(curve), SETUP + OVERSPENT), EAGER_END.(rate := HALF_RATE))
  {
    hide Valid, Run, Next, Staked, Fresh, DayFits, AfterSettle, Later;
    var a, b := SetEmissions(0, HALF_RATE, FULL_TIME), TakeReward(0, 0);
    var w := FirstHalf(curve, [a] + ([b] + []));
    assert OVERSPENT == [Settle(0, HALF_TIME), TakeReward(0, 0), Settle(0, FULL_TIME)] + ([a] + ([b] + []));
    WholePasses();
    RateIsAllowed();
    RunFirst(w, a, [b] + []);
    RateIsSet(w, EAGER_FULL, HALF_RATE, 0);
    var w1 := Next(w, a);
    RunFirst(w1, b, []);
    StakeIsPaid(w1, EAGER_FULL.(rate := HALF_RATE));
    OverspentTake();
    RunNone(Next(w1, b));
  }

  lemma OverspentTake()
    ensures AfterTake(EAGER_FULL.(rate := HALF_RATE)) == EAGER_END.(rate := HALF_RATE)
  {
  }
}
