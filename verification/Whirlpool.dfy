/** The accounts as mutable state, and the instruction handlers that change them in place. */
module WhirlpoolAccount {
  import opened Arithmetic
  import opened Outcome
  import opened TokenMath
  import opened State
  import opened WhirlpoolManager
  import opened LiquidityManager
  import opened SwapMath
  import opened SwapManager
  import opened TickSearch
  import opened Instructions
  import opened Runs
  import L = Ledger

  class Whirlpool {
    const curve: Curve
    const tickSpacing: nat
    var feeRate: nat
    var protocolFeeRate: nat
    var liquidity: u128
    var sqrtPrice: u128
    var tickCurrentIndex: int
    var protocolFeeOwedA: u64
    var protocolFeeOwedB: u64
    var feeGrowthGlobalA: u128
    var feeGrowthGlobalB: u128
    var rewardLastUpdatedTimestamp: u64
    var rewardInfos: RewardInfos
    var ticks: map<int, Tick>
    var positions: seq<Position>
    var vaultA: int
    var vaultB: int
    var rewardVaults: RewardVaults
    ghost var books: L.Books

    /** The accounts as a value. */
    function Snapshot(): Pool
      reads this
    {
      Pool(curve, tickSpacing, feeRate, protocolFeeRate, liquidity, sqrtPrice, tickCurrentIndex,
           protocolFeeOwedA, protocolFeeOwedB, feeGrowthGlobalA, feeGrowthGlobalB, rewardLastUpdatedTimestamp,
           rewardInfos, ticks, positions, vaultA, vaultB, rewardVaults)
    }

    ghost function Here(): L.World
      reads this
    {
      L.World(Snapshot(), books)
    }

    ghost predicate Valid()
      reads this
    {
      L.Valid(Here())
    }

    constructor Initialize(curve: Curve, tickSpacing: nat, price: u128, feeRate: nat, protocolFeeRate: nat)
      requires curve.Valid() && MIN_SQRT_PRICE <= price <= MAX_SQRT_PRICE
      requires feeRate <= MAX_FEE_RATE && protocolFeeRate <= MAX_PROTOCOL_FEE_RATE
      ensures Valid()
      ensures Snapshot() == InitializePool(curve, tickSpacing, price, feeRate, protocolFeeRate)
      ensures books == L.EMPTY_BOOKS
    {
      this.curve, this.tickSpacing, this.feeRate, this.protocolFeeRate := curve, tickSpacing, feeRate, protocolFeeRate;
      liquidity, sqrtPrice, tickCurrentIndex := 0, price, curve.tickAt(price);
      protocolFeeOwedA, protocolFeeOwedB, feeGrowthGlobalA, feeGrowthGlobalB := 0, 0, 0, 0;
      rewardLastUpdatedTimestamp := 0;
      rewardInfos := [DEFAULT_REWARD, DEFAULT_REWARD, DEFAULT_REWARD];
      ticks, positions := map[], [];
      vaultA, vaultB, rewardVaults := 0, 0, [0, 0, 0];
      books := L.EMPTY_BOOKS;
      new;
      InitialValid(curve, tickSpacing, price, feeRate, protocolFeeRate);
    }

    // ---- updates of single accounts ----

    method UpdateRewards(infos: RewardInfos, timestamp: u64)
      modifies this`rewardInfos, this`rewardLastUpdatedTimestamp
      ensures Snapshot() == old(Snapshot()).(rewardInfos := infos, rewardLastUpdatedTimestamp := timestamp)
    {
      rewardLastUpdatedTimestamp := timestamp;
      rewardInfos := infos;
    }

    method UpdateRewardsAndLiquidity(infos: RewardInfos, newLiquidity: u128, timestamp: u64)
      modifies this`rewardInfos, this`rewardLastUpdatedTimestamp, this`liquidity
      ensures Snapshot() == old(Snapshot()).(rewardInfos := infos, rewardLastUpdatedTimestamp := timestamp,
                                             liquidity := newLiquidity)
    {
      UpdateRewards(infos, timestamp);
      liquidity := newLiquidity;
    }

    method UpdateTick(index: int, update: Tick)
      modifies this`ticks
      ensures Snapshot() == old(Snapshot()).(ticks := old(ticks)[index := update])
    {
      ticks := ticks[index := update];
    }

    method UpdatePosition(i: nat, p: Position)
      requires i < |positions|
      modifies this`positions
      ensures Snapshot() == old(Snapshot()).(positions := old(positions)[i := p])
    {
      positions := positions[i := p];
    }

    /** Position first, then lower tick, upper tick and pool, as one instruction commits them. */
    method CommitModifyLiquidity(i: nat, u: ModifyLiquidityUpdate, timestamp: u64)
      requires i < |positions|
      modifies this`positions, this`ticks, this`rewardInfos, this`rewardLastUpdatedTimestamp, this`liquidity
      ensures Snapshot() == SyncModifyLiquidityValues(old(Snapshot()), i, u, timestamp)
    {
      var p := positions[i];
      UpdatePosition(i, p.Update(u.positionUpdate));
      UpdateTick(p.tickLowerIndex, u.tickLowerUpdate);
      UpdateTick(p.tickUpperIndex, u.tickUpperUpdate);
      UpdateRewardsAndLiquidity(u.rewardInfos, u.whirlpoolLiquidity, timestamp);
    }

    method CommitSwap(q: SwapRequest, c: SwapCursor, infos: RewardInfos, timestamp: u64)
      modifies this`rewardInfos, this`rewardLastUpdatedTimestamp, this`tickCurrentIndex, this`sqrtPrice,
               this`liquidity, this`ticks, this`feeGrowthGlobalA, this`feeGrowthGlobalB,
               this`protocolFeeOwedA, this`protocolFeeOwedB
      ensures Snapshot() == UpdateAfterSwap(RewardsAt(old(Snapshot()), infos, timestamp), q, c)
    {
      ticks := c.ticks;
      tickCurrentIndex := c.tick;
      sqrtPrice := c.sqrtPrice;
      UpdateRewardsAndLiquidity(infos, c.liquidity, timestamp);
      CommitFees(q.aToB, c.feeGrowthInput, c.protocolFee);
    }

    /** The input token's fee growth and the protocol's share of its fees. */
    method CommitFees(inA: bool, growth: u128, protocolFee: u64)
      modifies this`feeGrowthGlobalA, this`feeGrowthGlobalB, this`protocolFeeOwedA, this`protocolFeeOwedB
      ensures Snapshot() ==
              if inA then
                old(Snapshot()).(feeGrowthGlobalA := growth,
                                 protocolFeeOwedA := WrapAdd64(old(protocolFeeOwedA), protocolFee))
              else
                old(Snapshot()).(feeGrowthGlobalB := growth,
                                 protocolFeeOwedB := WrapAdd64(old(protocolFeeOwedB), protocolFee))
    {
      if inA {
        feeGrowthGlobalA := growth;
        protocolFeeOwedA := WrapAdd64(protocolFeeOwedA, protocolFee);
      } else {
        feeGrowthGlobalB := growth;
        protocolFeeOwedB := WrapAdd64(protocolFeeOwedB, protocolFee);
      }
    }

    // ---- instruction handlers ----

    /** A handler ends as the step does; what it wrote before failing is for the runtime to discard. */
    static ghost predicate Ends(s: Pool, step: Step, t: Pool, error: Option<ErrorCode>)
      requires Aligned(s)
    {
      match error
      case None => Apply(s, step) == Ok(t)
      case Some(e) => Apply(s, step) == Err(e)
    }

    method OpenPosition(lower: int, upper: int) returns (error: Option<ErrorCode>)
      requires Aligned(Snapshot())
      modifies this`positions
      ensures Ends(old(Snapshot()), Open(lower, upper), Snapshot(), error)
    {
      if !UsableTick(lower, tickSpacing) || !UsableTick(upper, tickSpacing) || lower >= upper {
        return Some(InvalidTickIndex);
      }
      positions := positions + [Position(lower, upper, 0, 0, 0, 0, 0, EMPTY_REWARDS)];
      error := None;
    }

    /** Compute, commit, then price the change: what both liquidity handlers do first. */
    method ChangeLiquidity(i: nat, delta: i128, timestamp: u64) returns (r: Result<(u64, u64)>)
      requires Aligned(Snapshot()) && i < |positions|
      modifies this`positions, this`ticks, this`rewardInfos, this`rewardLastUpdatedTimestamp, this`liquidity
      ensures WellFormedPosition(old(positions)[i], tickSpacing)
      ensures var next := ModifyLiquidity(old(Snapshot()), i, delta, timestamp);
              if next.Err? then r == Err(next.error)
              else Snapshot() == next.value
                   && r == CalculateLiquidityTokenDeltas(next.value, old(positions)[i], delta)
    {
      var p := positions[i];
      assert p in Snapshot().positions;
      var update :- ComputeModifyLiquidity(Snapshot(), p, delta, timestamp);
      CommitModifyLiquidity(i, update, timestamp);
      r := CalculateLiquidityTokenDeltas(Snapshot(), p, delta);
    }

    method IncreaseLiquidity(i: nat, amount: u128, maxA: u64, maxB: u64, timestamp: u64)
      returns (error: Option<ErrorCode>)
      requires Aligned(Snapshot())
      modifies this`positions, this`ticks, this`rewardInfos, this`rewardLastUpdatedTimestamp, this`liquidity,
               this`vaultA, this`vaultB
      ensures Ends(old(Snapshot()), Increase(i, amount, maxA, maxB, timestamp), Snapshot(), error)
    {
      hide ModifyLiquidity, CalculateModifyLiquidity, CalculateLiquidityTokenDeltas, Aligned, WellFormed, WellFormedPosition;
      if i >= |positions| { return Some(UnknownPosition); }
      if amount == 0 { return Some(LiquidityZero); }
      var delta := ConvertToLiquidityDelta(amount, true);
      if delta.Err? { return Some(delta.error); }
      var tokens := ChangeLiquidity(i, delta.value, timestamp);
      if tokens.Err? { return Some(tokens.error); }
      var (a, b) := tokens.value;
      if a > maxA || b > maxB { return Some(TokenMaxExceeded); }
      vaultA := vaultA + a;
      vaultB := vaultB + b;
      error := None;
    }

    method DecreaseLiquidity(i: nat, amount: u128, minA: u64, minB: u64, timestamp: u64)
      returns (error: Option<ErrorCode>)
      requires Aligned(Snapshot())
      modifies this`positions, this`ticks, this`rewardInfos, this`rewardLastUpdatedTimestamp, this`liquidity,
               this`vaultA, this`vaultB
      ensures Ends(old(Snapshot()), Decrease(i, amount, minA, minB, timestamp), Snapshot(), error)
    {
      hide ModifyLiquidity, CalculateModifyLiquidity, CalculateLiquidityTokenDeltas, Aligned, WellFormed, WellFormedPosition;
      if i >= |positions| { return Some(UnknownPosition); }
      if amount == 0 { return Some(LiquidityZero); }
      var delta := ConvertToLiquidityDelta(amount, false);
      if delta.Err? { return Some(delta.error); }
      var tokens := ChangeLiquidity(i, delta.value, timestamp);
      if tokens.Err? { return Some(tokens.error); }
      var (a, b) := tokens.value;
      if a < minA || b < minB { return Some(TokenMinSubceeded); }
      if a > vaultA || b > vaultB { return Some(InsufficientFunds); }
      vaultA := vaultA - a;
      vaultB := vaultB - b;
      error := None;
    }

    method UpdateFeesAndRewards(i: nat, timestamp: u64) returns (error: Option<ErrorCode>)
      requires Aligned(Snapshot())
      modifies this`positions, this`rewardInfos, this`rewardLastUpdatedTimestamp
      ensures Ends(old(Snapshot()), Settle(i, timestamp), Snapshot(), error)
    {
      if i >= |positions| { return Some(UnknownPosition); }
      var update := ComputeModifyLiquidity(Snapshot(), positions[i], 0, timestamp);
      hide CalculateModifyLiquidity;
      if update.Err? { return Some(update.error); }
      UpdateRewards(update.value.rewardInfos, timestamp);
      UpdatePosition(i, positions[i].Update(update.value.positionUpdate));
      error := None;
    }

    method CollectFees(i: nat) returns (error: Option<ErrorCode>)
      requires Aligned(Snapshot())
      modifies this`positions, this`vaultA, this`vaultB
      ensures Ends(old(Snapshot()), TakeFees(i), Snapshot(), error)
    {
      if i >= |positions| { return Some(UnknownPosition); }
      var owedA, owedB := positions[i].feeOwedA, positions[i].feeOwedB;
      UpdatePosition(i, positions[i].(feeOwedA := 0, feeOwedB := 0));
      if owedA > vaultA || owedB > vaultB { return Some(InsufficientFunds); }
      vaultA := vaultA - owedA;
      vaultB := vaultB - owedB;
      error := None;
    }

    method CollectReward(i: nat, r: nat) returns (error: Option<ErrorCode>)
      requires Aligned(Snapshot())
      modifies this`positions, this`rewardVaults
      ensures Ends(old(Snapshot()), TakeReward(i, r), Snapshot(), error)
    {
      if i >= |positions| { return Some(UnknownPosition); }
      if r >= NUM_REWARDS { return Some(InvalidRewardIndex); }
      var p := positions[i];
      var (transfer, left) := CalculateCollectReward(p.rewardInfos[r].amountOwed, rewardVaults[r]);
      UpdatePosition(i, p.(rewardInfos := p.rewardInfos[r := p.rewardInfos[r].(amountOwed := left)]));
      rewardVaults := rewardVaults[r := rewardVaults[r] - transfer];
      error := None;
    }

    method SetRewardEmissions(r: nat, rate: u128, timestamp: u64) returns (error: Option<ErrorCode>)
      requires Aligned(Snapshot())
      modifies this`rewardInfos, this`rewardLastUpdatedTimestamp
      ensures Ends(old(Snapshot()), SetEmissions(r, rate, timestamp), Snapshot(), error)
    {
      if r >= NUM_REWARDS { return Some(InvalidRewardIndex); }
      var perDay := CheckedMulShiftRight(DAY_IN_SECONDS, rate, false);
      if perDay.Err? { return Some(perDay.error); }
      if rewardVaults[r] < perDay.value { return Some(RewardVaultAmountInsufficient); }
      var infos := ComputeRewardInfos(Snapshot(), timestamp);
      if infos.Err? { return Some(infos.error); }
      UpdateRewards(infos.value, timestamp);
      rewardInfos := rewardInfos[r := rewardInfos[r].(emissionsPerSecondX64 := rate)];
      error := None;
    }

    /** Books the swap and moves its tokens: the deposit first, then the payout if the vault has it. */
    method UpdateAndSwap(q: SwapRequest, c: SwapCursor, infos: RewardInfos, timestamp: u64)
      returns (error: Option<ErrorCode>)
      modifies this`rewardInfos, this`rewardLastUpdatedTimestamp, this`tickCurrentIndex, this`sqrtPrice,
               this`liquidity, this`ticks, this`feeGrowthGlobalA, this`feeGrowthGlobalB,
               this`protocolFeeOwedA, this`protocolFeeOwedB, this`vaultA, this`vaultB
      ensures var (a, b) := SwapAmounts(q, c);
              if (if q.aToB then b > old(vaultB) else a > old(vaultA)) then error == Some(InsufficientFunds)
              else error == None && Snapshot() == AtCursor(RewardsAt(old(Snapshot()), infos, timestamp), q, c)
    {
      CommitSwap(q, c, infos, timestamp);
      var (a, b) := SwapAmounts(q, c);
      if q.aToB {
        vaultA := vaultA + a;
        if b > vaultB { return Some(InsufficientFunds); }
        vaultB := vaultB - b;
      } else {
        vaultB := vaultB + b;
        if a > vaultA { return Some(InsufficientFunds); }
        vaultA := vaultA - a;
      }
      error := None;
    }

    method Swap(q: SwapRequest, otherThreshold: u64, timestamp: u64) returns (error: Option<ErrorCode>)
      requires Aligned(Snapshot())
      modifies this`rewardInfos, this`rewardLastUpdatedTimestamp, this`tickCurrentIndex, this`sqrtPrice,
               this`liquidity, this`ticks, this`feeGrowthGlobalA, this`feeGrowthGlobalB,
               this`protocolFeeOwedA, this`protocolFeeOwedB, this`vaultA, this`vaultB
      ensures Ends(old(Snapshot()), Trade(q, otherThreshold, timestamp), Snapshot(), error)
    {
      if !ArraysAligned(q.arrays, tickSpacing) { return Some(InvalidStartTick); }
      if Refusal(Snapshot(), q).Some? { return Some(Refusal(Snapshot(), q).value); }
      var infos := ComputeRewardInfos(Snapshot(), timestamp);
      if infos.Err? { return Some(infos.error); }
      var c := RunSwap(RewardsAt(Snapshot(), infos.value, timestamp), q);
      hide SwapManager.Swap, CursorOk, NextWhirlpoolRewardInfos, AtCursor;
      if c.Err? { return Some(c.error); }
      var (a, b) := SwapAmounts(q, c.value);
      var other := if q.aToB == q.isInput then b else a;
      if q.isInput && otherThreshold > other { return Some(AmountOutBelowMinimum); }
      if !q.isInput && otherThreshold < other { return Some(AmountInAboveMaximum); }
      error := UpdateAndSwap(q, c.value, infos.value, timestamp);
    }

    method CollectProtocolFees() returns (error: Option<ErrorCode>)
      requires Aligned(Snapshot())
      modifies this`vaultA, this`vaultB, this`protocolFeeOwedA, this`protocolFeeOwedB
      ensures Ends(old(Snapshot()), TakeProtocolFees, Snapshot(), error)
    {
      if protocolFeeOwedA > vaultA || protocolFeeOwedB > vaultB { return Some(InsufficientFunds); }
      vaultA, vaultB := vaultA - protocolFeeOwedA, vaultB - protocolFeeOwedB;
      protocolFeeOwedA, protocolFeeOwedB := 0, 0;
      error := None;
    }

    method InitializeReward(r: nat) returns (error: Option<ErrorCode>)
      requires Aligned(Snapshot())
      modifies this`rewardInfos
      ensures Ends(old(Snapshot()), StartReward(r), Snapshot(), error)
    {
      if r >= NUM_REWARDS { return Some(InvalidRewardIndex); }
      var lowest := 0;
      while lowest < NUM_REWARDS && rewardInfos[lowest].initialized
        invariant lowest <= NUM_REWARDS
        invariant forall j | 0 <= j < lowest :: rewardInfos[j].initialized
      {
        lowest := lowest + 1;
      }
      if lowest != r { return Some(InvalidRewardIndex); }
      rewardInfos := rewardInfos[r := rewardInfos[r].(initialized := true)];
      error := None;
    }

    method DepositReward(r: nat, amount: u64) returns (error: Option<ErrorCode>)
      requires Aligned(Snapshot())
      modifies this`rewardVaults
      ensures Ends(old(Snapshot()), Fund(r, amount), Snapshot(), error)
    {
      if r >= NUM_REWARDS { return Some(InvalidRewardIndex); }
      rewardVaults := rewardVaults[r := rewardVaults[r] + amount];
      error := None;
    }

    method UpdateFeeRate(rate: nat) returns (error: Option<ErrorCode>)
      requires Aligned(Snapshot())
      modifies this`feeRate
      ensures Ends(old(Snapshot()), SetFee(rate), Snapshot(), error)
    {
      if rate > MAX_FEE_RATE { return Some(FeeRateMaxExceeded); }
      feeRate := rate;
      error := None;
    }

    method UpdateProtocolFeeRate(rate: nat) returns (error: Option<ErrorCode>)
      requires Aligned(Snapshot())
      modifies this`protocolFeeRate
      ensures Ends(old(Snapshot()), SetProtocolFee(rate), Snapshot(), error)
    {
      if rate > MAX_PROTOCOL_FEE_RATE { return Some(ProtocolFeeRateMaxExceeded); }
      protocolFeeRate := rate;
      error := None;
    }

    // ---- the runtime ----

    /** Restores every account to `s`. */
    method Rollback(s: Pool)
      requires s.curve == curve && s.tickSpacing == tickSpacing
      modifies this
      ensures Snapshot() == s && books == old(books)
    {
      RestoreRates(s);
      RestorePrice(s);
      RestoreFees(s);
      UpdateRewardsAndLiquidity(s.rewardInfos, s.liquidity, s.rewardLastUpdatedTimestamp);
      ticks, positions := s.ticks, s.positions;
      vaultA, vaultB, rewardVaults := s.vaultA, s.vaultB, s.rewardVaults;
    }

    method RestoreRates(s: Pool)
      modifies this`feeRate, this`protocolFeeRate
      ensures Snapshot() == old(Snapshot()).(feeRate := s.feeRate, protocolFeeRate := s.protocolFeeRate)
    {
      feeRate, protocolFeeRate := s.feeRate, s.protocolFeeRate;
    }

    method RestorePrice(s: Pool)
      modifies this`sqrtPrice, this`tickCurrentIndex
      ensures Snapshot() == old(Snapshot()).(sqrtPrice := s.sqrtPrice, tickCurrentIndex := s.tickCurrentIndex)
    {
      sqrtPrice, tickCurrentIndex := s.sqrtPrice, s.tickCurrentIndex;
    }

    method RestoreFees(s: Pool)
      modifies this`protocolFeeOwedA, this`protocolFeeOwedB, this`feeGrowthGlobalA, this`feeGrowthGlobalB
      ensures Snapshot() == old(Snapshot()).(
        protocolFeeOwedA := s.protocolFeeOwedA, protocolFeeOwedB := s.protocolFeeOwedB,
        feeGrowthGlobalA := s.feeGrowthGlobalA, feeGrowthGlobalB := s.feeGrowthGlobalB)
    {
      protocolFeeOwedA, protocolFeeOwedB := s.protocolFeeOwedA, s.protocolFeeOwedB;
      feeGrowthGlobalA, feeGrowthGlobalB := s.feeGrowthGlobalA, s.feeGrowthGlobalB;
    }

    /** Runs the handler an instruction names. */
    method Dispatch(step: Step) returns (error: Option<ErrorCode>)
      requires Aligned(Snapshot())
      modifies this
      ensures Ends(old(Snapshot()), step, Snapshot(), error)
      ensures books == old(books)
    {
      hide Apply, Aligned;
      match step
      case Open(lower, upper) => error := OpenPosition(lower, upper);
      case Increase(i, l, a, b, t) => error := IncreaseLiquidity(i, l, a, b, t);
      case Decrease(i, l, a, b, t) => error := DecreaseLiquidity(i, l, a, b, t);
      case Settle(i, t) => error := UpdateFeesAndRewards(i, t);
      case TakeFees(i) => error := CollectFees(i);
      case TakeReward(i, r) => error := CollectReward(i, r);
      case SetEmissions(r, rate, t) => error := SetRewardEmissions(r, rate, t);
      case Trade(q, threshold, t) => error := Swap(q, threshold, t);
      case TakeProtocolFees => error := CollectProtocolFees();
      case StartReward(r) => error := InitializeReward(r);
      case Fund(r, amount) => error := DepositReward(r, amount);
      case SetFee(rate) => error := UpdateFeeRate(rate);
      case SetProtocolFee(rate) => error := UpdateProtocolFeeRate(rate);
    }

    /**
     * One transaction: dispatch, and on an error discard every write. It is exactly one
     * step of a run, so the invariant holds after any number of them.
     */
    method Execute(step: Step) returns (error: Option<ErrorCode>)
      requires Valid()
      modifies this
      ensures Valid()
      ensures Here() == Next(old(Here()), step)
      ensures error == match Apply(old(Snapshot()), step) { case Ok(_) => None case Err(e) => Some(e) }
    {
      ghost var before := Here();
      var saved := Snapshot();
      StepKeeps(before, step);
      error := Dispatch(step);
      hide Apply, BooksAfter, L.Valid;
      if error.Some? {
        Rollback(saved);
      } else {
        books := BooksAfter(before, step);
      }
    }
  }
}
