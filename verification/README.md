# Verification of the Whirlpool concentrated-liquidity program

This project models the Whirlpool on-chain program and the client library's price formulas in Dafny, and proves
what a liquidity provider, a trader and the pool itself may rely on.

A pool keeps only aggregate numbers: one active liquidity, global growth counters that wrap modulo 2^128, and per tick
a net and gross liquidity and the growth "outside" it. The simple view a user has in mind is per position: sum the
liquidity that is in range, and sum the growth that happened while a position was in range. The central result is that
the two views agree in every state any run of instructions can reach, through wraparound, lazily initialized ticks,
crossings and rounding, that tokens A and B are conserved over any run, and that the vaults of tokens A and B can
honour every claim at once. So whatever a position holds can be withdrawn, unless that takes a tick's net liquidity
out of its signed range. With vaults of 64 bits and ticks at least one part in a million apart this never happens, and
every withdrawal succeeds.

A reward vault may hold less than is owed, which is why rewards are paid in part. What holds for rewards: nothing
beyond rate times time is ever distributed, every token sent in is in the vault or paid out, and a vault whose funding
covers what was earned can honour every claim at once. For a day after a rate passes the one-day check, less than the
checked amount plus one token is newly distributed; if the vault then also covers every claim already there plus a day
of the rate, it covers all claims throughout that day.

## How it is built

- `Arithmetic`, `Outcome`: widths, wrapping, rounding division, finite sums; error codes.
- `SdkMath`: the client formulas over unbounded integers. `TokenMath`: the on-chain versions with their limits.
  `CurveAmounts`: exact amounts over the reals.
- `SwapMath`: one swap step. `TickSearch`: searching tick arrays. `SwapManager`: the swap loop. `SwapErrors`: how a
  swap can fail. `ArrayCoverage`: which tick arrays it needs. `TradeTerms`: what it charges and pays.
- `State`, `TickManager`, `PositionManager`, `WhirlpoolManager`, `LiquidityManager`: the account values and managers.
- `Instructions`: every instruction as a function from accounts to accounts, failing with the program's errors.
- `Ledger`: books kept beside the pool for specifications only (which growth happened at which tick, what each
  channel earned, credited and paid) and the invariant `Valid`.
- `GrowthProofs`, `PrincipalProofs`, `ModifyProofs`, `SwapProofs`, `StepProofs`: each instruction keeps `Valid`.
- `Runs`, `Theorems`, `Withdrawals`, `LiquidityBounds`, `Rounding`, `TokenFlows`: statements over whole runs.
  `RewardRuns`: concrete runs on which rewards are lost or unfunded.
- `Changes`, `Collections`: exactly when each instruction succeeds, what it moves and what it leaves alone. `Quotes`:
  the client's quotes for deposits and withdrawals, and that the program accepts them.
- `WhirlpoolAccount`: the pool as a mutable class with the handlers that change it in place. Its `Execute` is one
  transaction, proved to be exactly one step of a run, with the writes of a failing handler rolled back.

Growth is tracked in five channels: fees in token A, fees in token B, and three rewards. The price curve is a
parameter, `Curve`, of which only the order of prices and the floor property of its inverse are used. The theorems of
`LiquidityBounds` also require `Curve.Spaced`: consecutive prices at least one part in a million apart, as the square
roots of powers of 1.0001 are (50 parts). `State.CurveExists` gives a curve that meets both.

## Where code and comments differ

- The comment on `collect_reward` promises `RewardNotInitialized` and `InvalidRewardIndex`. The handler raises
  neither; the model pays nothing for a reward that was never initialized and reports an index past the last reward.
- The comments on settlement say an overflowing delta is lost. For fees this cannot happen: with vaults that hold
  64-bit amounts the product always fits (`Withdrawals.FeesNeverOverflow`), and settling once is always at least as good
  as settling often (`Withdrawals.FeesSettleBestOnce`).
- For rewards two limits can be met: the 128-bit product, and the 64-bit debt, which wraps.
  `Rounding.OneSettlementIsBest` gives the exact condition under which one settlement leaves at least the debt that
  several do. `Rounding.OneSettlementCanWrap` and the run of `RewardRuns.SettlingOnceForfeits` fail it.
- The same holds of rewards over time: `Rounding.OneAccrualIsBest` gives the exact condition,
  `Rounding.OneAccrualCanForfeit` and the run of `RewardRuns.NeglectForfeits` fail it.
- The one-day check of `set_reward_emissions` compares the rate with the vault alone and ignores what the vault already
  owes: `RewardRuns.OneDayCheckIgnoresDebts` ends with an empty vault, a debt and the new rate running.

## Model

| member | source | states |
|---|---|---|
| SdkMath.LiquidityFromTokenAIsOptimal | sdk/src/utils/position-util.ts:69-84 | the rounded-down quote is the greatest liquidity whose rounded-up deposit of A fits the budget, despite two nested floors |
| SdkMath.LiquidityFromTokenBIsOptimal | sdk/src/utils/position-util.ts:86-99 | the same for B |
| SdkMath.LiquidityToCoverTokenAIsNear | sdk/src/utils/position-util.ts:69-84 | the rounded-up quote for A, a ceiling of a floor, is the least liquidity whose rounded-down worth covers the amount or one short of it, and when it is which |
| SdkMath.LiquidityToCoverTokenBIsLeast | sdk/src/utils/position-util.ts:86-99 | the rounded-up quote for B is the least liquidity whose rounded-down worth covers the amount |
| SdkMath.NextPriceIsOptimal | sdk/src/utils/swap-utils.ts:4-28 | all four next prices: furthest price whose charge fits an exact input, nearest whose release covers an exact output, as an if-and-only-if over every price on the way |
| SdkMath.NextPriceIsExact | sdk/src/utils/swap-utils.ts:4-28 | the rounded amount at the next price is the requested one exactly if the remainder left by rounding the price is worth less than a token |
| SdkMath.FineGuards | sdk/src/utils/swap-utils.ts:4-28 | guards that ensure such a remainder: liquidity of at most 2^64 for token B, an inequality between price, liquidity and amount for token A |
| SdkMath.NextPriceMovesOn | sdk/src/utils/swap-utils.ts:4-28 | the next price never lies behind the current one |
| SdkMath.NextPriceStaysBeforeTarget | sdk/src/utils/position-util.ts:101-165 | an amount short of the whole distance gives a defined price between current price and target, strictly before it for exact input |
| TokenMath.AmountDeltaBAgrees | programs/whirlpool/src/math/token_math.rs:81-92 | the on-chain B amount is defined exactly if the rounded value fits 64 bits, and is then that value: the 128-bit limit is implied |
| TokenMath.AmountDeltaAAgrees | programs/whirlpool/src/math/token_math.rs:41-75 | the same for A at supported prices, where the 256-bit limit is implied |
| TokenMath.NextPriceAgrees | programs/whirlpool/src/math/token_math.rs:119-240 | every successful next price, also the early return for a zero amount, is the value of the formula whose optimality is proved, and that formula is defined |
| Quotes.IncreaseQuoteIsPriced | sdk/src/quotes/public/increase-liquidity-quote.ts:94-260 | where the position takes the given token, a deposit quote is the greatest liquidity the amount pays for, its estimates are the program's prices, and its limits are at least those; elsewhere it is nothing |
| Quotes.QuotedDepositIsAccepted | sdk/src/quotes/public/increase-liquidity-quote.ts:94-260 | on the pool it was made for the program accepts a quote it can express and compute, charges exactly the estimates, and stays within the amount |
| Quotes.QuotedWithdrawalIsAccepted | sdk/src/quotes/public/decrease-liquidity-quote.ts:80-163 | the same for withdrawal quotes |
| Quotes.SlippageLoosens | sdk/src/utils/position-util.ts:44-54 | the tolerance only loosens a limit, and none leaves it exact |
| Quotes.SlippageScales | sdk/src/utils/position-util.ts:44-54 | a limit is the estimate scaled by the tolerance, rounded down |
| CurveAmounts.RoundedA | programs/whirlpool/src/math/token_math.rs:41-75 | rounded-up A covers the exact curve amount, rounded-down A stays within it, in either price order |
| CurveAmounts.RoundedB | programs/whirlpool/src/math/token_math.rs:81-92 | the same for B |
| CurveAmounts.RoundedATightly | programs/whirlpool/src/math/token_math.rs:41-75 | rounding moves the exact A amount by less than one token |
| CurveAmounts.RoundedBTightly | programs/whirlpool/src/math/token_math.rs:81-92 | the same for B |
| SwapMath.NextPriceInside | programs/whirlpool/src/math/swap_math.rs:41-52 | a step that stops short stays inside its interval and charges at most, or releases at least, the amount |
| SwapMath.FeeIsLeast | programs/whirlpool/src/math/swap_math.rs:86-96 | the fee is the least amount that is the fee rate's share of the gross input |
| SwapMath.FeeFits | programs/whirlpool/src/math/swap_math.rs:32-39 | an input fits what is left after setting the fee aside exactly if it fits together with its own least fee |
| SwapMath.ComputeSwapIsFair | programs/whirlpool/src/math/swap_math.rs:14-104 | a step never overshoots, never undercharges or overpays the exact curve, never exceeds the amount left, and exhausts it unless the target is reached |
| SwapMath.ComputeSwapIsTight | programs/whirlpool/src/math/swap_math.rs:14-104 | charge and payment are the exact amounts to less than one token; a step that covers the way to its target ends there; it and every exact-output step take the least fee |
| SwapMath.ShortInputIsNearest | programs/whirlpool/src/math/swap_math.rs:32-85 | an exact-input step that stops short spends everything; what fits with its own fee reaches the price found but not one unit of price further, and less than one token stays behind exactly if the price grid is fine there |
| SwapMath.ShortOutputIsNearest | programs/whirlpool/src/math/swap_math.rs:41-80 | the mirror for exact output: the curve to the price found covers the requested amount, one unit of price nearer would not, and the surplus is below one token under the same condition |
| SwapMath.InputStepGoesFurthest | programs/whirlpool/src/math/swap_math.rs:32-52 | an exact-input step ends at the furthest price on the way whose charge and the least fee on it together fit the amount, over every price on the way |
| SwapMath.OutputStepGoesNearest | programs/whirlpool/src/math/swap_math.rs:41-80 | an exact-output step ends at its target if the way there releases no more than the amount, else at the nearest price whose release covers it, and pays accordingly |
| SwapMath.FeeIsDue | programs/whirlpool/src/math/swap_math.rs:82-96 | the fee of any step is at least the fee rate of all it charges, and within one token of that unless an exact input stopped short |
| SwapMath.DustCanBeEverything | programs/whirlpool/src/math/swap_math.rs:82-85 | an input, without a fee, of which everything stays behind |
| TickManager.ComputeRewardGrowthsInside | programs/whirlpool/src/manager/tick_manager.rs:145-189 | the loop over rewards computes each reward's inside growth, zero for idle rewards |
| TickManager.ComputeTickCrossUpdate | programs/whirlpool/src/manager/tick_manager.rs:7-28 | the loop flips outside growth of fees and initialized rewards and changes nothing else |
| PositionManager.ComputePositionUpdate | programs/whirlpool/src/manager/position_manager.rs:7-54 | the imperative settlement computes the specified update, errors included |
| WhirlpoolManager.ComputeRewardInfos | programs/whirlpool/src/manager/whirlpool_manager.rs:7-46 | the in-place loop accrues exactly the initialized rewards |
| LiquidityManager.ComputeModifyLiquidity | programs/whirlpool/src/manager/liquidity_manager.rs:86-166 | the calculation with its loops equals the specification, error order included |
| TickSearch.SearchArray | programs/whirlpool/src/state/tick.rs:176-213 | the scan loop over one array equals its recursive specification |
| TickSearch.SearchSequence | programs/whirlpool/src/util/swap_tick_sequence.rs:105-160 | the loop over arrays equals its recursive specification, which the next three rows determine |
| TickSearch.SearchFindsNextStop | programs/whirlpool/src/util/swap_tick_sequence.rs:105-160 | a successful search skips no initialized tick, finds a stop the crossing code can see, and otherwise stops only at an end of the range or of the arrays |
| TickSearch.SearchSucceeds | programs/whirlpool/src/util/swap_tick_sequence.rs:105-160 | over arrays in sequence, the one searched first covering the tick, the search succeeds and names the array that holds the stop |
| TickSearch.StopIsDetermined | programs/whirlpool/src/util/swap_tick_sequence.rs:105-160 | there is only one such stop and array, so the two lemmas above leave the search no other answer |
| SwapManager.IterateKeepsCursor | programs/whirlpool/src/manager/swap_manager.rs:65-178 | each turn keeps price and tick consistent, respects the limit, and passes a tick or finishes, so the loop terminates |
| SwapManager.ShortStepFinishes | programs/whirlpool/src/manager/swap_manager.rs:171-177 | a turn that does not reach its tick has met the limit or spent the amount |
| SwapManager.Swap | programs/whirlpool/src/manager/swap_manager.rs:24-198 | a successful swap ends with the amount spent or the price at its limit, price and tick consistent |
| SwapManager.TakeStep | programs/whirlpool/src/manager/swap_manager.rs:85-116 | amounts, protocol share and fee growth booked step by step equal the specification that the next two rows characterize |
| TradeTerms.FeeIsDivided | programs/whirlpool/src/manager/swap_manager.rs:200-227 | of each fee the protocol gets its rate in ten-thousandths, rounded down once, and the liquidity providers all the rest, as growth of the active liquidity to less than one unit |
| TradeTerms.StepIsBooked | programs/whirlpool/src/manager/swap_manager.rs:85-103 | a step within the amount left is booked in full exactly if the other amount fits 64 bits |
| SwapManager.PassStop | programs/whirlpool/src/manager/swap_manager.rs:118-170 | passing or crossing a stop equals the specification |
| SwapManager.RunSwap | programs/whirlpool/src/manager/swap_manager.rs:24-198 | the while loop computes the specified swap, errors included |
| SwapErrors.ComputeSwapErrors | programs/whirlpool/src/math/swap_math.rs:14-104 | a step between supported prices fails only with an error of a width it multiplies or converts to: it never divides by zero or runs short of the amount |
| SwapErrors.ComputeSwapSucceeds | programs/whirlpool/src/math/swap_math.rs:14-104 | a step between supported prices succeeds exactly if the amount to the target, the product of a price of A and the other amount fit their widths |
| SwapErrors.CrossingFits | programs/whirlpool/src/manager/swap_manager.rs:229-252 | a crossing never takes out more liquidity than there is, in either direction, and fails only if all positions together hold 2^127 or more |
| ArrayCoverage.SwapKeepsTrack | programs/whirlpool/src/manager/swap_manager.rs:65-178 | arrays in sequence, the first covering the current tick, never fail a swap as out of sequence, and if the last reaches the price limit they never run out |
| Instructions.CalculateCollectReward | programs/whirlpool/src/instructions/collect_reward.rs:74-83 | payment and remainder add up to the debt; a remainder is left only when the vault is emptied |
| GrowthProofs.InsideGrows | programs/whirlpool/src/manager/tick_manager.rs:94-141 | for every range, initialized or not: growth enters inside growth through an initialized lower end at or below the current tick and leaves through an initialized upper end there, through wraparound |
| GrowthProofs.InsideAcrossTick | programs/whirlpool/src/manager/tick_manager.rs:7-28 | crossing a tick leaves inside growth of every range unchanged, initialized or not |
| GrowthProofs.EarnedAtMostPending | programs/whirlpool/src/manager/position_manager.rs:16-30 | a settlement never credits more than liquidity times pending growth |
| GrowthProofs.AccrualKeeps | programs/whirlpool/src/manager/whirlpool_manager.rs:21-45 | adding growth keeps the per-position agreement and solvency of every channel |
| ModifyProofs.TickUpdateModifies | programs/whirlpool/src/manager/tick_manager.rs:30-90 | a tick is cleared when empty, starts by convention when new, and otherwise keeps its growth |
| ModifyProofs.CalculateModifies | programs/whirlpool/src/manager/liquidity_manager.rs:86-166 | calculate and commit change exactly one position, its two ticks and the active liquidity |
| ModifyProofs.ModifyKeepsInside | programs/whirlpool/src/manager/liquidity_manager.rs:110-149 | inside growth of every position with liquidity is the same before and after, also for newly initialized and shared ticks |
| ModifyProofs.ModifiedSums | programs/whirlpool/src/manager/liquidity_manager.rs:103-130 | tick gross and net and active liquidity stay the sums over positions |
| PrincipalProofs.TokenDeltasClamp | programs/whirlpool/src/manager/liquidity_manager.rs:168-200 | the three-way branch is one formula at the price clamped to the position's range, errors included |
| PrincipalProofs.TokenDeltasAreClamped | programs/whirlpool/src/manager/liquidity_manager.rs:168-200 | a change is priced exactly if it is not zero and both rounded amounts fit 64 bits, and is then worth those amounts |
| PrincipalProofs.TokenDeltasCoverPrincipal | programs/whirlpool/src/manager/liquidity_manager.rs:178-199 | deposits cover and withdrawals stay within the exact change of principal |
| PrincipalProofs.TotalPrincipalMovesA | programs/whirlpool/src/math/token_math.rs:41-75 | inside an interval all positions' A together moves as the active liquidity's curve |
| PrincipalProofs.TotalPrincipalMovesB | programs/whirlpool/src/math/token_math.rs:81-92 | the same for B |
| SwapProofs.FinishMoves | programs/whirlpool/src/manager/swap_manager.rs:118-177 | moving price and tick crosses the stop exactly if it is initialized and changes the side of no other initialized tick |
| SwapProofs.MoveKeeps | programs/whirlpool/src/manager/swap_manager.rs:229-252 | a tick move, with or without crossing, keeps index, telescoping and solvency |
| SwapProofs.TurnKeepsVaults | programs/whirlpool/src/manager/swap_manager.rs:72-116 | each turn leaves both vaults covering principal, fees and protocol share |
| SwapProofs.SwapKeepsValid | programs/whirlpool/src/manager/swap_manager.rs:24-198 | a whole swap keeps the invariant and distributes within what it earned |
| StepProofs.AccrueKeepsValid | programs/whirlpool/src/manager/whirlpool_manager.rs:7-46 | bringing rewards up to date keeps the invariant |
| Collections.AccrualFollowsClock | programs/whirlpool/src/manager/whirlpool_manager.rs:7-46 | rewards are brought up to date exactly if the clock does not run backwards, each by rate times the time passed per unit of liquidity, to less than one unit |
| StepProofs.IncreaseKeepsValid | programs/whirlpool/src/instructions/increase_liquidity.rs:46-115 | a deposit keeps the invariant |
| Changes.DepositDecides | programs/whirlpool/src/instructions/increase_liquidity.rs:46-115 | a deposit succeeds exactly if its amount can be expressed, the clock does not run backwards, every width is kept and the rounded-up price of each token is within its limit; it then charges exactly that |
| StepProofs.DecreaseKeepsValid | programs/whirlpool/src/instructions/decrease_liquidity.rs:15-83 | a withdrawal keeps the invariant |
| Changes.WithdrawalDecides | programs/whirlpool/src/instructions/decrease_liquidity.rs:15-83 | a withdrawal succeeds exactly if the position has the liquidity, the nets fit and the rounded-down price of each token is at least its minimum; it then pays exactly that |
| StepProofs.SettleKeepsValid | programs/whirlpool/src/instructions/update_fees_and_rewards.rs:23-41 | a settlement, committing only position and rewards, keeps the invariant |
| Collections.SettlementDecides | programs/whirlpool/src/instructions/update_fees_and_rewards.rs:23-41 | a position is settled exactly if it has liquidity and the clock does not run backwards; every channel is then credited with its in-range growth and only the position changes |
| StepProofs.CollectFeesKeepsValid | programs/whirlpool/src/instructions/collect_fees.rs:37-68 | collecting fees keeps the invariant (what it pays is stated by the next row) |
| Collections.FeesArePaidInFull | programs/whirlpool/src/instructions/collect_fees.rs:37-68 | collecting fees always succeeds: each vault falls by exactly the debt in its token, both debts are then zero, and nothing else changes |
| Collections.ProtocolIsPaidInFull | programs/whirlpool/src/instructions/collect_protocol_fees.rs:31-51 | the same for the protocol's share |
| StepProofs.CollectRewardKeepsValid | programs/whirlpool/src/instructions/collect_reward.rs:49-72 | a full or partial reward payment keeps the invariant |
| Collections.RewardIsPaid | programs/whirlpool/src/instructions/collect_reward.rs:49-83 | what leaves the reward vault and what stays owed add up to the debt, something stays owed only if the vault is then empty, and nothing else changes |
| StepProofs.SetEmissionsKeepsValid | programs/whirlpool/src/instructions/set_reward_emissions.rs:25-48 | settling rewards before changing the rate keeps the invariant |
| Collections.EmissionsDecide | programs/whirlpool/src/instructions/set_reward_emissions.rs:25-48 | a rate is set exactly if a day of it can be computed and is at most what the vault holds, rounded down, and the clock does not run backwards; rewards are first brought up to date at the old rate |
| StepProofs.TradeKeepsValid | programs/whirlpool/src/instructions/swap.rs:49-104 | the swap instruction keeps the invariant |
| TradeTerms.TradeKeepsLimits | programs/whirlpool/src/instructions/swap.rs:49-104 | a trade moves at most the amount specified, less only at its price limit; an exact input is paid at least the threshold, an exact output charged at most |
| TradeTerms.TradeKeepsTerms | programs/whirlpool/src/manager/swap_manager.rs:24-198 | over a whole trade the fees are at least the fee rate of all it charges, the protocol's part is its rate of the fees, and beside fees the trader pays and takes what the positions' principal moves, each rounding less than one token a turn against the trader |
| Withdrawals.TradeDecides | programs/whirlpool/src/instructions/swap.rs:49-104 | an admissible request fails where its loop does, and otherwise exactly if the threshold is missed |
| Collections.OpeningDecides | programs/whirlpool/src/state/position.rs:58-78 | a position is opened exactly if its ticks are usable and in order, and is then empty |
| Collections.SettingsDecide | programs/whirlpool/src/state/whirlpool.rs:193-262 | rates are set exactly up to their maxima, and a reward is begun exactly if it is the first not begun |
| Runs.InitialValid | programs/whirlpool/src/state/whirlpool.rs:76-126 | a fresh pool satisfies the invariant |
| Runs.StepKeeps | programs/whirlpool/src/manager/liquidity_manager.rs:86-231 | every instruction, successful or not, keeps the invariant |
| Runs.RunKeeps | programs/whirlpool/src/manager/liquidity_manager.rs:86-231 | every reachable state satisfies the invariant, and no run distributes more than it earned |
| Runs.RunEarnsByRate | programs/whirlpool/src/manager/whirlpool_manager.rs:21-45 | over any run without a rate change a reward earns at most rate times elapsed time |
| Runs.RunConservesReward | programs/whirlpool/src/instructions/collect_reward.rs:49-83 | over any run, reward tokens in the vault and paid out are those it started with and those sent in |
| TokenFlows.RunConservesTokens | programs/whirlpool/src/instructions/collect_fees.rs:37-68 | over any run, tokens A and B in the vaults and paid out as fees are those at the start and those that deposits, withdrawals, trades and the protocol's collections moved, at the formulas' prices |
| Theorems.LiquidityIndexAgrees | programs/whirlpool/src/manager/whirlpool_manager.rs:50-63 | active liquidity = sum over in-range positions = sum of tick nets up to the current tick; all nets sum to zero |
| Theorems.GrowthInsideTelescopes | programs/whirlpool/src/manager/position_manager.rs:16-26 | inside growth minus checkpoint is, modulo 2^128, the growth that happened while the position was in range |
| Theorems.ChannelIsSolvent | programs/whirlpool/src/manager/position_manager.rs:32-49 | everything paid, owed and still creditable over all positions fits in rate times elapsed time, or in the fees of a fee channel |
| Theorems.ModifyDisturbsNobody | programs/whirlpool/src/manager/liquidity_manager.rs:110-157 | a liquidity change leaves others' unsettled growth alone and its own position at zero |
| Theorems.SettlementCreditsGrowth | programs/whirlpool/src/manager/position_manager.rs:7-54 | a settlement credits liquidity times in-range growth, rounded down once, exactly if that product fits 128 bits |
| Theorems.FeeGrowthIsTight | programs/whirlpool/src/manager/swap_manager.rs:200-221 | a fee reaches the active liquidity up to less than one unit of growth |
| Theorems.RewardGrowthIsTight | programs/whirlpool/src/manager/whirlpool_manager.rs:33-42 | so does time's emission, and an overflowing product accrues nothing |
| Theorems.OneDayOfRewardsIsBounded | programs/whirlpool/src/instructions/set_reward_emissions.rs:33-47 | for a day after the vault check, whatever else happens, the reward distributes less than the checked amount plus one token |
| Theorems.OneDayStaysCovered | programs/whirlpool/src/instructions/set_reward_emissions.rs:33-47 | if the vault covers all debts and unsettled growth plus a day of the new rate, it covers every claim throughout that day, whatever else happens |
| Theorems.PokeIsNeutral | programs/whirlpool/src/instructions/update_fees_and_rewards.rs:23-41 | settling first never changes what a liquidity change at the same time does, result and errors alike |
| Theorems.CrossingKeepsTokens | programs/whirlpool/src/manager/liquidity_manager.rs:184-197 | on either side of a tick at its own price a change is priced the same, errors included |
| Withdrawals.VaultsCoverAllClaims | programs/whirlpool/src/manager/liquidity_manager.rs:168-200 | each vault holds all principal, all fees owed, all fees unsettled and the protocol's share at once |
| Withdrawals.FeesNeverOverflow | programs/whirlpool/src/manager/position_manager.rs:16-30 | with a 64-bit vault, the product a fee settlement multiplies fits 128 bits together with what is already owed |
| Withdrawals.FeesAreCreditedExactly | programs/whirlpool/src/manager/position_manager.rs:16-30 | so each fee is credited exactly and its 64-bit debt never wraps |
| Withdrawals.FeesSettleBestOnce | programs/whirlpool/src/manager/position_manager.rs:16-30 | however the fees due to a position are split over settlements, settling once leaves at least as much, and less than one token more per further settlement |
| Withdrawals.ProtocolFeesNeverWrap | programs/whirlpool/src/state/whirlpool.rs:218-243 | with 64-bit vaults the protocol is owed exactly what it was plus the shares of every turn of the swap |
| Withdrawals.PayoutsNeverFail | programs/whirlpool/src/instructions/decrease_liquidity.rs:64-80 | no payout of tokens A or B finds a vault short, in any reachable state |
| Withdrawals.FundedRewardsCoverClaims | programs/whirlpool/src/instructions/collect_reward.rs:49-83 | a reward vault whose funding covers what was earned holds everything owed and still creditable at once |
| Withdrawals.CoveredDebtsArePaid | programs/whirlpool/src/instructions/collect_reward.rs:49-83 | a vault that covers all claims on it pays any position's debt in full |
| Withdrawals.WithdrawalNeverUnderflows | programs/whirlpool/src/manager/liquidity_manager.rs:103-157 | removing at most a position's own liquidity fails exactly if the clock runs backwards or a tick's net would leave its signed range |
| Withdrawals.WithdrawalSucceeds | programs/whirlpool/src/instructions/decrease_liquidity.rs:15-83 | such a withdrawal is also priced and paid: the whole instruction succeeds exactly if the nets fit |
| Withdrawals.OverdrawAlwaysFails | programs/whirlpool/src/manager/position_manager.rs:51-51 | removing more always fails |
| Withdrawals.RoundTripsNeverProfit | programs/whirlpool/src/manager/liquidity_manager.rs:178-199 | at one price, any series of deposits and withdrawals has paid at least the exact amount for what remains |
| Withdrawals.DepositRunsNeverProfit | programs/whirlpool/src/instructions/decrease_liquidity.rs:15-83 | over any run of deposits to and withdrawals from one position, what the vaults gain covers the exact worth of what the position gains; ending where it began has taken nothing out |
| LiquidityBounds.LiquidityStaysSmall | programs/whirlpool/src/manager/liquidity_manager.rs:103-130 | on a spaced curve with 64-bit vaults all positions together hold less than 2^127 of liquidity, as their principal has to fit the vaults |
| LiquidityBounds.EveryWithdrawalSucceeds | programs/whirlpool/src/instructions/decrease_liquidity.rs:15-83 | so every reachable position can withdraw any part of its liquidity at any time, and the instruction succeeds |
| LiquidityBounds.SwapFailures | programs/whirlpool/src/manager/swap_manager.rs:24-198 | the errors a swap on a reachable pool can return: those of a rejected request, and of widths and tick arrays; never a liquidity underflow, an amount overdrawn, a division by zero or a vault running short, no liquidity overflow under the same bounds, and no array error for arrays in sequence that reach the limit |
| Rounding.NoRoundingProfit | programs/whirlpool/src/math/swap_math.rs:14-104 | any path of steps at constant liquidity, in any mix of directions and modes, is charged the exact curve amounts before any fee; a round trip gains neither token |
| Rounding.SplittingAtoBNeverHelps | sdk/src/utils/swap-utils.ts:4-10 | selling A in two orders yields at most what one order yields |
| Rounding.SplittingBtoANeverHelps | sdk/src/utils/swap-utils.ts:25-28 | selling B in two orders yields at most what one order yields |
| Rounding.SettlingOftenLosesLittle | programs/whirlpool/src/manager/position_manager.rs:16-49 | while the product fits 128 bits, n settlements credit at most what one would and at most n - 1 tokens less; both are added to the 64-bit debt, wrapping |
| Rounding.OneSettlementIsBest | programs/whirlpool/src/manager/position_manager.rs:16-49 | for growth of less than 2^128 in all: settling once leaves at least the debt that settling each time does, exactly if debt and product fit together, or settling each time wraps the debt too, or the product overflows and the 64-bit credits add up to nothing |
| Rounding.OneSettlementOfASoundDebt | programs/whirlpool/src/manager/position_manager.rs:16-49 | if settling each time does not wrap, settling once is at least as good exactly if debt and product fit, or the product overflows and no single growth earns a token |
| Rounding.SafeSettlement | programs/whirlpool/src/manager/position_manager.rs:16-49 | if debt and product fit, no debt wraps, settling once credits the whole share and settling often loses at most n - 1 tokens |
| Rounding.OneSettlementCanWrap | programs/whirlpool/src/manager/position_manager.rs:16-49 | an input on which one settlement wraps the debt to nothing and two do not |
| Rounding.AccruingOftenLosesLittle | programs/whirlpool/src/manager/whirlpool_manager.rs:33-42 | n accruals grow at most what one would and lose at most n - 1 units, without overflow |
| Rounding.OneAccrualIsBest | programs/whirlpool/src/manager/whirlpool_manager.rs:33-42 | accruing once is at least as good exactly if rate times total time fits 128 bits, or each interval by itself accrues nothing |
| Rounding.OneAccrualCanForfeit | programs/whirlpool/src/manager/whirlpool_manager.rs:33-42 | a rate and two intervals for which accruing twice yields growth of 2^127 and accruing once none |
| RewardRuns.SettlingOnceForfeits | programs/whirlpool/src/manager/position_manager.rs:16-49 | two runs from a fresh pool to the same time and growth: with a settlement in between the position is paid and owed 2^64 tokens, with one at the end nothing |
| RewardRuns.NeglectForfeits | programs/whirlpool/src/manager/whirlpool_manager.rs:33-42 | a run in which nobody touches the pool for 2^17 seconds, and the rewards of all that time are lost |
| RewardRuns.OneDayCheckIgnoresDebts | programs/whirlpool/src/instructions/set_reward_emissions.rs:33-47 | a run in which a rate passes the check, the vault is then emptied by an older debt, part of which stays owed, and the rate keeps running |
| WhirlpoolAccount.Whirlpool.Initialize | programs/whirlpool/src/state/whirlpool.rs:76-126 | a new pool is valid and empty |
| WhirlpoolAccount.Whirlpool.CommitModifyLiquidity | programs/whirlpool/src/manager/liquidity_manager.rs:202-231 | position, lower tick, upper tick and pool are written in place as specified |
| WhirlpoolAccount.Whirlpool.CommitSwap | programs/whirlpool/src/state/whirlpool.rs:218-243 | the swap's result is written to tick, price, liquidity, rewards and their time, ticks, and the input token's growth and protocol fee |
| WhirlpoolAccount.Whirlpool.OpenPosition | programs/whirlpool/src/state/position.rs:58-78 | opens an empty position on usable ticks in order, or fails |
| WhirlpoolAccount.Whirlpool.IncreaseLiquidity | programs/whirlpool/src/instructions/increase_liquidity.rs:46-115 | the handler computes, commits, prices, checks limits and charges in place, and ends as the instruction that `Changes.DepositDecides` characterizes |
| WhirlpoolAccount.Whirlpool.DecreaseLiquidity | programs/whirlpool/src/instructions/decrease_liquidity.rs:15-83 | the handler computes, commits, prices, checks limits and pays in place, and ends as the instruction that `Changes.WithdrawalDecides` characterizes |
| WhirlpoolAccount.Whirlpool.UpdateFeesAndRewards | programs/whirlpool/src/instructions/update_fees_and_rewards.rs:23-41 | writes rewards and position only |
| WhirlpoolAccount.Whirlpool.CollectFees | programs/whirlpool/src/instructions/collect_fees.rs:37-68 | the handler clears the debts, then pays, and ends as the instruction that `Collections.FeesArePaidInFull` characterizes |
| WhirlpoolAccount.Whirlpool.CollectReward | programs/whirlpool/src/instructions/collect_reward.rs:49-72 | records the remainder and pays the rest |
| WhirlpoolAccount.Whirlpool.CollectProtocolFees | programs/whirlpool/src/instructions/collect_protocol_fees.rs:31-51 | pays the protocol's share and resets it |
| WhirlpoolAccount.Whirlpool.SetRewardEmissions | programs/whirlpool/src/instructions/set_reward_emissions.rs:25-48 | one-day vault check, accrual, then the new rate |
| WhirlpoolAccount.Whirlpool.InitializeReward | programs/whirlpool/src/state/whirlpool.rs:193-216 | only the lowest free reward index can be initialized |
| WhirlpoolAccount.Whirlpool.UpdateAndSwap | programs/whirlpool/src/util/swap_utils.rs:10-104 | books the swap, takes the deposit, then pays out |
| WhirlpoolAccount.Whirlpool.Swap | programs/whirlpool/src/instructions/swap.rs:49-104 | checks, reward accrual, loop, threshold check, update, transfers, failing in that order |
| WhirlpoolAccount.Whirlpool.Execute | programs/whirlpool/src/lib.rs:215-332 | one instruction is dispatched to its handler; with the writes of a failing one discarded, it is exactly one step of a run and keeps the invariant |

## Left out

- The bit-level computation of square-root prices and of the tick of a price, and 256-bit word arithmetic; the curve is
  a parameter whose prices increase with the tick and whose inverse is the floor, and 256-bit products are integers.
- The oracle account, two-hop swaps, and the enable flag: wrappers and one-line checks around what is modelled.
- Account constraints, signers, mints, metadata, and closing an empty position: plumbing that moves no tokens.
- The owner's token balance: a charge is always affordable, because a failing transfer changes nothing.
- The runtime itself: that a failing transaction leaves no trace is its rule, modelled by restoring every account.
- The 64-bit limit of a vault as a check of its own: vault amounts are integers, and a theorem that needs them to
  fit 64 bits says so (`Withdrawals.VaultsFit`).
- Tick-array ownership by position instructions: ticks live in one map; a swap still searches arrays by start index,
  any number of them.
- Updating each position and tick array as a separate object: they are values in fields of the pool class, so
  aliasing of accounts is not captured beyond the order of writes.
- SwapManager.PassStop: crossing left over a net liquidity of exactly -2^127 fails here, where the compiled code would
  wrap. With 64-bit vaults on spaced ticks no tick has such a net (`LiquidityBounds.LiquidityStaysSmall`).
- Protocol fees owed wrap at 2^64 as the release build does, and the vault theorems hold with the wrapped value; with
  64-bit vaults they never wrap (`Withdrawals.ProtocolFeesNeverWrap`).
- The client's own tick prices: its liquidity quotes are modelled on the pool's curve. Its quotes for swaps, fees and
  rewards repeat the program's computation and are not modelled; the price and amount formulas they use are.
