/**
 * Bookkeeping beside the pool that makes its promises sayable: what grew while which
 * tick was current, what each channel earned, and what was credited and paid.
 */
module Ledger {
  import opened Arithmetic
  import opened State
  import opened TickManager
  import opened PositionManager
  import opened WhirlpoolManager
  import opened CurveAmounts
  import opened SwapManager

  /**
   * `history` lists every growth increment in order; `since[i]` is its length when position `i`
   * was last settled. Per channel, `earned` is scaled by 2^64; `credited` and `paid` are tokens.
   */
  datatype Books = Books(
    history: seq<Accrual>,
    since: seq<nat>,
    credited: GrowthAmounts,
    paid: GrowthAmounts,
    earned: GrowthAmounts)

  datatype World = World(pool: Pool, books: Books)

  const NOTHING: GrowthAmounts := [0, 0, 0, 0, 0]

  const EMPTY_BOOKS: Books := Books([], [], NOTHING, NOTHING, NOTHING)

  // ---- the simple per-position view ----

  /** Growth of channel `k` that happened from `from` on while `lower <= current < upper`. */
  ghost function GrowthInRange(h: seq<Accrual>, from: nat, lower: int, upper: int, k: int): nat
    requires 0 <= k < CHANNELS
  {
    if |h| <= from then 0
    else
      var last := h[|h| - 1];
      GrowthInRange(h[..|h| - 1], from, lower, upper, k)
      + (if lower <= last.tick < upper then last.amounts[k] else 0)
  }

  /** All growth of channel `k` on record. */
  ghost function TotalGrowth(h: seq<Accrual>, k: int): nat
    requires 0 <= k < CHANNELS
  {
    if h == [] then 0 else TotalGrowth(h[..|h| - 1], k) + h[|h| - 1].amounts[k]
  }

  ghost function Pending(w: World, i: int, k: int): nat
    requires 0 <= k < CHANNELS
    requires 0 <= i < |w.pool.positions| && |w.books.since| == |w.pool.positions|
  {
    var p := w.pool.positions[i];
    GrowthInRange(w.books.history, w.books.since[i], p.tickLowerIndex, p.tickUpperIndex, k)
  }

  // ---- the per-tick view ----

  /** Growth inside a range as the ticks record it. */
  function Inside(s: Pool, lower: int, upper: int, k: int): u128
    requires 0 <= k < CHANNELS
  {
    var tickLower, tickUpper := TickAt(s.ticks, lower), TickAt(s.ticks, upper);
    GrowthInside(s.tickCurrentIndex, Growth(s, k), tickLower.initialized, Outside(tickLower, k), lower,
                 tickUpper.initialized, Outside(tickUpper, k), upper)
  }

  // ---- sums over positions ----

  ghost function GrossTerm(ps: seq<Position>, t: int): int -> int {
    i => if 0 <= i < |ps| && ps[i].Bounds(t) then ps[i].liquidity else 0
  }

  ghost function NetTerm(ps: seq<Position>, t: int): int -> int {
    i => if !(0 <= i < |ps|) then 0
         else if ps[i].tickLowerIndex == t then ps[i].liquidity
         else if ps[i].tickUpperIndex == t then 0 - ps[i].liquidity
         else 0
  }

  ghost function RangeTerm(ps: seq<Position>, current: int): int -> int {
    i => if 0 <= i < |ps| && ps[i].Covers(current) then ps[i].liquidity else 0
  }

  ghost function OwedTerm(ps: seq<Position>, k: int): int -> int
    requires 0 <= k < CHANNELS
  {
    i => if 0 <= i < |ps| then Owed(ps[i], k) else 0
  }

  ghost function PendingTerm(ps: seq<Position>, b: Books, k: int): int -> int
    requires 0 <= k < CHANNELS
  {
    i => if 0 <= i < |ps| && i < |b.since|
         then ps[i].liquidity * GrowthInRange(b.history, b.since[i], ps[i].tickLowerIndex, ps[i].tickUpperIndex, k)
         else 0
  }

  /** What position `i` would be credited with for channel `k`, before the final rounding. */
  ghost function UnsettledTerm(s: Pool, k: int): int -> int
    requires 0 <= k < CHANNELS
  {
    i => if 0 <= i < |s.positions|
         then var p := s.positions[i];
              p.liquidity * WrapSub(Inside(s, p.tickLowerIndex, p.tickUpperIndex, k), Checkpoint(p, k))
         else 0
  }

  ghost function LiquidityTerm(ps: seq<Position>): int -> int {
    i => if 0 <= i < |ps| then ps[i].liquidity else 0
  }

  /** Liquidity of all positions, in range or not. */
  ghost function TotalLiquidity(s: Pool): int {
    Sum(LiquidityTerm(s.positions), |s.positions|)
  }

  // ---- principal: what a position's liquidity is worth on the curve ----

  function Clamp(x: int, lo: int, hi: int): int {
    Min(Max(x, lo), hi)
  }

  /** Exact amount of A behind a position at a price: the curve between the clamped price and its upper end. */
  ghost function PrincipalA(c: Curve, price: int, p: Position, spacing: nat): real
    requires c.Valid() && WellFormedPosition(p, spacing)
  {
    var lo, hi := SqrtPriceFromTickIndex(c, p.tickLowerIndex), SqrtPriceFromTickIndex(c, p.tickUpperIndex);
    ExactA(p.liquidity, Clamp(price, lo, hi), hi)
  }

  ghost function PrincipalB(c: Curve, price: int, p: Position, spacing: nat): real
    requires c.Valid() && WellFormedPosition(p, spacing)
  {
    var lo, hi := SqrtPriceFromTickIndex(c, p.tickLowerIndex), SqrtPriceFromTickIndex(c, p.tickUpperIndex);
    ExactB(p.liquidity, lo, Clamp(price, lo, hi))
  }

  ghost function PrincipalTermA(s: Pool): int -> real
    requires WellFormed(s)
  {
    i => if 0 <= i < |s.positions| then PrincipalA(s.curve, s.sqrtPrice, s.positions[i], s.tickSpacing) else 0.0
  }

  ghost function PrincipalTermB(s: Pool): int -> real
    requires WellFormed(s)
  {
    i => if 0 <= i < |s.positions| then PrincipalB(s.curve, s.sqrtPrice, s.positions[i], s.tickSpacing) else 0.0
  }

  ghost function TotalPrincipalA(s: Pool): real
    requires WellFormed(s)
  {
    RealSum(PrincipalTermA(s), |s.positions|)
  }

  ghost function TotalPrincipalB(s: Pool): real
    requires WellFormed(s)
  {
    RealSum(PrincipalTermB(s), |s.positions|)
  }

  // ---- the invariant ----

  /** Every tick's gross and net liquidity are the sums over the positions it bounds. */
  ghost predicate TickSums(s: Pool) {
    forall t :: TickAgrees(s, t)
  }

  ghost predicate TickAgrees(s: Pool, t: int) {
    && TickAt(s.ticks, t).liquidityGross == Sum(GrossTerm(s.positions, t), |s.positions|)
    && TickAt(s.ticks, t).liquidityNet == Sum(NetTerm(s.positions, t), |s.positions|)
    && (TickAt(s.ticks, t).initialized <==> TickAt(s.ticks, t).liquidityGross > 0)
  }

  /** The pool's active liquidity is the sum over the positions in range. */
  ghost predicate ActiveSum(s: Pool) {
    s.liquidity == Sum(RangeTerm(s.positions, s.tickCurrentIndex), |s.positions|)
  }

  /** An uninitialized reward has never grown, anywhere. */
  ghost predicate IdleRewards(s: Pool) {
    forall r | 0 <= r < NUM_REWARDS && !s.rewardInfos[r].initialized ::
      s.rewardInfos[r].growthGlobalX64 == 0 && forall t :: TickAt(s.ticks, t).rewardGrowthsOutside[r] == 0
  }

  ghost predicate BooksMatch(w: World) {
    && |w.books.since| == |w.pool.positions|
    && forall i | 0 <= i < |w.books.since| :: w.books.since[i] <= |w.books.history|
  }

  /** The recorded history is the global growth, modulo 2^128. */
  ghost predicate HistoryMatches(w: World) {
    forall k | 0 <= k < CHANNELS :: Growth(w.pool, k) == Wrap(TotalGrowth(w.books.history, k))
  }

  /** Per-tick growth since the checkpoint is, modulo 2^128, the growth that happened in range. */
  ghost predicate Telescopes(w: World)
    requires BooksMatch(w)
  {
    forall i, k | 0 <= i < |w.pool.positions| && 0 <= k < CHANNELS && w.pool.positions[i].liquidity > 0 ::
      TelescopesAt(w, i, k)
  }

  ghost predicate TelescopesAt(w: World, i: int, k: int)
    requires BooksMatch(w) && 0 <= i < |w.pool.positions| && 0 <= k < CHANNELS
  {
    var p := w.pool.positions[i];
    WrapSub(Inside(w.pool, p.tickLowerIndex, p.tickUpperIndex, k), Checkpoint(p, k)) == Wrap(Pending(w, i, k))
  }

  /** All a channel has distributed, scaled by 2^64: tokens credited, and growth still pending on liquidity. */
  ghost function Distributed(w: World, k: int): int
    requires 0 <= k < CHANNELS
  {
    Q64 * w.books.credited[k] + Sum(PendingTerm(w.pool.positions, w.books, k), |w.pool.positions|)
  }

  /** What positions can still claim, scaled by 2^64: debts, and growth the ticks record as unsettled. */
  ghost function Claims(w: World, k: int): int
    requires 0 <= k < CHANNELS
  {
    var n := |w.pool.positions|;
    Q64 * Sum(OwedTerm(w.pool.positions, k), n) + Sum(UnsettledTerm(w.pool, k), n)
  }

  /** From `w` to `v`, no channel distributed more than it earned, and claims grew by no more than earnings and payments. */
  ghost predicate WithinEarnings(w: World, v: World) {
    forall k | 0 <= k < CHANNELS :: WithinEarningsAt(w, v, k)
  }

  ghost predicate WithinEarningsAt(w: World, v: World, k: int)
    requires 0 <= k < CHANNELS
  {
    Distributed(v, k) + w.books.earned[k] <= Distributed(w, k) + v.books.earned[k] && ClaimsWithin(w, v, k)
  }

  ghost predicate ClaimsWithin(w: World, v: World, k: int)
    requires 0 <= k < CHANNELS
  {
    Claims(v, k) + Q64 * v.books.paid[k] + w.books.earned[k] <= Claims(w, k) + Q64 * w.books.paid[k] + v.books.earned[k]
  }

  /** Credits and pending growth never exceed what the channel earned; debts never exceed credits. */
  ghost predicate Solvent(w: World, k: int)
    requires 0 <= k < CHANNELS
  {
    && Distributed(w, k) <= w.books.earned[k]
    && w.books.paid[k] + Sum(OwedTerm(w.pool.positions, k), |w.pool.positions|) <= w.books.credited[k]
  }

  /** Each vault covers the exact principal, the fees earned and not paid, and the protocol's share. */
  ghost predicate VaultsCover(w: World)
    requires WellFormed(w.pool)
  {
    var (s, b) := (w.pool, w.books);
    && s.vaultA as real >= TotalPrincipalA(s) + (b.earned[0] as real / Q64 as real - b.paid[0] as real)
                           + s.protocolFeeOwedA as real
    && s.vaultB as real >= TotalPrincipalB(s) + (b.earned[1] as real / Q64 as real - b.paid[1] as real)
                           + s.protocolFeeOwedB as real
  }

  ghost predicate Valid(w: World) {
    && Aligned(w.pool)
    && TickSums(w.pool)
    && ActiveSum(w.pool)
    && IdleRewards(w.pool)
    && BooksMatch(w)
    && HistoryMatches(w)
    && Telescopes(w)
    && (forall k | 0 <= k < CHANNELS :: Solvent(w, k))
    && VaultsCover(w)
  }

  /** A step from `w` to `v` kept the invariant and distributed within its earnings. */
  ghost predicate Keeps(w: World, v: World) {
    Valid(v) && WithinEarnings(w, v)
  }

  // ---- how the books follow the pool ----

  /** Growth each channel gains when rewards are brought up to `timestamp`. */
  function RewardAmounts(s: Pool, timestamp: u64): GrowthAmounts {
    seq(CHANNELS, k requires 0 <= k < CHANNELS =>
      if k < 2 || s.liquidity == 0 || timestamp < s.rewardLastUpdatedTimestamp then 0
      else RewardGrowthDelta(s.rewardInfos[k - 2], s.liquidity, timestamp - s.rewardLastUpdatedTimestamp))
  }

  /** Rewards emitted meanwhile, scaled by 2^64: rate times elapsed time, while somebody was in range. */
  function Emission(s: Pool, k: int, timestamp: u64): nat
    requires 0 <= k < CHANNELS
  {
    if k < 2 || s.liquidity == 0 || timestamp < s.rewardLastUpdatedTimestamp || !s.rewardInfos[k - 2].initialized then 0
    else (timestamp - s.rewardLastUpdatedTimestamp) * s.rewardInfos[k - 2].emissionsPerSecondX64
  }

  function EarnedAfter(s: Pool, b: Books, k: int, timestamp: u64): nat
    requires 0 <= k < CHANNELS
  {
    b.earned[k] + Emission(s, k, timestamp)
  }

  function BooksAccrued(s: Pool, b: Books, timestamp: u64): Books {
    b.(history := b.history + [Accrual(s.tickCurrentIndex, RewardAmounts(s, timestamp))],
       earned := seq(CHANNELS, k requires 0 <= k < CHANNELS => EarnedAfter(s, b, k, timestamp)))
  }

  function Earned(s: Pool, p: Position, k: int): u64
    requires 0 <= k < CHANNELS
  {
    GrowthEarned(p.liquidity, Inside(s, p.tickLowerIndex, p.tickUpperIndex, k), Checkpoint(p, k))
  }

  function CreditedAfter(s: Pool, b: Books, i: nat, k: int): nat
    requires 0 <= k < CHANNELS && i < |s.positions|
  {
    b.credited[k] + Earned(s, s.positions[i], k)
  }

  /** Position `i` of the already accrued pool `s` has been settled. */
  function BooksSettled(s: Pool, b: Books, i: nat): Books
    requires i < |s.positions| && |b.since| == |s.positions|
  {
    b.(credited := seq(CHANNELS, k requires 0 <= k < CHANNELS => CreditedAfter(s, b, i, k)),
       since := b.since[i := |b.history|])
  }

  function BooksPaid(b: Books, k: int, amount: nat): Books
    requires 0 <= k < CHANNELS
  {
    b.(paid := b.paid[k := b.paid[k] + amount])
  }

  /** The swap's fee growth is history, and the fees left to liquidity providers are earned. */
  function BooksAtCursor(b: Books, q: SwapRequest, c: SwapCursor): Books {
    var k := if q.aToB then 0 else 1;
    b.(history := b.history + c.accruals,
       earned := b.earned[k := b.earned[k] + Q64 * c.lpFees])
  }
}
