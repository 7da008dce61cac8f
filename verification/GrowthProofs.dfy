/** Growth accounting: what each kind of step does to inside growth and pending growth. */
module GrowthProofs {
  import opened Arithmetic
  import opened State
  import opened TickManager
  import opened PositionManager
  import opened Ledger

  // ---- tick liquidity ----

  /** A position with liquidity keeps both of its ticks initialized. */
  lemma ActiveTicks(s: Pool, i: int)
    requires TickSums(s)
    requires 0 <= i < |s.positions| && s.positions[i].liquidity > 0
    ensures var p := s.positions[i];
            forall t | p.Bounds(t) ::
              TickAt(s.ticks, t).initialized && p.liquidity <= TickAt(s.ticks, t).liquidityGross
  {
    var p := s.positions[i];
    forall t | p.Bounds(t)
      ensures TickAt(s.ticks, t).initialized && p.liquidity <= TickAt(s.ticks, t).liquidityGross
    {
      SumBoundsTerm(GrossTerm(s.positions, t), |s.positions|);
      assert GrossTerm(s.positions, t)(i) <= Sum(GrossTerm(s.positions, t), |s.positions|);
      assert TickAgrees(s, t);
    }
  }

  // ---- the history ----

  lemma HistoryExtends(h: seq<Accrual>, e: Accrual, from: nat, lower: int, upper: int, k: int)
    requires 0 <= k < CHANNELS && from <= |h|
    ensures GrowthInRange(h + [e], from, lower, upper, k)
         == GrowthInRange(h, from, lower, upper, k) + (if lower <= e.tick < upper then e.amounts[k] else 0)
  {
    assert (h + [e])[..|h|] == h;
  }

  // ---- accruing growth ----

  /** Growth above a tick before any reduction modulo 2^128; an uninitialized tick counts none. */
  function AboveTick(current: int, growth: u128, initialized: bool, outside: u128, tick: int): int {
    if !initialized then 0 else if current < tick then outside else growth - outside
  }

  /** Inside growth is the difference of the growth above its two ends, with the nested reductions flattened. */
  lemma InsideIsDifference(current: int, growth: u128, lowerInit: bool, lowerOut: u128, lower: int,
                           upperInit: bool, upperOut: u128, upper: int)
    ensures GrowthInside(current, growth, lowerInit, lowerOut, lower, upperInit, upperOut, upper)
         == Wrap(AboveTick(current, growth, lowerInit, lowerOut, lower)
                 - AboveTick(current, growth, upperInit, upperOut, upper))
  {
    var above := AboveTick(current, growth, lowerInit, lowerOut, lower);
    BelowFlat(current, growth, lowerInit, lowerOut, lower);
    AboveFlat(current, growth, upperInit, upperOut, upper);
    hide AboveTick, GrowthBelow, GrowthAbove, Wrap, WrapSub;
    WrapDifference(above, AboveTick(current, growth, upperInit, upperOut, upper));
  }

  lemma WrapDifference(x: int, y: int)
    ensures WrapSub(Wrap(x), Wrap(y)) == Wrap(x - y)
  {
    ModAdd(x, 0 - Wrap(y));
    ModAdd(y, x);
  }

  lemma BelowFlat(current: int, growth: u128, initialized: bool, outside: u128, tick: int)
    ensures WrapSub(growth, GrowthBelow(current, growth, initialized, outside, tick))
         == Wrap(AboveTick(current, growth, initialized, outside, tick))
  {
    ModAdd(growth - outside, growth);
  }

  lemma AboveFlat(current: int, growth: u128, initialized: bool, outside: u128, tick: int)
    ensures GrowthAbove(current, growth, initialized, outside, tick)
         == Wrap(AboveTick(current, growth, initialized, outside, tick))
  {
  }

  lemma AboveGrows(current: int, growth: u128, increment: nat, initialized: bool, outside: u128, tick: int)
    ensures Wrap(AboveTick(current, WrapAdd(growth, increment), initialized, outside, tick))
         == Wrap(AboveTick(current, growth, initialized, outside, tick)
                 + (if initialized && tick <= current then increment else 0))
  {
    ModAdd(growth + increment, 0 - outside);
  }

  lemma DifferenceMod(a: int, b: int, c: int, d: int)
    requires Wrap(a) == Wrap(c) && Wrap(b) == Wrap(d)
    ensures Wrap(a - b) == Wrap(c - d)
  {
    WrapDifference(a, b);
    WrapDifference(c, d);
    hide Wrap;
  }

  /**
   * Global growth reaches inside growth once through an initialized lower end at or below the current tick,
   * and is taken out again through an initialized upper end there: for a range in use,
   * exactly while the current tick is inside.
   */
  lemma InsideGrows(current: int, growth: u128, increment: nat, lowerInit: bool, lowerOut: u128, lower: int,
                    upperInit: bool, upperOut: u128, upper: int)
    ensures GrowthInside(current, WrapAdd(growth, increment), lowerInit, lowerOut, lower, upperInit, upperOut, upper)
         == WrapAdd(GrowthInside(current, growth, lowerInit, lowerOut, lower, upperInit, upperOut, upper),
                    (if lowerInit && lower <= current then increment else 0)
                    - (if upperInit && upper <= current then increment else 0))
  {
    var grown := WrapAdd(growth, increment);
    InsideIsDifference(current, growth, lowerInit, lowerOut, lower, upperInit, upperOut, upper);
    InsideIsDifference(current, grown, lowerInit, lowerOut, lower, upperInit, upperOut, upper);
    AboveGrows(current, growth, increment, lowerInit, lowerOut, lower);
    AboveGrows(current, growth, increment, upperInit, upperOut, upper);
    var a := AboveTick(current, growth, lowerInit, lowerOut, lower);
    var b := AboveTick(current, growth, upperInit, upperOut, upper);
    var x := if lowerInit && lower <= current then increment else 0;
    var y := if upperInit && upper <= current then increment else 0;
    DifferenceMod(AboveTick(current, grown, lowerInit, lowerOut, lower),
                  AboveTick(current, grown, upperInit, upperOut, upper), a + x, b + y);
    hide AboveTick, GrowthInside, WrapAdd, Wrap;
    assert (a + x) - (b + y) == (a - b) + (x - y);
    WrapOnto(GrowthInside(current, growth, lowerInit, lowerOut, lower, upperInit, upperOut, upper), a - b, x - y);
  }

  lemma WrapAddSub(x: u128, y: u128, d: nat, pending: nat)
    requires WrapSub(x, y) == Wrap(pending)
    ensures WrapSub(WrapAdd(x, d), y) == Wrap(pending + d)
  {
    ModAdd(x + d, 0 - y);
    ModAdd(x - y, d);
    ModAdd(pending, d);
    hide Wrap;
    assert x + d - y == x - y + d;
  }

  /** The pools differ only in what growth does not read. */
  ghost predicate SameTicks(s: Pool, t: Pool) {
    && t.positions == s.positions
    && t.ticks == s.ticks
    && t.tickCurrentIndex == s.tickCurrentIndex
    && t.liquidity == s.liquidity
  }

  /** `e` was added to every channel of `w` to give `v`. */
  ghost predicate Accrues(w: World, v: World, e: Accrual) {
    && SameTicks(w.pool, v.pool)
    && e.tick == w.pool.tickCurrentIndex
    && v.books == w.books.(history := w.books.history + [e], earned := v.books.earned)
    && (forall k | 0 <= k < CHANNELS :: Growth(v.pool, k) == WrapAdd(Growth(w.pool, k), e.amounts[k]))
    && (forall k | 0 <= k < CHANNELS ::
          w.books.earned[k] + w.pool.liquidity * e.amounts[k] <= v.books.earned[k])
  }

  lemma AccrualTelescopes(w: World, v: World, e: Accrual, i: int, k: int)
    requires TickSums(w.pool) && BooksMatch(w) && Accrues(w, v, e)
    requires 0 <= i < |w.pool.positions| && 0 <= k < CHANNELS && w.pool.positions[i].liquidity > 0
    requires w.pool.positions[i].tickLowerIndex < w.pool.positions[i].tickUpperIndex
    requires TelescopesAt(w, i, k)
    ensures BooksMatch(v) && TelescopesAt(v, i, k)
  {
    var p := w.pool.positions[i];
    var lower, upper := p.tickLowerIndex, p.tickUpperIndex;
    InsideRises(w, v, e, i, k);
    HistoryExtends(w.books.history, e, w.books.since[i], lower, upper, k);
    WrapAddSub(Inside(w.pool, lower, upper, k), Checkpoint(p, k), Share(p, e, k), Pending(w, i, k));
    hide Wrap, WrapAdd, WrapSub, GrowthInRange;
  }

  lemma AccrualSolvent(w: World, v: World, e: Accrual, k: int)
    requires WellFormed(w.pool) && TickSums(w.pool) && ActiveSum(w.pool) && BooksMatch(w) && Accrues(w, v, e)
    requires 0 <= k < CHANNELS && Solvent(w, k)
    ensures Solvent(v, k) && WithinEarningsAt(w, v, k)
  {
    PendingSumGrows(w, v, e, k);
    AccrualClaims(w, v, e, k);
    hide PendingTerm, ActiveSum, TickSums, WellFormed, ClaimsWithin;
    assert Solvent(w, k) && w.books.credited == v.books.credited && w.books.paid == v.books.paid;
  }

  /** The increment enters the inside growth of exactly the positions in range. */
  lemma InsideRises(w: World, v: World, e: Accrual, i: int, k: int)
    requires TickSums(w.pool) && Accrues(w, v, e)
    requires 0 <= i < |w.pool.positions| && 0 <= k < CHANNELS && w.pool.positions[i].liquidity > 0
    requires w.pool.positions[i].tickLowerIndex < w.pool.positions[i].tickUpperIndex
    ensures var p := w.pool.positions[i];
            (Inside(v.pool, p.tickLowerIndex, p.tickUpperIndex, k)
             == WrapAdd(Inside(w.pool, p.tickLowerIndex, p.tickUpperIndex, k), Share(p, e, k)))
  {
    var p := w.pool.positions[i];
    var lower, upper := p.tickLowerIndex, p.tickUpperIndex;
    ActiveTicks(w.pool, i);
    assert p.Bounds(lower) && p.Bounds(upper);
    InsideGrows(w.pool.tickCurrentIndex, Growth(w.pool, k), e.amounts[k],
                true, Outside(TickAt(w.pool.ticks, lower), k), lower, true, Outside(TickAt(w.pool.ticks, upper), k), upper);
    hide Wrap, WrapAdd, WrapSub, TickSums;
  }

  /** What `e` means to a position: all of it in range, nothing out of range. */
  function Share(p: Position, e: Accrual, k: int): nat
    requires 0 <= k < CHANNELS
  {
    if p.Covers(e.tick) then e.amounts[k] else 0
  }

  /** Unsettled growth of a position rises by no more than its share of the increment. */
  lemma UnsettledGrows(w: World, v: World, e: Accrual, i: int, k: int)
    requires WellFormed(w.pool) && TickSums(w.pool) && Accrues(w, v, e)
    requires 0 <= i < |w.pool.positions| && 0 <= k < CHANNELS
    ensures UnsettledTerm(v.pool, k)(i)
         <= UnsettledTerm(w.pool, k)(i) + e.amounts[k] * RangeTerm(w.pool.positions, e.tick)(i)
  {
    var p := w.pool.positions[i];
    assert p in w.pool.positions;
    var before := Inside(w.pool, p.tickLowerIndex, p.tickUpperIndex, k);
    var after := Inside(v.pool, p.tickLowerIndex, p.tickUpperIndex, k);
    hide Inside, Wrap, WrapAdd, WrapSub, TickSums;
    if p.liquidity > 0 {
      InsideRises(w, v, e, i, k);
      WrapAddAtMost(before, Checkpoint(p, k), Share(p, e, k));
    }
    hide WellFormed, Accrues;
    ScaledAtMost(p.liquidity, WrapSub(before, Checkpoint(p, k)), WrapSub(after, Checkpoint(p, k)), Share(p, e, k));
    ShareIsTerm(w, e, i, k);
  }

  lemma ShareIsTerm(w: World, e: Accrual, i: int, k: int)
    requires 0 <= i < |w.pool.positions| && 0 <= k < CHANNELS
    ensures w.pool.positions[i].liquidity * Share(w.pool.positions[i], e, k)
         == e.amounts[k] * RangeTerm(w.pool.positions, e.tick)(i)
  {
    var p := w.pool.positions[i];
    if !p.Covers(e.tick) { assert p.liquidity * 0 == 0 == e.amounts[k] * 0; }
  }

  lemma NoLiquidityUnsettled(s: Pool, i: int, k: int)
    requires 0 <= i < |s.positions| && s.positions[i].liquidity == 0 && 0 <= k < CHANNELS
    ensures UnsettledTerm(s, k)(i) == 0
  {
    hide Inside, WrapSub;
  }

  lemma ScaledAtMost(liquidity: nat, before: int, after: int, d: int)
    requires liquidity > 0 ==> after <= before + d
    ensures liquidity * after <= liquidity * before + liquidity * d
  {
    if liquidity > 0 {
      MulMono(after, before + d, liquidity);
      assert (before + d) * liquidity == liquidity * before + liquidity * d;
    } else {
      assert 0 * after == 0 * before == 0 * d == 0;
    }
  }

  lemma WrapAddAtMost(x: u128, y: u128, d: nat)
    ensures WrapSub(WrapAdd(x, d), y) <= WrapSub(x, y) + d
  {
    ModAdd(x + d, 0 - y);
    ModAdd(x - y, d);
    assert x + d - y == x - y + d;
    WrapAtMost(WrapSub(x, y) + d);
    hide Wrap;
  }

  lemma WrapAtMost(x: nat)
    ensures Wrap(x) <= x
  {
  }

  lemma AccrualClaims(w: World, v: World, e: Accrual, k: int)
    requires WellFormed(w.pool) && TickSums(w.pool) && ActiveSum(w.pool) && Accrues(w, v, e) && 0 <= k < CHANNELS
    ensures ClaimsWithin(w, v, k)
  {
    var ps, n := w.pool.positions, |w.pool.positions|;
    var f, g, h := UnsettledTerm(w.pool, k), UnsettledTerm(v.pool, k), RangeTerm(ps, e.tick);
    var f' := (i: int) => f(i) + e.amounts[k] * h(i);
    forall i | 0 <= i < n ensures g(i) <= f'(i) {
      UnsettledGrows(w, v, e, i, k);
    }
    hide UnsettledTerm, RangeTerm, OwedTerm, TickSums, WellFormed;
    SumOrdered(g, f', n);
    SumAffine(f, f', h, e.amounts[k], n);
    assert e.amounts[k] * w.pool.liquidity == w.pool.liquidity * e.amounts[k];
  }

  lemma PendingSumGrows(w: World, v: World, e: Accrual, k: int)
    requires BooksMatch(w) && ActiveSum(w.pool) && 0 <= k < CHANNELS && e.tick == w.pool.tickCurrentIndex
    requires v.books == w.books.(history := w.books.history + [e], earned := v.books.earned)
    ensures var ps := w.pool.positions;
            (Sum(PendingTerm(ps, v.books, k), |ps|)
             == Sum(PendingTerm(ps, w.books, k), |ps|) + w.pool.liquidity * e.amounts[k])
  {
    var ps, n := w.pool.positions, |w.pool.positions|;
    var f, g, h := PendingTerm(ps, w.books, k), PendingTerm(ps, v.books, k), RangeTerm(ps, e.tick);
    forall i | 0 <= i < n ensures g(i) == f(i) + e.amounts[k] * h(i) {
      PendingGrows(w, v, e, i, k);
    }
    SumAffine(f, g, h, e.amounts[k], n);
    hide PendingTerm, RangeTerm;
    assert e.amounts[k] * w.pool.liquidity == w.pool.liquidity * e.amounts[k];
  }

  lemma PendingGrows(w: World, v: World, e: Accrual, i: int, k: int)
    requires BooksMatch(w) && 0 <= i < |w.pool.positions| && 0 <= k < CHANNELS
    requires v.books == w.books.(history := w.books.history + [e], earned := v.books.earned)
    ensures var ps := w.pool.positions;
            PendingTerm(ps, v.books, k)(i) == PendingTerm(ps, w.books, k)(i) + e.amounts[k] * RangeTerm(ps, e.tick)(i)
  {
    var p := w.pool.positions[i];
    HistoryExtends(w.books.history, e, w.books.since[i], p.tickLowerIndex, p.tickUpperIndex, k);
    hide GrowthInRange;
    var d := if p.Covers(e.tick) then e.amounts[k] else 0;
    var before := GrowthInRange(w.books.history, w.books.since[i], p.tickLowerIndex, p.tickUpperIndex, k);
    assert p.liquidity * (before + d) == p.liquidity * before + p.liquidity * d;
  }

  lemma AccrualMatches(w: World, v: World, e: Accrual)
    requires HistoryMatches(w) && Accrues(w, v, e)
    ensures HistoryMatches(v)
  {
    hide TotalGrowth, WrapAdd, Wrap;
    forall k | 0 <= k < CHANNELS ensures Growth(v.pool, k) == Wrap(TotalGrowth(v.books.history, k)) {
      TotalExtends(w.books.history, e, k);
      WrapOnto(Growth(w.pool, k), TotalGrowth(w.books.history, k), e.amounts[k]);
    }
  }

  lemma WrapOnto(growth: u128, total: int, x: int)
    requires growth == Wrap(total)
    ensures WrapAdd(growth, x) == Wrap(total + x)
  {
    ModAdd(total, x);
  }

  lemma TotalExtends(h: seq<Accrual>, e: Accrual, k: int)
    requires 0 <= k < CHANNELS
    ensures TotalGrowth(h + [e], k) == TotalGrowth(h, k) + e.amounts[k]
  {
    assert (h + [e])[..|h|] == h;
  }

  /** Adding growth keeps the telescoping and the solvency of every channel. */
  lemma AccrualKeeps(w: World, v: World, e: Accrual)
    requires WellFormed(w.pool) && TickSums(w.pool) && ActiveSum(w.pool) && BooksMatch(w)
    requires HistoryMatches(w) && Telescopes(w) && (forall k | 0 <= k < CHANNELS :: Solvent(w, k))
    requires Accrues(w, v, e)
    ensures TickSums(v.pool) && ActiveSum(v.pool) && BooksMatch(v) && HistoryMatches(v)
    ensures Telescopes(v) && (forall k | 0 <= k < CHANNELS :: Solvent(v, k))
    ensures WithinEarnings(w, v)
  {
    forall t ensures TickAgrees(v.pool, t) { assert TickAgrees(w.pool, t); }
    AccrualMatches(w, v, e);
    forall i, k | 0 <= i < |v.pool.positions| && 0 <= k < CHANNELS && v.pool.positions[i].liquidity > 0
      ensures TelescopesAt(v, i, k)
    {
      assert w.pool.positions[i] in w.pool.positions;
      AccrualTelescopes(w, v, e, i, k);
    }
    forall k | 0 <= k < CHANNELS ensures Solvent(v, k) && WithinEarningsAt(w, v, k) {
      AccrualSolvent(w, v, e, k);
    }
  }

  // ---- crossing ticks ----

  /** One end of a range, as the current tick moves: crossed and flipped, or left on its side. */
  ghost predicate EndMoves(growth: u128, before: int, after: int, crossed: int,
                           initialized: bool, outside: u128, outside': u128, tick: int)
  {
    if tick == crossed then initialized && (before < tick) != (after < tick) && outside' == WrapSub(growth, outside)
    else outside' == outside && (initialized ==> (before < tick <==> after < tick))
  }

  lemma AboveAcrossTick(growth: u128, before: int, after: int, crossed: int,
                        initialized: bool, outside: u128, outside': u128, tick: int)
    requires EndMoves(growth, before, after, crossed, initialized, outside, outside', tick)
    ensures Wrap(AboveTick(after, growth, initialized, outside', tick))
         == Wrap(AboveTick(before, growth, initialized, outside, tick))
  {
    ModAdd(growth - outside, growth);
  }

  /** Flipping the outside growth of a tick while the price passes it leaves inside growth of every range alone. */
  lemma InsideAcrossTick(growth: u128, before: int, after: int, crossed: int,
                         lowerInit: bool, lowerOut: u128, lowerOut': u128, lower: int,
                         upperInit: bool, upperOut: u128, upperOut': u128, upper: int)
    requires EndMoves(growth, before, after, crossed, lowerInit, lowerOut, lowerOut', lower)
    requires EndMoves(growth, before, after, crossed, upperInit, upperOut, upperOut', upper)
    ensures GrowthInside(after, growth, lowerInit, lowerOut', lower, upperInit, upperOut', upper)
         == GrowthInside(before, growth, lowerInit, lowerOut, lower, upperInit, upperOut, upper)
  {
    InsideIsDifference(before, growth, lowerInit, lowerOut, lower, upperInit, upperOut, upper);
    InsideIsDifference(after, growth, lowerInit, lowerOut', lower, upperInit, upperOut', upper);
    AboveAcrossTick(growth, before, after, crossed, lowerInit, lowerOut, lowerOut', lower);
    AboveAcrossTick(growth, before, after, crossed, upperInit, upperOut, upperOut', upper);
    hide AboveTick, GrowthInside, EndMoves, Wrap;
    DifferenceMod(AboveTick(after, growth, lowerInit, lowerOut', lower),
                  AboveTick(after, growth, upperInit, upperOut', upper),
                  AboveTick(before, growth, lowerInit, lowerOut, lower),
                  AboveTick(before, growth, upperInit, upperOut, upper));
  }

  // ---- settling a position ----

  /** A settlement credits at most liquidity times the pending growth, whatever wrapped or overflowed. */
  lemma EarnedAtMostPending(liquidity: u128, inside: u128, checkpoint: u128, pending: nat)
    requires liquidity > 0 ==> WrapSub(inside, checkpoint) == Wrap(pending)
    ensures Q64 * GrowthEarned(liquidity, inside, checkpoint) <= liquidity * pending
  {
    if liquidity > 0 {
      var delta := WrapSub(inside, checkpoint);
      MulMono(delta, pending, liquidity);
    } else {
      assert liquidity * pending == 0;
    }
  }
}
