/** Searching a sequence of tick arrays for the next initialized tick (state/tick, swap_tick_sequence). */
module TickSearch {
  import opened Arithmetic
  import opened Outcome
  import opened State

  const TICK_ARRAY_SIZE: int := 88

  /** Whether the array starting at `start` may be searched from `tick`. */
  predicate InSearchRange(start: int, spacing: nat, tick: int, shifted: bool) {
    var shift := if shifted then spacing else 0;
    start - shift <= tick < start + TICK_ARRAY_SIZE * spacing - shift
  }

  /** `get_tick` finds the tick in the array starting at `start`. */
  predicate Visible(start: int, spacing: nat, tick: int) {
    InSearchRange(start, spacing, tick, false) && UsableTick(tick, spacing)
  }

  function Scan(ticks: map<int, Tick>, start: int, spacing: nat, offset: int, aToB: bool): Option<int>
    decreases if aToB then offset + 1 else TICK_ARRAY_SIZE - offset
  {
    if !(0 <= offset < TICK_ARRAY_SIZE) then None
    else if TickAt(ticks, offset * spacing + start).initialized then Some(offset * spacing + start)
    else Scan(ticks, start, spacing, if aToB then offset - 1 else offset + 1, aToB)
  }

  function GetNextInitTickIndex(ticks: map<int, Tick>, start: int, spacing: nat, tick: int, aToB: bool): Result<Option<int>>
    requires spacing > 0
  {
    if !InSearchRange(start, spacing, tick, !aToB) then Err(InvalidTickArraySequence)
    else
      var offset := (tick - start) / spacing;
      Ok(Scan(ticks, start, spacing, if aToB then offset else offset + 1, aToB))
  }

  method SearchArray(ticks: map<int, Tick>, start: int, spacing: nat, tick: int, aToB: bool)
    returns (r: Result<Option<int>>)
    requires spacing > 0
    ensures r == GetNextInitTickIndex(ticks, start, spacing, tick, aToB)
  {
    if !InSearchRange(start, spacing, tick, !aToB) {
      return Err(InvalidTickArraySequence);
    }
    var offset := (tick - start) / spacing;
    if !aToB {
      offset := offset + 1;
    }
    while 0 <= offset < TICK_ARRAY_SIZE
      invariant Ok(Scan(ticks, start, spacing, offset, aToB)) == GetNextInitTickIndex(ticks, start, spacing, tick, aToB)
      decreases if aToB then offset + 1 else TICK_ARRAY_SIZE - offset
    {
      if TickAt(ticks, offset * spacing + start).initialized {
        return Ok(Some(offset * spacing + start));
      }
      offset := if aToB then offset - 1 else offset + 1;
    }
    r := Ok(None);
  }

  /** The next stop of a swap and the array that holds it. */
  function GetNextInitializedTickIndex(ticks: map<int, Tick>, arrays: seq<int>, spacing: nat, tick: int, aToB: bool,
                                       index: nat): Result<(nat, int)>
    requires spacing > 0
    decreases |arrays| - index
  {
    if index >= |arrays| then Err(TickArraySequenceInvalidIndex)
    else
      var start := arrays[index];
      var found :- GetNextInitTickIndex(ticks, start, spacing, tick, aToB);
      if found.Some? then Ok((index, found.value))
      else if aToB && start <= MIN_TICK_INDEX then Ok((index, MIN_TICK_INDEX))
      else if !aToB && start + TICK_ARRAY_SIZE * spacing > MAX_TICK_INDEX then Ok((index, MAX_TICK_INDEX))
      else
        var edge := if aToB then start else start + TICK_ARRAY_SIZE * spacing - 1;
        if index + 1 == |arrays| then Ok((index, edge))
        else GetNextInitializedTickIndex(ticks, arrays, spacing, if aToB then start - 1 else edge, aToB, index + 1)
  }

  method SearchSequence(ticks: map<int, Tick>, arrays: seq<int>, spacing: nat, tick: int, aToB: bool, index: nat)
    returns (r: Result<(nat, int)>)
    requires spacing > 0
    ensures r == GetNextInitializedTickIndex(ticks, arrays, spacing, tick, aToB, index)
  {
    var search, i := tick, index;
    while true
      invariant GetNextInitializedTickIndex(ticks, arrays, spacing, search, aToB, i)
             == GetNextInitializedTickIndex(ticks, arrays, spacing, tick, aToB, index)
      decreases |arrays| - i
    {
      if i >= |arrays| {
        return Err(TickArraySequenceInvalidIndex);
      }
      var start := arrays[i];
      var found :- SearchArray(ticks, start, spacing, search, aToB);
      if found.Some? {
        return Ok((i, found.value));
      }
      if aToB && start <= MIN_TICK_INDEX {
        return Ok((i, MIN_TICK_INDEX));
      } else if !aToB && start + TICK_ARRAY_SIZE * spacing > MAX_TICK_INDEX {
        return Ok((i, MAX_TICK_INDEX));
      }
      if i + 1 == |arrays| {
        return Ok((i, if aToB then start else start + TICK_ARRAY_SIZE * spacing - 1));
      }
      search := if aToB then start - 1 else start + TICK_ARRAY_SIZE * spacing - 1;
      i := i + 1;
    }
  }

  // ---- the search skips nothing ----

  /** Only usable ticks are ever initialized. */
  ghost predicate TicksAligned(ticks: map<int, Tick>, spacing: nat) {
    forall t :: TickAt(ticks, t).initialized ==> UsableTick(t, spacing)
  }

  /** Start indexes that tick arrays can have; a spacing of zero admits no array. */
  predicate ArraysAligned(arrays: seq<int>, spacing: nat) {
    spacing > 0 && forall i | 0 <= i < |arrays| :: arrays[i] % spacing == 0
  }

  /** No initialized tick in `lo .. hi`. */
  ghost predicate Quiet(ticks: map<int, Tick>, lo: int, hi: int) {
    forall t | lo <= t < hi :: !TickAt(ticks, t).initialized
  }

  lemma BetweenOffsets(start: int, spacing: nat, offset: int, t: int)
    requires spacing > 0 && start % spacing == 0
    requires offset * spacing + start < t < (offset + 1) * spacing + start
    ensures t % spacing != 0
  {
    if t % spacing == 0 {
      var a, b := start / spacing, t / spacing;
      assert start == a * spacing && t == b * spacing;
      assert t - start - offset * spacing == (b - a - offset) * spacing;
      assert (offset + 1) * spacing == offset * spacing + spacing;
      if b - a - offset >= 1 {
        MulMono(1, b - a - offset, spacing);
      } else {
        MulMono(b - a - offset, 0, spacing);
      }
    }
  }

  lemma QuietAfterOffset(ticks: map<int, Tick>, start: int, spacing: nat, offset: int)
    requires spacing > 0 && start % spacing == 0 && TicksAligned(ticks, spacing)
    ensures Quiet(ticks, offset * spacing + start + 1, (offset + 1) * spacing + start)
  {
    forall t | offset * spacing + start + 1 <= t < (offset + 1) * spacing + start
      ensures !TickAt(ticks, t).initialized
    {
      BetweenOffsets(start, spacing, offset, t);
    }
  }

  lemma {:induction false} ScanLeft(ticks: map<int, Tick>, start: int, spacing: nat, offset: int)
    requires spacing > 0 && start % spacing == 0 && TicksAligned(ticks, spacing)
    requires -1 <= offset < TICK_ARRAY_SIZE
    ensures var r := Scan(ticks, start, spacing, offset, true);
            match r
            case None => Quiet(ticks, start, (offset + 1) * spacing + start)
            case Some(n) =>
              && start <= n <= offset * spacing + start && TickAt(ticks, n).initialized
              && Quiet(ticks, n + 1, (offset + 1) * spacing + start)
    decreases offset + 1
  {
    if offset >= 0 {
      QuietAfterOffset(ticks, start, spacing, offset);
      MulMono(0, offset, spacing);
      if !TickAt(ticks, offset * spacing + start).initialized {
        ScanLeft(ticks, start, spacing, offset - 1);
        assert (offset - 1) * spacing == offset * spacing - spacing;
      }
    }
  }

  lemma {:induction false} ScanRight(ticks: map<int, Tick>, start: int, spacing: nat, offset: int)
    requires spacing > 0 && start % spacing == 0 && TicksAligned(ticks, spacing)
    requires 0 <= offset <= TICK_ARRAY_SIZE
    ensures var r := Scan(ticks, start, spacing, offset, false);
            match r
            case None => Quiet(ticks, offset * spacing + start, start + TICK_ARRAY_SIZE * spacing)
            case Some(n) =>
              && offset * spacing + start <= n < start + TICK_ARRAY_SIZE * spacing && TickAt(ticks, n).initialized
              && Quiet(ticks, offset * spacing + start, n)
    decreases TICK_ARRAY_SIZE - offset
  {
    if offset < TICK_ARRAY_SIZE {
      QuietAfterOffset(ticks, start, spacing, offset);
      assert (offset + 1) * spacing == offset * spacing + spacing;
      MulMono(offset + 1, TICK_ARRAY_SIZE, spacing);
      if !TickAt(ticks, offset * spacing + start).initialized {
        ScanRight(ticks, start, spacing, offset + 1);
      }
    }
  }

  /**
   * What a swap may rely on: nothing initialized is skipped, the stop itself is visible if initialized,
   * and an uninitialized stop is an end of the supported range or the far edge of the last array.
   */
  ghost predicate NextStop(ticks: map<int, Tick>, arrays: seq<int>, spacing: nat, tick: int, aToB: bool,
                           r: (nat, int))
  {
    && r.0 < |arrays|
    && MIN_TICK_INDEX <= r.1 <= MAX_TICK_INDEX
    && (if aToB then r.1 <= tick && Quiet(ticks, r.1 + 1, tick + 1)
        else tick < r.1 && Quiet(ticks, tick + 1, r.1))
    && (if TickAt(ticks, r.1).initialized then Visible(arrays[r.0], spacing, r.1)
        else r.1 == (if aToB then MIN_TICK_INDEX else MAX_TICK_INDEX)
             || (r.0 == |arrays| - 1
                 && r.1 == if aToB then arrays[r.0] else arrays[r.0] + TICK_ARRAY_SIZE * spacing - 1))
  }

  /** The array search finds the nearest initialized tick, or a stop with none before it. */
  lemma {:induction false} SearchFindsNextStop(ticks: map<int, Tick>, arrays: seq<int>, spacing: nat, tick: int,
                                               aToB: bool, index: nat)
    requires TicksAligned(ticks, spacing) && ArraysAligned(arrays, spacing)
    requires if aToB then MIN_TICK_INDEX <= tick <= MAX_TICK_INDEX else MIN_TICK_INDEX - 1 <= tick < MAX_TICK_INDEX
    ensures var r := GetNextInitializedTickIndex(ticks, arrays, spacing, tick, aToB, index);
            r.Ok? ==> NextStop(ticks, arrays, spacing, tick, aToB, r.value)
    decreases |arrays| - index
  {
    if index < |arrays| && InSearchRange(arrays[index], spacing, tick, !aToB) {
      var start := arrays[index];
      if aToB {
        LeftInArray(ticks, start, spacing, tick);
        if index + 1 < |arrays| && start > MIN_TICK_INDEX {
          SearchFindsNextStop(ticks, arrays, spacing, start - 1, aToB, index + 1);
        }
      } else {
        RightInArray(ticks, start, spacing, tick);
        if index + 1 < |arrays| && start + TICK_ARRAY_SIZE * spacing <= MAX_TICK_INDEX {
          SearchFindsNextStop(ticks, arrays, spacing, start + TICK_ARRAY_SIZE * spacing - 1, aToB, index + 1);
        }
      }
    }
  }

  // ---- the search succeeds ----

  /** Each array follows the one before it by one width, in the direction of the swap. */
  predicate InSequence(arrays: seq<int>, spacing: nat, aToB: bool) {
    forall i | 0 <= i < |arrays| - 1 ::
      arrays[i + 1] == if aToB then arrays[i] - TICK_ARRAY_SIZE * spacing else arrays[i] + TICK_ARRAY_SIZE * spacing
  }

  /** Arrays in sequence, the one to begin with covering the tick, always give a stop, in the array that holds it. */
  lemma {:induction false} SearchSucceeds(ticks: map<int, Tick>, arrays: seq<int>, spacing: nat, tick: int,
                                          aToB: bool, index: nat)
    requires TicksAligned(ticks, spacing) && ArraysAligned(arrays, spacing) && InSequence(arrays, spacing, aToB)
    requires if aToB then MIN_TICK_INDEX <= tick <= MAX_TICK_INDEX else MIN_TICK_INDEX - 1 <= tick < MAX_TICK_INDEX
    requires index < |arrays| && InSearchRange(arrays[index], spacing, tick, !aToB)
    ensures var r := GetNextInitializedTickIndex(ticks, arrays, spacing, tick, aToB, index);
            && r.Ok? && index <= r.value.0 < |arrays|
            && (arrays[r.value.0] <= MAX_TICK_INDEX ==> InSearchRange(arrays[r.value.0], spacing, r.value.1, false))
    decreases |arrays| - index
  {
    var start := arrays[index];
    if aToB {
      LeftInArray(ticks, start, spacing, tick);
      if index + 1 < |arrays| && start > MIN_TICK_INDEX {
        SearchSucceeds(ticks, arrays, spacing, start - 1, aToB, index + 1);
      }
    } else {
      RightInArray(ticks, start, spacing, tick);
      if index + 1 < |arrays| && start + TICK_ARRAY_SIZE * spacing <= MAX_TICK_INDEX {
        SearchSucceeds(ticks, arrays, spacing, start + TICK_ARRAY_SIZE * spacing - 1, aToB, index + 1);
      }
    }
    hide Scan;
  }

  /** A stop a swap may rely on, together with the array that holds it. */
  ghost predicate HeldStop(ticks: map<int, Tick>, arrays: seq<int>, spacing: nat, tick: int, aToB: bool, r: (nat, int)) {
    NextStop(ticks, arrays, spacing, tick, aToB, r) && InSearchRange(arrays[r.0], spacing, r.1, false)
  }

  /** Among arrays in sequence there is only one such stop, so the search has only one answer to give. */
  lemma StopIsDetermined(ticks: map<int, Tick>, arrays: seq<int>, spacing: nat, tick: int, aToB: bool,
                         r: (nat, int), r': (nat, int))
    requires ArraysAligned(arrays, spacing) && InSequence(arrays, spacing, aToB)
    requires HeldStop(ticks, arrays, spacing, tick, aToB, r) && HeldStop(ticks, arrays, spacing, tick, aToB, r')
    ensures r == r'
  {
    var last := |arrays| - 1;
    if r.0 < r'.0 { ArraysApart(arrays, spacing, aToB, r.0, r'.0); }
    if r'.0 < r.0 { ArraysApart(arrays, spacing, aToB, r'.0, r.0); }
    if r.0 < last { ArraysApart(arrays, spacing, aToB, r.0, last); }
    if r'.0 < last { ArraysApart(arrays, spacing, aToB, r'.0, last); }
  }

  /** A later array in the sequence lies wholly beyond an earlier one. */
  lemma {:induction false} ArraysApart(arrays: seq<int>, spacing: nat, aToB: bool, i: nat, j: nat)
    requires spacing > 0 && InSequence(arrays, spacing, aToB) && i < j < |arrays|
    ensures if aToB then arrays[j] + TICK_ARRAY_SIZE * spacing <= arrays[i]
            else arrays[i] + TICK_ARRAY_SIZE * spacing <= arrays[j]
    decreases j
  {
    var before := j - 1;
    assert arrays[before + 1] == arrays[j];
    if i < before { ArraysApart(arrays, spacing, aToB, i, before); }
  }

  lemma LeftInArray(ticks: map<int, Tick>, start: int, spacing: nat, tick: int)
    requires spacing > 0 && start % spacing == 0 && TicksAligned(ticks, spacing)
    requires InSearchRange(start, spacing, tick, false)
    ensures match GetNextInitTickIndex(ticks, start, spacing, tick, true).value
            case None => Quiet(ticks, start, tick + 1)
            case Some(n) => start <= n <= tick && TickAt(ticks, n).initialized && Quiet(ticks, n + 1, tick + 1)
  {
    var offset := OffsetOf(start, spacing, tick, true);
    ScanLeft(ticks, start, spacing, offset);
    QuietAfterOffset(ticks, start, spacing, offset);
  }

  lemma RightInArray(ticks: map<int, Tick>, start: int, spacing: nat, tick: int)
    requires spacing > 0 && start % spacing == 0 && TicksAligned(ticks, spacing)
    requires InSearchRange(start, spacing, tick, true)
    ensures match GetNextInitTickIndex(ticks, start, spacing, tick, false).value
            case None => Quiet(ticks, tick + 1, start + TICK_ARRAY_SIZE * spacing)
            case Some(n) =>
              && tick < n && start <= n < start + TICK_ARRAY_SIZE * spacing
              && TickAt(ticks, n).initialized && Quiet(ticks, tick + 1, n)
  {
    var offset := OffsetOf(start, spacing, tick, false);
    MulMono(0, offset + 1, spacing);
    QuietAfterOffset(ticks, start, spacing, offset);
    ScanRight(ticks, start, spacing, offset + 1);
  }

  lemma OffsetOf(start: int, spacing: nat, tick: int, aToB: bool) returns (offset: int)
    requires spacing > 0 && InSearchRange(start, spacing, tick, !aToB)
    ensures offset == (tick - start) / spacing
    ensures offset * spacing + start <= tick < (offset + 1) * spacing + start
    ensures if aToB then 0 <= offset < TICK_ARRAY_SIZE else -1 <= offset < TICK_ARRAY_SIZE - 1
  {
    offset := (tick - start) / spacing;
    assert tick - start == offset * spacing + (tick - start) % spacing;
    assert (offset + 1) * spacing == offset * spacing + spacing;
    OffsetInArray(start, spacing, tick, offset, aToB);
  }

  lemma OffsetInArray(start: int, spacing: nat, tick: int, offset: int, aToB: bool)
    requires spacing > 0 && InSearchRange(start, spacing, tick, !aToB)
    requires offset * spacing + start <= tick < (offset + 1) * spacing + start
    ensures if aToB then 0 <= offset < TICK_ARRAY_SIZE else -1 <= offset < TICK_ARRAY_SIZE - 1
  {
    var first, last := if aToB then 0 else -1, if aToB then TICK_ARRAY_SIZE else TICK_ARRAY_SIZE - 1;
    if offset < first {
      MulMono(offset + 1, first, spacing);
    }
    if offset >= last {
      MulMono(last, offset, spacing);
    }
  }
}
