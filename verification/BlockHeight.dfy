/**
 The height search of `timestampToAeHeight`: a guess, a window around it, a binary search inside the
 window, and a walk back when the whole window lies after the target.

 A block's time is a function of its height; `reachable(k)` says whether the k-th request gets through.
 Heights outside [0, top] do not exist and their requests fail.
 */
module BlockHeight {
  import opened Wrappers

  type Times = int -> int

  predicate Exists(height: int, topHeight: nat) { 0 <= height <= topHeight }

  ghost predicate NonDecreasing(time: Times, topHeight: nat) {
    forall g, h | 0 <= g <= h <= topHeight :: time(g) <= time(h)
  }

  ghost predicate AllReachable(reachable: nat -> bool) { forall k: nat :: reachable(k) }

  // ---------------------------------------------------------------- the guess

  /** The linear estimate from the tip. */
  function GuessFromTip(topHeight: nat, topTime: int, target: int, intervalMs: real): int
    requires intervalMs > 0.0
  {
    var blocks := ((topTime - target) as real / intervalMs).Floor;
    var deltaH := if blocks > 0 then blocks else 0;
    if topHeight - deltaH > 1 then topHeight - deltaH else 1
  }

  /** A quotient's floor reaches a whole number exactly when that many intervals fit. */
  lemma FloorReachesIff(x: real, intervalMs: real, n: int)
    requires intervalMs > 0.0
    ensures (x / intervalMs).Floor >= n <==> n as real * intervalMs <= x
  {
    var q := x / intervalMs;
    assert q * intervalMs == x;
    TimesPositive(q, n as real, intervalMs);
  }

  lemma TimesPositive(a: real, b: real, c: real)
    requires c > 0.0
    ensures b <= a <==> b * c <= a * c
  {
    if b <= a { assert (a - b) * c >= 0.0; } else { assert (b - a) * c > 0.0; }
  }

  /** Each whole interval between the target and the tip takes the estimate one block down, to block 1 at most. */
  lemma GuessFromTipSkipsWholeIntervals(topHeight: nat, topTime: int, target: int, intervalMs: real) returns (k: nat)
    requires intervalMs > 0.0 && target < topTime
    ensures k as real * intervalMs <= (topTime - target) as real < (k + 1) as real * intervalMs
    ensures k + 1 < topHeight ==> GuessFromTip(topHeight, topTime, target, intervalMs) == topHeight - k
    ensures k + 1 >= topHeight ==> GuessFromTip(topHeight, topTime, target, intervalMs) == 1
  {
    var x := (topTime - target) as real;
    var blocks := (x / intervalMs).Floor;
    FloorReachesIff(x, intervalMs, 0);
    FloorReachesIff(x, intervalMs, blocks);
    FloorReachesIff(x, intervalMs, blocks + 1);
    k := blocks;
  }

  /** The estimate used when the caller passes the height it found before. */
  function GuessFromPrevious(previousHeight: int, topHeight: nat, topTime: int, target: int, intervalMs: real): int
    requires intervalMs > 0.0
  {
    previousHeight + (SincePrevious(topHeight - previousHeight, topTime, target, intervalMs) / intervalMs).Floor
  }

  /** The time from a block `blocks` below the tip, placed by the interval, to the target. */
  function SincePrevious(blocks: int, topTime: int, target: int, intervalMs: real): real {
    target as real - (topTime as real - blocks as real * intervalMs)
  }

  lemma ShiftByWholeIntervals(x: real, n: int, intervalMs: real)
    requires intervalMs > 0.0
    ensures ((x + n as real * intervalMs) / intervalMs).Floor == (x / intervalMs).Floor + n
  {
    assert (x + n as real * intervalMs) / intervalMs == x / intervalMs + n as real;
  }

  /** The previous height has no influence on the estimate made from it. */
  lemma PreviousHeightCancelsOut(previousHeight: int, topHeight: nat, topTime: int, target: int, intervalMs: real)
    requires intervalMs > 0.0
    ensures GuessFromPrevious(previousHeight, topHeight, topTime, target, intervalMs)
         == topHeight + ((target - topTime) as real / intervalMs).Floor
  {
    var n := topHeight - previousHeight;
    var x := (target - topTime) as real;
    assert SincePrevious(n, topTime, target, intervalMs) == x + n as real * intervalMs;
    ShiftByWholeIntervals(x, n, intervalMs);
  }

  /** The guess as made without a database: from the previous height if there is one, unless that comes out as 0. */
  function Guess(previousHeight: int, topHeight: nat, topTime: int, target: int, intervalMs: real): int
    requires intervalMs > 0.0
  {
    var guess :=
      if previousHeight != 0 then GuessFromPrevious(previousHeight, topHeight, topTime, target, intervalMs) else 0;
    if guess != 0 then guess else GuessFromTip(topHeight, topTime, target, intervalMs)
  }

  // ---------------------------------------------------------------- the window

  function Max(a: int, b: int): int { if a > b then a else b }

  function Min(a: int, b: int): int { if a < b then a else b }

  function HalfWindow(hourPrecision: bool): nat { if hourPrecision then 40 else 240 }

  /** The search window: its ends are swapped when the clamps cross. */
  function Window(guess: int, halfWindow: nat, topHeight: nat): (w: (int, int))
    ensures w.0 <= w.1
    ensures InReach(guess, halfWindow, topHeight) ==>
              w == (Max(1, guess - halfWindow), Min(topHeight, guess + halfWindow)) && 1 <= w.0 && w.1 <= topHeight
  {
    var low := Max(1, guess - halfWindow);
    var high := Min(topHeight, guess + halfWindow);
    if low > high then (high, low) else (low, high)
  }

  /** The clamped window around the guess is not empty. */
  predicate InReach(guess: int, halfWindow: nat, topHeight: nat) {
    1 <= guess + halfWindow && guess - halfWindow <= topHeight && topHeight >= 1
  }

  // ---------------------------------------------------------------- the search

  datatype Fetched = Fetched(time: int) | Failed

  function Fetch(time: Times, topHeight: nat, reachable: nat -> bool, k: nat, height: int): Fetched {
    if reachable(k) && Exists(height, topHeight) then Fetched(time(height)) else Failed
  }

  ghost predicate LaterThan(time: Times, target: int, from: int, to: int) {
    forall h | from < h <= to :: time(h) > target
  }

  /** The height the search looks for within the chain up to `top`: the last one at or before the target. */
  ghost predicate IsLastAtOrBefore(time: Times, target: int, height: int, top: int) {
    1 <= height <= top && time(height) <= target && LaterThan(time, target, height, top)
  }

  lemma LaterFromHere(time: Times, topHeight: nat, target: int, mid: int, to: int)
    requires NonDecreasing(time, topHeight) && Exists(mid, topHeight) && to <= topHeight && time(mid) > target
    ensures LaterThan(time, target, mid - 1, to)
  {}

  /**
   What the search makes of a window that the clamps have swapped to lie below height 1, from `bottom` up
   to 1, when every request for a height on the chain is answered.
   */
  function BelowTheChain(time: Times, target: int, bottom: int): Result<int, string> {
    if bottom < -2 || (bottom == -2 && time(0) > target) then Err("Height not found")
    else if bottom == -1 && time(0) > target then Ok(-1)
    else if time(1) <= target then Ok(1)
    else Ok(0)
  }

  /** Where a search of such a window can stand. */
  predicate SearchingBelow(time: Times, target: int, bottom: int, low: int, high: int) {
    || (low == bottom && high == 1)
    || (bottom < 0 && time(0) > target && low == bottom && high == -1)
    || ((bottom == 0 || time(0) <= target)
        && ((low == 0 && high == 1)
            || (time(1) <= target && low == 1 && high == 1)
            || (time(1) > target && low == 0 && high == 0)))
  }

  /**
   Whatever requests fail: a returned height has only later blocks above it in the window. With none
   failing and a window that is not empty, the search returns a height in [1, window top] that is at or
   before the target, or 1. A guess beyond reach above the chain fails; one beyond reach below it fails
   too, unless it is out by no more than three heights.
   */
  method SearchHeight(time: Times, topHeight: nat, target: int, guess: int, halfWindow: nat, reachable: nat -> bool)
    returns (result: Result<int, string>)
    ensures result.Ok? && InReach(guess, halfWindow, topHeight) && NonDecreasing(time, topHeight) ==>
              && 1 <= result.value <= Window(guess, halfWindow, topHeight).1
              && LaterThan(time, target, result.value, Window(guess, halfWindow, topHeight).1)
    ensures AllReachable(reachable) && InReach(guess, halfWindow, topHeight) ==>
              result.Ok? && (result.value == 1 || time(result.value) <= target)
    ensures guess > topHeight + halfWindow ==> result.Err?
    ensures topHeight >= 1 && guess + halfWindow < -2 ==> result.Err?
    ensures AllReachable(reachable) && topHeight >= 1 && guess + halfWindow <= 0 ==>
              result == BelowTheChain(time, target, guess + halfWindow)
  {
    var low := Max(1, guess - halfWindow);
    var high := Min(topHeight, guess + halfWindow);
    if low > high {
      low, high := high, low;
    }
    ghost var w := Window(guess, halfWindow, topHeight);
    var requests: nat := 0;
    while low < high
      invariant w.0 <= low <= high <= w.1
      invariant InReach(guess, halfWindow, topHeight) && NonDecreasing(time, topHeight) ==>
                  LaterThan(time, target, high, w.1)
      invariant guess > topHeight + halfWindow ==> low == w.0 && high == w.1
      invariant topHeight >= 1 && guess + halfWindow < -2 ==> low == guess + halfWindow && high == 1
      invariant topHeight >= 1 && -2 <= guess + halfWindow <= 0 ==>
                  SearchingBelow(time, target, guess + halfWindow, low, high)
      decreases high - low
    {
      var mid := (low + high + 1) / 2;
      var block := Fetch(time, topHeight, reachable, requests, mid);
      requests := requests + 1;
      if block.Failed? {
        return Err("Height not found");
      }
      if block.time <= target {
        low := mid;
      } else {
        if InReach(guess, halfWindow, topHeight) && NonDecreasing(time, topHeight) {
          LaterFromHere(time, topHeight, target, mid, w.1);
        }
        high := mid - 1;
      }
    }
    var block := Fetch(time, topHeight, reachable, requests, low);
    requests := requests + 1;
    while block.Fetched? && low > 1 && block.time > target
      invariant InReach(guess, halfWindow, topHeight) ==> 1 <= low <= w.1
      invariant InReach(guess, halfWindow, topHeight) && NonDecreasing(time, topHeight) ==>
                  LaterThan(time, target, low, w.1)
      invariant AllReachable(reachable) && topHeight >= 1 && guess + halfWindow <= 0 ==>
                  BelowTheChain(time, target, guess + halfWindow) == Ok(low)
      invariant topHeight >= 1 ==> guess + halfWindow >= -2
      invariant block.Fetched? ==> Exists(low, topHeight) && block.time == time(low)
      invariant AllReachable(reachable) && InReach(guess, halfWindow, topHeight) ==> block.Fetched?
      decreases low
    {
      low := low - 1;
      block := Fetch(time, topHeight, reachable, requests, low);
      requests := requests + 1;
    }
    return Ok(low);
  }

  /**
   With every request answered, the search returns the last height on the chain at or before the
   target exactly when there is one and it is not above the window.
   */
  lemma SearchIsExactIff(time: Times, topHeight: nat, target: int, r: int, windowTop: int)
    requires NonDecreasing(time, topHeight)
    requires 1 <= r <= windowTop <= topHeight
    requires LaterThan(time, target, r, windowTop) && (r == 1 || time(r) <= target)
    ensures IsLastAtOrBefore(time, target, r, topHeight)
       <==> time(1) <= target && (windowTop == topHeight || time(windowTop + 1) > target)
  {
    if time(1) <= target && (windowTop == topHeight || time(windowTop + 1) > target) {
      forall h | r < h <= topHeight ensures time(h) > target {
        if h > windowTop { assert time(windowTop + 1) <= time(h); }
      }
    }
    if IsLastAtOrBefore(time, target, r, topHeight) { assert time(1) <= time(r); }
  }

  /** A guess made without a database never lies above the chain. */
  lemma GuessAtMostTop(previousHeight: int, topHeight: nat, topTime: int, target: int, intervalMs: real)
    requires intervalMs > 0.0 && topHeight >= 1 && target < topTime
    ensures Guess(previousHeight, topHeight, topTime, target, intervalMs) <= topHeight
  {
    PreviousHeightCancelsOut(previousHeight, topHeight, topTime, target, intervalMs);
    NegativeQuotient((target - topTime) as real, intervalMs);
  }

  /** What `timestampToAeHeight` needs to find the last height at or before the target, and no more. */
  predicate Findable(time: Times, topHeight: nat, target: int, guess: int, halfWindow: nat) {
    var windowTop := Window(guess, halfWindow, topHeight).1;
    && topHeight >= 1 && time(1) <= target
    && guess + halfWindow >= -2
    && (windowTop >= topHeight || time(windowTop + 1) > target)
  }

  lemma FoundIffFindable(time: Times, topHeight: nat, target: int, guess: int, halfWindow: nat,
                         result: Result<int, string>)
    requires NonDecreasing(time, topHeight) && topHeight >= 1 && guess <= topHeight
    requires var windowTop := Window(guess, halfWindow, topHeight).1;
      InReach(guess, halfWindow, topHeight) ==>
        result.Ok? && 1 <= result.value <= windowTop && LaterThan(time, target, result.value, windowTop)
        && (result.value == 1 || time(result.value) <= target)
    requires guess + halfWindow <= 0 ==> result == BelowTheChain(time, target, guess + halfWindow)
    ensures result.Ok? && IsLastAtOrBefore(time, target, result.value, topHeight)
       <==> Findable(time, topHeight, target, guess, halfWindow)
  {
    if InReach(guess, halfWindow, topHeight) {
      SearchIsExactIff(time, topHeight, target, result.value, Window(guess, halfWindow, topHeight).1);
    } else {
      assert Window(guess, halfWindow, topHeight).1 == 1;
      assert time(0) <= time(1);
      SearchIsExactIff(time, topHeight, target, 1, 1);
    }
  }

  // ---------------------------------------------------------------- when the height is found

  /**
   The tip is few enough intervals after the target for the search to come down on block `height`: no more than
   there are blocks from it to the tip, with `half` to spare, or part of one more without a previous height. In
   the last two cases the window is at the start of the chain.
   */
  predicate NearEnough(previousHeight: int, topHeight: nat, height: int, behind: real, intervalMs: real, half: nat) {
    if previousHeight == 0 then height <= 1 + half || behind < Intervals(topHeight - height + half + 1, intervalMs)
    else || behind <= Intervals(topHeight - height + half, intervalMs)
         || (height == 1 && behind <= Intervals(topHeight + half + 2, intervalMs))
         || (height <= 1 + half && Intervals(topHeight - 1, intervalMs) < behind <= Intervals(topHeight, intervalMs))
  }

  function Intervals(n: int, intervalMs: real): real { n as real * intervalMs }

  lemma MoreIntervals(m: int, n: int, intervalMs: real)
    requires m <= n && intervalMs > 0.0
    ensures Intervals(m, intervalMs) <= Intervals(n, intervalMs)
  {
    TimesPositive(n as real, m as real, intervalMs);
  }

  lemma WindowReachesIff(time: Times, topHeight: nat, target: int, windowTop: int, height: int)
    requires NonDecreasing(time, topHeight) && IsLastAtOrBefore(time, target, height, topHeight) && windowTop >= 1
    ensures windowTop >= topHeight || time(windowTop + 1) > target <==> height <= windowTop
  {
    if height > windowTop { assert time(windowTop + 1) <= time(height); }
  }

  /** The height is found from an estimate exactly when it is at most half a window above it. */
  lemma FindableIffInWindow(time: Times, topHeight: nat, target: int, guess: int, half: nat, height: int)
    requires NonDecreasing(time, topHeight) && IsLastAtOrBefore(time, target, height, topHeight) && guess <= topHeight
    ensures Findable(time, topHeight, target, guess, half)
       <==> height <= guess + half || (height == 1 && guess + half >= -2)
  {
    assert time(1) <= time(height);
    WindowReachesIff(time, topHeight, target, Window(guess, half, topHeight).1, height);
  }

  lemma TipGuessReachesIff(topHeight: nat, topTime: int, target: int, intervalMs: real, half: nat, height: int)
    requires intervalMs > 0.0 && target < topTime && 1 <= height <= topHeight
    ensures height <= GuessFromTip(topHeight, topTime, target, intervalMs) + half
       <==> height <= 1 + half || (topTime - target) as real < Intervals(topHeight - height + half + 1, intervalMs)
  {
    var x := (topTime - target) as real;
    FloorReachesIff(x, intervalMs, 0);
    FloorReachesIff(x, intervalMs, topHeight - height + half + 1);
  }

  /** `n` blocks above the tip's height by the estimate, or more, exactly when the target is that near. */
  lemma PreviousGuessReachesIff(previousHeight: int, topHeight: nat, topTime: int, target: int, intervalMs: real,
                                n: int)
    requires intervalMs > 0.0
    ensures GuessFromPrevious(previousHeight, topHeight, topTime, target, intervalMs) >= n
       <==> (topTime - target) as real <= Intervals(topHeight - n, intervalMs)
  {
    PreviousHeightCancelsOut(previousHeight, topHeight, topTime, target, intervalMs);
    FloorReachesIff((target - topTime) as real, intervalMs, n - topHeight);
    assert (n - topHeight) as real * intervalMs == -((topHeight - n) as real * intervalMs);
  }

  /** Without a previous height, or when the estimate from it comes out as 0. */
  lemma TipGuessFindsIff(time: Times, topHeight: nat, target: int, intervalMs: real, half: nat, height: int)
    requires intervalMs > 0.0 && NonDecreasing(time, topHeight) && IsLastAtOrBefore(time, target, height, topHeight)
    requires target < time(topHeight)
    ensures Findable(time, topHeight, target, GuessFromTip(topHeight, time(topHeight), target, intervalMs), half)
       <==> NearEnough(0, topHeight, height, (time(topHeight) - target) as real, intervalMs, half)
  {
    var guess := GuessFromTip(topHeight, time(topHeight), target, intervalMs);
    GuessAtMostTop(0, topHeight, time(topHeight), target, intervalMs);
    FindableIffInWindow(time, topHeight, target, guess, half, height);
    TipGuessReachesIff(topHeight, time(topHeight), target, intervalMs, half, height);
  }

  lemma PreviousGuessFindsIff(time: Times, topHeight: nat, target: int, previousHeight: int, intervalMs: real,
                              half: nat, height: int)
    requires intervalMs > 0.0 && NonDecreasing(time, topHeight) && IsLastAtOrBefore(time, target, height, topHeight)
    requires target < time(topHeight) && previousHeight != 0
    requires GuessFromPrevious(previousHeight, topHeight, time(topHeight), target, intervalMs) != 0
    ensures Findable(time, topHeight, target, Guess(previousHeight, topHeight, time(topHeight), target, intervalMs),
                     half)
       <==> NearEnough(previousHeight, topHeight, height, (time(topHeight) - target) as real, intervalMs, half)
  {
    var topTime := time(topHeight);
    GuessAtMostTop(previousHeight, topHeight, topTime, target, intervalMs);
    FindableIffInWindow(time, topHeight, target, Guess(previousHeight, topHeight, topTime, target, intervalMs), half,
                        height);
    PreviousGuessReachesIff(previousHeight, topHeight, topTime, target, intervalMs, height - half);
    PreviousGuessReachesIff(previousHeight, topHeight, topTime, target, intervalMs, -2 - half);
    PreviousGuessReachesIff(previousHeight, topHeight, topTime, target, intervalMs, 0);
    PreviousGuessReachesIff(previousHeight, topHeight, topTime, target, intervalMs, 1);
  }

  /** An estimate of 0 gives way to the one from the tip, which is then block 1. */
  lemma ZeroGuessFindsIff(previousHeight: int, topHeight: nat, height: int, topTime: int, target: int, intervalMs: real,
                          half: nat)
    requires intervalMs > 0.0 && target < topTime && 1 <= height <= topHeight && previousHeight != 0
    requires GuessFromPrevious(previousHeight, topHeight, topTime, target, intervalMs) == 0
    ensures NearEnough(0, topHeight, height, (topTime - target) as real, intervalMs, half)
       <==> NearEnough(previousHeight, topHeight, height, (topTime - target) as real, intervalMs, half)
  {
    PreviousGuessReachesIff(previousHeight, topHeight, topTime, target, intervalMs, height - half);
    PreviousGuessReachesIff(previousHeight, topHeight, topTime, target, intervalMs, 0);
    PreviousGuessReachesIff(previousHeight, topHeight, topTime, target, intervalMs, 1);
    if height > 1 + half { MoreIntervals(topHeight - height + half + 1, topHeight - 1, intervalMs); }
  }

  lemma FindableIffNearEnough(time: Times, topHeight: nat, target: int, previousHeight: int, intervalMs: real,
                              half: nat, height: int)
    requires intervalMs > 0.0 && NonDecreasing(time, topHeight) && IsLastAtOrBefore(time, target, height, topHeight)
    requires target < time(topHeight)
    ensures Findable(time, topHeight, target, Guess(previousHeight, topHeight, time(topHeight), target, intervalMs),
                     half)
       <==> NearEnough(previousHeight, topHeight, height, (time(topHeight) - target) as real, intervalMs, half)
  {
    TipGuessFindsIff(time, topHeight, target, intervalMs, half, height);
    if previousHeight != 0 {
      if GuessFromPrevious(previousHeight, topHeight, time(topHeight), target, intervalMs) == 0 {
        ZeroGuessFindsIff(previousHeight, topHeight, height, time(topHeight), target, intervalMs, half);
      } else {
        PreviousGuessFindsIff(time, topHeight, target, previousHeight, intervalMs, half, height);
      }
    }
  }

  /**
   No stretch of blocks up to the tip took longer than its number of intervals and `slack` more: blocks one interval
   apart, give or take a drift.
   */
  ghost predicate KeepsPace(time: Times, topHeight: nat, intervalMs: real, slack: nat) {
    forall h | 1 <= h <= topHeight ::
      (time(topHeight) - time(h)) as real <= Intervals(topHeight - h + slack, intervalMs)
  }

  lemma {:induction false} SomeHeightIsLast(time: Times, target: int, top: int) returns (height: int)
    requires top >= 1 && time(1) <= target
    ensures IsLastAtOrBefore(time, target, height, top)
    decreases top
  {
    if top == 1 || time(top) <= target {
      height := top;
    } else {
      height := SomeHeightIsLast(time, target, top - 1);
    }
  }

  lemma LastIsUnique(time: Times, target: int, g: int, h: int, top: int)
    requires IsLastAtOrBefore(time, target, g, top) && IsLastAtOrBefore(time, target, h, top)
    ensures g == h
  {}

  lemma PaceIsNearEnough(time: Times, topHeight: nat, target: int, previousHeight: int, intervalMs: real, half: nat,
                         height: int)
    requires intervalMs > 0.0 && IsLastAtOrBefore(time, target, height, topHeight)
    requires KeepsPace(time, topHeight, intervalMs, half)
    ensures NearEnough(previousHeight, topHeight, height, (time(topHeight) - target) as real, intervalMs, half)
  {
    var n := topHeight - height + half;
    assert (n + 1) as real * intervalMs == n as real * intervalMs + intervalMs;
  }

  /** What the operation promises of its result when every request is answered, in terms of the chain alone. */
  lemma FoundIffNearEnough(time: Times, topHeight: nat, target: int, previousHeight: int, intervalMs: real, half: nat,
                           result: Result<int, string>)
    requires intervalMs > 0.0 && NonDecreasing(time, topHeight) && target < time(topHeight)
    requires result.Ok? && IsLastAtOrBefore(time, target, result.value, topHeight)
        <==> Findable(time, topHeight, target, Guess(previousHeight, topHeight, time(topHeight), target, intervalMs),
                      half)
    ensures forall height | IsLastAtOrBefore(time, target, height, topHeight) ::
              result == Ok(height)
              <==> NearEnough(previousHeight, topHeight, height, (time(topHeight) - target) as real, intervalMs, half)
    ensures topHeight >= 1 && time(1) <= target && KeepsPace(time, topHeight, intervalMs, half) ==>
              result.Ok? && IsLastAtOrBefore(time, target, result.value, topHeight)
  {
    forall height | IsLastAtOrBefore(time, target, height, topHeight)
      ensures result == Ok(height)
         <==> NearEnough(previousHeight, topHeight, height, (time(topHeight) - target) as real, intervalMs, half)
    {
      FindableIffNearEnough(time, topHeight, target, previousHeight, intervalMs, half, height);
      if result.Ok? && IsLastAtOrBefore(time, target, result.value, topHeight) {
        LastIsUnique(time, target, result.value, height, topHeight);
      }
    }
    if topHeight >= 1 && time(1) <= target && KeepsPace(time, topHeight, intervalMs, half) {
      var height := SomeHeightIsLast(time, target, topHeight);
      PaceIsNearEnough(time, topHeight, target, previousHeight, intervalMs, half, height);
    }
  }

  /**
   `timestampToAeHeight` without a database. `target` is already at the precision in use. With every
   request answered, the last height at or before the target is returned exactly when the tip is near
   enough to it, which it always is when the chain kept pace but for half a window.
   */
  method TimestampToAeHeight(time: Times, topHeight: nat, target: int, previousHeight: int, intervalMs: real,
                             hourPrecision: bool, reachable: nat -> bool)
    returns (result: Result<int, string>)
    requires intervalMs > 0.0
    ensures target >= time(topHeight) ==> result == Ok(topHeight)
    ensures
      var guess := Guess(previousHeight, topHeight, time(topHeight), target, intervalMs);
      target < time(topHeight) && AllReachable(reachable) && NonDecreasing(time, topHeight) ==>
        (result.Ok? && IsLastAtOrBefore(time, target, result.value, topHeight)
         <==> Findable(time, topHeight, target, guess, HalfWindow(hourPrecision)))
    ensures
      target < time(topHeight) && AllReachable(reachable) && NonDecreasing(time, topHeight) ==>
        forall height | IsLastAtOrBefore(time, target, height, topHeight) ::
          result == Ok(height)
          <==> NearEnough(previousHeight, topHeight, height, (time(topHeight) - target) as real, intervalMs,
                          if hourPrecision then 40 else 240)
    ensures
      target < time(topHeight) && AllReachable(reachable) && NonDecreasing(time, topHeight) && time(1) <= target
      && topHeight >= 1 && KeepsPace(time, topHeight, intervalMs, if hourPrecision then 40 else 240) ==>
        result.Ok? && IsLastAtOrBefore(time, target, result.value, topHeight)
    ensures
      var guess := Guess(previousHeight, topHeight, time(topHeight), target, intervalMs);
      target < time(topHeight) && topHeight >= 1 && guess + HalfWindow(hourPrecision) < -2 ==> result.Err?
  {
    var topTime := time(topHeight);
    if target >= topTime {
      return Ok(topHeight);
    }
    var guess := 0;
    if previousHeight != 0 {
      guess := GuessFromPrevious(previousHeight, topHeight, topTime, target, intervalMs);
    }
    if guess == 0 {
      guess := GuessFromTip(topHeight, topTime, target, intervalMs);
    }
    result := SearchHeight(time, topHeight, target, guess, HalfWindow(hourPrecision), reachable);
    if AllReachable(reachable) && NonDecreasing(time, topHeight) && topHeight >= 1 {
      GuessAtMostTop(previousHeight, topHeight, topTime, target, intervalMs);
      FoundIffFindable(time, topHeight, target, guess, HalfWindow(hourPrecision), result);
      FoundIffNearEnough(time, topHeight, target, previousHeight, intervalMs, HalfWindow(hourPrecision), result);
    }
  }

  /**
   Without a previous height the window around the estimate is never empty. With one it is exactly when
   the estimate from the tip, which hangs on the median interval, lies half a window or more below height 1.
   */
  lemma GuessIsInReach(previousHeight: int, topHeight: nat, topTime: int, target: int, intervalMs: real,
                       halfWindow: nat)
    requires intervalMs > 0.0 && topHeight >= 1 && target < topTime
    ensures InReach(Guess(previousHeight, topHeight, topTime, target, intervalMs), halfWindow, topHeight)
       <==> previousHeight == 0 || topHeight + ((target - topTime) as real / intervalMs).Floor + halfWindow >= 1
            || topHeight + ((target - topTime) as real / intervalMs).Floor == 0
  {
    PreviousHeightCancelsOut(previousHeight, topHeight, topTime, target, intervalMs);
    NegativeQuotient((target - topTime) as real, intervalMs);
  }

  lemma NegativeQuotient(x: real, intervalMs: real)
    requires x < 0.0 && intervalMs > 0.0
    ensures (x / intervalMs).Floor < 0
  {
    assert x / intervalMs < 0.0;
  }

  /**
   So a target well inside the chain can be missed. On a million blocks three minutes apart, of which the
   recent ones came faster, the estimate for block 300000 is negative: with a previous height the search
   throws although every request is answered, without one it answers from the window at the chain's start.
   */
  lemma FastRecentBlocksMissTheChain()
    ensures var time: Times := h => 180000 * h;
      var topHeight, target, intervalMs := 1000000, 180000 * 300000, 100000.0;
      && NonDecreasing(time, topHeight) && IsLastAtOrBefore(time, target, 300000, topHeight)
      && Guess(5, topHeight, time(topHeight), target, intervalMs) == -260000
      && !Findable(time, topHeight, target, -260000, HalfWindow(false))
      && Guess(0, topHeight, time(topHeight), target, intervalMs) == 1
  {
    var x := (180000 * 300000 - 180000 * 1000000) as real;
    assert x / 100000.0 == -1260000.0;
    PreviousHeightCancelsOut(5, 1000000, 180000 * 1000000, 180000 * 300000, 100000.0);
  }
}
