/**
 The fixed-window limiter shared by `RateLimitGuard` (10 a minute) and the socket handshake limiter
 (a configured cap). The table is pruned only when it has grown past 1000 keys.
 */
module RateLimit {
  import opened Wrappers

  const WINDOW_MS: nat := 60000
  const PRUNE_ABOVE: nat := 1000
  const MAX_REQUESTS_PER_MINUTE: nat := 10

  datatype Entry = Entry(count: nat, resetTime: nat)

  type Table = map<string, Entry>

  datatype Call = Call(key: string, now: nat)

  /** The entry of `key` if it has not expired by `now`. */
  function Live(t: Table, key: string, now: nat): Option<Entry> {
    if key in t && now <= t[key].resetTime then Some(t[key]) else None
  }

  // ---------------------------------------------------------------- one key

  predicate Admits(live: Option<Entry>, cap: nat) { live.None? || live.value.count < cap }

  /** The entry a call leaves behind. */
  function Charged(live: Option<Entry>, now: nat, cap: nat): Entry {
    match live
    case None => Entry(1, now + WINDOW_MS)
    case Some(e) => if e.count < cap then Entry(e.count + 1, e.resetTime) else e
  }

  // ---------------------------------------------------------------- the limiter and its unpruned twin

  function Prune(t: Table, now: nat): Table { map key | key in t && now <= t[key].resetTime :: t[key] }

  function PruneIfLarge(t: Table, now: nat): Table { if |t| > PRUNE_ABOVE then Prune(t, now) else t }

  function Charge(t: Table, call: Call, cap: nat): Table {
    t[call.key := Charged(Live(t, call.key, call.now), call.now, cap)]
  }

  /** Decisions of the limiter as written: prune when large, then decide and charge. */
  function Decisions(t: Table, calls: seq<Call>, cap: nat): (out: seq<bool>)
    ensures |out| == |calls|
    decreases |calls|
  {
    if calls == [] then []
    else
      var pruned := PruneIfLarge(t, calls[0].now);
      [Admits(Live(pruned, calls[0].key, calls[0].now), cap)]
      + Decisions(Charge(pruned, calls[0], cap), calls[1..], cap)
  }

  /** The limiter for a single client: its call times, one entry, no table. */
  function Alone(entry: Option<Entry>, times: seq<nat>, cap: nat): (out: seq<bool>)
    ensures |out| == |times|
    decreases |times|
  {
    if times == [] then []
    else
      var live := Unexpired(entry, times[0]);
      [Admits(live, cap)] + Alone(Some(Charged(live, times[0], cap)), times[1..], cap)
  }

  function Unexpired(entry: Option<Entry>, now: nat): Option<Entry> {
    if entry.Some? && now <= entry.value.resetTime then entry else None
  }

  function TimesOf(calls: seq<Call>, key: string): seq<nat> {
    if calls == [] then []
    else if calls[0].key == key then [calls[0].now] + TimesOf(calls[1..], key)
    else TimesOf(calls[1..], key)
  }

  /** The decisions made on the calls of `key`. */
  function DecisionsOf(calls: seq<Call>, out: seq<bool>, key: string): seq<bool>
    requires |calls| == |out|
  {
    if calls == [] then []
    else if calls[0].key == key then [out[0]] + DecisionsOf(calls[1..], out[1..], key)
    else DecisionsOf(calls[1..], out[1..], key)
  }

  predicate ClockRuns(calls: seq<Call>) { forall i, j | 0 <= i < j < |calls| :: calls[i].now <= calls[j].now }

  predicate Rising(times: seq<nat>) { forall i, j | 0 <= i < j < |times| :: times[i] <= times[j] }

  /**
   Pruning and the other clients are invisible: over any calls on a clock that never runs backwards,
   each client sees exactly the decisions of a limiter that serves it alone and never prunes.
   */
  lemma {:induction false} EachClientAlone(t: Table, entry: Option<Entry>, calls: seq<Call>, key: string, cap: nat)
    requires ClockRuns(calls)
    requires calls != [] ==> Live(t, key, calls[0].now) == Unexpired(entry, calls[0].now)
    ensures DecisionsOf(calls, Decisions(t, calls, cap), key) == Alone(entry, TimesOf(calls, key), cap)
    decreases |calls|
  {
    if calls != [] {
      var call, rest := calls[0], calls[1..];
      var pruned := PruneIfLarge(t, call.now);
      assert Live(pruned, key, call.now) == Live(t, key, call.now);
      var entry' := if call.key == key then Some(Charged(Unexpired(entry, call.now), call.now, cap)) else entry;
      assert rest != [] ==> rest[0] == calls[1];
      assert Live(pruned, key, call.now) == Unexpired(entry, call.now);
      assert rest != [] && call.key != key ==> Live(pruned, key, rest[0].now) == Unexpired(entry, rest[0].now);
      EachClientAlone(Charge(pruned, call, cap), entry', rest, key, cap);
    }
  }

  // ---------------------------------------------------------------- how much a client gets through

  /** The entry after `times`, for a client that starts with none. */
  function EntryAfter(times: seq<nat>, cap: nat): Option<Entry> {
    if times == [] then None
    else
      var now := times[|times| - 1];
      Some(Charged(Unexpired(EntryAfter(times[..|times| - 1], cap), now), now, cap))
  }

  predicate LastAdmitted(times: seq<nat>, cap: nat)
    requires times != []
  {
    Admits(Unexpired(EntryAfter(times[..|times| - 1], cap), times[|times| - 1]), cap)
  }

  /** How many of the calls in [lo, hi] were admitted. */
  function AdmittedIn(times: seq<nat>, cap: nat, lo: int, hi: int): nat {
    if times == [] then 0
    else
      var front := AdmittedIn(times[..|times| - 1], cap, lo, hi);
      if LastAdmitted(times, cap) && lo <= times[|times| - 1] <= hi then front + 1 else front
  }

  lemma OneMore(front: seq<nat>, now: nat, cap: nat, lo: int, hi: int)
    ensures var live := Unexpired(EntryAfter(front, cap), now);
            && EntryAfter(front + [now], cap) == Some(Charged(live, now, cap))
            && AdmittedIn(front + [now], cap, lo, hi)
               == AdmittedIn(front, cap, lo, hi) + (if Admits(live, cap) && lo <= now <= hi then 1 else 0)
  {
    assert (front + [now])[..|front|] == front;
  }

  /** How many of the decisions on the times in [lo, hi] let the call through. */
  function Passed(times: seq<nat>, out: seq<bool>, lo: int, hi: int): nat
    requires |times| == |out|
  {
    if times == [] then 0
    else
      var rest := Passed(times[1..], out[1..], lo, hi);
      if out[0] && lo <= times[0] <= hi then 1 + rest else rest
  }

  /** Counting the decisions of `Alone` from the front gives what `AdmittedIn` counts from the back. */
  lemma {:induction false} AloneFromTheBack(entry: Option<Entry>, times: seq<nat>, before: seq<nat>, cap: nat,
                                            lo: int, hi: int)
    requires entry == EntryAfter(before, cap)
    ensures AdmittedIn(before + times, cap, lo, hi)
         == AdmittedIn(before, cap, lo, hi) + Passed(times, Alone(entry, times, cap), lo, hi)
    decreases |times|
  {
    if times == [] {
      assert before + times == before;
    } else {
      OneMore(before, times[0], cap, lo, hi);
      AloneFromTheBack(Some(Charged(Unexpired(entry, times[0]), times[0], cap)), times[1..], before + [times[0]], cap,
                       lo, hi);
      assert before + [times[0]] + times[1..] == before + times;
    }
  }

  /** What a window lets through: the cap, but always the call that opens it. */
  function Allowance(cap: nat): (n: nat)
    ensures n >= 1 && n >= cap && (cap >= 1 ==> n == cap)
  {
    if cap == 0 then 1 else cap
  }

  /** When the window now open began. */
  function WindowStart(e: Entry): int { e.resetTime - WINDOW_MS }

  /**
   What one client has got through in a closed minute so far. Its open window either began in the
   minute, after a full window whose first call fell before the minute, or began before it.
   */
  predicate MinuteBudget(times: seq<nat>, cap: nat, lo: nat, got: nat) {
    && got <= 2 * Allowance(cap) - 1
    && (times == [] || times[|times| - 1] < lo ==> got == 0)
    && (times != [] && times[|times| - 1] <= lo + WINDOW_MS ==>
          var e := EntryAfter(times, cap).value;
          && 1 <= e.count <= Allowance(cap)
          && WindowStart(e) <= times[|times| - 1]
          && got <= if WindowStart(e) < lo then e.count - 1 else Allowance(cap) - 1 + e.count)
  }

  /** Any closed 60-second interval lets a client through at most 2 * cap - 1 times, with a cap of 0 acting as 1. */
  lemma {:induction false} AnyMinuteAdmitsUnderTwiceTheCap(times: seq<nat>, cap: nat, lo: nat)
    requires Rising(times)
    ensures AdmittedIn(times, cap, lo, lo + 60000) <= 2 * Allowance(cap) - 1
    ensures MinuteBudget(times, cap, lo, AdmittedIn(times, cap, lo, lo + WINDOW_MS))
    decreases |times|
  {
    if times != [] {
      AnyMinuteAdmitsUnderTwiceTheCap(times[..|times| - 1], cap, lo);
    }
  }

  /** Within one window at most the allowance is admitted, and the count says how much. */
  lemma {:induction false} EachWindowAdmitsAtMostTheCap(times: seq<nat>, cap: nat)
    requires Rising(times) && times != []
    ensures EntryAfter(times, cap).Some?
    ensures var e := EntryAfter(times, cap).value;
            && AdmittedIn(times, cap, WindowStart(e), e.resetTime) == e.count <= Allowance(cap)
            && WindowStart(e) in times
    decreases |times|
  {
    var n := |times| - 1;
    var front, now := times[..n], times[n];
    var e := EntryAfter(times, cap).value;
    if front == [] {
      assert AdmittedIn(front, cap, WindowStart(e), e.resetTime) == 0;
    } else {
      var e0 := EntryAfter(front, cap).value;
      EachWindowAdmitsAtMostTheCap(front, cap);
      if now > e0.resetTime {
        NoneAdmittedLater(front, cap, now, e.resetTime);
      }
    }
  }

  /**
   A call is refused exactly when a window opened by an earlier call is still open and has let its
   allowance through.
   */
  lemma RefusedIffWindowIsFull(times: seq<nat>, now: nat, cap: nat)
    requires Rising(times + [now])
    ensures !LastAdmitted(times + [now], cap)
       <==> times != [] && var e := EntryAfter(times, cap).value;
            now <= e.resetTime && AdmittedIn(times, cap, WindowStart(e), e.resetTime) == Allowance(cap)
  {
    assert (times + [now])[..|times|] == times;
    if times != [] {
      assert forall i, j | 0 <= i < j < |times| :: (times + [now])[i] <= (times + [now])[j];
      EachWindowAdmitsAtMostTheCap(times, cap);
    }
  }

  lemma {:induction false} NoneAdmittedLater(times: seq<nat>, cap: nat, lo: int, hi: int)
    requires forall i | 0 <= i < |times| :: times[i] < lo
    ensures AdmittedIn(times, cap, lo, hi) == 0
  {
    if times != [] { NoneAdmittedLater(times[..|times| - 1], cap, lo, hi); }
  }

  lemma {:induction false} TimesRise(calls: seq<Call>, key: string)
    requires ClockRuns(calls)
    ensures Rising(TimesOf(calls, key))
    ensures forall i | 0 <= i < |TimesOf(calls, key)| :: TimesOf(calls, key)[i] >= calls[0].now
  {
    if calls != [] {
      assert |calls| > 1 ==> calls[1..][0] == calls[1];
      TimesRise(calls[1..], key);
    }
  }

  /** The limiter as written, starting empty, over any calls of any clients: at most 2 * cap - 1 in any minute. */
  lemma NoClientExceedsTheBudget(calls: seq<Call>, key: string, cap: nat, lo: nat)
    requires ClockRuns(calls)
    ensures |DecisionsOf(calls, Decisions(map[], calls, cap), key)| == |TimesOf(calls, key)|
    ensures Passed(TimesOf(calls, key), DecisionsOf(calls, Decisions(map[], calls, cap), key), lo, lo + 60000)
         <= 2 * Allowance(cap) - 1
  {
    var times := TimesOf(calls, key);
    EachClientAlone(map[], None, calls, key, cap);
    TimesRise(calls, key);
    AloneFromTheBack(None, times, [], cap, lo, lo + WINDOW_MS);
    assert [] + times == times;
    AnyMinuteAdmitsUnderTwiceTheCap(times, cap, lo);
  }

  // ---------------------------------------------------------------- the bound is reached

  function BurstTime(cap: nat, k: nat): nat { if k == 0 then 0 else if k < cap then WINDOW_MS else WINDOW_MS + 1 }

  /** One call opens a window; the rest of it is spent on its last millisecond, the next window right after. */
  function Burst(cap: nat, k: nat): seq<nat> {
    if k == 0 then [0] else Burst(cap, k - 1) + [BurstTime(cap, k)]
  }

  function BurstEntry(cap: nat, k: nat): Entry
    requires cap >= 1
  {
    if k < cap then Entry(k + 1, WINDOW_MS) else Entry(k - (cap - 1), 2 * WINDOW_MS + 1)
  }

  lemma {:induction false} BurstRises(cap: nat, k: nat)
    ensures |Burst(cap, k)| == k + 1 && Rising(Burst(cap, k))
    ensures forall i | 0 <= i <= k :: Burst(cap, k)[i] == BurstTime(cap, i)
  {
    if k > 0 { BurstRises(cap, k - 1); }
  }

  /** After `k` more calls the entry is as expected, and all `k` were admitted. */
  predicate BurstGoesThrough(times: seq<nat>, cap: nat, k: nat, lo: int, hi: int)
    requires cap >= 1
  {
    EntryAfter(times, cap) == Some(BurstEntry(cap, k)) && AdmittedIn(times, cap, lo, hi) == k
  }

  lemma NextOfBurst(cap: nat, k: nat)
    requires 1 <= k <= 2 * cap - 1
    ensures var live := Unexpired(Some(BurstEntry(cap, k - 1)), BurstTime(cap, k));
            Admits(live, cap) && Charged(live, BurstTime(cap, k), cap) == BurstEntry(cap, k)
  {}

  lemma BurstGoesOn(front: seq<nat>, cap: nat, k: nat, lo: int, hi: int)
    requires 1 <= k <= 2 * cap - 1 && lo == 1 && hi == 1 + WINDOW_MS
    requires BurstGoesThrough(front, cap, k - 1, lo, hi)
    ensures BurstGoesThrough(front + [BurstTime(cap, k)], cap, k, lo, hi)
  {
    NextOfBurst(cap, k);
    OneMore(front, BurstTime(cap, k), cap, lo, hi);
  }

  lemma BurstOpens(cap: nat, lo: int, hi: int)
    requires 1 <= cap && lo == 1
    ensures BurstGoesThrough([0], cap, 0, lo, hi)
  {
    OneMore([], 0, cap, lo, hi);
    assert [] + [0] == [0];
  }

  lemma {:induction false} BurstStep(cap: nat, k: nat, lo: int, hi: int)
    requires 1 <= cap && k <= 2 * cap - 1 && lo == 1 && hi == 1 + WINDOW_MS
    ensures BurstGoesThrough(Burst(cap, k), cap, k, lo, hi)
    decreases k
  {
    if k == 0 {
      BurstOpens(cap, lo, hi);
    } else {
      BurstStep(cap, k - 1, lo, hi);
      BurstGoesOn(Burst(cap, k - 1), cap, k, lo, hi);
    }
  }

  /** A limiter with a cap of 0 is one with a cap of 1. */
  lemma {:induction false} CapZeroActsAsOne(times: seq<nat>, lo: int, hi: int)
    ensures EntryAfter(times, 0) == EntryAfter(times, 1)
    ensures times != [] ==> EntryAfter(times, 0).value.count == 1
    ensures AdmittedIn(times, 0, lo, hi) == AdmittedIn(times, 1, lo, hi)
  {
    if times != [] { CapZeroActsAsOne(times[..|times| - 1], lo, hi); }
  }

  /** The bound is exact for every cap. */
  lemma BoundIsReached(cap: nat)
    ensures exists times :: Rising(times) && AdmittedIn(times, cap, 1, 1 + WINDOW_MS) == 2 * Allowance(cap) - 1
  {
    var n := Allowance(cap);
    var times := Burst(n, 2 * n - 1);
    BurstStep(n, 2 * n - 1, 1, 1 + WINDOW_MS);
    BurstRises(n, 2 * n - 1);
    if cap == 0 { CapZeroActsAsOne(times, 1, 1 + WINDOW_MS); }
    assert AdmittedIn(times, cap, 1, 1 + WINDOW_MS) == 2 * n - 1;
  }

  // ---------------------------------------------------------------- retryAfter

  /** `Math.ceil(ms / 1000)`. */
  function CeilSeconds(ms: nat): (s: nat)
    ensures 1000 * s >= ms && (s == 0 || 1000 * (s - 1) < ms)
  {
    (ms + 999) / 1000
  }

  /**
   A client that waits out the `retryAfter` it was told is let in exactly when the window did not have
   a whole number of seconds left: expiry is strict, so otherwise the retry lands on its last millisecond.
   */
  lemma RetryAfterSufficesIff(t: Table, key: string, now: nat, cap: nat)
    requires Live(t, key, now).Some? && !Admits(Live(t, key, now), cap)
    ensures var left := t[key].resetTime - now;
            Admits(Live(t, key, now + 1000 * CeilSeconds(left)), cap) <==> left % 1000 != 0
  {}

  // ---------------------------------------------------------------- the guard

  datatype Decision = Admit | Deny(retryAfter: nat)

  class RateLimiter {
    const cap: nat
    var rateLimitMap: Table

    /** `RateLimitGuard`. */
    constructor Guard()
      ensures cap == 10 && rateLimitMap == map[]
    {
      cap := MAX_REQUESTS_PER_MINUTE;
      rateLimitMap := map[];
    }

    /** The gateway's handshake limiter. */
    constructor Handshakes(cap: nat)
      ensures this.cap == cap && rateLimitMap == map[]
    {
      this.cap := cap;
      rateLimitMap := map[];
    }

    method Cleanup(now: nat)
      modifies this
      ensures rateLimitMap == Prune(old(rateLimitMap), now)
    {
      var keys := rateLimitMap.Keys;
      while keys != {}
        invariant keys <= rateLimitMap.Keys <= old(rateLimitMap).Keys
        invariant forall key | key in rateLimitMap :: rateLimitMap[key] == old(rateLimitMap)[key]
        invariant forall key | key in old(rateLimitMap) && key !in keys ::
                    key in rateLimitMap <==> now <= old(rateLimitMap)[key].resetTime
        decreases |keys|
      {
        var key :| key in keys;
        if now > rateLimitMap[key].resetTime {
          rateLimitMap := rateLimitMap - {key};
        }
        keys := keys - {key};
      }
    }

    method CanActivate(clientId: string, now: nat) returns (decision: Decision)
      modifies this
      ensures var pruned := PruneIfLarge(old(rateLimitMap), now);
              && (decision.Admit? <==> Admits(Live(pruned, clientId, now), cap))
              && rateLimitMap == Charge(pruned, Call(clientId, now), cap)
              && (decision.Deny? ==> decision.retryAfter == CeilSeconds(pruned[clientId].resetTime - now))
    {
      if |rateLimitMap| > PRUNE_ABOVE {
        Cleanup(now);
      }
      if clientId !in rateLimitMap || now > rateLimitMap[clientId].resetTime {
        rateLimitMap := rateLimitMap[clientId := Entry(1, now + WINDOW_MS)];
        return Admit;
      }
      var entry := rateLimitMap[clientId];
      if entry.count >= cap {
        assert rateLimitMap[clientId := entry] == rateLimitMap;
        return Deny((entry.resetTime - now + 999) / 1000);
      }
      rateLimitMap := rateLimitMap[clientId := entry.(count := entry.count + 1)];
      return Admit;
    }
  }

  /** The class's decisions over a whole sequence of calls are `Decisions`. */
  method Serve(limiter: RateLimiter, calls: seq<Call>) returns (out: seq<bool>)
    modifies limiter
    ensures out == Decisions(old(limiter.rateLimitMap), calls, limiter.cap)
  {
    out := [];
    ghost var start := limiter.rateLimitMap;
    for i := 0 to |calls|
      invariant |out| == i
      invariant out + Decisions(limiter.rateLimitMap, calls[i..], limiter.cap) == Decisions(start, calls, limiter.cap)
    {
      var decision := limiter.CanActivate(calls[i].key, calls[i].now);
      assert calls[i..][1..] == calls[i + 1..];
      assert calls[i..][0] == calls[i];
      out := out + [decision.Admit?];
    }
    assert calls[|calls|..] == [];
  }
}
