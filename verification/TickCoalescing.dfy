/**
 Re-entrance of `tick` within one process: the code between two awaits is one atomic step, and ticks
 (cron or wake-up) arrive between any two steps.

 The log is history only. It records arrivals, the start and end of each release-and-claim pass, the
 pass cap being hit, and a drain cut short because `claimNextDue` threw.
 */
module TickCoalescing {

  const MAX_DRAIN_REENTRIES: nat := 100

  /** Which await the running drain is suspended in. */
  datatype Await = Nothing | ReleaseStuck | ClaimNextDue | Dispatch

  datatype Mark = Arrived(coalesced: bool) | PassStart | PassEnd | CapHit | ClaimFailed

  datatype Process = Process(running: bool, pending: bool, reentries: nat, awaiting: Await, log: seq<Mark>)

  datatype Action =
    | TickArrives
    | SweepSettles                   // releaseStuck returned, or threw and was caught
    | ClaimReturns(found: bool)
    | ClaimThrows
    | DispatchSettles                // dispatch, and the release and poisoning after it, settled

  predicate Enabled(s: Process, a: Action) {
    match a
    case TickArrives => true
    case SweepSettles => s.awaiting == ReleaseStuck
    case ClaimReturns(_) => s.awaiting == ClaimNextDue
    case ClaimThrows => s.awaiting == ClaimNextDue
    case DispatchSettles => s.awaiting == Dispatch
  }

  function Next(s: Process, a: Action): Process
    requires Enabled(s, a)
  {
    match a
    case TickArrives =>
      if s.running then s.(pending := true, log := s.log + [Arrived(true)])
      else Process(true, false, 0, ReleaseStuck, s.log + [Arrived(false)] + [PassStart])
    case SweepSettles => s.(awaiting := ClaimNextDue)
    case ClaimReturns(found) =>
      if found then s.(awaiting := Dispatch)
      else if s.pending && s.reentries + 1 >= MAX_DRAIN_REENTRIES then
        s.(running := false, reentries := s.reentries + 1, awaiting := Nothing, log := s.log + [PassEnd] + [CapHit])
      else if s.pending then
        s.(pending := false, reentries := s.reentries + 1, awaiting := ReleaseStuck,
           log := s.log + [PassEnd] + [PassStart])
      else
        s.(running := false, reentries := s.reentries + 1, awaiting := Nothing, log := s.log + [PassEnd])
    case ClaimThrows => s.(running := false, awaiting := Nothing, log := s.log + [ClaimFailed])
    case DispatchSettles => s.(awaiting := ClaimNextDue)
  }

  const Booted := Process(false, false, 0, Nothing, [])

  predicate Runs(s: Process, run: seq<Action>)
    decreases |run|
  {
    run == [] || (Enabled(s, run[0]) && Runs(Next(s, run[0]), run[1..]))
  }

  function Exec(s: Process, run: seq<Action>): Process
    requires Runs(s, run)
    decreases |run|
  {
    if run == [] then s else Exec(Next(s, run[0]), run[1..])
  }

  // ---------------------------------------------------------------- readings of the log

  /** Whether a pass is under way. */
  predicate InPass(log: seq<Mark>) {
    log != [] &&
    match log[|log| - 1]
    case PassStart => true
    case PassEnd => false
    case ClaimFailed => false
    case _ => InPass(log[..|log| - 1])
  }

  /** Passes that ended since the last tick that found nothing running. */
  function PassesThisDrain(log: seq<Mark>): nat {
    if log == [] then 0
    else
      var before := PassesThisDrain(log[..|log| - 1]);
      match log[|log| - 1]
      case Arrived(false) => 0
      case PassEnd => before + 1
      case _ => before
  }

  /** A tick arrived since the last pass started. */
  predicate Demanded(log: seq<Mark>) {
    log != [] &&
    match log[|log| - 1]
    case PassStart => false
    case Arrived(_) => true
    case _ => Demanded(log[..|log| - 1])
  }

  predicate MarkOk(before: seq<Mark>, m: Mark) {
    match m
    case PassStart => !InPass(before) && PassesThisDrain(before) < MAX_DRAIN_REENTRIES && Demanded(before)
    case PassEnd => InPass(before)
    case ClaimFailed => InPass(before)
    case CapHit => PassesThisDrain(before) == MAX_DRAIN_REENTRIES
    case Arrived(coalesced) => coalesced == InPass(before)
  }

  /** Passes never overlap, each has a tick of its own before it, and the cap is hit only after a hundred of them. */
  predicate LogOk(log: seq<Mark>) {
    log == [] || (LogOk(log[..|log| - 1]) && MarkOk(log[..|log| - 1], log[|log| - 1]))
  }

  datatype Fate = Queued | InProgress | Served | Abandoned

  function Advance(f: Fate, m: Mark): Fate {
    match m
    case PassStart => if f == Queued then InProgress else f
    case PassEnd => if f == InProgress then Served else f
    case CapHit => if f == Served then f else Abandoned
    case ClaimFailed => if f == Served then f else Abandoned
    case Arrived(_) => f
  }

  /** What became of the arrival at `i`: still queued, its pass under way, served by a whole pass, or abandoned. */
  function FateOf(log: seq<Mark>, i: nat): Fate
    requires i < |log|
  {
    if i == |log| - 1 then Queued else Advance(FateOf(log[..|log| - 1], i), log[|log| - 1])
  }

  predicate Arrival(log: seq<Mark>, i: nat) { i < |log| && log[i].Arrived? }

  /** A whole pass lies after position `i`: it starts at `j`, ends at `k`, and no other starts or ends between. */
  predicate WholePass(log: seq<Mark>, i: nat, j: nat, k: nat) {
    i < j < k < |log| && log[j] == PassStart && log[k] == PassEnd
    && forall m | j < m < k :: log[m].Arrived?
  }

  // ---------------------------------------------------------------- the invariant

  ghost predicate Inv(s: Process) {
    && LogOk(s.log)
    && (s.running <==> s.awaiting != Nothing)
    && (s.running <==> InPass(s.log))
    && (s.running ==> s.reentries == PassesThisDrain(s.log) && s.reentries < MAX_DRAIN_REENTRIES)
    && (s.running ==> (s.pending <==> Demanded(s.log)))
    && (forall i: nat | Arrival(s.log, i) ::
          && (FateOf(s.log, i) == Queued ==> s.running && s.pending)
          && (FateOf(s.log, i) == InProgress ==> s.running))
  }

  lemma Appended(log: seq<Mark>, m: Mark)
    ensures InPass(log + [m])
         == (match m case PassStart => true case PassEnd => false case ClaimFailed => false case _ => InPass(log))
    ensures PassesThisDrain(log + [m])
         == (match m case Arrived(false) => 0 case PassEnd => PassesThisDrain(log) + 1 case _ => PassesThisDrain(log))
    ensures Demanded(log + [m])
         == (match m case PassStart => false case Arrived(_) => true case _ => Demanded(log))
    ensures LogOk(log + [m]) <==> LogOk(log) && MarkOk(log, m)
    ensures forall i: nat | Arrival(log + [m], i) :: i == |log| || Arrival(log, i)
    ensures forall i: nat | i < |log| :: FateOf(log + [m], i) == Advance(FateOf(log, i), m)
    ensures FateOf(log + [m], |log|) == Queued
  {
    assert (log + [m])[..|log|] == log;
  }

  lemma ArrivalStep(s: Process)
    requires Inv(s)
    ensures Inv(Next(s, TickArrives))
  {
    if s.running {
      Appended(s.log, Arrived(true));
    } else {
      var mid := s.log + [Arrived(false)];
      Appended(s.log, Arrived(false));
      Appended(mid, PassStart);
      forall i: nat | Arrival(mid + [PassStart], i) ensures FateOf(mid + [PassStart], i) != Queued
      {
        assert FateOf(mid + [PassStart], i) == Advance(FateOf(mid, i), PassStart);
      }
    }
  }

  /** At the end of a pass a tick is still waiting only if it left its mark. */
  lemma PassEndFates(s: Process, i: nat)
    requires Inv(s) && s.running && Arrival(s.log + [PassEnd], i)
    ensures Arrival(s.log, i)
    ensures FateOf(s.log + [PassEnd], i) != InProgress && (FateOf(s.log + [PassEnd], i) == Queued ==> s.pending)
  {
    Appended(s.log, PassEnd);
  }

  /** The log that ends a pass and the mark that follows it. */
  lemma FollowedFates(s: Process, m: Mark, i: nat)
    requires Inv(s) && s.running && (m == CapHit || m == PassStart) && Arrival(s.log + [PassEnd] + [m], i)
    ensures FateOf(s.log + [PassEnd] + [m], i) != Queued
    ensures FateOf(s.log + [PassEnd] + [m], i) == InProgress ==> m == PassStart
  {
    Appended(s.log + [PassEnd], m);
    PassEndFates(s, i);
  }

  /** The end of a pass, whatever follows it. */
  lemma PassEndStep(s: Process)
    requires Inv(s) && s.awaiting == ClaimNextDue
    ensures Inv(Next(s, ClaimReturns(false)))
  {
    var mid := s.log + [PassEnd];
    Appended(s.log, PassEnd);
    if s.pending {
      var m := if s.reentries + 1 >= MAX_DRAIN_REENTRIES then CapHit else PassStart;
      Appended(mid, m);
      forall i: nat | Arrival(mid + [m], i)
        ensures FateOf(mid + [m], i) != Queued && (FateOf(mid + [m], i) == InProgress ==> m == PassStart)
      {
        FollowedFates(s, m, i);
      }
    } else {
      forall i: nat | Arrival(mid, i) ensures FateOf(mid, i) != InProgress && FateOf(mid, i) != Queued {
        PassEndFates(s, i);
      }
    }
  }

  lemma InvStep(s: Process, a: Action)
    requires Inv(s) && Enabled(s, a)
    ensures Inv(Next(s, a))
  {
    match a
    case TickArrives => ArrivalStep(s);
    case ClaimReturns(found) => if !found { PassEndStep(s); }
    case ClaimThrows => Appended(s.log, ClaimFailed);
    case SweepSettles =>
    case DispatchSettles =>
  }

  lemma {:induction false} InvOverRun(s: Process, run: seq<Action>)
    requires Inv(s) && Runs(s, run)
    ensures Inv(Exec(s, run))
    decreases |run|
  {
    if run != [] {
      InvStep(s, run[0]);
      InvOverRun(Next(s, run[0]), run[1..]);
    }
  }

  // ---------------------------------------------------------------- what the fates mean

  lemma {:induction false} LatestPass(log: seq<Mark>, i: nat) returns (j: nat)
    requires i < |log| && LogOk(log) && FateOf(log, i) == InProgress
    ensures i < j < |log| && log[j] == PassStart && (forall m | j < m < |log| :: log[m].Arrived?)
    ensures InPass(log)
  {
    var front, last := log[..|log| - 1], log[|log| - 1];
    if FateOf(front, i) == InProgress {
      j := LatestPass(front, i);
      assert last.Arrived?;
    } else {
      j := |log| - 1;
    }
  }

  lemma {:induction false} ServedMeansAWholePass(log: seq<Mark>, i: nat) returns (j: nat, k: nat)
    requires i < |log| && LogOk(log) && FateOf(log, i) == Served
    ensures WholePass(log, i, j, k)
  {
    var front := log[..|log| - 1];
    if FateOf(front, i) == Served {
      j, k := ServedMeansAWholePass(front, i);
    } else {
      j := LatestPass(front, i);
      k := |log| - 1;
    }
  }

  lemma {:induction false} AbandonedMeansCapOrFailure(log: seq<Mark>, i: nat) returns (j: nat)
    requires i < |log| && FateOf(log, i) == Abandoned
    ensures i < j < |log| && (log[j] == CapHit || log[j] == ClaimFailed)
  {
    var front := log[..|log| - 1];
    if FateOf(front, i) == Abandoned {
      j := AbandonedMeansCapOrFailure(front, i);
    } else {
      j := |log| - 1;
    }
  }

  /**
   No wake-up is lost: once the process is at rest, every tick that ever arrived was followed by a
   whole release-and-claim pass that started after it, unless after it the pass cap was hit or a
   claim query threw. Throughout, passes never overlap.
   */
  lemma EveryTickIsServed(run: seq<Action>, i: nat)
    requires Runs(Booted, run) && !Exec(Booted, run).running && Arrival(Exec(Booted, run).log, i)
    ensures var log := Exec(Booted, run).log;
      && LogOk(log)
      && ((exists j: nat, k: nat :: WholePass(log, i, j, k))
          || (exists j: nat :: i < j < |log| && (log[j] == CapHit || log[j] == ClaimFailed)))
  {
    InvOverRun(Booted, run);
    var log := Exec(Booted, run).log;
    if FateOf(log, i) == Served {
      var j, k := ServedMeansAWholePass(log, i);
    } else {
      var j := AbandonedMeansCapOrFailure(log, i);
    }
  }

  /** While a drain runs, its hundred-pass budget is not used up, and a new tick only leaves its mark. */
  lemma NoTwoDrains(run: seq<Action>)
    requires Runs(Booted, run)
    ensures var s := Exec(Booted, run);
      && (s.running <==> InPass(s.log))
      && (s.running ==> PassesThisDrain(s.log) < MAX_DRAIN_REENTRIES)
      && (s.running ==> Next(s, TickArrives) == s.(pending := true, log := s.log + [Arrived(true)]))
      && (!s.running ==> InPass(Next(s, TickArrives).log))
  {
    InvOverRun(Booted, run);
    var s := Exec(Booted, run);
    if !s.running { Appended(s.log + [Arrived(false)], PassStart); }
  }

  // ---------------------------------------------------------------- no pass without a tick

  function Arrivals(log: seq<Mark>): nat {
    if log == [] then 0 else Arrivals(log[..|log| - 1]) + if log[|log| - 1].Arrived? then 1 else 0
  }

  function Passes(log: seq<Mark>): nat {
    if log == [] then 0 else Passes(log[..|log| - 1]) + if log[|log| - 1] == PassStart then 1 else 0
  }

  lemma {:induction false} PassesHaveArrivals(log: seq<Mark>)
    requires LogOk(log)
    ensures Passes(log) + (if Demanded(log) then 1 else 0) <= Arrivals(log)
  {
    if log != [] { PassesHaveArrivals(log[..|log| - 1]); }
  }

  /** There are never more passes than ticks. */
  lemma NoMorePassesThanTicks(run: seq<Action>)
    requires Runs(Booted, run)
    ensures Passes(Exec(Booted, run).log) <= Arrivals(Exec(Booted, run).log)
  {
    InvOverRun(Booted, run);
    PassesHaveArrivals(Exec(Booted, run).log);
  }

  lemma {:induction false} DemandIsAnArrival(log: seq<Mark>) returns (i: nat)
    requires Demanded(log)
    ensures i < |log| && log[i].Arrived? && forall m | i < m < |log| :: log[m] != PassStart
  {
    if log[|log| - 1].Arrived? { i := |log| - 1; } else { i := DemandIsAnArrival(log[..|log| - 1]); }
  }

  lemma {:induction false} PassHasItsTick(log: seq<Mark>, j: nat) returns (i: nat)
    requires LogOk(log) && j < |log| && log[j] == PassStart
    ensures i < j && log[i].Arrived? && forall m | i < m < j :: log[m] != PassStart
  {
    if j == |log| - 1 {
      i := DemandIsAnArrival(log[..j]);
    } else {
      i := PassHasItsTick(log[..|log| - 1], j);
    }
  }

  /**
   When a pass finds nothing more to claim, the drain goes on exactly when a tick arrived since the pass started and
   the cap is not reached; a pass without one is the last.
   */
  lemma DrainGoesOnIff(run: seq<Action>)
    requires Runs(Booted, run) && Exec(Booted, run).awaiting == ClaimNextDue
    ensures var s := Exec(Booted, run); var s' := Next(s, ClaimReturns(false));
      && (s'.running <==> Demanded(s.log) && PassesThisDrain(s.log) + 1 < 100)
      && s'.log == s.log + [PassEnd] + (if s'.running then [PassStart] else if Demanded(s.log) then [CapHit] else [])
  {
    InvOverRun(Booted, run);
  }
}
