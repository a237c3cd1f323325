/**
 The pace of the dispatch loop and what it buys: with limits on how long a batch and a statement take,
 the claims of all dispatching replicas stay fresh, up to and including the moment of completion.

 Each dispatching replica carries its place in the loop. Time passes only as far as every replica's
 current stage allows. A statement takes effect and is answered at one moment; what its answer takes to
 travel counts towards the stage after it.
 */
module AnnouncementPacing {
  import opened AnnouncementTable
  import opened AnnouncementProtocol
  import opened AnnouncementLease
  import AnnouncementDispatch

  /** How long a batch may take (the first together with resolving the recipients), how long a statement
      may take to land, and how many heartbeats in a row may fail. */
  datatype Limits = Limits(batchMs: nat, statementMs: nat, misses: nat)

  /** Five batches and the statement after them. */
  function Cycle(l: Limits): nat { 5 * l.batchMs + l.statementMs }

  function Cycles(l: Limits, k: nat): nat { if k == 0 then 0 else Cycles(l, k - 1) + Cycle(l) }

  lemma {:induction false} CyclesMultiply(l: Limits, k: nat)
    ensures Cycles(l, k) == k * Cycle(l)
  {
    if k > 0 { CyclesMultiply(l, k - 1); }
  }

  lemma {:induction false} MoreCyclesTakeLonger(l: Limits, j: nat, k: nat)
    requires j <= k
    ensures Cycles(l, j) <= Cycles(l, k)
    decreases k
  {
    if j < k { MoreCyclesTakeLonger(l, j, k - 1); }
  }

  /** The claim outlives as many cycles as heartbeats may fail in a row, and one more. */
  predicate FastEnough(l: Limits) { (l.misses + 1) * Cycle(l) <= STALE_CLAIM_MS }

  lemma FastEnoughCycles(l: Limits)
    ensures FastEnough(l) <==> Cycles(l, l.misses + 1) <= STALE_CLAIM_MS
  {
    CyclesMultiply(l, l.misses + 1);
  }

  /** The time of `k` batches. */
  function Batches(l: Limits, k: nat): nat { if k == 0 then 0 else Batches(l, k - 1) + l.batchMs }

  lemma AtMostFiveBatches(l: Limits, k: nat)
    requires k <= 5
    ensures Batches(l, k) <= Batches(l, 5) == 5 * l.batchMs
  {
    assert Batches(l, 0) == 0 && Batches(l, 1) == l.batchMs && Batches(l, 2) == 2 * l.batchMs;
    assert Batches(l, 3) == 3 * l.batchMs && Batches(l, 4) == 4 * l.batchMs && Batches(l, 5) == 5 * l.batchMs;
  }

  // ---------------------------------------------------------------- the paced system

  datatype Stage =
    | Resolving
    | Sending(batch: nat, batches: nat)
    | Beating(batch: nat, batches: nat)
    | Completing

  function StageLimit(l: Limits, stage: Stage): nat {
    if stage.Resolving? || stage.Sending? then l.batchMs else l.statementMs
  }

  /** What follows batch `i`: a heartbeat if one is due, otherwise the next batch or the completion. */
  function AfterBatch(i: nat, batches: nat): Stage {
    if AnnouncementDispatch.BeatAfter(i, batches) then Beating(i, batches)
    else if i + 1 < batches then Sending(i + 1, batches)
    else Completing
  }

  datatype Pace = Pace(stage: Stage, since: int, missed: nat)

  datatype Paced = Paced(s: System, paces: seq<Pace>)

  datatype PacedAction =
    | Protocol(a: Action)
    | Resolved(r: nat, batches: nat)
    | BatchEnds(r: nat)

  /** No dispatching replica has overstayed its stage at time `now`. */
  ghost predicate OnTime(l: Limits, p: Paced, now: int) {
    |p.paces| == |p.s.replicas|
    && forall r: nat | Dispatches(p.s, r) :: now <= p.paces[r].since + StageLimit(l, p.paces[r].stage)
  }

  /** Where in the loop an action of the protocol may come. */
  ghost predicate InStage(l: Limits, p: Paced, a: Action)
    requires |p.paces| == |p.s.replicas| && Enabled(p.s, a)
  {
    match a
    case Wait(ms) => OnTime(l, p, p.s.now + ms)
    case Beat(r) => p.paces[r].stage.Beating?
    case BeatError(r, _) => p.paces[r].stage.Beating? && p.paces[r].missed < l.misses
    case Complete(r, _) => p.paces[r].stage.Completing?
    case CompleteError(r, _, _) => p.paces[r].stage.Completing?
    case Throw(r) => p.paces[r].stage.Resolving?
    case _ => true
  }

  ghost predicate CanStep(l: Limits, p: Paced, x: PacedAction) {
    |p.paces| == |p.s.replicas| &&
    match x
    case Protocol(a) => Enabled(p.s, a) && InStage(l, p, a)
    case Resolved(r, _) => Dispatches(p.s, r) && p.paces[r].stage.Resolving?
    case BatchEnds(r) => Dispatches(p.s, r) && p.paces[r].stage.Sending?
  }

  ghost function PacesAfter(l: Limits, p: Paced, a: Action): seq<Pace>
    requires |p.paces| == |p.s.replicas| && Enabled(p.s, a) && InStage(l, p, a)
  {
    match a
    case ClaimNext(r, _, _, _) => p.paces[r := Pace(Resolving, p.s.now, 0)]
    case Beat(r) => p.paces[r := Pace(Sending(p.paces[r].stage.batch + 1, p.paces[r].stage.batches), p.s.now, 0)]
    case BeatError(r, _) =>
      p.paces[r := Pace(Sending(p.paces[r].stage.batch + 1, p.paces[r].stage.batches), p.s.now, p.paces[r].missed + 1)]
    case _ => p.paces
  }

  ghost function Step(l: Limits, p: Paced, x: PacedAction): Paced
    requires CanStep(l, p, x)
  {
    match x
    case Protocol(a) => Paced(Next(p.s, a), PacesAfter(l, p, a))
    case Resolved(r, batches) =>
      p.(paces := p.paces[r := if batches == 0 then p.paces[r].(stage := Completing, since := p.s.now)
                               else p.paces[r].(stage := Sending(0, batches))])
    case BatchEnds(r) =>
      p.(paces := p.paces[r := p.paces[r].(stage := AfterBatch(p.paces[r].stage.batch, p.paces[r].stage.batches),
                                           since := p.s.now)])
  }

  ghost predicate PacedRuns(l: Limits, p: Paced, run: seq<PacedAction>)
    decreases |run|
  {
    run == [] || (CanStep(l, p, run[0]) && PacedRuns(l, Step(l, p, run[0]), run[1..]))
  }

  ghost function PacedExec(l: Limits, p: Paced, run: seq<PacedAction>): Paced
    requires PacedRuns(l, p, run)
    decreases |run|
  {
    if run == [] then p else PacedExec(l, Step(l, p, run[0]), run[1..])
  }

  const AtRest := Pace(Resolving, 0, 0)

  function Start(n: nat): Paced { Paced(Init(n), seq(n, _ => AtRest)) }

  // ---------------------------------------------------------------- fast enough means timely

  /** How many batches of the running cycle are behind. */
  function BatchesDone(stage: Stage): nat {
    match stage
    case Resolving => 0
    case Sending(i, _) => i % 5
    case Beating(_, _) => 5
    case Completing => 5
  }

  predicate StageOk(stage: Stage) {
    (stage.Sending? ==> stage.batch < stage.batches)
    && (stage.Beating? ==> AnnouncementDispatch.BeatAfter(stage.batch, stage.batches))
  }

  /** Replica `r` entered its stage within the cycles its failed heartbeats and the batches behind it account for. */
  predicate OnPace(l: Limits, p: Paced, r: nat)
    requires r < |p.paces| && Dispatches(p.s, r)
  {
    var id, token, pace := p.s.replicas[r].id, p.s.replicas[r].token, p.paces[r];
    && StageOk(pace.stage) && pace.missed <= l.misses
    && (Owns(p.s.rows, id, token) && p.s.rows[id].claimedAt.Some? ==>
          pace.since <= p.s.rows[id].claimedAt.value + Cycles(l, pace.missed) + Batches(l, BatchesDone(pace.stage)))
  }

  ghost predicate AllOnPace(l: Limits, p: Paced) {
    OnTime(l, p, p.s.now) && forall r: nat | Dispatches(p.s, r) :: OnPace(l, p, r)
  }

  /** Within a stage no claim is older than the cycles begun. */
  lemma OnPaceIsFresh(l: Limits, p: Paced, r: nat)
    requires AllOnPace(l, p) && Dispatches(p.s, r)
    requires Owns(p.s.rows, p.s.replicas[r].id, p.s.replicas[r].token) && p.s.rows[p.s.replicas[r].id].claimedAt.Some?
    ensures p.s.now <= p.s.rows[p.s.replicas[r].id].claimedAt.value + Cycles(l, p.paces[r].missed + 1)
  {
    assert OnPace(l, p, r);
    var done := BatchesDone(p.paces[r].stage);
    AtMostFiveBatches(l, done);
    if done < 5 { AtMostFiveBatches(l, done + 1); }
  }

  lemma FastEnoughIsTimely(l: Limits, p: Paced)
    requires FastEnough(l) && AllOnPace(l, p)
    ensures Timely(p.s)
  {
    FastEnoughCycles(l);
    forall r: nat | Dispatches(p.s, r) && Owns(p.s.rows, p.s.replicas[r].id, p.s.replicas[r].token)
                    && p.s.rows[p.s.replicas[r].id].claimedAt.Some?
      ensures p.s.now <= p.s.rows[p.s.replicas[r].id].claimedAt.value + STALE_CLAIM_MS
    {
      OnPaceIsFresh(l, p, r);
      assert OnPace(l, p, r);
      MoreCyclesTakeLonger(l, p.paces[r].missed + 1, l.misses + 1);
    }
  }

  // ---------------------------------------------------------------- every step keeps the pace

  predicate OwnStep(a: Action, r: nat) { (a.ClaimNext? || a.Beat? || a.BeatError?) && a.r == r }

  /** What others do, and what it does besides claiming and beating, leaves a dispatching owner's claim as it is. */
  lemma ClaimUntouched(s: System, a: Action, r: nat)
    requires Inv(s) && Enabled(s, a) && Dispatches(Next(s, a), r) && !OwnStep(a, r)
    requires Owns(Next(s, a).rows, Next(s, a).replicas[r].id, Next(s, a).replicas[r].token)
    ensures Dispatches(s, r) && s.replicas[r] == Next(s, a).replicas[r]
    ensures Owns(s.rows, s.replicas[r].id, s.replicas[r].token)
    ensures Next(s, a).rows[s.replicas[r].id].claimedAt == s.rows[s.replicas[r].id].claimedAt
  {
    HolderOrigin(s, a, r);
    TokenOrigin(s, a, s.replicas[r].id, s.replicas[r].token);
    assert Holder(s, r);
    if (a.Beat? || a.BeatError?) && Dispatches(s, a.r) { assert Holder(s, a.r); }
  }

  lemma StaysInPhase(s: System, a: Action, r: nat)
    requires Enabled(s, a) && Dispatches(Next(s, a), r) && !(a.ClaimNext? && a.r == r)
    ensures Dispatches(s, r) && s.replicas[r] == Next(s, a).replicas[r]
  {}

  lemma OthersKeepPace(l: Limits, p: Paced, a: Action, r: nat)
    requires Inv(p.s) && AllOnPace(l, p) && CanStep(l, p, Protocol(a))
    requires Dispatches(Next(p.s, a), r) && !OwnStep(a, r)
    ensures OnPace(l, Step(l, p, Protocol(a)), r)
  {
    StaysInPhase(p.s, a, r);
    assert OnPace(l, p, r);
    assert PacesAfter(l, p, a)[r] == p.paces[r];
    var id, token := p.s.replicas[r].id, p.s.replicas[r].token;
    if Owns(Next(p.s, a).rows, id, token) { ClaimUntouched(p.s, a, r); }
  }

  lemma ClaimStartsPace(l: Limits, p: Paced, a: Action)
    requires Inv(p.s) && AllOnPace(l, p) && CanStep(l, p, Protocol(a)) && a.ClaimNext?
    ensures OnPace(l, Step(l, p, Protocol(a)), a.r)
  {}

  lemma BeatRenewsPace(l: Limits, p: Paced, a: Action)
    requires Inv(p.s) && AllOnPace(l, p) && CanStep(l, p, Protocol(a)) && a.Beat? && Dispatches(Next(p.s, a), a.r)
    ensures OnPace(l, Step(l, p, Protocol(a)), a.r)
  {
    assert OnPace(l, p, a.r);
  }

  lemma MissCostsACycle(l: Limits, p: Paced, a: Action)
    requires Inv(p.s) && AllOnPace(l, p) && CanStep(l, p, Protocol(a)) && a.BeatError?
    ensures OnPace(l, Step(l, p, Protocol(a)), a.r)
  {
    var r := a.r;
    var id, token := p.s.replicas[r].id, p.s.replicas[r].token;
    assert OnPace(l, p, r);
    if Owns(p.s.rows, id, token) && p.s.rows[id].claimedAt.Some? { OnPaceIsFresh(l, p, r); }
    assert Next(p.s, a).rows == p.s.rows || Next(p.s, a).rows == HeartbeatClaim(p.s.rows, id, token, p.s.now);
  }

  lemma ResolvedKeepsPace(l: Limits, p: Paced, x: PacedAction)
    requires AllOnPace(l, p) && CanStep(l, p, x) && x.Resolved?
    ensures OnPace(l, Step(l, p, x), x.r)
  {
    assert OnPace(l, p, x.r);
    AtMostFiveBatches(l, 0);
  }

  lemma BatchKeepsPace(l: Limits, p: Paced, x: PacedAction)
    requires AllOnPace(l, p) && CanStep(l, p, x) && x.BatchEnds?
    ensures OnPace(l, Step(l, p, x), x.r)
  {
    assert OnPace(l, p, x.r);
    AtMostFiveBatches(l, BatchesDone(p.paces[x.r].stage) + 1);
  }

  lemma ActionKeepsPace(l: Limits, p: Paced, a: Action, r: nat)
    requires Inv(p.s) && AllOnPace(l, p) && CanStep(l, p, Protocol(a)) && Dispatches(Next(p.s, a), r)
    ensures OnPace(l, Step(l, p, Protocol(a)), r)
  {
    if !OwnStep(a, r) { OthersKeepPace(l, p, a, r); }
    else if a.ClaimNext? { ClaimStartsPace(l, p, a); }
    else if a.Beat? { BeatRenewsPace(l, p, a); }
    else { MissCostsACycle(l, p, a); }
  }

  lemma ActionKeepsTime(l: Limits, p: Paced, a: Action)
    requires AllOnPace(l, p) && CanStep(l, p, Protocol(a))
    ensures OnTime(l, Step(l, p, Protocol(a)), Next(p.s, a).now)
  {
    forall r: nat | Dispatches(Next(p.s, a), r)
      ensures Next(p.s, a).now <= PacesAfter(l, p, a)[r].since + StageLimit(l, PacesAfter(l, p, a)[r].stage)
    {
      if !(a.ClaimNext? && a.r == r) { StaysInPhase(p.s, a, r); }
    }
  }

  lemma StepKeepsPace(l: Limits, p: Paced, x: PacedAction)
    requires Inv(p.s) && AllOnPace(l, p) && CanStep(l, p, x)
    ensures AllOnPace(l, Step(l, p, x))
  {
    var p' := Step(l, p, x);
    if x.Protocol? {
      ActionKeepsTime(l, p, x.a);
      forall r: nat | Dispatches(p'.s, r) ensures OnPace(l, p', r) { ActionKeepsPace(l, p, x.a, r); }
    } else {
      forall r: nat | Dispatches(p'.s, r) ensures OnPace(l, p', r) {
        assert OnPace(l, p, r);
        if r == x.r { if x.Resolved? { ResolvedKeepsPace(l, p, x); } else { BatchKeepsPace(l, p, x); } }
      }
      assert OnPace(l, p', x.r);
    }
  }

  // ---------------------------------------------------------------- whole runs

  /** The steps of the protocol in a paced run. */
  function Actions(run: seq<PacedAction>): seq<Action> {
    if run == [] then []
    else if run[0].Protocol? then [run[0].a] + Actions(run[1..])
    else Actions(run[1..])
  }

  /** A fast enough pace keeps every claim timely at every moment of the run. */
  lemma {:induction false} PacedRunIsTimely(l: Limits, p: Paced, run: seq<PacedAction>)
    requires FastEnough(l) && Inv(p.s) && AllOnPace(l, p) && PacedRuns(l, p, run)
    ensures Runs(p.s, Actions(run)) && Exec(p.s, Actions(run)) == PacedExec(l, p, run).s
    ensures TimelyThroughout(p.s, Actions(run))
    decreases |run|
  {
    FastEnoughIsTimely(l, p);
    if run != [] {
      var p' := Step(l, p, run[0]);
      StepKeepsPace(l, p, run[0]);
      if run[0].Protocol? { InvStep(p.s, run[0].a); }
      PacedRunIsTimely(l, p', run[1..]);
      assert run[0].Protocol? ==> Actions(run)[1..] == Actions(run[1..]);
    }
  }

  /** With a fast enough pace, no two replicas ever dispatch the same row. */
  lemma FastEnoughIsExclusive(l: Limits, n: nat, run: seq<PacedAction>)
    requires FastEnough(l) && PacedRuns(l, Start(n), run)
    ensures Exclusive(PacedExec(l, Start(n), run).s)
  {
    InitInv(n);
    PacedRunIsTimely(l, Start(n), run);
    ExclusionOverRun(Init(n), Actions(run));
  }

  // ---------------------------------------------------------------- the loop itself

  /** How long batch `i` may take, with the heartbeat after it if one is due. */
  function StepMs(l: Limits, i: nat, batches: nat): nat {
    l.batchMs + if AnnouncementDispatch.BeatAfter(i, batches) then l.statementMs else 0
  }

  /** `clock(i)` is the moment batch `i` and its heartbeat are over; each comes in time after the one before. */
  ghost predicate WithinLimits(l: Limits, claimedAt: int, clock: nat -> int, batches: nat) {
    && (batches > 0 ==> clock(0) <= claimedAt + StepMs(l, 0, batches))
    && forall i: nat | 0 < i < batches :: clock(i) <= clock(i - 1) + StepMs(l, i, batches)
  }

  /**
   The value the fan-out loop keeps in claimed_at, at the end of each batch: as old as the heartbeats that
   failed since and the batches of the running cycle account for.
   */
  lemma {:induction false} FanOutAges(l: Limits, claimedAt: int, clock: nat -> int,
                                      beatFault: nat -> AnnouncementDispatch.Fault, batches: nat, i: nat)
    requires i < batches && WithinLimits(l, claimedAt, clock, batches)
    ensures clock(i) <= AnnouncementDispatch.RefreshedAt(claimedAt, clock, beatFault, batches, i)
                        + AgeAt(l, AnnouncementDispatch.MissedBefore(beatFault, batches, i), i, batches)
  {
    if i > 0 {
      var j := i - 1;
      FanOutAges(l, claimedAt, clock, beatFault, batches, j);
      AgeGrows(l, AnnouncementDispatch.MissedBefore(beatFault, batches, j), j, i, batches);
      AgeRestarts(l, j, i, batches);
    }
  }

  /** The age the limits allow the claim at the end of batch `i`, after `missed` failed heartbeats in a row. */
  function AgeAt(l: Limits, missed: nat, i: nat, batches: nat): nat {
    Cycles(l, missed) + Batches(l, i % 5) + StepMs(l, i, batches)
  }

  lemma AgeGrows(l: Limits, missed: nat, j: nat, i: nat, batches: nat)
    requires i == j + 1 < batches
    ensures AgeAt(l, missed, j, batches) + StepMs(l, i, batches)
         == AgeAt(l, if AnnouncementDispatch.BeatAfter(j, batches) then missed + 1 else missed, i, batches)
  {
    AtMostFiveBatches(l, 4);
    assert Batches(l, j % 5 + 1) == Batches(l, j % 5) + l.batchMs;
    assert Batches(l, 5) == Batches(l, 4) + l.batchMs;
  }

  /** After a heartbeat that reached the row the count starts anew. */
  lemma AgeRestarts(l: Limits, j: nat, i: nat, batches: nat)
    requires i == j + 1 < batches
    ensures AnnouncementDispatch.BeatAfter(j, batches) ==> AgeAt(l, 0, i, batches) == StepMs(l, i, batches)
  {
    AtMostFiveBatches(l, 0);
  }

  /** The loop of a dispatch within the limits completes, at `done`, before the claim it has kept up goes stale. */
  lemma FanOutStaysFresh(l: Limits, claimedAt: int, clock: nat -> int, beatFault: nat -> AnnouncementDispatch.Fault,
                         batches: nat, done: int)
    requires FastEnough(l) && WithinLimits(l, claimedAt, clock, batches)
    requires AnnouncementDispatch.MissedBefore(beatFault, batches, batches) <= l.misses
    requires done <= (if batches == 0 then claimedAt + l.batchMs else clock(batches - 1)) + l.statementMs
    ensures done <= AnnouncementDispatch.RefreshedAt(claimedAt, clock, beatFault, batches, batches) + STALE_CLAIM_MS
  {
    var missed := AnnouncementDispatch.MissedBefore(beatFault, batches, batches);
    FastEnoughCycles(l);
    MoreCyclesTakeLonger(l, missed + 1, l.misses + 1);
    if batches > 0 {
      var last := batches - 1;
      FanOutAges(l, claimedAt, clock, beatFault, batches, last);
      AtMostFiveBatches(l, last % 5 + 1);
      assert Batches(l, last % 5 + 1) == Batches(l, last % 5) + l.batchMs;
    }
  }
}
