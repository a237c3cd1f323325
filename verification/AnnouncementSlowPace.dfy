/**
 The pace that `AnnouncementPacing` asks for is exact: whenever the limits leave the claim less room, a
 run within the limits ends with two replicas dispatching one row. It is the slowest run there is: every
 batch takes all it may, every heartbeat that may fail does, and the completion is about to land.
 */
module AnnouncementSlowPace {
  import opened Wrappers
  import opened AnnouncementTable
  import opened AnnouncementProtocol
  import opened AnnouncementLease
  import opened AnnouncementPacing

  /** Row 7 has been in the hands of replica 0 since time 0, and nobody else has done anything. */
  ghost function Lagging(n: nat, now: nat, stage: Stage, missed: nat): Paced {
    Paced(System(map[7 := Row(0, Some(0), Some(1), 0, None, None)],
                 seq(n, i => if i == 0 then Dispatching(7, 1) else Idle), now, {1}, [Claimed(0, 7, 1)]),
          seq(n, i => if i == 0 then Pace(stage, now, missed) else AtRest))
  }

  lemma {:induction false} PacedThen(l: Limits, p: Paced, run: seq<PacedAction>, x: PacedAction)
    requires PacedRuns(l, p, run) && CanStep(l, PacedExec(l, p, run), x)
    ensures PacedRuns(l, p, run + [x]) && PacedExec(l, p, run + [x]) == Step(l, PacedExec(l, p, run), x)
    decreases |run|
  {
    if run == [] {
      assert PacedRuns(l, Step(l, p, x), []);
      assert (run + [x])[1..] == [];
    } else {
      PacedThen(l, Step(l, p, run[0]), run[1..], x);
      assert (run + [x])[1..] == run[1..] + [x];
    }
  }

  /** The run is within the limits and leads to replica 0 at `stage`, entered at time `now`. */
  ghost predicate Reaches(l: Limits, n: nat, run: seq<PacedAction>, now: nat, stage: Stage, missed: nat) {
    PacedRuns(l, Start(n), run) && PacedExec(l, Start(n), run) == Lagging(n, now, stage, missed)
  }

  /** Replica 0 has claimed row 7 and resolved its recipients, all at time 0. */
  lemma Opening(l: Limits, n: nat, batches: nat) returns (run: seq<PacedAction>)
    requires n >= 2 && batches > 0
    ensures Reaches(l, n, run, 0, Sending(0, batches), 0)
  {
    run := [];
    PacedThen(l, Start(n), run, Protocol(Insert(7, 0)));
    run := run + [Protocol(Insert(7, 0))];
    PacedThen(l, Start(n), run, Protocol(ClaimNext(0, 7, 1, {})));
    run := run + [Protocol(ClaimNext(0, 7, 1, {}))];
    assert PacedExec(l, Start(n), run).s == Lagging(n, 0, Sending(0, batches), 0).s;
    PacedThen(l, Start(n), run, Resolved(0, batches));
    run := run + [Resolved(0, batches)];
    assert PacedExec(l, Start(n), run).paces == Lagging(n, 0, Sending(0, batches), 0).paces;
  }

  /** The only clock that binds is replica 0's. */
  lemma WaitOut(l: Limits, n: nat, now: nat, stage: Stage, missed: nat)
    requires n >= 2
    ensures CanStep(l, Lagging(n, now, stage, missed), Protocol(Wait(StageLimit(l, stage))))
  {}

  /** A batch takes all the time it may. */
  lemma SlowBatch(l: Limits, n: nat, run: seq<PacedAction>, now: nat, i: nat, batches: nat, missed: nat, later: nat,
                  next: Stage)
    returns (longer: seq<PacedAction>)
    requires n >= 2 && i < batches && Reaches(l, n, run, now, Sending(i, batches), missed)
    requires later == now + l.batchMs && next == AfterBatch(i, batches)
    ensures Reaches(l, n, longer, later, next, missed)
  {
    WaitOut(l, n, now, Sending(i, batches), missed);
    PacedThen(l, Start(n), run, Protocol(Wait(l.batchMs)));
    longer := run + [Protocol(Wait(l.batchMs))];
    PacedThen(l, Start(n), longer, BatchEnds(0));
    longer := longer + [BatchEnds(0)];
    assert PacedExec(l, Start(n), longer).paces == Lagging(n, later, next, missed).paces;
  }

  /** A heartbeat takes all the time it may and then fails. */
  lemma SlowMiss(l: Limits, n: nat, run: seq<PacedAction>, now: nat, i: nat, batches: nat, missed: nat, later: nat,
                 next: nat)
    returns (longer: seq<PacedAction>)
    requires n >= 2 && missed < l.misses && Reaches(l, n, run, now, Beating(i, batches), missed)
    requires later == now + l.statementMs && next == i + 1
    ensures Reaches(l, n, longer, later, Sending(next, batches), missed + 1)
  {
    WaitOut(l, n, now, Beating(i, batches), missed);
    PacedThen(l, Start(n), run, Protocol(Wait(l.statementMs)));
    longer := run + [Protocol(Wait(l.statementMs))];
    PacedThen(l, Start(n), longer, Protocol(BeatError(0, false)));
    longer := longer + [Protocol(BeatError(0, false))];
    assert PacedExec(l, Start(n), longer).paces == Lagging(n, later, Sending(next, batches), missed + 1).paces;
  }

  /** All five batches of a cycle; what is due after them depends on whether more follow. */
  lemma SlowFive(l: Limits, n: nat, run: seq<PacedAction>, now: nat, first: nat, batches: nat, missed: nat, later: nat)
    returns (longer: seq<PacedAction>)
    requires n >= 2 && first % 5 == 0 && first + 5 <= batches
             && Reaches(l, n, run, now, Sending(first, batches), missed)
    requires later == now + 5 * l.batchMs
    ensures Reaches(l, n, longer, later, AfterBatch(first + 4, batches), missed)
  {
    var i1, i2, i3, i4 := first + 1, first + 2, first + 3, first + 4;
    var t1 := now + l.batchMs;
    var t2 := t1 + l.batchMs;
    var t3 := t2 + l.batchMs;
    var t4 := t3 + l.batchMs;
    longer := SlowBatch(l, n, run, now, first, batches, missed, t1, Sending(i1, batches));
    longer := SlowBatch(l, n, longer, t1, i1, batches, missed, t2, Sending(i2, batches));
    longer := SlowBatch(l, n, longer, t2, i2, batches, missed, t3, Sending(i3, batches));
    longer := SlowBatch(l, n, longer, t3, i3, batches, missed, t4, Sending(i4, batches));
    longer := SlowBatch(l, n, longer, t4, i4, batches, missed, later, AfterBatch(i4, batches));
  }

  /** Five batches and the failing heartbeat after them. */
  lemma SlowCycle(l: Limits, n: nat, run: seq<PacedAction>, now: nat, first: nat, batches: nat, missed: nat,
                  later: nat, next: nat)
    returns (longer: seq<PacedAction>)
    requires n >= 2 && missed < l.misses && first % 5 == 0 && Reaches(l, n, run, now, Sending(first, batches), missed)
    requires later == now + Cycle(l) && next == first + 5 && next < batches
    ensures Reaches(l, n, longer, later, Sending(next, batches), missed + 1)
  {
    var last, sent := first + 4, now + 5 * l.batchMs;
    longer := SlowFive(l, n, run, now, first, batches, missed, sent);
    assert AfterBatch(last, batches) == Beating(last, batches);
    longer := SlowMiss(l, n, longer, sent, last, batches, missed, later, next);
  }

  /** `k` cycles pass, each ending in a heartbeat that fails. */
  lemma {:induction false} SlowCycles(l: Limits, n: nat, k: nat, batches: nat, now: nat, first: nat)
    returns (run: seq<PacedAction>)
    requires n >= 2 && k <= l.misses && batches == 5 * l.misses + 5 && now == Cycles(l, k) && first == 5 * k
    ensures Reaches(l, n, run, now, Sending(first, batches), k)
  {
    if k == 0 {
      run := Opening(l, n, batches);
    } else {
      var before, i := Cycles(l, k - 1), first - 5;
      run := SlowCycles(l, n, k - 1, batches, before, i);
      run := SlowCycle(l, n, run, before, i, batches, k - 1, now, first);
    }
  }

  /** Just before the completion lands, the claim is as old as the limits allow. */
  lemma SlowestRun(l: Limits, n: nat) returns (run: seq<PacedAction>)
    requires n >= 2
    ensures PacedRuns(l, Start(n), run)
    ensures PacedExec(l, Start(n), run).s == Lagging(n, Cycles(l, l.misses + 1), Completing, l.misses).s
  {
    var batches := 5 * l.misses + 5;
    var now, first := Cycles(l, l.misses), 5 * l.misses;
    run := SlowCycles(l, n, l.misses, batches, now, first);
    var sent := now + 5 * l.batchMs;
    run := SlowFive(l, n, run, now, first, batches, l.misses, sent);
    assert AfterBatch(first + 4, batches) == Completing;
    WaitOut(l, n, sent, Completing, l.misses);
    PacedThen(l, Start(n), run, Protocol(Wait(l.statementMs)));
    run := run + [Protocol(Wait(l.statementMs))];
  }

  /** A paced run goes on with a takeover of the row by replica 1. */
  lemma PacedTakeover(l: Limits, n: nat, run: seq<PacedAction>, id: nat, uuid: Token, locked: set<nat>)
    returns (longer: seq<PacedAction>)
    requires PacedRuns(l, Start(n), run)
             && |PacedExec(l, Start(n), run).paces| == |PacedExec(l, Start(n), run).s.replicas|
    requires Runs(PacedExec(l, Start(n), run).s, Takeover(1, id, uuid, locked))
    ensures PacedRuns(l, Start(n), longer)
    ensures PacedExec(l, Start(n), longer).s == Exec(PacedExec(l, Start(n), run).s, Takeover(1, id, uuid, locked))
  {
    TakeoverSteps(PacedExec(l, Start(n), run).s, 1, id, uuid, locked);
    PacedThen(l, Start(n), run, Protocol(Sweep(1)));
    longer := run + [Protocol(Sweep(1))];
    PacedThen(l, Start(n), longer, Protocol(ClaimNext(1, id, uuid, locked)));
    longer := longer + [Protocol(ClaimNext(1, id, uuid, locked))];
  }

  /** When the limits leave the claim less room, replica 1 can overtake at the end of the slowest run. */
  lemma LaggardIsOvertaken(n: nat, now: nat, s: System)
    requires n >= 2 && now > STALE_CLAIM_MS && Inv(s) && s == Lagging(n, now, Completing, 0).s
    ensures var run := Takeover(1, 7, 2, s.rows.Keys - {7}); Runs(s, run) && !Exclusive(Exec(s, run))
  {
    assert s.replicas[0] == Dispatching(7, 1) && s.replicas[1] == Idle;
    StaleOwnerIsOvertaken(s, 0, 1, 2);
  }

  lemma TooSlowBreaksExclusion(l: Limits, n: nat) returns (run: seq<PacedAction>)
    requires n >= 2 && !FastEnough(l)
    ensures PacedRuns(l, Start(n), run) && !Exclusive(PacedExec(l, Start(n), run).s)
  {
    run := SlowestRun(l, n);
    var s := PacedExec(l, Start(n), run).s;
    InitInv(n);
    PacedInv(l, Start(n), run);
    FastEnoughCycles(l);
    LaggardIsOvertaken(n, Cycles(l, l.misses + 1), s);
    run := PacedTakeover(l, n, run, 7, 2, s.rows.Keys - {7});
  }

  /** A paced run keeps the protocol's invariant and the number of replicas. */
  lemma {:induction false} PacedInv(l: Limits, p: Paced, run: seq<PacedAction>)
    requires Inv(p.s) && |p.paces| == |p.s.replicas| && PacedRuns(l, p, run)
    ensures var end := PacedExec(l, p, run);
      Inv(end.s) && |end.paces| == |end.s.replicas| == |p.s.replicas|
    decreases |run|
  {
    if run != [] {
      if run[0].Protocol? { InvStep(p.s, run[0].a); }
      PacedInv(l, Step(l, p, run[0]), run[1..]);
    }
  }

  /**
   Exactly when a pace keeps dispatch exclusive: with two replicas or more, every run within the limits
   does if and only if the cycles that the allowed failures can string together fit the stale threshold.
   */
  lemma ExclusiveIffFastEnough(l: Limits, n: nat)
    ensures (forall run: seq<PacedAction> | PacedRuns(l, Start(n), run) :: Exclusive(PacedExec(l, Start(n), run).s))
       <==> n < 2 || FastEnough(l)
  {
    if n >= 2 && !FastEnough(l) {
      var run := TooSlowBreaksExclusion(l, n);
    } else {
      forall run: seq<PacedAction> | PacedRuns(l, Start(n), run) ensures Exclusive(PacedExec(l, Start(n), run).s) {
        if n < 2 {
          InitInv(n);
          PacedInv(l, Start(n), run);
        } else {
          FastEnoughIsExclusive(l, n, run);
        }
      }
    }
  }
}
