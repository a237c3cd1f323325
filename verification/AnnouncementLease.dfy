/**
 Mutual exclusion of dispatch, and the two places where the protocol promises less than it seems to:
 without timely heartbeats two replicas dispatch the same row, and a poisoning can overwrite the
 counters of a row that a peer has completed.
 */
module AnnouncementLease {
  import opened Wrappers
  import opened AnnouncementTable
  import opened AnnouncementProtocol

  predicate Dispatches(s: System, p: nat) { p < |s.replicas| && s.replicas[p].Dispatching? }

  /** No replica that is dispatching under a live claim has let the claim grow older than the threshold. */
  ghost predicate Timely(s: System) {
    forall p: nat | Dispatches(s, p) && Owns(s.rows, s.replicas[p].id, s.replicas[p].token)
                    && s.rows[s.replicas[p].id].claimedAt.Some? ::
      s.now <= s.rows[s.replicas[p].id].claimedAt.value + STALE_CLAIM_MS
  }

  ghost predicate TimelyThroughout(s: System, run: seq<Action>)
    requires Runs(s, run)
    decreases |run|
  {
    Timely(s) && (run == [] || TimelyThroughout(Next(s, run[0]), run[1..]))
  }

  /** At most one replica dispatches each row. */
  ghost predicate Exclusive(s: System) {
    forall p: nat, q: nat | Dispatches(s, p) && Dispatches(s, q) && p != q :: s.replicas[p].id != s.replicas[q].id
  }

  /** Whoever dispatches a row owns it, unless the row has been processed under it. */
  ghost predicate DispatchersOwn(s: System) {
    forall p: nat | Dispatches(s, p) ::
      && s.replicas[p].id in s.rows
      && (Owns(s.rows, s.replicas[p].id, s.replicas[p].token) || s.rows[s.replicas[p].id].processedAt.Some?)
  }

  lemma ExclusionStep(s: System, a: Action)
    requires Inv(s) && Enabled(s, a) && Exclusive(s) && DispatchersOwn(s)
    requires a.Sweep? ==> Timely(s)
    ensures Exclusive(Next(s, a)) && DispatchersOwn(Next(s, a))
  {
    var s' := Next(s, a);
    forall p: nat | Dispatches(s', p)
      ensures s'.replicas[p].id in s'.rows
      ensures Owns(s'.rows, s'.replicas[p].id, s'.replicas[p].token) || s'.rows[s'.replicas[p].id].processedAt.Some?
    {
      DispatcherStep(s, a, p);
    }
    forall p: nat, q: nat | Dispatches(s', p) && Dispatches(s', q) && p != q
      ensures s'.replicas[p].id != s'.replicas[q].id
    {
      ExclusiveStays(s, a, p, q);
    }
  }

  /** What a replica dispatches after a step it dispatched before, unless it has just claimed it. */
  lemma DispatchOrigin(s: System, a: Action, p: nat)
    requires Enabled(s, a) && Dispatches(Next(s, a), p)
    ensures (a.ClaimNext? && a.r == p) || (Dispatches(s, p) && s.replicas[p] == Next(s, a).replicas[p])
    ensures a.ClaimNext? && a.r == p ==> Next(s, a).replicas[p].id == a.row && Claimable(s.rows[a.row], s.now)
  {
  }

  lemma ExclusiveStays(s: System, a: Action, p: nat, q: nat)
    requires TableOk(s.rows) && Enabled(s, a) && Exclusive(s) && DispatchersOwn(s)
    requires Dispatches(Next(s, a), p) && Dispatches(Next(s, a), q) && p != q
    ensures Next(s, a).replicas[p].id != Next(s, a).replicas[q].id
  {
    DispatchOrigin(s, a, p);
    DispatchOrigin(s, a, q);
    if a.ClaimNext? && Dispatches(s, p) { ClaimedWasFree(s, a, p); }
    if a.ClaimNext? && Dispatches(s, q) { ClaimedWasFree(s, a, q); }
  }

  /** A row that can be claimed is dispatched by nobody. */
  lemma ClaimedWasFree(s: System, a: Action, p: nat)
    requires TableOk(s.rows) && Enabled(s, a) && DispatchersOwn(s) && a.ClaimNext? && Dispatches(s, p)
    ensures s.replicas[p].id != a.row
  {
    assert RowOk(s.rows[a.row]);
  }

  lemma DispatcherStep(s: System, a: Action, p: nat)
    requires Inv(s) && Enabled(s, a) && DispatchersOwn(s) && Dispatches(Next(s, a), p)
    requires a.Sweep? ==> Timely(s)
    ensures var s' := Next(s, a); var id := s'.replicas[p].id;
      id in s'.rows && (Owns(s'.rows, id, s'.replicas[p].token) || s'.rows[id].processedAt.Some?)
  {
    HolderOrigin(s, a, p);
    if Holder(s, p) {
      var id := s.replicas[p].id;
      assert Dispatches(s, p);
      RowsOnlyAdvance(s, a, id);
      assert RowOk(s.rows[id]);
    }
  }

  lemma {:induction false} ExclusionOverRun(s: System, run: seq<Action>)
    requires Inv(s) && Runs(s, run) && Exclusive(s) && DispatchersOwn(s) && TimelyThroughout(s, run)
    ensures Exclusive(Exec(s, run))
    decreases |run|
  {
    if run != [] {
      InvStep(s, run[0]);
      ExclusionStep(s, run[0]);
      ExclusionOverRun(Next(s, run[0]), run[1..]);
    }
  }

  /**
   If no dispatching owner ever lets its claim grow older than the threshold, then at every moment
   of every run at most one replica dispatches a given row. A crashed replica forgets its claim.
   */
  lemma AtMostOneDispatcher(n: nat, run: seq<Action>, p: nat, q: nat)
    requires Runs(Init(n), run) && TimelyThroughout(Init(n), run)
    requires Dispatches(Exec(Init(n), run), p) && Dispatches(Exec(Init(n), run), q)
    requires Exec(Init(n), run).replicas[p].id == Exec(Init(n), run).replicas[q].id
    ensures p == q
  {
    InitInv(n);
    ExclusionOverRun(Init(n), run);
  }

  /** The condition is exact for a sweep: it leaves every dispatcher its claim if and only if all are timely. */
  lemma SweepSparesDispatchersIffTimely(s: System, r: nat)
    requires Inv(s) && DispatchersOwn(s) && Enabled(s, Sweep(r))
    ensures DispatchersOwn(Next(s, Sweep(r))) <==> Timely(s)
  {
    var s' := Next(s, Sweep(r));
    if Timely(s) {
      forall p: nat | Dispatches(s', p)
        ensures s'.replicas[p].id in s'.rows
        ensures Owns(s'.rows, s'.replicas[p].id, s'.replicas[p].token) || s'.rows[s'.replicas[p].id].processedAt.Some?
      {
        DispatcherStep(s, Sweep(r), p);
      }
    } else {
      var p: nat :| Dispatches(s, p) && Owns(s.rows, s.replicas[p].id, s.replicas[p].token)
                    && s.rows[s.replicas[p].id].claimedAt.Some?
                    && s.now > s.rows[s.replicas[p].id].claimedAt.value + STALE_CLAIM_MS;
      assert RowOk(s.rows[s.replicas[p].id]);
      assert Dispatches(s', p);
    }
  }

  /** There is always an unused token to draw. */
  lemma {:induction false} FreshToken(issued: set<Token>) returns (t: Token)
    ensures forall u | u in issued :: u < t
    decreases issued
  {
    if u: Token :| u in issued {
      var rest := issued - {u};
      t := FreshToken(rest);
      if t <= u { t := u + 1; }
      assert forall v | v in issued :: v == u || v in rest;
    } else {
      t := 0;
    }
  }

  /** An idle replica sweeps and then claims `id` under `uuid`. */
  function Takeover(r: nat, id: nat, uuid: Token, locked: set<nat>): seq<Action> {
    [Sweep(r), ClaimNext(r, id, uuid, locked)]
  }

  /** What an idle replica's takeover leads to: the two steps, written out. */
  lemma TakeoverSteps(s: System, r: nat, id: nat, uuid: Token, locked: set<nat>)
    ensures Runs(s, Takeover(r, id, uuid, locked)) <==>
              Enabled(s, Sweep(r)) && Enabled(Next(s, Sweep(r)), ClaimNext(r, id, uuid, locked))
    ensures Runs(s, Takeover(r, id, uuid, locked)) ==>
              Exec(s, Takeover(r, id, uuid, locked)) == Next(Next(s, Sweep(r)), ClaimNext(r, id, uuid, locked))
  {
    var run := Takeover(r, id, uuid, locked);
    assert run[1..] == [ClaimNext(r, id, uuid, locked)] && run[1..][1..] == [];
    if Enabled(s, Sweep(r)) && Enabled(Next(s, Sweep(r)), ClaimNext(r, id, uuid, locked)) {
      var end := Next(Next(s, Sweep(r)), ClaimNext(r, id, uuid, locked));
      assert Runs(end, []) && Exec(end, []) == end;
      assert Exec(Next(s, Sweep(r)), run[1..]) == end;
    }
  }

  /** A dispatching owner whose claim has gone stale is overtaken by any idle replica that locks on to its row. */
  lemma StaleOwnerIsOvertaken(s: System, p: nat, r: nat, uuid: Token)
    requires Inv(s) && Dispatches(s, p) && Owns(s.rows, s.replicas[p].id, s.replicas[p].token)
    requires s.rows[s.replicas[p].id].claimedAt.Some?
             && s.now > s.rows[s.replicas[p].id].claimedAt.value + STALE_CLAIM_MS
    requires Enabled(s, Sweep(r)) && uuid !in s.issued
    ensures var id := s.replicas[p].id; var run := Takeover(r, id, uuid, s.rows.Keys - {id});
      Runs(s, run) && !Exclusive(Exec(s, run))
  {
    var id := s.replicas[p].id;
    var swept := Next(s, Sweep(r));
    assert RowOk(s.rows[id]);
    assert NextDue(swept.rows, s.rows.Keys - {id}, swept.now, id);
    TakeoverSteps(s, r, id, uuid, s.rows.Keys - {id});
    var end := Next(swept, ClaimNext(r, id, uuid, s.rows.Keys - {id}));
    assert Dispatches(end, p) && Dispatches(end, r);
  }

  /**
   Timeliness is exactly what exclusion needs: an idle replica can break it by a takeover if and only if
   some claim is stale.
   */
  lemma TakeoverIsSafeIffTimely(s: System, r: nat)
    requires Inv(s) && Exclusive(s) && DispatchersOwn(s) && Enabled(s, Sweep(r))
    ensures (forall id: nat, uuid: Token, locked: set<nat> | Runs(s, Takeover(r, id, uuid, locked)) ::
               Exclusive(Exec(s, Takeover(r, id, uuid, locked))))
       <==> Timely(s)
  {
    if Timely(s) {
      forall id: nat, uuid: Token, locked: set<nat> | Runs(s, Takeover(r, id, uuid, locked))
        ensures Exclusive(Exec(s, Takeover(r, id, uuid, locked)))
      {
        TakeoverSteps(s, r, id, uuid, locked);
        InvStep(s, Sweep(r));
        ExclusionStep(s, Sweep(r));
        ExclusionStep(Next(s, Sweep(r)), ClaimNext(r, id, uuid, locked));
      }
    } else {
      var p: nat :| Dispatches(s, p) && Owns(s.rows, s.replicas[p].id, s.replicas[p].token)
                    && s.rows[s.replicas[p].id].claimedAt.Some?
                    && s.now > s.rows[s.replicas[p].id].claimedAt.value + STALE_CLAIM_MS;
      var uuid := FreshToken(s.issued);
      StaleOwnerIsOvertaken(s, p, r, uuid);
    }
  }

  /** `run` followed by `a`, when `a` can happen at its end. */
  lemma Then(s: System, run: seq<Action>, a: Action) returns (longer: seq<Action>)
    requires Runs(s, run) && Enabled(Exec(s, run), a)
    ensures longer == run + [a] && Runs(s, longer) && Exec(s, longer) == Next(Exec(s, run), a)
  {
    ExtendRun(s, run, a);
    longer := run + [a];
  }

  /** Replica 0 claims row 7 and lets its claim go stale. */
  lemma StaleClaim() returns (run: seq<Action>)
    ensures Runs(Init(2), run)
    ensures var s := Exec(Init(2), run);
      && s.replicas == [Dispatching(7, 1), Idle] && s.issued == {1} && s.now == STALE_CLAIM_MS + 1
      && s.rows == map[7 := Row(0, Some(0), Some(1), 0, None, None)]
  {
    run := Then(Init(2), [], Insert(7, 0));
    run := Then(Init(2), run, ClaimNext(0, 7, 1, {}));
    run := Then(Init(2), run, Wait(STALE_CLAIM_MS + 1));
  }

  /** A claim that a live replica lets go stale is taken over: both replicas then dispatch the row. */
  lemma LateHeartbeatBreaksExclusion() returns (run: seq<Action>)
    ensures Runs(Init(2), run) && !Exclusive(Exec(Init(2), run))
  {
    run := StaleClaim();
    var s := Exec(Init(2), run);
    InitInv(2);
    InvOverRun(Init(2), run);
    StaleOwnerIsOvertaken(s, 0, 1, 2);
    TakeoverSteps(s, 1, 7, 2, s.rows.Keys - {7});
    run := Then(Init(2), run, Sweep(1));
    run := Then(Init(2), run, ClaimNext(1, 7, 2, s.rows.Keys - {7}));
  }

  /** A system of two idle replicas at time 0 with one pending row, number 7. */
  predicate PendingSeven(s: System, row: Row) {
    s.replicas == [Idle, Idle] && s.now == 0 && s.rows == map[7 := row]
    && Claimable(row, 0) && row.claimToken.None?
  }

  /** Replica 0 claims row 7 under `t`, fails to dispatch it, and releases it. */
  lemma FailedAttempt(run: seq<Action>, row: Row, t: Token) returns (longer: seq<Action>)
    requires Runs(Init(2), run) && PendingSeven(Exec(Init(2), run), row) && t !in Exec(Init(2), run).issued
    ensures Runs(Init(2), longer)
    ensures var s, s' := Exec(Init(2), run), Exec(Init(2), longer);
      && s'.issued == s.issued + {t}
      && s'.rows == map[7 := row.(attemptCount := row.attemptCount + 1)]
      && PendingSeven(s'.(replicas := [Idle, Idle]), row.(attemptCount := row.attemptCount + 1))
      && s'.replicas == [if row.attemptCount >= 2 then Poisoning(7, row.attemptCount + 1) else Idle, Idle]
  {
    longer := Then(Init(2), run, ClaimNext(0, 7, t, {}));
    longer := Then(Init(2), longer, Throw(0));
    longer := Then(Init(2), longer, Release(0));
  }

  /** Replica 1 claims row 7 while replica 0 is about to poison it. */
  lemma ClaimedByPeer(run: seq<Action>, row: Row, t: Token) returns (longer: seq<Action>)
    requires Runs(Init(2), run) && t !in Exec(Init(2), run).issued
    requires Exec(Init(2), run).replicas == [Poisoning(7, row.attemptCount), Idle]
    requires PendingSeven(Exec(Init(2), run).(replicas := [Idle, Idle]), row)
    ensures Runs(Init(2), longer)
    ensures var s' := Exec(Init(2), longer);
      s'.replicas == [Poisoning(7, row.attemptCount), Dispatching(7, t)] && Owns(s'.rows, 7, t)
  {
    longer := Then(Init(2), run, ClaimNext(1, 7, t, {}));
  }

  /** The completion that a replica's own claim allows is logged, and its counters stand. */
  lemma CompletionIsLogged(s: System, result: CompletionResult)
    requires Enabled(s, Complete(1, result)) && Owns(s.rows, s.replicas[1].id, s.replicas[1].token)
    ensures var s' := Next(s, Complete(1, result)); var id := s.replicas[1].id;
      && id in s'.rows && s'.rows[id].outcome == Some(result) && s'.replicas == s.replicas[1 := Idle]
      && Completions(s'.log, id) == Completions(s.log, id) + 1
  {
    var s' := Next(s, Complete(1, result));
    assert s'.log[..|s'.log| - 1] == s.log;
  }

  /** Row 7 is claimed and completed by replica 1 while replica 0 is about to poison it. */
  lemma CompletedByPeer(run: seq<Action>, row: Row, t: Token, result: CompletionResult) returns (longer: seq<Action>)
    requires Runs(Init(2), run) && t !in Exec(Init(2), run).issued && Balanced(result)
    requires Exec(Init(2), run).replicas == [Poisoning(7, row.attemptCount), Idle]
    requires PendingSeven(Exec(Init(2), run).(replicas := [Idle, Idle]), row)
    ensures Runs(Init(2), longer)
    ensures var s' := Exec(Init(2), longer);
      && 7 in s'.rows && s'.rows[7].outcome == Some(result)
      && s'.replicas == [Poisoning(7, row.attemptCount), Idle]
      && Completions(s'.log, 7) == 1
  {
    longer := ClaimedByPeer(run, row, t);
    CompletionIsLogged(Exec(Init(2), longer), result);
    longer := Then(Init(2), longer, Complete(1, result));
    InitInv(2);
    InvOverRun(Init(2), longer);
    AtMostOneCompletion(Exec(Init(2), longer).log, 7);
  }

  /**
   Completed counters are not immutable: replica 0 releases row 7 for the third time and is about to
   poison it, replica 1 claims and completes it, and the poisoning then zeroes replica 1's counters.
   */
  lemma PoisonOverwritesACompletion() returns (run: seq<Action>)
    ensures Runs(Init(2), run) && Enabled(Exec(Init(2), run), Poison(0, true))
    ensures var s := Exec(Init(2), run);
      && 7 in s.rows && s.rows[7].outcome == Some(CompletionResult(1, 1, 0, 0, 0, None))
      && Completions(s.log, 7) == 1
      && Next(s, Poison(0, true)).rows[7].outcome.value.deliveredCount == 0
  {
    var row := Row(0, None, None, 0, None, None);
    run := Then(Init(2), [], Insert(7, 0));
    run := FailedAttempt(run, row, 1);
    run := FailedAttempt(run, row.(attemptCount := 1), 2);
    run := FailedAttempt(run, row.(attemptCount := 2), 3);
    run := CompletedByPeer(run, row.(attemptCount := 3), 4, CompletionResult(1, 1, 0, 0, 0, None));
  }
}
