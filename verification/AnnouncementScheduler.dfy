/**
 `AnnouncementSchedulerService.tick` in a process that has the table to itself: sweep, drain every due
 row, and drain again for each wake-up that arrived meanwhile, up to a cap.
 */
module AnnouncementScheduler {
  import opened Wrappers
  import opened AnnouncementTable
  import opened Announcements
  import opened AnnouncementDispatch

  const MAX_DRAIN_REENTRIES: nat := 100
  const MAX_DISPATCH_ATTEMPTS_PER_ROW: nat := 3

  /** What the outside answers during one dispatch of a row. */
  datatype Attempt = Attempt(
    recipients: Result<seq<Recipient>, string>,
    beatFault: nat -> Fault,
    completeFault: Fault,
    releaseThrows: bool)     // releaseClaim fails without effect

  /** The answers for the `n`-th dispatch of a drain, when it is of row `id`. */
  type Environment = (nat, nat) -> Attempt

  /** How many more dispatches a claimable row can cause before it is processed. */
  function Budget(row: Row, now: int): nat {
    if !Claimable(row, now) then 0
    else if row.attemptCount >= MAX_DISPATCH_ATTEMPTS_PER_ROW then 1
    else MAX_DISPATCH_ATTEMPTS_PER_ROW - row.attemptCount
  }

  function TotalBudget(t: Table, ids: seq<nat>, now: int): nat {
    if ids == [] then 0
    else (if ids[0] in t then Budget(t[ids[0]], now) else 0) + TotalBudget(t, ids[1..], now)
  }

  lemma {:induction false} TotalBudgetFalls(t: Table, u: Table, ids: seq<nat>, now: int, id: nat)
    requires id in t && id in u && u == t[id := u[id]] && Budget(u[id], now) < Budget(t[id], now)
    ensures TotalBudget(u, ids, now) <= TotalBudget(t, ids, now)
    ensures id in ids ==> TotalBudget(u, ids, now) < TotalBudget(t, ids, now)
  {
    if ids != [] { TotalBudgetFalls(t, u, ids[1..], now, id); }
  }

  lemma {:induction false} Enumerate(s: set<nat>) returns (ids: seq<nat>)
    ensures forall x | x in s :: x in ids
  {
    if s == {} {
      ids := [];
    } else {
      var x :| x in s;
      var rest := Enumerate(s - {x});
      ids := [x] + rest;
    }
  }

  function Count(ids: seq<nat>, id: nat): nat {
    if ids == [] then 0 else Count(ids[..|ids| - 1], id) + if ids[|ids| - 1] == id then 1 else 0
  }

  /** The counters of a row taken out of contention: nothing was counted. */
  const NOTHING_COUNTED := CompletionResult(0, 0, 0, 0, 0, Some("dispatch crashed"))

  /** The dispatch writes the row's counters: the recipients resolve and the completion reaches the row. */
  predicate Completes(attempt: Attempt) { attempt.recipients.Ok? && !attempt.completeFault.ThrowsUnapplied? }

  /** A failed attempt given back: one attempt more, and out of contention once that makes three. */
  function GivenBack(before: Row, now: int): Row {
    var attempts := before.attemptCount + 1;
    if attempts < MAX_DISPATCH_ATTEMPTS_PER_ROW then before.(attemptCount := attempts)
    else before.(attemptCount := attempts, processedAt := Some(now), outcome := Some(NOTHING_COUNTED))
  }

  /**
   What one dispatch of a pending row leaves: the row completed with the tally of exactly its recipients,
   or given back, or, when giving it back failed, still claimed and otherwise as it was.
   */
  predicate Attempted(before: Row, after: Row, attempt: Attempt, now: int) {
    if Completes(attempt) then
      after == before.(processedAt := Some(now), outcome := Some(Tally(attempt.recipients.value)))
    else if attempt.releaseThrows then
      InFlight(after) && after.claimToken.Some? && after.(claimedAt := None, claimToken := None) == before
    else
      after == GivenBack(before, now)
  }

  /** Releasing a claim and, at the cap, poisoning the row is giving it back. */
  lemma GivingBack(t: Table, id: nat, token: Token, now: int)
    requires Owns(t, id, token)
    ensures var released := ReleaseClaim(t, id, token); var before := t[id].(claimedAt := None, claimToken := None);
      && AttemptsAfterRelease(t, id, token) == before.attemptCount + 1
      && (before.attemptCount + 1 < MAX_DISPATCH_ATTEMPTS_PER_ROW ==> released == t[id := GivenBack(before, now)])
      && (before.attemptCount + 1 >= MAX_DISPATCH_ATTEMPTS_PER_ROW ==>
            MarkPoisoned(released, id, now, "dispatch crashed") == t[id := GivenBack(before, now)])
  {
  }

  /** The release of row `id` failed in one of the dispatches made, not in one that never came. */
  ghost predicate ReleaseFailed(dispatched: seq<nat>, env: Environment, id: nat) {
    exists n :: 0 <= n < |dispatched| && dispatched[n] == id && env(id, n).releaseThrows
  }

  /** Where a drain that started from `start` stands: `t` is the table, `dispatched` the rows run so far. */
  ghost predicate Progress(start: Table, t: Table, dispatched: seq<nat>, now: int, env: Environment) {
    && t.Keys == start.Keys
    && (forall id | id in start && !Claimable(start[id], now) :: t[id] == start[id] && Count(dispatched, id) == 0)
    && (forall id | id in start && Claimable(start[id], now) ::
          && Count(dispatched, id) + Budget(t[id], now) <= Budget(start[id], now)
          && (Count(dispatched, id) == 0 ==> t[id] == start[id])
          && (Claimable(t[id], now) || t[id].processedAt.Some? || ReleaseFailed(dispatched, env, id)))
  }

  lemma ReleaseFailedStays(dispatched: seq<nat>, env: Environment, id: nat, i: nat)
    ensures ReleaseFailed(dispatched, env, i) ==> ReleaseFailed(dispatched + [id], env, i)
    ensures env(id, |dispatched|).releaseThrows ==> ReleaseFailed(dispatched + [id], env, id)
  {
    if ReleaseFailed(dispatched, env, i) {
      var n :| 0 <= n < |dispatched| && dispatched[n] == i && env(i, n).releaseThrows;
      assert (dispatched + [id])[n] == i;
    }
    assert (dispatched + [id])[|dispatched|] == id;
  }

  lemma ProgressStep(start: Table, t: Table, u: Table, dispatched: seq<nat>, now: int, env: Environment, id: nat)
    requires Progress(start, t, dispatched, now, env) && id in t && Claimable(t[id], now)
    requires id in u && u == t[id := u[id]] && Attempted(t[id], u[id], env(id, |dispatched|), now)
    ensures Progress(start, u, dispatched + [id], now, env)
  {
    AttemptSpendsBudget(t[id], u[id], env(id, |dispatched|), now);
    forall i: nat ensures Count(dispatched + [id], i) == Count(dispatched, i) + if i == id then 1 else 0
    {
      assert (dispatched + [id])[..|dispatched|] == dispatched;
    }
    forall i: nat
      ensures ReleaseFailed(dispatched, env, i) ==> ReleaseFailed(dispatched + [id], env, i)
      ensures env(id, |dispatched|).releaseThrows ==> ReleaseFailed(dispatched + [id], env, id)
    {
      ReleaseFailedStays(dispatched, env, id, i);
    }
    assert u.Keys == t.Keys;
  }

  lemma AttemptSpendsBudget(before: Row, after: Row, attempt: Attempt, now: int)
    requires Claimable(before, now) && Attempted(before, after, attempt, now)
    ensures Budget(after, now) < Budget(before, now)
    ensures Claimable(after, now) || after.processedAt.Some? || (attempt.releaseThrows && InFlight(after))
  {
  }

  predicate TokensBelow(t: Table, bound: Token) {
    forall id | id in t && t[id].claimToken.Some? :: t[id].claimToken.value < bound
  }

  /** `t` is `before` with the earliest due row claimed under `token`, or `before` itself if nothing is due. */
  ghost predicate ClaimedFrom(before: Table, t: Table, claimed: Option<nat>, token: Token, now: int) {
    match claimed
    case None => t == before && forall id | id in before :: !Claimable(before[id], now)
    case Some(id) => NextDue(before, {}, now, id) && t == Claim(before, id, token, now)
  }

  lemma SweepKeepsTable(t: Table, cutoff: int, bound: Token)
    requires TableOk(t) && TokensBelow(t, bound)
    ensures TableOk(ReleaseStuck(t, cutoff)) && TokensBelow(ReleaseStuck(t, cutoff), bound)
    ensures ReleaseStuck(t, cutoff).Keys == t.Keys
  {
  }

  lemma ClaimKeepsTable(t: Table, id: nat, token: Token, now: int)
    requires TableOk(t) && id in t && Claimable(t[id], now) && TokensBelow(t, token)
    ensures TableOk(Claim(t, id, token, now)) && Owns(Claim(t, id, token, now), id, token)
  {
  }

  /** Claiming a row and then attempting it is one update of that row. */
  lemma AfterClaim(before: Table, after: Table, id: nat, token: Token, now: int, attempt: Attempt)
    requires TableOk(before) && id in before && Claimable(before[id], now) && TokensBelow(before, token)
    requires id in after && after == Claim(before, id, token, now)[id := after[id]]
    requires Attempted(Claim(before, id, token, now)[id].(claimedAt := None, claimToken := None), after[id], attempt,
                       now)
    requires after[id].claimToken.Some? ==> after[id].claimToken.value <= token
    ensures after == before[id := after[id]]
    ensures Attempted(before[id], after[id], attempt, now)
    ensures TokensBelow(after, token + 1)
  {
    assert RowOk(before[id]);
  }

  // ---------------------------------------------------------------- a whole pass, dispatch by dispatch

  /** The `n`-th dispatch: of a row due first in `tables[n]`, leaving `tables[n + 1]`. */
  ghost predicate DispatchOk(tables: seq<Table>, dispatched: seq<nat>, now: int, env: Environment, n: nat)
    requires n < |dispatched| && |tables| == |dispatched| + 1
  {
    var id, before, after := dispatched[n], tables[n], tables[n + 1];
    && NextDue(before, {}, now, id)
    && id in after && after == before[id := after[id]]
    && Attempted(before[id], after[id], env(id, n), now)
  }

  /** The dispatches of a pass so far, from `start` to `t`. */
  ghost predicate Dispatches(tables: seq<Table>, dispatched: seq<nat>, start: Table, t: Table, now: int,
                             env: Environment) {
    && |tables| == |dispatched| + 1 && tables[0] == start && tables[|dispatched|] == t
    && forall n: nat | n < |dispatched| :: DispatchOk(tables, dispatched, now, env, n)
  }

  /** A finished pass: each due row in turn is dispatched as its answers have it, until nothing is due. */
  ghost predicate Drained(start: Table, end: Table, dispatched: seq<nat>, now: int, env: Environment) {
    && (forall id | id in end :: !Claimable(end[id], now))
    && exists tables :: Dispatches(tables, dispatched, start, end, now, env)
  }

  lemma OneMoreDispatch(tables: seq<Table>, dispatched: seq<nat>, start: Table, t: Table, now: int, env: Environment,
                        id: nat, u: Table)
    requires Dispatches(tables, dispatched, start, t, now, env)
    requires NextDue(t, {}, now, id) && id in u && u == t[id := u[id]]
    requires Attempted(t[id], u[id], env(id, |dispatched|), now)
    ensures Dispatches(tables + [u], dispatched + [id], start, u, now, env)
  {
    var ts, ds := tables + [u], dispatched + [id];
    forall n: nat | n < |ds| ensures DispatchOk(ts, ds, now, env, n) {
      if n < |dispatched| {
        assert DispatchOk(tables, dispatched, now, env, n);
        assert ts[n] == tables[n] && ts[n + 1] == tables[n + 1] && ds[n] == dispatched[n];
      }
    }
  }

  /** One turn of the drain loop: row `id`, claimed from `before`, has been attempted, leaving `after`. */
  lemma DrainStep(tables: seq<Table>, dispatched: seq<nat>, start: Table, before: Table, after: Table, ids: seq<nat>,
                  now: int, env: Environment, id: nat, token: Token)
    requires Dispatches(tables, dispatched, start, before, now, env) && TableOk(before) && TokensBelow(before, token)
    requires NextDue(before, {}, now, id) && id in ids
    requires id in after && after == Claim(before, id, token, now)[id := after[id]]
    requires Attempted(Claim(before, id, token, now)[id].(claimedAt := None, claimToken := None), after[id],
                       env(id, |dispatched|), now)
    requires after[id].claimToken.Some? ==> after[id].claimToken.value <= token
    ensures Dispatches(tables + [after], dispatched + [id], start, after, now, env)
    ensures TokensBelow(after, token + 1) && after.Keys == before.Keys
    ensures TotalBudget(after, ids, now) < TotalBudget(before, ids, now)
  {
    AfterClaim(before, after, id, token, now, env(id, |dispatched|));
    OneMoreDispatch(tables, dispatched, start, before, now, env, id, after);
    AttemptSpendsBudget(before[id], after[id], env(id, |dispatched|), now);
    TotalBudgetFalls(before, after, ids, now, id);
  }

  /** A pass without its last dispatch. */
  lemma WithoutLast(tables: seq<Table>, dispatched: seq<nat>, start: Table, t: Table, now: int, env: Environment)
    requires Dispatches(tables, dispatched, start, t, now, env) && dispatched != []
    ensures var n := |dispatched| - 1;
      && Dispatches(tables[..n + 1], dispatched[..n], start, tables[n], now, env)
      && DispatchOk(tables, dispatched, now, env, n)
  {
    var n := |dispatched| - 1;
    var ts, ds := tables[..n + 1], dispatched[..n];
    forall k: nat | k < n ensures DispatchOk(ts, ds, now, env, k) {
      assert DispatchOk(tables, dispatched, now, env, k);
      assert ts[k] == tables[k] && ts[k + 1] == tables[k + 1] && ds[k] == dispatched[k];
    }
  }

  lemma {:induction false} DispatchesProgress(tables: seq<Table>, dispatched: seq<nat>, start: Table, t: Table,
                                              now: int, env: Environment)
    requires Dispatches(tables, dispatched, start, t, now, env)
    ensures Progress(start, t, dispatched, now, env)
    decreases |dispatched|
  {
    if dispatched != [] {
      var n := |dispatched| - 1;
      WithoutLast(tables, dispatched, start, t, now, env);
      DispatchesProgress(tables[..n + 1], dispatched[..n], start, tables[n], now, env);
      ProgressStep(start, tables[n], t, dispatched[..n], now, env, dispatched[n]);
      assert dispatched == dispatched[..n] + [dispatched[n]];
    }
  }

  /**
   What a finished pass promises about the table: nothing is claimable any more; every row that was
   claimable at its start has been dispatched at least once and at most three times (fewer if it had failed
   before) and is processed, unless a release of it failed; every other row is as it was.
   */
  ghost predicate Cleared(start: Table, end: Table, dispatched: seq<nat>, now: int, env: Environment) {
    && end.Keys == start.Keys
    && (forall id | id in end :: !Claimable(end[id], now))
    && (forall id | id in start && Claimable(start[id], now) ::
          && 1 <= Count(dispatched, id) <= Budget(start[id], now) <= MAX_DISPATCH_ATTEMPTS_PER_ROW
          && (end[id].processedAt.Some? || ReleaseFailed(dispatched, env, id)))
    && (forall id | id in start && !Claimable(start[id], now) :: end[id] == start[id] && Count(dispatched, id) == 0)
  }

  lemma DrainedIsCleared(start: Table, end: Table, dispatched: seq<nat>, now: int, env: Environment)
    requires Drained(start, end, dispatched, now, env)
    ensures Cleared(start, end, dispatched, now, env)
  {
    var tables :| Dispatches(tables, dispatched, start, end, now, env);
    DispatchesProgress(tables, dispatched, start, end, now, env);
  }

  // ---------------------------------------------------------------- what becomes of a dispatched row

  /** A processed row is left alone by the rest of the pass. */
  lemma {:induction false} ProcessedIsLeftAlone(tables: seq<Table>, dispatched: seq<nat>, start: Table, end: Table,
                                                now: int, env: Environment, n: nat, id: nat)
    requires Dispatches(tables, dispatched, start, end, now, env) && n <= |dispatched|
    requires id in tables[n] && tables[n][id].processedAt.Some?
    ensures id in end && end[id] == tables[n][id]
    ensures forall m | n <= m < |dispatched| :: dispatched[m] != id
    decreases |dispatched| - n
  {
    if n < |dispatched| {
      assert DispatchOk(tables, dispatched, now, env, n);
      ProcessedIsLeftAlone(tables, dispatched, start, end, now, env, n + 1, id);
    }
  }

  /**
   A dispatch that answers completes its row with the counters of exactly its recipients, at once and for
   good: no later dispatch of the pass is of that row.
   */
  lemma AnsweredDispatchCompletes(start: Table, end: Table, dispatched: seq<nat>, now: int, env: Environment, n: nat)
    requires Drained(start, end, dispatched, now, env) && n < |dispatched|
    requires env(dispatched[n], n).recipients.Ok? && env(dispatched[n], n).completeFault.Answers?
    ensures var id, rs := dispatched[n], env(dispatched[n], n).recipients.value;
      && id in end && CompletedWith(end[id], rs, now)
      && forall m | n < m < |dispatched| :: dispatched[m] != id
  {
    var tables :| Dispatches(tables, dispatched, start, end, now, env);
    var id, rs := dispatched[n], env(dispatched[n], n).recipients.value;
    assert DispatchOk(tables, dispatched, now, env, n);
    ProcessedIsLeftAlone(tables, dispatched, start, end, now, env, n + 1, id);
    TallyCountsResponses(rs);
  }

  /** The row was completed at `now` with the number of recipients for each answer. */
  predicate CompletedWith(row: Row, rs: seq<Recipient>, now: int) {
    && row.processedAt == Some(now) && row.claimedAt.None?
    && row.outcome.Some?
    && row.outcome.value.recipientCount == |rs|
    && row.outcome.value.deliveredCount == |Positions(rs, Resolved(Sent))|
    && row.outcome.value.optedOutCount == |Positions(rs, Resolved(OptedOut))|
    && row.outcome.value.noChannelCount == |Positions(rs, Resolved(NoChannel))|
    && row.outcome.value.failedCount == |FailedPositions(rs)|
  }

  /**
   A dispatch whose recipients cannot be resolved gives its row back: pending again with one attempt more,
   and dispatched again later in the pass, as long as that makes fewer than three.
   */
  lemma FailedDispatchIsRetried(tables: seq<Table>, dispatched: seq<nat>, start: Table, end: Table, now: int,
                                env: Environment, n: nat)
    requires Dispatches(tables, dispatched, start, end, now, env) && n < |dispatched|
    requires forall id | id in end :: !Claimable(end[id], now)
    requires env(dispatched[n], n).recipients.Err? && !env(dispatched[n], n).releaseThrows
    requires dispatched[n] in tables[n] && tables[n][dispatched[n]].attemptCount + 1 < 3
    ensures var id := dispatched[n];
      && id in tables[n + 1] && Pending(tables[n + 1][id])
      && tables[n + 1][id].attemptCount == tables[n][id].attemptCount + 1
      && exists m :: n < m < |dispatched| && dispatched[m] == id
  {
    var id := dispatched[n];
    assert DispatchOk(tables, dispatched, now, env, n);
    if forall m | n < m < |dispatched| :: dispatched[m] != id {
      NotDispatchedNotChanged(tables, dispatched, start, end, now, env, n + 1, id);
    }
  }

  lemma {:induction false} NotDispatchedNotChanged(tables: seq<Table>, dispatched: seq<nat>, start: Table, end: Table,
                                                   now: int, env: Environment, n: nat, id: nat)
    requires Dispatches(tables, dispatched, start, end, now, env) && n <= |dispatched| && id in tables[n]
    requires forall m | n <= m < |dispatched| :: dispatched[m] != id
    ensures id in end && end[id] == tables[n][id]
    decreases |dispatched| - n
  {
    if n < |dispatched| {
      assert DispatchOk(tables, dispatched, now, env, n);
      NotDispatchedNotChanged(tables, dispatched, start, end, now, env, n + 1, id);
    }
  }

  /** Some dispatch of the row in the pass completed it: the row shows that dispatch's tally. */
  ghost predicate CompletedIn(row: Row, id: nat, dispatched: seq<nat>, now: int, env: Environment) {
    exists n :: 0 <= n < |dispatched| && dispatched[n] == id && Completes(env(id, n))
                && CompletedWith(row, env(id, n).recipients.value, now)
  }

  /** The row was taken out of contention with at least three attempts, each a dispatch that failed. */
  predicate PoisonedWith(row: Row, now: int, attempts: nat) {
    && row.processedAt == Some(now) && row.outcome == Some(NOTHING_COUNTED)
    && row.attemptCount == attempts && attempts >= 3
  }

  /** Where a row that was due at the start of a pass stands after the dispatches so far. */
  ghost predicate FateSoFar(before: Row, row: Row, id: nat, dispatched: seq<nat>, now: int, env: Environment) {
    var attempts := before.attemptCount + Count(dispatched, id);
    || row == before.(attemptCount := attempts)
    || CompletedIn(row, id, dispatched, now, env)
    || PoisonedWith(row, now, attempts)
    || (InFlight(row) && ReleaseFailed(dispatched, env, id))
  }

  lemma FateStep(before: Row, row: Row, after: Row, id: nat, dispatched: seq<nat>, now: int, env: Environment)
    requires Pending(before) && before.claimToken.None? && FateSoFar(before, row, id, dispatched, now, env)
    requires Claimable(row, now) && Attempted(row, after, env(id, |dispatched|), now)
    ensures FateSoFar(before, after, id, dispatched + [id], now, env)
  {
    var longer, attempt := dispatched + [id], env(id, |dispatched|);
    assert longer[..|dispatched|] == dispatched && longer[|dispatched|] == id;
    if Completes(attempt) {
      TallyCountsResponses(attempt.recipients.value);
      assert CompletedWith(after, attempt.recipients.value, now);
    } else {
      ReleaseFailedStays(dispatched, env, id, id);
    }
  }

  lemma FateStays(before: Row, row: Row, id: nat, dispatched: seq<nat>, other: nat, now: int, env: Environment)
    requires FateSoFar(before, row, id, dispatched, now, env) && other != id
    ensures FateSoFar(before, row, id, dispatched + [other], now, env)
  {
    var longer := dispatched + [other];
    assert longer[..|dispatched|] == dispatched;
    ReleaseFailedStays(dispatched, env, other, id);
    if CompletedIn(row, id, dispatched, now, env) {
      var n :| 0 <= n < |dispatched| && dispatched[n] == id && Completes(env(id, n))
               && CompletedWith(row, env(id, n).recipients.value, now);
      assert longer[n] == id;
    }
  }

  lemma {:induction false} DispatchesDecideFates(tables: seq<Table>, dispatched: seq<nat>, start: Table, t: Table,
                                                 now: int, env: Environment, id: nat)
    requires Dispatches(tables, dispatched, start, t, now, env)
    requires id in start && Pending(start[id]) && start[id].claimToken.None?
    ensures id in t && FateSoFar(start[id], t[id], id, dispatched, now, env)
    decreases |dispatched|
  {
    if dispatched != [] {
      var n := |dispatched| - 1;
      var front := dispatched[..n];
      WithoutLast(tables, dispatched, start, t, now, env);
      DispatchesDecideFates(tables[..n + 1], front, start, tables[n], now, env, id);
      assert dispatched == front + [dispatched[n]];
      if dispatched[n] == id {
        FateStep(start[id], tables[n][id], t[id], id, front, now, env);
      } else {
        FateStays(start[id], tables[n][id], id, front, dispatched[n], now, env);
      }
    }
  }

  /**
   Every row due at the start of a pass ends in one of three ways: completed with the counters of the
   recipients of one of its dispatches; out of contention after that many failed dispatches that its attempts
   come to three or more; or still claimed, when one of its releases failed.
   */
  lemma FateOfDueRow(start: Table, end: Table, dispatched: seq<nat>, now: int, env: Environment, id: nat)
    requires Drained(start, end, dispatched, now, env)
    requires id in start && Claimable(start[id], now) && start[id].claimToken.None?
    ensures id in end
    ensures || CompletedIn(end[id], id, dispatched, now, env)
            || PoisonedWith(end[id], now, start[id].attemptCount + Count(dispatched, id))
            || (InFlight(end[id]) && ReleaseFailed(dispatched, env, id))
  {
    var tables :| Dispatches(tables, dispatched, start, end, now, env);
    DispatchesDecideFates(tables, dispatched, start, end, now, env, id);
  }

  // ---------------------------------------------------------------- the passes of a tick

  /** Rows that a tick starting at `now` must get processed: the claimable ones, and those its sweep frees. */
  predicate DueAtStart(row: Row, now: int, sweepThrows: bool) {
    row.scheduledAt <= now && (Pending(row) || (!sweepThrows && Stuck(row, now - STALE_CLAIM_MS)))
  }

  /** The release of row `id` failed in one of the dispatches of one of the passes. */
  ghost predicate SomeReleaseFailed(passes: seq<seq<nat>>, env: nat -> Environment, id: nat) {
    exists k :: 0 <= k < |passes| && ReleaseFailed(passes[k], env(k), id)
  }

  /** Every row due at the start is processed in `t`, or a release of it failed in the passes so far. */
  ghost predicate Settled(start: Table, t: Table, now: int, sweepThrows: bool, env: nat -> Environment,
                          passes: seq<seq<nat>>) {
    forall id | id in start && DueAtStart(start[id], now, sweepThrows) ::
      id in t && (t[id].processedAt.Some? || SomeReleaseFailed(passes, env, id))
  }

  /** The table a pass drains. */
  function Swept(t: Table, now: int, sweepThrows: bool): Table {
    if sweepThrows then t else ReleaseStuck(t, now - STALE_CLAIM_MS)
  }

  lemma FirstPassSettles(start: Table, end: Table, dispatched: seq<nat>, now: int, sweepThrows: bool,
                         env: nat -> Environment)
    requires TableOk(start)
    requires Cleared(Swept(start, now, sweepThrows), end, dispatched, now, env(0))
    ensures Settled(start, end, now, sweepThrows, env, [dispatched])
  {
    forall id | id in start && DueAtStart(start[id], now, sweepThrows)
      ensures id in end && (end[id].processedAt.Some? || SomeReleaseFailed([dispatched], env, id))
    {
      var swept := Swept(start, now, sweepThrows);
      assert id in swept && Claimable(swept[id], now);
      assert [dispatched][0] == dispatched;
    }
  }

  lemma LaterPassKeepsSettled(start: Table, before: Table, end: Table, dispatched: seq<nat>, now0: int, now: int,
                              sweepThrows0: bool, sweepThrows: bool, env: nat -> Environment, passes: seq<seq<nat>>)
    requires Cleared(Swept(before, now, sweepThrows), end, dispatched, now, env(|passes|))
    requires Settled(start, before, now0, sweepThrows0, env, passes)
    ensures Settled(start, end, now0, sweepThrows0, env, passes + [dispatched])
  {
    var longer := passes + [dispatched];
    forall id | id in start && DueAtStart(start[id], now0, sweepThrows0)
      ensures id in end && (end[id].processedAt.Some? || SomeReleaseFailed(longer, env, id))
    {
      assert id in before && id in Swept(before, now, sweepThrows) && id in end;
      if SomeReleaseFailed(passes, env, id) {
        var k :| 0 <= k < |passes| && ReleaseFailed(passes[k], env(k), id);
        assert longer[k] == passes[k];
      }
      assert longer[|passes|] == dispatched;
    }
  }

  /**
   The passes of one tick, one after the other: `tables[k]` is what pass `k` found, `served[k]` the rows it
   dispatched.
   */
  ghost predicate PassesChain(tables: seq<Table>, served: seq<seq<nat>>, now: nat -> int, env: nat -> Environment,
                              sweepThrows: nat -> bool)
  {
    |tables| == |served| + 1 && forall k: nat | k < |served| :: PassOk(tables, served, now, env, sweepThrows, k)
  }

  ghost predicate PassOk(tables: seq<Table>, served: seq<seq<nat>>, now: nat -> int, env: nat -> Environment,
                         sweepThrows: nat -> bool, k: nat)
    requires k < |served| && |tables| == |served| + 1
  {
    Drained(Swept(tables[k], now(k), sweepThrows(k)), tables[k + 1], served[k], now(k), env(k))
  }

  lemma NextPass(tables: seq<Table>, served: seq<seq<nat>>, now: nat -> int, env: nat -> Environment,
                 sweepThrows: nat -> bool, end: Table, dispatched: seq<nat>)
    requires PassesChain(tables, served, now, env, sweepThrows)
    requires var k := |served|; Drained(Swept(tables[k], now(k), sweepThrows(k)), end, dispatched, now(k), env(k))
    ensures PassesChain(tables + [end], served + [dispatched], now, env, sweepThrows)
  {
    var ts, ds := tables + [end], served + [dispatched];
    forall k: nat | k < |ds| ensures PassOk(ts, ds, now, env, sweepThrows, k) {
      if k < |served| {
        assert PassOk(tables, served, now, env, sweepThrows, k) && ts[k] == tables[k] && ts[k + 1] == tables[k + 1]
             && ds[k] == served[k];
      }
    }
  }

  /**
   After at least one pass, nothing is claimable, no row is lost, and every row due when the tick began is
   settled.
   */
  lemma {:induction false} ChainSettles(tables: seq<Table>, served: seq<seq<nat>>, now: nat -> int,
                                        env: nat -> Environment, sweepThrows: nat -> bool)
    requires PassesChain(tables, served, now, env, sweepThrows) && served != [] && TableOk(tables[0])
    ensures Settled(tables[0], tables[|served|], now(0), sweepThrows(0), env, served)
    ensures tables[|served|].Keys == tables[0].Keys
    ensures forall id | id in tables[|served|] :: !Claimable(tables[|served|][id], now(|served| - 1))
    decreases |served|
  {
    var n := |served| - 1;
    var front := served[..n];
    assert served == front + [served[n]];
    assert PassOk(tables, served, now, env, sweepThrows, n);
    DrainedIsCleared(Swept(tables[n], now(n), sweepThrows(n)), tables[n + 1], served[n], now(n), env(n));
    if n == 0 {
      FirstPassSettles(tables[0], tables[1], served[0], now(0), sweepThrows(0), env);
      assert served == [served[0]];
    } else {
      var ts := tables[..n + 1];
      forall k: nat | k < n ensures PassOk(ts, front, now, env, sweepThrows, k) {
        assert PassOk(tables, served, now, env, sweepThrows, k) && ts[k] == tables[k] && ts[k + 1] == tables[k + 1]
             && front[k] == served[k];
      }
      ChainSettles(ts, front, now, env, sweepThrows);
      LaterPassKeepsSettled(tables[0], tables[n], tables[n + 1], served[n], now(0), now(n), sweepThrows(0),
                            sweepThrows(n), env, front);
    }
  }

  lemma AttemptedIsOk(before: Row, after: Row, attempt: Attempt, now: int)
    requires RowOk(before) && Claimable(before, now) && Attempted(before, after, attempt, now)
    ensures RowOk(after)
  {
    if Completes(attempt) { TallyBalances(attempt.recipients.value); }
  }

  lemma {:induction false} PassKeepsTableOk(tables: seq<Table>, dispatched: seq<nat>, start: Table, t: Table, now: int,
                                            env: Environment)
    requires Dispatches(tables, dispatched, start, t, now, env) && TableOk(start)
    ensures TableOk(t)
    decreases |dispatched|
  {
    if dispatched != [] {
      var n := |dispatched| - 1;
      WithoutLast(tables, dispatched, start, t, now, env);
      PassKeepsTableOk(tables[..n + 1], dispatched[..n], start, tables[n], now, env);
      AttemptedIsOk(tables[n][dispatched[n]], t[dispatched[n]], env(dispatched[n], n), now);
    }
  }

  lemma {:induction false} ChainKeepsTableOk(tables: seq<Table>, served: seq<seq<nat>>, now: nat -> int,
                                             env: nat -> Environment, sweepThrows: nat -> bool)
    requires PassesChain(tables, served, now, env, sweepThrows) && TableOk(tables[0])
    ensures TableOk(tables[|served|])
    decreases |served|
  {
    if served != [] {
      var n := |served| - 1;
      ChainWithoutLast(tables, served, now, env, sweepThrows);
      ChainKeepsTableOk(tables[..n + 1], served[..n], now, env, sweepThrows);
      var swept := Swept(tables[n], now(n), sweepThrows(n));
      assert TableOk(swept) by { forall id | id in swept ensures RowOk(swept[id]) { assert RowOk(tables[n][id]); } }
      var ts :| Dispatches(ts, served[n], swept, tables[n + 1], now(n), env(n));
      PassKeepsTableOk(ts, served[n], swept, tables[n + 1], now(n), env(n));
    }
  }

  /** A pass leaves a processed row as it is, the sweep before it included. */
  lemma PassKeepsProcessed(t: Table, end: Table, dispatched: seq<nat>, now: int, env: Environment, sweepThrows: bool,
                           id: nat)
    requires TableOk(t) && Cleared(Swept(t, now, sweepThrows), end, dispatched, now, env)
    requires id in t && t[id].processedAt.Some?
    ensures id in end && end[id] == t[id]
  {
    var swept := Swept(t, now, sweepThrows);
    assert id in swept && swept[id] == t[id];
  }

  /** What a pass makes of a row that is not processed: it is as the sweep left it, or it had one of the three ends. */
  lemma PassDecidesFate(t: Table, end: Table, dispatched: seq<nat>, now: int, env: Environment, sweepThrows: bool,
                        id: nat)
    requires TableOk(t) && Drained(Swept(t, now, sweepThrows), end, dispatched, now, env)
    requires id in t && t[id].processedAt.None?
    ensures id in end
    ensures || end[id].processedAt.None?
            || CompletedIn(end[id], id, dispatched, now, env)
            || (exists attempts: nat :: PoisonedWith(end[id], now, attempts))
  {
    var swept := Swept(t, now, sweepThrows);
    DrainedIsCleared(swept, end, dispatched, now, env);
    assert RowOk(t[id]);
    assert id in swept && swept[id].processedAt.None?;
    if Claimable(swept[id], now) { FateOfDueRow(swept, end, dispatched, now, env, id); }
  }

  /** The row was completed by a dispatch of one of the passes, or poisoned in one with at least three attempts. */
  ghost predicate ProcessedIn(row: Row, id: nat, served: seq<seq<nat>>, now: nat -> int, env: nat -> Environment) {
    exists k: nat :: k < |served|
      && (|| CompletedIn(row, id, served[k], now(k), env(k))
          || exists attempts: nat :: PoisonedWith(row, now(k), attempts))
  }

  lemma ProcessedInStays(row: Row, id: nat, served: seq<seq<nat>>, more: seq<nat>, now: nat -> int,
                         env: nat -> Environment)
    requires ProcessedIn(row, id, served, now, env)
    ensures ProcessedIn(row, id, served + [more], now, env)
  {
    var k: nat :| k < |served|
      && (|| CompletedIn(row, id, served[k], now(k), env(k))
          || exists attempts: nat :: PoisonedWith(row, now(k), attempts));
    assert (served + [more])[k] == served[k];
  }

  /**
   Whatever the passes of a tick, a row that was not processed before it is afterwards not processed either,
   or completed with the counters of the recipients of one of its dispatches, or out of contention with at
   least three attempts.
   */
  lemma {:induction false} TickDecidesFate(tables: seq<Table>, served: seq<seq<nat>>, now: nat -> int,
                                           env: nat -> Environment, sweepThrows: nat -> bool, id: nat)
    requires PassesChain(tables, served, now, env, sweepThrows) && TableOk(tables[0])
    requires id in tables[0] && tables[0][id].processedAt.None?
    ensures id in tables[|served|]
    ensures tables[|served|][id].processedAt.None? || ProcessedIn(tables[|served|][id], id, served, now, env)
    decreases |served|
  {
    if served != [] {
      var n := |served| - 1;
      ChainWithoutLast(tables, served, now, env, sweepThrows);
      ChainKeepsTableOk(tables[..n + 1], served[..n], now, env, sweepThrows);
      TickDecidesFate(tables[..n + 1], served[..n], now, env, sweepThrows, id);
      assert served == served[..n] + [served[n]];
      if tables[n][id].processedAt.Some? {
        DrainedIsCleared(Swept(tables[n], now(n), sweepThrows(n)), tables[n + 1], served[n], now(n), env(n));
        PassKeepsProcessed(tables[n], tables[n + 1], served[n], now(n), env(n), sweepThrows(n), id);
        ProcessedInStays(tables[n][id], id, served[..n], served[n], now, env);
      } else {
        PassDecidesFate(tables[n], tables[n + 1], served[n], now(n), env(n), sweepThrows(n), id);
      }
    }
  }

  lemma ChainWithoutLast(tables: seq<Table>, served: seq<seq<nat>>, now: nat -> int, env: nat -> Environment,
                         sweepThrows: nat -> bool)
    requires PassesChain(tables, served, now, env, sweepThrows) && served != []
    ensures var n := |served| - 1;
      && PassesChain(tables[..n + 1], served[..n], now, env, sweepThrows)
      && Drained(Swept(tables[n], now(n), sweepThrows(n)), tables[n + 1], served[n], now(n), env(n))
  {
    var n := |served| - 1;
    var ts, front := tables[..n + 1], served[..n];
    assert PassOk(tables, served, now, env, sweepThrows, n);
    forall k: nat | k < n ensures PassOk(ts, front, now, env, sweepThrows, k) {
      assert PassOk(tables, served, now, env, sweepThrows, k);
      assert ts[k] == tables[k] && ts[k + 1] == tables[k + 1] && front[k] == served[k];
    }
  }

  /** What a dispatch of any pass completes keeps its counters to the end of the tick. */
  lemma {:induction false} TickKeepsCompletions(tables: seq<Table>, served: seq<seq<nat>>, now: nat -> int,
                                                env: nat -> Environment, sweepThrows: nat -> bool, k: nat, n: nat)
    requires PassesChain(tables, served, now, env, sweepThrows) && TableOk(tables[0])
    requires k < |served| && n < |served[k]|
    requires env(k)(served[k][n], n).recipients.Ok? && env(k)(served[k][n], n).completeFault.Answers?
    ensures var id := served[k][n];
      id in tables[|served|] && CompletedWith(tables[|served|][id], env(k)(id, n).recipients.value, now(k))
    decreases |served|
  {
    var last := |served| - 1;
    var id := served[k][n];
    ChainWithoutLast(tables, served, now, env, sweepThrows);
    ChainKeepsTableOk(tables[..last + 1], served[..last], now, env, sweepThrows);
    if k == last {
      AnsweredDispatchCompletes(Swept(tables[k], now(k), sweepThrows(k)), tables[k + 1], served[k], now(k), env(k), n);
    } else {
      TickKeepsCompletions(tables[..last + 1], served[..last], now, env, sweepThrows, k, n);
      DrainedIsCleared(Swept(tables[last], now(last), sweepThrows(last)), tables[last + 1], served[last], now(last),
                       env(last));
      PassKeepsProcessed(tables[last], tables[last + 1], served[last], now(last), env(last), sweepThrows(last), id);
    }
  }

  /** Another tick arrived during every pass but the last. */
  ghost predicate KeptArriving(arrivals: nat -> bool, passes: nat) { forall k: nat | k + 1 < passes :: arrivals(k) }

  class AnnouncementSchedulerService {
    var running: bool
    var pending: bool
    var nextToken: Token      // stands for randomUUID: every token drawn is new
    const announcements: AnnouncementService
    const dispatch: AnnouncementDispatchService

    ghost predicate Valid()
      reads this, announcements
    {
      && dispatch.announcements == announcements
      && TableOk(announcements.rows)
      && TokensBelow(announcements.rows, nextToken)
    }

    constructor (announcements: AnnouncementService, fanoutBatch: int, nextToken: Token)
      requires TableOk(announcements.rows) && TokensBelow(announcements.rows, nextToken)
      ensures Valid() && this.announcements == announcements && !running && !pending && this.nextToken == nextToken
    {
      this.announcements := announcements;
      var d := new AnnouncementDispatchService(announcements, fanoutBatch);
      dispatch := d;
      running, pending := false, false;
      this.nextToken := nextToken;
    }

    /** The catch branch: release the claim and, at the cap, poison the row. */
    method ReleaseOrPoison(id: nat, token: Token, releaseThrows: bool, now: int)
      requires TableOk(announcements.rows) && id in announcements.rows
      modifies announcements
      ensures TableOk(announcements.rows)
      ensures id in announcements.rows && announcements.rows == old(announcements.rows)[id := announcements.rows[id]]
      ensures releaseThrows || !Owns(old(announcements.rows), id, token) ==>
                announcements.rows == old(announcements.rows)
      ensures !releaseThrows && Owns(old(announcements.rows), id, token) ==>
                announcements.rows[id]
                == GivenBack(old(announcements.rows)[id].(claimedAt := None, claimToken := None), now)
    {
      assert RowOk(announcements.rows[id]);
      if releaseThrows { return; }
      if Owns(announcements.rows, id, token) { GivingBack(announcements.rows, id, token, now); }
      var attempts := announcements.ReleaseClaim(id, token);
      if attempts >= MAX_DISPATCH_ATTEMPTS_PER_ROW {
        announcements.MarkPoisoned(id, now, "dispatch crashed");
      }
    }

    /** The body of the inner loop for a claimed row: dispatch it; if that throws, release it or poison it. */
    method DispatchClaimed(id: nat, token: Token, attempt: Attempt, now: int)
      requires dispatch.announcements == announcements && TableOk(announcements.rows)
      requires Owns(announcements.rows, id, token)
      modifies announcements
      ensures TableOk(announcements.rows)
      ensures id in announcements.rows && announcements.rows == old(announcements.rows)[id := announcements.rows[id]]
      ensures Attempted(old(announcements.rows)[id].(claimedAt := None, claimToken := None), announcements.rows[id],
                        attempt, now)
      ensures announcements.rows[id].claimToken in {None, Some(token)}
    {
      assert RowOk(announcements.rows[id]);
      var end := dispatch.Run(id, Some(token), attempt.recipients, attempt.beatFault, attempt.completeFault, _ => now,
                              now);
      if end.ResolveThrew? || end.CompleteThrew? {
        ReleaseOrPoison(id, token, attempt.releaseThrows, now);
      }
    }

    /** `claimNextDue` under a token that was never drawn before, with no peer holding locks. */
    method ClaimNext(now: int) returns (claimed: Option<nat>)
      modifies this`nextToken, announcements
      ensures nextToken == old(nextToken) + 1
      ensures ClaimedFrom(old(announcements.rows), announcements.rows, claimed, old(nextToken), now)
    {
      claimed := announcements.ClaimNextDue(now, nextToken, {});
      nextToken := nextToken + 1;
    }

    /** One claim pass, with the table to itself. */
    method Drain(now: int, env: Environment) returns (dispatched: seq<nat>)
      requires Valid()
      modifies this`nextToken, announcements
      ensures Valid()
      ensures Drained(old(announcements.rows), announcements.rows, dispatched, now, env)
    {
      dispatched := [];
      ghost var start, before := announcements.rows, announcements.rows;
      ghost var tables := [start];
      ghost var ids := Enumerate(start.Keys);
      var token := nextToken;
      var claimed := ClaimNext(now);
      while claimed.Some?
        invariant dispatch.announcements == announcements && nextToken == token + 1
        invariant TableOk(before) && TokensBelow(before, token)
        invariant before.Keys == start.Keys
        invariant Dispatches(tables, dispatched, start, before, now, env)
        invariant ClaimedFrom(before, announcements.rows, claimed, token, now)
        decreases TotalBudget(before, ids, now), claimed.Some?
      {
        var id := claimed.value;
        ClaimKeepsTable(before, id, token, now);
        DispatchClaimed(id, token, env(id, |dispatched|), now);
        DrainStep(tables, dispatched, start, before, announcements.rows, ids, now, env, id, token);
        dispatched := dispatched + [id];
        before := announcements.rows;
        tables := tables + [before];
        token := nextToken;
        claimed := ClaimNext(now);
      }
    }

    /** One pass: free the stuck claims (a failure to is ignored), then drain. */
    method Pass(now: int, env: Environment, sweepThrows: bool) returns (dispatched: seq<nat>)
      requires Valid()
      modifies this`nextToken, announcements
      ensures Valid()
      ensures Drained(Swept(old(announcements.rows), now, sweepThrows), announcements.rows, dispatched, now, env)
    {
      SweepKeepsTable(announcements.rows, now - STALE_CLAIM_MS, nextToken);
      if !sweepThrows {
        var _ := announcements.ReleaseStuck(now, STALE_CLAIM_MS);
      }
      dispatched := Drain(now, env);
    }

    /** Pass number `k` of a tick, added to the passes before it. */
    method PassOfTick(k: nat, now: nat -> int, env: nat -> Environment, sweepThrows: nat -> bool,
                      ghost tables: seq<Table>, ghost served: seq<seq<nat>>)
      returns (ghost tables': seq<Table>, ghost served': seq<seq<nat>>)
      requires Valid() && |served| == k
      requires PassesChain(tables, served, now, env, sweepThrows) && tables[k] == announcements.rows
      modifies this`nextToken, announcements
      ensures Valid() && |served'| == k + 1
      ensures PassesChain(tables', served', now, env, sweepThrows)
      ensures tables'[0] == tables[0] && tables'[k + 1] == announcements.rows
    {
      var dispatched := Pass(now(k), env(k), sweepThrows(k));
      NextPass(tables, served, now, env, sweepThrows, announcements.rows, dispatched);
      tables', served' := tables + [announcements.rows], served + [dispatched];
    }

    /**
     `tick`, one call from start to end. `arrivals(k)` says whether another tick arrives during pass `k`,
     `now(k)` when the pass runs, and `sweepThrows(k)` whether its `releaseStuck` fails (which is ignored).
     A tick that finds another one running only leaves its mark. Otherwise passes follow each other for
     as long as ticks arrive, at most `MAX_DRAIN_REENTRIES` of them, and the table ends up drained by the last.
     `tables` and `served` are the passes made: what each found, and the rows it dispatched.
     */
    method Tick(enabled: bool, now: nat -> int, env: nat -> Environment, sweepThrows: nat -> bool,
                arrivals: nat -> bool)
      returns (passes: nat, ghost tables: seq<Table>, ghost served: seq<seq<nat>>)
      requires Valid()
      modifies this, announcements
      ensures Valid()
      ensures |served| == passes && PassesChain(tables, served, now, env, sweepThrows)
      ensures tables[0] == old(announcements.rows) && tables[passes] == announcements.rows
      ensures !enabled || old(running) ==>
                passes == 0 && announcements.rows == old(announcements.rows)
                && running == old(running) && pending == (old(pending) || enabled)
      ensures enabled && !old(running) ==>
                && !running && 1 <= passes <= MAX_DRAIN_REENTRIES
                && KeptArriving(arrivals, passes)
                && (passes < MAX_DRAIN_REENTRIES ==> !arrivals(passes - 1))
                && (pending <==> arrivals(passes - 1))
                && (forall id | id in announcements.rows :: !Claimable(announcements.rows[id], now(passes - 1)))
                && announcements.rows.Keys == old(announcements.rows).Keys
                && Settled(old(announcements.rows), announcements.rows, now(0), sweepThrows(0), env, served)
    {
      passes, tables, served := 0, [announcements.rows], [];
      if !enabled { return; }
      if running {
        pending := true;
        return;
      }
      running := true;
      passes, tables, served := DrainWhilePending(now, env, sweepThrows, arrivals);
      running := false;
    }

    /** The do-while loop of `tick`. */
    method DrainWhilePending(now: nat -> int, env: nat -> Environment, sweepThrows: nat -> bool, arrivals: nat -> bool)
      returns (passes: nat, ghost tables: seq<Table>, ghost served: seq<seq<nat>>)
      requires Valid()
      modifies this`nextToken, this`pending, announcements
      ensures Valid()
      ensures |served| == passes && PassesChain(tables, served, now, env, sweepThrows)
      ensures tables[0] == old(announcements.rows) && tables[passes] == announcements.rows
      ensures 1 <= passes <= MAX_DRAIN_REENTRIES && KeptArriving(arrivals, passes)
      ensures pending <==> arrivals(passes - 1)
      ensures pending ==> passes == MAX_DRAIN_REENTRIES
      ensures forall id | id in announcements.rows :: !Claimable(announcements.rows[id], now(passes - 1))
      ensures announcements.rows.Keys == old(announcements.rows).Keys
      ensures Settled(old(announcements.rows), announcements.rows, now(0), sweepThrows(0), env, served)
    {
      passes, tables, served := 0, [announcements.rows], [];
      ghost var start := announcements.rows;
      var again := true;
      while again
        invariant Valid() && 0 <= passes <= MAX_DRAIN_REENTRIES && |served| == passes
        invariant PassesChain(tables, served, now, env, sweepThrows)
        invariant tables[0] == start && tables[passes] == announcements.rows
        invariant again <==> passes == 0 || (pending && passes < MAX_DRAIN_REENTRIES)
        invariant passes > 0 ==> (pending <==> arrivals(passes - 1))
        invariant KeptArriving(arrivals, passes)
        decreases MAX_DRAIN_REENTRIES - passes, again
      {
        pending := false;
        tables, served := PassOfTick(passes, now, env, sweepThrows, tables, served);
        if arrivals(passes) { pending := true; }
        passes := passes + 1;
        again := pending && passes < MAX_DRAIN_REENTRIES;
      }
      ChainSettles(tables, served, now, env, sweepThrows);
    }
  }
}
