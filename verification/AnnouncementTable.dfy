/**
 The `announcements` table and the six SQL statements of `AnnouncementService`.

 Each statement is one atomic function on the table. A row is in one of three lifecycle states, read off
 `claimedAt` and `processedAt`.
 */
module AnnouncementTable {
  import opened Wrappers

  /** A claim token (a UUID drawn by the claimant). */
  type Token = nat

  /** The outcome columns: recipient_count, the four per-outcome counters, and error. */
  datatype CompletionResult = CompletionResult(
    recipientCount: nat,
    deliveredCount: nat,
    optedOutCount: nat,
    noChannelCount: nat,
    failedCount: nat,
    error: Option<string>)

  datatype Row = Row(
    scheduledAt: int,
    claimedAt: Option<int>,
    claimToken: Option<Token>,
    attemptCount: nat,
    processedAt: Option<int>,
    outcome: Option<CompletionResult>)

  type Table = map<nat, Row>

  const STALE_CLAIM_MS: int := 5 * 60 * 1000

  predicate Pending(row: Row) { row.claimedAt.None? && row.processedAt.None? }
  predicate InFlight(row: Row) { row.claimedAt.Some? && row.processedAt.None? }
  predicate Completed(row: Row) { row.claimedAt.None? && row.processedAt.Some? }

  /** The promise of the entity's documentation: the counters add up to the audience. */
  predicate Balanced(c: CompletionResult) {
    c.deliveredCount + c.optedOutCount + c.noChannelCount + c.failedCount == c.recipientCount
  }

  /** What every row satisfies at rest; `AnnouncementProtocol.InvStep` shows that every statement keeps it. */
  predicate RowOk(row: Row) {
    && (row.claimedAt.Some? <==> row.claimToken.Some?)
    && (row.claimedAt.Some? ==> row.processedAt.None?)
    && (row.processedAt.Some? <==> row.outcome.Some?)
    && (row.outcome.Some? ==> Balanced(row.outcome.value))
  }

  predicate TableOk(t: Table) { forall id | id in t :: RowOk(t[id]) }

  /** The three lifecycle states of the entity's documentation partition the rows. */
  lemma ExactlyOneLifecycleState(row: Row)
    requires RowOk(row)
    ensures Pending(row) || InFlight(row) || Completed(row)
    ensures !(Pending(row) && InFlight(row)) && !(Pending(row) && Completed(row)) && !(InFlight(row) && Completed(row))
  {
  }

  predicate Claimable(row: Row, now: int) { Pending(row) && row.scheduledAt <= now }

  /** `ORDER BY scheduled_at FOR UPDATE SKIP LOCKED LIMIT 1`: rows locked by peers are skipped. */
  predicate NextDue(t: Table, locked: set<nat>, now: int, id: nat) {
    && id in t && id !in locked && Claimable(t[id], now)
    && forall other | other in t && other !in locked && Claimable(t[other], now) ::
         t[id].scheduledAt <= t[other].scheduledAt
  }

  predicate Owns(t: Table, id: nat, token: Token) { id in t && t[id].claimToken == Some(token) }

  function Claim(t: Table, id: nat, token: Token, now: int): Table
    requires id in t
  {
    t[id := t[id].(claimedAt := Some(now), claimToken := Some(token))]
  }

  function MarkCompleted(t: Table, id: nat, token: Token, now: int, result: CompletionResult): Table {
    if Owns(t, id, token) then
      t[id := t[id].(processedAt := Some(now), claimedAt := None, claimToken := None, outcome := Some(result))]
    else t
  }

  function MarkPoisoned(t: Table, id: nat, now: int, message: string): Table {
    if id in t then
      t[id := t[id].(processedAt := Some(now), claimedAt := None, claimToken := None,
                     outcome := Some(CompletionResult(0, 0, 0, 0, 0, Some(message))))]
    else t
  }

  function ReleaseClaim(t: Table, id: nat, token: Token): Table {
    if Owns(t, id, token) then
      t[id := t[id].(claimedAt := None, claimToken := None, attemptCount := t[id].attemptCount + 1)]
    else t
  }

  /** The RETURNING value of `ReleaseClaim`: the new attempt count, or 0 when no row matched. */
  function AttemptsAfterRelease(t: Table, id: nat, token: Token): nat {
    if Owns(t, id, token) then t[id].attemptCount + 1 else 0
  }

  predicate StillOwned(t: Table, id: nat, token: Token) {
    Owns(t, id, token) && t[id].processedAt.None?
  }

  function HeartbeatClaim(t: Table, id: nat, token: Token, now: int): Table {
    if StillOwned(t, id, token) then t[id := t[id].(claimedAt := Some(now))] else t
  }

  predicate Stuck(row: Row, cutoff: int) {
    row.claimedAt.Some? && row.processedAt.None? && row.claimedAt.value < cutoff
  }

  function ReleaseStuck(t: Table, cutoff: int): Table {
    map id | id in t :: if Stuck(t[id], cutoff) then t[id].(claimedAt := None, claimToken := None) else t[id]
  }

  /** A claim query comes back empty only when nothing unlocked is claimable. */
  lemma {:induction false} SomeRowIsNextDue(t: Table, locked: set<nat>, now: int, ids: set<nat>) returns (id: nat)
    requires ids != {}
    requires forall i | i in ids :: i in t && i !in locked && Claimable(t[i], now)
    ensures id in ids && forall other | other in ids :: t[id].scheduledAt <= t[other].scheduledAt
    decreases ids
  {
    var first :| first in ids;
    id := first;
    if ids != {id} {
      var best := SomeRowIsNextDue(t, locked, now, ids - {id});
      if t[best].scheduledAt < t[id].scheduledAt { id := best; }
    }
  }

  /**
   A heartbeat at `beat` protects the claim from every sweep that runs within the stale threshold
   of it, and a claim left alone for longer is always taken back: the lease that dispatch relies on.
   */
  lemma HeartbeatRenewsLease(t: Table, id: nat, token: Token, beat: int, sweepAt: int)
    requires TableOk(t) && Owns(t, id, token)
    ensures Owns(ReleaseStuck(HeartbeatClaim(t, id, token, beat), sweepAt - STALE_CLAIM_MS), id, token)
       <==> sweepAt <= beat + 300000
    ensures sweepAt > beat + 300000 ==>
              Pending(ReleaseStuck(HeartbeatClaim(t, id, token, beat), sweepAt - STALE_CLAIM_MS)[id])
  {
    assert RowOk(t[id]);
  }
}
