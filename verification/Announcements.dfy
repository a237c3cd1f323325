/** `AnnouncementService`: the SQL statements of `AnnouncementTable` run on a mutable table. */
module Announcements {
  import opened Wrappers
  import opened AnnouncementTable

  /** The service: one field, the table, and one method for each SQL statement. */
  class AnnouncementService {
    var rows: Table

    constructor (rows: Table)
      ensures this.rows == rows
    {
      this.rows := rows;
    }

    method ClaimNextDue(now: int, token: Token, locked: set<nat>) returns (claimed: Option<nat>)
      modifies this
      ensures claimed.None? ==>
                rows == old(rows) && forall id | id in rows :: id in locked || !Claimable(rows[id], now)
      ensures claimed.Some? ==>
                && NextDue(old(rows), locked, now, claimed.value)
                && rows == Claim(old(rows), claimed.value, token, now)
      ensures forall id | id in old(rows) && id !in locked && old(rows)[id].claimedAt == None
                          && old(rows)[id].processedAt == None && old(rows)[id].scheduledAt <= now ::
                claimed.Some? && claimed.value in old(rows)
                && old(rows)[claimed.value].scheduledAt <= old(rows)[id].scheduledAt
      ensures claimed.Some? ==>
                && claimed.value in old(rows) && claimed.value !in locked
                && old(rows)[claimed.value].claimedAt == None && old(rows)[claimed.value].processedAt == None
                && old(rows)[claimed.value].scheduledAt <= now
    {
      ghost var due := set id | id in rows && id !in locked && Claimable(rows[id], now);
      if id :| id in rows && NextDue(rows, locked, now, id) {
        rows := rows[id := rows[id].(claimedAt := Some(now), claimToken := Some(token))];
        claimed := Some(id);
      } else {
        claimed := None;
        if due != {} {
          var best := SomeRowIsNextDue(rows, locked, now, due);
          assert NextDue(rows, locked, now, best);
        }
        assert forall id | id in rows && id !in locked && Claimable(rows[id], now) :: id in due;
      }
    }

    method MarkCompleted(id: nat, token: Token, now: int, result: CompletionResult) returns (completed: bool)
      modifies this
      ensures completed <==> Owns(old(rows), id, token)
      ensures rows == AnnouncementTable.MarkCompleted(old(rows), id, token, now, result)
    {
      completed := id in rows && rows[id].claimToken == Some(token);
      if completed {
        rows := rows[id := rows[id].(processedAt := Some(now), claimedAt := None, claimToken := None,
                                     outcome := Some(result))];
      }
    }

    method MarkPoisoned(id: nat, now: int, message: string)
      modifies this
      ensures rows == AnnouncementTable.MarkPoisoned(old(rows), id, now, message)
    {
      if id in rows {
        rows := rows[id := rows[id].(processedAt := Some(now), claimedAt := None, claimToken := None,
                                     outcome := Some(CompletionResult(0, 0, 0, 0, 0, Some(message))))];
      }
    }

    method ReleaseClaim(id: nat, token: Token) returns (attempts: nat)
      modifies this
      ensures attempts == AttemptsAfterRelease(old(rows), id, token)
      ensures rows == AnnouncementTable.ReleaseClaim(old(rows), id, token)
    {
      if id in rows && rows[id].claimToken == Some(token) {
        attempts := rows[id].attemptCount + 1;
        rows := rows[id := rows[id].(claimedAt := None, claimToken := None, attemptCount := attempts)];
      } else {
        attempts := 0;
      }
    }

    method HeartbeatClaim(id: nat, token: Token, now: int) returns (stillOwned: bool)
      modifies this
      ensures stillOwned <==> StillOwned(old(rows), id, token)
      ensures rows == AnnouncementTable.HeartbeatClaim(old(rows), id, token, now)
    {
      stillOwned := id in rows && rows[id].claimToken == Some(token) && rows[id].processedAt == None;
      if stillOwned {
        rows := rows[id := rows[id].(claimedAt := Some(now))];
      }
    }

    method ReleaseStuck(now: int, staleAfterMs: int) returns (released: nat)
      modifies this
      ensures rows == AnnouncementTable.ReleaseStuck(old(rows), now - staleAfterMs)
      ensures rows.Keys == old(rows).Keys
      ensures forall id | id in old(rows) ::
                var row := old(rows)[id];
                rows[id] == if row.claimedAt.Some? && row.processedAt.None? && row.claimedAt.value < now - staleAfterMs
                            then row.(claimedAt := None, claimToken := None) else row
      ensures released == |set id | id in old(rows) && Stuck(old(rows)[id], now - staleAfterMs)|
    {
      var stuck := set id | id in rows && Stuck(rows[id], now - staleAfterMs);
      rows := map id | id in rows :: if id in stuck then rows[id].(claimedAt := None, claimToken := None) else rows[id];
      released := |stuck|;
    }
  }
}
