/**
 `AnnouncementDispatchService.run`: the batched fan-out of one claimed announcement.

 What the outside answers is a parameter: the recipients (or the failure to resolve them), the
 response of the notification engine for each recipient, heartbeats and completions that throw,
 and the times of the statements.
 */
module AnnouncementDispatch {
  import opened Wrappers
  import opened AnnouncementTable
  import opened Announcements

  datatype SendOutcome = Sent | OptedOut | NoChannel | Failed(error: Option<string>)

  /** A settled `send` promise; a rejection counts as a failure. */
  datatype Response = Resolved(outcome: SendOutcome) | Rejected(message: string)

  datatype Recipient = Recipient(address: string, response: Response)

  /** A statement either answers, or throws before or after it took effect. */
  datatype Fault = Answers | ThrowsUnapplied | ThrowsApplied

  datatype RunEnd = NoToken | ResolveThrew | LostClaim | Superseded | CompleteThrew | Done

  function Settle(r: Response): SendOutcome {
    match r
    case Resolved(o) => o
    case Rejected(m) => Failed(Some(m))
  }

  // ---------------------------------------------------------------- counting

  function Delivered(rs: seq<Recipient>): nat {
    if rs == [] then 0 else (if Settle(rs[0].response).Sent? then 1 else 0) + Delivered(rs[1..])
  }

  function OptOuts(rs: seq<Recipient>): nat {
    if rs == [] then 0 else (if Settle(rs[0].response).OptedOut? then 1 else 0) + OptOuts(rs[1..])
  }

  function Unreachable(rs: seq<Recipient>): nat {
    if rs == [] then 0 else (if Settle(rs[0].response).NoChannel? then 1 else 0) + Unreachable(rs[1..])
  }

  function Failures(rs: seq<Recipient>): nat {
    if rs == [] then 0 else (if Settle(rs[0].response).Failed? then 1 else 0) + Failures(rs[1..])
  }

  /** The error of the first failure that carries one. */
  function FirstError(rs: seq<Recipient>): Option<string> {
    if rs == [] then None
    else
      var o := Settle(rs[0].response);
      if o.Failed? && o.error.Some? then o.error else FirstError(rs[1..])
  }

  function Tally(rs: seq<Recipient>): CompletionResult {
    CompletionResult(|rs|, Delivered(rs), OptOuts(rs), Unreachable(rs), Failures(rs), FirstError(rs))
  }

  /** Every recipient is counted under exactly one outcome. */
  lemma {:induction false} TallyBalances(rs: seq<Recipient>)
    ensures Balanced(Tally(rs))
  {
    if rs != [] { TallyBalances(rs[1..]); }
  }

  lemma {:induction false} TallyAppend(a: seq<Recipient>, b: seq<Recipient>)
    ensures Delivered(a + b) == Delivered(a) + Delivered(b)
    ensures OptOuts(a + b) == OptOuts(a) + OptOuts(b)
    ensures Unreachable(a + b) == Unreachable(a) + Unreachable(b)
    ensures Failures(a + b) == Failures(a) + Failures(b)
    ensures FirstError(a + b) == if FirstError(a).Some? then FirstError(a) else FirstError(b)
  {
    if a == [] {
      assert a + b == b;
    } else {
      assert (a + b)[1..] == a[1..] + b;
      TallyAppend(a[1..], b);
    }
  }

  // ---------------------------------------------------------------- what the counters count

  /** The positions of the recipients whose response is `r`. */
  function Positions(rs: seq<Recipient>, r: Response): set<nat> { set i: nat | i < |rs| && rs[i].response == r }

  /** The positions of the recipients whose send was rejected, or resolved as failed. */
  function FailedPositions(rs: seq<Recipient>): set<nat> {
    set i: nat | i < |rs| && (rs[i].response.Rejected? || (rs[i].response.Resolved? && rs[i].response.outcome.Failed?))
  }

  /** The response carries `message`: a rejection always does, a resolved failure may. */
  predicate CarriesError(r: Response, message: string) {
    r == Rejected(message) || r == Resolved(Failed(Some(message)))
  }

  lemma PositionsGrow(rs: seq<Recipient>, last: Recipient, r: Response)
    ensures |Positions(rs + [last], r)| == |Positions(rs, r)| + if last.response == r then 1 else 0
  {
    if last.response == r {
      assert Positions(rs + [last], r) == Positions(rs, r) + {|rs|};
    } else {
      assert Positions(rs + [last], r) == Positions(rs, r);
    }
  }

  lemma FailedPositionsGrow(rs: seq<Recipient>, last: Recipient)
    ensures |FailedPositions(rs + [last])|
         == |FailedPositions(rs)| + if |rs| in FailedPositions(rs + [last]) then 1 else 0
  {
    if |rs| in FailedPositions(rs + [last]) {
      assert FailedPositions(rs + [last]) == FailedPositions(rs) + {|rs|};
    } else {
      assert FailedPositions(rs + [last]) == FailedPositions(rs);
    }
  }

  /** Each counter is the number of recipients that answered so. */
  lemma {:induction false} TallyCountsResponses(rs: seq<Recipient>)
    ensures Tally(rs).recipientCount == |rs|
    ensures Tally(rs).deliveredCount == |Positions(rs, Resolved(Sent))|
    ensures Tally(rs).optedOutCount == |Positions(rs, Resolved(OptedOut))|
    ensures Tally(rs).noChannelCount == |Positions(rs, Resolved(NoChannel))|
    ensures Tally(rs).failedCount == |FailedPositions(rs)|
  {
    if rs == [] {
      assert Positions(rs, Resolved(Sent)) == {} && Positions(rs, Resolved(OptedOut)) == {};
      assert Positions(rs, Resolved(NoChannel)) == {} && FailedPositions(rs) == {};
    } else {
      var front, last := rs[..|rs| - 1], rs[|rs| - 1];
      assert rs == front + [last];
      TallyCountsResponses(front);
      TallyAppend(front, [last]);
      PositionsGrow(front, last, Resolved(Sent));
      PositionsGrow(front, last, Resolved(OptedOut));
      PositionsGrow(front, last, Resolved(NoChannel));
      FailedPositionsGrow(front, last);
    }
  }

  ghost predicate Silent(r: Response) { forall m :: !CarriesError(r, m) }

  lemma SettledError(r: Response)
    ensures Silent(r) <==> !(Settle(r).Failed? && Settle(r).error.Some?)
    ensures !Silent(r) ==> CarriesError(r, Settle(r).error.value)
  {
    if Settle(r).Failed? && Settle(r).error.Some? { assert CarriesError(r, Settle(r).error.value); }
  }

  /** The error is the message of the first recipient whose response carries one; there is none only if none does. */
  lemma {:induction false} TallyKeepsFirstError(rs: seq<Recipient>)
    ensures Tally(rs).error.None? ==> forall i | 0 <= i < |rs| :: Silent(rs[i].response)
    ensures Tally(rs).error.Some? ==>
              exists i :: 0 <= i < |rs| && CarriesError(rs[i].response, Tally(rs).error.value)
                          && forall j | 0 <= j < i :: Silent(rs[j].response)
  {
    if rs != [] {
      var rest := rs[1..];
      TallyKeepsFirstError(rest);
      SettledError(rs[0].response);
      if Silent(rs[0].response) {
        if FirstError(rest).Some? {
          var i :| 0 <= i < |rest| && CarriesError(rest[i].response, FirstError(rest).value)
                   && forall j | 0 <= j < i :: Silent(rest[j].response);
          assert CarriesError(rs[i + 1].response, FirstError(rest).value);
          assert forall j | 0 < j < i + 1 :: rs[j] == rest[j - 1];
        } else {
          assert forall j | 0 < j < |rs| :: rs[j] == rest[j - 1];
        }
      }
    }
  }

  // ---------------------------------------------------------------- batches

  function Flatten<T>(chunks: seq<seq<T>>): seq<T> {
    if chunks == [] then [] else chunks[0] + Flatten(chunks[1..])
  }

  lemma {:induction false} FlattenAppend<T>(a: seq<seq<T>>, b: seq<seq<T>>)
    ensures Flatten(a + b) == Flatten(a) + Flatten(b)
  {
    if a == [] {
      assert a + b == b;
    } else {
      assert (a + b)[1..] == a[1..] + b;
      FlattenAppend(a[1..], b);
    }
  }

  lemma FlattenNext<T>(chunks: seq<seq<T>>, i: nat)
    requires i < |chunks|
    ensures Flatten(chunks[..i + 1]) == Flatten(chunks[..i]) + chunks[i]
  {
    assert chunks[..i + 1] == chunks[..i] + [chunks[i]];
    FlattenAppend(chunks[..i], [chunks[i]]);
    assert Flatten([chunks[i]]) == chunks[i];
  }

  /** How many batches `items` addresses make. */
  function BatchCount(items: nat, size: int): nat {
    if items == 0 then 0
    else 1 + BatchCount(if size < 1 then items - 1 else if items < size then 0 else items - size, size)
  }

  /**
   `chunk` cuts a list into consecutive pieces: nothing is lost, repeated or moved, every piece but
   the last has exactly the clamped size, and none is empty.
   */
  method Chunk<T>(items: seq<T>, size: int) returns (out: seq<seq<T>>)
    ensures Flatten(out) == items
    ensures |out| == BatchCount(|items|, size)
    ensures forall i | 0 <= i < |out| :: 1 <= |out[i]| <= if size < 1 then 1 else size
    ensures forall i | 0 <= i < |out| - 1 :: |out[i]| == if size < 1 then 1 else size
  {
    var safeSize := if size < 1 then 1 else size;
    out := [];
    var i := 0;
    ghost var done := 0;
    while i < |items|
      invariant 0 <= i && done == if i < |items| then i else |items|
      invariant |out| + BatchCount(|items| - done, size) == BatchCount(|items|, size)
      invariant Flatten(out) == items[..done]
      invariant forall k | 0 <= k < |out| :: 1 <= |out[k]| <= safeSize && (|out[k]| == safeSize || i >= |items|)
      invariant forall k | 0 <= k < |out| - 1 :: |out[k]| == safeSize
    {
      var end := if i + safeSize < |items| then i + safeSize else |items|;
      FlattenNextPiece(out, items, i, end);
      out := out + [items[i..end]];
      i := i + safeSize;
      done := end;
    }
    assert items[..|items|] == items;
  }

  lemma FlattenNextPiece<T>(chunks: seq<seq<T>>, items: seq<T>, i: nat, end: nat)
    requires i <= end <= |items| && Flatten(chunks) == items[..i]
    ensures Flatten(chunks + [items[i..end]]) == items[..end]
  {
    FlattenAppend(chunks, [items[i..end]]);
    assert Flatten([items[i..end]]) == items[i..end];
    assert items[..i] + items[i..end] == items[..end];
  }

  /** The dispatch loop heartbeats after every fifth batch, except the last. */
  predicate BeatAfter(i: nat, batches: nat) { i + 1 < batches && i % 5 == 4 }

  /** A heartbeat reached the row: it was answered, or its answer was lost. */
  predicate Landed(fault: Fault) { !fault.ThrowsUnapplied? }

  /** The value of claimed_at once batch `i - 1` is behind: the claim, or the latest heartbeat that reached the row. */
  function RefreshedAt(claimedAt: int, clock: nat -> int, beatFault: nat -> Fault, batches: nat, i: nat): int {
    if i == 0 then claimedAt
    else if BeatAfter(i - 1, batches) && Landed(beatFault(i - 1)) then clock(i - 1)
    else RefreshedAt(claimedAt, clock, beatFault, batches, i - 1)
  }

  /** How many heartbeats in a row have failed to reach the row when batch `i` begins. */
  function MissedBefore(beatFault: nat -> Fault, batches: nat, i: nat): nat {
    if i == 0 then 0
    else
      var before := MissedBefore(beatFault, batches, i - 1);
      if !BeatAfter(i - 1, batches) then before
      else if Landed(beatFault(i - 1)) then 0 else before + 1
  }

  /** The inner loop over the settled outcomes of one batch, continuing the counters of the batches before. */
  method CountOutcomes(ghost before: seq<Recipient>, batch: seq<Recipient>, counters: CompletionResult)
    returns (after: CompletionResult)
    requires counters == Tally(before)
    ensures after == Tally(before + batch)
  {
    var delivered, optedOut, noChannel, failed, firstError :=
      counters.deliveredCount, counters.optedOutCount, counters.noChannelCount, counters.failedCount, counters.error;
    var k := 0;
    assert before + batch[..0] == before;
    while k < |batch|
      invariant 0 <= k <= |batch|
      invariant Tally(before + batch[..k])
             == CompletionResult(|before| + k, delivered, optedOut, noChannel, failed, firstError)
    {
      TallyAppend(before + batch[..k], [batch[k]]);
      assert before + batch[..k] + [batch[k]] == before + batch[..k + 1];
      match Settle(batch[k].response) {
        case Sent => delivered := delivered + 1;
        case OptedOut => optedOut := optedOut + 1;
        case NoChannel => noChannel := noChannel + 1;
        case Failed(error) =>
          failed := failed + 1;
          if firstError.None? { firstError := error; }
      }
      k := k + 1;
    }
    assert batch[..|batch|] == batch;
    after := CompletionResult(counters.recipientCount + |batch|, delivered, optedOut, noChannel, failed, firstError);
  }

  /** Up to a later claimed_at on row `id`: all that heartbeats change. */
  predicate OnlyRefreshed(before: Table, after: Table, id: nat) {
    && id in before && id in after && after[id].claimedAt.Some?
    && after == before[id := before[id].(claimedAt := after[id].claimedAt)]
  }

  /**
   An owner's row has claimed_at refreshed to `refreshed` and nothing else changed; without the claim
   nothing changed.
   */
  predicate KeptUp(before: Table, after: Table, id: nat, token: Token, refreshed: int) {
    if Owns(before, id, token) then OnlyRefreshed(before, after, id) && after[id].claimedAt == Some(refreshed)
    else after == before
  }

  /** One of the heartbeats due in the fan-out is answered. */
  ghost predicate SomeBeatAnswered(recipients: nat, fanoutBatch: int, beatFault: nat -> Fault) {
    exists i: nat :: BeatAfter(i, BatchCount(recipients, fanoutBatch)) && beatFault(i).Answers?
  }

  function ClaimTime(t: Table, id: nat, token: Token): int {
    if Owns(t, id, token) && t[id].claimedAt.Some? then t[id].claimedAt.value else 0
  }

  class AnnouncementDispatchService {
    const announcements: AnnouncementService
    const fanoutBatch: int

    constructor (announcements: AnnouncementService, fanoutBatch: int)
      ensures this.announcements == announcements && this.fanoutBatch == fanoutBatch
    {
      this.announcements := announcements;
      this.fanoutBatch := fanoutBatch;
    }

    /** One heartbeat; a heartbeat that throws is ignored. */
    method Heartbeat(id: nat, token: Token, fault: Fault, now: int, ghost before: Table, ghost refreshed: int)
      returns (lost: bool)
      requires TableOk(before) && KeptUp(before, announcements.rows, id, token, refreshed)
      modifies announcements
      ensures KeptUp(before, announcements.rows, id, token, if Landed(fault) then now else refreshed)
      ensures lost <==> fault.Answers? && !Owns(before, id, token)
    {
      assert Owns(before, id, token) ==> RowOk(before[id]);
      if fault.ThrowsUnapplied? { return false; }
      var stillOwned := announcements.HeartbeatClaim(id, token, now);
      return fault.Answers? && !stillOwned;
    }

    /**
     The batch loop. With the claim on the row it reaches the end and returns the tally of all
     recipients, whatever the batch size and whichever heartbeats throw.
     */
    method FanOut(id: nat, token: Token, addresses: seq<Recipient>, beatFault: nat -> Fault, clock: nat -> int)
      returns (lost: bool, result: CompletionResult, ghost beats: seq<nat>)
      requires TableOk(announcements.rows)
      modifies announcements
      ensures lost <==> !Owns(old(announcements.rows), id, token)
                        && SomeBeatAnswered(|addresses|, fanoutBatch, beatFault)
      ensures KeptUp(old(announcements.rows), announcements.rows, id, token,
                     if lost then 0 else
                       RefreshedAt(ClaimTime(old(announcements.rows), id, token), clock, beatFault,
                                   BatchCount(|addresses|, fanoutBatch), BatchCount(|addresses|, fanoutBatch)))
      ensures !lost ==> result == Tally(addresses)
      ensures !lost ==> forall i: nat :: i in beats <==> BeatAfter(i, BatchCount(|addresses|, fanoutBatch))
    {
      ghost var before := announcements.rows;
      ghost var claimedAt := ClaimTime(before, id, token);
      assert Owns(before, id, token) ==> RowOk(before[id]);
      result := CompletionResult(0, 0, 0, 0, 0, None);
      var batches := Chunk(addresses, fanoutBatch);
      var batchIdx := 0;
      beats := [];
      assert Flatten(batches[..0]) == [];
      while batchIdx < |batches|
        invariant 0 <= batchIdx <= |batches|
        invariant result == Tally(Flatten(batches[..batchIdx]))
        invariant forall i: nat :: i in beats <==> i < batchIdx && BeatAfter(i, |batches|)
        invariant !Owns(before, id, token) ==> forall i: nat | i in beats :: !beatFault(i).Answers?
        invariant KeptUp(before, announcements.rows, id, token,
                         RefreshedAt(claimedAt, clock, beatFault, |batches|, batchIdx))
      {
        var batch := batches[batchIdx];
        result := CountOutcomes(Flatten(batches[..batchIdx]), batch, result);
        FlattenNext(batches, batchIdx);

        if batchIdx < |batches| - 1 && batchIdx % 5 == 4 {
          lost := Heartbeat(id, token, beatFault(batchIdx), clock(batchIdx), before,
                            RefreshedAt(claimedAt, clock, beatFault, |batches|, batchIdx));
          if lost { return; }
          beats := beats + [batchIdx];
        }
        batchIdx := batchIdx + 1;
      }
      assert batches[..|batches|] == batches;
      lost := false;
    }

    /**
     Runs announcement `id` under `claimToken`. With the claim still on the row it writes the tally of
     all recipients; without it, nothing.
     */
    method Run(id: nat, claimToken: Option<Token>, recipients: Result<seq<Recipient>, string>,
               beatFault: nat -> Fault, completeFault: Fault, clock: nat -> int, now: int)
      returns (end: RunEnd)
      requires TableOk(announcements.rows)
      modifies announcements
      ensures claimToken.None? ==> end == NoToken
      ensures claimToken.Some? && recipients.Err? ==> end == ResolveThrew
      ensures end == NoToken || end == ResolveThrew ==> announcements.rows == old(announcements.rows)
      ensures claimToken.Some? && recipients.Ok? && !Owns(old(announcements.rows), id, claimToken.value) ==>
                && announcements.rows == old(announcements.rows)
                && end == if SomeBeatAnswered(|recipients.value|, fanoutBatch, beatFault) then LostClaim
                          else if completeFault.Answers? then Superseded else CompleteThrew
      ensures claimToken.Some? && recipients.Ok? && Owns(old(announcements.rows), id, claimToken.value) ==>
                end == (if completeFault.Answers? then Done else CompleteThrew)
                && (if completeFault.ThrowsUnapplied?
                    then OnlyRefreshed(old(announcements.rows), announcements.rows, id)
                    else announcements.rows == MarkCompleted(old(announcements.rows), id, claimToken.value, now,
                                                             Tally(recipients.value)))
      ensures TableOk(announcements.rows)
    {
      if claimToken.None? { return NoToken; }
      if recipients.Err? { return ResolveThrew; }
      ghost var before := announcements.rows;
      var lost, result, _ := FanOut(id, claimToken.value, recipients.value, beatFault, clock);
      if lost { return LostClaim; }
      TallyBalances(recipients.value);
      end := Finish(id, claimToken.value, completeFault, now, result, before);
    }

    /** The completion at the end of a run that started from `before`. */
    method Finish(id: nat, token: Token, completeFault: Fault, now: int, result: CompletionResult, ghost before: Table)
      returns (end: RunEnd)
      requires TableOk(before) && Balanced(result)
      requires Owns(before, id, token) ==> OnlyRefreshed(before, announcements.rows, id)
      requires !Owns(before, id, token) ==> announcements.rows == before
      modifies announcements
      ensures !Owns(before, id, token) ==>
                announcements.rows == before && end == if completeFault.Answers? then Superseded else CompleteThrew
      ensures Owns(before, id, token) ==>
                end == (if completeFault.Answers? then Done else CompleteThrew)
                && (if completeFault.ThrowsUnapplied? then OnlyRefreshed(before, announcements.rows, id)
                    else announcements.rows == MarkCompleted(before, id, token, now, result))
      ensures TableOk(announcements.rows)
    {
      assert Owns(before, id, token) ==> RowOk(before[id]);
      if completeFault.ThrowsUnapplied? { return CompleteThrew; }
      var completed := announcements.MarkCompleted(id, token, now, result);
      if completeFault.ThrowsApplied? { return CompleteThrew; }
      return if completed then Done else Superseded;
    }
  }
}
