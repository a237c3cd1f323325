/**
 When a processed row is final. A poisoning carries no claim token, so a replica that released the row
 at the cap can still write over what a peer completed in between; nothing else can.
 */
module AnnouncementFinality {
  import opened Wrappers
  import opened AnnouncementTable
  import opened AnnouncementProtocol

  /** Some replica has released `id` at the cap and has yet to poison it. */
  ghost predicate AboutToPoison(s: System, id: nat) {
    exists r: nat :: r < |s.replicas| && s.replicas[r].Poisoning? && s.replicas[r].id == id
  }

  predicate SameRow(s: System, t: System, id: nat) { id in s.rows && id in t.rows && t.rows[id] == s.rows[id] }

  /** The four counters and the audience of a row; poisoning zeroes them all. */
  function Counters(row: Row): Option<CompletionResult> {
    if row.outcome.None? then None else Some(row.outcome.value.(error := None))
  }

  const ZEROES := Some(CompletionResult(0, 0, 0, 0, 0, None))

  predicate SameCounters(s: System, t: System, id: nat) {
    id in s.rows && id in t.rows && Counters(t.rows[id]) == Counters(s.rows[id])
  }

  /** Only the release of a live claim leads to a poisoning, and a processed row has no live claim. */
  lemma PoisonerOrigin(s: System, a: Action, r: nat, id: nat)
    requires Inv(s) && Enabled(s, a) && id in s.rows && s.rows[id].processedAt.Some? && r < |s.replicas|
    ensures var p := Next(s, a).replicas[r];
            p.Poisoning? && p.id == id ==> s.replicas[r].Poisoning? && s.replicas[r].id == id
  {
    assert RowOk(s.rows[id]);
  }

  /** Nobody who is not about to poison a processed row ever will be: only a live claim leads there. */
  lemma NoPoisonerAppears(s: System, a: Action, id: nat)
    requires Inv(s) && Enabled(s, a) && id in s.rows && s.rows[id].processedAt.Some? && !AboutToPoison(s, id)
    ensures !AboutToPoison(Next(s, a), id)
    ensures SameRow(s, Next(s, a), id)
  {
    assert RowOk(s.rows[id]);
    RowsOnlyAdvance(s, a, id);
    var s' := Next(s, a);
    forall r: nat | r < |s'.replicas| ensures !(s'.replicas[r].Poisoning? && s'.replicas[r].id == id) {
      PoisonerOrigin(s, a, r, id);
    }
    if s'.rows[id] != s.rows[id] { ProcessedRowChangesOnlyByPoison(s, a, id); }
  }

  lemma {:induction false} UnpoisonedRowStays(s: System, run: seq<Action>, id: nat)
    requires Inv(s) && Runs(s, run) && id in s.rows && s.rows[id].processedAt.Some? && !AboutToPoison(s, id)
    ensures SameRow(s, Exec(s, run), id)
    decreases |run|
  {
    if run != [] {
      InvStep(s, run[0]);
      NoPoisonerAppears(s, run[0], id);
      UnpoisonedRowStays(Next(s, run[0]), run[1..], id);
    }
  }

  /** A pending poisoning can still land, at a moment other than the one stamped on the row. */
  lemma PoisoningLands(s: System, r: nat, id: nat) returns (run: seq<Action>)
    requires id in s.rows && r < |s.replicas| && s.replicas[r].Poisoning? && s.replicas[r].id == id
    ensures Runs(s, run) && !SameRow(s, Exec(s, run), id)
    ensures id in Exec(s, run).rows && Counters(Exec(s, run).rows[id]) == ZEROES
  {
    var wait := Wait(if s.rows[id].processedAt == Some(s.now) then 1 else 0);
    var waited := Next(s, wait);
    var end := Next(waited, Poison(r, true));
    assert Runs(end, []) && Runs(waited, [Poison(r, true)]);
    assert Exec(waited, [Poison(r, true)]) == end;
    run := [wait, Poison(r, true)];
    assert run[1..] == [Poison(r, true)];
  }

  /** Exactly when a processed row is final: no replica is about to poison it. */
  lemma ProcessedRowIsFinalIff(s: System, id: nat)
    requires Inv(s) && id in s.rows && s.rows[id].processedAt.Some?
    ensures (forall run: seq<Action> | Runs(s, run) :: SameRow(s, Exec(s, run), id)) <==> !AboutToPoison(s, id)
  {
    if AboutToPoison(s, id) {
      var r: nat :| r < |s.replicas| && s.replicas[r].Poisoning? && s.replicas[r].id == id;
      var run := PoisoningLands(s, r, id);
    } else {
      forall run: seq<Action> | Runs(s, run) ensures SameRow(s, Exec(s, run), id) { UnpoisonedRowStays(s, run, id); }
    }
  }

  /** Exactly when its counters are: no replica is about to poison it, or there is nothing in them to lose. */
  lemma CompletedCountersAreFinalIff(s: System, id: nat)
    requires Inv(s) && id in s.rows && s.rows[id].processedAt.Some?
    ensures (forall run: seq<Action> | Runs(s, run) :: SameCounters(s, Exec(s, run), id))
       <==> !AboutToPoison(s, id) || Counters(s.rows[id]) == ZEROES
  {
    if AboutToPoison(s, id) && Counters(s.rows[id]) != ZEROES {
      var r: nat :| r < |s.replicas| && s.replicas[r].Poisoning? && s.replicas[r].id == id;
      var run := PoisoningLands(s, r, id);
    } else {
      forall run: seq<Action> | Runs(s, run) ensures SameCounters(s, Exec(s, run), id) {
        if AboutToPoison(s, id) { ZeroesStay(s, run, id); } else { UnpoisonedRowStays(s, run, id); }
      }
    }
  }

  lemma {:induction false} ZeroesStay(s: System, run: seq<Action>, id: nat)
    requires Inv(s) && Runs(s, run) && id in s.rows && s.rows[id].processedAt.Some? && Counters(s.rows[id]) == ZEROES
    ensures id in Exec(s, run).rows && Counters(Exec(s, run).rows[id]) == ZEROES
    decreases |run|
  {
    if run != [] {
      var s' := Next(s, run[0]);
      InvStep(s, run[0]);
      RowsOnlyAdvance(s, run[0], id);
      if s'.rows[id] != s.rows[id] { ProcessedRowChangesOnlyByPoison(s, run[0], id); }
      ZeroesStay(s', run[1..], id);
    }
  }
}
