/**
 The claim/lease protocol: one table, any number of replicas, every SQL statement one atomic step.

 A replica is somewhere in `AnnouncementSchedulerService.tick` between two statements. Steps of
 different replicas interleave in any order; a replica may crash at any point (it restarts idle,
 with no memory), a statement may fail before or after it took effect, and rows may be inserted at
 any time. Claim tokens are never reused. The log is history only: no step reads it.
 */
module AnnouncementProtocol {
  import opened Wrappers
  import opened AnnouncementTable

  const MAX_DISPATCH_ATTEMPTS_PER_ROW: nat := 3

  datatype Phase =
    | Idle
    | Dispatching(id: nat, token: Token)
    | Releasing(id: nat, token: Token)      // dispatch.run threw, releaseClaim comes next
    | Poisoning(id: nat, attempts: nat)     // releaseClaim returned `attempts`, at or over the cap
  {
    /** The replica carries a claim token. */
    predicate Holding() { Dispatching? || Releasing? }
  }

  datatype Event =
    | Claimed(replica: nat, id: nat, token: Token)
    | Finished(replica: nat, id: nat, token: Token)   // markCompleted returned true
    | Released(replica: nat, id: nat, token: Token)   // releaseClaim matched the row
    | Poisoned(replica: nat, id: nat)

  datatype System = System(rows: Table, replicas: seq<Phase>, now: int, issued: set<Token>, log: seq<Event>)

  datatype Action =
    | Wait(ms: nat)
    | Insert(row: nat, scheduledAt: int)
    | Sweep(r: nat)                                          // releaseStuck
    | ClaimNext(r: nat, row: nat, uuid: Token, locked: set<nat>)
    | Beat(r: nat)
    | BeatError(r: nat, applied: bool)
    | Complete(r: nat, result: CompletionResult)
    | CompleteError(r: nat, result: CompletionResult, applied: bool)
    | Throw(r: nat)                                          // recipients could not be resolved
    | Release(r: nat)
    | ReleaseError(r: nat, applied: bool)
    | Poison(r: nat, applied: bool)
    | Crash(r: nat)

  predicate IsReplica(s: System, r: nat) { r < |s.replicas| }

  predicate Enabled(s: System, a: Action) {
    match a
    case Wait(_) => true
    case Insert(row, _) => row !in s.rows
    case Sweep(r) => IsReplica(s, r) && s.replicas[r].Idle?
    case ClaimNext(r, row, uuid, locked) =>
      IsReplica(s, r) && s.replicas[r].Idle? && uuid !in s.issued && NextDue(s.rows, locked, s.now, row)
    case Beat(r) => IsReplica(s, r) && s.replicas[r].Dispatching?
    case BeatError(r, _) => IsReplica(s, r) && s.replicas[r].Dispatching?
    case Complete(r, result) => IsReplica(s, r) && s.replicas[r].Dispatching? && Balanced(result)
    case CompleteError(r, result, _) => IsReplica(s, r) && s.replicas[r].Dispatching? && Balanced(result)
    case Throw(r) => IsReplica(s, r) && s.replicas[r].Dispatching?
    case Release(r) => IsReplica(s, r) && s.replicas[r].Releasing?
    case ReleaseError(r, _) => IsReplica(s, r) && s.replicas[r].Releasing?
    case Poison(r, _) => IsReplica(s, r) && s.replicas[r].Poisoning?
    case Crash(r) => IsReplica(s, r)
  }

  /** The phase of replica `r` becomes `p`, the table becomes `rows`, and `events` are logged. */
  function Update(s: System, r: nat, p: Phase, rows: Table, events: seq<Event>): System
    requires IsReplica(s, r)
  {
    s.(rows := rows, replicas := s.replicas[r := p], log := s.log + events)
  }

  function FinishedEvents(s: System, r: nat, id: nat, token: Token): seq<Event> {
    if Owns(s.rows, id, token) then [Finished(r, id, token)] else []
  }

  function ReleasedEvents(s: System, r: nat, id: nat, token: Token): seq<Event> {
    if Owns(s.rows, id, token) then [Released(r, id, token)] else []
  }

  function Next(s: System, a: Action): System
    requires Enabled(s, a)
  {
    match a
    case Wait(ms) => s.(now := s.now + ms)
    case Insert(row, scheduledAt) =>
      s.(rows := s.rows[row := Row(scheduledAt, None, None, 0, None, None)])
    case Sweep(r) => s.(rows := ReleaseStuck(s.rows, s.now - STALE_CLAIM_MS))
    case ClaimNext(r, row, uuid, _) =>
      Update(s, r, Dispatching(row, uuid), Claim(s.rows, row, uuid, s.now), [Claimed(r, row, uuid)])
        .(issued := s.issued + {uuid})
    case Beat(r) =>
      var p := s.replicas[r];
      Update(s, r, if StillOwned(s.rows, p.id, p.token) then p else Idle,
             HeartbeatClaim(s.rows, p.id, p.token, s.now), [])
    case BeatError(r, applied) =>
      var p := s.replicas[r];
      if applied then s.(rows := HeartbeatClaim(s.rows, p.id, p.token, s.now)) else s
    case Complete(r, result) =>
      var p := s.replicas[r];
      Update(s, r, Idle, MarkCompleted(s.rows, p.id, p.token, s.now, result), FinishedEvents(s, r, p.id, p.token))
    case CompleteError(r, result, applied) =>
      var p := s.replicas[r];
      if applied then
        Update(s, r, Releasing(p.id, p.token), MarkCompleted(s.rows, p.id, p.token, s.now, result),
               FinishedEvents(s, r, p.id, p.token))
      else Update(s, r, Releasing(p.id, p.token), s.rows, [])
    case Throw(r) =>
      var p := s.replicas[r];
      Update(s, r, Releasing(p.id, p.token), s.rows, [])
    case Release(r) =>
      var p := s.replicas[r];
      var attempts := AttemptsAfterRelease(s.rows, p.id, p.token);
      Update(s, r, if attempts >= MAX_DISPATCH_ATTEMPTS_PER_ROW then Poisoning(p.id, attempts) else Idle,
             ReleaseClaim(s.rows, p.id, p.token), ReleasedEvents(s, r, p.id, p.token))
    case ReleaseError(r, applied) =>
      var p := s.replicas[r];
      if applied then
        Update(s, r, Idle, ReleaseClaim(s.rows, p.id, p.token), ReleasedEvents(s, r, p.id, p.token))
      else Update(s, r, Idle, s.rows, [])
    case Poison(r, applied) =>
      var p := s.replicas[r];
      if applied then
        Update(s, r, Idle, MarkPoisoned(s.rows, p.id, s.now, "dispatch crashed"), [Poisoned(r, p.id)])
      else Update(s, r, Idle, s.rows, [])
    case Crash(r) => Update(s, r, Idle, s.rows, [])
  }

  function Init(replicas: nat): System { System(map[], seq(replicas, _ => Idle), 0, {}, []) }

  predicate Runs(s: System, run: seq<Action>)
    decreases |run|
  {
    run == [] || (Enabled(s, run[0]) && Runs(Next(s, run[0]), run[1..]))
  }

  function Exec(s: System, run: seq<Action>): System
    requires Runs(s, run)
    decreases |run|
  {
    if run == [] then s else Exec(Next(s, run[0]), run[1..])
  }

  lemma {:induction false} ExtendRun(s: System, run: seq<Action>, a: Action)
    requires Runs(s, run) && Enabled(Exec(s, run), a)
    ensures Runs(s, run + [a]) && Exec(s, run + [a]) == Next(Exec(s, run), a)
    decreases |run|
  {
    if run == [] {
      assert Runs(Next(s, a), []);
      assert (run + [a])[1..] == [];
    } else {
      ExtendRun(Next(s, run[0]), run[1..], a);
      assert (run + [a])[1..] == run[1..] + [a];
    }
  }

  // ---------------------------------------------------------------- readings of the log

  /** Number of successful releases of `id`. */
  function Releases(log: seq<Event>, id: nat): nat {
    if log == [] then 0
    else Releases(log[..|log| - 1], id) + if log[|log| - 1].Released? && log[|log| - 1].id == id then 1 else 0
  }

  /** Number of successful completions of `id`. */
  function Completions(log: seq<Event>, id: nat): nat {
    if log == [] then 0
    else Completions(log[..|log| - 1], id) + if log[|log| - 1].Finished? && log[|log| - 1].id == id then 1 else 0
  }

  /** Whether `id` was completed or poisoned. */
  predicate Terminated(log: seq<Event>, id: nat) {
    log != [] &&
    (Terminated(log[..|log| - 1], id)
     || (log[|log| - 1].id == id && (log[|log| - 1].Finished? || log[|log| - 1].Poisoned?)))
  }

  /** The claim on `id` that no release, completion, poisoning or later claim has ended. */
  function CurrentClaim(log: seq<Event>, id: nat): Option<Event> {
    if log == [] then None
    else
      var e := log[|log| - 1];
      if e.id != id then CurrentClaim(log[..|log| - 1], id)
      else if e.Claimed? then Some(e)
      else None
  }

  /** What the log may say next: completions and releases come only from the row's current claimant. */
  predicate EventOk(before: seq<Event>, e: Event) {
    match e
    case Claimed(_, id, _) => !Terminated(before, id)
    case Finished(r, id, t) => CurrentClaim(before, id) == Some(Claimed(r, id, t)) && !Terminated(before, id)
    case Released(r, id, t) => CurrentClaim(before, id) == Some(Claimed(r, id, t)) && !Terminated(before, id)
    case Poisoned(_, id) => Releases(before, id) >= MAX_DISPATCH_ATTEMPTS_PER_ROW
  }

  predicate LogOk(log: seq<Event>) {
    log == [] || (LogOk(log[..|log| - 1]) && EventOk(log[..|log| - 1], log[|log| - 1]))
  }

  // ---------------------------------------------------------------- the invariant

  ghost predicate Holder(s: System, p: nat) { p < |s.replicas| && s.replicas[p].Holding() }

  /** A token names one claim: no two rows, and no two replicas, carry the same one. */
  ghost predicate TokensOk(s: System) {
    && (forall i | i in s.rows && s.rows[i].claimToken.Some? :: s.rows[i].claimToken.value in s.issued)
    && (forall p: nat | Holder(s, p) :: s.replicas[p].token in s.issued)
    && (forall i, j | i in s.rows && j in s.rows && i != j && s.rows[i].claimToken.Some? ::
          s.rows[i].claimToken != s.rows[j].claimToken)
    && (forall p: nat, q: nat | Holder(s, p) && Holder(s, q) && p != q :: s.replicas[p].token != s.replicas[q].token)
    && (forall p: nat, j: nat | Holder(s, p) && Owns(s.rows, j, s.replicas[p].token) :: j == s.replicas[p].id)
  }

  ghost predicate PhasesOk(s: System) {
    && (forall p: nat | Holder(s, p) :: s.replicas[p].id in s.rows)
    && (forall p: nat | p < |s.replicas| && s.replicas[p].Poisoning? ::
          && s.replicas[p].id in s.rows
          && MAX_DISPATCH_ATTEMPTS_PER_ROW <= s.replicas[p].attempts <= s.rows[s.replicas[p].id].attemptCount)
  }

  /** `attempt_count` is the number of releases, and a row is processed exactly when the log says so. */
  ghost predicate CountsOk(s: System, i: nat) {
    if i in s.rows then
      s.rows[i].attemptCount == Releases(s.log, i) && (Terminated(s.log, i) <==> s.rows[i].processedAt.Some?)
    else Releases(s.log, i) == 0 && !Terminated(s.log, i)
  }

  /** The table agrees with the log, and the log only grew in permitted ways. */
  ghost predicate HistoryOk(s: System) {
    && LogOk(s.log)
    && (forall i: nat :: CountsOk(s, i))
    && (forall p: nat | Holder(s, p) && Owns(s.rows, s.replicas[p].id, s.replicas[p].token) ::
          CurrentClaim(s.log, s.replicas[p].id) == Some(Claimed(p, s.replicas[p].id, s.replicas[p].token)))
  }

  /** A row is claimed only once it is due. */
  ghost predicate ClaimsDue(s: System) {
    forall i | i in s.rows && s.rows[i].claimToken.Some? :: s.rows[i].scheduledAt <= s.now
  }

  ghost predicate Inv(s: System) {
    TableOk(s.rows) && TokensOk(s) && PhasesOk(s) && HistoryOk(s) && ClaimsDue(s)
  }

  lemma InitInv(n: nat)
    ensures Inv(Init(n))
  {
  }

  lemma RowStaysOk(s: System, a: Action, i: nat)
    requires TableOk(s.rows) && Enabled(s, a) && i in Next(s, a).rows
    ensures RowOk(Next(s, a).rows[i])
  {
    assert i in s.rows ==> RowOk(s.rows[i]);
  }

  lemma TableStep(s: System, a: Action)
    requires TableOk(s.rows) && Enabled(s, a)
    ensures TableOk(Next(s, a).rows)
  {
    forall i | i in Next(s, a).rows ensures RowOk(Next(s, a).rows[i]) { RowStaysOk(s, a, i); }
  }

  lemma RowStaysDue(s: System, a: Action, i: nat)
    requires ClaimsDue(s) && Enabled(s, a) && i in Next(s, a).rows && Next(s, a).rows[i].claimToken.Some?
    ensures Next(s, a).rows[i].scheduledAt <= Next(s, a).now
  {
  }

  lemma DueStep(s: System, a: Action)
    requires ClaimsDue(s) && Enabled(s, a)
    ensures ClaimsDue(Next(s, a))
  {
    var s' := Next(s, a);
    forall i | i in s'.rows && s'.rows[i].claimToken.Some? ensures s'.rows[i].scheduledAt <= s'.now {
      RowStaysDue(s, a, i);
    }
  }

  /** Only a claim puts a token on a row. */
  lemma TokenOrigin(s: System, a: Action, j: nat, t: Token)
    requires Enabled(s, a) && Owns(Next(s, a).rows, j, t)
    ensures Owns(s.rows, j, t) || (a.ClaimNext? && j == a.row && t == a.uuid)
  {
  }

  /** Only a claim hands a token to a replica, and nothing swaps it for another. */
  lemma HolderOrigin(s: System, a: Action, p: nat)
    requires Enabled(s, a) && Holder(Next(s, a), p)
    ensures (Holder(s, p) && s.replicas[p].id == Next(s, a).replicas[p].id
             && s.replicas[p].token == Next(s, a).replicas[p].token)
         || (a.ClaimNext? && p == a.r && Next(s, a).replicas[p] == Dispatching(a.row, a.uuid))
  {
  }

  lemma IssuedOnlyGrows(s: System, a: Action)
    requires Enabled(s, a)
    ensures s.issued <= Next(s, a).issued
    ensures a.ClaimNext? ==> a.uuid !in s.issued && a.uuid in Next(s, a).issued
  {
  }

  /** The tokens on the rows are issued and different. */
  lemma RowTokensStep(s: System, a: Action, i: nat, t: Token)
    requires TokensOk(s) && Enabled(s, a) && Owns(Next(s, a).rows, i, t)
    ensures t in Next(s, a).issued
    ensures forall j | j != i :: !Owns(Next(s, a).rows, j, t)
  {
    IssuedOnlyGrows(s, a);
    TokenOrigin(s, a, i, t);
    forall j | j != i ensures !Owns(Next(s, a).rows, j, t) {
      if Owns(Next(s, a).rows, j, t) { TokenOrigin(s, a, j, t); }
    }
  }

  /** The tokens the replicas hold are issued and different, and on no row but their own. */
  lemma HolderTokensStep(s: System, a: Action, p: nat)
    requires TokensOk(s) && Enabled(s, a) && Holder(Next(s, a), p)
    ensures var s' := Next(s, a); var t := s'.replicas[p].token;
      && t in s'.issued
      && (forall q: nat | Holder(s', q) && q != p :: s'.replicas[q].token != t)
      && (forall j: nat | Owns(s'.rows, j, t) :: j == s'.replicas[p].id)
  {
    var s' := Next(s, a);
    var t := s'.replicas[p].token;
    IssuedOnlyGrows(s, a);
    HolderOrigin(s, a, p);
    forall q: nat | Holder(s', q) && q != p ensures s'.replicas[q].token != t { HolderOrigin(s, a, q); }
    forall j: nat | Owns(s'.rows, j, t) ensures j == s'.replicas[p].id { TokenOrigin(s, a, j, t); }
  }

  lemma TokensStep(s: System, a: Action)
    requires TokensOk(s) && Enabled(s, a)
    ensures TokensOk(Next(s, a))
  {
    var s' := Next(s, a);
    forall i, t: Token | Owns(s'.rows, i, t) ensures t in s'.issued && forall j | j != i :: !Owns(s'.rows, j, t) {
      RowTokensStep(s, a, i, t);
    }
    forall p: nat | Holder(s', p)
      ensures s'.replicas[p].token in s'.issued
      ensures forall q: nat | Holder(s', q) && q != p :: s'.replicas[q].token != s'.replicas[p].token
      ensures forall j: nat | Owns(s'.rows, j, s'.replicas[p].token) :: j == s'.replicas[p].id
    {
      HolderTokensStep(s, a, p);
    }
    TokensFollow(s');
  }

  /** The same, put together for all rows and replicas. */
  lemma TokensFollow(s: System)
    requires forall i, t: Token | Owns(s.rows, i, t) :: t in s.issued && forall j | j != i :: !Owns(s.rows, j, t)
    requires forall p: nat | Holder(s, p) ::
               && s.replicas[p].token in s.issued
               && (forall q: nat | Holder(s, q) && q != p :: s.replicas[q].token != s.replicas[p].token)
               && (forall j: nat | Owns(s.rows, j, s.replicas[p].token) :: j == s.replicas[p].id)
    ensures TokensOk(s)
  {
    forall i | i in s.rows && s.rows[i].claimToken.Some?
      ensures s.rows[i].claimToken.value in s.issued
      ensures forall j | j in s.rows && i != j :: s.rows[i].claimToken != s.rows[j].claimToken
    {
      var t := s.rows[i].claimToken.value;
      assert Owns(s.rows, i, t);
      assert forall j | j in s.rows && j != i :: !Owns(s.rows, j, t);
    }
  }

  /** Rows stay, attempt counts never fall, and `processed` never reverts: for each single step. */
  lemma RowsOnlyAdvance(s: System, a: Action, i: nat)
    requires Enabled(s, a) && i in s.rows
    ensures i in Next(s, a).rows
    ensures s.rows[i].attemptCount <= Next(s, a).rows[i].attemptCount
    ensures s.rows[i].processedAt.Some? ==> Next(s, a).rows[i].processedAt.Some?
  {
  }

  lemma HolderKeepsRow(s: System, a: Action, p: nat)
    requires PhasesOk(s) && Enabled(s, a) && Holder(Next(s, a), p)
    ensures Next(s, a).replicas[p].id in Next(s, a).rows
  {
    HolderOrigin(s, a, p);
    if Holder(s, p) { RowsOnlyAdvance(s, a, s.replicas[p].id); }
  }

  /** A replica about to poison was so before, or has just released its row at the cap. */
  lemma PoisonerAtTheCap(s: System, a: Action, p: nat)
    requires PhasesOk(s) && Enabled(s, a) && p < |Next(s, a).replicas| && Next(s, a).replicas[p].Poisoning?
    ensures var s' := Next(s, a); var phase := s'.replicas[p];
      phase.id in s'.rows && MAX_DISPATCH_ATTEMPTS_PER_ROW <= phase.attempts <= s'.rows[phase.id].attemptCount
  {
    if s.replicas[p].Poisoning? { RowsOnlyAdvance(s, a, s.replicas[p].id); }
  }

  lemma PhasesStep(s: System, a: Action)
    requires PhasesOk(s) && Enabled(s, a)
    ensures PhasesOk(Next(s, a))
  {
    var s' := Next(s, a);
    forall p: nat | Holder(s', p) ensures s'.replicas[p].id in s'.rows { HolderKeepsRow(s, a, p); }
    forall p: nat | p < |s'.replicas| && s'.replicas[p].Poisoning?
      ensures s'.replicas[p].id in s'.rows
      ensures MAX_DISPATCH_ATTEMPTS_PER_ROW <= s'.replicas[p].attempts <= s'.rows[s'.replicas[p].id].attemptCount
    {
      PoisonerAtTheCap(s, a, p);
    }
  }

  /** The event a step logs, if any. */
  ghost function Logged(s: System, a: Action): Option<Event>
    requires Enabled(s, a)
  {
    if |Next(s, a).log| == |s.log| + 1 then Some(Next(s, a).log[|s.log|]) else None
  }

  lemma LogGrows(s: System, a: Action)
    requires Enabled(s, a)
    ensures Next(s, a).log == if Logged(s, a).Some? then s.log + [Logged(s, a).value] else s.log
  {
  }

  lemma LoggedIsOk(s: System, a: Action)
    requires Inv(s) && Enabled(s, a)
    ensures Logged(s, a).Some? ==> EventOk(s.log, Logged(s, a).value)
  {
    if Logged(s, a).Some? { assert CountsOk(s, Logged(s, a).value.id); }
  }

  /** What a step appends to the log is permitted by the log so far. */
  lemma LogStep(s: System, a: Action)
    requires Inv(s) && Enabled(s, a)
    ensures LogOk(Next(s, a).log)
  {
    LogGrows(s, a);
    LoggedIsOk(s, a);
    var log' := Next(s, a).log;
    if log' != s.log { assert log'[..|log'| - 1] == s.log; }
  }

  lemma Appended(log: seq<Event>, e: Event, i: nat)
    ensures Releases(log + [e], i) == Releases(log, i) + if e.Released? && e.id == i then 1 else 0
    ensures Terminated(log + [e], i) <==> Terminated(log, i) || (e.id == i && (e.Finished? || e.Poisoned?))
    ensures CurrentClaim(log + [e], i) ==
            if e.id != i then CurrentClaim(log, i) else if e.Claimed? then Some(e) else None
  {
    assert (log + [e])[..|log|] == log;
  }

  /** A row's attempt count moves exactly with the releases logged about it. */
  lemma AttemptsFollowLog(s: System, a: Action, i: nat)
    requires PhasesOk(s) && Enabled(s, a) && i in s.rows
    ensures i in Next(s, a).rows
    ensures Next(s, a).rows[i].attemptCount
            == s.rows[i].attemptCount + if ReleaseOf(Logged(s, a), i) then 1 else 0
  {
  }

  /** Its processed mark moves exactly with the completions and poisonings logged about it. */
  lemma ProcessedFollowsLog(s: System, a: Action, i: nat)
    requires PhasesOk(s) && Enabled(s, a) && i in s.rows
    ensures i in Next(s, a).rows
    ensures Next(s, a).rows[i].processedAt.Some? <==> s.rows[i].processedAt.Some? || EndOf(Logged(s, a), i)
  {
  }

  predicate ReleaseOf(e: Option<Event>, i: nat) { e.Some? && e.value.Released? && e.value.id == i }

  predicate EndOf(e: Option<Event>, i: nat) { e.Some? && (e.value.Finished? || e.value.Poisoned?) && e.value.id == i }

  /** Events are about rows that exist. */
  lemma LoggedRowExists(s: System, a: Action, i: nat)
    requires PhasesOk(s) && Enabled(s, a) && i !in s.rows
    ensures Logged(s, a).Some? ==> Logged(s, a).value.id != i
  {
    if a.Complete? || a.CompleteError? || a.Release? || a.ReleaseError? { assert Holder(s, a.r); }
  }

  /** A row that appears is untouched. */
  lemma RowAppears(s: System, a: Action, i: nat)
    requires PhasesOk(s) && Enabled(s, a) && i !in s.rows
    ensures i in Next(s, a).rows ==> Next(s, a).rows[i].attemptCount == 0 && Next(s, a).rows[i].processedAt.None?
  {
  }

  lemma CountsStep(s: System, a: Action, i: nat)
    requires Inv(s) && Enabled(s, a)
    ensures CountsOk(Next(s, a), i)
  {
    assert CountsOk(s, i);
    LogGrows(s, a);
    if Logged(s, a).Some? { Appended(s.log, Logged(s, a).value, i); }
    if i in s.rows {
      AttemptsFollowLog(s, a, i);
      ProcessedFollowsLog(s, a, i);
    } else {
      LoggedRowExists(s, a, i);
      RowAppears(s, a, i);
    }
  }

  /** While a token stays on its row, nothing is logged about the row. */
  lemma OwnedRowIsNotLogged(s: System, a: Action, id: nat, t: Token)
    requires TokensOk(s) && Enabled(s, a) && Owns(s.rows, id, t) && Owns(Next(s, a).rows, id, t)
    ensures Logged(s, a).Some? ==> Logged(s, a).value.id != id
  {
  }

  /** A fresh claim is what is logged about its row. */
  lemma ClaimIsLogged(s: System, a: Action)
    requires Enabled(s, a) && a.ClaimNext?
    ensures Logged(s, a) == Some(Claimed(a.r, a.row, a.uuid))
  {
  }

  /** Replica `p` still owns row `id` under `t`: the row's current claim in the log is its own. */
  lemma ClaimStays(s: System, a: Action, p: nat, id: nat, t: Token)
    requires TokensOk(s) && Enabled(s, a) && CurrentClaim(s.log, id) == Some(Claimed(p, id, t))
    requires Owns(s.rows, id, t) && Owns(Next(s, a).rows, id, t)
    ensures CurrentClaim(Next(s, a).log, id) == Some(Claimed(p, id, t))
  {
    LogGrows(s, a);
    OwnedRowIsNotLogged(s, a, id, t);
    if Logged(s, a).Some? { Appended(s.log, Logged(s, a).value, id); }
  }

  /** A replica that still owns its row is the row's current claimant in the log. */
  lemma ClaimantStep(s: System, a: Action, p: nat, id: nat, t: Token)
    requires TokensOk(s) && HistoryOk(s) && Enabled(s, a) && Holder(Next(s, a), p)
    requires id == Next(s, a).replicas[p].id && t == Next(s, a).replicas[p].token && Owns(Next(s, a).rows, id, t)
    ensures CurrentClaim(Next(s, a).log, id) == Some(Claimed(p, id, t))
  {
    HolderOrigin(s, a, p);
    if Holder(s, p) && s.replicas[p].id == id && s.replicas[p].token == t {
      OldTokenStays(s, a, p, id, t);
      ClaimStays(s, a, p, id, t);
    } else {
      LogGrows(s, a);
      ClaimIsLogged(s, a);
      Appended(s.log, Logged(s, a).value, id);
    }
  }

  /** A token that a replica holds is not drawn again. */
  lemma OldTokenStays(s: System, a: Action, p: nat, id: nat, t: Token)
    requires TokensOk(s) && Enabled(s, a) && Holder(s, p) && s.replicas[p].token == t && Owns(Next(s, a).rows, id, t)
    ensures Owns(s.rows, id, t)
  {
    TokenOrigin(s, a, id, t);
  }

  lemma InvStep(s: System, a: Action)
    requires Inv(s) && Enabled(s, a)
    ensures Inv(Next(s, a))
  {
    var s' := Next(s, a);
    TableStep(s, a);
    DueStep(s, a);
    TokensStep(s, a);
    PhasesStep(s, a);
    LogStep(s, a);
    forall i: nat ensures CountsOk(s', i) { CountsStep(s, a, i); }
    forall p: nat | Holder(s', p) && Owns(s'.rows, s'.replicas[p].id, s'.replicas[p].token)
      ensures CurrentClaim(s'.log, s'.replicas[p].id) == Some(Claimed(p, s'.replicas[p].id, s'.replicas[p].token))
    {
      ClaimantStep(s, a, p, s'.replicas[p].id, s'.replicas[p].token);
    }
  }

  lemma {:induction false} InvOverRun(s: System, run: seq<Action>)
    requires Inv(s) && Runs(s, run)
    ensures Inv(Exec(s, run))
    decreases |run|
  {
    if run != [] {
      InvStep(s, run[0]);
      InvOverRun(Next(s, run[0]), run[1..]);
    }
  }

  // ---------------------------------------------------------------- the promises, over whole runs

  /** A completion is the last thing that happens to a row, apart from poisonings. */
  lemma {:induction false} AtMostOneCompletion(log: seq<Event>, id: nat)
    requires LogOk(log)
    ensures Completions(log, id) <= 1
    ensures Completions(log, id) == 1 ==> Terminated(log, id)
  {
    if log != [] { AtMostOneCompletion(log[..|log| - 1], id); }
  }

  /**
   Over every interleaving, crash and failure: each row is in exactly one lifecycle state with
   claimed_at and claim_token null together, its counters add up, at most one markCompleted on it
   ever succeeds, and attempt_count counts the releases by the row's current claimants.
   */
  lemma LifecycleOverEveryRun(n: nat, run: seq<Action>, id: nat)
    requires Runs(Init(n), run)
    requires id in Exec(Init(n), run).rows
    ensures var s := Exec(Init(n), run); var row := s.rows[id];
      && ((Pending(row) && !InFlight(row) && !Completed(row))
          || (!Pending(row) && InFlight(row) && !Completed(row))
          || (!Pending(row) && !InFlight(row) && Completed(row)))
      && (row.claimedAt.None? <==> row.claimToken.None?)
      && (Completed(row) ==> row.outcome.Some? && Balanced(row.outcome.value))
      && LogOk(s.log)
      && Completions(s.log, id) <= 1
      && row.attemptCount == Releases(s.log, id)
  {
    InitInv(n);
    InvOverRun(Init(n), run);
    var s := Exec(Init(n), run);
    assert RowOk(s.rows[id]) && CountsOk(s, id);
    AtMostOneCompletion(s.log, id);
  }

  lemma {:induction false} ProcessedNeverReverts(s: System, run: seq<Action>, id: nat)
    requires Runs(s, run) && id in s.rows
    ensures id in Exec(s, run).rows
    ensures s.rows[id].processedAt.Some? ==> Exec(s, run).rows[id].processedAt.Some?
    ensures s.rows[id].attemptCount <= Exec(s, run).rows[id].attemptCount
    decreases |run|
  {
    if run != [] {
      RowsOnlyAdvance(s, run[0], id);
      ProcessedNeverReverts(Next(s, run[0]), run[1..], id);
    }
  }

  /** No row carries `t`: whoever holds it has lost the claim. */
  ghost predicate Superseded(s: System, t: Token) {
    t in s.issued && forall j | j in s.rows :: s.rows[j].claimToken != Some(t)
  }

  /** A lost claim never comes back: an issued token that is off the table stays off it. */
  lemma {:induction false} LostClaimStaysLost(s: System, run: seq<Action>, t: Token)
    requires Runs(s, run) && Superseded(s, t)
    ensures Superseded(Exec(s, run), t)
    decreases |run|
  {
    if run != [] {
      var s' := Next(s, run[0]);
      forall j | j in s'.rows ensures s'.rows[j].claimToken != Some(t)
      {
        if s'.rows[j].claimToken == Some(t) { TokenOrigin(s, run[0], j, t); }
      }
      LostClaimStaysLost(s', run[1..], t);
    }
  }

  predicate GuardedBy(a: Action, r: nat) {
    match a
    case Beat(q) => q == r
    case BeatError(q, _) => q == r
    case Complete(q, _) => q == r
    case CompleteError(q, _, _) => q == r
    case Throw(q) => q == r
    case Release(q) => q == r
    case ReleaseError(q, _) => q == r
    case _ => false
  }

  /** None of a superseded owner's statements under its token changes a row, and none leads it to poison one. */
  lemma SupersededWritesNothing(s: System, r: nat, a: Action)
    requires PhasesOk(s) && Holder(s, r) && Superseded(s, s.replicas[r].token) && GuardedBy(a, r) && Enabled(s, a)
    ensures Next(s, a).rows == s.rows && Next(s, a).log == s.log && !Next(s, a).replicas[r].Poisoning?
  {
    assert !Owns(s.rows, s.replicas[r].id, s.replicas[r].token);
  }

  /**
   From the moment a replica's claim is superseded, and whatever the others do meanwhile, none of
   its heartbeats, completions or releases under that token changes a row, and none leads it to poison one.
   */
  lemma LostOwnerWritesNothing(s: System, run: seq<Action>, r: nat, a: Action)
    requires Inv(s) && Holder(s, r) && Superseded(s, s.replicas[r].token)
    requires Runs(s, run) && Holder(Exec(s, run), r) && Exec(s, run).replicas[r].token == s.replicas[r].token
    requires GuardedBy(a, r) && Enabled(Exec(s, run), a)
    ensures Next(Exec(s, run), a).rows == Exec(s, run).rows
    ensures Next(Exec(s, run), a).log == Exec(s, run).log
    ensures !Next(Exec(s, run), a).replicas[r].Poisoning?
  {
    LostClaimStaysLost(s, run, s.replicas[r].token);
    InvOverRun(s, run);
    SupersededWritesNothing(Exec(s, run), r, a);
  }

  /**
   An answered heartbeat tells a replica whether it still owns its row: it goes on dispatching, its lease renewed,
   exactly when the row is unprocessed and carries its token; otherwise it stops and has changed nothing.
   */
  lemma HeartbeatAnswersTruly(s: System, r: nat)
    requires Enabled(s, Beat(r))
    ensures var s' := Next(s, Beat(r)); var id, token := s.replicas[r].id, s.replicas[r].token;
      var owner := id in s.rows && s.rows[id].claimToken == Some(token) && s.rows[id].processedAt == None;
      && (owner ==> s'.replicas == s.replicas && s'.rows == s.rows[id := s.rows[id].(claimedAt := Some(s.now))])
      && (!owner ==> s'.replicas == s.replicas[r := Idle] && s'.rows == s.rows)
      && s'.now == s.now && s'.log == s.log
  {
    assert s.replicas[r := s.replicas[r]] == s.replicas;
  }

  /** So a superseded replica stops at its next answered heartbeat, whatever was done meanwhile. */
  lemma SupersededStopsAtItsNextAnswer(s: System, run: seq<Action>, r: nat)
    requires Holder(s, r) && Superseded(s, s.replicas[r].token)
    requires Runs(s, run) && Enabled(Exec(s, run), Beat(r))
    requires Exec(s, run).replicas[r].token == s.replicas[r].token
    ensures Next(Exec(s, run), Beat(r)).replicas[r].Idle?
    ensures Next(Exec(s, run), Beat(r)).rows == Exec(s, run).rows
  {
    LostClaimStaysLost(s, run, s.replicas[r].token);
    HeartbeatAnswersTruly(Exec(s, run), r);
  }

  /** `markPoisoned` is issued only for a row that its claimants have released at least three times. */
  lemma PoisonOnlyAtTheCap(n: nat, run: seq<Action>, r: nat, applied: bool)
    requires Runs(Init(n), run) && Enabled(Exec(Init(n), run), Poison(r, applied))
    ensures var s := Exec(Init(n), run);
      && s.replicas[r].id in s.rows
      && s.rows[s.replicas[r].id].attemptCount >= MAX_DISPATCH_ATTEMPTS_PER_ROW
      && Releases(s.log, s.replicas[r].id) >= MAX_DISPATCH_ATTEMPTS_PER_ROW
      && LogOk(s.log)
  {
    InitInv(n);
    InvOverRun(Init(n), run);
    var s := Exec(Init(n), run);
    assert CountsOk(s, s.replicas[r].id);
  }

  /**
   A processed row is written again only by a poisoning. Completed counters are therefore not
   immutable; `PoisonOverwritesACompletion` is a run in which they are lost.
   */
  lemma ProcessedRowChangesOnlyByPoison(s: System, a: Action, id: nat)
    requires Inv(s) && Enabled(s, a) && id in s.rows && s.rows[id].processedAt.Some?
    ensures Next(s, a).rows[id] != s.rows[id] ==>
              a.Poison? && a.applied && s.replicas[a.r].id == id
              && s.rows[id].attemptCount >= MAX_DISPATCH_ATTEMPTS_PER_ROW
  {
    assert RowOk(s.rows[id]);
  }
}
