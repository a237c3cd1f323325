/**
 `mapWithConcurrency`: a fixed pool of workers that pull the next index whenever they are free.

 The code between two awaits is one step: pulling an index and calling the mapper on it, or storing
 the value the mapper settled with. Which worker steps next is arbitrary. A mapper may reject; its
 worker then ends, the caller sees the first rejection, and the other workers keep pulling.
 */
module WorkerPool {
  import opened Wrappers

  datatype Worker = Ready | Mapping(index: nat) | Finished

  /** The mapper's settled value on one index. */
  function Settles<T, R>(items: seq<T>, mapper: (T, nat) -> Result<R, string>, i: nat): Result<R, string>
    requires i < |items|
  {
    mapper(items[i], i)
  }

  function WorkerCount(concurrency: int, itemCount: nat): (count: nat)
    ensures count <= itemCount && (concurrency >= 1 ==> count <= concurrency) && (concurrency < 1 ==> count <= 1)
    ensures itemCount > 0 ==> count > 0
    ensures count < itemCount ==> count == concurrency || count == 1
    ensures count < itemCount && count == 1 ==> concurrency <= 1
  {
    var atLeastOne := if concurrency > 1 then concurrency else 1;
    if atLeastOne < itemCount then atLeastOne else itemCount
  }

  /** The indices below `n` in order. */
  function Upto(n: nat): (s: seq<nat>)
    ensures |s| == n && forall i | 0 <= i < n :: s[i] == i
  {
    seq(n, i => i)
  }

  function InFlight(workers: seq<Worker>): nat {
    if workers == [] then 0
    else InFlight(workers[..|workers| - 1]) + if workers[|workers| - 1].Mapping? then 1 else 0
  }

  lemma {:induction false} InFlightAtMostWorkers(workers: seq<Worker>)
    ensures InFlight(workers) <= |workers|
  {
    if workers != [] { InFlightAtMostWorkers(workers[..|workers| - 1]); }
  }

  /**
   The pool between two steps. `calls` is history: the indices the mapper was called on, in order.
   */
  datatype Pool<R> = Pool(nextIndex: nat, results: seq<Option<R>>, workers: seq<Worker>,
                          rejected: Option<string>, calls: seq<nat>)

  /** A free worker pulls the next index and calls the mapper, or ends. */
  function Pull<R>(p: Pool<R>, w: nat): Pool<R>
    requires w < |p.workers|
  {
    if p.nextIndex >= |p.results| then p.(nextIndex := p.nextIndex + 1, workers := p.workers[w := Finished])
    else p.(nextIndex := p.nextIndex + 1, workers := p.workers[w := Mapping(p.nextIndex)],
            calls := p.calls + [p.nextIndex])
  }

  /** The mapper settles: store the value and carry on, or reject and end. */
  function Settle<R>(p: Pool<R>, w: nat, settled: Result<R, string>): Pool<R>
    requires w < |p.workers| && p.workers[w].Mapping? && p.workers[w].index < |p.results|
  {
    match settled
    case Ok(value) => p.(results := p.results[p.workers[w].index := Some(value)], workers := p.workers[w := Ready])
    case Err(error) =>
      p.(workers := p.workers[w := Finished], rejected := if p.rejected.None? then Some(error) else p.rejected)
  }

  // ---------------------------------------------------------------- what every step keeps

  /** Workers hold different indices, all handed out and with no result yet. */
  ghost predicate WorkersOk<R>(p: Pool<R>) {
    && (forall w | 0 <= w < |p.workers| && p.workers[w].Mapping? ::
          p.workers[w].index < |p.results| && p.workers[w].index < p.nextIndex && p.results[p.workers[w].index].None?)
    && (forall v, w | 0 <= v < w < |p.workers| && p.workers[v].Mapping? && p.workers[w].Mapping? ::
          p.workers[v].index != p.workers[w].index)
  }

  /** A stored result is the mapper's value for that index, and only handed-out indices have one. */
  ghost predicate ResultsOk<T, R>(items: seq<T>, mapper: (T, nat) -> Result<R, string>, p: Pool<R>) {
    && |p.results| == |items|
    && forall i | 0 <= i < |items| && p.results[i].Some? ::
         i < p.nextIndex && Settles(items, mapper, i) == Ok(p.results[i].value)
  }

  ghost predicate Holds(workers: seq<Worker>, i: nat) { exists w :: 0 <= w < |workers| && workers[w] == Mapping(i) }

  /** An index handed out is in flight, stored, or was rejected. */
  ghost predicate NothingDropped<T, R>(items: seq<T>, mapper: (T, nat) -> Result<R, string>, p: Pool<R>)
    requires |p.results| == |items|
  {
    forall i | 0 <= i < |items| && i < p.nextIndex ::
      Holds(p.workers, i) || p.results[i].Some? || (p.rejected.Some? && Settles(items, mapper, i).Err?)
  }

  ghost predicate RejectionOk<T, R>(items: seq<T>, mapper: (T, nat) -> Result<R, string>, rejected: Option<string>) {
    rejected.Some? ==> exists i :: 0 <= i < |items| && Settles(items, mapper, i) == Err(rejected.value)
  }

  /** With no rejection, a worker ends only when every index has been handed out. */
  ghost predicate NoneIdle<R>(p: Pool<R>) {
    forall w | 0 <= w < |p.workers| && p.workers[w].Finished? :: p.nextIndex >= |p.results| || p.rejected.Some?
  }

  /** The mapper has been called on 0, 1, 2, ... in that order, once each. */
  ghost predicate CalledInOrder<R>(p: Pool<R>) {
    p.calls == Upto(if p.nextIndex < |p.results| then p.nextIndex else |p.results|)
  }

  ghost predicate Inv<T, R>(items: seq<T>, concurrency: int, mapper: (T, nat) -> Result<R, string>, p: Pool<R>) {
    && |p.workers| == WorkerCount(concurrency, |items|)
    && ResultsOk(items, mapper, p)
    && WorkersOk(p)
    && NothingDropped(items, mapper, p)
    && RejectionOk(items, mapper, p.rejected)
    && NoneIdle(p)
    && CalledInOrder(p)
  }

  /** Nothing handed out, every worker free. */
  lemma StartOk<T, R>(items: seq<T>, concurrency: int, mapper: (T, nat) -> Result<R, string>, p: Pool<R>)
    requires |p.workers| == WorkerCount(concurrency, |items|) && forall w | 0 <= w < |p.workers| :: p.workers[w].Ready?
    requires |p.results| == |items| && forall i | 0 <= i < |items| :: p.results[i].None?
    requires p.nextIndex == 0 && p.rejected.None? && p.calls == []
    ensures Inv(items, concurrency, mapper, p)
  {}

  /** Handing a worker something new takes at most its own index out of flight. */
  lemma HoldsAfter(workers: seq<Worker>, w: nat, to: Worker)
    requires w < |workers|
    ensures forall i | Holds(workers, i) && workers[w] != Mapping(i) :: Holds(workers[w := to], i)
    ensures to.Mapping? ==> Holds(workers[w := to], to.index)
  {
    forall i | Holds(workers, i) && workers[w] != Mapping(i) ensures Holds(workers[w := to], i) {
      var v :| 0 <= v < |workers| && workers[v] == Mapping(i);
      assert workers[w := to][v] == Mapping(i);
    }
    if to.Mapping? { assert workers[w := to][w] == to; }
  }

  lemma PullKeepsInv<T, R>(items: seq<T>, concurrency: int, mapper: (T, nat) -> Result<R, string>, p: Pool<R>, w: nat)
    requires Inv(items, concurrency, mapper, p) && w < |p.workers| && p.workers[w].Ready?
    ensures Inv(items, concurrency, mapper, Pull(p, w))
  {
    HoldsAfter(p.workers, w, if p.nextIndex >= |p.results| then Finished else Mapping(p.nextIndex));
  }

  lemma SettleKeepsInv<T, R>(items: seq<T>, concurrency: int, mapper: (T, nat) -> Result<R, string>, p: Pool<R>, w: nat)
    requires Inv(items, concurrency, mapper, p) && w < |p.workers| && p.workers[w].Mapping?
    ensures Inv(items, concurrency, mapper, Settle(p, w, Settles(items, mapper, p.workers[w].index)))
  {
    var settled := Settles(items, mapper, p.workers[w].index);
    HoldsAfter(p.workers, w, if settled.Ok? then Ready else Finished);
  }

  /** Once every worker has ended, either a rejection is recorded or every index was called and has its result. */
  lemma FinishedPool<T, R>(items: seq<T>, concurrency: int, mapper: (T, nat) -> Result<R, string>, p: Pool<R>)
    requires items != [] && Inv(items, concurrency, mapper, p)
    requires forall w | 0 <= w < |p.workers| :: p.workers[w].Finished?
    ensures p.rejected.None? ==>
              && |p.calls| == |items|
              && forall i | 0 <= i < |items| ::
                   p.results[i].Some? && Settles(items, mapper, i) == Ok(p.results[i].value)
    ensures p.rejected.Some? ==> exists i :: 0 <= i < |items| && Settles(items, mapper, i) == Err(p.rejected.value)
    ensures |p.calls| <= |items| && p.calls == Upto(|p.calls|)
  {
    assert p.workers[0].Finished?;
  }

  // ---------------------------------------------------------------- termination

  function Weight(w: Worker): nat {
    match w case Ready => 1 case Mapping(_) => 2 case Finished => 0
  }

  function Weights(workers: seq<Worker>): nat {
    if workers == [] then 0 else Weights(workers[..|workers| - 1]) + Weight(workers[|workers| - 1])
  }

  lemma {:induction false} WeightsUpdate(workers: seq<Worker>, w: nat, to: Worker)
    requires w < |workers|
    ensures Weights(workers[w := to]) == Weights(workers) - Weight(workers[w]) + Weight(to)
  {
    var n := |workers| - 1;
    if w == n {
      assert workers[w := to][..n] == workers[..n];
    } else {
      assert workers[w := to][..n] == workers[..n][w := to];
      WeightsUpdate(workers[..n], w, to);
    }
  }

  /** Work left: two for each index not handed out, and what each worker still has to do. */
  function WorkLeft<R>(p: Pool<R>): nat {
    2 * (if p.nextIndex < |p.results| then |p.results| - p.nextIndex else 0) + Weights(p.workers)
  }

  lemma PullShrinksWork<R>(p: Pool<R>, w: nat)
    requires w < |p.workers| && p.workers[w].Ready?
    ensures WorkLeft(Pull(p, w)) < WorkLeft(p)
  {
    WeightsUpdate(p.workers, w, if p.nextIndex >= |p.results| then Finished else Mapping(p.nextIndex));
  }

  lemma SettleShrinksWork<R>(p: Pool<R>, w: nat, settled: Result<R, string>)
    requires w < |p.workers| && p.workers[w].Mapping? && p.workers[w].index < |p.results|
    ensures WorkLeft(Settle(p, w, settled)) < WorkLeft(p)
  {
    WeightsUpdate(p.workers, w, if settled.Ok? then Ready else Finished);
  }

  // ---------------------------------------------------------------- runs

  /** Worker `w` goes on: a free one pulls, a mapping one has its mapper settle. */
  predicate CanStep<R>(p: Pool<R>, w: nat) {
    w < |p.workers| && !p.workers[w].Finished? && (p.workers[w].Mapping? ==> p.workers[w].index < |p.results|)
  }

  function Step<T, R>(items: seq<T>, mapper: (T, nat) -> Result<R, string>, p: Pool<R>, w: nat): Pool<R>
    requires |p.results| == |items| && CanStep(p, w)
  {
    if p.workers[w].Ready? then Pull(p, w) else Settle(p, w, Settles(items, mapper, p.workers[w].index))
  }

  /** A run is the order in which the workers go on. */
  predicate Runs<T, R>(items: seq<T>, mapper: (T, nat) -> Result<R, string>, p: Pool<R>, run: seq<nat>)
    requires |p.results| == |items|
    decreases |run|
  {
    run == [] || (CanStep(p, run[0]) && Runs(items, mapper, Step(items, mapper, p, run[0]), run[1..]))
  }

  function Exec<T, R>(items: seq<T>, mapper: (T, nat) -> Result<R, string>, p: Pool<R>, run: seq<nat>): Pool<R>
    requires |p.results| == |items| && Runs(items, mapper, p, run)
    decreases |run|
  {
    if run == [] then p else Exec(items, mapper, Step(items, mapper, p, run[0]), run[1..])
  }

  /** No index pulled, every worker free. */
  function Start<R>(itemCount: nat, concurrency: int): Pool<R> {
    Pool(0, seq(itemCount, _ => None), seq(WorkerCount(concurrency, itemCount), _ => Ready), None, [])
  }

  lemma {:induction false} InvOverRun<T, R>(items: seq<T>, concurrency: int, mapper: (T, nat) -> Result<R, string>,
                                            p: Pool<R>, run: seq<nat>)
    requires Inv(items, concurrency, mapper, p) && Runs(items, mapper, p, run)
    ensures Inv(items, concurrency, mapper, Exec(items, mapper, p, run))
    decreases |run|
  {
    if run != [] {
      var w := run[0];
      if p.workers[w].Ready? {
        PullKeepsInv(items, concurrency, mapper, p, w);
      } else {
        SettleKeepsInv(items, concurrency, mapper, p, w);
      }
      InvOverRun(items, concurrency, mapper, Step(items, mapper, p, w), run[1..]);
    }
  }

  lemma {:induction false} ExtendRun<T, R>(items: seq<T>, mapper: (T, nat) -> Result<R, string>, p: Pool<R>,
                                           run: seq<nat>, w: nat)
    requires |p.results| == |items| && Runs(items, mapper, p, run) && CanStep(Exec(items, mapper, p, run), w)
    ensures |Exec(items, mapper, p, run).results| == |items|
    ensures Runs(items, mapper, p, run + [w])
    ensures Exec(items, mapper, p, run + [w]) == Step(items, mapper, Exec(items, mapper, p, run), w)
    decreases |run|
  {
    if run == [] {
      assert (run + [w])[1..] == [] && Runs(items, mapper, Step(items, mapper, p, w), []);
    } else {
      ExtendRun(items, mapper, Step(items, mapper, p, run[0]), run[1..], w);
      assert (run + [w])[1..] == run[1..] + [w];
    }
  }

  /**
   At every moment of every run: no more mappers are in flight than the clamped concurrency, on different
   indices, and the mapper has been called on 0, 1, 2, ... once each, on every item once the workers end
   without a rejection.
   */
  lemma EveryMoment<T, R>(items: seq<T>, concurrency: int, mapper: (T, nat) -> Result<R, string>, run: seq<nat>)
    requires Runs(items, mapper, Start(|items|, concurrency), run)
    ensures var p := Exec(items, mapper, Start(|items|, concurrency), run);
      && InFlight(p.workers) <= WorkerCount(concurrency, |items|)
      && (forall v, w | 0 <= v < w < |p.workers| && p.workers[v].Mapping? && p.workers[w].Mapping? ::
            p.workers[v].index != p.workers[w].index)
      && |p.calls| <= |items| && p.calls == Upto(|p.calls|)
      && ((forall w | 0 <= w < |p.workers| :: p.workers[w].Finished?) && p.rejected.None? ==> |p.calls| == |items|)
  {
    var p := Exec(items, mapper, Start(|items|, concurrency), run);
    StartOk(items, concurrency, mapper, Start(|items|, concurrency));
    InvOverRun(items, concurrency, mapper, Start(|items|, concurrency), run);
    InFlightAtMostWorkers(p.workers);
    if items != [] && forall w | 0 <= w < |p.workers| :: p.workers[w].Finished? {
      FinishedPool(items, concurrency, mapper, p);
    }
  }

  // ---------------------------------------------------------------- the function

  function Values<R>(results: seq<Option<R>>): (values: seq<R>)
    requires forall i | 0 <= i < |results| :: results[i].Some?
    ensures |values| == |results| && forall i | 0 <= i < |results| :: results[i] == Some(values[i])
  {
    seq(|results|, i requires 0 <= i < |results| => results[i].value)
  }

  /** The run leads from the start to `p`, which keeps the invariant. */
  ghost predicate Reached<T, R>(items: seq<T>, concurrency: int, mapper: (T, nat) -> Result<R, string>,
                                run: seq<nat>, p: Pool<R>) {
    && Inv(items, concurrency, mapper, p)
    && Runs(items, mapper, Start(|items|, concurrency), run)
    && p == Exec(items, mapper, Start(|items|, concurrency), run)
  }

  /** One more step keeps all that, and leaves less to do. */
  lemma Advance<T, R>(items: seq<T>, concurrency: int, mapper: (T, nat) -> Result<R, string>, run: seq<nat>,
                      p: Pool<R>, w: nat)
    requires Reached(items, concurrency, mapper, run, p) && w < |p.workers| && !p.workers[w].Finished?
    ensures CanStep(p, w) && |p.results| == |items|
    ensures Reached(items, concurrency, mapper, run + [w], Step(items, mapper, p, w))
    ensures WorkLeft(Step(items, mapper, p, w)) < WorkLeft(p)
  {
    ExtendRun(items, mapper, Start(|items|, concurrency), run, w);
    if p.workers[w].Ready? {
      PullKeepsInv(items, concurrency, mapper, p, w);
      PullShrinksWork(p, w);
    } else {
      SettleKeepsInv(items, concurrency, mapper, p, w);
      SettleShrinksWork(p, w, Settles(items, mapper, p.workers[w].index));
    }
  }

  /** What the caller sees of a pool whose workers have all ended. */
  ghost predicate Yields<R>(p: Pool<R>, outcome: Result<seq<R>, string>) {
    && (forall w | 0 <= w < |p.workers| :: p.workers[w].Finished?)
    && (outcome.Err? ==> p.rejected == Some(outcome.error))
    && (outcome.Ok? ==> p.rejected.None? && |outcome.value| == |p.results|
                        && forall i | 0 <= i < |p.results| :: p.results[i] == Some(outcome.value[i]))
  }

  /**
   Whatever the interleaving: the call resolves exactly when the mapper rejects nowhere, and then to
   the mapped items in order; otherwise it rejects with one of the mapper's errors. `run` is the
   interleaving, which `EveryMoment` speaks about.
   */
  method MapWithConcurrency<T, R>(items: seq<T>, concurrency: int, mapper: (T, nat) -> Result<R, string>)
    returns (outcome: Result<seq<R>, string>, ghost run: seq<nat>)
    ensures outcome.Ok? <==> forall i | 0 <= i < |items| :: Settles(items, mapper, i).Ok?
    ensures outcome.Ok? ==>
              && |outcome.value| == |items|
              && forall i | 0 <= i < |items| :: Settles(items, mapper, i) == Ok(outcome.value[i])
    ensures outcome.Err? ==> exists i :: 0 <= i < |items| && Settles(items, mapper, i) == Err(outcome.error)
    ensures Runs(items, mapper, Start(|items|, concurrency), run)
    ensures Yields(Exec(items, mapper, Start(|items|, concurrency), run), outcome)
  {
    run := [];
    if |items| == 0 {
      return Ok([]), run;
    }
    var results: array<Option<R>> := new Option<R>[|items|](_ => None);
    var nextIndex: nat := 0;
    var workerCount := WorkerCount(concurrency, |items|);
    var workers := seq(workerCount, _ => Ready);
    var rejected: Option<string> := None;
    ghost var calls: seq<nat> := [];
    ghost var p: Pool<R> := Start(|items|, concurrency);
    assert results[..] == p.results;
    StartOk(items, concurrency, mapper, p);
    while exists w :: 0 <= w < |workers| && !workers[w].Finished?
      invariant p == Pool(nextIndex, results[..], workers, rejected, calls)
      invariant Reached(items, concurrency, mapper, run, p)
      decreases WorkLeft(p)
    {
      var w: nat :| w < |workers| && !workers[w].Finished?;
      Advance(items, concurrency, mapper, run, p, w);
      run, p := run + [w], Step(items, mapper, p, w);
      if workers[w].Ready? {
        var currentIndex := nextIndex;
        nextIndex := nextIndex + 1;
        if currentIndex >= |items| {
          workers := workers[w := Finished];
        } else {
          workers := workers[w := Mapping(currentIndex)];
          calls := calls + [currentIndex];
        }
      } else {
        var currentIndex := workers[w].index;
        var settled := mapper(items[currentIndex], currentIndex);
        if settled.Ok? {
          results[currentIndex] := Some(settled.value);
          workers := workers[w := Ready];
        } else {
          workers := workers[w := Finished];
          if rejected.None? { rejected := Some(settled.error); }
        }
      }
    }
    FinishedPool(items, concurrency, mapper, p);
    if rejected.Some? {
      return Err(rejected.value), run;
    }
    outcome := Ok(Values(results[..]));
  }
}
