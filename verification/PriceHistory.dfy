/** Merging stored and fetched price points, looking prices up, and finding what is still missing. */
module PriceHistory {
  import opened Wrappers

  datatype Point = Point(at: nat, price: real)

  /** The price a list gives for a timestamp when later entries win. */
  function LastPrice(points: seq<Point>, at: nat): Option<real> {
    if points == [] then None
    else if points[|points| - 1].at == at then Some(points[|points| - 1].price)
    else LastPrice(points[..|points| - 1], at)
  }

  /** Fetched prices win over stored ones, and stored ones fill in the rest. */
  lemma {:induction false} FetchedPricesWin(existing: seq<Point>, fetched: seq<Point>, at: nat)
    ensures LastPrice(existing + fetched, at)
         == if LastPrice(fetched, at).Some? then LastPrice(fetched, at) else LastPrice(existing, at)
    decreases |fetched|
  {
    if fetched == [] {
      assert existing + fetched == existing;
    } else {
      assert (existing + fetched)[..|existing + fetched| - 1] == existing + fetched[..|fetched| - 1];
      FetchedPricesWin(existing, fetched[..|fetched| - 1], at);
    }
  }

  predicate Ascending(points: seq<Point>) { forall i, j | 0 <= i < j < |points| :: points[i].at < points[j].at }

  predicate Descending(points: seq<Point>) { forall i, j | 0 <= i < j < |points| :: points[i].at >= points[j].at }

  // ---------------------------------------------------------------- merging

  function Insert(p: Point, points: seq<Point>): seq<Point> {
    if points == [] || p.at < points[0].at then [p] + points else [points[0]] + Insert(p, points[1..])
  }

  lemma {:induction false} InsertKeepsOrder(p: Point, points: seq<Point>)
    requires Ascending(points) && forall q | q in points :: q.at != p.at
    ensures Ascending(Insert(p, points))
    ensures forall q :: q in Insert(p, points) <==> q == p || q in points
  {
    if points != [] && p.at > points[0].at {
      var rest := Insert(p, points[1..]);
      InsertKeepsOrder(p, points[1..]);
      forall k | 0 <= k < |rest| ensures rest[k].at > points[0].at { assert rest[k] in rest; }
      assert points == [points[0]] + points[1..];
    }
  }

  /** The entries of a map of prices in ascending order of time. */
  method SortedEntries(prices: map<nat, real>) returns (sorted: seq<Point>)
    ensures Ascending(sorted)
    ensures forall p :: p in sorted <==> p.at in prices && prices[p.at] == p.price
  {
    sorted := [];
    var keys := prices.Keys;
    while keys != {}
      invariant keys <= prices.Keys
      invariant Ascending(sorted)
      invariant forall p :: p in sorted <==> p.at in prices && p.at !in keys && prices[p.at] == p.price
      decreases |keys|
    {
      var key :| key in keys;
      InsertKeepsOrder(Point(key, prices[key]), sorted);
      sorted := Insert(Point(key, prices[key]), sorted);
      keys := keys - {key};
    }
  }

  ghost predicate HoldsPricesOf(prices: map<nat, real>, points: seq<Point>) {
    forall at: nat :: LastPrice(points, at) == if at in prices then Some(prices[at]) else None
  }

  lemma StoringTheNextPoint(prices: map<nat, real>, points: seq<Point>, p: Point)
    requires HoldsPricesOf(prices, points)
    ensures HoldsPricesOf(prices[p.at := p.price], points + [p])
  {
    assert (points + [p])[..|points|] == points;
  }

  ghost predicate IsMerge(merged: seq<Point>, existing: seq<Point>, fetched: seq<Point>) {
    && Ascending(merged)
    && forall p :: p in merged <==> LastPrice(existing + fetched, p.at) == Some(p.price)
  }

  method MergePriceData(existing: seq<Point>, fetched: seq<Point>) returns (merged: seq<Point>)
    ensures IsMerge(merged, existing, fetched)
  {
    var mergedMap: map<nat, real> := map[];
    for i := 0 to |existing|
      invariant HoldsPricesOf(mergedMap, existing[..i])
    {
      StoringTheNextPoint(mergedMap, existing[..i], existing[i]);
      assert existing[..i + 1] == existing[..i] + [existing[i]];
      mergedMap := mergedMap[existing[i].at := existing[i].price];
    }
    assert existing[..|existing|] == existing;
    assert existing + fetched[..0] == existing;
    for i := 0 to |fetched|
      invariant HoldsPricesOf(mergedMap, existing + fetched[..i])
    {
      StoringTheNextPoint(mergedMap, existing + fetched[..i], fetched[i]);
      assert existing + fetched[..i + 1] == existing + fetched[..i] + [fetched[i]];
      mergedMap := mergedMap[fetched[i].at := fetched[i].price];
    }
    assert fetched[..|fetched|] == fetched;
    merged := SortedEntries(mergedMap);
    forall p ensures p in merged <==> LastPrice(existing + fetched, p.at) == Some(p.price) {
      assert LastPrice(existing + fetched, p.at) == if p.at in mergedMap then Some(mergedMap[p.at]) else None;
    }
  }

  // ---------------------------------------------------------------- looking a price up

  /** `k` is the first point, newest first, at or before the target. */
  ghost predicate FirstAtOrBefore(history: seq<Point>, target: nat, k: nat) {
    k < |history| && history[k].at <= target && forall i | 0 <= i < k :: history[i].at > target
  }

  method FindClosestHistoricalPrice(history: seq<Point>, target: nat, fallback: real) returns (price: real)
    requires Descending(history)
    ensures forall k: nat | FirstAtOrBefore(history, target, k) :: price == history[k].price
    ensures (forall k | 0 <= k < |history| :: history[k].at > target) ==> price == fallback
  {
    var left, right := 0, |history| - 1;
    price := fallback;
    while left <= right
      invariant 0 <= left <= right + 1 <= |history|
      invariant forall i | 0 <= i < left :: history[i].at > target
      invariant forall i | right < i < |history| :: history[i].at <= target
      invariant price == if right + 1 < |history| then history[right + 1].price else fallback
      decreases right - left
    {
      var middle := (left + right) / 2;
      if history[middle].at <= target {
        price := history[middle].price;
        right := middle - 1;
      } else {
        left := middle + 1;
      }
    }
    forall k: nat | FirstAtOrBefore(history, target, k) ensures k == right + 1 {
      assert k >= left;
      if right + 1 < |history| { assert history[right + 1].at <= target; }
    }
  }

  function Reversed(points: seq<Point>): (r: seq<Point>)
    ensures |r| == |points| && forall i | 0 <= i < |r| :: r[i] == points[|points| - 1 - i]
  {
    if points == [] then [] else Reversed(points[1..]) + [points[0]]
  }

  /** `at` is the newest timestamp, stored or fetched, that is not after the target. */
  ghost predicate IsLatest(points: seq<Point>, target: nat, at: nat) {
    && at <= target && LastPrice(points, at).Some?
    && forall u: nat | u <= target && LastPrice(points, u).Some? :: u <= at
  }

  lemma LatestIsFirst(merged: seq<Point>, existing: seq<Point>, fetched: seq<Point>, target: nat, at: nat)
    returns (k: nat)
    requires IsMerge(merged, existing, fetched) && IsLatest(existing + fetched, target, at)
    ensures FirstAtOrBefore(Reversed(merged), target, k)
    ensures Some(Reversed(merged)[k].price) == LastPrice(existing + fetched, at)
  {
    var p := Point(at, LastPrice(existing + fetched, at).value);
    assert p in merged;
    var i :| 0 <= i < |merged| && merged[i] == p;
    k := |merged| - 1 - i;
    forall j | 0 <= j < k ensures Reversed(merged)[j].at > target {
      var q := merged[|merged| - 1 - j];
      assert q in merged;
      assert q.at > at;
    }
  }

  /**
   Merging, turning the result newest first and searching it gives the fetched-over-stored price at the
   latest timestamp not after the target, or the fallback when there is none.
   */
  method PriceAt(existing: seq<Point>, fetched: seq<Point>, target: nat, fallback: real) returns (price: real)
    ensures forall at: nat | IsLatest(existing + fetched, target, at) ::
              LastPrice(existing + fetched, at) == Some(price)
    ensures (forall at: nat | at <= target :: LastPrice(existing + fetched, at).None?) ==> price == fallback
  {
    var merged := MergePriceData(existing, fetched);
    var history := Reversed(merged);
    price := FindClosestHistoricalPrice(history, target, fallback);
    forall at: nat | IsLatest(existing + fetched, target, at) ensures LastPrice(existing + fetched, at) == Some(price) {
      var k := LatestIsFirst(merged, existing, fetched, target, at);
    }
    if forall at: nat | at <= target :: LastPrice(existing + fetched, at).None? {
      forall k | 0 <= k < |history| ensures history[k].at > target { assert history[k] in merged; }
    }
  }

  // ---------------------------------------------------------------- missing ranges

  const HOUR_MS: nat := 3600000

  datatype Range = Range(first: int, last: int)

  predicate Sorted(ts: seq<int>) { forall i, j | 0 <= i < j < |ts| :: ts[i] <= ts[j] }

  /** A timestamp with data, or between two neighbours at most an hour apart. */
  ghost predicate Covered(ts: seq<int>, t: int) {
    exists i :: 0 <= i < |ts| && CoveredAt(ts, t, i)
  }

  predicate CoveredAt(ts: seq<int>, t: int, i: int)
    requires 0 <= i < |ts|
  {
    ts[i] == t || (i + 1 < |ts| && ts[i] < t < ts[i + 1] && ts[i + 1] - ts[i] <= 3600000)
  }

  predicate In(r: Range, t: int) { r.first <= t <= r.last }

  ghost predicate InSome(ranges: seq<Range>, t: int) { exists k :: 0 <= k < |ranges| && In(ranges[k], t) }

  predicate Apart(ranges: seq<Range>) {
    && (forall k | 0 <= k < |ranges| :: ranges[k].first <= ranges[k].last)
    && (forall j, k | 0 <= j < k < |ranges| :: ranges[j].last < ranges[k].first)
  }

  /** Between two neighbours only the second itself, or a short gap, is covered. */
  lemma CoveredBetween(ts: seq<int>, i: nat, t: int)
    requires Sorted(ts) && i + 1 < |ts| && ts[i] < t <= ts[i + 1]
    ensures Covered(ts, t) <==> t == ts[i + 1] || ts[i + 1] - ts[i] <= HOUR_MS
  {
    assert CoveredAt(ts, ts[i + 1], i + 1);
    if t != ts[i + 1] && ts[i + 1] - ts[i] <= HOUR_MS { assert CoveredAt(ts, t, i); }
    if Covered(ts, t) {
      var k :| 0 <= k < |ts| && CoveredAt(ts, t, k);
    }
  }

  lemma CoveredOutside(ts: seq<int>, t: int)
    requires Sorted(ts) && ts != []
    ensures t < ts[0] || t > ts[|ts| - 1] ==> !Covered(ts, t)
    ensures Covered(ts, ts[0])
  {
    assert CoveredAt(ts, ts[0], 0);
  }

  lemma PushRange(ranges: seq<Range>, r: Range, t: int)
    ensures InSome(ranges + [r], t) <==> InSome(ranges, t) || In(r, t)
  {
    if InSome(ranges, t) {
      var k :| 0 <= k < |ranges| && In(ranges[k], t);
      assert In((ranges + [r])[k], t);
    }
    if In(r, t) { assert In((ranges + [r])[|ranges|], t); }
  }

  /** The ranges hold exactly what is not covered from `start` to `last`. */
  ghost predicate HoldMissing(ranges: seq<Range>, existing: seq<int>, start: int, last: int) {
    forall t :: InSome(ranges, t) <==> start <= t <= last && !Covered(existing, t)
  }

  function PushIf(missing: bool, ranges: seq<Range>, r: Range): seq<Range> { if missing then ranges + [r] else ranges }

  /** Disjoint, in order, and all before `bound`. */
  predicate ApartBelow(ranges: seq<Range>, bound: int) {
    Apart(ranges) && (ranges != [] ==> ranges[|ranges| - 1].last < bound)
  }

  lemma PushApart(ranges: seq<Range>, first: int, last: int, bound: int)
    requires ApartBelow(ranges, first) && first <= last < bound
    ensures ApartBelow(ranges + [Range(first, last)], bound)
  {
    var longer := ranges + [Range(first, last)];
    forall j, k | 0 <= j < k < |longer| ensures longer[j].last < longer[k].first {
      assert longer[j] == ranges[j] && ranges[j].last <= ranges[|ranges| - 1].last;
    }
  }

  lemma EverythingMissing(existing: seq<int>, start: int, end: int)
    requires existing == []
    ensures HoldMissing([Range(start, end)], existing, start, end)
  {
    forall t ensures InSome([Range(start, end)], t) <==> start <= t <= end && !Covered(existing, t) {
      PushRange([], Range(start, end), t);
      assert [] + [Range(start, end)] == [Range(start, end)];
    }
  }

  lemma FirstRange(existing: seq<int>, start: int)
    requires Sorted(existing) && existing != [] && start <= existing[0]
    ensures HoldMissing(PushIf(existing[0] > start, [], Range(start, existing[0] - 1)), existing, start, existing[0])
  {
    var after := PushIf(existing[0] > start, [], Range(start, existing[0] - 1));
    forall t ensures InSome(after, t) <==> start <= t <= existing[0] && !Covered(existing, t) {
      PushRange([], Range(start, existing[0] - 1), t);
      CoveredOutside(existing, t);
    }
  }

  lemma GapRange(ranges: seq<Range>, existing: seq<int>, start: int, j: nat, i: nat, after: seq<Range>)
    requires Sorted(existing) && i == j + 1 < |existing| && start <= existing[j]
             && HoldMissing(ranges, existing, start, existing[j])
    requires after == PushIf(existing[i] - existing[j] > HOUR_MS, ranges, Range(existing[j] + 1, existing[i] - 1))
    ensures HoldMissing(after, existing, start, existing[i])
  {
    forall t ensures InSome(after, t) <==> start <= t <= existing[i] && !Covered(existing, t) {
      PushRange(ranges, Range(existing[j] + 1, existing[i] - 1), t);
      assert InSome(ranges, t) <==> start <= t <= existing[j] && !Covered(existing, t);
      if existing[j] < t <= existing[i] { CoveredBetween(existing, j, t); }
    }
  }

  lemma LastRange(ranges: seq<Range>, existing: seq<int>, start: int, end: int)
    requires Sorted(existing) && existing != [] && start <= existing[|existing| - 1] <= end
    requires HoldMissing(ranges, existing, start, existing[|existing| - 1])
    ensures HoldMissing(PushIf(existing[|existing| - 1] < end, ranges, Range(existing[|existing| - 1] + 1, end)),
                        existing, start, end)
  {
    var last := existing[|existing| - 1];
    var after := PushIf(last < end, ranges, Range(last + 1, end));
    forall t ensures InSome(after, t) <==> start <= t <= end && !Covered(existing, t) {
      PushRange(ranges, Range(last + 1, end), t);
      assert InSome(ranges, t) <==> start <= t <= last && !Covered(existing, t);
      CoveredOutside(existing, t);
    }
  }

  /** The ranges found up to the timestamp at `i`: before the first, and in every gap of more than an hour. */
  function RangesUpTo(existing: seq<int>, start: int, i: nat): seq<Range>
    requires i < |existing|
  {
    if i == 0 then PushIf(existing[0] > start, [], Range(start, existing[0] - 1))
    else PushIf(existing[i] - existing[i - 1] > HOUR_MS, RangesUpTo(existing, start, i - 1),
                Range(existing[i - 1] + 1, existing[i] - 1))
  }

  lemma {:induction false} RangesUpToHoldMissing(existing: seq<int>, start: int, i: nat)
    requires Sorted(existing) && i < |existing| && start <= existing[0]
    ensures HoldMissing(RangesUpTo(existing, start, i), existing, start, existing[i])
  {
    if i == 0 {
      FirstRange(existing, start);
    } else {
      RangesUpToHoldMissing(existing, start, i - 1);
      GapRange(RangesUpTo(existing, start, i - 1), existing, start, i - 1, i, RangesUpTo(existing, start, i));
    }
  }

  lemma {:induction false} RangesUpToAreApart(existing: seq<int>, start: int, i: nat)
    requires Sorted(existing) && i < |existing| && start <= existing[0]
    ensures ApartBelow(RangesUpTo(existing, start, i), existing[i])
  {
    if i > 0 {
      RangesUpToAreApart(existing, start, i - 1);
      if existing[i] - existing[i - 1] > HOUR_MS {
        PushApart(RangesUpTo(existing, start, i - 1), existing[i - 1] + 1, existing[i] - 1, existing[i]);
      }
    }
  }

  function MissingRanges(existing: seq<int>, start: int, end: int): seq<Range> {
    if existing == [] then [Range(start, end)]
    else
      var last := existing[|existing| - 1];
      PushIf(last < end, RangesUpTo(existing, start, |existing| - 1), Range(last + 1, end))
  }

  /** The missing ranges are disjoint, in order, and hold exactly the requested timestamps not covered. */
  lemma MissingRangesMeaning(existing: seq<int>, start: int, end: int)
    requires Sorted(existing) && forall i | 0 <= i < |existing| :: start <= existing[i] <= end
    ensures HoldMissing(MissingRanges(existing, start, end), existing, start, end)
    ensures start <= end ==> Apart(MissingRanges(existing, start, end))
  {
    if existing == [] {
      EverythingMissing(existing, start, end);
    } else {
      var n := |existing| - 1;
      RangesUpToHoldMissing(existing, start, n);
      RangesUpToAreApart(existing, start, n);
      LastRange(RangesUpTo(existing, start, n), existing, start, end);
      if existing[n] < end { PushApart(RangesUpTo(existing, start, n), existing[n] + 1, end, end + 1); }
    }
  }

  /** `existing` is what the query returns: the stored timestamps inside the requested range, ascending. */
  method GetMissingDataRanges(existing: seq<int>, start: int, end: int) returns (ranges: seq<Range>)
    requires Sorted(existing) && forall i | 0 <= i < |existing| :: start <= existing[i] <= end
    ensures HoldMissing(ranges, existing, start, end)
    ensures start <= end ==> Apart(ranges)
  {
    ranges := CollectRanges(existing, start, end);
    MissingRangesMeaning(existing, start, end);
  }

  /** The gaps at the beginning, between neighbours and at the end. */
  method CollectRanges(existing: seq<int>, start: int, end: int) returns (ranges: seq<Range>)
    ensures ranges == MissingRanges(existing, start, end)
  {
    if |existing| == 0 {
      return [Range(start, end)];
    }
    ranges := [];
    if existing[0] > start {
      ranges := ranges + [Range(start, existing[0] - 1)];
    }
    var n := |existing| - 1;
    for i := 0 to n
      invariant ranges == RangesUpTo(existing, start, i)
    {
      var gap := existing[i + 1] - existing[i];
      if gap > HOUR_MS {
        ranges := ranges + [Range(existing[i] + 1, existing[i + 1] - 1)];
      }
    }
    if existing[n] < end {
      ranges := ranges + [Range(existing[n] + 1, end)];
    }
  }
}
