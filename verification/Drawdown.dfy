/** Maximum drawdown of a sparkline, computed in one pass over exact reals. */
module Drawdown {

  function Clamp(v: real): (c: real)
    ensures c >= 0.0 && (v >= 0.0 ==> c == v) && (v <= 0.0 ==> c == 0.0)
  {
    if v > 0.0 then v else 0.0
  }

  function Larger(a: real, b: real): real { if b > a then b else a }

  /** The fall from a level above zero to another, as a share of the first. */
  function Fall(from: real, to: real): real
    requires from > 0.0
  {
    (from - to) / from
  }

  lemma FallBounds(from: real, to: real)
    requires from > 0.0 && to >= 0.0
    ensures Fall(from, to) <= 1.0
    ensures Fall(from, to) > 0.0 <==> to < from
    ensures Fall(from, to) == 1.0 <==> to == 0.0
  {
    var fall := Fall(from, to);
    assert fall * from == from - to;
  }

  lemma FallGrowsWithPeak(peak: real, from: real, to: real)
    requires peak >= from > 0.0 && to >= 0.0
    ensures Fall(peak, to) >= Fall(from, to)
  {
    var fall, deeper := Fall(from, to), Fall(peak, to);
    assert fall * from == from - to && deeper * peak == peak - to;
    FallBounds(peak, to);
    ShareShrinks(1.0 - fall, 1.0 - deeper, from, peak);
  }

  lemma ShareShrinks(share: real, smaller: real, from: real, peak: real)
    requires peak >= from > 0.0 && smaller >= 0.0
    requires share * from == smaller * peak
    ensures smaller <= share
  {
    assert smaller * peak >= smaller * from;
  }

  ghost predicate FallsFrom(values: seq<real>, i: nat, j: nat, fall: real)
    requires i < |values| && j < |values|
  {
    Clamp(values[i]) > 0.0 && Fall(Clamp(values[i]), Clamp(values[j])) == fall
  }

  ghost predicate BoundsEveryFall(values: seq<real>, bound: real) {
    forall i, j | 0 <= i <= j < |values| && Clamp(values[i]) > 0.0 :: Fall(Clamp(values[i]), Clamp(values[j])) <= bound
  }

  ghost predicate Attained(values: seq<real>, fall: real) {
    fall == 0.0 || exists i, j :: 0 <= i <= j < |values| && FallsFrom(values, i, j, fall)
  }

  /** The largest fall between two points in order; 0 when no point is above zero. */
  ghost predicate IsLargestFall(values: seq<real>, fall: real) {
    fall >= 0.0 && BoundsEveryFall(values, fall) && Attained(values, fall)
  }

  /** There is only one. */
  lemma LargestFallIsUnique(values: seq<real>, a: real, b: real)
    requires IsLargestFall(values, a) && IsLargestFall(values, b)
    ensures a == b
  {
    AttainedIsBounded(values, a, b);
    AttainedIsBounded(values, b, a);
  }

  lemma AttainedIsBounded(values: seq<real>, fall: real, bound: real)
    requires Attained(values, fall) && BoundsEveryFall(values, bound) && bound >= 0.0
    ensures fall <= bound
  {
    if fall != 0.0 {
      var i, j :| 0 <= i <= j < |values| && FallsFrom(values, i, j, fall);
    }
  }

  predicate NeverFalls(values: seq<real>) {
    forall i, j | 0 <= i <= j < |values| :: Clamp(values[i]) <= Clamp(values[j])
  }

  predicate WipedOut(values: seq<real>) {
    exists i, j :: 0 <= i <= j < |values| && Clamp(values[i]) > 0.0 && Clamp(values[j]) == 0.0
  }

  /** The largest fall lies in [0, 1], is 0 exactly for a series that never falls, 1 exactly for one that loses all. */
  lemma LargestFallMeaning(values: seq<real>, fall: real)
    requires IsLargestFall(values, fall)
    ensures 0.0 <= fall <= 1.0
    ensures fall == 0.0 <==> NeverFalls(values)
    ensures fall == 1.0 <==> WipedOut(values)
  {
    forall i, j | 0 <= i <= j < |values| && Clamp(values[i]) > 0.0
      ensures Fall(Clamp(values[i]), Clamp(values[j])) <= 1.0
      ensures Fall(Clamp(values[i]), Clamp(values[j])) > 0.0 <==> Clamp(values[j]) < Clamp(values[i])
      ensures Fall(Clamp(values[i]), Clamp(values[j])) == 1.0 <==> Clamp(values[j]) == 0.0
    {
      FallBounds(Clamp(values[i]), Clamp(values[j]));
    }
    if fall != 0.0 {
      var i, j :| 0 <= i <= j < |values| && FallsFrom(values, i, j, fall);
    }
  }

  /** The highest clamped value so far, and where. */
  predicate IsPeak(values: seq<real>, peak: real, at: int) {
    && 0 <= at < |values| && peak == Clamp(values[at])
    && forall i | 0 <= i < |values| :: Clamp(values[i]) <= peak
  }

  /** One more point: the fall to it from the peak is the only new candidate. */
  lemma Extend(values: seq<real>, v: real, fall: real, peak: real, at: nat)
    requires IsLargestFall(values, fall) && IsPeak(values + [v], peak, at)
    ensures peak <= 0.0 ==> IsLargestFall(values + [v], fall)
    ensures peak > 0.0 ==> IsLargestFall(values + [v], Larger(fall, Fall(peak, Clamp(v))))
  {
    var all := values + [v];
    var n := |values|;
    forall i, j | 0 <= i <= j < n && Clamp(all[i]) > 0.0 ensures Fall(Clamp(all[i]), Clamp(all[j])) <= fall {
      assert all[i] == values[i] && all[j] == values[j];
    }
    forall i | 0 <= i <= n && Clamp(all[i]) > 0.0
      ensures peak > 0.0 && Fall(Clamp(all[i]), Clamp(v)) <= Fall(peak, Clamp(v))
    {
      FallGrowsWithPeak(peak, Clamp(all[i]), Clamp(v));
    }
    if fall != 0.0 {
      var i, j :| 0 <= i <= j < |values| && FallsFrom(values, i, j, fall);
      assert FallsFrom(all, i, j, fall);
    }
    if peak > 0.0 { assert FallsFrom(all, at, n, Fall(peak, Clamp(v))); }
  }

  /** `pct` is the largest fall in percent. */
  ghost predicate IsMaxDrawdownPct(values: seq<real>, pct: real) {
    exists share :: IsLargestFall(values, share) && pct == share * 100.0
  }

  lemma AsPercentage(values: seq<real>, share: real)
    requires IsLargestFall(values, share)
    ensures var pct := share * 100.0;
            && IsMaxDrawdownPct(values, pct)
            && 0.0 <= pct <= 100.0
            && (pct == 0.0 <==> NeverFalls(values))
            && (pct == 100.0 <==> WipedOut(values))
  {
    LargestFallMeaning(values, share);
  }

  /** Between two points in order a value lost exactly this percentage of itself, and no more. */
  predicate LosesPct(from: real, to: real, pct: real) { (from - to) * 100.0 == pct * from }

  predicate LosesAtMostPct(from: real, to: real, pct: real) { (from - to) * 100.0 <= pct * from }

  lemma FallInPct(from: real, to: real, share: real)
    requires from > 0.0
    ensures Fall(from, to) <= share <==> LosesAtMostPct(from, to, share * 100.0)
    ensures Fall(from, to) == share <==> LosesPct(from, to, share * 100.0)
  {
    var fall := Fall(from, to);
    assert fall * from == from - to;
    SharesCompare(fall, share, from);
    assert share * 100.0 * from == share * from * 100.0;
  }

  lemma SharesCompare(a: real, b: real, of: real)
    requires of > 0.0
    ensures a <= b <==> a * of <= b * of
    ensures a == b <==> a * of == b * of
  {
    if a < b { assert (b - a) * of > 0.0; }
    if a > b { assert (a - b) * of > 0.0; }
  }

  /** No point is below an earlier one by more than the percentage, and unless that is 0 some point is by just that. */
  lemma PctBoundsEveryLoss(values: seq<real>, share: real)
    requires IsLargestFall(values, share)
    ensures forall i, j | 0 <= i <= j < |values| :: LosesAtMostPct(Clamp(values[i]), Clamp(values[j]), share * 100.0)
    ensures share * 100.0 == 0.0
            || exists i, j :: 0 <= i <= j < |values| && values[i] > 0.0
                              && LosesPct(Clamp(values[i]), Clamp(values[j]), share * 100.0)
  {
    forall i, j | 0 <= i <= j < |values|
      ensures LosesAtMostPct(Clamp(values[i]), Clamp(values[j]), share * 100.0)
    {
      if Clamp(values[i]) > 0.0 { FallInPct(Clamp(values[i]), Clamp(values[j]), share); }
    }
    if share != 0.0 {
      var i, j :| 0 <= i <= j < |values| && FallsFrom(values, i, j, share);
      FallInPct(Clamp(values[i]), Clamp(values[j]), share);
    }
  }

  /** The higher of the peak so far and the new value is the new peak. */
  lemma PeakMoves(values: seq<real>, v: real, peak: real, at: int)
    requires if values == [] then peak == -1.0 else IsPeak(values, peak, at)
    ensures Clamp(v) > peak ==> IsPeak(values + [v], Clamp(v), |values|)
    ensures Clamp(v) <= peak ==> IsPeak(values + [v], peak, at)
  {}

  /** The one pass: the peak so far, and the deepest fall from the peak of the moment. */
  method MaxDrawdown(values: seq<real>) returns (maxDrawdown: real)
    ensures IsLargestFall(values, maxDrawdown)
  {
    var peak := -1.0;   // below every clamped value, as negative infinity is
    maxDrawdown := 0.0;
    ghost var at := -1;
    for k := 0 to |values|
      invariant IsLargestFall(values[..k], maxDrawdown)
      invariant if values[..k] == [] then peak == -1.0 else IsPeak(values[..k], peak, at)
    {
      var value := if values[k] > 0.0 then values[k] else 0.0;
      ghost var sofar := values[..k];
      assert values[..k + 1] == sofar + [values[k]];
      PeakMoves(sofar, values[k], peak, at);
      if value > peak {
        peak, at := value, k;
      }
      Extend(sofar, values[k], maxDrawdown, peak, at);
      if peak > 0.0 {
        maxDrawdown := Larger(maxDrawdown, Fall(peak, value));
      }
    }
    assert values[..|values|] == values;
  }

  method CalculateMaxDrawdownPct(values: seq<real>) returns (pct: real)
    ensures IsMaxDrawdownPct(values, pct)
    ensures 0.0 <= pct <= 100.0
    ensures pct == 0.0 <==> NeverFalls(values)
    ensures pct == 100.0 <==> WipedOut(values)
    ensures forall i, j | 0 <= i <= j < |values| :: LosesAtMostPct(Clamp(values[i]), Clamp(values[j]), pct)
    ensures pct == 0.0 || exists i, j :: 0 <= i <= j < |values| && values[i] > 0.0
                                         && LosesPct(Clamp(values[i]), Clamp(values[j]), pct)
  {
    var maxDrawdown := MaxDrawdown(values);
    PctBoundsEveryLoss(values, maxDrawdown);
    AsPercentage(values, maxDrawdown);
    return maxDrawdown * 100.0;
  }
}
