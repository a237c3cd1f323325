/** `[...new Set(xs)]`, which several services use to drop repeated values. */
module Sequences {

  /** The values of `xs`, each at its first position. */
  function Dedup<T(==)>(xs: seq<T>): seq<T> {
    if xs == [] then []
    else
      var front := Dedup(xs[..|xs| - 1]);
      if xs[|xs| - 1] in front then front else front + [xs[|xs| - 1]]
  }

  predicate NoRepeats<T(==)>(xs: seq<T>) { forall i, j | 0 <= i < j < |xs| :: xs[i] != xs[j] }

  lemma {:induction false} DedupKeepsMembers<T>(xs: seq<T>, x: T)
    ensures x in Dedup(xs) <==> x in xs
  {
    if xs != [] {
      DedupKeepsMembers(xs[..|xs| - 1], x);
      DedupKeepsMembers(xs[..|xs| - 1], xs[|xs| - 1]);
      assert xs == xs[..|xs| - 1] + [xs[|xs| - 1]];
    }
  }

  lemma {:induction false} DedupDropsRepeats<T>(xs: seq<T>)
    ensures NoRepeats(Dedup(xs))
  {
    if xs != [] { DedupDropsRepeats(xs[..|xs| - 1]); }
  }
}
