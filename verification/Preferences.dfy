/**
 The canonical string of a preference list, before hashing: sort by type id, write each as
 `type=1` or `type=0`, and join with semicolons.
 */
module Preferences {

  datatype Preference = Preference(kind: string, enabled: bool)

  // ---------------------------------------------------------------- the order on type ids

  /** The language's `<` on strings: by the first differing character, a prefix first. */
  predicate Below(a: string, b: string) {
    b != "" && (a == "" || a[0] < b[0] || (a[0] == b[0] && Below(a[1..], b[1..])))
  }

  /** The first difference is at `k`: a smaller character, or the end of the first string. */
  predicate DiffersFirstAt(a: string, b: string, k: nat) {
    k <= |a| && k < |b| && a[..k] == b[..k] && (k == |a| || a[k] < b[k])
  }

  lemma {:induction false} BelowIffFirstDifference(a: string, b: string)
    ensures Below(a, b) <==> exists k: nat :: DiffersFirstAt(a, b, k)
    decreases |a|
  {
    if a == "" {
      assert b != "" ==> DiffersFirstAt(a, b, 0);
    } else if b != "" {
      BelowIffFirstDifference(a[1..], b[1..]);
      if a[0] < b[0] { assert DiffersFirstAt(a, b, 0); }
      if a[0] == b[0] && Below(a[1..], b[1..]) {
        var k: nat :| DiffersFirstAt(a[1..], b[1..], k);
        PrefixStep(a, b, k);
        assert DiffersFirstAt(a, b, k + 1);
      }
      if exists k: nat :: DiffersFirstAt(a, b, k) && k > 0 {
        var k: nat :| DiffersFirstAt(a, b, k) && k > 0;
        assert a[..k][0] == a[0] && b[..k][0] == b[0];
        PrefixStep(a, b, k - 1);
        assert DiffersFirstAt(a[1..], b[1..], k - 1);
      }
    }
  }

  lemma PrefixStep(a: string, b: string, k: nat)
    requires a != "" && b != "" && a[0] == b[0]
    ensures k <= |a| - 1 && k < |b| - 1 ==> (a[1..][..k] == b[1..][..k] <==> a[..k + 1] == b[..k + 1])
  {
    if k <= |a| - 1 && k < |b| - 1 {
      assert a[..k + 1] == [a[0]] + a[1..][..k] && b[..k + 1] == [b[0]] + b[1..][..k];
      assert a[..k + 1][1..] == a[1..][..k] && b[..k + 1][1..] == b[1..][..k];
    }
  }

  lemma {:induction false} BelowIsTotal(a: string, b: string)
    ensures a == b || Below(a, b) || Below(b, a)
    ensures !(Below(a, b) && Below(b, a)) && !Below(a, a)
    decreases |a|
  {
    if a != "" {
      BelowIsTotal(a[1..], a[1..]);
      if b != "" {
        BelowIsTotal(a[1..], b[1..]);
        assert a[0] == b[0] && a[1..] == b[1..] ==> a == [a[0]] + a[1..] && b == [b[0]] + b[1..];
      }
    }
  }

  lemma {:induction false} BelowIsTransitive(a: string, b: string, c: string)
    requires Below(a, b) && Below(b, c)
    ensures Below(a, c)
    decreases |a|
  {
    if a != "" && a[0] == b[0] == c[0] { BelowIsTransitive(a[1..], b[1..], c[1..]); }
  }

  lemma BelowOrEqualThenBelow(a: string, b: string, c: string)
    requires !Below(b, a) && Below(b, c)
    ensures Below(a, c)
  {
    BelowIsTotal(a, b);
    if a != b { BelowIsTransitive(a, b, c); }
  }

  // ---------------------------------------------------------------- sorting

  function Insert(p: Preference, ps: seq<Preference>): seq<Preference> {
    if ps == [] || !Below(ps[0].kind, p.kind) then [p] + ps else [ps[0]] + Insert(p, ps[1..])
  }

  /** A stable sort by type id. */
  function SortByKind(ps: seq<Preference>): seq<Preference> {
    if ps == [] then [] else Insert(ps[0], SortByKind(ps[1..]))
  }

  lemma {:induction false} InsertAdds(p: Preference, ps: seq<Preference>)
    ensures multiset(Insert(p, ps)) == multiset(ps) + multiset{p}
  {
    if ps != [] {
      InsertAdds(p, ps[1..]);
      assert ps == [ps[0]] + ps[1..];
    }
  }

  lemma {:induction false} SortPermutes(ps: seq<Preference>)
    ensures multiset(SortByKind(ps)) == multiset(ps)
  {
    if ps != [] {
      SortPermutes(ps[1..]);
      InsertAdds(ps[0], SortByKind(ps[1..]));
      assert ps == [ps[0]] + ps[1..];
    }
  }

  predicate InOrder(ps: seq<Preference>) { forall i, j | 0 <= i < j < |ps| :: Below(ps[i].kind, ps[j].kind) }

  predicate DistinctKinds(ps: seq<Preference>) { forall i, j | 0 <= i < j < |ps| :: ps[i].kind != ps[j].kind }

  lemma {:induction false} InsertKeepsOrder(p: Preference, ps: seq<Preference>)
    requires InOrder(ps) && forall q | q in ps :: q.kind != p.kind
    ensures InOrder(Insert(p, ps))
    ensures forall q :: q in Insert(p, ps) <==> q == p || q in ps
  {
    if ps != [] {
      assert ps == [ps[0]] + ps[1..];
      BelowIsTotal(ps[0].kind, p.kind);
      if Below(ps[0].kind, p.kind) {
        var rest := Insert(p, ps[1..]);
        InsertKeepsOrder(p, ps[1..]);
        PrependKeepsOrder(ps[0], rest);
      } else {
        forall q | q in ps ensures Below(p.kind, q.kind) {
          if q != ps[0] { BelowIsTransitive(p.kind, ps[0].kind, q.kind); }
        }
        PrependKeepsOrder(p, ps);
      }
    }
  }

  lemma PrependKeepsOrder(p: Preference, ps: seq<Preference>)
    requires InOrder(ps) && forall q | q in ps :: Below(p.kind, q.kind)
    ensures InOrder([p] + ps)
  {}

  lemma {:induction false} SortOrders(ps: seq<Preference>)
    requires DistinctKinds(ps)
    ensures InOrder(SortByKind(ps))
    ensures forall q :: q in SortByKind(ps) <==> q in ps
  {
    if ps != [] {
      SortOrders(ps[1..]);
      assert ps == [ps[0]] + ps[1..];
      forall q | q in SortByKind(ps[1..]) ensures q.kind != ps[0].kind {
        var i :| 0 <= i < |ps| - 1 && ps[1..][i] == q;
        assert ps[i + 1] == q;
      }
      InsertKeepsOrder(ps[0], SortByKind(ps[1..]));
    }
  }

  /** In order, ids possibly repeated. */
  predicate WeaklyInOrder(ps: seq<Preference>) { forall i, j | 0 <= i < j < |ps| :: !Below(ps[j].kind, ps[i].kind) }

  /** No id is listed both enabled and disabled. */
  predicate FlagsAgree(ps: seq<Preference>) { forall p, q | p in ps && q in ps && p.kind == q.kind :: p == q }

  lemma InOrderIsWeaklyInOrder(ps: seq<Preference>)
    requires InOrder(ps)
    ensures WeaklyInOrder(ps) && FlagsAgree(ps)
  {
    forall i, j | 0 <= i < j < |ps| ensures !Below(ps[j].kind, ps[i].kind) && ps[i].kind != ps[j].kind {
      BelowIsTotal(ps[i].kind, ps[j].kind);
    }
  }

  lemma {:induction false} InsertKeepsWeakOrder(p: Preference, ps: seq<Preference>)
    requires WeaklyInOrder(ps)
    ensures WeaklyInOrder(Insert(p, ps))
    ensures forall q :: q in Insert(p, ps) <==> q == p || q in ps
  {
    if ps != [] {
      assert ps == [ps[0]] + ps[1..];
      var head, rest := ps[0], Insert(p, ps[1..]);
      if Below(head.kind, p.kind) {
        InsertKeepsWeakOrder(p, ps[1..]);
        BelowIsTotal(head.kind, p.kind);
        PrependKeepsWeakOrder(head, rest);
      } else {
        forall q | q in ps ensures !Below(q.kind, p.kind) {
          if q != head && Below(q.kind, p.kind) { BelowOrEqualThenBelow(head.kind, q.kind, p.kind); }
        }
        PrependKeepsWeakOrder(p, ps);
      }
    }
  }

  lemma PrependKeepsWeakOrder(p: Preference, ps: seq<Preference>)
    requires WeaklyInOrder(ps) && forall q | q in ps :: !Below(q.kind, p.kind)
    ensures WeaklyInOrder([p] + ps)
  {}

  lemma {:induction false} SortWeaklyOrders(ps: seq<Preference>)
    ensures WeaklyInOrder(SortByKind(ps))
  {
    if ps != [] {
      SortWeaklyOrders(ps[1..]);
      InsertKeepsWeakOrder(ps[0], SortByKind(ps[1..]));
    }
  }

  /** An order leaves one way only to list the same preferences, unless an id comes with both flags. */
  lemma {:induction false} OrderedListsAgree(a: seq<Preference>, b: seq<Preference>)
    requires WeaklyInOrder(a) && WeaklyInOrder(b) && FlagsAgree(a) && multiset(a) == multiset(b)
    ensures a == b
    decreases |a|
  {
    SameSize(a, b);
    if a != [] {
      HeadIsLeast(a, b);
      WithoutHead(a, b);
      assert FlagsAgree(a[1..]);
      OrderedListsAgree(a[1..], b[1..]);
      assert a == [a[0]] + a[1..] && b == [b[0]] + b[1..];
    }
  }

  lemma SameSize(a: seq<Preference>, b: seq<Preference>)
    requires multiset(a) == multiset(b)
    ensures |a| == |b|
  {
    assert |multiset(a)| == |a| && |multiset(b)| == |b|;
  }

  lemma WithoutHead(a: seq<Preference>, b: seq<Preference>)
    requires a != [] && b != [] && a[0] == b[0] && multiset(a) == multiset(b)
    ensures multiset(a[1..]) == multiset(b[1..])
  {
    assert a == [a[0]] + a[1..] && b == [b[0]] + b[1..];
    assert multiset(a[1..]) == multiset(a) - multiset{a[0]};
    assert multiset(b[1..]) == multiset(b) - multiset{b[0]};
  }

  lemma HeadIsLeast(a: seq<Preference>, b: seq<Preference>)
    requires WeaklyInOrder(a) && WeaklyInOrder(b) && FlagsAgree(a) && multiset(a) == multiset(b) && a != [] && b != []
    ensures a[0] == b[0]
  {
    assert a[0] in multiset(b) && b[0] in multiset(a);
    var i :| 0 <= i < |b| && b[i] == a[0];
    var j :| 0 <= j < |a| && a[j] == b[0];
    BelowIsTotal(a[0].kind, b[0].kind);
  }

  // ---------------------------------------------------------------- the string

  function Render(p: Preference): string { p.kind + "=" + (if p.enabled then "1" else "0") }

  function Join(ps: seq<Preference>): string {
    if ps == [] then ""
    else if |ps| == 1 then Render(ps[0])
    else Render(ps[0]) + ";" + Join(ps[1..])
  }

  function Canonical(ps: seq<Preference>): string { Join(SortByKind(ps)) }

  lemma FlagIsADigit(p: Preference)
    ensures Render(p)[|p.kind|] == '=' && Render(p)[|p.kind| + 1] == if p.enabled then '1' else '0'
    ensures Render(p)[..|p.kind|] == p.kind && |Render(p)| == |p.kind| + 2
  {}
}
