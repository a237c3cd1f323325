/** Lists that name an id more than once: whether the order of such a list shows in its string. */
module PreferenceRepeats {
  import opened Preferences
  import opened PreferenceStrings

  predicate SameKinds(a: seq<Preference>, b: seq<Preference>) {
    |a| == |b| && forall i | 0 <= i < |a| :: a[i].kind == b[i].kind
  }

  lemma {:induction false} InsertSameKinds(p: Preference, a: seq<Preference>, q: Preference, b: seq<Preference>)
    requires p.kind == q.kind && SameKinds(a, b)
    ensures SameKinds(Insert(p, a), Insert(q, b))
    decreases |a|
  {
    if a != [] { InsertSameKinds(p, a[1..], q, b[1..]); }
  }

  /** Lists of the same ids have different strings as soon as a flag differs. */
  lemma {:induction false} FlagsShow(a: seq<Preference>, b: seq<Preference>)
    requires SameKinds(a, b) && Join(a) == Join(b)
    ensures a == b
    decreases |a|
  {
    if a != [] {
      assert a == [a[0]] + a[1..] && b == [b[0]] + b[1..];
      JoinUnfolds(a[0], a[1..]);
      JoinUnfolds(b[0], b[1..]);
      SameLengthSameEntry(a[0], Rest(a[1..]), b[0], Rest(b[1..]));
      SameRest(a[1..], b[1..]);
      FlagsShow(a[1..], b[1..]);
    }
  }

  /** The sort is stable: what comes first of two equal ids stays first. */
  lemma {:induction false} StableInsert(p: Preference, q: Preference, ps: seq<Preference>)
    requires p.kind == q.kind && p != q
    ensures Insert(p, Insert(q, ps)) != Insert(q, Insert(p, ps))
    decreases |ps|
  {
    BelowIsTotal(p.kind, p.kind);
    if ps == [] || !Below(ps[0].kind, p.kind) {
      assert Insert(p, Insert(q, ps))[0] == p && Insert(q, Insert(p, ps))[0] == q;
    } else {
      StableInsert(p, q, ps[1..]);
      assert Insert(p, ps)[1..] == Insert(p, ps[1..]) && Insert(q, ps)[1..] == Insert(q, ps[1..]);
      assert Insert(p, Insert(q, ps))[1..] == Insert(p, Insert(q, ps[1..]));
      assert Insert(q, Insert(p, ps))[1..] == Insert(q, Insert(p, ps[1..]));
    }
  }

  lemma SortOfTwoMore(p: Preference, q: Preference, ps: seq<Preference>)
    ensures SortByKind([p, q] + ps) == Insert(p, Insert(q, SortByKind(ps)))
  {
    assert ([p, q] + ps)[1..] == [q] + ps && ([q] + ps)[1..] == ps;
  }

  lemma SwappedFlagsDiffer(p: Preference, q: Preference, ps: seq<Preference>)
    requires p.kind == q.kind && p != q
    ensures Canonical([p, q] + ps) != Canonical([q, p] + ps)
  {
    var a, b := [p, q] + ps, [q, p] + ps;
    var sorted := SortByKind(ps);
    SortOfTwoMore(p, q, ps);
    SortOfTwoMore(q, p, ps);
    StableInsert(p, q, sorted);
    InsertSameKinds(q, sorted, p, sorted);
    InsertSameKinds(p, Insert(q, sorted), q, Insert(p, sorted));
    if Canonical(a) == Canonical(b) { FlagsShow(SortByKind(a), SortByKind(b)); }
  }

  lemma SameStringInAnyOrder(ps: seq<Preference>, qs: seq<Preference>)
    requires FlagsAgree(ps) && multiset(qs) == multiset(ps)
    ensures Canonical(qs) == Canonical(ps)
  {
    SortWeaklyOrders(qs);
    SortWeaklyOrders(ps);
    SortPermutes(qs);
    SortPermutes(ps);
    SortKeepsFlags(ps);
    OrderedListsAgree(SortByKind(ps), SortByKind(qs));
  }

  lemma SortKeepsFlags(ps: seq<Preference>)
    requires FlagsAgree(ps)
    ensures FlagsAgree(SortByKind(ps))
  {
    SortPermutes(ps);
    forall p | p in SortByKind(ps) ensures p in ps { assert p in multiset(ps); }
  }

  /** The order of a list matters to its string exactly when some id is listed with both flags. */
  lemma OrderIsImmaterialIffFlagsAgree(ps: seq<Preference>)
    ensures (forall qs: seq<Preference> | multiset(qs) == multiset(ps) :: Canonical(qs) == Canonical(ps))
       <==> FlagsAgree(ps)
  {
    if FlagsAgree(ps) {
      forall qs: seq<Preference> | multiset(qs) == multiset(ps) ensures Canonical(qs) == Canonical(ps) {
        SameStringInAnyOrder(ps, qs);
      }
    } else {
      var a, b := ClashingOrders(ps);
    }
  }

  lemma ClashingOrders(ps: seq<Preference>) returns (a: seq<Preference>, b: seq<Preference>)
    requires !FlagsAgree(ps)
    ensures multiset(a) == multiset(ps) && multiset(b) == multiset(ps) && Canonical(a) != Canonical(b)
  {
    var p, q :| p in ps && q in ps && p.kind == q.kind && p != q;
    var others := TakeOut(ps, p);
    assert q in multiset(ps) && q in multiset(others);
    var rest := TakeOut(others, q);
    SwappedFlagsDiffer(p, q, rest);
    a, b := [p, q] + rest, [q, p] + rest;
  }

  lemma TakeOut(ps: seq<Preference>, p: Preference) returns (rest: seq<Preference>)
    requires p in ps
    ensures multiset(ps) == multiset(rest) + multiset{p}
  {
    var i :| 0 <= i < |ps| && ps[i] == p;
    var front, back := ps[..i], ps[i + 1..];
    rest := front + back;
    assert ps == front + [p] + back;
  }
}
