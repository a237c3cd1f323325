/**
 What the canonical string says about the list: how it is read back, and exactly when two lists share it.
 An id may hold a semicolon, so an entry need not end where it seems to.
 */
module PreferenceStrings {
  import opened Preferences

  // ---------------------------------------------------------------- reading it back

  /** An entry ends before position `i`: there is a semicolon, and the flag of the entry before it. */
  predicate EndsAt(s: string, i: nat) {
    2 <= i < |s| && s[i] == ';' && s[i - 2] == '=' && (s[i - 1] == '0' || s[i - 1] == '1')
  }

  /** The first entry end at or after `i`, or the end of the string. */
  function FirstEnd(s: string, i: nat): (k: nat)
    requires i <= |s|
    ensures i <= k <= |s| && (k < |s| ==> EndsAt(s, k)) && forall j | i <= j < k :: !EndsAt(s, j)
    decreases |s| - i
  {
    if i == |s| || EndsAt(s, i) then i else FirstEnd(s, i + 1)
  }

  /** An entry without its last two characters is the type id; the last one is the flag. */
  function Parse(part: string): Preference {
    Preference(if |part| >= 2 then part[..|part| - 2] else "", part != "" && part[|part| - 1] == '1')
  }

  function Read(s: string): seq<Preference>
    decreases |s|
  {
    if s == "" then []
    else
      var k := FirstEnd(s, 0);
      if k == |s| then [Parse(s)] else [Parse(s[..k])] + Read(s[k + 1..])
  }

  /** The id holds nothing that looks like the end of an entry: neither `=0;` nor `=1;`. */
  predicate Clean(kind: string) { forall i: nat | i < |kind| :: !EndsAt(kind, i) }

  predicate AllClean(ps: seq<Preference>) { forall i | 0 <= i < |ps| :: Clean(ps[i].kind) }

  lemma ParseRender(p: Preference)
    ensures Parse(Render(p)) == p && Render(p) != ""
  {
    FlagIsADigit(p);
  }

  /** Inside the entry of a clean id no entry ends; a semicolon after it ends it. */
  lemma EntryEnds(p: Preference, rest: string)
    requires Clean(p.kind) && (rest == "" || rest[0] == ';')
    ensures FirstEnd(Render(p) + rest, 0) == |Render(p)|
  {
    var s := Render(p) + rest;
    FlagIsADigit(p);
    assert s[|p.kind|] == '=' && s[|p.kind| + 1] != ';';
    forall i: nat | i < |Render(p)| ensures !EndsAt(s, i) {
      if i < |p.kind| {
        assert forall j | 0 <= j <= i :: s[j] == p.kind[j];
        assert !EndsAt(p.kind, i);
      }
    }
    assert rest != "" ==> EndsAt(s, |Render(p)|);
  }

  /** What is left of a string after a list's first entry. */
  function Rest(ps: seq<Preference>): string { if ps == [] then "" else ";" + Join(ps) }

  lemma JoinUnfolds(p: Preference, ps: seq<Preference>)
    ensures Join([p] + ps) == Render(p) + Rest(ps)
  {
    assert ([p] + ps)[1..] == ps;
  }

  lemma ReadEntry(p: Preference, rest: string)
    requires Clean(p.kind) && (rest == "" || rest[0] == ';')
    ensures Read(Render(p) + rest) == [p] + if rest == "" then [] else Read(rest[1..])
  {
    var s := Render(p) + rest;
    EntryEnds(p, rest);
    ParseRender(p);
    assert s[..|Render(p)|] == Render(p);
    if rest == "" { assert s == Render(p); } else { assert s[|Render(p)| + 1..] == rest[1..]; }
  }

  lemma {:induction false} ReadJoin(ps: seq<Preference>)
    requires AllClean(ps)
    ensures Read(Join(ps)) == ps
  {
    if ps != [] {
      var tail := ps[1..];
      assert ps == [ps[0]] + tail;
      JoinUnfolds(ps[0], tail);
      ReadEntry(ps[0], Rest(tail));
      ReadJoin(tail);
      assert tail != [] ==> Rest(tail)[1..] == Join(tail);
    }
  }

  lemma SortKeepsClean(ps: seq<Preference>)
    requires AllClean(ps)
    ensures AllClean(SortByKind(ps))
  {
    SortPermutes(ps);
    forall i | 0 <= i < |SortByKind(ps)| ensures Clean(SortByKind(ps)[i].kind) {
      assert SortByKind(ps)[i] in multiset(ps);
    }
  }

  /** The string can be read back: it is the sorted list, no more and no less. */
  lemma CanonicalReadsBack(ps: seq<Preference>)
    requires AllClean(ps)
    ensures Read(Canonical(ps)) == SortByKind(ps) && multiset(Read(Canonical(ps))) == multiset(ps)
  {
    SortKeepsClean(ps);
    ReadJoin(SortByKind(ps));
    SortPermutes(ps);
  }

  // ---------------------------------------------------------------- when two lists share a string

  /** The id reads as an entry for `first`, a semicolon, and `second`. */
  predicate SplitsInto(kind: string, first: Preference, second: string) { kind == Render(first) + ";" + second }

  /** The id does not read as two entries in ascending order. */
  ghost predicate Unsplittable(kind: string) {
    forall first: Preference, second: string | SplitsInto(kind, first, second) :: !Below(first.kind, second)
  }

  ghost predicate AllUnsplittable(ps: seq<Preference>) { forall i | 0 <= i < |ps| :: Unsplittable(ps[i].kind) }

  lemma SplitShowsAnEnd(kind: string, first: Preference, second: string)
    ensures SplitsInto(kind, first, second) ==> EndsAt(kind, |Render(first)|)
  {
    FlagIsADigit(first);
  }

  /** In particular an id without `=0;` and `=1;`. */
  lemma CleanIsUnsplittable(kind: string)
    requires Clean(kind)
    ensures Unsplittable(kind)
  {
    forall first: Preference, second: string ensures SplitsInto(kind, first, second) ==> EndsAt(kind, |Render(first)|) {
      SplitShowsAnEnd(kind, first, second);
    }
  }

  lemma {:induction false} PrefixIsNotAbove(a: string, b: string)
    ensures !Below(a + b, a)
    decreases |a|
  {
    if a != "" {
      PrefixIsNotAbove(a[1..], b);
      assert (a + b)[1..] == a[1..] + b;
    }
  }

  lemma BelowThenBelowOrEqual(a: string, b: string, c: string)
    requires Below(a, b) && !Below(c, b)
    ensures Below(a, c)
  {
    BelowIsTotal(b, c);
    if b != c { BelowIsTransitive(a, b, c); }
  }

  /** What is below a prefix of a string is below the string. */
  lemma AbovePrefix(a: string, prefix: string, b: string)
    requires Below(a, prefix) && |prefix| <= |b| && b[..|prefix|] == prefix
    ensures Below(a, b)
  {
    PrefixIsNotAbove(prefix, b[|prefix|..]);
    assert b == prefix + b[|prefix|..];
    BelowThenBelowOrEqual(a, prefix, b);
  }

  lemma {:induction false} ProperPrefixIsBelow(a: string, b: string)
    requires b != ""
    ensures Below(a, a + b)
    decreases |a|
  {
    if a != "" {
      ProperPrefixIsBelow(a[1..], b);
      assert (a + b)[1..] == a[1..] + b;
    }
  }

  predicate IsRest(rest: string) { rest == "" || rest[0] == ';' }

  /** `p`'s id runs over the end of the entry `q` and into what follows it. */
  predicate RunsOver(p: Preference, r1: string, q: Preference, r2: string, second: string) {
    SplitsInto(p.kind, q, second) && r2 != "" && r2[1..] == Render(Preference(second, p.enabled)) + r1
  }

  /** Of two entries that begin the same string, the one with the longer id goes on past the other's flag. */
  lemma LongerGoesOn(p: Preference, r1: string, q: Preference, r2: string)
    requires Render(p) + r1 == Render(q) + r2 && IsRest(r1) && IsRest(r2) && |p.kind| > |q.kind|
    ensures |p.kind| >= |q.kind| + 3 && r2 != ""
  {
    var s, n := Render(p) + r1, |q.kind|;
    FlagIsADigit(p);
    FlagIsADigit(q);
    assert s[n + 1] == Render(q)[n + 1] && s[n + 1] != '=';
    assert s[|p.kind|] == '=' && s[|p.kind| + 1] == Render(p)[|p.kind| + 1] != ';';
    assert r2 != "" ==> s[n + 2] == r2[0];
  }

  lemma LongerPrefix(a: string, x: string, b: string, y: string)
    requires a + x == b + y && |a| >= |b|
    ensures a == b + a[|b|..] && y == a[|b|..] + x
  {
    var s := a + x;
    assert a == s[..|a|] && b == s[..|b|];
    assert y == s[|b|..];
  }

  function Flag(p: Preference): string { "=" + (if p.enabled then "1" else "0") }

  lemma RenderEndsInFlag(p: Preference, rest: string)
    ensures Render(p) + rest == p.kind + (Flag(p) + rest)
  {
  }

  /** So it runs over the other's end. */
  lemma LongerRunsOver(p: Preference, r1: string, q: Preference, r2: string) returns (second: string)
    requires Render(p) + r1 == Render(q) + r2 && IsRest(r1) && IsRest(r2) && |p.kind| > |q.kind|
    ensures RunsOver(p, r1, q, r2, second)
  {
    LongerGoesOn(p, r1, q, r2);
    var first := Render(q) + ";";
    second := p.kind[|first|..];
    assert first + r2[1..] == Render(q) + r2;
    RenderEndsInFlag(p, r1);
    LongerPrefix(p.kind, Flag(p) + r1, first, r2[1..]);
    RenderEndsInFlag(Preference(second, p.enabled), r1);
    assert Flag(p) == Flag(Preference(second, p.enabled));
  }

  lemma SameLengthSameEntry(p: Preference, r1: string, q: Preference, r2: string)
    requires Render(p) + r1 == Render(q) + r2 && |p.kind| == |q.kind|
    ensures p == q && r1 == r2
  {
    var s := Render(p) + r1;
    FlagIsADigit(p);
    FlagIsADigit(q);
    assert p.kind == s[..|p.kind|] && q.kind == s[..|q.kind|];
    assert s[|p.kind| + 1] == Render(p)[|p.kind| + 1] && s[|q.kind| + 1] == Render(q)[|q.kind| + 1];
    assert r1 == s[|p.kind| + 2..] && r2 == s[|q.kind| + 2..];
  }

  predicate FollowsInOrder(kind: string, ps: seq<Preference>) { InOrder(ps) && (ps == [] || Below(kind, ps[0].kind)) }

  /**
   Two lists whose entries overlap never meet again. One of them is inside the id `first=d;second`, which
   ends with the flag `enabled` and is followed by `mine`; the other stands after `first`, at `others`.
   */
  lemma {:induction false} OverlapNeverCloses(first: Preference, second: string, enabled: bool, mine: seq<Preference>,
                                              others: seq<Preference>)
    requires Unsplittable(Render(first) + ";" + second) && AllUnsplittable(mine) && AllUnsplittable(others)
    requires FollowsInOrder(Render(first) + ";" + second, mine) && FollowsInOrder(first.kind, others)
    ensures others != [] ==> Join(others) != Render(Preference(second, enabled)) + Rest(mine)
    decreases |mine| + |others|
  {
    var kind, q := Render(first) + ";" + second, Preference(second, enabled);
    if others != [] && Join(others) == Render(q) + Rest(mine) {
      var p, tail := others[0], others[1..];
      assert others == [p] + tail;
      JoinUnfolds(p, tail);
      assert SplitsInto(kind, first, second) && !Below(first.kind, second);
      if |p.kind| <= |second| { ShortHeadDiffers(first.kind, q, mine, p, tail); }
      var w := LongerRunsOver(p, Rest(tail), q, Rest(mine));
      SwapSides(first, second, mine);
      assert p.kind == Render(q) + ";" + w;
      OverlapNeverCloses(q, w, p.enabled, tail, mine);
    }
  }

  /** An entry above `low` does not begin a string that an entry not above `low`, and no shorter, begins. */
  lemma ShortHeadDiffers(low: string, q: Preference, mine: seq<Preference>, p: Preference, tail: seq<Preference>)
    requires !Below(low, q.kind) && Below(low, p.kind) && |p.kind| <= |q.kind|
    ensures Render(p) + Rest(tail) != Render(q) + Rest(mine)
  {
    if Render(p) + Rest(tail) == Render(q) + Rest(mine) {
      if |p.kind| == |q.kind| {
        SameLengthSameEntry(p, Rest(tail), q, Rest(mine));
      } else {
        var w := LongerRunsOver(q, Rest(mine), p, Rest(tail));
        AbovePrefix(low, p.kind, q.kind);
      }
    }
  }

  lemma SwapSides(first: Preference, second: string, mine: seq<Preference>)
    requires !Below(first.kind, second) && FollowsInOrder(Render(first) + ";" + second, mine)
    ensures FollowsInOrder(second, mine)
  {
    var kind := Render(first) + ";" + second;
    if mine != [] {
      FlagIsADigit(first);
      assert kind == first.kind + kind[|first.kind|..];
      ProperPrefixIsBelow(first.kind, kind[|first.kind|..]);
      BelowIsTransitive(first.kind, kind, mine[0].kind);
      BelowOrEqualThenBelow(second, first.kind, mine[0].kind);
    }
  }

  /** Lists in order, of ids that do not split, are determined by their string. */
  lemma {:induction false} JoinIsInjective(a: seq<Preference>, b: seq<Preference>)
    requires InOrder(a) && InOrder(b) && AllUnsplittable(a) && AllUnsplittable(b) && Join(a) == Join(b)
    ensures a == b
    decreases |a|
  {
    if a != [] && b != [] {
      var p, q, a', b' := a[0], b[0], a[1..], b[1..];
      assert a == [p] + a' && b == [q] + b';
      JoinUnfolds(p, a');
      JoinUnfolds(q, b');
      if |p.kind| > |q.kind| { LongerIdDiffers(p, a', q, b'); }
      if |p.kind| < |q.kind| { LongerIdDiffers(q, b', p, a'); }
      SameLengthSameEntry(p, Rest(a'), q, Rest(b'));
      SameRest(a', b');
      JoinIsInjective(a', b');
    }
  }

  lemma LongerIdDiffers(p: Preference, ps: seq<Preference>, q: Preference, qs: seq<Preference>)
    requires Unsplittable(p.kind) && AllUnsplittable(ps) && AllUnsplittable(qs) && |p.kind| > |q.kind|
    requires FollowsInOrder(p.kind, ps) && FollowsInOrder(q.kind, qs)
    ensures Render(p) + Rest(ps) != Render(q) + Rest(qs)
  {
    if Render(p) + Rest(ps) == Render(q) + Rest(qs) {
      var w := LongerRunsOver(p, Rest(ps), q, Rest(qs));
      OverlapNeverCloses(q, w, p.enabled, ps, qs);
    }
  }

  lemma SameRest(a: seq<Preference>, b: seq<Preference>)
    requires Rest(a) == Rest(b)
    ensures Join(a) == Join(b)
  {
    if a != [] && b != [] { assert Rest(a)[1..] == Join(a) && Rest(b)[1..] == Join(b); }
  }

  // ---------------------------------------------------------------- the promises

  /**
   Two lists of distinct ids that do not split get one string, and so one signed hash, exactly when they
   are permutations of each other.
   */
  lemma SameStringIffPermutation(a: seq<Preference>, b: seq<Preference>)
    requires DistinctKinds(a) && DistinctKinds(b) && AllUnsplittable(a) && AllUnsplittable(b)
    ensures Canonical(a) == Canonical(b) <==> multiset(a) == multiset(b)
  {
    SortOrders(a);
    SortOrders(b);
    SortPermutes(a);
    SortPermutes(b);
    if multiset(a) == multiset(b) {
      InOrderIsWeaklyInOrder(SortByKind(a));
      InOrderIsWeaklyInOrder(SortByKind(b));
      OrderedListsAgree(SortByKind(a), SortByKind(b));
    }
    if Canonical(a) == Canonical(b) {
      SortKeepsUnsplittable(a);
      SortKeepsUnsplittable(b);
      JoinIsInjective(SortByKind(a), SortByKind(b));
    }
  }

  lemma SortKeepsUnsplittable(ps: seq<Preference>)
    requires AllUnsplittable(ps)
    ensures AllUnsplittable(SortByKind(ps))
  {
    SortPermutes(ps);
    forall i | 0 <= i < |SortByKind(ps)| ensures Unsplittable(SortByKind(ps)[i].kind) {
      assert SortByKind(ps)[i] in multiset(ps);
    }
  }

  lemma SortOfTwo(p: Preference, q: Preference)
    requires Below(p.kind, q.kind)
    ensures SortByKind([p, q]) == [p, q] && Canonical([p, q]) == Render(p) + ";" + Render(q)
    ensures DistinctKinds([p, q])
  {
    BelowIsTotal(p.kind, q.kind);
    assert [p, q][1..] == [q] && [q][1..] == [];
    assert SortByKind([q]) == [q];
    assert Join([p, q][1..]) == Render(q);
  }

  lemma SortOfOne(p: Preference)
    ensures SortByKind([p]) == [p] && Canonical([p]) == Render(p)
  {
    assert [p][1..] == [];
  }

  /** An id that splits into two in order shares its string with those two. */
  lemma SplittableCollides(p: Preference, first: Preference, second: string)
    requires SplitsInto(p.kind, first, second) && Below(first.kind, second)
    ensures var two := [first, Preference(second, p.enabled)];
            DistinctKinds(two) && Canonical(two) == Canonical([p]) && two != [p]
  {
    var q := Preference(second, p.enabled);
    SortOfOne(p);
    SortOfTwo(first, q);
    assert Render(p) == Render(first) + ";" + Render(q);
  }

  /**
   The exact condition: one preference shares its string with no other list of distinct ids if and only if
   its id does not split.
   */
  lemma StringIsUniqueIffUnsplittable(p: Preference)
    ensures (forall qs: seq<Preference> | DistinctKinds(qs) && Canonical(qs) == Canonical([p]) :: qs == [p])
       <==> Unsplittable(p.kind)
  {
    if Unsplittable(p.kind) {
      forall qs: seq<Preference> | DistinctKinds(qs) && Canonical(qs) == Canonical([p]) ensures qs == [p] {
        SortOrders(qs);
        SortOfOne(p);
        LoneStringIsUnique(p, SortByKind(qs));
        SortPermutes(qs);
        assert |multiset(qs)| == |qs| == 1;
        assert qs == [qs[0]] && multiset(qs) == multiset([qs[0]]);
        assert qs[0] in multiset([p]);
      }
    } else {
      var first: Preference, second: string :| SplitsInto(p.kind, first, second) && Below(first.kind, second);
      SplittableCollides(p, first, second);
    }
  }

  lemma LoneStringIsUnique(p: Preference, ps: seq<Preference>)
    requires Unsplittable(p.kind) && InOrder(ps) && Join(ps) == Render(p)
    ensures ps == [p]
  {
    assert ps != [];
    var q, tail := ps[0], ps[1..];
    assert ps == [q] + tail;
    JoinUnfolds(q, tail);
    assert Render(p) + "" == Render(p);
    if |q.kind| == |p.kind| {
      SameLengthSameEntry(q, Rest(tail), p, "");
    } else if |q.kind| > |p.kind| {
      var w := LongerRunsOver(q, Rest(tail), p, "");
    } else {
      var w := LongerRunsOver(p, "", q, Rest(tail));
      assert tail != [] && Join(tail) == Render(Preference(w, p.enabled)) + "";
      var r, end := tail[0], tail[1..];
      assert tail == [r] + end;
      JoinUnfolds(r, end);
      assert Below(q.kind, r.kind) && !Below(q.kind, w);
      if |r.kind| == |w| {
        SameLengthSameEntry(r, Rest(end), Preference(w, p.enabled), "");
      } else if |r.kind| > |w| {
        var v := LongerRunsOver(r, Rest(end), Preference(w, p.enabled), "");
      } else {
        var v := LongerRunsOver(Preference(w, p.enabled), "", r, Rest(end));
        AbovePrefix(q.kind, r.kind, w);
      }
    }
  }

  /** Type ids with a semicolon can collide, within the characters the catalog allows. */
  lemma SemicolonsCollide()
    ensures var a, b := [Preference("a=1;b", true)], [Preference("a", true), Preference("b", true)];
            Canonical(a) == Canonical(b) && multiset(a) != multiset(b)
  {
    var a, b := [Preference("a=1;b", true)], [Preference("a", true), Preference("b", true)];
    assert SplitsInto("a=1;b", Preference("a", true), "b");
    SplittableCollides(Preference("a=1;b", true), Preference("a", true), "b");
    assert |multiset(a)| == 1 && |multiset(b)| == 2;
  }
}
