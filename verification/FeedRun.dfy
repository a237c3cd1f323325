/**
 Following `next_cursor` page after page, with any change to the tables between pages and any
 database order among items of equal time.
 */
module FeedRun {
  import opened Wrappers
  import opened Sequences
  import opened FeedQuery
  import opened FeedPage

  /** One request: what the feed could show at that moment, the (clamped) limit, and the three answers. */
  datatype Visit = Visit(shown: set<Item>, limit: nat, posts: seq<Item>, tokens: seq<Item>, trades: seq<Item>)

  ghost predicate Answered(c: Option<Cursor>, v: Visit) {
    && 1 <= v.limit
    && IsAnswer(v.shown, Posts, c, v.limit, v.posts)
    && IsAnswer(v.shown, TokenCreations, c, v.limit, v.tokens)
    && IsAnswer(v.shown, Trades, c, v.limit, v.trades)
  }

  function PageOf(c: Option<Cursor>, v: Visit): Page { GetLatestFeed(c, v.limit, v.posts, v.tokens, v.trades) }

  function Candidates(v: Visit): seq<Item> { SortNewestFirst(v.posts + v.tokens + v.trades) }

  function AnswerOf(v: Visit, source: Source): seq<Item> {
    match source
    case Posts => v.posts
    case TokenCreations => v.tokens
    case Trades => v.trades
  }

  /** The id formats of the three sources never collide, and ids are keys. */
  ghost predicate UniqueIds(s: set<Item>) { forall x, y | x in s && y in s && x.id == y.id :: x == y }

  /** A client follows the cursors: each page asks for what the one before it pointed at. */
  ghost predicate Follows(c: Option<Cursor>, visits: seq<Visit>)
    decreases |visits|
  {
    && visits != [] && Answered(c, visits[0])
    && (|visits| > 1 ==> PageOf(c, visits[0]).next.Some? && Follows(PageOf(c, visits[0]).next, visits[1..]))
  }

  function Served(c: Option<Cursor>, visits: seq<Visit>): seq<Item>
    decreases |visits|
  {
    if visits == [] then []
    else PageOf(c, visits[0]).items + Served(PageOf(c, visits[0]).next, visits[1..])
  }

  function NextAfter(c: Option<Cursor>, visits: seq<Visit>): Option<Cursor>
    decreases |visits|
  {
    if visits == [] then c else NextAfter(PageOf(c, visits[0]).next, visits[1..])
  }

  // ---------------------------------------------------------------- one page

  /** The page as its cursor describes it, before anything is said about the answers. */
  lemma PageShape(c: Option<Cursor>, v: Visit)
    ensures var p := PageOf(c, v); var n := |Candidates(v)|;
      && p.items == Candidates(v)[..if n > v.limit then v.limit else n]
      && (p.next.Some? <==>
            p.items != [] && (n > v.limit || |v.posts| == v.limit || |v.tokens| == v.limit || |v.trades| == v.limit))
      && (p.next.Some? ==> p.items != [] && p.next.value.ts == p.items[|p.items| - 1].ts)
  {
  }

  /** An id is carried forward exactly when its item was served at the cutoff, on this page or before. */
  lemma SeenAtCutoff(c: Option<Cursor>, v: Visit, id: string)
    requires PageOf(c, v).next.Some?
    ensures var p := PageOf(c, v); var cutoff := p.next.value.ts;
      id in p.next.value.seenIds <==>
        (exists x :: x in p.items && x.ts == cutoff && x.id == id)
        || (c.Some? && c.value.ts == cutoff && id in c.value.seenIds)
  {
    var p := PageOf(c, v);
    var ids := IdsAt(p.items, p.next.value.ts);
    IdsAtMeaning(p.items, p.next.value.ts, id);
    if c.Some? && c.value.ts == p.next.value.ts { DedupKeepsMembers(c.value.seenIds + ids, id); }
  }

  lemma CandidatesArePermuted(v: Visit)
    ensures NewestFirst(Candidates(v)) && multiset(Candidates(v)) == multiset(v.posts + v.tokens + v.trades)
    ensures |Candidates(v)| == |v.posts| + |v.tokens| + |v.trades|
    ensures forall x :: x in Candidates(v) <==> x in v.posts || x in v.tokens || x in v.trades
  {
    var all := v.posts + v.tokens + v.trades;
    SortSorts(all);
    SortPermutes(all);
    forall x ensures x in Candidates(v) <==> x in all
    {
      assert x in multiset(Candidates(v)) <==> x in multiset(all);
    }
  }

  /** Lists of different sources have no item in common. */
  lemma DistinctUnion(posts: seq<Item>, tokens: seq<Item>, trades: seq<Item>)
    requires Distinct(posts) && Distinct(tokens) && Distinct(trades)
    requires forall x | x in posts :: x.source == Posts
    requires forall x | x in tokens :: x.source == TokenCreations
    requires forall x | x in trades :: x.source == Trades
    ensures Distinct(posts + tokens + trades)
  {
    forall x ensures multiset(posts + tokens + trades)[x] <= 1
    {
      assert multiset(posts + tokens + trades)[x] == multiset(posts)[x] + multiset(tokens)[x] + multiset(trades)[x];
      assert x in multiset(posts) <==> x in posts;
      assert x in multiset(tokens) <==> x in tokens;
      assert x in multiset(trades) <==> x in trades;
    }
  }

  /** If one source alone fills the page with items from `ts` on, the page holds nothing older. */
  lemma FullSourceFillsPage(v: Visit, source: Source, ts: int)
    requires 1 <= v.limit && |AnswerOf(v, source)| == v.limit && forall y | y in AnswerOf(v, source) :: y.ts >= ts
    ensures |Candidates(v)| >= v.limit && Candidates(v)[v.limit - 1].ts >= ts
  {
    SortSorts(v.posts + v.tokens + v.trades);
    SortPermutes(v.posts + v.tokens + v.trades);
    CountFromAll(AnswerOf(v, source), ts);
    CountFromAppend(v.posts + v.tokens, v.trades, ts);
    CountFromAppend(v.posts, v.tokens, ts);
    CountFromSort(v.posts + v.tokens + v.trades, ts);
    if Candidates(v)[v.limit - 1].ts < ts { CountFromBound(Candidates(v), ts, v.limit - 1); }
  }

  lemma DistinctPrefix(s: seq<Item>, n: nat)
    requires Distinct(s) && n <= |s|
    ensures Distinct(s[..n])
  {
    assert s == s[..n] + s[n..];
    forall x ensures multiset(s[..n])[x] <= 1 { assert multiset(s)[x] == multiset(s[..n])[x] + multiset(s[n..])[x]; }
  }

  lemma PageIsDistinct(c: Option<Cursor>, v: Visit)
    requires Answered(c, v)
    ensures Distinct(PageOf(c, v).items)
  {
    DistinctUnion(v.posts, v.tokens, v.trades);
    CandidatesArePermuted(v);
    PageShape(c, v);
    DistinctPrefix(Candidates(v), |PageOf(c, v).items|);
  }

  /** A page holds open items, newest first, at most the limit. */
  lemma PageItems(c: Option<Cursor>, v: Visit)
    requires Answered(c, v)
    ensures NewestFirst(PageOf(c, v).items) && |PageOf(c, v).items| <= v.limit
    ensures forall x | x in PageOf(c, v).items :: x in v.shown && Open(x, c)
  {
    CandidatesArePermuted(v);
    PageShape(c, v);
    forall x | x in PageOf(c, v).items ensures x in v.shown && Open(x, c)
    {
      assert x in Candidates(v);
    }
  }

  /** What the source's answer says about an open item that is not in it. */
  lemma NotInAnswer(c: Option<Cursor>, v: Visit, x: Item)
    requires Answered(c, v) && x in v.shown && Open(x, c) && x !in AnswerOf(v, x.source)
    ensures |AnswerOf(v, x.source)| == v.limit && forall y | y in AnswerOf(v, x.source) :: y.ts >= x.ts
  {
  }

  /** An open item that is not on the page is no newer than the page's last item, and there is a next cursor. */
  lemma LeftBehind(c: Option<Cursor>, v: Visit, x: Item)
    requires Answered(c, v) && x in v.shown && Open(x, c) && x !in PageOf(c, v).items
    ensures PageOf(c, v).next.Some? && x.ts <= PageOf(c, v).next.value.ts
  {
    PageShape(c, v);
    if x in AnswerOf(v, x.source) {
      CutByMerge(c, v, x);
    } else {
      NotInAnswer(c, v, x);
      FullSourceFillsPage(v, x.source, x.ts);
    }
  }

  /** What a sorted list loses when it is cut is no newer than what is left last. */
  lemma CutOff(s: seq<Item>, n: nat, x: Item)
    requires NewestFirst(s) && 0 < n && x in s && x !in s[..if |s| > n then n else |s|]
    ensures |s| > n && x.ts <= s[n - 1].ts
  {
    var k :| 0 <= k < |s| && s[k] == x;
    var left := s[..if |s| > n then n else |s|];
    assert forall i | 0 <= i < |left| :: left[i] == s[i];
    assert k >= |left|;
  }

  lemma CutByMerge(c: Option<Cursor>, v: Visit, x: Item)
    requires 1 <= v.limit && x in AnswerOf(v, x.source) && x !in PageOf(c, v).items
    ensures PageOf(c, v).next.Some? && x.ts <= PageOf(c, v).next.value.ts
  {
    CandidatesArePermuted(v);
    PageShape(c, v);
    CutOff(Candidates(v), v.limit, x);
  }

  lemma LastIsOldest(s: seq<Item>, x: Item)
    requires NewestFirst(s) && x in s
    ensures x.ts >= s[|s| - 1].ts
  {
    var k :| 0 <= k < |s| && s[k] == x;
  }

  /** The cutoff is the oldest time on the page. */
  lemma CutoffIsOldest(c: Option<Cursor>, v: Visit, x: Item)
    requires Answered(c, v) && PageOf(c, v).next.Some? && x in PageOf(c, v).items
    ensures x.ts >= PageOf(c, v).next.value.ts
  {
    PageEndsAtCutoff(c, v);
    LastIsOldest(PageOf(c, v).items, x);
  }

  /** It moves down, or stays where some items are excluded already. */
  lemma CutoffMovesDown(c: Option<Cursor>, v: Visit)
    requires Answered(c, v) && PageOf(c, v).next.Some? && c.Some?
    ensures var cutoff := PageOf(c, v).next.value.ts;
      cutoff < c.value.ts || (cutoff == c.value.ts && c.value.seenIds != [])
  {
    var items := PageOf(c, v).items;
    PageEndsAtCutoff(c, v);
    PageItems(c, v);
    assert Open(items[|items| - 1], c);
  }

  lemma PageIsExcluded(c: Option<Cursor>, v: Visit, x: Item)
    requires Answered(c, v) && PageOf(c, v).next.Some? && x in PageOf(c, v).items
    ensures !Open(x, PageOf(c, v).next)
  {
    CutoffIsOldest(c, v, x);
    SeenAtCutoff(c, v, x.id);
  }

  lemma ExcludedStaysExcluded(c: Option<Cursor>, v: Visit, x: Item)
    requires Answered(c, v) && PageOf(c, v).next.Some? && !Open(x, c)
    ensures !Open(x, PageOf(c, v).next)
  {
    CutoffMovesDown(c, v);
    SeenAtCutoff(c, v, x.id);
  }

  /** A page is the newest open items: what is open and not on it is no newer than what is, and the page is full. */
  lemma PageIsTheNewest(c: Option<Cursor>, v: Visit, x: Item, y: Item)
    requires Answered(c, v) && x in v.shown && Open(x, c) && x !in PageOf(c, v).items && y in PageOf(c, v).items
    ensures |PageOf(c, v).items| == v.limit && y.ts >= x.ts
  {
    LeftBehind(c, v, x);
    CutoffIsOldest(c, v, y);
    PageShape(c, v);
    CandidatesArePermuted(v);
    if x in AnswerOf(v, x.source) {
      CutByMerge(c, v, x);
      CutOff(Candidates(v), v.limit, x);
    } else {
      NotInAnswer(c, v, x);
    }
  }

  /** A cursor points below the page: nothing served, now or before, is open again. */
  lemma CursorExcludesServed(c: Option<Cursor>, v: Visit, x: Item)
    requires Answered(c, v) && PageOf(c, v).next.Some?
    requires x in PageOf(c, v).items || !Open(x, c)
    ensures !Open(x, PageOf(c, v).next)
  {
    if x in PageOf(c, v).items { PageIsExcluded(c, v, x); } else { ExcludedStaysExcluded(c, v, x); }
  }

  /** Nothing open is skipped: what is not on the page is open to the next one. */
  lemma CursorKeepsTheRest(c: Option<Cursor>, v: Visit, x: Item)
    requires Answered(c, v) && UniqueIds(v.shown) && x in v.shown && Open(x, c) && x !in PageOf(c, v).items
    ensures PageOf(c, v).next.Some? && Open(x, PageOf(c, v).next)
  {
    LeftBehind(c, v, x);
    PageItems(c, v);
    PageShape(c, v);
    var items := PageOf(c, v).items;
    assert items[|items| - 1] in items;
    SeenAtCutoff(c, v, x.id);
    SeenAtCutoff(c, v, items[|items| - 1].id);
  }

  // ---------------------------------------------------------------- whole runs

  /** Whatever is served was open to the first cursor, and was shown at some visit. */
  lemma {:induction false} ServedWasOpen(c: Option<Cursor>, visits: seq<Visit>, x: Item)
    requires Follows(c, visits) && x in Served(c, visits)
    ensures Open(x, c) && exists i :: 0 <= i < |visits| && x in visits[i].shown
    decreases |visits|
  {
    PageItems(c, visits[0]);
    var p := PageOf(c, visits[0]);
    if x in p.items {
      assert x in visits[0].shown;
    } else {
      ServedWasOpen(p.next, visits[1..], x);
      if !Open(x, c) { CursorExcludesServed(c, visits[0], x); }
      var i :| 0 <= i < |visits[1..]| && x in visits[1..][i].shown;
      assert x in visits[i + 1].shown;
    }
  }

  lemma NotServedAgain(c: Option<Cursor>, visits: seq<Visit>, x: Item)
    requires Follows(c, visits) && x in PageOf(c, visits[0]).items
    ensures x !in Served(PageOf(c, visits[0]).next, visits[1..])
  {
    if |visits| > 1 && x in Served(PageOf(c, visits[0]).next, visits[1..]) {
      CursorExcludesServed(c, visits[0], x);
      ServedWasOpen(PageOf(c, visits[0]).next, visits[1..], x);
    }
  }

  lemma {:induction false} ServedOnce(c: Option<Cursor>, visits: seq<Visit>)
    requires Follows(c, visits)
    ensures Distinct(Served(c, visits))
    decreases |visits|
  {
    PageIsDistinct(c, visits[0]);
    var p := PageOf(c, visits[0]);
    var rest := Served(p.next, visits[1..]);
    if |visits| > 1 { ServedOnce(p.next, visits[1..]); }
    forall x ensures multiset(p.items + rest)[x] <= 1
    {
      assert multiset(p.items + rest)[x] == multiset(p.items)[x] + multiset(rest)[x];
      if x in p.items && x in rest { NotServedAgain(c, visits, x); }
      assert x in multiset(rest) <==> x in rest;
      assert x in multiset(p.items) <==> x in p.items;
    }
  }

  lemma ConcatNewestFirst(a: seq<Item>, b: seq<Item>, ts: int)
    requires NewestFirst(a) && a != [] && a[|a| - 1].ts == ts
    requires NewestFirst(b) && forall j | 0 <= j < |b| :: b[j].ts <= ts
    ensures NewestFirst(a + b)
  {
    forall i, j | 0 <= i < j < |a + b| ensures (a + b)[i].ts >= (a + b)[j].ts
    {
      if i < |a| <= j { assert a[i].ts >= ts >= b[j - |a|].ts; }
    }
  }

  /** What later pages serve is no newer than the cutoff. */
  lemma LaterIsOlder(c: Option<Cursor>, visits: seq<Visit>)
    requires Follows(c, visits) && c.Some?
    ensures forall j | 0 <= j < |Served(c, visits)| :: Served(c, visits)[j].ts <= c.value.ts
  {
    forall j | 0 <= j < |Served(c, visits)| ensures Served(c, visits)[j].ts <= c.value.ts {
      ServedWasOpen(c, visits, Served(c, visits)[j]);
    }
  }

  lemma PageEndsAtCutoff(c: Option<Cursor>, v: Visit)
    requires Answered(c, v)
    ensures var p := PageOf(c, v);
      NewestFirst(p.items) && (p.next.Some? ==> p.items != [] && p.items[|p.items| - 1].ts == p.next.value.ts)
  {
    PageItems(c, v);
    PageShape(c, v);
  }

  lemma {:induction false} ServedNewestFirst(c: Option<Cursor>, visits: seq<Visit>)
    requires Follows(c, visits)
    ensures NewestFirst(Served(c, visits))
    decreases |visits|
  {
    var p, later := PageOf(c, visits[0]), visits[1..];
    PageEndsAtCutoff(c, visits[0]);
    if |visits| > 1 {
      ServedNewestFirst(p.next, later);
      LaterIsOlder(p.next, later);
      ConcatNewestFirst(p.items, Served(p.next, later), p.next.value.ts);
    } else {
      assert p.items + Served(p.next, later) == p.items;
    }
  }

  /** At every point of a run, an item that has been there throughout is served or still to come. */
  lemma {:induction false} ServedOrStillOpen(c: Option<Cursor>, visits: seq<Visit>, x: Item)
    requires Follows(c, visits) && Open(x, c)
    requires forall i | 0 <= i < |visits| :: UniqueIds(visits[i].shown) && x in visits[i].shown
    ensures x in Served(c, visits) || (NextAfter(c, visits).Some? && Open(x, NextAfter(c, visits)))
    decreases |visits|
  {
    var p := PageOf(c, visits[0]);
    assert x in visits[0].shown;
    if x !in p.items {
      CursorKeepsTheRest(c, visits[0], x);
      if |visits| > 1 {
        forall i | 0 <= i < |visits[1..]| ensures UniqueIds(visits[1..][i].shown) && x in visits[1..][i].shown
        {
          assert visits[1..][i] == visits[i + 1];
        }
        ServedOrStillOpen(p.next, visits[1..], x);
      }
    }
  }

  /** `x` occurs exactly once in `s`. */
  ghost predicate Once(s: seq<Item>, x: Item) { multiset(s)[x] == 1 }

  /**
   The promise of the feed, for any changes between pages (insertions or deletions), any limits and
   any order among ties: no id is ever served twice, times never increase over the whole run, and an
   item that was there throughout is served exactly once by a run that ends with a null cursor.
   */
  lemma FeedServesEverythingOnce(visits: seq<Visit>, everShown: set<Item>)
    requires Follows(None, visits) && UniqueIds(everShown)
    requires forall i | 0 <= i < |visits| :: visits[i].shown <= everShown
    ensures var served := Served(None, visits);
      && (forall i, j | 0 <= i < j < |served| :: served[i].id != served[j].id && served[i].ts >= served[j].ts)
      && (NextAfter(None, visits).None? ==>
            forall x | forall i | 0 <= i < |visits| :: x in visits[i].shown :: Once(served, x))
  {
    var served := Served(None, visits);
    ServedOnce(None, visits);
    ServedNewestFirst(None, visits);
    forall i, j | 0 <= i < j < |served| ensures served[i].id != served[j].id
    {
      InEverShown(visits, everShown, served[i]);
      InEverShown(visits, everShown, served[j]);
      if served[i] == served[j] { TwiceIsNotDistinct(served, i, j); }
    }
    if NextAfter(None, visits).None? {
      forall x | forall i | 0 <= i < |visits| :: x in visits[i].shown ensures Once(served, x)
      {
        forall i | 0 <= i < |visits| ensures UniqueIds(visits[i].shown) && x in visits[i].shown { }
        ServedOrStillOpen(None, visits, x);
        assert x in multiset(served);
      }
    }
  }

  lemma InEverShown(visits: seq<Visit>, everShown: set<Item>, x: Item)
    requires Follows(None, visits) && x in Served(None, visits)
    requires forall i | 0 <= i < |visits| :: visits[i].shown <= everShown
    ensures x in everShown
  {
    ServedWasOpen(None, visits, x);
  }

  lemma TwiceIsNotDistinct(s: seq<Item>, i: nat, j: nat)
    requires i < j < |s| && s[i] == s[j]
    ensures !Distinct(s)
  {
    assert s == s[..j] + [s[j]] + s[j + 1..];
    assert s[i] in s[..j];
    assert s[i] in multiset(s[..j]);
    assert multiset(s)[s[i]] >= 2;
  }

  /** Whatever the tables hold at each request, an item that is served was on the feed at one of them. */
  lemma ServedWasOnTheFeed(visits: seq<Visit>, dbs: seq<Database>, x: Item)
    requires Follows(None, visits) && |dbs| == |visits|
    requires forall i | 0 <= i < |visits| :: visits[i].shown == Shown(dbs[i])
    requires x in Served(None, visits)
    ensures exists i :: 0 <= i < |dbs| && OnTheFeed(dbs[i], x)
  {
    ServedWasOpen(None, visits, x);
    var i :| 0 <= i < |visits| && x in visits[i].shown;
    ShownIsOnTheFeed(dbs[i], x);
  }

  lemma UnlistedTradeIsOff(db: Database, x: Item, address: string)
    requires x.source == Trades
    requires forall row | row in db :: row.TransactionRow? && row.txHash == x.id ==> row.soldToken == address
    requires forall row | row in db :: row.TokenRow? && row.saleAddress == address ==> row.unlisted
    ensures !OnTheFeed(db, x)
  {
  }

  /** In particular a trade is never served while every token row of its sale address is unlisted. */
  lemma UnlistedTradeIsNeverServed(visits: seq<Visit>, dbs: seq<Database>, x: Item, address: string)
    requires Follows(None, visits) && |dbs| == |visits|
    requires forall i | 0 <= i < |visits| :: visits[i].shown == Shown(dbs[i])
    requires x.source == Trades
    requires forall i, row | 0 <= i < |dbs| && row in dbs[i] ::
               row.TransactionRow? && row.txHash == x.id ==> row.soldToken == address
    requires forall i, row | 0 <= i < |dbs| && row in dbs[i] ::
               row.TokenRow? && row.saleAddress == address ==> row.unlisted
    ensures x !in Served(None, visits)
  {
    forall i | 0 <= i < |dbs| ensures !OnTheFeed(dbs[i], x) { UnlistedTradeIsOff(dbs[i], x, address); }
    if x in Served(None, visits) {
      ServedWasOnTheFeed(visits, dbs, x);
    }
  }

  // ---------------------------------------------------------------- a fixed set of items

  /** Every page but the last serves something. */
  lemma {:induction false} EveryPageProgresses(c: Option<Cursor>, visits: seq<Visit>)
    requires Follows(c, visits)
    ensures |Served(c, visits)| >= |visits| - 1
    ensures NextAfter(c, visits).Some? ==> |Served(c, visits)| >= |visits|
    decreases |visits|
  {
    PageShape(c, visits[0]);
    if |visits| > 1 {
      EveryPageProgresses(PageOf(c, visits[0]).next, visits[1..]);
    } else {
      assert visits[1..] == [];
      assert NextAfter(c, visits) == NextAfter(PageOf(c, visits[0]).next, []);
    }
  }

  lemma {:induction false} DistinctFits(s: seq<Item>, all: set<Item>)
    requires Distinct(s) && forall x | x in s :: x in all
    ensures |s| <= |all|
    decreases |s|
  {
    if s != [] {
      assert s == [s[0]] + s[1..];
      forall x ensures multiset(s[1..])[x] <= 1 { assert multiset(s)[x] == multiset([s[0]])[x] + multiset(s[1..])[x]; }
      forall x | x in s[1..] ensures x in all - {s[0]}
      {
        assert x in multiset(s[1..]);
        assert multiset(s)[x] == multiset([s[0]])[x] + multiset(s[1..])[x];
      }
      DistinctFits(s[1..], all - {s[0]});
    }
  }

  /**
   On a fixed set of N items a run has at most N + 1 pages, it goes on for as long as there is a next
   cursor, and when the cursor is null the pages together are exactly the set, each item once.
   */
  lemma FixedFeedIsPagedCompletely(visits: seq<Visit>, all: set<Item>)
    requires Follows(None, visits) && UniqueIds(all)
    requires forall i | 0 <= i < |visits| :: visits[i].shown == all
    ensures |visits| <= |all| + 1
    ensures NextAfter(None, visits).Some? ==> |visits| <= |all|
    ensures NextAfter(None, visits).None? ==> multiset(Served(None, visits)) == multiset(all)
  {
    var served := Served(None, visits);
    ServedOnce(None, visits);
    forall x | x in served ensures x in all { InEverShown(visits, all, x); }
    DistinctFits(served, all);
    EveryPageProgresses(None, visits);
    if NextAfter(None, visits).None? {
      FeedServesEverythingOnce(visits, all);
      forall x ensures multiset(served)[x] == multiset(all)[x]
      {
        if x in all { assert Once(served, x); } else { assert x !in multiset(served); }
      }
    }
  }
}
