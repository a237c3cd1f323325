/**
 One page of the latest feed: the three answers are merged newest first, cut at the limit, and the
 next cursor carries the cutoff and the ids already served at it.
 */
module FeedPage {
  import opened Wrappers
  import opened Sequences
  import opened FeedQuery

  const MAX_LIMIT: int := 50

  datatype Cursor = Cursor(ts: int, seenIds: seq<string>)

  datatype Page = Page(items: seq<Item>, next: Option<Cursor>)

  function ClampLimit(limit: int): (r: nat)
    ensures 1 <= r <= 50 && (1 <= limit <= 50 ==> r == limit)
    ensures (limit < 1 ==> r == 1) && (limit > 50 ==> r == 50)
  {
    if limit < 1 then 1 else if limit > MAX_LIMIT then MAX_LIMIT else limit
  }

  predicate NewestFirst(s: seq<Item>) { forall i, j | 0 <= i < j < |s| :: s[i].ts >= s[j].ts }

  ghost predicate Distinct(s: seq<Item>) { forall x :: multiset(s)[x] <= 1 }

  function Before(c: Option<Cursor>): Option<int> { if c.None? then None else Some(c.value.ts) }

  function Excluded(c: Option<Cursor>): seq<string> { if c.None? then [] else c.value.seenIds }

  /** The item may appear on the page that `c` asks for. */
  predicate Open(x: Item, c: Option<Cursor>) { Eligible(x, Before(c), Excluded(c)) }

  /** Everything the feed can show of a database. */
  ghost function Shown(db: Database): set<Item> { set row | row in db && Visible(db, row) :: ItemOf(row) }

  lemma ShownIsOnTheFeed(db: Database, x: Item)
    ensures x in Shown(db) <==> OnTheFeed(db, x)
  {
    VisibleRowsAreOnTheFeed(db, x);
  }

  /**
   A possible answer of one source: its newest open items, at most `limit`, each once. Items of equal
   time may come in any order and any of them may be the ones cut off.
   */
  ghost predicate IsAnswer(shown: set<Item>, source: Source, c: Option<Cursor>, limit: nat, answer: seq<Item>) {
    && Distinct(answer) && NewestFirst(answer) && |answer| <= limit
    && (forall x | x in answer :: x in shown && x.source == source && Open(x, c))
    && (forall x | x in shown && x.source == source && Open(x, c) && x !in answer ::
          |answer| == limit && forall y | y in answer :: y.ts >= x.ts)
  }

  /** What a database may return for a query: rows it selects, newest first, up to its limit. */
  ghost predicate Returned(q: QueryBuilder, db: Database, answer: seq<Item>)
    reads q
  {
    && Distinct(answer) && |answer| <= q.limitTo && (q.newestFirst ==> NewestFirst(answer))
    && (forall x | x in answer :: exists row :: row in db && q.Selects(db, row) && ItemOf(row) == x)
    && (forall row | row in db && q.Selects(db, row) && ItemOf(row) !in answer ::
          |answer| == q.limitTo && (q.newestFirst ==> forall y | y in answer :: y.ts >= ItemOf(row).ts))
  }

  /** The queries that the fetch methods build are answered by the newest open items of their source. */
  lemma FetchedIsAnswer(q: QueryBuilder, db: Database, source: Source, c: Option<Cursor>, limit: nat, answer: seq<Item>)
    requires Fetches(q, source, Before(c), limit, Excluded(c)) && Returned(q, db, answer)
    ensures IsAnswer(Shown(db), source, c, limit, answer)
  {
    forall x | x in Shown(db) && x.source == source && Open(x, c) && x !in answer
      ensures |answer| == limit && forall y | y in answer :: y.ts >= x.ts
    {
      var row :| row in db && Visible(db, row) && ItemOf(row) == x;
      assert q.Selects(db, row);
    }
    forall x | x in answer ensures x in Shown(db) && x.source == source && Open(x, c)
    {
      var row :| row in db && q.Selects(db, row) && ItemOf(row) == x;
    }
  }

  // ---------------------------------------------------------------- the page

  function Insert(x: Item, s: seq<Item>): seq<Item> {
    if s == [] || s[0].ts <= x.ts then [x] + s else [s[0]] + Insert(x, s[1..])
  }

  /** The stable sort by descending created_at. */
  function SortNewestFirst(s: seq<Item>): seq<Item> {
    if s == [] then [] else Insert(s[0], SortNewestFirst(s[1..]))
  }

  function IdsAt(s: seq<Item>, ts: int): seq<string> {
    if s == [] then [] else (if s[0].ts == ts then [s[0].id] else []) + IdsAt(s[1..], ts)
  }

  function GetLatestFeed(c: Option<Cursor>, limit: nat, posts: seq<Item>, tokens: seq<Item>, trades: seq<Item>): Page {
    var candidates := SortNewestFirst(posts + tokens + trades);
    var items := if |candidates| > limit then candidates[..limit] else candidates;
    var hasMore := |candidates| > |items| || |posts| == limit || |tokens| == limit || |trades| == limit;
    if items == [] || !hasMore then Page(items, None)
    else
      var cutoff := items[|items| - 1].ts;
      var ids := IdsAt(items, cutoff);
      var seenIds := if c.Some? && c.value.ts == cutoff then Dedup(c.value.seenIds + ids) else ids;
      Page(items, Some(Cursor(cutoff, seenIds)))
  }

  // ---------------------------------------------------------------- sorting and counting

  lemma {:induction false} InsertPermutes(x: Item, s: seq<Item>)
    ensures multiset(Insert(x, s)) == multiset(s) + multiset{x}
    ensures |Insert(x, s)| == |s| + 1
  {
    if s != [] && s[0].ts > x.ts {
      InsertPermutes(x, s[1..]);
      assert s == [s[0]] + s[1..];
    }
  }

  lemma {:induction false} InsertSorts(x: Item, s: seq<Item>)
    requires NewestFirst(s)
    ensures NewestFirst(Insert(x, s))
  {
    if s != [] && s[0].ts > x.ts {
      InsertSorts(x, s[1..]);
      var rest := Insert(x, s[1..]);
      forall i | 0 <= i < |rest| ensures s[0].ts >= rest[i].ts
      {
        InsertPermutes(x, s[1..]);
        assert rest[i] in multiset(rest);
        assert rest[i] == x || rest[i] in s[1..];
      }
    }
  }

  lemma {:induction false} SortPermutes(s: seq<Item>)
    ensures multiset(SortNewestFirst(s)) == multiset(s)
    ensures |SortNewestFirst(s)| == |s|
  {
    if s != [] {
      SortPermutes(s[1..]);
      InsertPermutes(s[0], SortNewestFirst(s[1..]));
      assert multiset(s) == multiset([s[0]] + s[1..]) by { assert s == [s[0]] + s[1..]; }
    }
  }

  lemma {:induction false} SortSorts(s: seq<Item>)
    ensures NewestFirst(SortNewestFirst(s))
  {
    if s != [] {
      SortSorts(s[1..]);
      InsertSorts(s[0], SortNewestFirst(s[1..]));
    }
  }

  /** How many items are at `ts` or newer. */
  function CountFrom(s: seq<Item>, ts: int): nat {
    if s == [] then 0 else (if s[0].ts >= ts then 1 else 0) + CountFrom(s[1..], ts)
  }

  lemma {:induction false} CountFromAppend(a: seq<Item>, b: seq<Item>, ts: int)
    ensures CountFrom(a + b, ts) == CountFrom(a, ts) + CountFrom(b, ts)
  {
    if a == [] {
      assert a + b == b;
    } else {
      assert (a + b)[1..] == a[1..] + b;
      CountFromAppend(a[1..], b, ts);
    }
  }

  lemma {:induction false} CountFromInsert(x: Item, s: seq<Item>, ts: int)
    ensures CountFrom(Insert(x, s), ts) == CountFrom(s, ts) + if x.ts >= ts then 1 else 0
  {
    if s == [] || s[0].ts <= x.ts {
      CountFromAppend([x], s, ts);
    } else {
      CountFromInsert(x, s[1..], ts);
      CountFromAppend([s[0]], Insert(x, s[1..]), ts);
      CountFromAppend([s[0]], s[1..], ts);
      assert s == [s[0]] + s[1..];
    }
  }

  lemma {:induction false} CountFromSort(s: seq<Item>, ts: int)
    ensures CountFrom(SortNewestFirst(s), ts) == CountFrom(s, ts)
  {
    if s != [] {
      CountFromSort(s[1..], ts);
      CountFromInsert(s[0], SortNewestFirst(s[1..]), ts);
    }
  }

  lemma {:induction false} CountFromAll(s: seq<Item>, ts: int)
    requires forall x | x in s :: x.ts >= ts
    ensures CountFrom(s, ts) == |s|
  {
    if s != [] { CountFromAll(s[1..], ts); }
  }

  /** In a sorted list, an item older than `ts` bounds the number of items from `ts` on. */
  lemma {:induction false} CountFromBound(s: seq<Item>, ts: int, k: nat)
    requires NewestFirst(s) && k < |s| && s[k].ts < ts
    ensures CountFrom(s, ts) <= k
    decreases |s|
  {
    if k > 0 {
      CountFromBound(s[1..], ts, k - 1);
    } else if |s| > 1 {
      CountFromBound(s[1..], ts, 0);
    }
  }

  lemma {:induction false} IdsAtMeaning(s: seq<Item>, ts: int, id: string)
    ensures id in IdsAt(s, ts) <==> exists x :: x in s && x.ts == ts && x.id == id
  {
    if s != [] {
      IdsAtMeaning(s[1..], ts, id);
      assert s == [s[0]] + s[1..];
    }
  }
}
