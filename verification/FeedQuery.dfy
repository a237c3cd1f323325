/**
 The three queries of the latest feed, built clause by clause as the source builds them, and what
 they mean: which rows may be on a page.
 */
module FeedQuery {
  import opened Wrappers

  datatype Source = Posts | TokenCreations | Trades

  datatype Item = Item(source: Source, id: string, ts: int)

  datatype RawRow =
    | PostRow(id: string, createdAt: int, isHidden: bool)
    | TokenRow(saleAddress: string, createdAt: int, unlisted: bool)
    | TransactionRow(txHash: string, createdAt: int, txType: string, soldToken: string)

  type Database = set<RawRow>

  function ItemOf(row: RawRow): Item {
    match row
    case PostRow(id, ts, _) => Item(Posts, id, ts)
    case TokenRow(address, ts, _) => Item(TokenCreations, address, ts)
    case TransactionRow(hash, ts, _, _) => Item(Trades, hash, ts)
  }

  predicate ListedToken(db: Database, address: string) {
    exists row | row in db :: row.TokenRow? && row.saleAddress == address && !row.unlisted
  }

  /** What the home feed shows at all. */
  predicate Visible(db: Database, row: RawRow) {
    match row
    case PostRow(_, _, isHidden) => !isHidden
    case TokenRow(_, _, unlisted) => !unlisted
    case TransactionRow(_, _, txType, soldToken) => (txType == "buy" || txType == "sell") && ListedToken(db, soldToken)
  }

  /** What a page after a cursor may show: older than the cutoff, or at it and not served yet. */
  predicate Eligible(x: Item, before: Option<int>, excludeIds: seq<string>) {
    before.None? || x.ts < before.value || (x.ts == before.value && excludeIds != [] && x.id !in excludeIds)
  }

  /** What an item shows, in the rows themselves: a shown post, a listed token, or a buy or sell of a listed token. */
  predicate OnTheFeed(db: Database, x: Item) {
    match x.source
    case Posts => PostRow(x.id, x.ts, false) in db
    case TokenCreations => TokenRow(x.id, x.ts, false) in db
    case Trades =>
      exists trade, token | trade in db && token in db ::
        && trade.TransactionRow? && trade.txHash == x.id && trade.createdAt == x.ts
        && (trade.txType == "buy" || trade.txType == "sell")
        && token.TokenRow? && token.saleAddress == trade.soldToken && token.unlisted == false
  }

  lemma VisibleRowsAreOnTheFeed(db: Database, x: Item)
    ensures (exists row :: row in db && Visible(db, row) && ItemOf(row) == x) <==> OnTheFeed(db, x)
  {
    if row :| row in db && Visible(db, row) && ItemOf(row) == x {
      assert OnTheFeed(db, x);
    }
    if OnTheFeed(db, x) {
      match x.source {
        case Posts => assert Visible(db, PostRow(x.id, x.ts, false));
        case TokenCreations => assert Visible(db, TokenRow(x.id, x.ts, false));
        case Trades =>
          var trade, token :| trade in db && token in db
            && trade.TransactionRow? && trade.txHash == x.id && trade.createdAt == x.ts
            && (trade.txType == "buy" || trade.txType == "sell")
            && token.TokenRow? && token.saleAddress == trade.soldToken && token.unlisted == false;
          assert Visible(db, trade) && ItemOf(trade) == x;
      }
    }
  }

  datatype Condition =
    | NotHidden
    | NotUnlisted
    | JoinsListedToken
    | IsTrade
    | CreatedBefore(ts: int)
    | CreatedAt(ts: int)
    | IdNotIn(ids: seq<string>)
    | And(left: Condition, right: Condition)
    | Or(left: Condition, right: Condition)

  predicate Holds(c: Condition, db: Database, row: RawRow) {
    match c
    case NotHidden => row.PostRow? && !row.isHidden
    case NotUnlisted => row.TokenRow? && !row.unlisted
    case JoinsListedToken => row.TransactionRow? && ListedToken(db, row.soldToken)
    case IsTrade => row.TransactionRow? && (row.txType == "buy" || row.txType == "sell")
    case CreatedBefore(ts) => row.createdAt < ts
    case CreatedAt(ts) => row.createdAt == ts
    case IdNotIn(ids) => ItemOf(row).id !in ids
    case And(l, r) => Holds(l, db, row) && Holds(r, db, row)
    case Or(l, r) => Holds(l, db, row) || Holds(r, db, row)
  }

  predicate AllHold(clauses: seq<Condition>, db: Database, row: RawRow) {
    forall i | 0 <= i < |clauses| :: Holds(clauses[i], db, row)
  }

  /** A query under construction: FROM, the WHERE clauses so far, ORDER BY created_at DESC, LIMIT. */
  class QueryBuilder {
    var from: Source
    var wheres: seq<Condition>
    var newestFirst: bool
    var limitTo: nat

    constructor (from: Source)
      ensures this.from == from && wheres == [] && !newestFirst && limitTo == 0
    {
      this.from, wheres, newestFirst, limitTo := from, [], false, 0;
    }

    method AndWhere(c: Condition)
      modifies this`wheres
      ensures wheres == old(wheres) + [c]
    {
      wheres := wheres + [c];
    }

    method OrderByNewestAndLimit(limit: nat)
      modifies this`newestFirst, this`limitTo
      ensures newestFirst && limitTo == limit
    {
      newestFirst, limitTo := true, limit;
    }

    ghost predicate Selects(db: Database, row: RawRow)
      reads this
    {
      ItemOf(row).source == from && AllHold(wheres, db, row)
    }

    /** Restricts the query to what the cursor leaves eligible, and to nothing else. */
    method ApplyCursorFilter(before: Option<int>, excludeIds: seq<string>)
      modifies this`wheres
      ensures forall db, row :: Selects(db, row) <==> old(Selects(db, row)) && Eligible(ItemOf(row), before, excludeIds)
    {
      if before.None? { return; }
      ghost var was := wheres;
      var atCutoff := And(CreatedAt(before.value), IdNotIn(excludeIds));
      var filter := if excludeIds == [] then CreatedBefore(before.value) else Or(CreatedBefore(before.value), atCutoff);
      AndWhere(filter);
      forall db: Database, row: RawRow
        ensures AllHold(wheres, db, row) <==> AllHold(was, db, row) && Eligible(ItemOf(row), before, excludeIds)
      {
        assert Holds(atCutoff, db, row) <==> row.createdAt == before.value && ItemOf(row).id !in excludeIds;
        AppendedClause(was, filter, db, row);
      }
    }
  }

  lemma AppendedClause(clauses: seq<Condition>, c: Condition, db: Database, row: RawRow)
    ensures AllHold(clauses + [c], db, row) <==> AllHold(clauses, db, row) && Holds(c, db, row)
  {
    if AllHold(clauses + [c], db, row) {
      assert Holds((clauses + [c])[|clauses|], db, row);
      forall i | 0 <= i < |clauses| ensures Holds(clauses[i], db, row)
      {
        assert (clauses + [c])[i] == clauses[i];
      }
    }
  }

  /** The query of one source selects exactly its visible rows that are eligible after the cursor. */
  ghost predicate Fetches(q: QueryBuilder, source: Source, before: Option<int>, limit: nat, excludeIds: seq<string>)
    reads q
  {
    && q.newestFirst && q.limitTo == limit
    && forall db, row :: q.Selects(db, row) <==>
         ItemOf(row).source == source && Visible(db, row) && Eligible(ItemOf(row), before, excludeIds)
  }

  method FetchPosts(before: Option<int>, limit: nat, excludeIds: seq<string>) returns (query: QueryBuilder)
    ensures fresh(query) && Fetches(query, Posts, before, limit, excludeIds)
    ensures forall db: Database, row: RawRow :: query.Selects(db, row) <==>
              && row.PostRow? && !row.isHidden
              && (before.None? || row.createdAt < before.value
                  || (row.createdAt == before.value && excludeIds != [] && row.id !in excludeIds))
  {
    query := new QueryBuilder(Posts);
    query.AndWhere(NotHidden);
    query.OrderByNewestAndLimit(limit);
    assert query.wheres[0] == NotHidden;
    query.ApplyCursorFilter(before, excludeIds);
  }

  method FetchTokenCreations(before: Option<int>, limit: nat, excludeIds: seq<string>) returns (query: QueryBuilder)
    ensures fresh(query) && Fetches(query, TokenCreations, before, limit, excludeIds)
    ensures forall db: Database, row: RawRow :: query.Selects(db, row) <==>
              && row.TokenRow? && !row.unlisted
              && (before.None? || row.createdAt < before.value
                  || (row.createdAt == before.value && excludeIds != [] && row.saleAddress !in excludeIds))
  {
    query := new QueryBuilder(TokenCreations);
    query.AndWhere(NotUnlisted);
    query.OrderByNewestAndLimit(limit);
    assert query.wheres[0] == NotUnlisted;
    query.ApplyCursorFilter(before, excludeIds);
  }

  method FetchTrades(before: Option<int>, limit: nat, excludeIds: seq<string>) returns (query: QueryBuilder)
    ensures fresh(query) && Fetches(query, Trades, before, limit, excludeIds)
    ensures forall db: Database, row: RawRow :: query.Selects(db, row) <==>
              && row.TransactionRow? && (row.txType == "buy" || row.txType == "sell")
              && (exists token | token in db ::
                    token.TokenRow? && token.saleAddress == row.soldToken && !token.unlisted)
              && (before.None? || row.createdAt < before.value
                  || (row.createdAt == before.value && excludeIds != [] && row.txHash !in excludeIds))
  {
    query := new QueryBuilder(Trades);
    query.AndWhere(JoinsListedToken);
    query.AndWhere(IsTrade);
    query.OrderByNewestAndLimit(limit);
    assert query.wheres[0] == JoinsListedToken && query.wheres[1] == IsTrade;
    query.ApplyCursorFilter(before, excludeIds);
  }
}
