/**
 The figures of a token in terms of sums over the transaction table itself: each is a sum of one amount over
 the transactions its condition names, and no column or grouping is spoken of. This is what the computations
 by height and by day return, read off the table.
 */
module PnlFigures {
  import opened Wrappers
  import opened Sequences
  import opened PnlModel
  import opened PnlQueries
  import opened PnlService
  import opened PnlAccounting
  import opened PnlDaily
  import opened PnlDailyQuery

  datatype Kind = Buys | Sells

  datatype Amount = Volume | InAe | InUsd

  /** Which transactions count: from one block height to below another, or from one time to before another. */
  datatype Span = Heights(from: nat, below: nat) | Times(since: Option<int>, before: int)

  datatype Selection = Selection(address: string, token: string, kind: Kind, span: Span)

  predicate Selected(tx: Tx, s: Selection) {
    && tx.address == s.address && tx.token == s.token
    && (match s.kind
        case Buys => tx.txType == "buy" || tx.txType == "create_community"
        case Sells => tx.txType == "sell")
    && (match s.span
        case Heights(from, below) => from <= tx.height < below
        case Times(since, before) => (since.None? || since.value <= tx.createdAt) && tx.createdAt < before)
  }

  function AmountOf(tx: Tx, a: Amount): real {
    match a
    case Volume => tx.volume
    case InAe => (match tx.amountAe case None => 0.0 case Some(x) => x)
    case InUsd => (match tx.amountUsd case None => 0.0 case Some(x) => x)
  }

  function Part(tx: Tx, s: Selection, a: Amount): real { if Selected(tx, s) then AmountOf(tx, a) else 0.0 }

  /** The sum of an amount over the selected transactions. */
  function Total(txs: seq<Tx>, s: Selection, a: Amount): real {
    if txs == [] then 0.0 else Part(txs[0], s, a) + Total(txs[1..], s, a)
  }

  /** Whose transactions of which token, all that count, and those of the range the figures are for. */
  datatype Scope = Scope(address: string, token: string, all: Span, range: Span)

  function Bought(txs: seq<Tx>, s: Scope, span: Span, a: Amount): real {
    Total(txs, Selection(s.address, s.token, Buys, span), a)
  }

  function Sold(txs: seq<Tx>, s: Scope, span: Span, a: Amount): real {
    Total(txs, Selection(s.address, s.token, Sells, span), a)
  }

  function Held(txs: seq<Tx>, s: Scope): real { Bought(txs, s, s.all, Volume) - Sold(txs, s, s.all, Volume) }

  function ByHeight(address: string, token: string, start: nat, height: nat): Scope {
    Scope(address, token, Heights(0, height), Heights(start, height))
  }

  function ByDay(address: string, token: string, w: Window): Scope {
    Scope(address, token, Times(None, w.snapshotTs), Times(Some(w.dayStartTs), w.snapshotTs))
  }

  // ---------------------------------------------------------------- the columns are such sums

  datatype Column =
    | Holdings
    | VolumeBought | SpentAe | SpentUsd
    | VolumeSold | ReceivedAe | ReceivedUsd
    | EverBought | EverSpentAe | EverSpentUsd

  function ColumnOf(t: Totals, c: Column): real {
    match c
    case Holdings => t.holdings
    case VolumeBought => t.volumeBought
    case SpentAe => t.spentAe
    case SpentUsd => t.spentUsd
    case VolumeSold => t.volumeSold
    case ReceivedAe => t.receivedAe
    case ReceivedUsd => t.receivedUsd
    case EverBought => t.cumulativeBought
    case EverSpentAe => t.cumulativeSpentAe
    case EverSpentUsd => t.cumulativeSpentUsd
  }

  /** The sum over the whole table that a column of a token's group is. */
  function ColumnSum(txs: seq<Tx>, s: Scope, c: Column): real {
    match c
    case Holdings => Held(txs, s)
    case VolumeBought => Bought(txs, s, s.range, Volume)
    case SpentAe => Bought(txs, s, s.range, InAe)
    case SpentUsd => Bought(txs, s, s.range, InUsd)
    case VolumeSold => Sold(txs, s, s.range, Volume)
    case ReceivedAe => Sold(txs, s, s.range, InAe)
    case ReceivedUsd => Sold(txs, s, s.range, InUsd)
    case EverBought => Bought(txs, s, s.all, Volume)
    case EverSpentAe => Bought(txs, s, s.all, InAe)
    case EverSpentUsd => Bought(txs, s, s.all, InUsd)
  }

  predicate SumsTo(t: Totals, txs: seq<Tx>, s: Scope, c: Column) { ColumnOf(t, c) == ColumnSum(txs, s, c) }

  /** The columns that are summed since ever whatever the range. */
  predicate Ever(c: Column) { c.EverBought? || c.EverSpentAe? || c.EverSpentUsd? }

  /** The columns of purchases in the range, which the daily query does not select. */
  predicate RangeBuys(c: Column) { c.VolumeBought? || c.SpentAe? || c.SpentUsd? }

  lemma PlusAddsColumns(a: Totals, b: Totals, c: Column)
    ensures ColumnOf(Plus(a, b), c) == ColumnOf(a, c) + ColumnOf(b, c)
  {}

  lemma TotalOfOne(tx: Tx, s: Selection, a: Amount)
    ensures Total([tx], s, a) == Part(tx, s, a)
  {
    assert [tx][1..] == [];
  }

  /** Of one transaction each sum is its amount, when it is selected. */
  lemma ColumnSumOfOne(tx: Tx, s: Scope, c: Column)
    ensures
      var buy, sell := Selection(s.address, s.token, Buys, s.range), Selection(s.address, s.token, Sells, s.range);
      var ever, gone := buy.(span := s.all), sell.(span := s.all);
      ColumnSum([tx], s, c)
      == match c
         case Holdings => Part(tx, ever, Volume) - Part(tx, gone, Volume)
         case VolumeBought => Part(tx, buy, Volume)
         case SpentAe => Part(tx, buy, InAe)
         case SpentUsd => Part(tx, buy, InUsd)
         case VolumeSold => Part(tx, sell, Volume)
         case ReceivedAe => Part(tx, sell, InAe)
         case ReceivedUsd => Part(tx, sell, InUsd)
         case EverBought => Part(tx, ever, Volume)
         case EverSpentAe => Part(tx, ever, InAe)
         case EverSpentUsd => Part(tx, ever, InUsd)
  {
    var buy, sell := Selection(s.address, s.token, Buys, s.range), Selection(s.address, s.token, Sells, s.range);
    var ever, gone := Selection(s.address, s.token, Buys, s.all), Selection(s.address, s.token, Sells, s.all);
    match c
    case Holdings => TotalOfOne(tx, ever, Volume); TotalOfOne(tx, gone, Volume);
    case VolumeBought => TotalOfOne(tx, buy, Volume);
    case SpentAe => TotalOfOne(tx, buy, InAe);
    case SpentUsd => TotalOfOne(tx, buy, InUsd);
    case VolumeSold => TotalOfOne(tx, sell, Volume);
    case ReceivedAe => TotalOfOne(tx, sell, InAe);
    case ReceivedUsd => TotalOfOne(tx, sell, InUsd);
    case EverBought => TotalOfOne(tx, ever, Volume);
    case EverSpentAe => TotalOfOne(tx, ever, InAe);
    case EverSpentUsd => TotalOfOne(tx, ever, InUsd);
  }

  lemma TotalAdds(tx: Tx, rest: seq<Tx>, s: Selection, a: Amount)
    ensures Total([tx] + rest, s, a) == Total([tx], s, a) + Total(rest, s, a)
  {
    assert ([tx] + rest)[1..] == rest;
    TotalOfOne(tx, s, a);
  }

  lemma ColumnSumAdds(tx: Tx, rest: seq<Tx>, s: Scope, c: Column)
    ensures ColumnSum([tx] + rest, s, c) == ColumnSum([tx], s, c) + ColumnSum(rest, s, c)
  {
    var buy, sell := Selection(s.address, s.token, Buys, s.range), Selection(s.address, s.token, Sells, s.range);
    var ever, gone := Selection(s.address, s.token, Buys, s.all), Selection(s.address, s.token, Sells, s.all);
    match c
    case Holdings => TotalAdds(tx, rest, ever, Volume); TotalAdds(tx, rest, gone, Volume);
    case VolumeBought => TotalAdds(tx, rest, buy, Volume);
    case SpentAe => TotalAdds(tx, rest, buy, InAe);
    case SpentUsd => TotalAdds(tx, rest, buy, InUsd);
    case VolumeSold => TotalAdds(tx, rest, sell, Volume);
    case ReceivedAe => TotalAdds(tx, rest, sell, InAe);
    case ReceivedUsd => TotalAdds(tx, rest, sell, InUsd);
    case EverBought => TotalAdds(tx, rest, ever, Volume);
    case EverSpentAe => TotalAdds(tx, rest, ever, InAe);
    case EverSpentUsd => TotalAdds(tx, rest, ever, InUsd);
  }

  function StartOf(from: Option<nat>): nat { if from.Some? then from.value else 0 }

  lemma ContributionIsItsParts(tx: Tx, address: string, height: nat, token: string, from: Option<nat>, c: Column)
    requires BelongsTo(tx, address, height, token) && (from.Some? || !Ever(c))
    ensures ColumnOf(Contribution(tx, from), c) == ColumnSum([tx], ByHeight(address, token, StartOf(from), height), c)
  {
    ColumnSumOfOne(tx, ByHeight(address, token, StartOf(from), height), c);
  }

  lemma OthersContributeNothing(tx: Tx, address: string, height: nat, token: string, from: Option<nat>, c: Column)
    requires !BelongsTo(tx, address, height, token)
    ensures ColumnSum([tx], ByHeight(address, token, StartOf(from), height), c) == 0.0
  {
    ColumnSumOfOne(tx, ByHeight(address, token, StartOf(from), height), c);
  }

  lemma ColumnStep(tx: Tx, rest: seq<Tx>, address: string, height: nat, token: string, from: Option<nat>, c: Column)
    requires from.Some? || !Ever(c)
    ensures ColumnOf(Aggregate(Group([tx] + rest, address, height, token), from), c)
         == ColumnSum([tx], ByHeight(address, token, StartOf(from), height), c)
            + ColumnOf(Aggregate(Group(rest, address, height, token), from), c)
  {
    var group := Group(rest, address, height, token);
    assert ([tx] + rest)[1..] == rest;
    if BelongsTo(tx, address, height, token) {
      ContributionIsItsParts(tx, address, height, token, from, c);
      assert ([tx] + group)[1..] == group;
      PlusAddsColumns(Contribution(tx, from), Aggregate(group, from), c);
    } else {
      OthersContributeNothing(tx, address, height, token, from, c);
    }
  }

  /** Every aggregate column of a token is the sum its condition names, over the whole table. */
  lemma {:induction false} ColumnsAreSums(txs: seq<Tx>, address: string, height: nat, token: string, from: Option<nat>,
                                          c: Column)
    requires from.Some? || !Ever(c)
    ensures ColumnOf(Aggregate(Group(txs, address, height, token), from), c)
         == ColumnSum(txs, ByHeight(address, token, StartOf(from), height), c)
  {
    if txs != [] {
      var tx, rest := txs[0], txs[1..];
      assert txs == [tx] + rest;
      ColumnsAreSums(rest, address, height, token, from, c);
      ColumnStep(tx, rest, address, height, token, from, c);
      ColumnSumAdds(tx, rest, ByHeight(address, token, StartOf(from), height), c);
    }
  }

  lemma DailyContributionIsItsParts(tx: Tx, address: string, token: string, w: Window, c: Column)
    requires Joins(w, tx, address, token) && !RangeBuys(c)
    ensures ColumnOf(DailyContribution(Paired(w, tx)), c) == ColumnSum([tx], ByDay(address, token, w), c)
  {
    ColumnSumOfOne(tx, ByDay(address, token, w), c);
  }

  lemma OthersContributeNothingDaily(tx: Tx, address: string, token: string, w: Window, c: Column)
    requires !Joins(w, tx, address, token)
    ensures ColumnSum([tx], ByDay(address, token, w), c) == 0.0
  {
    ColumnSumOfOne(tx, ByDay(address, token, w), c);
  }

  lemma DailyTotalsStep(p: Paired, group: seq<Paired>, c: Column)
    ensures ColumnOf(DailyTotals([p] + group), c) == ColumnOf(DailyContribution(p), c) + ColumnOf(DailyTotals(group), c)
  {
    assert ([p] + group)[1..] == group;
    PlusAddsColumns(DailyContribution(p), DailyTotals(group), c);
  }

  lemma DailyColumnStep(tx: Tx, rest: seq<Tx>, address: string, token: string, w: Window, c: Column)
    requires !RangeBuys(c)
    ensures ColumnOf(DailyTotals(PairsOf(w, [tx] + rest, address, token)), c)
         == ColumnSum([tx], ByDay(address, token, w), c) + ColumnOf(DailyTotals(PairsOf(w, rest, address, token)), c)
  {
    var group := PairsOf(w, rest, address, token);
    assert ([tx] + rest)[1..] == rest;
    if Joins(w, tx, address, token) {
      DailyContributionIsItsParts(tx, address, token, w, c);
      DailyTotalsStep(Paired(w, tx), group, c);
    } else {
      OthersContributeNothingDaily(tx, address, token, w, c);
    }
  }

  /** The same for a window of the daily query: purchases since ever, sells of the window. */
  lemma {:induction false} DailyColumnsAreSums(txs: seq<Tx>, address: string, token: string, w: Window, c: Column)
    requires !RangeBuys(c)
    ensures ColumnOf(DailyTotals(PairsOf(w, txs, address, token)), c) == ColumnSum(txs, ByDay(address, token, w), c)
  {
    if txs != [] {
      var tx, rest := txs[0], txs[1..];
      assert txs == [tx] + rest;
      DailyColumnsAreSums(rest, address, token, w, c);
      DailyColumnStep(tx, rest, address, token, w, c);
      ColumnSumAdds(tx, rest, ByDay(address, token, w), c);
    }
  }

  // ---------------------------------------------------------------- the price

  predicate PricedAt(tx: Tx, c: Currency, price: real) {
    match c
    case Ae => tx.priceAe == Some(price)
    case Usd => tx.priceUsd == Some(price)
  }

  predicate Priced(tx: Tx, c: Currency) { if c == Ae then tx.priceAe.Some? else tx.priceUsd.Some? }

  /** `tx` is the last priced transaction of the token up to the height, whoever traded. */
  predicate IsLastPriced(txs: seq<Tx>, tx: Tx, token: string, height: nat, c: Currency) {
    && tx in txs && tx.token == token && tx.height <= height
    && forall other | other in txs && other.token == token && other.height <= height && Priced(other, c) ::
         other.height < tx.height || (other.height == tx.height && other.createdAt <= tx.createdAt)
  }

  /** The unit price is that of the last priced transaction, or 0 when there is none. */
  lemma UnitPriceIsTheLast(txs: seq<Tx>, token: string, height: nat, c: Currency)
    ensures (forall tx | tx in txs && tx.token == token && tx.height <= height :: !Priced(tx, c)) ==>
              UnitPrice(txs, token, height, c) == 0.0
    ensures (exists tx :: tx in txs && tx.token == token && tx.height <= height && Priced(tx, c)) ==>
              exists tx :: IsLastPriced(txs, tx, token, height, c) && PricedAt(tx, c, UnitPrice(txs, token, height, c))
  {
    LatestQuoteIsLatest(txs, token, height, c);
    var q := LatestQuote(txs, token, height, c);
    forall tx ensures Quotes(tx, token, height, c) <==> tx.token == token && tx.height <= height && Priced(tx, c) {}
    if q.Some? {
      assert Quotes(q.value, token, height, c);
      assert PricedAt(q.value, c, UnitPrice(txs, token, height, c));
      forall other | other in txs && other.token == token && other.height <= height && Priced(other, c)
        ensures other.height < q.value.height
                || (other.height == q.value.height && other.createdAt <= q.value.createdAt)
      {
        assert NoOlder(q.value, other);
      }
      assert IsLastPriced(txs, q.value, token, height, c);
    }
  }

  /** `tx` is the last priced transaction of the token before the time. */
  predicate IsLastPricedBy(txs: seq<Tx>, tx: Tx, token: string, ts: nat, c: Currency) {
    && tx in txs && tx.token == token && tx.createdAt < ts
    && forall other | other in txs && other.token == token && other.createdAt < ts && Priced(other, c) ::
         other.createdAt <= tx.createdAt
  }

  lemma PriceByIsTheLast(txs: seq<Tx>, token: string, ts: nat, c: Currency)
    ensures (forall tx | tx in txs && tx.token == token && tx.createdAt < ts :: !Priced(tx, c)) ==>
              PriceBy(txs, token, ts, c) == 0.0
    ensures (exists tx :: tx in txs && tx.token == token && tx.createdAt < ts && Priced(tx, c)) ==>
              exists tx :: IsLastPricedBy(txs, tx, token, ts, c) && PricedAt(tx, c, PriceBy(txs, token, ts, c))
  {
    LatestQuoteByIsLatest(txs, token, ts, c);
    var q := LatestQuoteBy(txs, token, ts, c);
    forall tx ensures QuotesBy(tx, token, ts, c) <==> tx.token == token && tx.createdAt < ts && Priced(tx, c) {}
    if q.Some? {
      assert QuotesBy(q.value, token, ts, c);
      assert PricedAt(q.value, c, PriceBy(txs, token, ts, c));
      assert IsLastPricedBy(txs, q.value, token, ts, c);
    }
  }

  // ---------------------------------------------------------------- the figures

  function BoughtMoney(txs: seq<Tx>, s: Scope, span: Span): Money {
    Money(Bought(txs, s, span, InAe), Bought(txs, s, span, InUsd))
  }

  function SoldMoney(txs: seq<Tx>, s: Scope, span: Span): Money {
    Money(Sold(txs, s, span, InAe), Sold(txs, s, span, InUsd))
  }

  /** The value of what is held at a unit price, in the currency of the price. */
  function AtPrice(units: real, price: Money): Money { Money(units * price.ae, units * price.usd) }

  function Percentage(gain: real, invested: real): real { if invested > 0.0 then gain / invested * 100.0 else 0.0 }

  /** Figures since ever: all that was spent, and the proceeds and the value held less that. */
  predicate CumulativeFigures(pnl: TokenPnl, price: Money, held: real, spent: Money, received: Money) {
    && pnl.unitPrice == price && pnl.currentValue == AtPrice(held, price)
    && pnl.invested == spent
    && pnl.gain == Money(received.ae + pnl.currentValue.ae - spent.ae, received.usd + pnl.currentValue.usd - spent.usd)
    && pnl.percentage == Percentage(pnl.gain.ae, pnl.invested.ae)
  }

  /** What a purchased unit cost on average. */
  function PerUnit(spent: real, bought: real): real { if bought > 0.0 then spent / bought else 0.0 }

  /** Figures of a range: the average cost of the units sold in it, and their proceeds less that. */
  predicate RangeFigures(pnl: TokenPnl, price: Money, held: real, spent: Money, bought: real, sold: real,
                         received: Money) {
    && pnl.unitPrice == price && pnl.currentValue == AtPrice(held, price)
    && pnl.invested == Money(PerUnit(spent.ae, bought) * sold, PerUnit(spent.usd, bought) * sold)
    && pnl.gain == Money(received.ae - pnl.invested.ae, received.usd - pnl.invested.usd)
    && pnl.percentage == Percentage(pnl.gain.ae, pnl.invested.ae)
  }

  lemma CumulativeFiguresOfRow(row: TokenRow)
    ensures CumulativeFigures(PnlOf(row, false), Money(row.unitPriceAe, row.unitPriceUsd), row.totals.holdings,
                              Money(row.totals.spentAe, row.totals.spentUsd),
                              Money(row.totals.receivedAe, row.totals.receivedUsd))
  {}

  lemma RangeFiguresOfRow(row: TokenRow)
    ensures RangeFigures(PnlOf(row, true), Money(row.unitPriceAe, row.unitPriceUsd), row.totals.holdings,
                         Money(row.totals.cumulativeSpentAe, row.totals.cumulativeSpentUsd),
                         row.totals.cumulativeBought, row.totals.volumeSold,
                         Money(row.totals.receivedAe, row.totals.receivedUsd))
  {}

  lemma RangeFiguresFromColumns(row: TokenRow, held: real, spent: Money, bought: real, sold: real, received: Money)
    requires RangeColumns(row.totals, held, spent, bought, sold, received)
    ensures RangeFigures(PnlOf(row, true), Money(row.unitPriceAe, row.unitPriceUsd), held, spent, bought, sold,
                         received)
  {
    RangeFiguresOfRow(row);
  }

  /** Something is held, or was bought or sold. */
  predicate Active(held: real, bought: real, sold: real) { held > 0.0 || bought > 0.0 || sold > 0.0 }

  predicate TradedBelow(txs: seq<Tx>, address: string, token: string, height: nat) {
    exists tx :: tx in txs && tx.address == address && tx.token == token && tx.height < height
  }

  predicate TradedBefore(txs: seq<Tx>, address: string, token: string, ts: nat) {
    exists tx :: tx in txs && tx.address == address && tx.token == token && tx.createdAt < ts
  }

  lemma {:induction false} TradedIffGroup(txs: seq<Tx>, address: string, height: nat, token: string)
    ensures Group(txs, address, height, token) != [] <==> TradedBelow(txs, address, token, height)
  {
    if txs != [] {
      assert txs == [txs[0]] + txs[1..];
      TradedIffGroup(txs[1..], address, height, token);
    }
  }

  lemma ListedIffReported(txs: seq<Tx>, address: string, height: nat, from: Option<nat>, token: string)
    ensures var group := Group(txs, address, height, token);
      token in TokenPnlsAt(txs, address, height, from).pnls <==> group != [] && Reported(Aggregate(group, from))
  {
    var traded := TokensTraded(txs, address, height);
    var rows := RowsForTokens(txs, address, height, from, Dedup(traded));
    var group := Group(txs, address, height, token);
    DedupDropsRepeats(traded);
    DedupKeepsMembers(traded, token);
    TradedMeansGroup(txs, address, height, token);
    RowsForTokensMembers(txs, address, height, from, Dedup(traded));
    AddEntriesTokens(EntriesOf(rows, from.Some?), token);
    if group != [] && Reported(Aggregate(group, from)) { ReferenceLooksUp(txs, address, height, from, token); }
    assert forall i | 0 <= i < |rows| :: rows[i] in rows;
  }

  lemma ReportedIffActive(txs: seq<Tx>, address: string, height: nat, from: Option<nat>, token: string)
    ensures var s := ByHeight(address, token, StartOf(from), height);
      Reported(Aggregate(Group(txs, address, height, token), from))
      <==> Active(Held(txs, s), Bought(txs, s, s.range, Volume), Sold(txs, s, s.range, Volume))
  {
    ColumnsAreSums(txs, address, height, token, from, Holdings);
    ColumnsAreSums(txs, address, height, token, from, VolumeBought);
    ColumnsAreSums(txs, address, height, token, from, VolumeSold);
  }

  /**
   A token is listed exactly when it was traded below the height and something is held, or was bought or sold
   from the start height on.
   */
  lemma ListedIff(txs: seq<Tx>, address: string, height: nat, from: Option<nat>, token: string)
    ensures var s := ByHeight(address, token, StartOf(from), height);
      token in TokenPnlsAt(txs, address, height, from).pnls
      <==> && TradedBelow(txs, address, token, height)
           && Active(Held(txs, s), Bought(txs, s, s.range, Volume), Sold(txs, s, s.range, Volume))
  {
    ReportedIffActive(txs, address, height, from, token);
    TradedIffGroup(txs, address, height, token);
    ListedIffReported(txs, address, height, from, token);
  }

  function PriceAt(txs: seq<Tx>, token: string, height: nat): Money {
    Money(UnitPrice(txs, token, height, Ae), UnitPrice(txs, token, height, Usd))
  }

  lemma CumulativeFiguresFromSums(row: TokenRow, txs: seq<Tx>, s: Scope)
    requires s.range == s.all && forall c | !Ever(c) :: SumsTo(row.totals, txs, s, c)
    ensures CumulativeFigures(PnlOf(row, false), Money(row.unitPriceAe, row.unitPriceUsd), Held(txs, s),
                              BoughtMoney(txs, s, s.all), SoldMoney(txs, s, s.all))
  {
    assert SumsTo(row.totals, txs, s, Holdings);
    assert SumsTo(row.totals, txs, s, SpentAe) && SumsTo(row.totals, txs, s, SpentUsd);
    assert SumsTo(row.totals, txs, s, ReceivedAe) && SumsTo(row.totals, txs, s, ReceivedUsd);
    CumulativeFiguresOfRow(row);
  }

  /** The cumulative figures of a listed token, as sums over the table below the height. */
  lemma CumulativeFiguresOfToken(txs: seq<Tx>, address: string, height: nat, token: string)
    requires token in TokenPnlsAt(txs, address, height, None).pnls
    ensures var s := ByHeight(address, token, 0, height);
      CumulativeFigures(TokenPnlsAt(txs, address, height, None).pnls[token], PriceAt(txs, token, height), Held(txs, s),
                        BoughtMoney(txs, s, s.all), SoldMoney(txs, s, s.all))
  {
    ListedIffReported(txs, address, height, None, token);
    ReferenceLooksUp(txs, address, height, None, token);
    var row := ResultRow(txs, Group(txs, address, height, token), height, token, None);
    var s := ByHeight(address, token, 0, height);
    forall c | !Ever(c) ensures SumsTo(row.totals, txs, s, c) {
      ColumnsAreSums(txs, address, height, token, None, c);
    }
    CumulativeFiguresFromSums(row, txs, s);
  }

  /** The columns the figures of a range are made of. */
  predicate RangeColumns(t: Totals, held: real, spent: Money, bought: real, sold: real, received: Money) {
    && t.holdings == held && t.cumulativeSpentAe == spent.ae && t.cumulativeSpentUsd == spent.usd
    && t.cumulativeBought == bought && t.volumeSold == sold
    && t.receivedAe == received.ae && t.receivedUsd == received.usd
  }

  lemma RangeColumnsFromSums(t: Totals, txs: seq<Tx>, s: Scope)
    requires forall c | !RangeBuys(c) :: SumsTo(t, txs, s, c)
    ensures RangeColumns(t, Held(txs, s), BoughtMoney(txs, s, s.all), Bought(txs, s, s.all, Volume),
                         Sold(txs, s, s.range, Volume), SoldMoney(txs, s, s.range))
  {
    assert SumsTo(t, txs, s, Holdings) && SumsTo(t, txs, s, VolumeSold);
    assert SumsTo(t, txs, s, ReceivedAe) && SumsTo(t, txs, s, ReceivedUsd);
    assert SumsTo(t, txs, s, EverBought) && SumsTo(t, txs, s, EverSpentAe) && SumsTo(t, txs, s, EverSpentUsd);
  }

  lemma RangeColumnsOfToken(txs: seq<Tx>, address: string, height: nat, start: nat, token: string)
    ensures var s := ByHeight(address, token, start, height);
      RangeColumns(Aggregate(Group(txs, address, height, token), Some(start)), Held(txs, s),
                   BoughtMoney(txs, s, s.all), Bought(txs, s, s.all, Volume), Sold(txs, s, s.range, Volume),
                   SoldMoney(txs, s, s.range))
  {
    var t := Aggregate(Group(txs, address, height, token), Some(start));
    var s := ByHeight(address, token, start, height);
    forall c | !RangeBuys(c) ensures SumsTo(t, txs, s, c) {
      ColumnsAreSums(txs, address, height, token, Some(start), c);
    }
    RangeColumnsFromSums(t, txs, s);
  }

  /** The figures of a listed token from a start height on. */
  lemma RangeFiguresOfToken(txs: seq<Tx>, address: string, height: nat, start: nat, token: string)
    requires token in TokenPnlsAt(txs, address, height, Some(start)).pnls
    ensures var s := ByHeight(address, token, start, height);
      RangeFigures(TokenPnlsAt(txs, address, height, Some(start)).pnls[token], PriceAt(txs, token, height),
                   Held(txs, s), BoughtMoney(txs, s, s.all), Bought(txs, s, s.all, Volume),
                   Sold(txs, s, s.range, Volume), SoldMoney(txs, s, s.range))
  {
    var from, s := Some(start), ByHeight(address, token, start, height);
    ListedIffReported(txs, address, height, from, token);
    ReferenceLooksUp(txs, address, height, from, token);
    RangeColumnsOfToken(txs, address, height, start, token);
    RangeFiguresFromColumns(ResultRow(txs, Group(txs, address, height, token), height, token, from), Held(txs, s),
                            BoughtMoney(txs, s, s.all), Bought(txs, s, s.all, Volume), Sold(txs, s, s.range, Volume),
                            SoldMoney(txs, s, s.range));
  }

  // ---------------------------------------------------------------- the daily figures

  lemma {:induction false} TradedIffPairs(txs: seq<Tx>, address: string, w: Window, token: string)
    ensures PairsOf(w, txs, address, token) != [] <==> TradedBefore(txs, address, token, w.snapshotTs)
  {
    if txs != [] {
      assert txs == [txs[0]] + txs[1..];
      TradedIffPairs(txs[1..], address, w, token);
    }
  }

  lemma DailyReportedIffActive(txs: seq<Tx>, address: string, w: Window, token: string)
    ensures var s := ByDay(address, token, w);
      DailyReported(DailyTotals(PairsOf(w, txs, address, token)))
      <==> Active(Held(txs, s), Bought(txs, s, s.all, Volume), Sold(txs, s, s.range, Volume))
  {
    DailyColumnsAreSums(txs, address, token, w, Holdings);
    DailyColumnsAreSums(txs, address, token, w, EverBought);
    DailyColumnsAreSums(txs, address, token, w, VolumeSold);
  }

  /** A token is listed for a window when it was traded before its end and is held, was ever bought, or sold in it. */
  lemma DailyListedIff(txs: seq<Tx>, address: string, w: Window, token: string)
    ensures var s := ByDay(address, token, w);
      token in DailyPnlAt(txs, address, w).pnls
      <==> && TradedBefore(txs, address, token, w.snapshotTs)
           && Active(Held(txs, s), Bought(txs, s, s.all, Volume), Sold(txs, s, s.range, Volume))
  {
    DailyReferenceLooksUp(txs, address, w, token);
    TradedIffPairs(txs, address, w, token);
    DailyReportedIffActive(txs, address, w, token);
  }

  lemma RangeColumnsOfWindow(txs: seq<Tx>, address: string, w: Window, token: string)
    ensures var s := ByDay(address, token, w);
      RangeColumns(DailyTotals(PairsOf(w, txs, address, token)), Held(txs, s), BoughtMoney(txs, s, s.all),
                   Bought(txs, s, s.all, Volume), Sold(txs, s, s.range, Volume), SoldMoney(txs, s, s.range))
  {
    var t, s := DailyTotals(PairsOf(w, txs, address, token)), ByDay(address, token, w);
    forall c | !RangeBuys(c) ensures SumsTo(t, txs, s, c) {
      DailyColumnsAreSums(txs, address, token, w, c);
    }
    RangeColumnsFromSums(t, txs, s);
  }

  /** The figures of a token listed for a window: its sells of the window against the average cost since ever. */
  lemma DailyFiguresOfToken(txs: seq<Tx>, address: string, w: Window, token: string)
    requires token in DailyPnlAt(txs, address, w).pnls
    ensures var s := ByDay(address, token, w);
      RangeFigures(DailyPnlAt(txs, address, w).pnls[token],
                   Money(PriceBy(txs, token, w.snapshotTs, Ae), PriceBy(txs, token, w.snapshotTs, Usd)), Held(txs, s),
                   BoughtMoney(txs, s, s.all), Bought(txs, s, s.all, Volume), Sold(txs, s, s.range, Volume),
                   SoldMoney(txs, s, s.range))
  {
    var s := ByDay(address, token, w);
    DailyReferenceLooksUp(txs, address, w, token);
    RangeColumnsOfWindow(txs, address, w, token);
    RangeFiguresFromColumns(WindowRow(txs, address, w, token), Held(txs, s), BoughtMoney(txs, s, s.all),
                            Bought(txs, s, s.all, Volume), Sold(txs, s, s.range, Volume), SoldMoney(txs, s, s.range));
  }

  // ---------------------------------------------------------------- the totals

  datatype Figure = CostAe | CostUsd | ValueAe | ValueUsd | GainAe | GainUsd

  function FigureOf(pnl: TokenPnl, f: Figure): real {
    match f
    case CostAe => pnl.invested.ae
    case CostUsd => pnl.invested.usd
    case ValueAe => pnl.currentValue.ae
    case ValueUsd => pnl.currentValue.usd
    case GainAe => pnl.gain.ae
    case GainUsd => pnl.gain.usd
  }

  function TotalOf(result: TokenPnlResult, f: Figure): real {
    match f
    case CostAe => result.totalCostBasis.ae
    case CostUsd => result.totalCostBasis.usd
    case ValueAe => result.totalCurrentValue.ae
    case ValueUsd => result.totalCurrentValue.usd
    case GainAe => result.totalGain.ae
    case GainUsd => result.totalGain.usd
  }

  function SumOver(result: TokenPnlResult, tokens: seq<string>, f: Figure): real {
    if tokens == [] then 0.0
    else
      var last := tokens[|tokens| - 1];
      SumOver(result, tokens[..|tokens| - 1], f)
      + (if last in result.pnls then FigureOf(result.pnls[last], f) else 0.0)
  }

  function TokensIn(es: seq<Entry>): seq<string> { seq(|es|, i requires 0 <= i < |es| => es[i].token) }

  lemma {:induction false} SumOverAgrees(a: TokenPnlResult, b: TokenPnlResult, tokens: seq<string>, f: Figure)
    requires forall t | t in tokens :: t in a.pnls && t in b.pnls && a.pnls[t] == b.pnls[t]
    ensures SumOver(a, tokens, f) == SumOver(b, tokens, f)
  {
    if tokens != [] {
      var n := |tokens| - 1;
      assert tokens[n] in tokens && forall t | t in tokens[..n] :: t in tokens;
      SumOverAgrees(a, b, tokens[..n], f);
    }
  }

  lemma {:induction false} ListedTokens(es: seq<Entry>)
    ensures forall t :: t in AddEntries(es).pnls <==> t in TokensIn(es)
    decreases |es|
  {
    if es != [] {
      var n := |es| - 1;
      ListedTokens(es[..n]);
      assert TokensIn(es) == TokensIn(es[..n]) + [es[n].token];
    }
  }

  lemma SumOverNext(result: TokenPnlResult, tokens: seq<string>, token: string, f: Figure)
    requires token in result.pnls
    ensures SumOver(result, tokens + [token], f) == SumOver(result, tokens, f) + FigureOf(result.pnls[token], f)
  {
    assert (tokens + [token])[..|tokens|] == tokens;
  }

  lemma TotalOfNext(acc: TokenPnlResult, e: Entry, f: Figure)
    ensures TotalOf(AddEntry(acc, e), f) == TotalOf(acc, f) + FigureOf(e.pnl, f)
    ensures e.token in AddEntry(acc, e).pnls && AddEntry(acc, e).pnls[e.token] == e.pnl
  {}

  /** One more entry adds its figure to both. */
  lemma TotalAndSumGrow(acc: TokenPnlResult, tokens: seq<string>, e: Entry, f: Figure)
    requires e.token !in tokens && forall t | t in tokens :: t in acc.pnls
    requires TotalOf(acc, f) == SumOver(acc, tokens, f)
    ensures TotalOf(AddEntry(acc, e), f) == SumOver(AddEntry(acc, e), tokens + [e.token], f)
  {
    var next := AddEntry(acc, e);
    TotalOfNext(acc, e, f);
    SumOverNext(next, tokens, e.token, f);
    SumOverAgrees(acc, next, tokens, f);
  }

  lemma LastTokenIsNew(es: seq<Entry>)
    requires es != [] && DistinctEntries(es)
    ensures var front, last := es[..|es| - 1], es[|es| - 1];
      DistinctEntries(front) && TokensIn(es) == TokensIn(front) + [last.token] && last.token !in TokensIn(front)
  {
    var front := es[..|es| - 1];
    assert forall i | 0 <= i < |front| :: TokensIn(front)[i] == es[i].token;
  }

  /** Each total is the sum of that figure over the entries, one for each token listed. */
  lemma {:induction false} TotalsAreSums(es: seq<Entry>, f: Figure)
    requires DistinctEntries(es)
    ensures TotalOf(AddEntries(es), f) == SumOver(AddEntries(es), TokensIn(es), f)
    decreases |es|
  {
    if es != [] {
      var n := |es| - 1;
      var front := es[..n];
      TotalsAreSums(front, f);
      ListedTokens(front);
      LastTokenIsNew(es);
      TotalAndSumGrow(AddEntries(front), TokensIn(front), es[n], f);
    }
  }

  /** The totals of a result are the sums of its entries. */
  lemma ReferenceTotalsAreSums(txs: seq<Tx>, address: string, height: nat, from: Option<nat>, f: Figure)
    returns (tokens: seq<string>)
    ensures NoRepeats(tokens) && forall t :: t in tokens <==> t in TokenPnlsAt(txs, address, height, from).pnls
    ensures TotalOf(TokenPnlsAt(txs, address, height, from), f)
         == SumOver(TokenPnlsAt(txs, address, height, from), tokens, f)
  {
    var traded := TokensTraded(txs, address, height);
    DedupDropsRepeats(traded);
    RowsForTokensMembers(txs, address, height, from, Dedup(traded));
    var rows := RowsForTokens(txs, address, height, from, Dedup(traded));
    var es := EntriesOf(rows, from.Some?);
    assert DistinctEntries(es);
    TotalsAreSums(es, f);
    ListedTokens(es);
    tokens := TokensIn(es);
  }
}
