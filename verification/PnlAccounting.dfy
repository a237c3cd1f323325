/** The accounting identity between the two branches of `mapTokenPnls`, for every transaction history. */
module PnlAccounting {
  import opened Wrappers
  import opened Sequences
  import opened PnlModel
  import opened PnlQueries
  import opened PnlService

  /** A range that starts at height 0 restricts nothing, and holdings are what was bought and not sold. */
  lemma {:induction false} RangeFromZeroIsEverything(group: seq<Tx>)
    ensures var all, ranged := Aggregate(group, None), Aggregate(group, Some(0));
      && ranged.(cumulativeBought := 0.0, cumulativeSpentAe := 0.0, cumulativeSpentUsd := 0.0) == all
      && ranged.cumulativeBought == all.volumeBought
      && ranged.cumulativeSpentAe == all.spentAe && ranged.cumulativeSpentUsd == all.spentUsd
      && all.holdings == all.volumeBought - all.volumeSold
  {
    if group != [] { RangeFromZeroIsEverything(group[1..]); }
  }

  /** What was sold and what is held, at average cost, is what was spent; unless nothing was bought. */
  lemma CostIsConserved(spent: real, bought: real, sold: real)
    ensures AtAverageCost(sold, spent, bought) + AtAverageCost(bought - sold, spent, bought)
         == if bought > 0.0 then spent else 0.0
  {
    var average := AverageCost(spent, bought);
    assert average * sold + average * (bought - sold) == average * bought;
    if bought > 0.0 { assert spent / bought * bought == spent; }
  }

  /** The cumulative gain as the identity would have it. */
  function ExpectedGain(t: Totals, realized: Money, value: Money): Money {
    Money(realized.ae + value.ae - AtAverageCost(t.holdings, t.spentAe, t.volumeBought),
          realized.usd + value.usd - AtAverageCost(t.holdings, t.spentUsd, t.volumeBought))
  }

  lemma IdentityOfGroup(group: seq<Tx>, value: Money)
    ensures var t, r := Aggregate(group, None), Aggregate(group, Some(0));
      GainOf(t, CostOf(t, false), value, false) == ExpectedGain(t, GainOf(r, CostOf(r, true), value, true), value)
      <==> t.volumeBought > 0.0 || (t.spentAe == 0.0 && t.spentUsd == 0.0)
  {
    RangeFromZeroIsEverything(group);
    var t := Aggregate(group, None);
    CostIsConserved(t.spentAe, t.volumeBought, t.volumeSold);
    CostIsConserved(t.spentUsd, t.volumeBought, t.volumeSold);
  }

  lemma {:induction false} AddEntriesLooksUp(es: seq<Entry>, k: nat)
    requires DistinctEntries(es) && k < |es|
    ensures es[k].token in AddEntries(es).pnls && AddEntries(es).pnls[es[k].token] == es[k].pnl
    decreases |es|
  {
    if k < |es| - 1 { AddEntriesLooksUp(es[..|es| - 1], k); }
  }

  lemma {:induction false} AddEntriesTokens(es: seq<Entry>, token: string)
    ensures token in AddEntries(es).pnls ==> exists i :: 0 <= i < |es| && es[i].token == token
    decreases |es|
  {
    if es != [] && token != es[|es| - 1].token {
      AddEntriesTokens(es[..|es| - 1], token);
    }
  }

  lemma ReferenceLooksUp(txs: seq<Tx>, address: string, height: nat, from: Option<nat>, token: string)
    requires Group(txs, address, height, token) != []
    requires Reported(Aggregate(Group(txs, address, height, token), from))
    ensures token in TokenPnlsAt(txs, address, height, from).pnls
    ensures TokenPnlsAt(txs, address, height, from).pnls[token]
         == PnlOf(ResultRow(txs, Group(txs, address, height, token), height, token, from), from.Some?)
  {
    var traded := TokensTraded(txs, address, height);
    DedupDropsRepeats(traded);
    DedupKeepsMembers(traded, token);
    TradedMeansGroup(txs, address, height, token);
    RowsForTokensMembers(txs, address, height, from, Dedup(traded));
    var rows := RowsForTokens(txs, address, height, from, Dedup(traded));
    var row := ResultRow(txs, Group(txs, address, height, token), height, token, from);
    assert row in rows;
    var k :| 0 <= k < |rows| && rows[k] == row;
    AddEntriesLooksUp(EntriesOf(rows, from.Some?), k);
  }

  /**
   For every history and every token that is reported: cumulative gain equals the realized gain since
   height 0 plus the current value less the average cost of what is still held, exactly when some
   volume was bought or nothing was spent.
   */
  lemma GainsAgree(txs: seq<Tx>, address: string, height: nat, token: string)
    requires Group(txs, address, height, token) != []
    requires Reported(Aggregate(Group(txs, address, height, token), None))
    ensures var t := Aggregate(Group(txs, address, height, token), None);
      var cumulative := TokenPnlsAt(txs, address, height, None).pnls;
      var ranged := TokenPnlsAt(txs, address, height, Some(0)).pnls;
      && token in cumulative && token in ranged
      && (cumulative[token].gain == ExpectedGain(t, ranged[token].gain, cumulative[token].currentValue)
          <==> t.volumeBought > 0.0 || (t.spentAe == 0.0 && t.spentUsd == 0.0))
  {
    var group := Group(txs, address, height, token);
    RangeFromZeroIsEverything(group);
    ReferenceLooksUp(txs, address, height, None, token);
    ReferenceLooksUp(txs, address, height, Some(0), token);
    var all := ResultRow(txs, group, height, token, None);
    var ranged := ResultRow(txs, group, height, token, Some(0));
    assert ranged.totals.holdings == all.totals.holdings && ranged.unitPriceAe == all.unitPriceAe
         && ranged.unitPriceUsd == all.unitPriceUsd;
    IdentityOfGroup(group, ValueOf(all));
  }

  /**
   A purchase that minted something, or cost nothing: what a stored purchase is when mint and price belong
   together.
   */
  predicate PricedByItsMint(tx: Tx) {
    IsBuy(tx) ==> tx.volume > 0.0 || (tx.volume == 0.0 && OrZero(tx.amountAe) == 0.0 && OrZero(tx.amountUsd) == 0.0)
  }

  lemma {:induction false} PricedPurchases(group: seq<Tx>)
    requires forall tx | tx in group :: PricedByItsMint(tx)
    ensures var t := Aggregate(group, None);
      t.volumeBought > 0.0 || (t.volumeBought == 0.0 && t.spentAe == 0.0 && t.spentUsd == 0.0)
  {
    if group != [] {
      assert group == [group[0]] + group[1..];
      assert PricedByItsMint(group[0]);
      PricedPurchases(group[1..]);
    }
  }

  lemma {:induction false} GroupMembers(txs: seq<Tx>, address: string, height: nat, token: string)
    ensures forall tx | tx in Group(txs, address, height, token) :: tx in txs && tx.token == token
  {
    if txs != [] {
      assert txs == [txs[0]] + txs[1..];
      GroupMembers(txs[1..], address, height, token);
    }
  }

  /** So the identity holds on every history whose purchases of the token are priced by what they minted. */
  lemma GainsAgreeOnPricedPurchases(txs: seq<Tx>, address: string, height: nat, token: string)
    requires forall tx | tx in txs && tx.token == token :: PricedByItsMint(tx)
    requires Group(txs, address, height, token) != []
    requires Reported(Aggregate(Group(txs, address, height, token), None))
    ensures var t := Aggregate(Group(txs, address, height, token), None);
      var cumulative := TokenPnlsAt(txs, address, height, None).pnls;
      var ranged := TokenPnlsAt(txs, address, height, Some(0)).pnls;
      && token in cumulative && token in ranged
      && cumulative[token].gain == ExpectedGain(t, ranged[token].gain, cumulative[token].currentValue)
  {
    GroupMembers(txs, address, height, token);
    PricedPurchases(Group(txs, address, height, token));
    GainsAgree(txs, address, height, token);
  }

  /** A purchase stored with a price and no volume, and the sale of units that came by transfer. */
  predicate EmptyPurchase(buy: Tx, sale: Tx, address: string, height: nat, token: string) {
    && BelongsTo(buy, address, height, token) && IsBuy(buy) && buy.volume == 0.0 && OrZero(buy.amountAe) > 0.0
    && BelongsTo(sale, address, height, token) && IsSell(sale) && sale.volume > 0.0
  }

  lemma GroupOfTwo(a: Tx, b: Tx, address: string, height: nat, token: string)
    requires BelongsTo(a, address, height, token) && BelongsTo(b, address, height, token)
    ensures Group([a, b], address, height, token) == [a, b]
  {
    assert [a, b][1..] == [b] && [b][1..] == [];
    assert Group([b], address, height, token) == [b];
  }

  lemma AggregateOfTwo(a: Tx, b: Tx, from: Option<nat>)
    ensures Aggregate([a, b], from) == Plus(Contribution(a, from), Plus(Contribution(b, from), ZERO))
  {
    assert [a, b][1..] == [b] && [b][1..] == [];
    assert Aggregate([b], from) == Plus(Contribution(b, from), ZERO);
  }

  lemma EmptyPurchaseTotals(buy: Tx, sale: Tx, address: string, height: nat, token: string)
    requires EmptyPurchase(buy, sale, address, height, token)
    ensures var t := Plus(Contribution(buy, None), Plus(Contribution(sale, None), ZERO));
      t.volumeBought == 0.0 && t.spentAe > 0.0 && t.volumeSold > 0.0
  {}

  /** On such a history the token is reported and the two branches disagree. */
  lemma GainsDisagreeOnAnEmptyPurchase(buy: Tx, sale: Tx, address: string, height: nat, token: string)
    requires EmptyPurchase(buy, sale, address, height, token)
    ensures var txs := [buy, sale];
      var t := Aggregate(Group(txs, address, height, token), None);
      var cumulative := TokenPnlsAt(txs, address, height, None).pnls;
      var ranged := TokenPnlsAt(txs, address, height, Some(0)).pnls;
      && token in cumulative && token in ranged
      && cumulative[token].gain != ExpectedGain(t, ranged[token].gain, cumulative[token].currentValue)
  {
    GroupOfTwo(buy, sale, address, height, token);
    AggregateOfTwo(buy, sale, None);
    EmptyPurchaseTotals(buy, sale, address, height, token);
    assert Group([buy, sale], address, height, token) != [];
    GainsAgree([buy, sale], address, height, token);
  }

  /** There are such histories. */
  lemma AnEmptyPurchase()
    ensures EmptyPurchase(Tx("ak", "ct", 1, 1, "buy", 0.0, Some(1.0), None, None, None),
                          Tx("ak", "ct", 2, 2, "sell", 1.0, Some(1.0), None, None, None), "ak", 3, "ct")
  {}

  /** The events of one purchase: the units minted by it, in order, and what was paid in AE. */
  datatype Purchase = Purchase(mints: seq<real>, paid: real)

  /**
   What the parser stores for a purchase: the volume is the last mint, the amount is what was paid. A
   community created without a purchase has neither.
   */
  function StoredPurchase(tx: Tx, purchase: Option<Purchase>, usdRate: Option<real>): Tx
    requires purchase.Some? ==> purchase.value.mints != []
  {
    var volume := if purchase.None? then 0.0 else purchase.value.mints[|purchase.value.mints| - 1];
    var paid := if purchase.None? then 0.0 else purchase.value.paid;
    var paidUsd := if usdRate.None? then None else Some(paid * usdRate.value);
    tx.(volume := volume, amountAe := Some(paid), amountUsd := paidUsd)
  }

  /**
   The parser relates the two nowhere: it stores a purchase off its mint exactly when a paid one mints
   nothing last.
   */
  lemma StoredPurchaseIsPricedIff(tx: Tx, purchase: Option<Purchase>, usdRate: Option<real>)
    requires IsBuy(tx)
    requires purchase.Some? ==> purchase.value.mints != [] && purchase.value.mints[|purchase.value.mints| - 1] >= 0.0
    ensures PricedByItsMint(StoredPurchase(tx, purchase, usdRate))
       <==> purchase.None? || purchase.value.mints[|purchase.value.mints| - 1] > 0.0 || purchase.value.paid == 0.0
  {
    assert usdRate.Some? ==> 0.0 * usdRate.value == 0.0;
  }

  // ---------------------------------------------------------------- the totals

  function Received(rows: seq<TokenRow>): Money {
    if rows == [] then Money(0.0, 0.0)
    else AddMoney(Received(rows[..|rows| - 1]),
                  Money(rows[|rows| - 1].totals.receivedAe, rows[|rows| - 1].totals.receivedUsd))
  }

  /**
   Gain and what was invested add up to what came back: the proceeds, and for a cumulative result the value
   still held.
   */
  lemma ReturnsAddUp(row: TokenRow, isRangeBased: bool)
    ensures var pnl := PnlOf(row, isRangeBased);
      && AddMoney(pnl.gain, pnl.invested)
         == AddMoney(Money(row.totals.receivedAe, row.totals.receivedUsd),
                     if isRangeBased then Money(0.0, 0.0) else pnl.currentValue)
      && (pnl.invested.ae > 0.0 ==> pnl.percentage * pnl.invested.ae == pnl.gain.ae * 100.0)
      && (pnl.invested.ae <= 0.0 ==> pnl.percentage == 0.0)
  {}

  /** What comes back on a token: the gain and what was invested. */
  function ReturnsOf(pnl: TokenPnl): Money { AddMoney(pnl.gain, pnl.invested) }

  /** Within a range that is what its sells brought in. */
  lemma RangeReturnsProceeds(row: TokenRow)
    ensures ReturnsOf(PnlOf(row, true)) == Money(row.totals.receivedAe, row.totals.receivedUsd)
  {}

  /** The same for the totals over all rows. */
  lemma {:induction false} TotalReturnsAddUp(rows: seq<TokenRow>, isRangeBased: bool)
    ensures var result := MapRows(rows, isRangeBased);
      AddMoney(result.totalGain, result.totalCostBasis)
      == AddMoney(Received(rows), if isRangeBased then Money(0.0, 0.0) else result.totalCurrentValue)
  {
    if rows != [] {
      var n := |rows| - 1;
      assert EntriesOf(rows, isRangeBased)[..n] == EntriesOf(rows[..n], isRangeBased);
      TotalReturnsAddUp(rows[..n], isRangeBased);
      ReturnsAddUp(rows[n], isRangeBased);
    }
  }
}
