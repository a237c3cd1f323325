/**
 Profit and loss per token: the aggregates of one token's transactions, the latest price, and the
 figures `mapTokenPnls` derives from them. Amounts are exact reals. A price or amount that is NULL or
 'NaN' is None and is skipped by SUM, as in SQL.
 */
module PnlModel {
  import opened Wrappers

  datatype Tx = Tx(
    address: string,
    token: string,
    height: nat,
    createdAt: int,
    txType: string,
    volume: real,
    amountAe: Option<real>,
    amountUsd: Option<real>,
    priceAe: Option<real>,
    priceUsd: Option<real>)

  /** The aggregate columns; the last three are selected only when a start height is given. */
  datatype Totals = Totals(
    holdings: real,
    volumeBought: real,
    spentAe: real,
    spentUsd: real,
    receivedAe: real,
    receivedUsd: real,
    volumeSold: real,
    cumulativeBought: real,
    cumulativeSpentAe: real,
    cumulativeSpentUsd: real)

  const ZERO := Totals(0.0, 0.0, 0.0, 0.0, 0.0, 0.0, 0.0, 0.0, 0.0, 0.0)

  predicate IsBuy(tx: Tx) { tx.txType == "buy" || tx.txType == "create_community" }

  predicate IsSell(tx: Tx) { tx.txType == "sell" }

  predicate InRange(tx: Tx, from: Option<nat>) { from.None? || tx.height >= from.value }

  function OrZero(x: Option<real>): real { if x.Some? then x.value else 0.0 }

  function When(condition: bool, x: real): real { if condition then x else 0.0 }

  /** What one transaction adds to each column. */
  function Contribution(tx: Tx, from: Option<nat>): Totals {
    var bought, sold := IsBuy(tx) && InRange(tx, from), IsSell(tx) && InRange(tx, from);
    var ever := IsBuy(tx) && from.Some?;
    Totals(When(IsBuy(tx), tx.volume) - When(IsSell(tx), tx.volume),
           When(bought, tx.volume), When(bought, OrZero(tx.amountAe)), When(bought, OrZero(tx.amountUsd)),
           When(sold, OrZero(tx.amountAe)), When(sold, OrZero(tx.amountUsd)), When(sold, tx.volume),
           When(ever, tx.volume), When(ever, OrZero(tx.amountAe)), When(ever, OrZero(tx.amountUsd)))
  }

  function Plus(a: Totals, b: Totals): Totals {
    Totals(a.holdings + b.holdings, a.volumeBought + b.volumeBought, a.spentAe + b.spentAe, a.spentUsd + b.spentUsd,
           a.receivedAe + b.receivedAe, a.receivedUsd + b.receivedUsd, a.volumeSold + b.volumeSold,
           a.cumulativeBought + b.cumulativeBought, a.cumulativeSpentAe + b.cumulativeSpentAe,
           a.cumulativeSpentUsd + b.cumulativeSpentUsd)
  }

  /** The SUM columns over one group of transactions. */
  function Aggregate(group: seq<Tx>, from: Option<nat>): Totals {
    if group == [] then ZERO else Plus(Contribution(group[0], from), Aggregate(group[1..], from))
  }

  datatype Currency = Ae | Usd

  function PriceIn(tx: Tx, c: Currency): Option<real> { if c == Ae then tx.priceAe else tx.priceUsd }

  predicate Quotes(tx: Tx, token: string, height: nat, c: Currency) {
    tx.token == token && tx.height <= height && PriceIn(tx, c).Some?
  }

  predicate NoOlder(a: Tx, b: Tx) { a.height > b.height || (a.height == b.height && a.createdAt >= b.createdAt) }

  /** `ORDER BY block_height DESC, created_at DESC LIMIT 1`; the earliest row of the table wins a tie. */
  function LatestQuote(txs: seq<Tx>, token: string, height: nat, c: Currency): Option<Tx> {
    if txs == [] then None
    else
      var rest := LatestQuote(txs[1..], token, height, c);
      if Quotes(txs[0], token, height, c) && (rest.None? || NoOlder(txs[0], rest.value)) then Some(txs[0]) else rest
  }

  lemma {:induction false} LatestQuoteIsLatest(txs: seq<Tx>, token: string, height: nat, c: Currency)
    ensures var q := LatestQuote(txs, token, height, c);
      && (q.Some? ==> q.value in txs && Quotes(q.value, token, height, c))
      && (q.None? ==> forall tx | tx in txs :: !Quotes(tx, token, height, c))
      && (q.Some? ==> forall tx | tx in txs && Quotes(tx, token, height, c) :: NoOlder(q.value, tx))
  {
    if txs != [] {
      LatestQuoteIsLatest(txs[1..], token, height, c);
      assert txs == [txs[0]] + txs[1..];
    }
  }

  function UnitPrice(txs: seq<Tx>, token: string, height: nat, c: Currency): real {
    var q := LatestQuote(txs, token, height, c);
    if q.None? then 0.0 else OrZero(PriceIn(q.value, c))
  }

  /** One result row of the single-height query. */
  datatype TokenRow = TokenRow(token: string, totals: Totals, unitPriceAe: real, unitPriceUsd: real)

  predicate Reported(t: Totals) { t.holdings > 0.0 || t.volumeBought > 0.0 || t.volumeSold > 0.0 }

  // ---------------------------------------------------------------- mapTokenPnls

  datatype Money = Money(ae: real, usd: real)

  datatype TokenPnl = TokenPnl(unitPrice: Money, percentage: real, invested: Money, currentValue: Money, gain: Money)

  datatype TokenPnlResult = TokenPnlResult(
    pnls: map<string, TokenPnl>, totalCostBasis: Money, totalCurrentValue: Money, totalGain: Money)

  const EMPTY := TokenPnlResult(map[], Money(0.0, 0.0), Money(0.0, 0.0), Money(0.0, 0.0))

  function AverageCost(spent: real, bought: real): real { if bought > 0.0 then spent / bought else 0.0 }

  /** `units` valued at the average purchase price. */
  function AtAverageCost(units: real, spent: real, bought: real): real { AverageCost(spent, bought) * units }

  function Worth(units: real, priceAe: real, priceUsd: real): Money { Money(units * priceAe, units * priceUsd) }

  /** The current value of what is held. */
  function ValueOf(row: TokenRow): Money {
    Worth(row.totals.holdings, row.unitPriceAe, row.unitPriceUsd)
  }

  /** "invested": the average cost of what was sold in the range, or everything ever spent. */
  function CostOf(t: Totals, isRangeBased: bool): Money {
    if isRangeBased then
      Money(AtAverageCost(t.volumeSold, t.cumulativeSpentAe, t.cumulativeBought),
            AtAverageCost(t.volumeSold, t.cumulativeSpentUsd, t.cumulativeBought))
    else Money(t.spentAe, t.spentUsd)
  }

  /** Realized gains of a range, or proceeds and current value less everything spent. */
  function GainOf(t: Totals, cost: Money, value: Money, isRangeBased: bool): Money {
    if isRangeBased then Money(t.receivedAe - cost.ae, t.receivedUsd - cost.usd)
    else Money(t.receivedAe + value.ae - t.spentAe, t.receivedUsd + value.usd - t.spentUsd)
  }

  function PnlOf(row: TokenRow, isRangeBased: bool): TokenPnl {
    var value, cost := ValueOf(row), CostOf(row.totals, isRangeBased);
    var gain := GainOf(row.totals, cost, value, isRangeBased);
    TokenPnl(Money(row.unitPriceAe, row.unitPriceUsd), if cost.ae > 0.0 then gain.ae / cost.ae * 100.0 else 0.0,
             cost, value, gain)
  }

  function AddMoney(a: Money, b: Money): Money { Money(a.ae + b.ae, a.usd + b.usd) }

  /** One entry of the `pnls` record. */
  datatype Entry = Entry(token: string, pnl: TokenPnl)

  function AddEntry(acc: TokenPnlResult, e: Entry): TokenPnlResult {
    TokenPnlResult(acc.pnls[e.token := e.pnl], AddMoney(acc.totalCostBasis, e.pnl.invested),
                   AddMoney(acc.totalCurrentValue, e.pnl.currentValue), AddMoney(acc.totalGain, e.pnl.gain))
  }

  function AddEntries(entries: seq<Entry>): TokenPnlResult {
    if entries == [] then EMPTY else AddEntry(AddEntries(entries[..|entries| - 1]), entries[|entries| - 1])
  }

  function EntriesOf(rows: seq<TokenRow>, isRangeBased: bool): seq<Entry> {
    seq(|rows|, i requires 0 <= i < |rows| => Entry(rows[i].token, PnlOf(rows[i], isRangeBased)))
  }

  function MapRows(rows: seq<TokenRow>, isRangeBased: bool): TokenPnlResult {
    AddEntries(EntriesOf(rows, isRangeBased))
  }

  // ---------------------------------------------------------------- row order does not matter

  predicate DistinctTokens(rows: seq<TokenRow>) { forall i, j | 0 <= i < j < |rows| :: rows[i].token != rows[j].token }

  predicate DistinctEntries(es: seq<Entry>) { forall i, j | 0 <= i < j < |es| :: es[i].token != es[j].token }

  function Without<T>(s: seq<T>, k: nat): seq<T>
    requires k < |s|
  {
    s[..k] + s[k + 1..]
  }

  lemma AddEntryCommutes(acc: TokenPnlResult, a: Entry, b: Entry)
    requires a.token != b.token
    ensures AddEntry(AddEntry(acc, a), b) == AddEntry(AddEntry(acc, b), a)
  {
    assert acc.pnls[a.token := a.pnl][b.token := b.pnl] == acc.pnls[b.token := b.pnl][a.token := a.pnl];
  }

  lemma {:induction false} AddEntriesPullOut(es: seq<Entry>, k: nat)
    requires k < |es| && DistinctEntries(es)
    ensures AddEntries(es) == AddEntry(AddEntries(Without(es, k)), es[k])
    decreases |es|
  {
    var n := |es| - 1;
    if k == n {
      assert Without(es, k) == es[..n];
    } else {
      var front, last := es[..n], es[n];
      AddEntriesPullOut(front, k);
      AddEntryCommutes(AddEntries(Without(front, k)), es[k], last);
      var without := Without(es, k);
      assert without[..|without| - 1] == Without(front, k) && without[|without| - 1] == last;
    }
  }

  lemma FirstIsMember<T>(s: seq<T>)
    requires s != []
    ensures s[0] in s
  {
  }

  /** The totals and the record do not depend on the order of the entries. */
  lemma {:induction false} AddEntriesIgnoresOrder(a: seq<Entry>, b: seq<Entry>)
    requires DistinctEntries(a) && DistinctEntries(b) && forall e :: e in a <==> e in b
    ensures AddEntries(a) == AddEntries(b)
    decreases |a|
  {
    if a == [] {
      if b != [] { FirstIsMember(b); }
    } else {
      var n := |a| - 1;
      var last := a[n];
      assert last in b;
      var k :| 0 <= k < |b| && b[k] == last;
      AddEntriesPullOut(b, k);
      forall e ensures e in a[..n] <==> e in Without(b, k)
      {
        SameRestMembers(a, b, k, e);
      }
      AddEntriesIgnoresOrder(a[..n], Without(b, k));
    }
  }

  lemma SameRestMembers(a: seq<Entry>, b: seq<Entry>, k: nat, r: Entry)
    requires DistinctEntries(a) && DistinctEntries(b) && (r in a <==> r in b)
    requires a != [] && k < |b| && b[k] == a[|a| - 1]
    ensures r in a[..|a| - 1] <==> r in Without(b, k)
  {
    var n := |a| - 1;
    assert a == a[..n] + [a[n]];
    assert b == b[..k] + [b[k]] + b[k + 1..];
    if r in a[..n] {
      var i :| 0 <= i < n && a[i] == r;
      assert r != a[n];
    }
    if r in Without(b, k) {
      var i :| 0 <= i < |Without(b, k)| && Without(b, k)[i] == r;
      assert r == b[if i < k then i else i + 1];
      assert r != b[k];
    }
  }

  lemma EntriesMembers(rows: seq<TokenRow>, others: seq<TokenRow>, isRangeBased: bool, e: Entry)
    requires forall r | r in rows :: r in others
    requires e in EntriesOf(rows, isRangeBased)
    ensures e in EntriesOf(others, isRangeBased)
  {
    var i :| 0 <= i < |rows| && EntriesOf(rows, isRangeBased)[i] == e;
    assert rows[i] in others;
    var j :| 0 <= j < |others| && others[j] == rows[i];
    assert EntriesOf(others, isRangeBased)[j] == e;
  }

  /** Two lists of the same rows give the same result, whatever order the database returned them in. */
  lemma MapRowsIgnoresOrder(a: seq<TokenRow>, b: seq<TokenRow>, isRangeBased: bool)
    requires DistinctTokens(a) && DistinctTokens(b) && forall r :: r in a <==> r in b
    ensures MapRows(a, isRangeBased) == MapRows(b, isRangeBased)
  {
    forall e ensures e in EntriesOf(a, isRangeBased) <==> e in EntriesOf(b, isRangeBased)
    {
      if e in EntriesOf(a, isRangeBased) { EntriesMembers(a, b, isRangeBased, e); }
      if e in EntriesOf(b, isRangeBased) { EntriesMembers(b, a, isRangeBased, e); }
    }
    AddEntriesIgnoresOrder(EntriesOf(a, isRangeBased), EntriesOf(b, isRangeBased));
  }
}
