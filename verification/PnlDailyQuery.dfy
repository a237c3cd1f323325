/**
 The daily PnL query as a relational pipeline, and `calculateDailyPnlBatch` from end to end: each
 snapshot gets the figures of its own window, and the windows together what the whole span returned.
 */
module PnlDailyQuery {
  import opened Wrappers
  import opened Sequences
  import opened PnlModel
  import opened PnlQueries
  import opened PnlAccounting
  import opened PnlDaily

  // ---------------------------------------------------------------- the pipeline

  datatype Paired = Paired(w: Window, tx: Tx)

  function JoinWindow(w: Window, txs: seq<Tx>): seq<Paired> {
    if txs == [] then []
    else
      var rest := JoinWindow(w, txs[1..]);
      if txs[0].createdAt < w.snapshotTs then [Paired(w, txs[0])] + rest else rest
  }

  /** `snapshots s JOIN address_txs tx ON tx.created_at < s.snapshot_ts`. */
  function JoinWindows(windows: seq<Window>, txs: seq<Tx>): seq<Paired> {
    if windows == [] then [] else JoinWindow(windows[0], txs) + JoinWindows(windows[1..], txs)
  }

  /** GROUP BY s.snapshot_ts, tx.sale_address. */
  function DailyGroup(joined: seq<Paired>, ts: nat, token: string): seq<Paired> {
    if joined == [] then []
    else
      var rest := DailyGroup(joined[1..], ts, token);
      if joined[0].w.snapshotTs == ts && joined[0].tx.token == token then [joined[0]] + rest else rest
  }

  /**
   What a joined row adds to each selected column: buys up to the snapshot, received amounts only within
   the window.
   */
  function DailyContribution(p: Paired): Totals {
    var bought, sold := IsBuy(p.tx) && p.tx.createdAt < p.w.snapshotTs, IsSell(p.tx) && p.tx.createdAt < p.w.snapshotTs;
    var realized := IsSell(p.tx) && Within(p.tx.createdAt, p.w);
    Totals(When(bought, p.tx.volume) - When(sold, p.tx.volume), 0.0, 0.0, 0.0,
           When(realized, OrZero(p.tx.amountAe)), When(realized, OrZero(p.tx.amountUsd)), When(realized, p.tx.volume),
           When(bought, p.tx.volume), When(bought, OrZero(p.tx.amountAe)), When(bought, OrZero(p.tx.amountUsd)))
  }

  function DailyTotals(group: seq<Paired>): Totals {
    if group == [] then ZERO else Plus(DailyContribution(group[0]), DailyTotals(group[1..]))
  }

  predicate QuotesBy(tx: Tx, token: string, ts: nat, c: Currency) {
    tx.token == token && tx.createdAt < ts && PriceIn(tx, c).Some?
  }

  /** `ORDER BY created_at DESC LIMIT 1`; the earliest row of the table wins a tie. */
  function LatestQuoteBy(txs: seq<Tx>, token: string, ts: nat, c: Currency): Option<Tx> {
    if txs == [] then None
    else
      var rest := LatestQuoteBy(txs[1..], token, ts, c);
      if QuotesBy(txs[0], token, ts, c) && (rest.None? || txs[0].createdAt >= rest.value.createdAt)
      then Some(txs[0]) else rest
  }

  lemma {:induction false} LatestQuoteByIsLatest(txs: seq<Tx>, token: string, ts: nat, c: Currency)
    ensures var q := LatestQuoteBy(txs, token, ts, c);
      && (q.Some? ==> q.value in txs && QuotesBy(q.value, token, ts, c))
      && (q.None? ==> forall tx | tx in txs :: !QuotesBy(tx, token, ts, c))
      && (q.Some? ==> forall tx | tx in txs && QuotesBy(tx, token, ts, c) :: q.value.createdAt >= tx.createdAt)
  {
    if txs != [] {
      LatestQuoteByIsLatest(txs[1..], token, ts, c);
      assert txs == [txs[0]] + txs[1..];
    }
  }

  function PriceBy(txs: seq<Tx>, token: string, ts: nat, c: Currency): real {
    var q := LatestQuoteBy(txs, token, ts, c);
    if q.None? then 0.0 else OrZero(PriceIn(q.value, c))
  }

  function DailyResultRow(txs: seq<Tx>, group: seq<Paired>, ts: nat, token: string): TokenRow {
    TokenRow(token, DailyTotals(group), PriceBy(txs, token, ts, Ae), PriceBy(txs, token, ts, Usd))
  }

  predicate DailyReported(t: Totals) { t.holdings > 0.0 || t.cumulativeBought > 0.0 || t.volumeSold > 0.0 }

  predicate IsRowAt(txs: seq<Tx>, address: string, windows: seq<Window>, ts: nat, row: TokenRow) {
    var group := DailyGroup(JoinWindows(windows, OfAddress(txs, address)), ts, row.token);
    group != [] && row == DailyResultRow(txs, group, ts, row.token) && DailyReported(row.totals)
  }

  /** `shown` is the snapshot time as it comes back, which may have drifted on the way. */
  ghost predicate IsDailyRow(txs: seq<Tx>, address: string, windows: seq<Window>, shown: nat -> nat, r: DailyRow) {
    exists k :: 0 <= k < |windows| && r.snapshotMs == shown(windows[k].snapshotTs)
             && IsRowAt(txs, address, windows, windows[k].snapshotTs, r.row)
  }

  predicate DistinctDailyGroups(rows: seq<DailyRow>) {
    forall i, j | 0 <= i < j < |rows| ::
      rows[i].snapshotMs != rows[j].snapshotMs || rows[i].row.token != rows[j].row.token
  }

  /** Rows that may come back: one for each reported group, in any order. */
  ghost predicate IsDailyAnswer(txs: seq<Tx>, address: string, windows: seq<Window>, shown: nat -> nat,
                                rows: seq<DailyRow>) {
    && DistinctDailyGroups(rows)
    && forall r :: r in rows <==> IsDailyRow(txs, address, windows, shown, r)
  }

  // ---------------------------------------------------------------- the reference

  /** The transactions of one token before the end of the window, each with the window. */
  function PairsOf(w: Window, txs: seq<Tx>, address: string, token: string): seq<Paired> {
    if txs == [] then []
    else
      var rest := PairsOf(w, txs[1..], address, token);
      if txs[0].address == address && txs[0].token == token && txs[0].createdAt < w.snapshotTs
      then [Paired(w, txs[0])] + rest
      else rest
  }

  function TokensBefore(txs: seq<Tx>, address: string, ts: nat): seq<string> {
    if txs == [] then []
    else
      var rest := TokensBefore(txs[1..], address, ts);
      if txs[0].address == address && txs[0].createdAt < ts then [txs[0].token] + rest else rest
  }

  function WindowRow(txs: seq<Tx>, address: string, w: Window, token: string): TokenRow {
    DailyResultRow(txs, PairsOf(w, txs, address, token), w.snapshotTs, token)
  }

  function WindowRows(txs: seq<Tx>, address: string, w: Window, tokens: seq<string>): seq<TokenRow> {
    if tokens == [] then []
    else
      var front := WindowRows(txs, address, w, tokens[..|tokens| - 1]);
      var row := WindowRow(txs, address, w, tokens[|tokens| - 1]);
      if DailyReported(row.totals) then front + [row] else front
  }

  /** The PnL of one window, from each token's own transactions. */
  function DailyPnlAt(txs: seq<Tx>, address: string, w: Window): TokenPnlResult {
    MapRows(WindowRows(txs, address, w, Dedup(TokensBefore(txs, address, w.snapshotTs))), true)
  }

  // ---------------------------------------------------------------- the join keeps every group

  predicate DistinctSnapshots(windows: seq<Window>) {
    forall i, j | 0 <= i < j < |windows| :: windows[i].snapshotTs != windows[j].snapshotTs
  }

  lemma {:induction false} DailyGroupAppend(a: seq<Paired>, b: seq<Paired>, ts: nat, token: string)
    ensures DailyGroup(a + b, ts, token) == DailyGroup(a, ts, token) + DailyGroup(b, ts, token)
  {
    if a == [] {
      assert a + b == b;
    } else {
      assert (a + b)[1..] == a[1..] + b;
      DailyGroupAppend(a[1..], b, ts, token);
    }
  }

  lemma JoinWindowStep(w: Window, tx: Tx, rest: seq<Tx>, ts: nat, token: string)
    ensures var rest' := DailyGroup(JoinWindow(w, rest), ts, token);
      DailyGroup(JoinWindow(w, [tx] + rest), ts, token)
      == if tx.createdAt < w.snapshotTs && w.snapshotTs == ts && tx.token == token
         then [Paired(w, tx)] + rest' else rest'
  {
    assert ([tx] + rest)[1..] == rest;
    assert ([Paired(w, tx)] + JoinWindow(w, rest))[1..] == JoinWindow(w, rest);
  }

  lemma {:induction false} DailyGroupOfOne(w: Window, txs: seq<Tx>, address: string, ts: nat, token: string)
    ensures DailyGroup(JoinWindow(w, OfAddress(txs, address)), ts, token)
         == if ts == w.snapshotTs then PairsOf(w, txs, address, token) else []
  {
    if txs != [] {
      DailyGroupOfOne(w, txs[1..], address, ts, token);
      if txs[0].address == address { JoinWindowStep(w, txs[0], OfAddress(txs[1..], address), ts, token); }
    }
  }

  lemma {:induction false} NoGroupElsewhere(windows: seq<Window>, txs: seq<Tx>, address: string, ts: nat, token: string)
    requires forall i | 0 <= i < |windows| :: windows[i].snapshotTs != ts
    ensures DailyGroup(JoinWindows(windows, OfAddress(txs, address)), ts, token) == []
  {
    if windows != [] {
      NoGroupElsewhere(windows[1..], txs, address, ts, token);
      DailyGroupOfOne(windows[0], txs, address, ts, token);
      DailyGroupAppend(JoinWindow(windows[0], OfAddress(txs, address)),
                       JoinWindows(windows[1..], OfAddress(txs, address)), ts, token);
    }
  }

  /** With distinct snapshots, each group of the query is exactly its window's transactions of that token. */
  lemma {:induction false} DailyGroupIsItsWindow(windows: seq<Window>, txs: seq<Tx>, address: string, k: nat,
                                                 token: string)
    requires DistinctSnapshots(windows) && k < |windows|
    ensures DailyGroup(JoinWindows(windows, OfAddress(txs, address)), windows[k].snapshotTs, token)
         == PairsOf(windows[k], txs, address, token)
    decreases |windows|
  {
    var ts := windows[k].snapshotTs;
    DailyGroupOfOne(windows[0], txs, address, ts, token);
    DailyGroupAppend(JoinWindow(windows[0], OfAddress(txs, address)),
                     JoinWindows(windows[1..], OfAddress(txs, address)), ts, token);
    if k == 0 {
      NoGroupElsewhere(windows[1..], txs, address, ts, token);
    } else {
      DailyGroupIsItsWindow(windows[1..], txs, address, k - 1, token);
    }
  }

  // ---------------------------------------------------------------- each snapshot gets its own rows

  /** Snapshots are further apart than the tolerance and the drift together. */
  predicate SafelySpaced(windows: seq<Window>, drift: nat) {
    && drift <= 1000
    && forall i, j | 0 <= i < j < |windows| :: windows[j].snapshotTs - windows[i].snapshotTs > 1000 + drift
  }

  ghost predicate DriftsBy(shown: nat -> nat, drift: nat) {
    forall ts: nat :: ts <= shown(ts) + drift && shown(ts) <= ts + drift
  }

  predicate Reads(r: DailyRow, windows: seq<Window>, key: nat) { MatchedKey(windows, r.snapshotMs) == Some(key) }

  lemma {:induction false} RowsMatchedMembers(rows: seq<DailyRow>, windows: seq<Window>, key: nat, ms: nat,
                                              row: TokenRow)
    requires forall r | r in rows :: Reads(r, windows, key) <==> r.snapshotMs == ms
    ensures row in RowsMatched(rows, windows, key) <==> DailyRow(ms, row) in rows
  {
    if rows != [] {
      var n := |rows| - 1;
      assert rows == rows[..n] + [rows[n]];
      assert rows[n] in rows;
      RowsMatchedMembers(rows[..n], windows, key, ms, row);
      assert Reads(rows[n], windows, key) <==> rows[n].snapshotMs == ms;
    }
  }

  lemma {:induction false} RowsMatchedDistinct(rows: seq<DailyRow>, windows: seq<Window>, key: nat, ms: nat)
    requires DistinctDailyGroups(rows) && forall r | r in rows :: Reads(r, windows, key) <==> r.snapshotMs == ms
    ensures DistinctTokens(RowsMatched(rows, windows, key))
  {
    if rows != [] {
      var n := |rows| - 1;
      var front := rows[..n];
      assert rows == front + [rows[n]];
      RowsMatchedDistinct(front, windows, key, ms);
      if Reads(rows[n], windows, key) {
        assert rows[n] in rows;
        forall row | row in RowsMatched(front, windows, key) ensures row.token != rows[n].row.token {
          RowsMatchedMembers(front, windows, key, ms, row);
          var i :| 0 <= i < n && front[i] == DailyRow(ms, row);
        }
      }
    }
  }

  /** A row read under a snapshot is a row of that snapshot's group. */
  lemma ReadsItsOwn(txs: seq<Tx>, address: string, windows: seq<Window>, shown: nat -> nat, drift: nat, k: nat,
                    r: DailyRow)
    requires SafelySpaced(windows, drift) && DriftsBy(shown, drift) && k < |windows|
    requires IsDailyRow(txs, address, windows, shown, r)
    ensures Reads(r, windows, windows[k].snapshotTs) <==> r.snapshotMs == shown(windows[k].snapshotTs)
  {
    var j :| 0 <= j < |windows| && r.snapshotMs == shown(windows[j].snapshotTs)
             && IsRowAt(txs, address, windows, windows[j].snapshotTs, r.row);
    DriftIsTolerated(windows, j, shown(windows[j].snapshotTs), drift);
    DriftIsTolerated(windows, k, shown(windows[k].snapshotTs), drift);
  }

  lemma AnswerRowsOf(txs: seq<Tx>, address: string, windows: seq<Window>, shown: nat -> nat, drift: nat,
                     rows: seq<DailyRow>, k: nat, row: TokenRow)
    requires SafelySpaced(windows, drift) && DriftsBy(shown, drift) && k < |windows|
    requires IsDailyAnswer(txs, address, windows, shown, rows)
    ensures row in RowsMatched(rows, windows, windows[k].snapshotTs)
       <==> var w := windows[k];
            && PairsOf(w, txs, address, row.token) != []
            && row == WindowRow(txs, address, w, row.token) && DailyReported(row.totals)
  {
    var ts := windows[k].snapshotTs;
    var r := DailyRow(shown(ts), row);
    forall q | q in rows ensures Reads(q, windows, ts) <==> q.snapshotMs == shown(ts) {
      ReadsItsOwn(txs, address, windows, shown, drift, k, q);
    }
    RowsMatchedMembers(rows, windows, ts, shown(ts), row);
    DailyGroupIsItsWindow(windows, txs, address, k, row.token);
    assert r in rows <==> IsDailyRow(txs, address, windows, shown, r);
    if IsDailyRow(txs, address, windows, shown, r) {
      var j :| 0 <= j < |windows| && r.snapshotMs == shown(windows[j].snapshotTs)
           && IsRowAt(txs, address, windows, windows[j].snapshotTs, row);
      DriftIsTolerated(windows, j, shown(ts), drift);
      DriftIsTolerated(windows, k, shown(ts), drift);
    }
  }

  lemma {:induction false} TokensBeforeMeansPairs(txs: seq<Tx>, address: string, w: Window, token: string)
    ensures token in TokensBefore(txs, address, w.snapshotTs) <==> PairsOf(w, txs, address, token) != []
  {
    if txs != [] { TokensBeforeMeansPairs(txs[1..], address, w, token); }
  }

  lemma {:induction false} WindowRowsMembers(txs: seq<Tx>, address: string, w: Window, tokens: seq<string>)
    requires NoRepeats(tokens)
    ensures DistinctTokens(WindowRows(txs, address, w, tokens))
    ensures forall row :: row in WindowRows(txs, address, w, tokens) <==>
              row.token in tokens && DailyReported(row.totals) && row == WindowRow(txs, address, w, row.token)
  {
    if tokens != [] {
      var n := |tokens| - 1;
      assert tokens == tokens[..n] + [tokens[n]];
      WindowRowsMembers(txs, address, w, tokens[..n]);
    }
  }

  /** Whatever order and drift the database chose, the rows under a snapshot map to the reference of its window. */
  lemma DailyAnswerMapsToReference(txs: seq<Tx>, address: string, windows: seq<Window>, shown: nat -> nat, drift: nat,
                                   rows: seq<DailyRow>, k: nat)
    requires SafelySpaced(windows, drift) && DriftsBy(shown, drift) && k < |windows|
    requires IsDailyAnswer(txs, address, windows, shown, rows)
    ensures MapRows(RowsMatched(rows, windows, windows[k].snapshotTs), true) == DailyPnlAt(txs, address, windows[k])
  {
    var w := windows[k];
    var tokens := Dedup(TokensBefore(txs, address, w.snapshotTs));
    var matched, reference := RowsMatched(rows, windows, w.snapshotTs), WindowRows(txs, address, w, tokens);
    DedupDropsRepeats(TokensBefore(txs, address, w.snapshotTs));
    WindowRowsMembers(txs, address, w, tokens);
    forall r | r in rows ensures Reads(r, windows, w.snapshotTs) <==> r.snapshotMs == shown(w.snapshotTs) {
      ReadsItsOwn(txs, address, windows, shown, drift, k, r);
    }
    RowsMatchedDistinct(rows, windows, w.snapshotTs, shown(w.snapshotTs));
    forall row ensures row in matched <==> row in reference {
      AnswerRowsOf(txs, address, windows, shown, drift, rows, k, row);
      TokensBeforeMeansPairs(txs, address, w, row.token);
      DedupKeepsMembers(TokensBefore(txs, address, w.snapshotTs), row.token);
    }
    MapRowsIgnoresOrder(matched, reference, true);
  }

  /** Every snapshot is in the result; with snapshots safely apart, with the PnL of its own window. */
  method CalculateDailyPnlBatch(ghost txs: seq<Tx>, ghost address: string, windows: seq<Window>,
                                ghost shown: nat -> nat, ghost drift: nat, rows: seq<DailyRow>)
    returns (result: map<nat, TokenPnlResult>)
    requires IsDailyAnswer(txs, address, windows, shown, rows) && DriftsBy(shown, drift)
    ensures forall ts :: ts in result <==> IsSnapshot(windows, ts)
    ensures SafelySpaced(windows, drift) ==>
              forall k | 0 <= k < |windows| ::
                windows[k].snapshotTs in result && result[windows[k].snapshotTs] == DailyPnlAt(txs, address, windows[k])
  {
    if windows == [] { return map[]; }
    result := MapDailyPnlBatch(rows, windows);
    if SafelySpaced(windows, drift) {
      forall k | 0 <= k < |windows|
        ensures windows[k].snapshotTs in result && result[windows[k].snapshotTs] == DailyPnlAt(txs, address, windows[k])
      {
        assert IsSnapshot(windows, windows[k].snapshotTs);
        DailyAnswerMapsToReference(txs, address, windows, shown, drift, rows, k);
      }
    }
  }

  // ---------------------------------------------------------------- what the windows return together

  function SoldColumns(t: Totals): Sold { Sold(t.volumeSold, t.receivedAe, t.receivedUsd) }

  function SoldIn(p: Paired): Sold { if IsSell(p.tx) && Within(p.tx.createdAt, p.w) then SoldBy(p.tx) else NOTHING }

  function SoldOver(group: seq<Paired>): Sold {
    if group == [] then NOTHING else AddSold(SoldIn(group[0]), SoldOver(group[1..]))
  }

  lemma PlusAddsSold(p: Paired, t: Totals)
    ensures SoldColumns(Plus(DailyContribution(p), t)) == AddSold(SoldIn(p), SoldColumns(t))
  {}

  lemma {:induction false} TotalsAddUpSold(group: seq<Paired>)
    ensures SoldColumns(DailyTotals(group)) == SoldOver(group)
  {
    if group != [] {
      TotalsAddUpSold(group[1..]);
      PlusAddsSold(group[0], DailyTotals(group[1..]));
    }
  }

  /**
   A row before the snapshot sells in the window what the table says; any other row of the table sold
   nothing in it.
   */
  lemma PairSellsTheWindow(w: Window, tx: Tx, address: string, token: string)
    ensures SoldIf(tx, address, token, w.dayStartTs, w.snapshotTs)
         == if Joins(w, tx, address, token) then SoldIn(Paired(w, tx)) else NOTHING
  {}

  lemma SoldOverPrepend(p: Paired, rest: seq<Paired>)
    ensures SoldOver([p] + rest) == AddSold(SoldIn(p), SoldOver(rest))
  {
    assert ([p] + rest)[1..] == rest;
  }

  predicate Joins(w: Window, tx: Tx, address: string, token: string) {
    tx.address == address && tx.token == token && tx.createdAt < w.snapshotTs
  }

  lemma PairsSellNext(w: Window, txs: seq<Tx>, address: string, token: string, own: Sold, before: Sold)
    requires txs != [] && before == SoldOver(PairsOf(w, txs[1..], address, token))
    requires own == if Joins(w, txs[0], address, token) then SoldIn(Paired(w, txs[0])) else NOTHING
    ensures SoldOver(PairsOf(w, txs, address, token)) == AddSold(own, before)
  {
    var rest := PairsOf(w, txs[1..], address, token);
    if Joins(w, txs[0], address, token) {
      assert PairsOf(w, txs, address, token) == [Paired(w, txs[0])] + rest;
      SoldOverPrepend(Paired(w, txs[0]), rest);
    } else {
      assert PairsOf(w, txs, address, token) == rest;
      NothingIsNeutral(before);
    }
  }

  lemma {:induction false} PairsSellTheWindow(w: Window, txs: seq<Tx>, address: string, token: string)
    ensures SoldOver(PairsOf(w, txs, address, token)) == Sells(txs, address, token, w.dayStartTs, w.snapshotTs)
  {
    if txs != [] {
      PairsSellTheWindow(w, txs[1..], address, token);
      PairSellsTheWindow(w, txs[0], address, token);
      PairsSellNext(w, txs, address, token, SoldIf(txs[0], address, token, w.dayStartTs, w.snapshotTs),
                    SoldOver(PairsOf(w, txs[1..], address, token)));
    }
  }

  /** The restricted columns of a window's row are the sells of the window. */
  lemma WindowRowSells(w: Window, txs: seq<Tx>, address: string, token: string)
    ensures SoldColumns(DailyTotals(PairsOf(w, txs, address, token)))
         == Sells(txs, address, token, w.dayStartTs, w.snapshotTs)
  {
    TotalsAddUpSold(PairsOf(w, txs, address, token));
    PairsSellTheWindow(w, txs, address, token);
  }

  /** What a window returns on a token: its gain and the cost of what it sold. Nothing when the token is not listed. */
  function Returned(txs: seq<Tx>, address: string, w: Window, token: string): Money {
    var pnls := DailyPnlAt(txs, address, w).pnls;
    if token in pnls then ReturnsOf(pnls[token]) else Money(0.0, 0.0)
  }

  /** A token is listed for a window exactly when it has a reported row, and then with that row's figures. */
  lemma DailyReferenceLooksUp(txs: seq<Tx>, address: string, w: Window, token: string)
    ensures var pnls := DailyPnlAt(txs, address, w).pnls; var row := WindowRow(txs, address, w, token);
      && (token in pnls <==> PairsOf(w, txs, address, token) != [] && DailyReported(row.totals))
      && (token in pnls ==> pnls[token] == PnlOf(row, true))
  {
    var before := TokensBefore(txs, address, w.snapshotTs);
    var rows := WindowRows(txs, address, w, Dedup(before));
    var row := WindowRow(txs, address, w, token);
    DedupDropsRepeats(before);
    DedupKeepsMembers(before, token);
    TokensBeforeMeansPairs(txs, address, w, token);
    WindowRowsMembers(txs, address, w, Dedup(before));
    var es := EntriesOf(rows, true);
    AddEntriesTokens(es, token);
    if row in rows {
      var k :| 0 <= k < |rows| && rows[k] == row;
      AddEntriesLooksUp(es, k);
    } else {
      assert forall i | 0 <= i < |es| :: es[i].token == rows[i].token && rows[i] in rows;
    }
  }

  ghost predicate SellsHaveVolume(txs: seq<Tx>, token: string) {
    forall tx | tx in txs && tx.token == token && IsSell(tx) :: tx.volume > 0.0
  }

  /** Something was sold, or nothing was received. */
  predicate Sensible(s: Sold) { s.volume > 0.0 || s == NOTHING }

  lemma SensibleAdds(a: Sold, b: Sold)
    requires Sensible(a) && Sensible(b)
    ensures Sensible(AddSold(a, b))
  {
    NothingIsNeutral(a);
    NothingIsNeutral(b);
  }

  lemma {:induction false} NoVolumeNoSells(txs: seq<Tx>, address: string, token: string, from: int, to: int)
    requires SellsHaveVolume(txs, token)
    ensures Sensible(Sells(txs, address, token, from, to))
  {
    if txs != [] {
      assert txs[0] in txs && forall tx | tx in txs[1..] :: tx in txs;
      NoVolumeNoSells(txs[1..], address, token, from, to);
      SensibleAdds(SoldIf(txs[0], address, token, from, to), Sells(txs[1..], address, token, from, to));
    }
  }

  function Proceeds(s: Sold): Money { Money(s.ae, s.usd) }

  lemma ProceedsAdd(a: Sold, b: Sold)
    ensures Proceeds(AddSold(a, b)) == AddMoney(Proceeds(a), Proceeds(b))
  {}

  /** The query lists the token for the window. */
  predicate Listed(txs: seq<Tx>, address: string, w: Window, token: string) {
    token in DailyPnlAt(txs, address, w).pnls
  }

  /** For a listed token the return is what its sells in the window brought in; for any other it is nothing. */
  lemma ReturnedIsReceived(txs: seq<Tx>, address: string, w: Window, token: string)
    ensures Returned(txs, address, w, token)
         == if Listed(txs, address, w, token) then Proceeds(Sells(txs, address, token, w.dayStartTs, w.snapshotTs))
            else Money(0.0, 0.0)
  {
    DailyReferenceLooksUp(txs, address, w, token);
    RangeReturnsProceeds(WindowRow(txs, address, w, token));
    WindowRowSells(w, txs, address, token);
  }

  /**
   A window returns on a token what its sells brought in exactly when the token is listed or they brought
   in nothing.
   */
  lemma WindowReturnsItsSellsIff(txs: seq<Tx>, address: string, w: Window, token: string)
    ensures var proceeds := Proceeds(Sells(txs, address, token, w.dayStartTs, w.snapshotTs));
      Returned(txs, address, w, token) == proceeds <==> Listed(txs, address, w, token) || proceeds == Money(0.0, 0.0)
  {
    ReturnedIsReceived(txs, address, w, token);
  }

  /** When every sale has a volume, a token that is not listed sold nothing. */
  lemma UnlistedSoldNothing(txs: seq<Tx>, address: string, w: Window, token: string)
    requires SellsHaveVolume(txs, token) && !Listed(txs, address, w, token)
    ensures Sells(txs, address, token, w.dayStartTs, w.snapshotTs) == NOTHING
  {
    DailyReferenceLooksUp(txs, address, w, token);
    WindowRowSells(w, txs, address, token);
    NoVolumeNoSells(txs, address, token, w.dayStartTs, w.snapshotTs);
  }

  function ReturnedOver(txs: seq<Tx>, address: string, windows: seq<Window>, token: string): Money {
    if windows == [] then Money(0.0, 0.0)
    else AddMoney(ReturnedOver(txs, address, windows[..|windows| - 1], token),
                  Returned(txs, address, windows[|windows| - 1], token))
  }

  /** What the sells of a window brought in when the query does not list the token. */
  function Dropped(txs: seq<Tx>, address: string, w: Window, token: string): Money {
    if Listed(txs, address, w, token) then Money(0.0, 0.0)
    else Proceeds(Sells(txs, address, token, w.dayStartTs, w.snapshotTs))
  }

  function DroppedOver(txs: seq<Tx>, address: string, windows: seq<Window>, token: string): Money {
    if windows == [] then Money(0.0, 0.0)
    else AddMoney(DroppedOver(txs, address, windows[..|windows| - 1], token),
                  Dropped(txs, address, windows[|windows| - 1], token))
  }

  lemma ReturnedAndDropped(txs: seq<Tx>, address: string, w: Window, token: string)
    ensures AddMoney(Returned(txs, address, w, token), Dropped(txs, address, w, token))
         == Proceeds(Sells(txs, address, token, w.dayStartTs, w.snapshotTs))
  {
    ReturnedIsReceived(txs, address, w, token);
  }

  lemma MoneyInterchanges(a: Money, b: Money, c: Money, d: Money)
    ensures AddMoney(AddMoney(a, b), AddMoney(c, d)) == AddMoney(AddMoney(a, c), AddMoney(b, d))
  {}

  lemma {:induction false} ReturnedAndDroppedOver(txs: seq<Tx>, address: string, windows: seq<Window>, token: string)
    ensures AddMoney(ReturnedOver(txs, address, windows, token), DroppedOver(txs, address, windows, token))
         == Proceeds(SellsOverWindows(txs, address, token, windows))
    decreases |windows|
  {
    if windows != [] {
      var front, w := windows[..|windows| - 1], windows[|windows| - 1];
      ReturnedAndDroppedOver(txs, address, front, token);
      ReturnedAndDropped(txs, address, w, token);
      ProceedsAdd(SellsOverWindows(txs, address, token, front), Sells(txs, address, token, w.dayStartTs, w.snapshotTs));
      MoneyInterchanges(ReturnedOver(txs, address, front, token), Returned(txs, address, w, token),
                        DroppedOver(txs, address, front, token), Dropped(txs, address, w, token));
    }
  }

  lemma {:induction false} NothingDropped(txs: seq<Tx>, address: string, windows: seq<Window>, token: string)
    requires SellsHaveVolume(txs, token)
    ensures DroppedOver(txs, address, windows, token) == Money(0.0, 0.0)
    decreases |windows|
  {
    if windows != [] {
      var w := windows[|windows| - 1];
      NothingDropped(txs, address, windows[..|windows| - 1], token);
      if !Listed(txs, address, w, token) { UnlistedSoldNothing(txs, address, w, token); }
    }
  }

  /**
   The calendar accounts for every sale once: over the windows of a range, what is returned and what is
   dropped together are what the sells between the first and the last snapshot brought in.
   */
  lemma CalendarAccountsForEverySale(txs: seq<Tx>, address: string, timestamps: seq<nat>, token: string)
    requires Increasing(timestamps) && timestamps != []
    ensures var windows := WindowsOf(timestamps);
      AddMoney(ReturnedOver(txs, address, windows, token), DroppedOver(txs, address, windows, token))
      == Proceeds(Sells(txs, address, token, timestamps[0], timestamps[|timestamps| - 1]))
  {
    ReturnedAndDroppedOver(txs, address, WindowsOf(timestamps), token);
    WindowsConserveSells(txs, address, token, timestamps);
  }

  /** So it returns every sale exactly when nothing is dropped, and nothing is when every sale has a volume. */
  lemma CalendarReturnsEverySaleIff(txs: seq<Tx>, address: string, timestamps: seq<nat>, token: string)
    requires Increasing(timestamps) && timestamps != []
    ensures var windows := WindowsOf(timestamps);
      && (ReturnedOver(txs, address, windows, token)
            == Proceeds(Sells(txs, address, token, timestamps[0], timestamps[|timestamps| - 1]))
          <==> DroppedOver(txs, address, windows, token) == Money(0.0, 0.0))
      && (SellsHaveVolume(txs, token) ==> DroppedOver(txs, address, windows, token) == Money(0.0, 0.0))
  {
    var windows := WindowsOf(timestamps);
    CalendarAccountsForEverySale(txs, address, timestamps, token);
    NothingAddedIff(ReturnedOver(txs, address, windows, token), DroppedOver(txs, address, windows, token));
    if SellsHaveVolume(txs, token) { NothingDropped(txs, address, windows, token); }
  }

  lemma NothingAddedIff(a: Money, b: Money)
    ensures AddMoney(a, b) == a <==> b == Money(0.0, 0.0)
  {}
}
