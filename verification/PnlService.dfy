/**
 `BclPnlService`: the mappers, and the three ways of computing a token PnL. What the database returns
 is a parameter; it may be any answer of the query. All three agree with one reference, which reads
 the transactions directly.
 */
module PnlService {
  import opened Wrappers
  import opened Sequences
  import opened PnlModel
  import opened PnlQueries

  // ---------------------------------------------------------------- the reference

  /** The token of each transaction of `address` below `height`. */
  function TokensTraded(txs: seq<Tx>, address: string, height: nat): seq<string> {
    if txs == [] then []
    else
      var rest := TokensTraded(txs[1..], address, height);
      if txs[0].address == address && txs[0].height < height then [txs[0].token] + rest else rest
  }

  function RowsForTokens(txs: seq<Tx>, address: string, height: nat, from: Option<nat>,
                         tokens: seq<string>): seq<TokenRow> {
    if tokens == [] then []
    else
      var front := RowsForTokens(txs, address, height, from, tokens[..|tokens| - 1]);
      var token := tokens[|tokens| - 1];
      var row := ResultRow(txs, Group(txs, address, height, token), height, token, from);
      if Reported(row.totals) then front + [row] else front
  }

  /** The PnL of `address` at `height`: one entry for each token it traded, from that token's own transactions. */
  function TokenPnlsAt(txs: seq<Tx>, address: string, height: nat, from: Option<nat>): TokenPnlResult {
    MapRows(RowsForTokens(txs, address, height, from, Dedup(TokensTraded(txs, address, height))), from.Some?)
  }

  lemma {:induction false} TradedMeansGroup(txs: seq<Tx>, address: string, height: nat, token: string)
    ensures token in TokensTraded(txs, address, height) <==> Group(txs, address, height, token) != []
  {
    if txs != [] { TradedMeansGroup(txs[1..], address, height, token); }
  }

  lemma {:induction false} RowsForTokensMembers(txs: seq<Tx>, address: string, height: nat, from: Option<nat>,
                                                tokens: seq<string>)
    requires NoRepeats(tokens)
    ensures DistinctTokens(RowsForTokens(txs, address, height, from, tokens))
    ensures forall row :: row in RowsForTokens(txs, address, height, from, tokens) <==>
              row.token in tokens && Reported(row.totals)
              && row == ResultRow(txs, Group(txs, address, height, row.token), height, row.token, from)
  {
    if tokens != [] {
      var n := |tokens| - 1;
      assert tokens == tokens[..n] + [tokens[n]];
      RowsForTokensMembers(txs, address, height, from, tokens[..n]);
    }
  }

  /** Whatever order the database chose, a single-height answer maps to the reference. */
  lemma SingleAnswerMapsToReference(txs: seq<Tx>, address: string, height: nat, from: Option<nat>, rows: seq<TokenRow>)
    requires IsSingleAnswer(txs, address, height, from, rows)
    ensures MapRows(rows, from.Some?) == TokenPnlsAt(txs, address, height, from)
  {
    var traded := TokensTraded(txs, address, height);
    DedupDropsRepeats(traded);
    RowsForTokensMembers(txs, address, height, from, Dedup(traded));
    var reference := RowsForTokens(txs, address, height, from, Dedup(traded));
    forall row ensures row in rows <==> row in reference
    {
      DedupKeepsMembers(traded, row.token);
      TradedMeansGroup(txs, address, height, row.token);
      assert row in rows <==> IsSingleRow(txs, address, height, from, row);
    }
    MapRowsIgnoresOrder(rows, reference, from.Some?);
  }

  // ---------------------------------------------------------------- the mappers

  /** The loop body of `mapTokenPnls`: the figures of one token. */
  method MapTokenPnl(row: TokenRow, isRangeBased: bool) returns (pnl: TokenPnl)
    ensures pnl == PnlOf(row, isRangeBased)
  {
    var t := row.totals;
    var currentValue := Worth(t.holdings, row.unitPriceAe, row.unitPriceUsd);
    var costBasis, gain;
    if isRangeBased {
      costBasis := Money(AtAverageCost(t.volumeSold, t.cumulativeSpentAe, t.cumulativeBought),
                         AtAverageCost(t.volumeSold, t.cumulativeSpentUsd, t.cumulativeBought));
      gain := Money(t.receivedAe - costBasis.ae, t.receivedUsd - costBasis.usd);
    } else {
      costBasis := Money(t.spentAe, t.spentUsd);
      gain := Money(t.receivedAe + currentValue.ae - t.spentAe, t.receivedUsd + currentValue.usd - t.spentUsd);
    }
    var percentage := if costBasis.ae > 0.0 then gain.ae / costBasis.ae * 100.0 else 0.0;
    pnl := TokenPnl(Money(row.unitPriceAe, row.unitPriceUsd), percentage, costBasis, currentValue, gain);
  }

  method MapTokenPnls(rows: seq<TokenRow>, isRangeBased: bool) returns (result: TokenPnlResult)
    ensures result == MapRows(rows, isRangeBased)
  {
    var pnls: map<string, TokenPnl> := map[];
    var totalCostBasis, totalCurrentValue, totalGain := Money(0.0, 0.0), Money(0.0, 0.0), Money(0.0, 0.0);
    ghost var entries := EntriesOf(rows, isRangeBased);
    var i := 0;
    while i < |rows|
      invariant 0 <= i <= |rows|
      invariant TokenPnlResult(pnls, totalCostBasis, totalCurrentValue, totalGain) == AddEntries(entries[..i])
    {
      assert entries[..i + 1][..i] == entries[..i] && entries[..i + 1][i] == entries[i];
      var pnl := MapTokenPnl(rows[i], isRangeBased);
      assert entries[i] == Entry(rows[i].token, pnl);
      totalCurrentValue := AddMoney(totalCurrentValue, pnl.currentValue);
      totalCostBasis := AddMoney(totalCostBasis, pnl.invested);
      totalGain := AddMoney(totalGain, pnl.gain);
      pnls := pnls[rows[i].token := pnl];
      i := i + 1;
    }
    assert entries[..|rows|] == entries;
    result := TokenPnlResult(pnls, totalCostBasis, totalCurrentValue, totalGain);
  }

  function RowsAt(rows: seq<BatchRow>, height: nat): seq<TokenRow> {
    if rows == [] then []
    else
      var front := RowsAt(rows[..|rows| - 1], height);
      if rows[|rows| - 1].height == height then front + [rows[|rows| - 1].row] else front
  }

  /** The grouping pass of `mapTokenPnlsBatch`; rows of a height nobody asked for are dropped. */
  method GroupByHeight(rows: seq<BatchRow>, heights: seq<nat>) returns (rowsByHeight: map<nat, seq<TokenRow>>)
    ensures forall h :: h in rowsByHeight <==> h in heights
    ensures forall h | h in heights :: rowsByHeight[h] == RowsAt(rows, h)
  {
    rowsByHeight := map[];
    for i := 0 to |heights|
      invariant forall h :: h in rowsByHeight <==> h in heights[..i]
      invariant forall h | h in rowsByHeight :: rowsByHeight[h] == []
    {
      rowsByHeight := rowsByHeight[heights[i] := []];
    }
    for i := 0 to |rows|
      invariant forall h :: h in rowsByHeight <==> h in heights
      invariant forall h | h in heights :: rowsByHeight[h] == RowsAt(rows[..i], h)
    {
      assert rows[..i + 1][..i] == rows[..i];
      var height := rows[i].height;
      if height in rowsByHeight {
        rowsByHeight := rowsByHeight[height := rowsByHeight[height] + [rows[i].row]];
      }
    }
    assert rows[..|rows|] == rows;
  }

  method MapTokenPnlsBatch(rows: seq<BatchRow>, heights: seq<nat>, from: Option<nat>)
    returns (result: map<nat, TokenPnlResult>)
    ensures forall h :: h in result <==> h in heights
    ensures forall h | h in heights :: result[h] == MapRows(RowsAt(rows, h), from.Some?)
  {
    var rowsByHeight := GroupByHeight(rows, heights);
    result := map[];
    for i := 0 to |heights|
      invariant forall h :: h in result <==> h in heights[..i]
      invariant forall h | h in heights[..i] :: result[h] == MapRows(RowsAt(rows, h), from.Some?)
    {
      var mapped := MapTokenPnls(rowsByHeight[heights[i]], from.Some?);
      result := result[heights[i] := mapped];
    }
  }

  function RowsOf(rows: seq<AddressRow>, address: string): seq<BatchRow> {
    if rows == [] then []
    else
      var front := RowsOf(rows[..|rows| - 1], address);
      var last := rows[|rows| - 1];
      if last.address == address then front + [BatchRow(last.height, last.row)] else front
  }

  /** Grouping first by address and then by height, as the nested maps do. */
  method MapTokenPnlsBatchForAddresses(rows: seq<AddressRow>, addresses: seq<string>, heights: seq<nat>,
                                       from: Option<nat>)
    returns (result: map<string, map<nat, TokenPnlResult>>)
    ensures forall a :: a in result <==> a in addresses
    ensures forall a, h | a in addresses :: h in result[a] <==> h in heights
    ensures forall a, h | a in addresses && h in heights ::
              result[a][h] == MapRows(RowsAt(RowsOf(rows, a), h), from.Some?)
  {
    var rowsByAddress: map<string, seq<BatchRow>> := map[];
    for i := 0 to |addresses|
      invariant forall a :: a in rowsByAddress <==> a in addresses[..i]
      invariant forall a | a in rowsByAddress :: rowsByAddress[a] == []
    {
      rowsByAddress := rowsByAddress[addresses[i] := []];
    }
    for i := 0 to |rows|
      invariant forall a :: a in rowsByAddress <==> a in addresses
      invariant forall a | a in addresses :: rowsByAddress[a] == RowsOf(rows[..i], a)
    {
      assert rows[..i + 1][..i] == rows[..i];
      var address := rows[i].address;
      if address in rowsByAddress {
        rowsByAddress := rowsByAddress[address := rowsByAddress[address] + [BatchRow(rows[i].height, rows[i].row)]];
      }
    }
    assert rows[..|rows|] == rows;
    result := map[];
    for i := 0 to |addresses|
      invariant forall a :: a in result <==> a in addresses[..i]
      invariant forall a, h | a in addresses[..i] :: h in result[a] <==> h in heights
      invariant forall a, h | a in addresses[..i] && h in heights ::
        result[a][h] == MapRows(RowsAt(RowsOf(rows, a), h), from.Some?)
    {
      var byHeight := MapTokenPnlsBatch(rowsByAddress[addresses[i]], heights, from);
      result := result[addresses[i] := byHeight];
    }
  }

  // ---------------------------------------------------------------- batch answers are single answers

  lemma {:induction false} RowsAtMembers(rows: seq<BatchRow>, height: nat, row: TokenRow)
    ensures row in RowsAt(rows, height) <==> BatchRow(height, row) in rows
  {
    if rows != [] {
      RowsAtMembers(rows[..|rows| - 1], height, row);
      assert rows == rows[..|rows| - 1] + [rows[|rows| - 1]];
    }
  }

  lemma {:induction false} RowsAtDistinct(rows: seq<BatchRow>, height: nat)
    requires DistinctGroups(rows)
    ensures DistinctTokens(RowsAt(rows, height))
  {
    if rows != [] {
      var n := |rows| - 1;
      RowsAtDistinct(rows[..n], height);
      if rows[n].height == height {
        forall r | r in RowsAt(rows[..n], height) ensures r.token != rows[n].row.token
        {
          RowsAtMembers(rows[..n], height, r);
          var k :| 0 <= k < n && rows[..n][k] == BatchRow(height, r);
        }
      }
    }
  }

  lemma BatchAnswerHoldsSingleAnswers(txs: seq<Tx>, address: string, heights: seq<nat>, from: Option<nat>,
                                      rows: seq<BatchRow>, h: nat)
    requires IsBatchAnswer(txs, address, heights, from, rows) && NoRepeats(heights) && h in heights
    ensures IsSingleAnswer(txs, address, h, from, RowsAt(rows, h))
  {
    RowsAtDistinct(rows, h);
    forall row ensures row in RowsAt(rows, h) <==> IsSingleRow(txs, address, h, from, row)
    {
      RowsAtMembers(rows, h, row);
      BatchGroupIsGroup(heights, txs, address, h, row.token);
      assert BatchRow(h, row) in rows <==> IsBatchRow(txs, address, heights, from, BatchRow(h, row));
    }
  }

  lemma {:induction false} RowsOfMembers(rows: seq<AddressRow>, address: string, r: BatchRow)
    ensures r in RowsOf(rows, address) <==> AddressRow(address, r.height, r.row) in rows
  {
    if rows != [] {
      RowsOfMembers(rows[..|rows| - 1], address, r);
      assert rows == rows[..|rows| - 1] + [rows[|rows| - 1]];
    }
  }

  lemma {:induction false} RowsOfDistinct(rows: seq<AddressRow>, address: string)
    requires DistinctAddressGroups(rows)
    ensures DistinctGroups(RowsOf(rows, address))
  {
    if rows != [] {
      var n := |rows| - 1;
      RowsOfDistinct(rows[..n], address);
      if rows[n].address == address {
        var front := RowsOf(rows[..n], address);
        forall i | 0 <= i < |front| ensures front[i].height != rows[n].height || front[i].row.token != rows[n].row.token
        {
          var r := front[i];
          RowsOfMembers(rows[..n], address, r);
          var k :| 0 <= k < n && rows[..n][k] == AddressRow(address, r.height, r.row);
        }
      }
    }
  }

  lemma AddressAnswerHoldsSingleAnswers(txs: seq<Tx>, addresses: seq<string>, heights: seq<nat>, from: Option<nat>,
                                        rows: seq<AddressRow>, a: string, h: nat)
    requires IsAddressAnswer(txs, addresses, heights, from, rows) && NoRepeats(heights) && h in heights
             && a in addresses
    ensures IsSingleAnswer(txs, a, h, from, RowsAt(RowsOf(rows, a), h))
  {
    RowsOfDistinct(rows, a);
    RowsAtDistinct(RowsOf(rows, a), h);
    forall row ensures row in RowsAt(RowsOf(rows, a), h) <==> IsSingleRow(txs, a, h, from, row)
    {
      RowsAtMembers(RowsOf(rows, a), h, row);
      RowsOfMembers(rows, a, BatchRow(h, row));
      AddressGroupIsGroup(heights, txs, addresses, a, h, row.token);
      assert AddressRow(a, h, row) in rows <==> IsAddressRow(txs, addresses, heights, from, AddressRow(a, h, row));
    }
  }

  // ---------------------------------------------------------------- the three computations

  method CalculateTokenPnls(ghost txs: seq<Tx>, ghost address: string, ghost height: nat, from: Option<nat>,
                            rows: seq<TokenRow>)
    returns (result: TokenPnlResult)
    requires IsSingleAnswer(txs, address, height, from, rows)
    ensures result == TokenPnlsAt(txs, address, height, from)
  {
    result := MapTokenPnls(rows, from.Some?);
    SingleAnswerMapsToReference(txs, address, height, from, rows);
  }

  method CalculateTokenPnlsBatch(ghost txs: seq<Tx>, ghost address: string, blockHeights: seq<nat>, from: Option<nat>,
                                 rows: seq<BatchRow>)
    returns (result: map<nat, TokenPnlResult>)
    requires IsBatchAnswer(txs, address, Dedup(blockHeights), from, rows)
    ensures forall h :: h in result <==> h in blockHeights
    ensures forall h | h in blockHeights :: result[h] == TokenPnlsAt(txs, address, h, from)
  {
    var uniqueHeights := Dedup(blockHeights);
    forall h ensures h in uniqueHeights <==> h in blockHeights { DedupKeepsMembers(blockHeights, h); }
    if uniqueHeights == [] { return map[]; }
    DedupDropsRepeats(blockHeights);
    result := MapTokenPnlsBatch(rows, uniqueHeights, from);
    forall h | h in blockHeights ensures result[h] == TokenPnlsAt(txs, address, h, from)
    {
      BatchAnswerHoldsSingleAnswers(txs, address, uniqueHeights, from, rows, h);
      SingleAnswerMapsToReference(txs, address, h, from, RowsAt(rows, h));
    }
  }

  /** With no addresses or no heights the result is empty; otherwise each pair has its single-height PnL. */
  method CalculateTokenPnlsBatchForAddresses(ghost txs: seq<Tx>, addresses: seq<string>, blockHeights: seq<nat>,
                                             from: Option<nat>, rows: seq<AddressRow>)
    returns (result: map<string, map<nat, TokenPnlResult>>)
    requires IsAddressAnswer(txs, Dedup(addresses), Dedup(blockHeights), from, rows)
    ensures forall a :: a in result <==> a in addresses && blockHeights != []
    ensures forall a, h | a in result :: h in result[a] <==> h in blockHeights
    ensures forall a, h | a in addresses && h in blockHeights :: result[a][h] == TokenPnlsAt(txs, a, h, from)
  {
    var uniqueAddresses, uniqueHeights := Dedup(addresses), Dedup(blockHeights);
    forall h ensures h in uniqueHeights <==> h in blockHeights { DedupKeepsMembers(blockHeights, h); }
    forall a ensures a in uniqueAddresses <==> a in addresses { DedupKeepsMembers(addresses, a); }
    if uniqueAddresses == [] || uniqueHeights == [] { return map[]; }
    DedupDropsRepeats(blockHeights);
    result := MapTokenPnlsBatchForAddresses(rows, uniqueAddresses, uniqueHeights, from);
    forall a, h | a in addresses && h in blockHeights ensures result[a][h] == TokenPnlsAt(txs, a, h, from)
    {
      AddressAnswerHoldsSingleAnswers(txs, uniqueAddresses, uniqueHeights, from, rows, a, h);
      SingleAnswerMapsToReference(txs, a, h, from, RowsAt(RowsOf(rows, a), h));
    }
  }
}
