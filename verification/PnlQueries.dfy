/**
 The three PnL queries as relational pipelines over the transaction table: WHERE, JOIN with the
 requested heights, GROUP BY, and the rows each may return (in any order).
 */
module PnlQueries {
  import opened Wrappers
  import opened Sequences
  import opened PnlModel

  // ---------------------------------------------------------------- the single-height query

  predicate BelongsTo(tx: Tx, address: string, height: nat, token: string) {
    tx.address == address && tx.height < height && tx.token == token
  }

  /** WHERE address = $1 AND block_height < $2, the group of one token. */
  function Group(txs: seq<Tx>, address: string, height: nat, token: string): seq<Tx> {
    if txs == [] then []
    else
      var rest := Group(txs[1..], address, height, token);
      if BelongsTo(txs[0], address, height, token) then [txs[0]] + rest else rest
  }

  /** The result row for a group of token `token` at `height`; both batches select the same columns. */
  function ResultRow(txs: seq<Tx>, group: seq<Tx>, height: nat, token: string, from: Option<nat>): TokenRow {
    TokenRow(token, Aggregate(group, from), UnitPrice(txs, token, height, Ae), UnitPrice(txs, token, height, Usd))
  }

  /** Rows that may come back: one for each non-empty reported group, in any order. */
  ghost predicate IsSingleAnswer(txs: seq<Tx>, address: string, height: nat, from: Option<nat>, rows: seq<TokenRow>) {
    && DistinctTokens(rows)
    && forall row :: row in rows <==> IsSingleRow(txs, address, height, from, row)
  }

  predicate IsSingleRow(txs: seq<Tx>, address: string, height: nat, from: Option<nat>, row: TokenRow) {
    var group := Group(txs, address, height, row.token);
    group != [] && row == ResultRow(txs, group, height, row.token, from) && Reported(row.totals)
  }

  // ---------------------------------------------------------------- the per-address height batch

  /** The materialised `address_txs`. */
  function OfAddress(txs: seq<Tx>, address: string): seq<Tx> {
    if txs == [] then []
    else if txs[0].address == address then [txs[0]] + OfAddress(txs[1..], address)
    else OfAddress(txs[1..], address)
  }

  datatype Joined = Joined(height: nat, tx: Tx)

  function JoinOne(height: nat, txs: seq<Tx>): seq<Joined> {
    if txs == [] then []
    else if txs[0].height < height then [Joined(height, txs[0])] + JoinOne(height, txs[1..])
    else JoinOne(height, txs[1..])
  }

  /** `heights h JOIN txs tx ON tx.block_height < h.snapshot_height`. */
  function Join(heights: seq<nat>, txs: seq<Tx>): seq<Joined> {
    if heights == [] then [] else JoinOne(heights[0], txs) + Join(heights[1..], txs)
  }

  /** GROUP BY h.snapshot_height, tx.sale_address. */
  function BatchGroup(joined: seq<Joined>, height: nat, token: string): seq<Tx> {
    if joined == [] then []
    else
      var rest := BatchGroup(joined[1..], height, token);
      if joined[0].height == height && joined[0].tx.token == token then [joined[0].tx] + rest else rest
  }

  datatype BatchRow = BatchRow(height: nat, row: TokenRow)

  predicate DistinctGroups(rows: seq<BatchRow>) {
    forall i, j | 0 <= i < j < |rows| :: rows[i].height != rows[j].height || rows[i].row.token != rows[j].row.token
  }

  ghost predicate IsBatchAnswer(txs: seq<Tx>, address: string, heights: seq<nat>, from: Option<nat>,
                                rows: seq<BatchRow>) {
    && DistinctGroups(rows)
    && forall r :: r in rows <==> IsBatchRow(txs, address, heights, from, r)
  }

  predicate IsBatchRow(txs: seq<Tx>, address: string, heights: seq<nat>, from: Option<nat>, r: BatchRow) {
    var group := BatchGroup(Join(heights, OfAddress(txs, address)), r.height, r.row.token);
    group != [] && r.row == ResultRow(txs, group, r.height, r.row.token, from) && Reported(r.row.totals)
  }

  // ---------------------------------------------------------------- the address-by-height batch

  /** The materialised `addr_txs`: WHERE address = ANY($1). */
  function OfAddresses(txs: seq<Tx>, addresses: seq<string>): seq<Tx> {
    if txs == [] then []
    else if txs[0].address in addresses then [txs[0]] + OfAddresses(txs[1..], addresses)
    else OfAddresses(txs[1..], addresses)
  }

  /** GROUP BY h.snapshot_height, tx.address, tx.sale_address. */
  function AddressGroup(joined: seq<Joined>, address: string, height: nat, token: string): seq<Tx> {
    if joined == [] then []
    else
      var rest := AddressGroup(joined[1..], address, height, token);
      if joined[0].height == height && joined[0].tx.address == address && joined[0].tx.token == token
      then [joined[0].tx] + rest else rest
  }

  datatype AddressRow = AddressRow(address: string, height: nat, row: TokenRow)

  predicate DistinctAddressGroups(rows: seq<AddressRow>) {
    forall i, j | 0 <= i < j < |rows| ::
      rows[i].address != rows[j].address || rows[i].height != rows[j].height || rows[i].row.token != rows[j].row.token
  }

  ghost predicate IsAddressAnswer(txs: seq<Tx>, addresses: seq<string>, heights: seq<nat>, from: Option<nat>,
                                  rows: seq<AddressRow>) {
    && DistinctAddressGroups(rows)
    && forall r :: r in rows <==> IsAddressRow(txs, addresses, heights, from, r)
  }

  predicate IsAddressRow(txs: seq<Tx>, addresses: seq<string>, heights: seq<nat>, from: Option<nat>, r: AddressRow) {
    var group := AddressGroup(Join(heights, OfAddresses(txs, addresses)), r.address, r.height, r.row.token);
    group != [] && r.row == ResultRow(txs, group, r.height, r.row.token, from) && Reported(r.row.totals)
  }

  // ---------------------------------------------------------------- the joins keep every group

  function Times<T>(n: nat, s: seq<T>): seq<T> { if n == 0 then [] else s + Times(n - 1, s) }

  function Occurrences(heights: seq<nat>, h: nat): nat {
    if heights == [] then 0 else (if heights[0] == h then 1 else 0) + Occurrences(heights[1..], h)
  }

  lemma {:induction false} BatchGroupAppend(a: seq<Joined>, b: seq<Joined>, height: nat, token: string)
    ensures BatchGroup(a + b, height, token) == BatchGroup(a, height, token) + BatchGroup(b, height, token)
  {
    if a == [] {
      assert a + b == b;
    } else {
      assert (a + b)[1..] == a[1..] + b;
      BatchGroupAppend(a[1..], b, height, token);
    }
  }

  lemma JoinOneBatchStep(h: nat, tx: Tx, rest: seq<Tx>, height: nat, token: string)
    ensures var rest' := BatchGroup(JoinOne(h, rest), height, token);
      BatchGroup(JoinOne(h, [tx] + rest), height, token)
      == if tx.height < h && h == height && tx.token == token then [tx] + rest' else rest'
  {
    assert ([tx] + rest)[1..] == rest;
    assert ([Joined(h, tx)] + JoinOne(h, rest))[1..] == JoinOne(h, rest);
  }

  lemma {:induction false} BatchGroupOfOne(h: nat, txs: seq<Tx>, address: string, height: nat, token: string)
    ensures BatchGroup(JoinOne(h, OfAddress(txs, address)), height, token)
         == if h == height then Group(txs, address, height, token) else []
  {
    if txs != [] {
      BatchGroupOfOne(h, txs[1..], address, height, token);
      if txs[0].address == address {
        JoinOneBatchStep(h, txs[0], OfAddress(txs[1..], address), height, token);
      }
    }
  }

  lemma OneMoreTime<T>(heights: seq<nat>, h: nat, s: seq<T>)
    requires heights != []
    ensures Times(Occurrences(heights, h), s)
         == (if heights[0] == h then s else []) + Times(Occurrences(heights[1..], h), s)
  {
  }

  /** A group of the batch is the single-height group, once for each time its height was asked for. */
  lemma {:induction false} BatchGroupIsRepeatedGroup(heights: seq<nat>, txs: seq<Tx>, address: string, height: nat,
                                                     token: string)
    ensures BatchGroup(Join(heights, OfAddress(txs, address)), height, token)
         == Times(Occurrences(heights, height), Group(txs, address, height, token))
  {
    if heights != [] {
      var own := OfAddress(txs, address);
      BatchGroupIsRepeatedGroup(heights[1..], txs, address, height, token);
      BatchGroupOfOne(heights[0], txs, address, height, token);
      BatchGroupAppend(JoinOne(heights[0], own), Join(heights[1..], own), height, token);
      OneMoreTime(heights, height, Group(txs, address, height, token));
    }
  }

  lemma {:induction false} AddressGroupAppend(a: seq<Joined>, b: seq<Joined>, address: string, height: nat,
                                              token: string)
    ensures AddressGroup(a + b, address, height, token)
         == AddressGroup(a, address, height, token) + AddressGroup(b, address, height, token)
  {
    if a == [] {
      assert a + b == b;
    } else {
      assert (a + b)[1..] == a[1..] + b;
      AddressGroupAppend(a[1..], b, address, height, token);
    }
  }

  lemma JoinOneAddressStep(h: nat, tx: Tx, rest: seq<Tx>, address: string, height: nat, token: string)
    ensures var rest' := AddressGroup(JoinOne(h, rest), address, height, token);
      AddressGroup(JoinOne(h, [tx] + rest), address, height, token)
      == if tx.height < h && h == height && tx.address == address && tx.token == token then [tx] + rest' else rest'
  {
    assert ([tx] + rest)[1..] == rest;
    assert ([Joined(h, tx)] + JoinOne(h, rest))[1..] == JoinOne(h, rest);
  }

  lemma {:induction false} AddressGroupOfOne(h: nat, txs: seq<Tx>, addresses: seq<string>, address: string,
                                             height: nat, token: string)
    ensures AddressGroup(JoinOne(h, OfAddresses(txs, addresses)), address, height, token)
         == if h == height && address in addresses then Group(txs, address, height, token) else []
  {
    if txs != [] {
      AddressGroupOfOne(h, txs[1..], addresses, address, height, token);
      if txs[0].address in addresses {
        JoinOneAddressStep(h, txs[0], OfAddresses(txs[1..], addresses), address, height, token);
      }
    }
  }

  lemma {:induction false} AddressGroupIsRepeatedGroup(heights: seq<nat>, txs: seq<Tx>, addresses: seq<string>,
                                                        address: string, height: nat, token: string)
    ensures AddressGroup(Join(heights, OfAddresses(txs, addresses)), address, height, token)
         == if address in addresses then Times(Occurrences(heights, height), Group(txs, address, height, token)) else []
  {
    if heights != [] {
      var all := OfAddresses(txs, addresses);
      AddressGroupIsRepeatedGroup(heights[1..], txs, addresses, address, height, token);
      AddressGroupOfOne(heights[0], txs, addresses, address, height, token);
      AddressGroupAppend(JoinOne(heights[0], all), Join(heights[1..], all), address, height, token);
      OneMoreTime(heights, height, Group(txs, address, height, token));
    }
  }

  lemma {:induction false} OccursOnce(heights: seq<nat>, h: nat)
    requires NoRepeats(heights)
    ensures Occurrences(heights, h) == if h in heights then 1 else 0
  {
    if heights != [] {
      assert heights == [heights[0]] + heights[1..];
      OccursOnce(heights[1..], h);
    }
  }

  lemma TimesOne<T>(s: seq<T>)
    ensures Times(1, s) == s
  {
    assert Times(0, s) == [];
  }

  /** With the heights deduplicated, each group of the height batch is exactly the single-height group. */
  lemma BatchGroupIsGroup(heights: seq<nat>, txs: seq<Tx>, address: string, height: nat, token: string)
    requires NoRepeats(heights)
    ensures BatchGroup(Join(heights, OfAddress(txs, address)), height, token)
         == if height in heights then Group(txs, address, height, token) else []
  {
    BatchGroupIsRepeatedGroup(heights, txs, address, height, token);
    OccursOnce(heights, height);
    TimesOne(Group(txs, address, height, token));
  }

  /** The same for the address-by-height batch, for each of the addresses asked for. */
  lemma AddressGroupIsGroup(heights: seq<nat>, txs: seq<Tx>, addresses: seq<string>, address: string, height: nat,
                            token: string)
    requires NoRepeats(heights)
    ensures AddressGroup(Join(heights, OfAddresses(txs, addresses)), address, height, token)
         == if height in heights && address in addresses then Group(txs, address, height, token) else []
  {
    AddressGroupIsRepeatedGroup(heights, txs, addresses, address, height, token);
    OccursOnce(heights, height);
    TimesOne(Group(txs, address, height, token));
  }

  lemma {:induction false} AggregateAppend(a: seq<Tx>, b: seq<Tx>, from: Option<nat>)
    ensures Aggregate(a + b, from) == Plus(Aggregate(a, from), Aggregate(b, from))
  {
    if a == [] {
      assert a + b == b;
    } else {
      assert (a + b)[1..] == a[1..] + b;
      AggregateAppend(a[1..], b, from);
    }
  }

  /** Why the heights are deduplicated: a height asked for twice would count every transaction twice. */
  lemma RepeatedHeightDoublesTheSums(txs: seq<Tx>, address: string, height: nat, token: string, from: Option<nat>)
    ensures Aggregate(BatchGroup(Join([height, height], OfAddress(txs, address)), height, token), from)
         == Plus(Aggregate(Group(txs, address, height, token), from),
                 Aggregate(Group(txs, address, height, token), from))
  {
    var group := Group(txs, address, height, token);
    BatchGroupIsRepeatedGroup([height, height], txs, address, height, token);
    OccursTwice(height);
    TimesTwo(group);
    AggregateAppend(group, group, from);
  }

  lemma OccursTwice(h: nat)
    ensures Occurrences([h, h], h) == 2
  {
    assert [h, h][1..] == [h] && [h][1..] == [];
    assert Occurrences([h], h) == 1 + Occurrences([h][1..], h);
  }

  lemma TimesTwo<T>(s: seq<T>)
    ensures Times(2, s) == s + s
  {
    TimesOne(s);
  }
}
