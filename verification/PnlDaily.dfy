/**
 The daily PnL batch: windows between consecutive snapshots, the sells each window realizes, and the
 grouping of result rows by snapshot time, which tolerates a second of drift.
 */
module PnlDaily {
  import opened Wrappers
  import opened PnlModel
  import opened PnlService

  datatype Window = Window(snapshotTs: nat, dayStartTs: nat)

  /** Each snapshot's window reaches back to the previous one; the first is empty. */
  function WindowsOf(timestamps: seq<nat>): seq<Window> {
    seq(|timestamps|, i requires 0 <= i < |timestamps| =>
      Window(timestamps[i], if i > 0 then timestamps[i - 1] else timestamps[i]))
  }

  predicate Increasing(ts: seq<nat>) { forall i, j | 0 <= i < j < |ts| :: ts[i] < ts[j] }

  predicate Within(at: int, w: Window) { w.dayStartTs <= at < w.snapshotTs }

  lemma {:induction false} WindowContaining(timestamps: seq<nat>, at: int) returns (k: nat)
    requires timestamps != [] && timestamps[0] <= at < timestamps[|timestamps| - 1]
    ensures k < |timestamps| && Within(at, WindowsOf(timestamps)[k])
    decreases |timestamps|
  {
    var n := |timestamps| - 1;
    if timestamps[n - 1] <= at {
      k := n;
    } else {
      k := WindowContaining(timestamps[..n], at);
      assert WindowsOf(timestamps[..n])[k] == WindowsOf(timestamps)[k];
    }
  }

  /** A trade between the first and the last snapshot is realized in exactly one window, any other in none. */
  lemma WindowsTile(timestamps: seq<nat>, at: int)
    requires Increasing(timestamps) && timestamps != []
    ensures timestamps[0] <= at < timestamps[|timestamps| - 1] <==>
              exists k :: 0 <= k < |timestamps| && Within(at, WindowsOf(timestamps)[k])
    ensures forall j, k | 0 <= j < k < |timestamps| ::
              !(Within(at, WindowsOf(timestamps)[j]) && Within(at, WindowsOf(timestamps)[k]))
  {
    if timestamps[0] <= at < timestamps[|timestamps| - 1] {
      var k := WindowContaining(timestamps, at);
    }
    forall j, k | 0 <= j < k < |timestamps|
      ensures !(Within(at, WindowsOf(timestamps)[j]) && Within(at, WindowsOf(timestamps)[k]))
    {
      assert timestamps[j] <= timestamps[k - 1];
    }
  }

  // ---------------------------------------------------------------- what a window realizes

  predicate SoldBetween(tx: Tx, address: string, token: string, from: int, to: int) {
    tx.address == address && tx.token == token && IsSell(tx) && from <= tx.createdAt < to
  }

  /** The three columns a window restricts: volume sold and amounts received. */
  datatype Sold = Sold(volume: real, ae: real, usd: real)

  function AddSold(a: Sold, b: Sold): Sold { Sold(a.volume + b.volume, a.ae + b.ae, a.usd + b.usd) }

  const NOTHING := Sold(0.0, 0.0, 0.0)

  function SoldBy(tx: Tx): Sold { Sold(tx.volume, OrZero(tx.amountAe), OrZero(tx.amountUsd)) }

  function SoldIf(tx: Tx, address: string, token: string, from: int, to: int): Sold {
    if SoldBetween(tx, address, token, from, to) then SoldBy(tx) else NOTHING
  }

  /** What the sells of one token in [from, to) realize. */
  function Sells(txs: seq<Tx>, address: string, token: string, from: int, to: int): Sold {
    if txs == [] then NOTHING
    else AddSold(SoldIf(txs[0], address, token, from, to), Sells(txs[1..], address, token, from, to))
  }

  function SellsOverWindows(txs: seq<Tx>, address: string, token: string, windows: seq<Window>): Sold {
    if windows == [] then NOTHING
    else
      var w := windows[|windows| - 1];
      AddSold(SellsOverWindows(txs, address, token, windows[..|windows| - 1]),
              Sells(txs, address, token, w.dayStartTs, w.snapshotTs))
  }

  lemma AddSoldInterchanges(a: Sold, b: Sold, c: Sold, d: Sold)
    ensures AddSold(AddSold(a, b), AddSold(c, d)) == AddSold(AddSold(a, c), AddSold(b, d))
  {}

  lemma SoldIfSplits(tx: Tx, address: string, token: string, from: int, mid: int, to: int)
    requires from <= mid <= to
    ensures AddSold(SoldIf(tx, address, token, from, mid), SoldIf(tx, address, token, mid, to))
         == SoldIf(tx, address, token, from, to)
  {
    NothingIsNeutral(SoldBy(tx));
    NothingIsNeutral(NOTHING);
  }

  lemma NothingIsNeutral(s: Sold)
    ensures AddSold(s, NOTHING) == s && AddSold(NOTHING, s) == s
  {}

  lemma {:induction false} SellsSplit(txs: seq<Tx>, address: string, token: string, from: int, mid: int, to: int)
    requires from <= mid <= to
    ensures AddSold(Sells(txs, address, token, from, mid), Sells(txs, address, token, mid, to))
         == Sells(txs, address, token, from, to)
  {
    if txs != [] {
      SoldIfSplits(txs[0], address, token, from, mid, to);
      SellsSplit(txs[1..], address, token, from, mid, to);
      AddSoldInterchanges(SoldIf(txs[0], address, token, from, mid), Sells(txs[1..], address, token, from, mid),
                          SoldIf(txs[0], address, token, mid, to), Sells(txs[1..], address, token, mid, to));
    }
  }

  lemma {:induction false} NoSellsInEmptyWindow(txs: seq<Tx>, address: string, token: string, at: int)
    ensures Sells(txs, address, token, at, at) == NOTHING
  {
    if txs != [] { NoSellsInEmptyWindow(txs[1..], address, token, at); }
  }

  /** Nothing is realized twice and nothing is lost: the windows add up to the whole span. */
  lemma {:induction false} WindowsConserveSells(txs: seq<Tx>, address: string, token: string, timestamps: seq<nat>)
    requires Increasing(timestamps) && timestamps != []
    ensures SellsOverWindows(txs, address, token, WindowsOf(timestamps))
         == Sells(txs, address, token, timestamps[0], timestamps[|timestamps| - 1])
    decreases |timestamps|
  {
    var n := |timestamps| - 1;
    var front := WindowsOf(timestamps)[..n];
    if n == 0 {
      NoSellsInEmptyWindow(txs, address, token, timestamps[0]);
      assert front == [];
    } else {
      assert front == WindowsOf(timestamps[..n]);
      WindowsConserveSells(txs, address, token, timestamps[..n]);
      SellsSplit(txs, address, token, timestamps[0], timestamps[n - 1], timestamps[n]);
    }
  }

  // ---------------------------------------------------------------- grouping rows by snapshot

  datatype DailyRow = DailyRow(snapshotMs: nat, row: TokenRow)

  predicate Near(ts: nat, w: Window) { -1000 <= ts - w.snapshotTs <= 1000 }

  /** The first window within a second of `ts`, or the number of windows. */
  function MatchIndex(windows: seq<Window>, ts: nat): (k: nat)
    ensures k <= |windows|
    ensures k < |windows| ==> Near(ts, windows[k])
    ensures forall j | 0 <= j < k :: !Near(ts, windows[j])
  {
    if windows == [] || Near(ts, windows[0]) then 0 else 1 + MatchIndex(windows[1..], ts)
  }

  function MatchedKey(windows: seq<Window>, ts: nat): Option<nat> {
    var k := MatchIndex(windows, ts);
    if k < |windows| then Some(windows[k].snapshotTs) else None
  }

  predicate WellSpaced(windows: seq<Window>) {
    forall j, k | 0 <= j < |windows| && 0 <= k < |windows| ::
      windows[j].snapshotTs == windows[k].snapshotTs || !Near(windows[j].snapshotTs, windows[k])
  }

  /**
   The tolerance attributes every window's own rows to it exactly when different snapshots are more
   than a second apart (`GeneratedAreWellSpacedIff` says when that is).
   */
  lemma RowsStayInTheirWindowIffWellSpaced(windows: seq<Window>)
    ensures (forall k | 0 <= k < |windows| :: MatchedKey(windows, windows[k].snapshotTs) == Some(windows[k].snapshotTs))
       <==> WellSpaced(windows)
  {
    if !WellSpaced(windows) {
      var j, k :| 0 <= j < |windows| && 0 <= k < |windows|
                  && windows[j].snapshotTs != windows[k].snapshotTs && Near(windows[j].snapshotTs, windows[k]);
      var fj, fk := MatchIndex(windows, windows[j].snapshotTs), MatchIndex(windows, windows[k].snapshotTs);
      assert Near(windows[j].snapshotTs, windows[j]) && Near(windows[k].snapshotTs, windows[k]);
      assert windows[fj].snapshotTs == windows[j].snapshotTs ==> Near(windows[k].snapshotTs, windows[fj]);
      assert windows[fk].snapshotTs == windows[k].snapshotTs ==> Near(windows[j].snapshotTs, windows[fk]);
    } else {
      forall k | 0 <= k < |windows| ensures MatchedKey(windows, windows[k].snapshotTs) == Some(windows[k].snapshotTs)
      {
        var f := MatchIndex(windows, windows[k].snapshotTs);
        assert Near(windows[k].snapshotTs, windows[k]);
        assert f < |windows|;
      }
    }
  }

  /** A drift of up to `drift` ms is harmless when snapshots are further apart than it and the tolerance together. */
  lemma DriftIsTolerated(windows: seq<Window>, k: nat, ts: nat, drift: nat)
    requires k < |windows| && drift <= 1000 && windows[k].snapshotTs <= ts + drift
             && ts <= windows[k].snapshotTs + drift
    requires forall i, j | 0 <= i < j < |windows| :: windows[j].snapshotTs - windows[i].snapshotTs > 1000 + drift
    ensures MatchedKey(windows, ts) == Some(windows[k].snapshotTs)
  {
    assert Near(ts, windows[k]);
    assert forall i | 0 <= i < k :: !Near(ts, windows[i]);
    assert MatchIndex(windows, ts) == k;
  }

  // ---------------------------------------------------------------- the snapshots that callers ask for

  /** The first `n` snapshots from `start`, `intervalMs` apart. */
  function Generated(start: nat, intervalMs: nat, n: nat): (ts: seq<nat>)
    ensures |ts| == n
  {
    if n == 0 then [] else Generated(start, intervalMs, n - 1) + [start + Elapsed(intervalMs, n - 1)]
  }

  function Elapsed(intervalMs: nat, k: nat): nat { if k == 0 then 0 else Elapsed(intervalMs, k - 1) + intervalMs }

  lemma {:induction false} GeneratedAt(start: nat, intervalMs: nat, n: nat, k: nat)
    requires k < n
    ensures Generated(start, intervalMs, n)[k] == start + Elapsed(intervalMs, k)
  {
    if k < n - 1 { GeneratedAt(start, intervalMs, n - 1, k); }
  }

  lemma {:induction false} ElapsedGrows(intervalMs: nat, j: nat, k: nat)
    requires j < k
    ensures Elapsed(intervalMs, j) + intervalMs <= Elapsed(intervalMs, k)
    decreases k
  {
    if j < k - 1 { ElapsedGrows(intervalMs, j, k - 1); }
  }

  lemma GeneratedSpacing(start: nat, intervalMs: nat, n: nat)
    ensures var ts := Generated(start, intervalMs, n);
      && (forall j, k | 0 <= j < k < n :: ts[k] - ts[j] >= intervalMs)
      && (n >= 2 ==> ts[1] - ts[0] == intervalMs)
  {
    var ts := Generated(start, intervalMs, n);
    forall j, k | 0 <= j < k < n ensures ts[k] - ts[j] >= intervalMs {
      GeneratedAt(start, intervalMs, n, j);
      GeneratedAt(start, intervalMs, n, k);
      ElapsedGrows(intervalMs, j, k);
    }
    if n >= 2 {
      GeneratedAt(start, intervalMs, n, 0);
      GeneratedAt(start, intervalMs, n, 1);
      assert Elapsed(intervalMs, 1) == Elapsed(intervalMs, 0) + intervalMs;
    }
  }

  /** Generated snapshots keep their own rows exactly when they are more than a second apart, or there is only one. */
  lemma GeneratedAreWellSpacedIff(start: nat, intervalMs: nat, n: nat)
    requires intervalMs > 0
    ensures WellSpaced(WindowsOf(Generated(start, intervalMs, n))) <==> n <= 1 || intervalMs > 1000
  {
    GeneratedSpacing(start, intervalMs, n);
    var ws := WindowsOf(Generated(start, intervalMs, n));
    if n >= 2 && intervalMs <= 1000 {
      assert Near(ws[0].snapshotTs, ws[1]) && ws[0].snapshotTs != ws[1].snapshotTs;
    } else {
      forall j, k | 0 <= j < |ws| && 0 <= k < |ws| && ws[j].snapshotTs != ws[k].snapshotTs
        ensures !Near(ws[j].snapshotTs, ws[k])
      {
        if j < k { assert ws[k].snapshotTs - ws[j].snapshotTs >= intervalMs; }
        if k < j { assert ws[j].snapshotTs - ws[k].snapshotTs >= intervalMs; }
      }
    }
  }

  /**
   The interval a request is served with: the one asked for, daily by default, but never below the minimum
   for its period.
   */
  function FinalIntervalMs(requestedSeconds: nat, minimumSeconds: nat): (intervalMs: nat)
    ensures intervalMs >= 1000 * minimumSeconds && intervalMs >= 1000 * requestedSeconds
    ensures intervalMs > 1000 * minimumSeconds && requestedSeconds != 0 ==> intervalMs == 1000 * requestedSeconds
    ensures requestedSeconds == 0 ==> intervalMs == if minimumSeconds > 86400 then 1000 * minimumSeconds else 86400000
  {
    var requested := if requestedSeconds == 0 then 86400 else requestedSeconds;
    1000 * if requested > minimumSeconds then requested else minimumSeconds
  }

  /** Every caller is on the safe side: its minimum is an hour or more, which also leaves room for a second of drift. */
  lemma CallersAreWellSpaced(start: nat, requestedSeconds: nat, minimumSeconds: nat, n: nat)
    requires minimumSeconds in {3600, 14400, 86400, 604800}
    ensures var ws := WindowsOf(Generated(start, FinalIntervalMs(requestedSeconds, minimumSeconds), n));
      && WellSpaced(ws)
      && forall i, j | 0 <= i < j < |ws| :: ws[j].snapshotTs - ws[i].snapshotTs > 1000 + 1000
  {
    var intervalMs := FinalIntervalMs(requestedSeconds, minimumSeconds);
    GeneratedAreWellSpacedIff(start, intervalMs, n);
    GeneratedSpacing(start, intervalMs, n);
  }

  /** The loop that generates the snapshots: up to the end or the present, and at most `most` of them. */
  method GenerateTimestamps(start: nat, end: nat, now: nat, intervalMs: nat, most: nat) returns (timestamps: seq<nat>)
    ensures var step := if intervalMs > 0 then intervalMs else 86400000;
      && timestamps == Generated(start, step, |timestamps|) && |timestamps| <= most
      && (forall k | 0 <= k < |timestamps| :: timestamps[k] <= end && timestamps[k] <= now)
      && (|timestamps| < most ==> start + Elapsed(step, |timestamps|) > (if end < now then end else now))
  {
    var safeInterval := if intervalMs > 0 then intervalMs else 86400000;
    var cappedEnd := if end < now then end else now;
    timestamps := [];
    var current := start;
    while current <= cappedEnd && |timestamps| < most
      invariant |timestamps| <= most && current == start + Elapsed(safeInterval, |timestamps|)
      invariant timestamps == Generated(start, safeInterval, |timestamps|)
      invariant forall k | 0 <= k < |timestamps| :: timestamps[k] <= cappedEnd
      decreases most - |timestamps|
    {
      timestamps := timestamps + [current];
      current := current + safeInterval;
    }
  }

  /** The rows that end up under `key`. */
  function RowsMatched(rows: seq<DailyRow>, windows: seq<Window>, key: nat): seq<TokenRow> {
    if rows == [] then []
    else
      var front, last := RowsMatched(rows[..|rows| - 1], windows, key), rows[|rows| - 1];
      if MatchedKey(windows, last.snapshotMs) == Some(key) then front + [last.row] else front
  }

  predicate IsSnapshot(windows: seq<Window>, ts: nat) { exists k :: 0 <= k < |windows| && windows[k].snapshotTs == ts }

  method FindMatchedKey(windows: seq<Window>, ts: nat) returns (matchedKey: Option<nat>)
    ensures matchedKey == MatchedKey(windows, ts)
    ensures matchedKey.Some? ==> IsSnapshot(windows, matchedKey.value)
  {
    for i := 0 to |windows|
      invariant forall j | 0 <= j < i :: !Near(ts, windows[j])
    {
      if -1000 <= ts - windows[i].snapshotTs <= 1000 {
        assert MatchIndex(windows, ts) == i;
        return Some(windows[i].snapshotTs);
      }
    }
    return None;
  }

  /** The grouping pass of `mapDailyPnlBatch`; rows near no snapshot are dropped. */
  method GroupBySnapshot(rows: seq<DailyRow>, windows: seq<Window>) returns (rowsByTs: map<nat, seq<TokenRow>>)
    ensures forall ts :: ts in rowsByTs <==> IsSnapshot(windows, ts)
    ensures forall ts | ts in rowsByTs :: rowsByTs[ts] == RowsMatched(rows, windows, ts)
  {
    rowsByTs := map[];
    for i := 0 to |windows|
      invariant forall ts :: ts in rowsByTs <==> IsSnapshot(windows[..i], ts)
      invariant forall ts | ts in rowsByTs :: rowsByTs[ts] == []
    {
      SnapshotsGrow(windows, i);
      rowsByTs := rowsByTs[windows[i].snapshotTs := []];
    }
    assert windows[..|windows|] == windows;
    for i := 0 to |rows|
      invariant forall ts :: ts in rowsByTs <==> IsSnapshot(windows, ts)
      invariant forall ts | ts in rowsByTs :: rowsByTs[ts] == RowsMatched(rows[..i], windows, ts)
    {
      assert rows[..i + 1][..i] == rows[..i];
      var matchedKey := FindMatchedKey(windows, rows[i].snapshotMs);
      if matchedKey.Some? {
        rowsByTs := rowsByTs[matchedKey.value := rowsByTs[matchedKey.value] + [rows[i].row]];
      }
    }
    assert rows[..|rows|] == rows;
  }

  lemma SnapshotsGrow(windows: seq<Window>, i: nat)
    requires i < |windows|
    ensures forall ts ::
              IsSnapshot(windows[..i + 1], ts) <==> IsSnapshot(windows[..i], ts) || ts == windows[i].snapshotTs
  {
    forall ts: nat
      ensures IsSnapshot(windows[..i + 1], ts) <==> IsSnapshot(windows[..i], ts) || ts == windows[i].snapshotTs
    {
      if IsSnapshot(windows[..i], ts) {
        var k :| 0 <= k < i && windows[..i][k].snapshotTs == ts;
        assert windows[..i + 1][k].snapshotTs == ts;
      }
      if ts == windows[i].snapshotTs { assert windows[..i + 1][i].snapshotTs == ts; }
      if IsSnapshot(windows[..i + 1], ts) {
        var k :| 0 <= k < i + 1 && windows[..i + 1][k].snapshotTs == ts;
        assert k == i || windows[..i][k].snapshotTs == ts;
      }
    }
  }

  method MapDailyPnlBatch(rows: seq<DailyRow>, windows: seq<Window>) returns (result: map<nat, TokenPnlResult>)
    ensures forall ts :: ts in result <==> IsSnapshot(windows, ts)
    ensures forall ts | ts in result :: result[ts] == MapRows(RowsMatched(rows, windows, ts), true)
  {
    var rowsByTs := GroupBySnapshot(rows, windows);
    result := map[];
    for i := 0 to |windows|
      invariant forall ts :: ts in result <==> IsSnapshot(windows[..i], ts)
      invariant forall ts | ts in result :: ts in rowsByTs && result[ts] == MapRows(rowsByTs[ts], true)
    {
      SnapshotsGrow(windows, i);
      assert IsSnapshot(windows, windows[i].snapshotTs);
      var mapped := MapTokenPnls(rowsByTs[windows[i].snapshotTs], true);
      result := result[windows[i].snapshotTs := mapped];
    }
    assert windows[..|windows|] == windows;
  }

  /** With well-spaced snapshots and exact snapshot times, each snapshot gets exactly its own rows. */
  lemma {:induction false} RowsMatchedAreOwn(rows: seq<DailyRow>, windows: seq<Window>, key: nat, row: TokenRow)
    requires WellSpaced(windows) && IsSnapshot(windows, key)
    requires forall r | r in rows :: IsSnapshot(windows, r.snapshotMs)
    ensures row in RowsMatched(rows, windows, key) <==> DailyRow(key, row) in rows
  {
    if rows != [] {
      var n := |rows| - 1;
      assert rows == rows[..n] + [rows[n]];
      RowsMatchedAreOwn(rows[..n], windows, key, row);
      RowsStayInTheirWindowIffWellSpaced(windows);
      assert IsSnapshot(windows, rows[n].snapshotMs);
      assert MatchedKey(windows, rows[n].snapshotMs) == Some(rows[n].snapshotMs);
    }
  }
}
