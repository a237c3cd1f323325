# Verified model of the backend's stateful services

This project models, in Dafny, the parts of the backend whose correctness depends on interleaving,
on whole runs, or on several computations agreeing, and proves what those parts promise.

`dafny verify dfyconfig.toml` checks everything.

## What is modelled

**Announcements.** A table of announcement rows shared by any number of replicas.
`AnnouncementTable` gives every SQL statement as a function from table to table; `Announcements` is
the service that runs them on a mutable table. `AnnouncementProtocol` is the state machine: replicas
claim, heartbeat, complete, release, poison, crash and restart in any order, every statement may fail
with or without having taken effect, and one clock advances. `AnnouncementFinality` says when a
processed row can still change. `AnnouncementLease` proves mutual exclusion of dispatch from timely
claims, `AnnouncementPacing` timely claims from the pace of the dispatch loop, and
`AnnouncementSlowPace` that no slower pace will do. `AnnouncementDispatch` and `AnnouncementScheduler`
are the fan-out loop and the drain loop as imperative code over the service. `TickCoalescing` interleaves
ticks with the awaits of a drain.

**Feed.** `FeedQuery` builds the three queries step by step and says what they select; `FeedPage` merges
their answers into a page; `FeedRun` follows the cursors over whole runs during which rows come and go.
An answer is any list a database could return: ties come in any order and any of them may be cut off.
`FeedCursor` is the cursor as a JSON value.

**Profit and loss.** `PnlModel` and `PnlQueries` read the SQL as folds, joins and groupings over the
transaction table; `PnlService` holds the mappers and the three ways to compute a token's figures, each
proved equal to one reference that reads the transactions directly. `PnlAccounting` proves the identity
between cumulative and realized gains. `PnlDaily` covers the daily windows and how rows find theirs;
`PnlDailyQuery` is the daily query and the calendar it fills, from end to end. `PnlFigures` states the
figures of a listed token, by height and by day, as sums over the transaction table.

**Concurrent in-process state.** `WorkerPool` (`mapWithConcurrency`), `RateLimit` (both fixed-window
limiters), `SocketSlots` with `NotificationsGateway` (connection slots and the handlers that move them).
Code between two awaits is one step; steps interleave freely.

**Searches and serial forms.** `BlockHeight`, `Drawdown`, `PriceHistory`, and the canonical preference
string in `Preferences`, `PreferenceStrings` and `PreferenceRepeats`.

`Wrappers` and `Sequences` hold the option and result types and the removal of duplicates.

Where the source changes fields or variables in place, so does the model, and each such method is tied
to a function on values; the promises are proved about those functions and about runs of them.

## Findings

Each is proved, with a concrete input or run where something fails and the exact condition under which
it holds.

- Completed counters are not immutable. The comment on `claim_token` guards covers `markCompleted`, but
  the unguarded `markPoisoned` of a replica that has just released a row for the third time can zero the
  counters a peer writes in between (`PoisonOverwritesACompletion`). A processed row is final exactly when
  no replica is about to poison it (`ProcessedRowIsFinalIff`); its counters are, exactly then or when they
  are all zero already (`CompletedCountersAreFinalIff`).
- Mutual exclusion of dispatch rests on timely heartbeats alone: a live but slow owner and the replica
  that takes over both send (`LateHeartbeatBreaksExclusion`). An idle replica can bring that about exactly
  when some dispatching owner's claim is older than the stale threshold (`TakeoverIsSafeIffTimely`). In
  terms of the loop: let a batch take at most B (the first together with resolving the recipients), a
  statement at most W to land, and at most m heartbeats in a row fail. With two replicas or more, dispatch
  is exclusive over every run within these limits exactly when (m + 1) * (5 * B + W) is at most the
  threshold (`ExclusiveIffFastEnough`). Batches of a fifth of the threshold are too slow as soon as the
  completion takes any time to land.
- A socket that drops while its join is pending, when the join then succeeds, keeps its slot for ever; no
  other sequence of events leaks one (`LeaksIffJoinedAfterDrop`). An address with as many leaked slots as
  the cap is shut out (`FullOfLeaksShutsOut`).
- A client that waits exactly the `retryAfter` it was told is refused again whenever the window had a
  whole number of seconds left, because expiry is strict (`RetryAfterSufficesIff`).
- A closed minute can let 2 * cap - 1 calls of one client through, never more (`NoClientExceedsTheBudget`,
  `BoundIsReached`). A cap of 0 acts as a cap of 1, because the call that opens a window is always let
  in (`CapZeroActsAsOne`).
- The `previousHeight` given to `timestampToAeHeight` cancels out of the estimate made from it
  (`PreviousHeightCancelsOut`), but unlike the estimate made without one, this one is not kept on the chain.
  When the recent blocks came fast the median interval is short, the estimate for an old block lies far
  below height 1, and the search throws with every request answered: block 300000 of a million three-minute
  blocks is missed at a median of 100 seconds (`FastRecentBlocksMissTheChain`). With every request answered
  the greatest height at or before the target is found exactly when the chain has one, it is not above the
  window, and the estimate plus half a window is at least -2 (`FoundIffFindable`); in terms of the chain alone,
  exactly when the tip is near enough for the interval (`FoundIffNearEnough`, `TimestampToAeHeight`).
- The one-second tolerance that matches daily rows to snapshots is right for generated snapshots exactly
  when they are more than a second apart or there is only one (`GeneratedAreWellSpacedIff`). Every caller is
  on the safe side: the account endpoints space snapshots by an hour or more (`CallersAreWellSpaced`), the
  challenge analytics by a day.
- The gain identity fails for a reported token on which an amount was spent while no volume was bought, and
  only then (`GainsAgree`); a priced purchase with zero volume and the sale of a unit that came by transfer
  is such a history (`GainsDisagreeOnAnEmptyPurchase`). The parser stores such a purchase exactly when the
  last Mint event of a paid purchase is zero (`StoredPurchaseIsPricedIff`); whether the contract ever emits
  one is outside this repository. A community created without a purchase stores zero for both, and on
  histories without such purchases the identity always holds (`GainsAgreeOnPricedPurchases`).
- A type id that reads as two entries in order, such as `a=1;b`, makes two preference lists share a string,
  and the printable-ASCII rule allows it. That is the exact condition: ids that do not read so never
  collide, with or without semicolons (`SameStringIffPermutation`, `StringIsUniqueIffUnsplittable`).
- The order of a preference list shows in its string exactly when some id is listed with both flags
  (`OrderIsImmaterialIffFlagsAgree`).

## Model

| member | source | states |
|---|---|---|
| AnnouncementTable.ExactlyOneLifecycleState | src/announcements/entities/announcement.entity.ts:65-95 | a consistent row is in exactly one of pending, in flight and completed |
| AnnouncementTable.HeartbeatRenewsLease | src/announcements/services/announcement.service.ts:143-190 | a heartbeat protects the claim from every sweep up to the stale threshold later, and from no sweep after that |
| AnnouncementTable.SomeRowIsNextDue | src/announcements/services/announcement.service.ts:49-57 | among any claimable rows one is due earliest, so the claim query is empty only when nothing unlocked is claimable |
| Announcements.AnnouncementService.ClaimNextDue | src/announcements/services/announcement.service.ts:42-64 | claims an earliest due, unprocessed, unclaimed and unlocked row under the fresh token, or changes nothing because there is none |
| Announcements.AnnouncementService.MarkCompleted | src/announcements/services/announcement.service.ts:72-95 | succeeds exactly for the holder of the row's token, and then stamps the row, its counters and nothing else |
| Announcements.AnnouncementService.MarkPoisoned | src/announcements/services/announcement.service.ts:103-115 | stamps the row processed with zero counters whoever owns it |
| Announcements.AnnouncementService.ReleaseClaim | src/announcements/services/announcement.service.ts:126-141 | frees the row and counts the attempt for the token's holder; answers 0 and changes nothing for anyone else |
| Announcements.AnnouncementService.HeartbeatClaim | src/announcements/services/announcement.service.ts:155-165 | refreshes claimed_at exactly when the token is on the row and the row is unprocessed, and says which |
| Announcements.AnnouncementService.ReleaseStuck | src/announcements/services/announcement.service.ts:175-190 | frees exactly the unprocessed claims older than the threshold and reports how many |
| AnnouncementProtocol.InvStep | src/announcements/services/announcement.service.ts:42-190 | every step of every replica, failures and crashes included, keeps the protocol's invariant |
| AnnouncementProtocol.LifecycleOverEveryRun | src/announcements/services/announcement.service.ts:42-190 | over every run: exactly one lifecycle state, claimed_at null exactly with claim_token, counters that add up, at most one successful markCompleted, and attempt_count equal to the releases made by current claimants |
| AnnouncementProtocol.AtMostOneCompletion | src/announcements/services/announcement.service.ts:66-95 | in any legal history a row is completed at most once, and nothing but a poisoning follows |
| AnnouncementProtocol.ProcessedNeverReverts | src/announcements/services/announcement.service.ts:66-115 | rows never disappear, processed never reverts and attempt_count never falls |
| AnnouncementProtocol.TokenOrigin | src/announcements/services/announcement.service.ts:42-64 | a token on a row after a step was there before or was drawn by this very claim |
| AnnouncementProtocol.LostClaimStaysLost | src/announcements/services/announcement.service.ts:117-165 | a token that is off the table never returns to it |
| AnnouncementProtocol.LostOwnerWritesNothing | src/announcements/scheduler/announcement-scheduler.service.ts:99-129 | once superseded, and whatever happens meanwhile, a replica's heartbeat, completion and release change no row and lead to no poisoning |
| AnnouncementProtocol.HeartbeatAnswersTruly | src/announcements/services/announcement-dispatch.service.ts:112-140 | an answered heartbeat renews the lease and lets the dispatch go on exactly when the row is unprocessed and carries the replica's token; otherwise the replica stops and has changed nothing |
| AnnouncementProtocol.SupersededStopsAtItsNextAnswer | src/announcements/services/announcement-dispatch.service.ts:116-140 | so a superseded replica, whatever was done meanwhile, stops at its next answered heartbeat |
| AnnouncementProtocol.PoisonOnlyAtTheCap | src/announcements/scheduler/announcement-scheduler.service.ts:99-123 | markPoisoned is issued only for a row released at least three times by the claimants of the moment |
| AnnouncementFinality.ProcessedRowIsFinalIff | src/announcements/services/announcement.service.ts:97-115 | a processed row stays as it is over every run exactly when no replica is about to poison it |
| AnnouncementFinality.CompletedCountersAreFinalIff | src/announcements/services/announcement.service.ts:66-115 | its counters stay over every run exactly then, or when there is nothing in them to lose |
| AnnouncementFinality.PoisonerOrigin | src/announcements/scheduler/announcement-scheduler.service.ts:99-118 | no replica comes to poison a row that is already processed |
| AnnouncementLease.AtMostOneDispatcher | src/announcements/services/announcement-dispatch.service.ts:112-140 | if no dispatching owner lets its claim pass the stale age, no two replicas ever dispatch the same row |
| AnnouncementLease.ExclusionStep | src/announcements/services/announcement.service.ts:155-190 | every step keeps exclusion, given timely claims at the sweeps alone |
| AnnouncementLease.SweepSparesDispatchersIffTimely | src/announcements/services/announcement.service.ts:175-190 | a sweep leaves every dispatcher its claim if and only if all claims are timely |
| AnnouncementLease.StaleOwnerIsOvertaken | src/announcements/services/announcement.service.ts:42-64 | any idle replica can take a row over from a dispatching owner whose claim is stale, and both then dispatch it |
| AnnouncementLease.TakeoverIsSafeIffTimely | src/announcements/services/announcement.service.ts:167-190 | an idle replica's sweep and claim keep exclusion, whichever row they get, if and only if every dispatching owner's claim is timely |
| AnnouncementLease.LateHeartbeatBreaksExclusion | src/announcements/services/announcement.service.ts:167-190 | a run without timely heartbeats in which two replicas dispatch one row |
| AnnouncementLease.PoisonOverwritesACompletion | src/announcements/scheduler/announcement-scheduler.service.ts:104-123 | a run in which a poisoning zeroes the counters of a peer's completion |
| AnnouncementDispatch.TallyBalances | src/announcements/entities/announcement.entity.ts:113-119 | delivered, opted-out, no-channel and failed add up to the recipients, for any outcomes |
| AnnouncementDispatch.TallyAppend | src/announcements/services/announcement-dispatch.service.ts:90-110 | the counters of two lists in a row are the sums, with the first error of the first list that has one |
| AnnouncementDispatch.TallyCountsResponses | src/announcements/services/announcement-dispatch.service.ts:82-104 | over the responses themselves: delivered is the number that resolved as sent, opted out and no channel likewise, failed the number rejected or resolved as failed |
| AnnouncementDispatch.TallyKeepsFirstError | src/announcements/services/announcement-dispatch.service.ts:96-110 | the error is that of the first recipient whose response carries one, a rejection's message included; there is none only when no response does |
| AnnouncementDispatch.Chunk | src/notifications/common/chunk.ts:7-14 | the pieces concatenate to the list; all but the last have exactly the clamped size, none is empty |
| AnnouncementDispatch.CountOutcomes | src/announcements/services/announcement-dispatch.service.ts:90-110 | the loop over one batch extends the counts of all batches before it, which `TallyCountsResponses` reads off the responses |
| AnnouncementPacing.StepKeepsPace | src/announcements/services/announcement-dispatch.service.ts:76-154 | every step within the limits leaves each dispatching owner's claim no older than its failed heartbeats and finished batches account for |
| AnnouncementPacing.FastEnoughIsTimely | src/announcements/services/announcement-dispatch.service.ts:112-154 | at every moment, in a batch, at a heartbeat or before the completion, no such claim is stale when the cycles fit the threshold |
| AnnouncementPacing.PacedRunIsTimely | src/announcements/services/announcement-dispatch.service.ts:76-154 | so every run within the limits is a run of the protocol with timely claims throughout |
| AnnouncementPacing.FastEnoughIsExclusive | src/announcements/services/announcement-dispatch.service.ts:112-140 | and no two replicas ever dispatch the same row in it, failed heartbeats within the limit included |
| AnnouncementSlowPace.TooSlowBreaksExclusion | src/announcements/services/announcement-dispatch.service.ts:112-154 | whenever the cycles do not fit the threshold, a run within the limits ends with two replicas dispatching one row |
| AnnouncementSlowPace.ExclusiveIffFastEnough | src/announcements/services/announcement-dispatch.service.ts:112-154 | dispatch is exclusive over every run within the limits exactly when there is one replica or the cycles fit the threshold |
| AnnouncementDispatch.AnnouncementDispatchService.Heartbeat | src/announcements/services/announcement-dispatch.service.ts:116-140 | aborts exactly when the database answers that the claim is gone; a heartbeat that throws is ignored |
| AnnouncementDispatch.AnnouncementDispatchService.FanOut | src/announcements/services/announcement-dispatch.service.ts:76-141 | with the claim on the row the loop reaches the end with the tally of all recipients, beats after exactly every fifth batch but the last, and changes only claimed_at, to the last heartbeat that reached the row; it is lost exactly when the row is not its own and some heartbeat is answered |
| AnnouncementDispatch.AnnouncementDispatchService.Finish | src/announcements/services/announcement-dispatch.service.ts:143-160 | the owner's row is completed with the tally unless the completion fails before it lands; without the claim nothing changes |
| AnnouncementPacing.FanOutAges | src/announcements/services/announcement-dispatch.service.ts:76-141 | at the end of each batch the claimed_at that the loop has kept is as old as the heartbeats that failed since and the batches of the running cycle allow |
| AnnouncementPacing.FanOutStaysFresh | src/announcements/services/announcement-dispatch.service.ts:112-154 | a loop within the limits completes before that claimed_at goes stale |
| AnnouncementDispatch.AnnouncementDispatchService.Run | src/announcements/services/announcement-dispatch.service.ts:34-164 | the owner completes the row with the counts of all responses; a loser changes nothing and is told so by a heartbeat or the completion; unresolved recipients and a failing completion throw |
| AnnouncementScheduler.TotalBudgetFalls | src/announcements/scheduler/announcement-scheduler.service.ts:76-132 | the remaining attempts over unprocessed due rows fall when one row's do, which is what ends the drain |
| AnnouncementScheduler.ProgressStep | src/announcements/scheduler/announcement-scheduler.service.ts:76-132 | one dispatch lowers that row's remaining attempts, touches no other row and keeps the account of the drain |
| AnnouncementScheduler.AnsweredDispatchCompletes | src/announcements/scheduler/announcement-scheduler.service.ts:81-94 | a dispatch in a pass whose recipients resolve and whose completion answers leaves the row completed to the end of the pass, with the number of recipients, of each outcome among their responses, and the first error |
| AnnouncementScheduler.FailedDispatchIsRetried | src/announcements/scheduler/announcement-scheduler.service.ts:99-104 | a dispatch whose recipients cannot be resolved leaves the row pending with one attempt more, and it is dispatched again in the pass, while that makes fewer than three |
| AnnouncementScheduler.FateOfDueRow | src/announcements/scheduler/announcement-scheduler.service.ts:76-132 | every row due at the start of a pass ends completed by one of its own dispatches, or with zero counters once its attempts come to three or more, all of them failed, or still claimed because a release of it failed |
| AnnouncementScheduler.FirstPassSettles | src/announcements/scheduler/announcement-scheduler.service.ts:69-132 | a drained sweep has processed every row that was due or stuck at its start, or a release of it failed in a dispatch that was made |
| AnnouncementScheduler.ChainSettles | src/announcements/scheduler/announcement-scheduler.service.ts:69-141 | however many passes follow one another, nothing is claimable at the end, no row is lost, and every row due at the start is processed or a release of it failed in one of them |
| AnnouncementScheduler.TickDecidesFate | src/announcements/scheduler/announcement-scheduler.service.ts:55-147 | over all passes of a tick a row that was unprocessed is unprocessed still, completed by one of its own dispatches, or out of contention with at least three attempts |
| AnnouncementScheduler.TickKeepsCompletions | src/announcements/scheduler/announcement-scheduler.service.ts:55-147 | the counters that an answered dispatch of any pass writes are on the row at the end of the tick |
| AnnouncementScheduler.AnnouncementSchedulerService.ReleaseOrPoison | src/announcements/scheduler/announcement-scheduler.service.ts:99-129 | the owner's row comes back pending with one attempt more, or with the third is processed with zero counters; a failing release and anybody else's row change nothing |
| AnnouncementScheduler.AnnouncementSchedulerService.DispatchClaimed | src/announcements/scheduler/announcement-scheduler.service.ts:77-130 | one claimed row ends up completed with the tally of exactly its recipients when the dispatch answers, given back as `ReleaseOrPoison` does when it throws, or still claimed because its release failed |
| AnnouncementScheduler.AnnouncementSchedulerService.Drain | src/announcements/scheduler/announcement-scheduler.service.ts:76-132 | terminates with nothing claimable, by a sequence of dispatches of an earliest due row each, and each leaves what its answers call for: the row completed, given back, or still claimed; `FateOfDueRow` says how due rows end |
| AnnouncementScheduler.AnnouncementSchedulerService.DrainWhilePending | src/announcements/scheduler/announcement-scheduler.service.ts:69-141 | such passes follow each other, each finding what the one before left, for as long as ticks arrive and at most 100 times |
| AnnouncementScheduler.AnnouncementSchedulerService.Tick | src/announcements/scheduler/announcement-scheduler.service.ts:55-147 | a tick during another only leaves its mark; otherwise such a pass for the tick and one for each wake-up, at most 100, with the table drained by the last and every row due at the start processed unless a release made in these passes failed |
| TickCoalescing.InvStep | src/announcements/scheduler/announcement-scheduler.service.ts:55-147 | every step keeps the agreement between the flags, the await and the history |
| TickCoalescing.EveryTickIsServed | src/announcements/scheduler/announcement-scheduler.service.ts:55-147 | at rest, every tick that ever arrived was followed by a whole pass that began after it, or by the cap or a failed claim |
| TickCoalescing.ServedMeansAWholePass | src/announcements/scheduler/announcement-scheduler.service.ts:69-132 | a served tick has a pass that starts and ends after it with only arrivals in between |
| TickCoalescing.AbandonedMeansCapOrFailure | src/announcements/scheduler/announcement-scheduler.service.ts:135-144 | a tick is abandoned only by the pass cap or a claim that threw |
| TickCoalescing.NoTwoDrains | src/announcements/scheduler/announcement-scheduler.service.ts:59-68 | running holds exactly while a pass is open, its budget is never used up, and a tick then only sets pending |
| TickCoalescing.DrainGoesOnIff | src/announcements/scheduler/announcement-scheduler.service.ts:131-147 | when a pass finds nothing more, another follows exactly when a tick arrived since it started and the cap is not reached; a pass without one is the last |
| TickCoalescing.PassHasItsTick | src/announcements/scheduler/announcement-scheduler.service.ts:59-70 | between any pass and the one before it a tick arrived |
| TickCoalescing.NoMorePassesThanTicks | src/announcements/scheduler/announcement-scheduler.service.ts:55-147 | over every run there are at most as many passes as ticks |
| FeedCursor.RoundTrip | src/feed/feed-cursor.util.ts:30-78 | decoding an encoded cursor gives it back exactly when it is finite and not negative, and is refused otherwise |
| FeedCursor.OtherSortRefused | src/feed/feed-cursor.util.ts:49-55 | a cursor of one sort is refused by the other |
| FeedCursor.DecodedCursorsAreIssuable | src/feed/feed-cursor.util.ts:34-78 | whatever is accepted has the requested sort and re-encodes to itself |
| FeedCursor.NoCursorStartsOver | src/feed/feed-cursor.util.ts:34-47 | no parameter means the first page, and one that does not parse is refused |
| FeedCursor.LatestAcceptsExactly | src/feed/feed-cursor.util.ts:49-78 | a latest cursor is accepted exactly with its sort, a finite time and a list of strings if there is a list, and read as these |
| FeedCursor.HotAcceptsExactly | src/feed/feed-cursor.util.ts:49-78 | a hot cursor exactly with its sort and a finite offset of at least 0 |
| FeedCursor.RefusalNamesTheSort | src/feed/feed-cursor.util.ts:49-78 | the message names the sort asked for exactly when the cursor is for no or another sort |
| FeedQuery.QueryBuilder.ApplyCursorFilter | src/feed/feed.controller.ts:274-305 | narrows the query to older rows and unserved rows at the cutoff, and to nothing less or more |
| FeedQuery.VisibleRowsAreOnTheFeed | src/feed/feed.controller.ts:203-260 | what the queries can select is exactly the unhidden posts, the listed tokens, and the buys and sells with a listed token of their sale address in the table |
| FeedQuery.FetchPosts | src/feed/feed.controller.ts:203-215 | the query selects exactly the posts not hidden that are older than the cursor, or unserved at it, newest first, up to the limit |
| FeedQuery.FetchTokenCreations | src/feed/feed.controller.ts:217-235 | the same for tokens not unlisted |
| FeedQuery.FetchTrades | src/feed/feed.controller.ts:237-260 | the same for buys and sells whose sale address has a token row that is not unlisted |
| FeedPage.ClampLimit | src/feed/feed.controller.ts:90 | the limit used is the nearest in 1 to 50 |
| FeedPage.FetchedIsAnswer | src/feed/feed.controller.ts:139-143 | whatever the database returns for such a query is the newest open items of that source |
| FeedPage.SortSorts | src/feed/feed.controller.ts:145-167 | the merged candidates are newest first |
| FeedPage.SortPermutes | src/feed/feed.controller.ts:145-167 | merging loses and repeats nothing |
| FeedRun.SeenAtCutoff | src/feed/feed.controller.ts:181-198 | an id is carried exactly when its item was served at the cutoff, on this page or an earlier one |
| FeedRun.PageIsTheNewest | src/feed/feed.controller.ts:145-179 | an open item not on the page is no newer than any item on it, and then the page is full |
| FeedRun.LeftBehind | src/feed/feed.controller.ts:169-198 | an open item not on the page is no newer than the cutoff, and there is a next cursor |
| FeedRun.CursorExcludesServed | src/feed/feed.controller.ts:179-198 | nothing served on this page or excluded before can appear under the next cursor |
| FeedRun.CursorKeepsTheRest | src/feed/feed.controller.ts:169-201 | everything open that is not on the page is open under the next cursor |
| FeedRun.ServedOnce | src/feed/feed.controller.ts:132-201 | no item is served twice over a run, whatever changes between pages |
| FeedRun.ServedNewestFirst | src/feed/feed.controller.ts:132-201 | times never increase over a whole run |
| FeedRun.ServedOrStillOpen | src/feed/feed.controller.ts:132-201 | an item present throughout is at every point served or still ahead of the cursor |
| FeedRun.ServedWasOnTheFeed | src/feed/feed.controller.ts:203-260 | whatever is served over a run was a shown post, a listed token or a trade of one in the database of one of the visits |
| FeedRun.UnlistedTradeIsNeverServed | src/feed/feed.controller.ts:237-260 | a trade whose token is unlisted at every visit is never served |
| FeedRun.FeedServesEverythingOnce | src/feed/feed.controller.ts:132-305 | for any changes between pages: no id twice, times never increase, and a null cursor means every item present throughout was served exactly once |
| FeedRun.FixedFeedIsPagedCompletely | src/feed/feed.controller.ts:132-305 | on a fixed set of N items a null cursor comes within N + 1 pages and means exactly the set was served |
| PnlModel.LatestQuoteIsLatest | src/account/services/bcl-pnl.service.ts:1153-1172 | the unit price is that of a priced transaction of the token up to the height that none is newer than; there is none only when there is no such transaction |
| PnlModel.MapRowsIgnoresOrder | src/account/services/bcl-pnl.service.ts:1189-1274 | the mapped result does not depend on the order in which the database returns the rows |
| PnlQueries.BatchGroupIsRepeatedGroup | src/account/services/bcl-pnl.service.ts:499-506 | joining with the heights repeats each single-height group as often as the height is asked for |
| PnlQueries.BatchGroupIsGroup | src/account/services/bcl-pnl.service.ts:356-543 | with distinct heights each batch group is exactly the single-height group |
| PnlQueries.AddressGroupIsRepeatedGroup | src/account/services/bcl-pnl.service.ts:612-706 | the same for the join that also groups by address |
| PnlQueries.AddressGroupIsGroup | src/account/services/bcl-pnl.service.ts:560-745 | with distinct heights each address group is exactly that address's single-height group |
| PnlQueries.RepeatedHeightDoublesTheSums | src/account/services/bcl-pnl.service.ts:84-94 | without removing duplicates a height asked for twice would double every sum |
| PnlService.MapTokenPnl | src/account/services/bcl-pnl.service.ts:1201-1290 | one row's invested, value, gain and percentage in both branches, as the figures that `ReturnsAddUp` and `GainsAgree` are about |
| PnlService.MapTokenPnls | src/account/services/bcl-pnl.service.ts:1189-1314 | the accumulating loop computes the entries and the totals over all rows |
| PnlService.GroupByHeight | src/account/services/bcl-pnl.service.ts:986-998 | every requested height gets its own rows in order, rows of other heights are dropped |
| PnlService.MapTokenPnlsBatchForAddresses | src/account/services/bcl-pnl.service.ts:757-794 | every requested address and height gets the mapping of exactly its own rows |
| PnlService.SingleAnswerMapsToReference | src/account/services/bcl-pnl.service.ts:1007-1177 | any answer to the single-height query maps to the reference |
| PnlService.CalculateTokenPnls | src/account/services/bcl-pnl.service.ts:55-68 | the single-height computation is the reference for that address and height, whose figures `PnlFigures` reads off the table |
| PnlService.CalculateTokenPnlsBatch | src/account/services/bcl-pnl.service.ts:79-96 | the height batch gives the reference for each requested height, repeated or not, with and without a start height, whose figures `PnlFigures` reads off the table |
| PnlService.CalculateTokenPnlsBatchForAddresses | src/account/services/bcl-pnl.service.ts:112-138 | the address batch gives the reference for each requested address and height, whose figures `PnlFigures` reads off the table |
| PnlFigures.ColumnsAreSums | src/account/services/bcl-pnl.service.ts:1009-1140 | every aggregate column is the sum of one amount over the transactions its WHEN selects: volume, AE or USD, of the buys or the sells, from the start height or from ever, below the height |
| PnlFigures.DailyColumnsAreSums | src/account/services/bcl-pnl.service.ts:797-905 | the same for the daily columns: purchases since ever, sells from the window's start to the snapshot |
| PnlFigures.UnitPriceIsTheLast | src/account/services/bcl-pnl.service.ts:1153-1172 | the unit price in a currency is that of the last transaction of the token priced in it up to the height, 0 without one |
| PnlFigures.PriceByIsTheLast | src/account/services/bcl-pnl.service.ts:919-938 | the same before a snapshot |
| PnlFigures.ListedIff | src/account/services/bcl-pnl.service.ts:1137-1176 | a token has an entry exactly when the address traded it below the height and holds some of it, or bought or sold some since the start height |
| PnlFigures.CumulativeFiguresOfToken | src/account/services/bcl-pnl.service.ts:1228-1300 | invested is the sum spent, the current value what is held at the unit price, the gain the proceeds and that value less the sum spent, each in AE from AE amounts and in USD from USD amounts |
| PnlFigures.RangeFiguresOfToken | src/account/services/bcl-pnl.service.ts:1228-1300 | from a start height, invested is the average cost, over all purchases, of the units sold since, and the gain their proceeds less that |
| PnlFigures.DailyListedIff | src/account/services/bcl-pnl.service.ts:939-941 | a token is in a window's result exactly when it was traded before the snapshot and is held, was ever bought, or was sold in the window |
| PnlFigures.DailyFiguresOfToken | src/account/services/bcl-pnl.service.ts:1228-1300 | and its figures are those of a range with the sells of the window and the purchases since ever |
| PnlFigures.ReferenceTotalsAreSums | src/account/services/bcl-pnl.service.ts:1275-1314 | each total of the result is the sum of that figure over the tokens that have an entry |
| PnlAccounting.RangeFromZeroIsEverything | src/account/services/bcl-pnl.service.ts:1007-1140 | a range from height 0 restricts nothing, and holdings are what was bought less what was sold |
| PnlAccounting.CostIsConserved | src/account/services/bcl-pnl.service.ts:1247-1260 | what was sold and what is held, at average cost, is what was spent, unless nothing was bought |
| PnlAccounting.GainsAgreeOnPricedPurchases | src/account/services/bcl-pnl.service.ts:1228-1274 | the identity holds on every history in which each purchase of the token minted something or cost nothing |
| PnlAccounting.GainsDisagreeOnAnEmptyPurchase | src/account/services/bcl-pnl.service.ts:1247-1274 | it fails on every history of a priced purchase without volume and a sale |
| PnlAccounting.StoredPurchaseIsPricedIff | src/transactions/services/transaction.service.ts:218-241 | a stored purchase has a price off its volume exactly when the last mint of a paid purchase is zero |
| PnlAccounting.ReturnsAddUp | src/account/services/bcl-pnl.service.ts:1228-1290 | gain and invested add up to the proceeds, plus the value held for a cumulative result; the percentage is the gain on what was invested |
| PnlAccounting.TotalReturnsAddUp | src/account/services/bcl-pnl.service.ts:1189-1314 | the totals balance in the same way over any rows |
| PnlAccounting.ReferenceLooksUp | src/account/services/bcl-pnl.service.ts:1189-1274 | a reported token's entry is computed from exactly its own transactions |
| PnlAccounting.GainsAgree | src/account/services/bcl-pnl.service.ts:1228-1274 | cumulative gain is realized gain from height 0 plus current value less the average cost of holdings, exactly when some volume was bought or nothing was spent |
| PnlDaily.WindowsTile | src/account/services/portfolio.service.ts:229-236 | a time between the first and the last snapshot lies in exactly one window, any other in none |
| PnlDaily.SellsSplit | src/account/services/bcl-pnl.service.ts:869-901 | sells of two adjacent ranges add up to the sells of the whole range |
| PnlDaily.WindowsConserveSells | src/account/services/bcl-pnl.service.ts:140-150 | the windows together realize exactly the sells between the first and the last snapshot |
| PnlDaily.RowsStayInTheirWindowIffWellSpaced | src/account/services/bcl-pnl.service.ts:954-968 | every snapshot's own rows stay with it exactly when different snapshots are more than a second apart |
| PnlDaily.DriftIsTolerated | src/account/services/bcl-pnl.service.ts:957-961 | a drift of up to a second is harmless when snapshots are further apart than it and the tolerance together |
| PnlDaily.GenerateTimestamps | src/account/services/portfolio.service.ts:438-447 | the snapshots are the start and every interval after it, up to the end, the present or the limit, and no fewer |
| PnlDaily.GeneratedAreWellSpacedIff | src/account/services/bcl-pnl.service.ts:957-965 | for generated snapshots the tolerance is right exactly when they are more than a second apart or there is only one |
| PnlDaily.CallersAreWellSpaced | src/account/controllers/accounts.controller.ts:360-418 | every interval the endpoints serve is safe, with room for a second of drift |
| PnlDaily.FinalIntervalMs | src/account/controllers/accounts.controller.ts:360-418 | the interval served is the one asked for, or a day if none is, but at least the minimum |
| PnlDaily.RowsMatchedAreOwn | src/account/services/bcl-pnl.service.ts:954-968 | with well-spaced snapshots, what is grouped under a snapshot is exactly its rows |
| PnlDaily.GroupBySnapshot | src/account/services/bcl-pnl.service.ts:949-968 | every snapshot gets the rows whose first snapshot within a second it is; rows near none are dropped |
| PnlDaily.MapDailyPnlBatch | src/account/services/bcl-pnl.service.ts:945-976 | each snapshot maps to the range-based result of the rows grouped under it |
| PnlDailyQuery.LatestQuoteByIsLatest | src/account/services/bcl-pnl.service.ts:919-938 | the unit price is that of a priced transaction before the snapshot that none is newer than |
| PnlDailyQuery.DailyGroupIsItsWindow | src/account/services/bcl-pnl.service.ts:797-905 | with distinct snapshots each group of the query is exactly its window's transactions of the token |
| PnlDailyQuery.DailyAnswerMapsToReference | src/account/services/bcl-pnl.service.ts:796-976 | whatever order and drift the rows come back in, those read under a snapshot map to the reference of its window |
| PnlDailyQuery.CalculateDailyPnlBatch | src/account/services/bcl-pnl.service.ts:152-170 | every snapshot is in the result, with the figures of its own window when snapshots are further apart than tolerance and drift |
| PnlDailyQuery.WindowRowSells | src/account/services/bcl-pnl.service.ts:866-901 | the restricted columns of a row are the sells of its window |
| PnlDailyQuery.WindowReturnsItsSellsIff | src/account/services/bcl-pnl.service.ts:1228-1260 | gain and invested of a token in a window are what its sells there brought in exactly when the query lists the token or they brought in nothing |
| PnlDailyQuery.CalendarAccountsForEverySale | src/account/services/portfolio.service.ts:229-236 | over a range of snapshots, what the calendar returns and what the query drops are together what the sells between the first and the last brought in: none lost, none twice |
| PnlDailyQuery.CalendarReturnsEverySaleIff | src/account/services/bcl-pnl.service.ts:939-941 | the calendar returns all of it exactly when nothing is dropped, and nothing is when every sale has a volume |
| WorkerPool.WorkerCount | src/utils/concurrency.util.ts:19 | the pool is as large as the clamped concurrency and the items allow |
| WorkerPool.PullKeepsInv | src/utils/concurrency.util.ts:21-26 | pulling an index keeps the pool's invariant: in-flight indices distinct, nothing dropped, no worker idle while items wait |
| WorkerPool.SettleKeepsInv | src/utils/concurrency.util.ts:27-29 | storing a value, or ending on a rejection, keeps it too |
| WorkerPool.EveryMoment | src/utils/concurrency.util.ts:18-31 | at every moment of every interleaving: no more mappers in flight than the clamped concurrency, on different indices, and the mapper called on 0, 1, 2, ... once each, on every item by an end without rejection |
| WorkerPool.MapWithConcurrency | src/utils/concurrency.util.ts:7-32 | every call is such an interleaving, run to its end; it resolves exactly when no index rejects, then to the mapped items in order, and otherwise rejects with one of the mapper's errors |
| RateLimit.EachClientAlone | src/api-core/guards/rate-limit.guard.ts:25-60 | over a clock that never runs backwards, pruning and other clients never change a decision |
| RateLimit.EachWindowAdmitsAtMostTheCap | src/api-core/guards/rate-limit.guard.ts:39-59 | the stored count is the number of calls admitted in the open window, at most the cap, or one when the cap is 0 |
| RateLimit.CapZeroActsAsOne | src/notifications/notifications.gateway.ts:163-172 | a limiter with a cap of 0 decides as one with a cap of 1 |
| RateLimit.RefusedIffWindowIsFull | src/api-core/guards/rate-limit.guard.ts:37-59 | a call is refused exactly when the window an earlier call opened is still open and has let the cap through |
| RateLimit.AnyMinuteAdmitsUnderTwiceTheCap | src/notifications/notifications.gateway.ts:153-173 | any closed 60-second interval lets a client through at most 2 * cap - 1 times, with a cap of 0 counted as 1 |
| RateLimit.NoClientExceedsTheBudget | src/api-core/guards/rate-limit.guard.ts:25-80 | the same for the limiter as written, pruning included, over any calls of any clients |
| RateLimit.BoundIsReached | src/api-core/guards/rate-limit.guard.ts:17-46 | for every cap some calls reach that bound |
| RateLimit.RetryAfterSufficesIff | src/api-core/guards/rate-limit.guard.ts:48-59 | a client that waits out retryAfter is let in exactly when the window did not have whole seconds left |
| RateLimit.RateLimiter.Cleanup | src/api-core/guards/rate-limit.guard.ts:73-80 | deletes exactly the expired entries |
| RateLimit.RateLimiter.CanActivate | src/api-core/guards/rate-limit.guard.ts:25-61 | admits, denies with the rounded-up seconds left, and charges the caller's entry alone |
| RateLimit.Serve | src/api-core/guards/rate-limit.guard.ts:25-61 | the limiter's decisions over a sequence of calls are those the lemmas speak of |
| SocketSlots.InvStep | src/notifications/notifications.gateway.ts:73-150 | every step of every socket keeps the counters equal to the slots held |
| SocketSlots.SlotsAdvanceEachStep | src/notifications/notifications.gateway.ts:111-150 | a slot is taken once and released once at most, for the address it was taken for |
| SocketSlots.LeakStep | src/notifications/notifications.gateway.ts:112-133 | a step leaks a slot exactly when it is a join that succeeds for a socket already gone |
| SocketSlots.LeaksIffJoinedAfterDrop | src/notifications/notifications.gateway.ts:112-142 | over every run a slot is leaked exactly when that happened, and stays so |
| SocketSlots.CounterIsLiveSockets | src/notifications/notifications.gateway.ts:73-150 | without such a join, the counter is at every moment the number of sockets joining or joined, at most the cap, and zero is never stored |
| SocketSlots.SlotGrantedIffRoom | src/notifications/notifications.gateway.ts:93-111 | a resolved session gets a slot exactly when its socket is still open and fewer sockets than the cap hold one |
| SocketSlots.AllSlotsComeBack | src/notifications/notifications.gateway.ts:125-150 | then, once all sockets are gone and all handlers over, the map is empty |
| SocketSlots.CounterIsLivePlusLeaked | src/notifications/notifications.gateway.ts:73-150 | in every run the counter is the live sockets plus the leaked slots |
| SocketSlots.FullOfLeaksShutsOut | src/notifications/notifications.gateway.ts:104-109 | an address with as many leaked slots as the cap gets no further socket |
| SocketSlots.ADropDuringTheJoinLeaks | src/notifications/notifications.gateway.ts:111-122 | a run of four steps that leaks |
| NotificationsGateway.SocketGateway.ReleaseSlot | src/notifications/notifications.gateway.ts:143-150 | counts down and removes the entry at zero |
| NotificationsGateway.SocketGateway.HandleDisconnect | src/notifications/notifications.gateway.ts:134-140 | a disconnect releases a slot only for a socket that had joined |
| NotificationsGateway.SocketGateway.HandleConnection | src/notifications/notifications.gateway.ts:73-89 | a handshake over the cap or without a token is closed at once and takes no slot |
| NotificationsGateway.SocketGateway.AfterSession | src/notifications/notifications.gateway.ts:90-111 | after the session lookup: close, stop, refuse at the cap, or take one slot and start joining |
| NotificationsGateway.SocketGateway.AfterJoin | src/notifications/notifications.gateway.ts:112-132 | a join that succeeds marks the socket as the slot's owner, one that fails gives the slot back |
| BlockHeight.PreviousHeightCancelsOut | src/utils/getBlochHeight.ts:263-280 | the estimate made from a previous height does not depend on it |
| BlockHeight.GuessFromTipSkipsWholeIntervals | src/utils/getBlochHeight.ts:283-294 | for a target before the tip the linear estimate is the tip less the whole intervals between them, and never below block 1 |
| BlockHeight.GuessIsInReach | src/utils/getBlochHeight.ts:263-315 | without a previous height the window around the estimate is never empty; with one it is exactly when the estimate, which hangs on the median interval, lies half a window or more below height 1 |
| BlockHeight.GuessAtMostTop | src/utils/getBlochHeight.ts:263-294 | for a target before the tip neither estimate lies above the chain |
| BlockHeight.Window | src/utils/getBlochHeight.ts:296-315 | the window lies on the chain unless the clamps cross |
| BlockHeight.SearchHeight | src/utils/getBlochHeight.ts:309-357 | whatever requests fail, every height above the result in the window is later than the target; with none failing the result is at or before the target or 1; a window wholly above the chain or more than two heights below 0 fails, and one that ends just below 1 gives the outcome spelled out |
| BlockHeight.SearchIsExactIff | src/utils/getBlochHeight.ts:209-216 | the result is the greatest height at or before the target exactly when there is one and it is not above the window |
| BlockHeight.FoundIffFindable | src/utils/getBlochHeight.ts:209-216 | whatever the estimate, the search has found the greatest height at or before the target exactly when there is one, it is not above the window, and the window is not more than two heights below 0 |
| BlockHeight.FoundIffNearEnough | src/utils/getBlochHeight.ts:224-357 | without speaking of the estimate or the window: the sought block is found exactly when the tip is at most as many intervals after the target as there are blocks from it to the tip and half a window, with the cases at the start of the chain |
| BlockHeight.TimestampToAeHeight | src/utils/getBlochHeight.ts:224-357 | the same for the whole function without a database, with half windows of 40 and 240 blocks, for every target before the tip: in particular the sought block is found on every chain that nowhere falls behind one block per interval by more than half a window; it throws when the window lies further below, and gives the top height for a target at or after the tip |
| BlockHeight.FastRecentBlocksMissTheChain | src/utils/getBlochHeight.ts:267-280 | a target well inside the chain for which the estimate made from a previous height is negative and the block is not found |
| Drawdown.FallGrowsWithPeak | src/account/services/leaderboard.service.ts:542-548 | the fall to a value is deepest from the highest earlier value |
| Drawdown.LargestFallIsUnique | src/account/services/leaderboard.service.ts:537-552 | a series has one largest fall |
| Drawdown.LargestFallMeaning | src/account/services/leaderboard.service.ts:537-552 | it lies in [0, 1], is 0 exactly for a series that never falls and 1 exactly for one that loses everything |
| Drawdown.MaxDrawdown | src/account/services/leaderboard.service.ts:538-549 | the one-pass loop computes the largest fall over all ordered pairs of the zero-clamped series |
| Drawdown.CalculateMaxDrawdownPct | src/account/services/leaderboard.service.ts:537-552 | in percent it lies in [0, 100], is 0 exactly for a series that never falls and 100 exactly for one that loses everything; no value is below an earlier one by more than that percentage of it, and if not 0 some value is by exactly that |
| PriceHistory.FetchedPricesWin | src/ae-pricing/services/coin-historical-price.service.ts:284-305 | at each timestamp the fetched price wins and stored ones fill in the rest |
| PriceHistory.MergePriceData | src/ae-pricing/services/coin-historical-price.service.ts:290-311 | the merge has strictly increasing timestamps and exactly those prices |
| PriceHistory.FindClosestHistoricalPrice | src/account/services/portfolio.service.ts:584-607 | on a descending history the search returns the first price at or before the target, or the fallback when there is none |
| PriceHistory.PriceAt | src/account/services/portfolio.service.ts:541-607 | merged, reversed and searched: the merged price at the latest timestamp not after the target, or the fallback |
| PriceHistory.MissingRangesMeaning | src/ae-pricing/services/coin-historical-price.service.ts:221-282 | the ranges before, between and after the stored timestamps are disjoint and in order, and hold exactly the requested times that have no data and lie in no gap of up to an hour |
| PriceHistory.GetMissingDataRanges | src/ae-pricing/services/coin-historical-price.service.ts:221-282 | the loop that collects them returns ranges with that meaning |
| Preferences.BelowIsTotal | src/notifications/notifications.constants.ts:51 | the order on type ids is total and strict |
| Preferences.BelowIffFirstDifference | src/notifications/notifications.constants.ts:51 | one id is below another exactly when it has the smaller character, or ends, where they first differ |
| PreferenceStrings.CanonicalReadsBack | src/notifications/notifications.constants.ts:47-55 | the canonical string can be read back to the sorted list, for ids without `=0;` and `=1;` |
| PreferenceStrings.SameStringIffPermutation | src/notifications/notifications.constants.ts:47-55 | with distinct ids, none of which reads as two entries in order, two lists share a string exactly when they are permutations |
| PreferenceStrings.CleanIsUnsplittable | src/notifications/notifications.constants.ts:38-46 | no id without `=0;` and `=1;` reads so |
| PreferenceStrings.SplittableCollides | src/notifications/notifications.constants.ts:50-53 | every id that reads so shares its string with those two entries |
| PreferenceStrings.StringIsUniqueIffUnsplittable | src/notifications/notifications.constants.ts:38-55 | one preference shares its string with no other list of distinct ids if and only if its id does not read so |
| PreferenceStrings.SemicolonsCollide | src/notifications/notifications.constants.ts:38-46 | a pair of such lists within the characters the rule allows |
| PreferenceRepeats.OrderIsImmaterialIffFlagsAgree | src/notifications/notifications.constants.ts:50-53 | every permutation of a list has its string if and only if no id is listed with both flags |
| PreferenceRepeats.SwappedFlagsDiffer | src/notifications/notifications.constants.ts:50-53 | two entries of one id with different flags, swapped, give different strings |

## Left out

- Network, Redis, Bull, TypeORM, socket.io and chain SDK calls: each is an atomic step or an arbitrary answer.
- AnnouncementScheduler.AnnouncementSchedulerService.ReleaseOrPoison: the error of a poisoned row is the fixed text "dispatch crashed"; the number of attempts and the message that follow it are not modelled.
- Database clocks: one clock serves all replicas, although claims use the database's and `releaseStuck` the process's.
- A crashed replica that resumes: a crash forgets the claim, as a process restart does.
- AnnouncementScheduler.AnnouncementSchedulerService.Drain: one replica, nothing becomes due during the pass, poison writes succeed and a failing release has no effect; without the last two a row can be claimed and dispatched again without bound.
- AnnouncementScheduler.AnnouncementSchedulerService.Tick: a whole call on one table, so claim queries do not throw in it; `TickCoalescing` has the throwing claim and the interleaving.
- Recipient dedup in Redis and the notification channels: a recipient's outcome is an arbitrary value.
- The hot feed, its ranking, and the cache in front of the endpoint.
- FeedRun.FeedServesEverythingOnce: timestamps are whole milliseconds, the precision of the cursor, and ids do not repeat across the three sources, as the cursor's own comment says.
- SHA-256, base64url and JSON text: cursors and preference lists are modelled as values.
- Floating-point rounding: money, volumes, intervals and prices are exact reals.
- PnlModel.LatestQuoteIsLatest: transactions with equal height and time are ordered by table position, where the database may pick any.
- PnlDailyQuery.CalculateDailyPnlBatch: snapshot times in whole milliseconds; the conversion to seconds and back is a drift of up to a second.
- AnnouncementSlowPace.ExclusiveIffFastEnough: a statement takes effect and is answered at one moment, and the way of its answer counts towards the next batch.
- Trading statistics, leaderboard ordering and sampling, trending scores and ranking weights.
- RateLimit.RateLimiter.CanActivate: the client id is a given string; how it is made from the address and route is not modelled.
- WorkerPool.MapWithConcurrency: the mapper settles to a value that depends on the item and the index only; concurrency is an integer.
- BlockHeight.TimestampToAeHeight: the early return of a database guess, the caches, and the rounding of old targets to the end of their day are not modelled; the median interval is a parameter.
- PriceHistory.GetMissingDataRanges: the query's failure path, which reports the whole range as missing.
- PreferenceStrings.SameStringIffPermutation: characters compare by code point, which for the printable ASCII the source requires is the comparison it uses.
- Session lookups: the resolved address is arbitrary; a lookup that throws leaves the socket open without a slot.
