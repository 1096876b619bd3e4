# Verified model of rss2discord's delivery core

rss2discord-operator watches RSS and Atom feeds and posts each new entry to a Discord webhook. It
keeps, per feed, a watermark, a pruned map of keys of entries already handled, cache validators, a
retry counter and a backoff deadline, and from these decides at every reconcile what to fetch, what
to send and when to look again. The modules here model that bookkeeping and prove what it is for:
entries are delivered once and in order however fetches, renders and sends fail in between, nothing
is lost when identities change, and the helpers that take shortcuts agree with the simple forms
they stand in for.

Where the program updates fields in place, the model is a class with those fields (`FeedStatus`,
`DeliveryLedger`, `FeedSync`, `RateLimiter`, `NsTexts`, `AtomLinks`) or a method with the
program's loop, proved against a specification function; the theorems are about those functions.

## Layout

| modules | models |
|---|---|
| `Basics`, `Identities`, `Statuses`, `Pruning` | what is shared, entry identities, a feed's stored status, the cap on recorded keys |
| `Ledgers`, `Migrations`, `KeyMoves`, `Handovers` | the identity index of one fetch, the migration of stored identities, and what it does to entries still to be delivered |
| `Backoffs`, `Retries`, `Attempts`, `RetryHistories` | backoff arithmetic, retry runs, recording of outcomes, and which statuses are reachable |
| `Plans`, `Fetches`, `Deliveries`, `FeedSyncs` | the catch-up plan, the order of entries, the send loop, one sync with its panic handling |
| `Scans`, `Rooms` | what one scan does to the list of entries to be delivered, and the room it needs in the dedup map |
| `FeedRuns`, `Reachable`, `OnceOnly`, `RoomExact`, `Windows`, `Recognition`, `Skips`, `BrokenEntries`, `Panics`, `Revalidation`, `Outcomes` | theorems over whole syncs and runs of syncs |
| `Witnesses`, `TakenKeys`, `PrunedKeys` | concrete fetches on which a stronger reading fails |
| `Schedules`, `Reconciles`, `RateLimitWaits` | which feeds a reconcile fetches, the fold over a group, the wait before the next, and what a rate limit does to it |
| `RateLimits`, `Fitting`, `PreviousIds`, `Retention` | the shared rate limiter, message limits, the previous-identity check, retained XML elements |

## Main results

- **Once and in order.** `FeedRuns.RetriesDeliverOnceInOrder`: over any number of syncs of one
  document, with arbitrary results of every fetch, render and send, configuration errors and
  panics at any step, the handled entries are a prefix of the first plan's to-do list, each once;
  after a sync that closes accounted for, all of them were handled and nothing is handled again.
  The two conditions it needs are exact: `OnceOnly.DeliversOnceIffUndisturbing` for the document, by
  its identities alone, and `RoomExact.DeliversFromIffRoom` for the status, by counting recorded
  keys. `FeedRuns.AcceptedSyncDeliversAll` is the progress side: one sync without failures finishes
  the list.
- **Changing documents.** `Windows.SlidingFeedLosesNothing`: along a feed that only shows a window of
  a growing list, nothing behind the watermark is lost or sent twice. `Recognition.HandledAtMostOnce`
  and `Recognition.RotatedLinkReadsAsSent`: over any syncs of any documents a handled entry is not
  handled again, and a link whose fragment or ref rotated is recognised, until the record is moved or
  pruned; `Recognition.NotAgainUntilFiftyMore`: which is no sooner than 50 keys later.
- **Identity migration.** `Migrations.MigrationIsExact` says exactly which entries read as sent
  afterwards and since when. `Migrations.LosesNothingIffNothingTaken` and
  `KeyMoves.IdempotentIffMovesComeToRest` give the exact conditions, each decided by the fetch
  alone, for the migration to lose nothing and for a second pass to change nothing.
- **Cache validators.** `Revalidation.UnsettledDocumentIsRefetched`: a document left unsettled is
  never hidden behind a 304 by a server that follows section 13.1.2 of RFC 9110.
- **Inferred phase.** `RetryHistories.ReachablePhaseIsExact`: the phase that is read from the
  Reachable condition is, over every run of reconciles, the phase a stored field would hold.
- **Skips.** `BrokenEntries.RenderingEntryIsDelivered`: entries that never render do not hold back the
  ones behind them for longer than their retries. `Skips.SyncSkipsAtMostOne` and
  `Skips.BrokenTemplatesHoldTheFeed`: nothing is skipped sooner, or while nothing renders.
- **Waiting.** `RateLimitWaits.RateLimitIsWaitedOut`: from Discord's answer to the group's wait.
  `Outcomes.FailedFetchIsHeldBack`: from a permanent failure to the first fetch after it.
  `RateLimits.AskIsSafe` and `RateLimits.NotedWaitIsKept`: the limiter that concurrent senders share.
- **Panics.** `Panics.PanicIsSafe`.
- **Shortcuts agree with simple forms.** `Ledgers.DeliveryLedger.RecordOf`,
  `PreviousIds.SkippingTheSecondReadingIsSound`, `Retention.PickingFromRetainedIsExact`,
  `Retention.RetainedLinksAreEnough`, `Fitting.FitIsExact`, `Backoffs.BackoffIsCappedExponential`.

## Where the code and its comments differ

- The comment of `migratePreviousIdentities` (internal/controller/identity_migration.go:38-42)
  calls it idempotent without a condition. It is not when one entry's previous stripped identity is
  the new one of an entry carried over after it: `Witnesses.MigrationIsNotAlwaysIdempotent`. It is
  exactly when `KeyMoves.ComeToRest` holds of the fetch's key moves, for which
  `Migrations.NoLaterOwner` is enough.
- When a carried-over entry's previous stripped identity is the unique identity of another entry of
  the fetch (`Migrations.NothingTaken` is false), that entry's record is handed on. When it goes to a
  later entry, that one can be lost: `TakenKeys.SecondEntryIsNeverDelivered` is a run from a fresh
  status in which a document's second entry is never delivered. When it goes to an earlier one,
  delivery is not harmed: `TakenKeys.TakingIsNotAlwaysHarmful`. `Handovers.Undisturbing` is the exact
  condition.
- `reserve` and `paceDelay` read the clock before they take the lock, so a reported wait can exceed
  the one-hour or five-second cap by the time spent waiting for the lock:
  `RateLimits.LockWaitAddsToTheWait`, with the bound in `RateLimits.AskIsSafe` and the exact
  condition in `RateLimits.WaitBeyondTheCap`.

## Modelling assumptions

- SHA-256 is a datatype constructor: injective, and digests, entry keys, stripped keys and clamped
  watermarks never clash with each other or with other texts. In the program this needs no GUID
  that starts with `stripped:` or with a digest's spelling.
- A text is a URL in parts or opaque. A URL has no user information and no opaque form. Query
  parameters are listed by name, as Go's `url.Values` is written back. A text's length counts one
  byte a character.
- What templates and Discord answer are arbitrary functions of the entry, given anew for every sync;
  whether a failure is permanent comes with it. So are the steps that panic: the configuration
  check, begin after any number of carried-over entries, the filter, a render, a send, the prune, and
  every recording of an outcome, before it writes anything, before it sets the condition, or after
  all of it.
- Times are integers handed in with each step; stored times keep whole seconds.
- Of the conditions only the status of Reachable and Delivered is kept, and of `LastError` only
  whether it is set. Warning Events are counted only where a property needs them.
- `pruneLastSent` drops the oldest key until the map is small enough instead of sorting the keys
  once; equal times are ordered by an arbitrary injective order, as they are by hex digest. A prune that panics leaves the oldest keys beyond
  some number it got down to.

## Model

| member | source | states |
|---|---|---|
| Identities.DeleteTracking | internal/controller/identity.go:86-100 | deleting parameters one at a time keeps, in order, exactly those that are not tracking parameters |
| Identities.KeepTwice | internal/controller/identity.go:32-44 | stripping parameters after a milder stripping is the same as stripping once |
| Identities.NormalizeTwice | internal/controller/identity.go:69-101 | normalizing is idempotent, and stripping an identity that kept fragment and ref gives what stripping the original gives |
| Identities.SameIdentityIffSameTarget | internal/controller/identity.go:69-101 | links that differ only in their query get the same identity exactly when the parameters that are kept agree, none being kept included |
| Identities.TrackingChurnIsInvisible | internal/controller/identity.go:26-44 | adding a tracking parameter anywhere in a link, or dropping one, does not change its identity |
| Identities.DroppedNames | internal/controller/identity.go:32-100 | the parameters dropped are the eleven listed names and all that begin with utm_, in any case of their letters; ref is kept where the target is |
| Identities.SameLinkIff | internal/controller/identity.go:69-101 | two links get the same identity exactly when schemes and hosts agree but for case, and paths, kept parameters and, where the target is kept, fragments agree |
| Identities.FragmentTellsLinksApart | internal/controller/identity.go:109-131 | IDs that differ in the fragment alone are different entries exactly when they were taken from links, and the same once stripped |
| Identities.OtherIdentities | internal/controller/identity.go:109-118 | an ID that is no HTTP link is kept as it is, and entries without an ID are told apart by their content |
| Identities.ClampFits | internal/controller/ledger.go:47-53 | a watermark of at most 2048 bytes is stored as it is, a longer one as its digest, and different identities never share one |
| Pruning.PruneLastSent | internal/controller/ledger.go:84-98 | the map becomes the old one without its oldest keys, down to the cap |
| Pruning.PrunedKeepsTheNewest | internal/controller/ledger.go:84-98 | the cap holds, no key or time is invented, and nothing dropped is newer than anything kept |
| Pruning.KeptIffFewNotOlder | internal/controller/ledger.go:84-98 | a key is kept if and only if the keys that are not older than it, itself included, are no more than the cap |
| Pruning.NewestAreKept | internal/controller/ledger.go:84-98 | none of the keys recorded last is dropped when they are no more than the cap |
| Ledgers.CountEntry | internal/controller/ledger.go:246-280 | one turn of the counting loop counts the entry once for each text it stands for in each role, and changes no other count |
| Ledgers.PreviousIsWhatItWas | internal/controller/ledger.go:159-173 | the previous identity and stripped identity of an entry are the ones it had as earlier releases read it |
| Ledgers.CountFetch | internal/controller/ledger.go:246-280 | the single pass describes every entry, indexes every ref by an entry with that ref, and counts for every text exactly the entries it stands for in each role |
| Ledgers.SettleCompletes | internal/controller/ledger.go:284-292 | settling a description against the fetch's counts gives the record the fetch determines |
| Ledgers.DeliveryLedger.constructor | internal/controller/ledger.go:246-280 | every record of the index equals the entry described and settled afresh against the whole fetch |
| Ledgers.EntriesSharingARefShareARecord | internal/controller/ledger.go:184-190 | one index per ref is enough: entries with equal refs have equal records |
| Ledgers.DeliveryLedger.RecordOf | internal/controller/ledger.go:301-308 | cached or derived, the record of an entry is the one recomputation gives |
| Ledgers.CountAtMostOne | internal/controller/ledger.go:246-280 | a count of at most one holds exactly when no two entries share the text |
| Ledgers.UniqueIffAlone | internal/controller/ledger.go:136-142 | a stripped identity is unique exactly when no other entry of the fetch has it, as identity or as stripped identity |
| Ledgers.DeliveryLedger.CarriesOverAt | internal/controller/ledger.go:365-371 | the counts answer whether the fetch lets entry i carry over |
| Ledgers.CarriesOverIffUnambiguous | internal/controller/ledger.go:365-371 | an entry carries over exactly when its identity did change, no entry has its previous identity now, and no other entry has its new one or had its previous one |
| Ledgers.DeliveryLedger.OwnsPreviousAt | internal/controller/ledger.go:355-358 | the counts answer whether only entry i stood for its previous stripped identity |
| Ledgers.OwnsPreviousIffAlone | internal/controller/ledger.go:355-358 | an entry owns its previous stripped identity exactly when no other entry had it before and none has it now, as identity or as stripped identity |
| Ledgers.DeliveryLedger.ResumeAt | internal/controller/ledger.go:316-338 | the scan of the index finds the first exact match, and failing that the first entry whose unique stripped identity is the stripped watermark |
| Ledgers.RotatedLinkResumes | internal/controller/ledger.go:316-338 | a whole watermark that has a fragment or ref to strip, and no exact match, resumes at the entry with that stripped identity alone |
| Ledgers.GuidWatermarkIsNotTakenOver | internal/controller/ledger.go:316-338 | the watermark of an entry not identified by its link, or stored as a digest, is found exactly at an entry with the same identity, and is lost exactly when there is none |
| Ledgers.DeliveryLedger.SentAlready | internal/controller/ledger.go:454-461 | an entry reads as sent exactly when one of its keys is recorded |
| Ledgers.DeliveryLedger.Handle | internal/controller/ledger.go:467-473 | all keys of the entry are recorded at the given time, no other key changes, and the watermark is its identity |
| Ledgers.SiblingsShareNoKey | internal/controller/ledger.go:284-292 | entries of one fetch with different identities have disjoint key sets |
| Ledgers.HandlingIsSeparate | internal/controller/ledger.go:467-473 | a handled entry reads as sent, and no sibling with another identity changes |
| Ledgers.DeliveryLedger.MarkNewest | internal/controller/ledger.go:477-479 | the watermark becomes the last entry's, and no key changes |
| Ledgers.DeliveryLedger.MoveWatermark | internal/controller/ledger.go:377-383 | the watermark moves exactly when it was the given identity's |
| Ledgers.DeliveryLedger.MoveSent | internal/controller/ledger.go:112-124 | a recorded key is renamed with its time; the target's own record wins and an empty target drops it |
| Ledgers.DeliveryLedger.RekeySent | internal/controller/ledger.go:438-450 | both previous keys of entry i move to what the entry may own |
| Migrations.MigratePreviousIdentities | internal/controller/identity_migration.go:43-50 | the in-place loop leaves the books the step function gives over the whole fetch |
| Migrations.MigrationIsExact | internal/controller/identity_migration.go:31-50 | with nothing taken, an entry reads as sent afterwards exactly when it did before or inherits a recorded previous identity, with the exact send times |
| Migrations.LosesNothingIffNothingTaken | internal/controller/identity_migration.go:31-50 | no books lose a sent entry if and only if no carried-over entry's previous stripped identity is another entry's unique one |
| Migrations.TakenEntryIsLost | internal/controller/ledger.go:438-450 | the books on which an entry whose key is taken stops reading as sent |
| Migrations.WatermarkMovesOnce | internal/controller/identity_migration.go:43-50 | the watermark moves only from the previous identity of the one entry it stood for, once |
| Migrations.MigrationIsIdempotent | internal/controller/identity_migration.go:38-42 | when no later carried-over entry owns a previous stripped identity, nothing is left under any previous identity and a second pass changes nothing |
| KeyMoves.MigratedMoves | internal/controller/identity_migration.go:43-50 | the migration is a fixed list of key moves, which the fetch alone determines |
| KeyMoves.FollowedKeys | internal/controller/ledger.go:112-124 | after a list of moves every record is one that was led there, with its time, and only dropped ones are missing |
| KeyMoves.IdempotentIffMovesComeToRest | internal/controller/identity_migration.go:38-42 | a second pass changes no books if and only if following each moved key through the moves again leaves it where they led it |
| KeyMoves.NoLaterOwnerComesToRest | internal/controller/identity_migration.go:38-42 | the simpler condition is enough |
| Handovers.HandledLeadsBehind | internal/controller/ledger.go:438-450 | when no record is handed on to a later entry, the keys of a handled entry are moved to no key of a later one |
| Handovers.AheadIsUndisturbed | internal/controller/identity_migration.go:43-50 | after the first n entries were handled and the map was pruned, the next migration changes for no entry from n on whether it reads as sent |
| Handovers.NothingTakenIsUndisturbing | internal/controller/identity_migration.go:43-50 | it is enough that no carried-over entry takes the record of another one |
| Witnesses.MigrationIsNotAlwaysIdempotent | internal/controller/identity_migration.go:38-42 | a fetch and books that a second pass changes: the comment's unconditional claim is false |
| Plans.LimitCatchUp | internal/controller/delivery_plan.go:47-55 | the newest entries are kept, as many as the limit allows or all, five standing in for a limit that is not positive |
| Plans.ScansASuffix | internal/controller/delivery_plan.go:83-116 | what is scanned is all behind a watermark that was found; nothing in a first sync without catch-up, and the whole fetch once such a feed is initialized; otherwise exactly the newest entries up to the limit, or five |
| Fetches.SortedIsOrdered | internal/controller/feed_sync.go:257-262 | the sort is a permutation in which dates never fall from one entry to a later one, and among equal dates positions in the document never rise |
| Fetches.SortedIsStable | internal/controller/feed_sync.go:257-262 | entries of the same date and position keep their order |
| Fetches.SortedKeepsDistinct | internal/controller/feed_sync.go:257-262 | sorting keeps identities distinct |
| Deliveries.OtherEntryRenders | internal/controller/delivery.go:143-153 | there is evidence exactly when the first other entry that panics, or passes the filter and does not fail, renders, and none exactly when there is no such entry |
| Deliveries.RenderFailure | internal/controller/delivery.go:108-133 | the status and outcome of a render failure: held, skipped once past the limit with evidence, or interrupted at any of its steps |
| Deliveries.ConcludeEntry | internal/controller/delivery.go:97-98 | the entry is marked handled before its outcome is recorded, so a panic in recording finds it handled |
| Deliveries.TakeTurn | internal/controller/delivery.go:60-102 | the status and outcome of one entry for every way rendering and sending can end |
| Deliveries.SendLoop | internal/controller/delivery.go:45-102 | the loop with its early stops leaves the status, handled entries and ending of the recursive scan |
| FeedSyncs.ScanStart | internal/controller/delivery_plan.go:105-116 | the place in the fetch where the send loop starts is within it |
| FeedSyncs.FeedSync.Begin | internal/controller/feed_sync.go:240-278 | sorts, indexes, migrates and plans over the whole fetch, and on a skipped backlog moves only the watermark |
| FeedSyncs.FeedSync.BeginInterrupted | internal/controller/feed_sync.go:264-269 | a begin that panics leaves the books with the entries before that carried over |
| FeedSyncs.FeedSync.Scan | internal/controller/feed_sync.go:199-214 | begin, the backlog outcome and the send loop compose to the scan function |
| FeedSyncs.FeedSync.ApplyFetch | internal/controller/feed_sync.go:165-217 | every path, panics at each step included, leaves the status, handled entries and ending the specification gives, and closes unless a panic comes before |
| FeedSyncs.FeedSync.PersistValidators | internal/controller/feed_sync.go:395-402 | only validators the response had are replaced |
| FeedSyncs.FeedSync.Close | internal/controller/feed_sync.go:362-392 | what each verdict settles and what it leaves, also when the prune panics part of the way |
| FeedSyncs.FeedSync.SecureAfterPanic | internal/controller/feed_sync.go:323-332 | the status is as it is after a panic inside close, the prior one if nothing was handled, else settled as pending with a failure recorded |
| FeedSyncs.ProcessFeed | internal/controller/feedgroup_controller.go:272-284 | the status left to be written, panicked or not |
| Scans.LoopAdvances | internal/controller/delivery.go:45-102 | the loop handles a prefix of the pending entries, each once, leaves the rest pending, and finishes without a pending verdict only when none is left |
| Scans.LoopStampsOnly | internal/controller/ledger.go:467-473 | the loop adds to the map exactly the keys of the entries it handles, none recorded before and none twice, at the time of the sync |
| Rooms.ScanAdvances | internal/controller/feed_sync.go:240-278 | what a sync handles plus what the next sync of the document is to deliver is what there was to deliver, across migration, pruning and replanning, and there still is room |
| Rooms.PruningIsHarmless | internal/controller/feed_sync.go:404-406 | with room, the prune makes no entry ahead of the watermark that passes the filter look new, and leaves room |
| Rooms.FewKeysAreRoom | internal/controller/feed_sync.go:404-406 | there is room when the recorded keys and those of the entries to come are at most 50 in all |
| FeedRuns.RetriesDeliverOnceInOrder | internal/controller/feed_sync.go:165-278 | over any run of syncs of one document the handled entries are a prefix of the first to-do list, each once and in order; once accounted for, all of it, and nothing afterwards |
| FeedRuns.AcceptedSyncDeliversAll | internal/controller/delivery.go:45-102 | a sync without failures, from any status, sends the whole to-do list, skips nothing and closes accounted for |
| OnceOnly.DeliversOnceIffUndisturbing | internal/controller/feed_sync.go:165-278 | from every status with room, every run of syncs of a document of distinct entries delivers it once and in order if and only if the migration moves of that fetch come to rest and hand no entry's record on to a later one |
| RoomExact.DeliversFromIffRoom | internal/controller/feed_sync.go:404-406 | from a given status, every run of syncs of an undisturbing document delivers it once and in order if and only if each entry ahead that was sent and passes the filter has a key with at most 50 keys not older than it, those of the entries to come in front of it included |
| Reachable.ReachableIsTenable | internal/controller/ledger.go:467-479 | in every status that syncs leave of a fresh one, no watermark means no recorded key |
| OnceOnly.HandedOnEntryIsNeverDelivered | internal/controller/identity_migration.go:43-50 | on any document whose moves come to rest and hand a record on to a later entry, under a filter that passes just the two, there is a run that delivers the earlier one and in which no later sync ever delivers the other |
| Recognition.RunKeepsKey | internal/controller/ledger.go:454-473 | over any syncs of any documents that neither move nor prune a key, it stays recorded and no entry that has it is handled |
| Recognition.OwnSyncRecords | internal/controller/feed_sync.go:404-406 | the close of the sync that handled an entry prunes none of its keys, when it handled at most 25 and all older records are of earlier seconds |
| Recognition.HandledAtMostOnce | internal/controller/ledger.go:454-473 | once an entry was handled, no later sync of any document handles one with its identity while its key is neither moved nor pruned |
| Recognition.RotatedLinkReadsAsSent | internal/controller/ledger.go:316-338 | an entry handled while its stripped identity was unique makes an entry of any later fetch that alone has that stripped identity read as sent, and not be handled, while the stripped key is neither moved nor pruned |
| Recognition.NotAgainUntilFiftyMore | internal/controller/ledger.go:84-98 | an entry handled once is not handled again, by any syncs of any documents that do not move its key, until more than 50 keys were recorded from its own sync on |
| Windows.SlidingFeedLosesNothing | internal/controller/feed_sync.go:165-278 | over any run of syncs of windows of a growing list that show the watermark's entry, the handled entries are a prefix of those behind the first watermark that pass the filter, each once and in order, and all of them up to the newest of a document accounted for |
| TakenKeys.SecondEntryIsNeverDelivered | internal/controller/identity_migration.go:31-50 | a run from a fresh status that is to deliver two entries, delivers the first, and delivers the second in no later sync whatever happens |
| TakenKeys.TakingIsNotAlwaysHarmful | internal/controller/identity_migration.go:31-50 | the same two entries in the other order are delivered once and in order by every run, although a record is taken |
| PrunedKeys.PrunedKeyIsSentAgain | internal/controller/feed_sync.go:404-406 | a full map, a watermark whose entry left the feed, and a document on which an entry that read as sent is sent again after its key was pruned |
| Skips.EvidenceIsReal | internal/controller/delivery.go:143-153 | evidence is that another entry which passes the filter renders, and where nothing panics that is also enough |
| Skips.GivenUpIffAnotherRenders | internal/controller/delivery.go:108-133 | an entry that fails to render is skipped exactly when the retries were exhausted before and another entry of the window renders; otherwise it holds the scan up and counts one failure |
| BrokenEntries.LoopWithBroken | internal/controller/delivery.go:45-133 | a scan in which just the broken entries fail goes on to the first of them, past one that was out of retries when the scan began |
| BrokenEntries.RenderingEntryIsDelivered | internal/controller/delivery.go:108-153 | of syncs of a document in which just the broken entries fail, as many as the retry limit for each broken one in front of an entry that renders, and one more, deliver it, with every broken one in front skipped and every other one sent |
| Skips.SyncSkipsAtMostOne | internal/controller/delivery.go:108-133 | a sync skips at most one entry, before anything is sent, with the delivery retries already exhausted when it began |
| Skips.BrokenTemplatesHoldTheFeed | internal/controller/delivery.go:108-133 | while no entry that passes the filter renders, no number of syncs marks an entry handled |
| Panics.LoopRecordsWhatItHandles | internal/controller/delivery.go:60-102 | however the loop ends, every key of every handled entry is recorded at the time of the sync, with the watermark at the last one |
| Panics.PanicIsSafe | internal/controller/feed_sync.go:308-332 | a panic at any step undoes everything when nothing was handled; else the handled entries stay recorded up to the prune, and unless the document was accounted for the validators are the old ones and the feed is failing |
| Panics.HandledKeysSurviveThePrune | internal/controller/ledger.go:84-98 | whatever the size of the map, when its times are of earlier seconds the prune drops no key of the up to 25 entries the sync handled |
| Revalidation.ValidatorsOf | internal/controller/feed_sync.go:362-402 | validators change exactly in a sync that settles its document, to what the response had |
| Revalidation.StoredTagIsSettled | internal/controller/feed_sync.go:362-402 | in every reachable state the stored validators came with settled documents, and the tag is of none left unsettled |
| Revalidation.UnsettledDocumentIsRefetched | internal/controller/feed_sync.go:362-402 | a document whose last sync left it unsettled is never answered with 304 |
| Outcomes.LoopShows | internal/controller/delivery.go:45-102 | a loop that ends pending leaves the feed failing and not delivered; any other leaves Delivered at the last entry's outcome |
| Outcomes.StatusTellsTheOutcome | internal/controller/feed_sync.go:165-392 | after a sync the feed reads as failing or retrying exactly when its document was not settled, LastChecked is that of the last successful fetch, and Delivered is the last outcome of delivery |
| Outcomes.UnsettledFeedIsFetched | internal/controller/schedule.go:63-85 | a feed whose document was not settled is fetched at the next reconcile unless its backoff is still running |
| Outcomes.FailedFetchIsHeldBack | internal/controller/backoff.go:132-188 | after a sync whose fetch failed permanently for the n-th time in its run, no reconcile fetches the feed before min(base * 2^n, 6h) have passed since, and every one does from then on |
| Backoffs.BackoffIsCappedExponential | internal/controller/backoff.go:194-210 | in 64-bit arithmetic without overflow, the backoff is min(base * 2^max(count, 1), 6h) for every positive base and count |
| Backoffs.BackoffIsMonotone | internal/controller/backoff.go:194-210 | more failures never shorten the backoff |
| Backoffs.CapIsReachedOnce | internal/controller/backoff.go:150-159 | for each base exactly one count reports that the cap was first reached: the one whose backoff is six hours and whose predecessor's is shorter |
| Retries.EndFetchRun | internal/controller/backoff.go:96-100 | when a fetch succeeds, a run of fetch failures is over and any other goes on |
| Retries.CountFailure | internal/controller/backoff.go:108-115 | a fetch failure clears a run of delivery failures first, and the count goes up by one |
| Retries.Extend | internal/controller/backoff.go:150-159 | the stored deadline is now plus min(base * 2^max(count, 1), 6h), to the whole second below, and the first time at the cap is reported |
| Retries.PermanentFailureHoldsBack | internal/controller/backoff.go:132-188 | a permanent failure that makes the count n holds the feed back at exactly the times before now plus min(base * 2^n, 6h), to the whole second below |
| Retries.NoteWebhookSecretVersion | internal/controller/secret_watch.go:61-80 | the version is recorded, and one that is new clears, in every feed, exactly a backoff that is not one of fetching |
| Retries.InferredPhaseIsExact | internal/controller/backoff.go:50-115 | over every legal history, with the retry interval changing at will, the inferred run equals the run that stores its phase and counts that phase alone |
| Retries.SecretClearsDeliveryBackoffs | internal/controller/backoff.go:179-182 | a backoff reads as send-caused exactly when it is a delivery run's |
| Retries.EventsFireOncePerRun | internal/controller/backoff.go:121-159 | within one run every failure raises the count, so the exhaustion and the cap Event fire at most once each |
| Attempts.RecordFailure | internal/controller/attempt.go:310-345 | what a counted failure changes, what it asks for, and when it warns; and what it leaves when setting the condition panics |
| Attempts.RecordOutcome | internal/controller/attempt.go:229-302 | the status and verdict of every kind of outcome, and the status where recording it panics; what the verdicts mean is in RateLimitWaits and RetryHistories |
| Attempts.RecordingKeeps | internal/controller/attempt.go:229-302 | recording never touches watermark, keys, Initialized or validators |
| RetryHistories.SyncExtendsHistory | internal/controller/feed_sync.go:165-217 | every sync acts on the retry run as a legal sequence of retry events: no delivery failure without a successful fetch before it |
| RetryHistories.ReachablePhaseIsExact | internal/controller/backoff.go:50-115 | over every run of syncs, spec edits and Secret changes from a fresh status, whatever the retry interval at each, a run is a fetch run exactly when Reachable is False, and the count is that phase's |
| RetryHistories.RetriesArePerPhase | internal/controller/attempt.go:310-345 | a transient failure asks for a retry exactly while its own phase's run is below the limit; failures of the other phase do not count |
| Schedules.CadenceOf | internal/controller/cadence.go:72-101 | the spec's intervals are taken as they are, but no shorter than ten seconds, and where one does not parse it is half an hour or five minutes |
| Schedules.PlanFeeds | internal/controller/schedule.go:63-85 | fetches exactly the due feeds in order; nextDue is the least wait of a feed skipped as not due, and zero exactly when there is none |
| Schedules.FetchedWhenDue | internal/controller/schedule.go:63-150 | a feed is fetched exactly when it has a URL, is not paused, no backoff of it is running, and it is new, forced, failing, being retried, never checked or last checked a poll interval ago |
| Schedules.DueWhenTheWaitIsOver | internal/controller/schedule.go:63-85 | a feed skipped as not due is due just when the wait reported for it is over |
| Schedules.WaitIsBounded | internal/controller/schedule.go:111-136 | the wait honours a Retry-After exactly; otherwise it is the jittered retry interval where some feed asks for a retry, else the jittered poll interval, cut short only by a skipped feed, never below ten seconds nor past a skipped feed's due time by more than that floor allows |
| Reconciles.ReconcilePass | internal/controller/feedgroup_controller.go:212-225 | the loop over distinct statuses leaves the statuses and verdict of the recursive pass |
| Reconciles.PassStopsAtRateLimit | internal/controller/feedgroup_controller.go:212-225 | a pass processes a prefix of the feeds and stops early only at a panic or right after the first rate limit, whose wait it takes |
| RateLimitWaits.LoopExplains | internal/controller/attempt.go:229-302 | a scan's verdict tells what held it at the first entry not handled: a rate limit with its Retry-After, a refusal or a render failure with whether retries are left; without one everything was handled |
| RateLimitWaits.LimitedSync | internal/controller/attempt.go:257-264 | a sync whose next send is refused with a rate limit delivers what is in front of it, stays pending, and reports the Retry-After unchanged |
| RateLimitWaits.UnlimitedSync | internal/controller/attempt.go:229-302 | without a rate limit among Discord's answers a sync reports no Retry-After |
| RateLimitWaits.RateLimitIsWaitedOut | internal/controller/schedule.go:111-136 | from Discord's answer to the wait: the pass ends right after the first feed that meets a rate limit, the feeds behind it keep their status, and the group waits exactly the Retry-After |
| RateLimits.RateLimiter.Reserve | internal/discord/ratelimiter.go:56-76 | prunes what is over and holds back exactly a key whose deadline is later than the clock reading, for what is left of it |
| RateLimits.RateLimiter.Cooldown | internal/discord/ratelimiter.go:84-93 | the key's deadline becomes the later of the old one and now plus the wait, or plus an hour when the wait is longer |
| RateLimits.RateLimiter.Pace | internal/discord/ratelimiter.go:99-108 | as for cooldowns, with a cap of five seconds |
| RateLimits.RateLimiter.PaceDelay | internal/discord/ratelimiter.go:112-121 | the sender is told to wait exactly when the refill noted for its key is still ahead of its clock reading, for all that is left, and every noted refill still ahead stays noted |
| RateLimits.AskIsSafe | internal/discord/ratelimiter.go:56-93 | under every interleaving a sender is let through only if no noted deadline of the key is running, and is held back only by one, for at most the cap plus its wait for the lock |
| RateLimits.NotedWaitIsKept | internal/discord/ratelimiter.go:78-93 | from the moment a wait is noted until it, or the cap if that is shorter, is over, every thread that asks is held back at least until then, whatever happens in between |
| RateLimits.WaitBeyondTheCap | internal/discord/ratelimiter.go:56-71 | while a noted deadline of the key is running, a reported wait exceeds the cap exactly when one was noted later than the clock reading plus the cap; such a wait always is until a noted deadline, and time passed before the lock was held |
| RateLimits.LockWaitAddsToTheWait | internal/discord/ratelimiter.go:56-71 | a run in which a capped deadline is reported as a longer wait |
| RateLimits.DeadlinesOnlyRise | internal/discord/ratelimiter.go:78-93 | no step lowers a key's deadline, except to prune one that is over |
| RateLimits.PruningIsInvisible | internal/discord/ratelimiter.go:73-76 | the running deadlines are those of a limiter that never prunes, for every key |
| Fitting.TruncateIsExact | internal/discord/fit.go:86-104 | a text that fits is unchanged, any other is cut to exactly the limit with an ellipsis last where there is place for it, and the runes cut are reported; the byte shortcut changes nothing |
| Fitting.FitEmbedIsExact | internal/discord/fit.go:36-79 | every field and the total fit, runes are conserved, and a fired total clamp leaves exactly 6000 with at least 3440 of description |
| Fitting.FitIsExact | internal/discord/fit.go:36-62 | runes out plus runes reported are runes in, every limit holds, and fitting again trims nothing |
| Fitting.FitCutsNoMore | internal/discord/fit.go:36-104 | every field keeps all that its limit allows, its beginning with an ellipsis at the end; only the description gives way to the embed's total |
| PreviousIds.MayReadIdentityDifferently | internal/rss/previous_identity.go:120-150 | the token loop answers as the recursive check |
| PreviousIds.StreamingCheckIsExact | internal/rss/previous_identity.go:120-150 | on every well-formed document it answers true exactly when some Atom entry has an id, link, updated or published child outside Atom's namespace |
| PreviousIds.ApplyPreviousIds | internal/rss/previous_identity.go:85-108 | a previous ID is set exactly on the entries whose two readings differ, and on none when the second reading failed or has another number of entries |
| PreviousIds.WithPreviousIds | internal/rss/previous_identity.go:59-64 | with the pre-check the entries come out exactly as if the second reading were always made |
| PreviousIds.SkippingTheSecondReadingIsSound | internal/rss/previous_identity.go:85-150 | when the check answers false, both readings of every entry see the same identity elements, so no previous ID would be set |
| Retention.TrimIsExact | internal/rss/text.go:54-95 | trimming cuts white space at both ends, all of it, and nothing else |
| Retention.NsTexts.Unmarshal | internal/rss/text.go:54-95 | one more element is kept or dropped as the retention function says |
| Retention.RetentionIsExact | internal/rss/text.go:54-95 | what is kept is trimmed, one per namespace, and gives the same first text in each preferred namespace and overall as the full list |
| Retention.NothingElseIsDropped | internal/rss/text.go:54-95 | a visible text's namespace goes missing only when no picker prefers it and eight such are kept |
| Retention.PickingFromRetainedIsExact | internal/rss/text.go:141-182 | for any order of preferred namespaces, picking from what was kept is picking from all elements |
| Retention.AtMostTwelveTextsAreKept | internal/rss/text.go:54-95 | at most twelve texts are kept |
| Retention.PicksTheMostPreferred | internal/rss/text.go:163-182 | the pick is the first visible text of the earliest preferred namespace that has one |
| Retention.FallsBackToAny | internal/rss/text.go:163-182 | when no preferred namespace has a text the pick is the first visible text there is, and empty when there is none |
| Retention.AtomLinks.Unmarshal | internal/rss/atom.go:153-167 | one more link is kept or dropped as the retention function says |
| Retention.RetainedLinksAreEnough | internal/rss/atom.go:153-193 | at most three links are kept, with the same primary link and enclosure image as all of them |
| Retention.FirstOfItsKind | internal/rss/atom.go:133-193 | the primary link is the first whose rel is alternate or absent, else the first of all; the image is that of the first image enclosure with an address |

## Left out

- FeedRuns.RetriesDeliverOnceInOrder: a 304 or an empty document is part of the run only once Initialized is set, unless the catch-up limit is not 0, since either would set Initialized, after which a limit of 0 delivers the backlog instead of skipping it.
- Windows.SlidingFeedLosesNothing: the list's entries have stripped identities of their own, and previous identities that are not recorded; that is enough, not claimed to be the weakest such condition.
- Revalidation.UnsettledDocumentIsRefetched: is for servers with entity tags; one that only sends Last-Modified cannot tell two documents of the same second apart.
- FeedSyncs.FeedSync.SecureAfterPanic: a second panic, while the failure of the first is recorded or settled, after which nothing is written at all and the entries handled since the last write are sent again.
- Panics.HandledKeysSurviveThePrune: needs the recorded times to be of earlier seconds, since keys of the same second are ordered by their digests.
- RetryHistories.RetriesArePerPhase: RetryCount is unbounded, so a count beyond 32 bits is not modelled.
- Pruning.PruneLastSent: the order of deletion is the order of the sorted list, but the sort itself is not modelled.
- Kubernetes access, Secrets, server-side apply, metrics, tracing, Event texts and condition reasons: input, output and reporting.
- The HTTP clients, the dial guard, redirects and the webhook host checks.
- The concurrent fetches behind a barrier (`fetchAll`): their outcomes are an input in feed order.
- Template execution, filters, HTML stripping, date and colour parsing, feed titles stamped on entries.
- The XML decoder and URL parser: a document is a tree of elements with its tokens, a URL is its parts.
- Matching of feeds to statuses (`ensureFeedStatuses`), and `recordSentAt`.
- The migration of state version 0, which earlier releases performed.
