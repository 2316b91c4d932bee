# EZyapper: verified models of its protocols and algorithms

EZyapper is a Discord chatbot. This project models those parts of it that rest on real
invariants, and proves them with Dafny 4.11. `dafny verify dfyconfig.toml` checks everything.

| file | models |
|---|---|
| `TwoTier.dfy`, `TwoTierClient.dfy`, `TwoTierLosses.dfy` | the memory store: a payload-only source tier, the vector tier as its index, client operations in flight, the background sync, and the two ways to undo its work |
| `Migration.dfy` | the crash-safe copy of the legacy collection at start-up |
| `PointStore.dfy`, `Strings.dfy`, `Utf8.dfy`, `Wrappers.dfy` | scrolling through IDs; the order of strings; UTF-8; shared datatypes |
| `MediaCache.dfy`, `MediaCacheRuns.dfy`, `MediaCacheTimes.dfy` | the media cache, runs of any number of concurrent callers, and how long entries last in them |
| `Snowflake.dfy` | Discord IDs: the order on decimal strings |
| `Fetcher.dfy` | backward pagination through a channel |
| `ContextWindow.dfy` | the anchored prompt window, and clearing it |
| `Consolidation.dfy`, `ConsolidationTexts.dfy` | the buffer that feeds memory consolidation, and the texts it hands out |
| `ConfigDiff.dfy` | which key paths of the configuration changed |
| `ReloadPlan.dfy`, `ReloadServing.dfy`, `Reloader.dfy` | two-phase hot reload: what each component opens, where it ends up, and what serves afterwards |
| `Debouncer.dfy` | the debouncer behind file watching |
| `RateLimiter.dfy` | the fixed-window rate limiter |
| `KeyCase.dfy` | restoring the spelling of lower-cased map keys |
| `SplitMessage.dfy` | UTF-8-safe message splitting |
| `ToolLoop.dfy` | the conversation with a model that calls tools |
| `Frames.dfy`, `JsonRpc.dfy` | the resynchronising frame decoder and the JSON-RPC client above it |

Two shapes recur. A concurrent or crash-prone protocol is a step system: a state, actions with
a guard and an effect, and theorems about all runs. Code that changes things step by step is a
class or a method with loops, proved against a specification function or proved to take steps
of such a system; the theorems are about the function or the system. Whatever comes from
outside (the vector database, Discord, the model, tools, clocks, the file system) is a
parameter or an arbitrary choice.

## What the proofs found

- A whole-user delete erases vectors by a filter that the store evaluates after the source
  half, so it can take the vector of a record stored in between.
- Deduplication stores a new text under the ID of a record it found, and nothing keeps that
  record from being deleted in between. A search that saw the ID without a record then sweeps
  the new vector as an orphan.
- These two are all: a record is complete after every sync exactly if its user is not wiped
  meanwhile and its ID is not stored again after a delete (`TwoTierLosses.CompleteExactly`). A
  sync that starts once the late sweep is over restores the vector
  (`TwoTierLosses.RestoredExactly`).
- The cache tells a failure from a result by its message, so a permanent failure with an empty
  message is read back as an empty result (`MediaCacheRuns.AnswersAgreeExactly`). This is about
  the cache's interface: no caller in the program was found that gives it such an error.
- A message buffered between the take that found the buffer empty and the selection of fetched
  messages is handed to consolidation twice if it was fetched too
  (`Consolidation.HandedOutTwiceExactly`), and the order of what is handed out breaks if it is
  no newer than a selected one (`Consolidation.SelectIsSafeExactly`).
- With a maximum of 0 or less the limiter still lets a key's first message through
  (`RateLimiter.AtMostTwiceMaxExactly`), and again after each cleanup
  (`RateLimiter.CleanupIsInvisibleExactly`).
- With a limit of 1 to 3 bytes a message can exceed it (`SplitMessage.SplitWithinLimitExactly`),
  and one that ends in a character wider than the limit indexes out of range
  (`SplitMessage.SplitPanicsExactly`).
- A line over the frame limit whose first 64 MiB are white space is skipped without a report,
  although the code's comment promises one, and a blank line can be reported when the limit cuts
  one of its characters (`Frames.ProgramYieldsExpectedExactly`).
- A component whose Prepare panics after opening something leaves it open: whatever a reload
  opens can be lost so, and nothing else (`ReloadPlan.LeaksExactly`, `Reloader.Program.LoseSession`).
- The configuration code keeps an explicit empty mapping apart from an absent key
  (internal/config/keycase.go:130-135), but Diff treats the two as equal, so a reload that only
  changes one into the other is "no change" (`ConfigDiff.EqualIsSameNorm`,
  `ConfigDiff.EmptyMapIsNil`).
- Any is false for a path below a pointer that is nil on one side only, for what is listed is
  the pointer's own path (`ConfigDiff.AnyMissesOneSided`).

## Model

| member | source | states |
|---|---|---|
| `TwoTier.SyncCompletes` | internal/memory/tier_sync.go:333-464 | In every interleaving of a sync with upserts, deletes and searches that may overlap in any way, even on one ID, and whose store calls may fail after having been applied in part: a record that stays in the source tier from the start of the sync, whose embedding succeeds when asked for and whose vector nobody erases after the sync has passed it, has a vector of the configured dimension once the sync has ended without an error |
| `TwoTier.RunKeepsInv` | internal/memory/tier_sync.go:333-464 | At every point of every run: a record that left the source tier is known as deleted, every vector has the configured dimension and belongs to a live or deleted record, orphans about to be swept are deleted records, and the sync has covered all stable records it has passed |
| `TwoTier.StaysStable` | internal/memory/tier_sync.go:333-464 | A record that stays in the source tier during a sync, loses no vector behind the sync, and has no failed embedding, stays among those the sync must cover |
| `TwoTier.SyncRestores` | internal/memory/tier_sync.go:333-464 | A record of which no erase is pending when the sync starts has a vector afterwards, whatever happened to it before, unless a whole-user delete erases the vector behind the sync: deletes by ID and searches that begin later cannot |
| `TwoTier.NoErasePendingStays` | internal/memory/qdrant.go:509-554 | No step makes an erase of a record pending while the record stays in the source tier |
| `TwoTier.NeverDeletedIsSafe` | internal/memory/qdrant.go:804-812 | Of a record that was never deleted no erase by ID or sweep is ever pending |
| `TwoTier.LiveWasNeverDeleted` | internal/memory/tier_sync.go:333-464 | A record in the source tier has never been deleted unless its ID was stored again after a delete |
| `TwoTier.DeletedStaysOut` | internal/memory/qdrant.go:804-812 | A deleted record stays out of the source tier, whatever runs, until its ID is stored again |
| `TwoTier.SweepSparesLiveRecords` | internal/memory/qdrant.go:509-554 | The sweep of orphans by a search never removes or changes the vector of a record that is in the source tier at that moment, unless it was stored again after its delete |
| `TwoTier.HydrationSplitsHits` | internal/memory/qdrant.go:509-554 | The hits of a search fall into records found, of which exactly the readable ones are returned, and orphans, all in ranking order, and none is lost |
| `TwoTier.SplitIsExact` | internal/memory/qdrant.go:509-554 | A hit is returned, with the payload of the source read, exactly if it had a readable source record then, and is an orphan exactly if it had no source record |
| `TwoTier.OrphansWereDeleted` | internal/memory/qdrant.go:509-554 | What a search is about to erase and to return was split off at one source read of that search; each orphan was a hit whose record had been deleted |
| `TwoTier.SourceIsGiven` | internal/memory/qdrant.go:345-387 | Every record in the source tier was there from the start or is exactly one that an upsert of its ID was called with |
| `TwoTier.VectorsAreGiven` | internal/memory/qdrant.go:330-339 | Every vector in the index was there from the start, or carries the embedding, text, user and keywords of one upsert of its ID, or the text, user and keywords of a record the source tier held under its ID and the embedding that the sync got for that record |
| `TwoTier.DeleteSparesOthers` | internal/memory/qdrant.go:804-883 | Neither half of a delete erases or changes anything but the IDs, or the records of the user, that it selects |
| `TwoTierLosses.CompleteExactly` | internal/memory/qdrant.go:866-883 | For every ID, user, dimension, set of users and set of IDs: the record is complete after all error-free syncs of all runs in which only users of the one set are wiped during the sync and only IDs of the other are ever stored again after a delete, exactly if its user and its ID are in neither |
| `TwoTierLosses.RestoredExactly` | internal/memory/tier_sync.go:333-464 | However often IDs are stored again: over all syncs that start with no erase of the record pending it is complete exactly if its user is not among those wiped; so the next sync restores what a late sweep took |
| `TwoTierLosses.CompleteWithoutOwnWipe` | internal/memory/tier_sync.go:333-464 | One direction: wipes of other users, at any time and applied in part, cost no record of this user its vector |
| `TwoTierLosses.NoErasePendingUnlessReused` | internal/memory/tier_sync.go:333-464 | Of a live record whose ID is not stored again after a delete, no erase is pending, however other IDs are reused |
| `TwoTierLosses.OwnWipeLosesALiveVector` | internal/memory/qdrant.go:866-883 | The other, for every ID, user and dimension: a run in which the vector half of a wipe erases the vector of a record stored between its halves and passed by the sync, so that the record stays live through an error-free sync and ends without a vector |
| `TwoTierLosses.SweepLosesALiveVector` | internal/memory/consolidation.go:418-445 | And one in which a search finds the ID without a record, the record is stored again (as deduplication does under the ID of a record found earlier) and passed by the sync, and then the search sweeps its new vector as an orphan |
| `TwoTierClient.ScrollRecords` | internal/memory/tier_sync.go:351-372 | A scrolled page holds the first source records from the offset on, in ID order, and names where the next page begins |
| `TwoTierClient.SplitHits` | internal/memory/qdrant.go:526-546 | The loop over the hits yields exactly the readable live records and the orphans; a payload that cannot be decoded is dropped and is no orphan |
| `TwoTierClient.FindMissing` | internal/memory/tier_sync.go:389-412 | The records of a page without a vector, in page order, and how many have one |
| `TwoTierClient.CollectPoints` | internal/memory/tier_sync.go:414-455 | The missing records with a text whose embedding succeeded, and no others, get a point, which has the record's own text, user and keywords and the vector embedded for that record; every other one is counted as failed, and a wrong dimension stops the sync |
| `TwoTierClient.AbsentKeepsOrder` | internal/memory/tier_sync.go:396-412 | The records found missing keep the order of the page and are distinct |
| `TwoTierClient.Client.UpsertMemory` | internal/memory/qdrant.go:345-387 | Source first, then vector, also while deletes of the same ID are pending; a wrong dimension writes nothing; success means both writes were acknowledged (or there is no embedding). After a success the index holds under the ID exactly the embedding, text, user and keywords given; and unless others wrote or erased that ID during the call, the source tier holds exactly the record given, even if only the vector write failed. Every call is steps of the two-tier system |
| `TwoTierClient.Client.DeleteRecords` | internal/memory/qdrant.go:804-812 | Source first, also while writes of the same IDs are in flight; after success the records were gone at one moment of the call whatever the vector half did, and any of them back since was stored again; an error means the source erase failed |
| `TwoTierClient.Client.DeleteUserMemories` | internal/memory/qdrant.go:866-883 | After success there was a moment of the call with no record of the user in the source tier, and no vector of theirs is in the index at its end |
| `TwoTierClient.Client.SearchAndHydrate` | internal/memory/qdrant.go:488-554 | The hits are those of one query step of this call, held by the index then; what is returned are the readable ones of them that had a source record at one later moment, in ranking order, and exactly the orphans of that moment were handed to the sweep |
| `TwoTierClient.Client.SyncPage` | internal/memory/tier_sync.go:385-464 | Every record of a page is counted once as embedded, failed or present; an error aborts the sync |
| `TwoTierClient.Client.Round` | internal/memory/tier_sync.go:340-378 | A round scrolls and syncs one page, and brings the sync nearer its end unless others wrote meanwhile |
| `TwoTierClient.Client.SyncVectors` | internal/memory/tier_sync.go:333-381 | The whole loop under any interleaving: it ends, counts every scanned record once, and without an error leaves every stable record that did not fail with a vector of the right dimension |
| `PointStore.Scroll` | internal/memory/tier_sync.go:351-372 | A page of a scroll is the least IDs from the offset on, at most the limit, with the next ID if any is left |
| `PointStore.PagesRunOut` | internal/memory/tier_sync.go:351-373 | Following the offsets, the IDs still to be scrolled become fewer with every page |
| `Migration.MigrationIsCrashSafe` | internal/memory/tier_sync.go:161-270 | At every moment of every history of starts, crashes, failed writes, restarts and user writes: serving means no copy is half done; while one is, the source holds only legacy copies; done means all legacy records were copied; foreign data and legacy copies meet only after done |
| `Migration.RunKeepsInv` | internal/memory/tier_sync.go:86-103 | The invariant behind it, for each stage of the process and each value of the marker, through every crash |
| `Migration.CopiedWasWritten` | internal/memory/tier_sync.go:161-270 | A record counted as copied was in the source tier as an exact copy of the legacy one at some point |
| `Migration.DoneStays` | internal/memory/tier_sync.go:86-103 | A finished migration is never begun again |
| `Migration.DeletedStaysDeleted` | internal/memory/service.go:231-258 | Once done, a record that is gone stays gone through all crashes and restarts until a user stores it |
| `Migration.LegacyRecordsSurvive` | internal/memory/tier_sync.go:161-270 | Once done, a legacy record is in the source tier unless it was deleted or stored over |
| `Migration.DecideVectorReuse` | internal/memory/tier_sync.go:118-128 | Legacy vectors are reused exactly if the dimension is positive and equal and no probe is below 0.95 |
| `Migration.Service.CopyOnePage` | internal/memory/tier_sync.go:200-262 | One page of source records is copied with bounded retries, or the start fails |
| `Migration.Service.MigrateLegacy` | internal/memory/tier_sync.go:161-270 | Succeeds exactly when the service may go on. A copy that is due (a legacy collection and either a marker that says in progress, or no marker, some legacy record and an empty source tier) is then finished, with every legacy record in the source tier and the marker done; in every other case marker and source are as they were. All its writes are steps of the crash system |
| `Migration.Service.NewService` | internal/memory/service.go:181-262 | Migrate, repair, then serve: a start that succeeds serves; a copy that was due is finished, with every legacy record there but those the repair deleted, and if none was due marker and source are as they were but for those |
| `MediaCache.PruneGuarantees` | internal/media/cache.go:290-316 | After a prune every failure is at most five minutes old, every result is pinned or was used within the TTL if there is one, every pinned result is there unchanged, and the size is within the bound or only pinned results are left |
| `MediaCache.PruneKeeps` | internal/media/cache.go:144-152 | The other way round: a failure at most five minutes old, and a result that is pinned, used within the TTL, or any without a TTL, stays unchanged, unless the bound is used up and nothing older that may be evicted stays |
| `MediaCache.Cache.Prune` | internal/media/cache.go:290-316 | A prune leaves the unexpired entries less exactly min(excess, evictable) evictable ones, none used later than an evictable one that stays |
| `MediaCache.Cache.EvictExcess` | internal/media/cache.go:298-315 | Over the bound, the least recently used evictable entries go |
| `MediaCache.EvictedFirst` | internal/media/cache.go:310-315 | Removing the first n of the entries sorted by use meets the eviction promise |
| `MediaCache.SortByUse` | internal/media/cache.go:310-310 | The evictable keys sorted by last use: ordered, and the same keys |
| `MediaCache.Cache.CollectEvictable` | internal/media/cache.go:301-309 | Evictable is every entry but a pinned result |
| `MediaCache.Cache.Pin` | internal/media/cache.go:88-119 | The channel's keys are replaced, so that a key is pinned afterwards exactly if it is one of the new ones and not empty or another channel pins it; the count of every key stays the number of channels pinning it, keys that leave count as used now, then a prune |
| `MediaCache.Cache.PinnedKey` | internal/media/cache.go:24-28 | The pin count is positive exactly if some channel's set has the key |
| `MediaCache.Cache.ExpiredEntry` | internal/media/cache.go:144-152 | Failures expire by their own TTL even when pinned, results by the idle TTL unless pinned |
| `MediaCache.Cache.SetLimits` | internal/media/cache.go:74-82 | New limits, then a prune under them |
| `MediaCache.Cache.Get` | internal/media/cache.go:155-168 | A result is returned, with its value, exactly if it is there and pinned, or used within the TTL, or there is no TTL, and counts as used now; a failure never is; an expired entry is dropped |
| `MediaCache.Cache.DoEnter` | internal/media/cache.go:182-206 | The first lock section of Do: hit, cached failure, join of the computation in flight, or ownership of a new one |
| `MediaCache.EnterExactly` | internal/media/cache.go:144-206 | What it decides, in times: a failure at most five minutes old, else a result that is pinned, used within the TTL, or any without one, else the computation in flight, else ownership |
| `MediaCache.StoredLands` | internal/media/cache.go:213-245 | A result with a character that is no white space, or a permanent failure, is there after the store with its value or message and this time, unless evicted at once; anything else changes nothing |
| `MediaCache.Cache.DoStore` | internal/media/cache.go:213-245 | Only non-blank results and permanent failures are stored, followed by a prune |
| `MediaCache.Cache.DoClose` | internal/media/cache.go:208-213 | The last lock section: the key's computation is no longer in flight, and no other key's is touched |
| `MediaCache.Cache.DeletePrefix` | internal/media/cache.go:250-267 | Exactly the entries whose key begins with one of the non-empty prefixes go, and are counted |
| `MediaCacheRuns.SingleFlight` | internal/media/cache.go:182-221 | With any number of concurrent callers, at most one computation of a key is in progress |
| `MediaCacheRuns.WaitersGetTheOwnersResult` | internal/media/cache.go:197-221 | Everyone who ran or waited gets what the computation of some owner of that key returned |
| `MediaCacheRuns.WaiterGetsTheJoinedResult` | internal/media/cache.go:197-221 | A caller that joined a computation keeps waiting or has got the result of that very computation, which its owner's function returned and the owner returned too |
| `MediaCacheRuns.AwaitedOwnerRan` | internal/media/cache.go:197-221 | Whoever is waited for is running, or is done with what its own computation returned |
| `MediaCacheRuns.AnswersAreTheKeysResult` | internal/media/cache.go:132-245 | If the computation is a function of the key and no permanent failure has an empty message, every answer and every entry is the key's own result, in all runs |
| `MediaCacheRuns.AnswersAgreeExactly` | internal/media/cache.go:160-165 | That holds in all runs exactly if no permanent failure has an empty message: the code tells results from failures by the message being empty |
| `MediaCacheRuns.EmptyFailureReadsAsResult` | internal/media/cache.go:234-245 | The run for the other direction: the next call returns an empty result and no error |
| `MediaCacheRuns.PinnedResultIsFinal` | internal/media/cache.go:144-221 | While a key stays pinned and no prefix deletion hits it, its result never changes and every Do for it is answered with that result, whatever else runs |
| `MediaCacheRuns.RunKeepsInv` | internal/media/cache.go:182-221 | Owners are exactly the callers in flight, one a key; an owner's key has no entry until it stores; waiters wait for an owner of their key |
| `MediaCacheTimes.FailureLasts` | internal/media/cache.go:144-147 | Over all runs: a permanent failure that is neither deleted nor evicted answers every Do for its key, pinned or not, while no clock reading is more than five minutes past its store |
| `MediaCacheTimes.FailureEnds` | internal/media/cache.go:144-147 | And a Do is answered with a failure only if a computation of its key ended with that very failure at most five minutes earlier |
| `MediaCacheTimes.ResultLastsExactly` | internal/media/cache.go:148-168 | Over all runs: a result stored or read at time u, or whose channel's pins changed then, and not used, deleted or evicted since and in time at every prune, is what a Do for its key gets exactly if it is pinned, or there is no TTL, or the Do is no later than u plus the TTL |
| `MediaCacheTimes.HitsAreInTime` | internal/media/cache.go:148-191 | Every hit gets a value that a computation of its key stored, and its key is pinned, or there is no TTL, or its last use was within the TTL |
| `Snowflake.LessIsNumericOrder` | internal/bot/message_fetcher.go:207-212 | On canonical decimals the comparison by length and text is the numeric one |
| `Snowflake.LessIsRankOrder` | internal/bot/message_fetcher.go:207-212 | On arbitrary strings the comparison is a strict total order that is well-founded: it is the order of a natural number |
| `Snowflake.LexIsNumeric` | internal/bot/message_fetcher.go:207-212 | Among numerals of one length, lexical order is numeric order in any base |
| `Snowflake.AfterIsNotLess` | internal/bot/session.go:1154-1161 | On canonical 64-bit IDs snowflakeAfter and snowflakeLess agree, and one of two different IDs is after the other |
| `Snowflake.ParsesDecimals` | internal/bot/session.go:1155-1159 | Every number of 64 bits is parsed from its decimal and that decimal is the only canonical text parsed to it; larger ones, other characters and the empty text are not parsed |
| `Fetcher.OldestId` | internal/bot/message_fetcher.go:193-204 | The least usable ID of a page, or none if the page has no usable message |
| `Fetcher.FetchPage` | internal/bot/message_fetcher.go:144-163 | One page with at most three retries on rate limits |
| `Fetcher.AddPage` | internal/bot/message_fetcher.go:111-126 | Messages without an ID or already seen are dropped; the rest are appended, and all IDs stay distinct |
| `Fetcher.FreshIsNew` | internal/bot/message_fetcher.go:111-126 | What a page adds is new, distinct and in page order |
| `Fetcher.FreshOfNew` | internal/bot/message_fetcher.go:111-126 | Of a page of new messages none is dropped |
| `Fetcher.NextHonestPage` | internal/bot/message_fetcher.go:93-141 | A page of an honest server, whenever it sends one, continues where the messages fetched so far end |
| `Fetcher.FetchTurn` | internal/bot/message_fetcher.go:101-139 | A turn keeps the IDs distinct and moves the cursor strictly back in snowflake order or ends; one that fails changes nothing |
| `Fetcher.FetchPaginated` | internal/bot/message_fetcher.go:93-141 | It ends for arbitrary server replies and never returns an ID twice; each request continues at the oldest ID of the page before, every usable message of the pages is returned and nothing else, and it is complete only if as many as asked for are there, a page was short, or the cursor could not move back. From a server that may rate-limit or fail but is honest on the pages it sends, it returns a prefix of the newest messages however it stops, and when complete exactly the newest min(limit, length) in order, in ceil(limit/100) pages if the channel holds that many; it ends in an error only if the server refused a request |
| `ContextWindow.Window.Apply` | internal/bot/context_window.go:38-83 | The window is a prefix of the newest-first messages, of the size and with the anchor update that the anchored-window rule gives, and switched off by a non-positive limit or flush |
| `ContextWindow.Window.Reset` | internal/bot/context_window.go:86-93 | A reset forgets the channel's anchor and no other |
| `ContextWindow.WindowFollowsIndex` | internal/bot/clear_command.go:145-153 | Fetching limit + flush + 1 messages is enough: the window computed from the fetch is the one computed on the whole history |
| `ContextWindow.WindowIsBoundedSuffix` | internal/bot/context_window.go:38-83 | Every window of every run is a newest suffix of the channel with min(limit, length) to limit + flush messages |
| `ContextWindow.WindowOnlyGrows` | internal/bot/context_window.go:58-83 | Between re-anchorings the previous window, oldest first, is a prefix of the next |
| `ContextWindow.ReanchoringsAreFarApart` | internal/bot/context_window.go:58-83 | At least flush + 1 new messages lie between two re-anchorings |
| `ContextWindow.FetchContext` | internal/bot/clear_command.go:145-153 | One request: messages up to the cutoff are hidden, and the window over the rest and the new anchor are those of the index form |
| `ContextWindow.FetchUnanchored` | internal/bot/clear_command.go:145-153 | Without a limit the window is empty, and without a flush it is the newest messages after the cutoff, up to the limit; no anchor changes |
| `ContextWindow.Cutoffs.Apply` | internal/bot/clear_command.go:44-58 | Exactly the messages sent after the channel's cutoff, or without a time, are kept, in order; all if there is no cutoff |
| `ContextWindow.CutoffHidesTheOlder` | internal/bot/clear_command.go:44-58 | Fetching and then hiding gives as many of the newest messages after the cutoff as fetching only those would |
| `ContextWindow.CutoffCuts` | internal/bot/clear_command.go:44-58 | A cutoff cuts every channel in order of time in two: hidden before, shown after |
| `ContextWindow.ClearContext` | internal/bot/clear_command.go:116-118 | Clearing sets the channel's cutoff and forgets its anchor, and touches no other channel |
| `ContextWindow.ServeRequests` | internal/bot/clear_command.go:145-153 | A run of requests on a growing channel, cleared before or not, yields exactly those windows on what was sent since |
| `ContextWindow.ServeAfterClear` | internal/bot/clear_command.go:44-153 | After the context was cleared at a time, no later window holds a message sent at or before that time, whatever the channel held; the windows are those on what was sent since |
| `Consolidation.Buffers.Add` | internal/bot/session.go:1054-1081 | A message is appended exactly if it is there, above the mark and its ID is not buffered, and then the newest of all, up to twice the interval, stay in order; else nothing changes; other channels are untouched |
| `Consolidation.Buffers.UpdateContent` | internal/bot/session.go:1085-1094 | The first buffered message with the ID gets the new text; every other message, the length and the mark are as before, and so are other channels |
| `Consolidation.Buffers.TakeBatch` | internal/bot/session.go:1101-1114 | What is handed out, followed by what stays, is the buffer in chronological order; max of it or all; and the mark moves |
| `Consolidation.Buffers.SelectUnconsolidated` | internal/bot/session.go:1120-1136 | The oldest fetched messages newer than the mark, max of them or all, are handed out and the mark moves; the buffer is untouched |
| `Consolidation.Buffers.MarkConsolidated` | internal/bot/session.go:1138-1150 | The mark after a batch |
| `Consolidation.MarkIsLast` | internal/bot/session.go:1138-1150 | After an ordered batch of new messages the mark is its last ID |
| `Consolidation.MarkIsGreatest` | internal/bot/session.go:1138-1150 | After any batch, in whatever order, the mark is the old one or an ID of the batch, and no older than either |
| `Consolidation.SortChronological` | internal/bot/session.go:1165-1181 | A list with a missing message or a non-numeric ID keeps its order; any other is sorted |
| `Consolidation.SortedRearranges` | internal/bot/session.go:1175-1180 | Sorting orders by number and only rearranges |
| `Consolidation.SortedIsIncreasing` | internal/bot/session.go:1165-1181 | Distinct snowflake IDs come out strictly increasing |
| `Consolidation.RunKeepsInv` | internal/bot/session.go:1054-1150 | Over any run of adds, edits, takes, and selects of messages older than the buffered ones (as when none is buffered): IDs are handed out strictly increasing within and across batches, the mark is the last of them, and every buffered ID is above it |
| `Consolidation.NothingHandedOutTwice` | internal/bot/session.go:1054-1150 | In such a run no message is handed to consolidation twice |
| `Consolidation.Consolidate` | internal/bot/session.go:1054-1136 | The program's own operations on a channel hand out what the run says, so in strictly increasing order if what is selected is older than what is buffered |
| `ConsolidationTexts.BufferedText` | internal/bot/session.go:1085-1094 | In every run at all: a buffered message carries the text of the last edit since the step that added it, or the text it was added with, and has been buffered ever since that step |
| `ConsolidationTexts.HandedText` | internal/bot/session.go:1085-1136 | So everything handed out was handed out by a take with that text, or was selected as it was fetched |
| `Consolidation.RunBalances` | internal/bot/session.go:1054-1136 | In every run at all, each ID is buffered, handed out or dropped by the cap exactly as often as it was accepted |
| `Consolidation.SelectIsSafeExactly` | internal/bot/handlers_consolidation.go:53-64 | With messages buffered between the empty take and the select, order survives the next take, whatever its cap, exactly if every fetched message that is above the mark and within the cap is older than every buffered one |
| `Consolidation.SelectedExactly` | internal/bot/session.go:1120-1136 | A fetched message is selected exactly if it is above the mark and fewer fetched ones above the mark than the cap are older |
| `Consolidation.TakenExactly` | internal/bot/session.go:1101-1114 | A buffered message is taken exactly if fewer buffered ones than the cap are older |
| `Consolidation.TakesTakeOldest` | internal/bot/session.go:1101-1114 | Takes one after the other hand out the buffer in chronological order, as much of it as their caps allow in all, and leave the rest |
| `Consolidation.TakenByExactly` | internal/bot/session.go:1101-1114 | Some takes hand out a buffered message exactly if fewer buffered ones are older than they hand out in all |
| `Consolidation.HandedOutTwiceExactly` | internal/bot/handlers_consolidation.go:53-64 | For any caps and any number of takes after the select: an ID is handed out twice exactly if a buffered message was fetched too and both copies are within their caps |
| `Consolidation.HandedOutTwiceWithoutCaps` | internal/bot/handlers_consolidation.go:53-64 | Without caps the next take makes it so exactly if a buffered ID is among the fetched ones |
| `Consolidation.BufferedInBetweenIsHandedOutTwice` | internal/bot/handlers_consolidation.go:53-64 | The four-step run for any message and interval: buffered in between and also fetched, it is handed out twice |
| `ConfigDiff.EqualIsSameNorm` | internal/hotreload/diff.go:157-205 | Equal holds exactly if the values agree once nil lists and maps are read as empty and unexported fields dropped, at every depth |
| `ConfigDiff.EqualIsEquivalence` | internal/hotreload/diff.go:209-211 | Equal is reflexive, symmetric and transitive |
| `ConfigDiff.WhatCounts` | internal/hotreload/diff.go:157-205 | Texts, dynamic types, keys, lengths and nil pointers count; nil lists and maps are empty ones; structs with equal exported fields are Equal, and Equal ones have Equal exported fields |
| `ConfigDiff.DiffValue` | internal/hotreload/diff.go:102-135 | The recursive walk appends exactly the differing paths, in field order |
| `ConfigDiff.NothingNamedIffEqual` | internal/hotreload/diff.go:102-135 | No path is named exactly if the values are Equal |
| `ConfigDiff.NamedIsBelow` | internal/hotreload/diff.go:102-135 | A named path is the value's own or lies below one of its keys |
| `ConfigDiff.StepKeepsNames` | internal/hotreload/diff.go:102-135 | Below a key, the named paths are those of the part at that key, through squashed fields and pointers |
| `ConfigDiff.AnyIffSubtreesDiffer` | internal/hotreload/diff.go:55-135 | For every path that exists in both trees, Any is false exactly if the subtrees there are Equal |
| `ConfigDiff.AnyMissesOneSided` | internal/hotreload/diff.go:55-135 | For every path that exists in one tree only, Any is always false, and a path above it is named |
| `ConfigDiff.AnyChanged` | internal/hotreload/diff.go:55-64 | True exactly if some changed path is one of the prefixes or lies below one after a dot |
| `ConfigDiff.DiffConfig` | internal/hotreload/diff.go:76-100 | The sections' differing paths in the order of strings, each as often as the sections name it; a nil configuration differs from another as a whole |
| `ConfigDiff.ChangesMembers` | internal/hotreload/diff.go:76-100 | Sorting the list only rearranges it |
| `ConfigDiff.NoSectionNamedIffEqual` | internal/hotreload/diff.go:76-100 | Diff is empty exactly if all exported sections are Equal |
| `ConfigDiff.EmptyMapIsNil` | internal/hotreload/diff.go:157-205 | Two configurations that differ, but only in a section that is an empty map on one side and a nil one on the other, have no changes |
| `ConfigDiff.AnyIffSectionsDiffer` | internal/hotreload/diff.go:31-64 | For a prefix at or above sections, Any is false exactly if all of them are Equal |
| `ConfigDiff.AnyWithinSection` | internal/hotreload/diff.go:31-64 | For a path within a section, Any is false exactly if the subtrees there are Equal |
| `ConfigDiff.AnyMissesOneSidedWithinSection` | internal/hotreload/diff.go:31-64 | The same for a path within a section of whole configurations |
| `ConfigDiff.SectionPathsAreApart` | internal/hotreload/diff.go:31-46 | No path of the section table equals or lies below another |
| `Reloader.Program.Apply` | internal/hotreload/reloader.go:108-167 | All or nothing: on failure the live configuration and everything in service are unchanged, prepared changes are aborted once in reverse, and what stays open for good is exactly what was open in the Prepare that panicked. On success the configuration is stored, then every change committed once in order; what serves in each role, and on which port, then follows from the changed paths and the old and new settings (`ReloadServing.Switched`): a new session for a new token; new MCP connections if that section changed and there are servers, none without; no listener with the dashboard off, a new one on a new port; no memory service with memory off; what the change does not concern serves on; what serves no more is retired. No change exactly if all sections are Equal to the live ones; between calls the live configuration is always the one stored last, and the memory service runs exactly if that turns it on |
| `ReloadServing.ReloadServes` | internal/hotreload/reloader.go:108-167 | Whatever the components prepared, committing it in order makes every role serve as the changed paths and the settings say, and leaves those of other components alone |
| `ReloadServing.MemoryFollows` | internal/memory/swappable.go:60-94 | If the memory service ran as a whole exactly when the old settings turn it on, so it does for the new ones |
| `ReloadPlan.AppliesExactly` | internal/hotreload/reloader.go:133-149 | Without a panic the prepare phase succeeds exactly if everything that the change makes the components open can be opened and every check of theirs passes |
| `Reloader.Program.PrepareAll` | internal/hotreload/reloader.go:133-149 | Components are prepared in order until one fails, each holding its own resources; where it stops, which components prepare a change and what it is for, is what the scene and the outside say |
| `Reloader.Program.SafePrepare` | internal/hotreload/reloader.go:272-279 | A panic counts as an error, and the handles lost are exactly those open when it came; without a panic none is |
| `Reloader.Program.LoseSession` | internal/hotreload/reloader.go:272-279 | For every reload to a new token: if the Prepare panics once the new session is open, the reload is rejected and that session, and nothing else, stays open for good |
| `ReloadPlan.LeaksExactly` | internal/hotreload/reloader.go:272-279 | For any components and change: a resource can be left open for good by some panic exactly if its component is registered and the change makes it open one |
| `ReloadPlan.NoLiveConfigNoReload` | internal/app/memory.go:176-178 | With the memory component registered, a reload without a live configuration never succeeds, for that component reads the old one |
| `Reloader.Program.BotPrepare` | internal/bot/reload.go:42-83 | Nothing in service changes; a failure leaves nothing open, success leaves open exactly what the change holds, and a panic exactly what was opened before it |
| `Reloader.Program.BotPrepareRest` | internal/bot/reload.go:62-83 | The same with the new session already open: a later failure closes it |
| `Reloader.Program.PrepareMcp` | internal/bot/reload.go:214-240 | Off, connected, or failed with everything closed (after a timeout, later) |
| `Reloader.Program.WebPrepare` | internal/web/server.go:351-415 | As for the bot: a port that cannot be bound stops the new login store again |
| `Reloader.Program.LogPrepare` | internal/app/components.go:34-62 | As for the bot: a log file is opened or the reload fails |
| `Reloader.Program.MemoryPrepare` | internal/app/memory.go:161-208 | As for the bot: a new embedding client if nothing else changed, the no-op service if memory is off, else a whole new service |
| `Reloader.Program.BuildService` | internal/app/memory.go:105-120 | The rest of building a service: a connection or service that fails stops what was opened before it |
| `Reloader.Program.AbortChange` | internal/bot/reload.go:134-141 | An abort closes exactly what the change holds |
| `Reloader.Program.AbortAll` | internal/hotreload/reloader.go:126-131 | All prepared changes are aborted once, last first, and what they held is closed |
| `Reloader.Program.CommitChange` | internal/bot/reload.go:100-132 | A commit puts what the change holds into service and retires what it replaces, and loses nothing |
| `Reloader.Program.CommitMemory` | internal/memory/swappable.go:60-94 | A new service replaces the old one as a whole, a new embedding client the old client, or is stopped if no service takes it |
| `Reloader.Program.CommitWeb` | internal/web/server.go:384-405 | The web change: a new login store, and the listener removed with the dashboard off, replaced and on the new port, or kept |
| `Reloader.Program.CommitAll` | internal/hotreload/reloader.go:155-158 | Every change is committed once, in order |
| `Reloader.SettledOnce` | internal/hotreload/reloader.go:108-167 | Over any sequence of reloads, every prepared change is committed or aborted, exactly once and not both |
| `Reloader.StoredBeforeCommitted` | internal/hotreload/reloader.go:151-158 | A commit is preceded by the store of its reload's configuration, with only commits in between |
| `Debouncer.RunKeepsInv` | internal/filewatch/debounce.go:39-87 | The invariant of every interleaving of triggers, timers, goroutines and Stop |
| `Debouncer.FnNeverOverlaps` | internal/filewatch/debounce.go:51-77 | The callback never runs concurrently with itself |
| `Debouncer.CallsNeverExceedTriggers` | internal/filewatch/debounce.go:39-77 | At no point have there been more calls than triggers |
| `Debouncer.CallsNeverExceedBursts` | internal/filewatch/debounce.go:39-49 | Nor more calls than bursts of triggers, a burst being triggers with no firing of the timer in between: a trigger replaces the armed timer |
| `Debouncer.BurstAddsOneCall` | internal/filewatch/debounce.go:39-49 | Any number of triggers with no firing in between adds at most one call to those made or under way, and none if the timer was armed |
| `Debouncer.AtMostOneCallAfterStop` | internal/filewatch/debounce.go:80-87 | At most one call starts after Stop, and only one that a goroutine was already about to make |
| `Debouncer.UnservedTriggerIsOnItsWay` | internal/filewatch/debounce.go:39-77 | A trigger not followed by a call has an armed timer, a waiting goroutine, the pending bit or a call about to start, unless stopped |
| `Debouncer.ComesToRest` | internal/filewatch/debounce.go:51-77 | Without new triggers only a bounded number of steps can follow |
| `Debouncer.EveryTriggerIsServed` | internal/filewatch/debounce.go:39-77 | At rest and not stopped, every trigger has been followed by a call that began after it |
| `Debouncer.Debouncer.Trigger` | internal/filewatch/debounce.go:39-49 | The method is that step of the system |
| `Debouncer.Debouncer.FireEnter` | internal/filewatch/debounce.go:51-63 | The first critical section of fire, and whether the goroutine goes on to the loop |
| `Debouncer.Debouncer.LoopAgain` | internal/filewatch/debounce.go:65-76 | The critical section of the loop, and whether the callback runs again |
| `Debouncer.Debouncer.Stop` | internal/filewatch/debounce.go:80-87 | The method is that step of the system |
| `RateLimiter.Limiter.Check` | internal/ratelimit/limiter.go:37-67 | Allowed exactly if the user is not cooling down and the key, the channel and the user joined by a colon, is new or its window has room; the new state, in which no other key changes |
| `RateLimiter.Limiter.SetCooldown` | internal/ratelimit/limiter.go:70-74 | The cooldown ends the given time from now |
| `RateLimiter.Limiter.Cleanup` | internal/ratelimit/limiter.go:77-94 | Exactly the windows and cooldowns that are over go |
| `RateLimiter.Limiter.UpdateConfig` | internal/ratelimit/limiter.go:97-103 | New settings; windows and cooldowns are kept |
| `RateLimiter.Serve` | internal/ratelimit/limiter.go:37-94 | The results of the program's Checks in a run are those the theorems speak of |
| `RateLimiter.AtMostTwiceMaxPerPeriod` | internal/ratelimit/limiter.go:37-94 | However Checks, cooldowns and Cleanups are mixed, an interval as long as the period contains at most 2 * max allowed Checks of a key |
| `RateLimiter.AtMostTwiceMaxExactly` | internal/ratelimit/limiter.go:37-94 | That bound holds in all runs exactly if the maximum is at least 1 |
| `RateLimiter.RefusedInCooldown` | internal/ratelimit/limiter.go:41-46 | Over all runs: from the setting of a user's cooldown to its end no Check of that user is allowed, unless the cooldown is set anew |
| `RateLimiter.AllowedWhenQuiet` | internal/ratelimit/limiter.go:37-67 | And a user who is not in cooldown and had fewer than max messages of the key let through in the last period is let through, wherever cleanups were made |
| `RateLimiter.RunKeepsInv` | internal/ratelimit/limiter.go:37-94 | The window invariant behind it |
| `RateLimiter.CleanupIsInvisible` | internal/ratelimit/limiter.go:77-94 | With a maximum of at least 1, Cleanups anywhere in a run change no Check's result |
| `RateLimiter.CleanupIsInvisibleExactly` | internal/ratelimit/limiter.go:48-64 | They do so in all runs exactly if the maximum is at least 1 |
| `RateLimiter.CleanupIsVisible` | internal/ratelimit/limiter.go:58-64 | The run for the other direction: a key's first message gets through whatever the maximum |
| `KeyCase.RestoreKeyCase` | internal/config/keycase.go:33-128 | The walk computes Restore, for decoded maps without keys that differ only in case |
| `KeyCase.RestoreMap` | internal/config/keycase.go:81-127 | The map case, whatever order the keys are visited in |
| `KeyCase.RestoreStruct` | internal/config/keycase.go:49-74 | The struct case: squashed, skipped, unexported and matched fields, and empty mappings kept |
| `KeyCase.FindFold` | internal/config/keycase.go:163-178 | The exact key's entry, else that of the least key equal ignoring case, else none |
| `KeyCase.RestoresTheFile` | internal/config/keycase.go:33-128 | For every tree of mappings with keys as loading leaves them, the file's tree comes back; siblings that differ only in case all survive with their own values |
| `KeyCase.PartComesBack` | internal/config/keycase.go:33-128 | Wherever a configuration has such a tree, behind any pointers, structs (squashed or not) and lists, the part of the file for it comes back as it is there |
| `KeyCase.OtherPartsKept` | internal/config/keycase.go:49-80 | A part of the configuration that the file has nothing for is kept: an unexported or skipped field, one without an entry, an item of a list of another length |
| `KeyCase.FieldRestored` | internal/config/keycase.go:136-143 | A struct field gets its part of the file back, and a nil map that the file sets to {} becomes an empty one |
| `KeyCase.OtherEntriesKept` | internal/config/keycase.go:104-105 | An entry that is not in the file is kept unchanged |
| `KeyCase.KeyComesBack` | internal/config/keycase.go:106-110 | A key with one spelling in the file comes back under that spelling, its value restored from there |
| `KeyCase.CollidingKeysSurvive` | internal/config/keycase.go:111-121 | Each of several keys that differ only in case comes back with what the file has for it |
| `SplitMessage.SplitMessage` | internal/utils/helpers.go:9-59 | The loop computes Split for every message and limit; None is an index out of range |
| `SplitMessage.FindCut` | internal/utils/helpers.go:27-50 | Where a chunk ends: the last space before the last character boundary within the limit, or that boundary, or the first character's end |
| `SplitMessage.Cut` | internal/utils/helpers.go:27-50 | A cut makes progress, and a word is broken only if the chunk has no space to break at |
| `SplitMessage.CutIsLatest` | internal/utils/helpers.go:27-50 | And it is as late as it can be: no space lies between it and the limit, nor, if it is not at a space, the start of a character |
| `SplitMessage.WellFormedExactly` | internal/utils/helpers.go:34-36 | A text starts with a well-formed sequence of n bytes exactly if those are the encoding of a character (section 3 of RFC 3629) |
| `SplitMessage.SplitWithinLimit` | internal/utils/helpers.go:9-59 | From a limit of 4 bytes up, every message is split without a panic into non-empty chunks within the limit |
| `SplitMessage.SplitWithinLimitExactly` | internal/utils/helpers.go:9-59 | For any bytes and any positive limit, that holds exactly if no well-formed character takes more bytes than the limit, wherever it begins |
| `SplitMessage.FitsExactly` | internal/utils/helpers.go:28-40 | For valid UTF-8 that means that every one of its characters fits |
| `SplitMessage.SplitPanicsExactly` | internal/utils/helpers.go:9-59 | For every message and limit: it indexes out of range exactly if the limit is positive and the message ends in a well-formed character of more bytes than that |
| `SplitMessage.SplitPanics` | internal/utils/helpers.go:9-59 | So it does for one two-byte character and a limit of 1 |
| `SplitMessage.SplitKeepsCharactersWhole` | internal/utils/helpers.go:28-40 | The chunks of valid UTF-8 (section 4 of RFC 3629) are valid UTF-8 |
| `SplitMessage.SplitRebuilds` | internal/utils/helpers.go:52-56 | Putting the dropped spaces back rebuilds the message, whatever its bytes |
| `SplitMessage.SplitDropsSpaces` | internal/utils/helpers.go:52-56 | A space at a cut is always dropped |
| `ToolLoop.RequestCompletionSlot` | internal/ai/client.go:443-484 | The attempts for one completion and how it ends: a result only from the last attempt, whose answer has no tool calls or valid ones; a failure for good ends it; it is given up only when all attempts failed for the moment or had invalid tool calls; with feedback on the latest invalid ones |
| `ToolLoop.AtMostOneFeedback` | internal/ai/client.go:449-457 | Every attempt sends the conversation and at most one feedback, the first none; no feedback is kept |
| `ToolLoop.FeedbackIsLatest` | internal/ai/client.go:449-482 | The feedback is a user message that names what was wrong with the latest invalid tool calls, and there is none if there were none |
| `ToolLoop.ExecuteCalls` | internal/ai/client.go:510-531 | The handler gets the calls in order, each once; one result message per call, in order, with the call's ID; its text is what the handler returned, or the text of its error, or a fixed one if that is blank |
| `ToolLoop.RunToolLoop` | internal/ai/client.go:486-542 | What is sent and executed is a run, and the handler got the calls of its rounds and no other; the answer returned is the last one without tool calls; at most maxIterations rounds |
| `ToolLoop.RequestShape` | internal/ai/client.go:486-542 | Every request is the conversation of the rounds so far plus at most one feedback |
| `ToolLoop.ConversationInBlocks` | internal/ai/client.go:503-531 | The conversation is the initial messages, then per round one assistant message with the answer's content, reasoning and calls, followed by exactly its tool results, in call order with matching IDs and the results' texts |
| `ToolLoop.ResultsTellOutcomes` | internal/ai/client.go:510-531 | In every run the text of a tool result is what the handler made of that very call, or its error's text, or the fixed one |
| `ToolLoop.OnlyValidCallsExecuted` | internal/ai/client.go:472-531 | The calls of a round are those of an answer whose arguments are valid |
| `ToolLoop.ExecutedIsOfValidAnswer` | internal/ai/client.go:472-531 | Every call handed to the handler is one of an answer whose arguments are valid |
| `ToolLoop.RequestsAreBounded` | internal/ai/client.go:443-542 | There are at most (maxIterations + 1) * (retryCount + 1) requests |
| `Frames.Decoder.ReadChunks` | internal/plugin/frame.go:53-81 | Reading in chunks finds the line, its whole size and whether that exceeds the limit, for any buffer size; an oversize line is drained and only its head kept |
| `Frames.Decoder.ReadLine` | internal/plugin/frame.go:53-81 | The next line, finished or ended by a clean end of stream; else an error |
| `Frames.Decoder.Decode` | internal/plugin/frame.go:86-104 | The next outcome of the stream is returned and the others are left unchanged |
| `Frames.LinesAreIndependent` | internal/plugin/frame.go:39-45 | A line yields at most one outcome and has no effect on those after it |
| `Frames.ProgramYieldsExpectedExactly` | internal/plugin/frame.go:91-97 | With the program's sizes and white space, a line yields the outcome it should except exactly when it is over the limit and either its first 64 MiB are blank and it is not, or it is blank and the limit falls within one of its characters |
| `Frames.LongBlankHeadIsDropped` | internal/plugin/frame.go:91-97 | The input for the first: 64 MiB of spaces and one character yield nothing |
| `Frames.CutBlankLineIsReported` | internal/plugin/frame.go:91-97 | The input for the second: a blank line ending in a no-break space across the limit is reported as malformed |
| `Frames.BlankIsTrimmed` | internal/plugin/frame.go:91-97 | Trimming leaves nothing exactly of texts made of white space characters |
| `Frames.TrimSplits` | internal/plugin/frame.go:91-93 | Trimming takes white space characters off both ends, as many as there are, and leaves the rest as it is |
| `Frames.SpaceAtExactly` | internal/plugin/frame.go:91-93 | Those characters are the encodings of Unicode's white space |
| `Frames.ProgramKeepsTheLimit` | internal/plugin/frame.go:14-16 | With the program's sizes, that head is the line's first 64 MiB |
| `Frames.StreamYieldsExpected` | internal/plugin/frame.go:86-104 | If no line is such, a stream yields one outcome per non-blank line, in order |
| `JsonRpc.Client.Call` | internal/plugin/jsonrpc.go:123-200 | A call on a live transport gets the next number and ends with the first frame that is no notification and carries it, or kills the transport; an error in that frame is the call's error, else a result that decodes, or none, is exactly the call's result, else the call fails; malformed frames, notifications and stale replies are passed over; a dead transport reads nothing; all that is read is read by one call, in order |
| `JsonRpc.Client.Await` | internal/plugin/jsonrpc.go:152-199 | The loop of a call |

## Left out

- TwoTier.SyncCompletes: says that a vector is there, not that it is of the newest text; after an update whose vector write failed the sync sees the ID as present.
- TwoTierClient.Client.SearchAndHydrate: scores and the score bound are left open; the index may answer with any points it holds, in any order.
- TwoTierClient.Client.SyncVectors: the two counts it logs at the start, and its errors when they fail, are not modelled.
- TwoTierClient.Client.UpsertMemory: back-off delays between retries are not modelled; the number of retries is bounded by the setting.
- Migration.MigrationIsCrashSafe: one service runs at a time and the legacy collection does not change. The code does not give the first: a reload that rebuilds the memory service runs the migration of the new one while the old one still serves (internal/app/memory.go:185-204).
- Migration.Service.CopyOnePage: the vectors that may be copied along with a page are not modelled, as the background sync fills in what is missing; a failure to write them ends the start like one to write the records.
- Migration.Service.NewService: which records the repair scan finds damaged is arbitrary, and so is which of their deletes succeed.
- Migration.DecideVectorReuse: similarities are exact reals.
- MediaCache.Cache.DoEnter: a nil cache and the empty key bypass the cache in the code and are not modelled.
- MediaCache.Cache.DoStore: a store and a change of pins read the clock once here; the code reads it once more for the prune that follows.
- MediaCacheRuns.AnswersAreTheKeysResult: nothing is said of the text stored by a computation that was in flight during a deletion by prefix.
- MediaCache.SortByUse: stands for the library's sort; ties between equally old entries are open.
- Fetcher.FetchPaginated: waiting times between retries are not modelled; cancellation may come before any request or during a wait.
- ContextWindow.WindowOnlyGrows: for an append-only channel with fixed limit and flush; replies cancelled by the clear-context command are not modelled.
- Consolidation.Buffers.Add: the interval is taken as non-negative, as configuration validation requires.
- Consolidation.SortedRearranges: stands for the library's stable sort.
- ConfigDiff.AnyIffSubtreesDiffer: assumes distinct dot-free sibling keys and no interface outside lists and maps, as the configuration has; Go arrays and NaN are not modelled, and for an interface holding different types on both sides, where Go may panic, the path is named.
- Reloader.Program.Apply: panics of Commit and Abort, which the code recovers from, are not modelled, and those of Prepare come at its start or past an opening; the closing of what was replaced, which the code leaves to goroutines and timers, is only recorded as under way.
- Reloader.Program.LogPrepare: whether a rebuild is needed is decided by one setting that stands for file and rotation.
- Reloader.Program.MemoryPrepare: what the service is built from is two settings, the embedding endpoint and the rest; maintenance jobs started and stopped by a replacement are not modelled.
- Reloader.Program.BotPrepare: rebuilding the media processor and the limiter after a commit changes no resource and is not modelled.
- Debouncer.EveryTriggerIsServed: times are not modelled, so nothing is said of how long a burst is quiet before the call.
- RateLimiter.AtMostTwiceMaxPerPeriod: for fixed settings; the key joins channel and user by a colon, as the code does.
- KeyCase.RestoreKeyCase: works on values, so that sharing between the maps of the decoded configuration is not modelled; letter case and weak decoding are arbitrary functions; a YAML mapping's keys are given as text.
- KeyCase.RestoresTheFile: assumes decoding into an interface gives the file's value, and no empty nested mappings, which loading drops; those of struct fields are covered by FieldRestored.
- ToolLoop.RunToolLoop: the argument checks are an arbitrary function of the calls; token usage is not modelled.
- Frames.Decoder.Decode: parsing is an arbitrary function.
- JsonRpc.Client.Call: other goroutines may mark the transport dead at any time; request encoding and notification handlers are not modelled.
- The maintenance jobs that merge, decay and prune memories, their scoring, and prompt assembly.
- Discord sessions, HTTP clients, the plugin processes, ffmpeg, the MCP protocol, templates and web pages.
- Logging, configuration validators, error classification and regular expressions: many simple cases.
