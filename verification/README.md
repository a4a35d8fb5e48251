# Verified models of the openDAQ OPC UA modules

This project models, in Dafny, the parts of the openDAQ OPC UA client and server modules in which state, concurrency or
arithmetic make mistakes easy, and proves what those parts are for. Run `dafny verify dfyconfig.toml` to check it.

* **Sampling scheduler.** One thread samples all monitored items of a device. `SamplingItems` is its list and its decision
  under the mutex, `SamplingScheduler` the object, `SchedulerProtocol` the transition system of the loop thread, the other
  threads, the condition variable, the clock and the owners' reference counts. Spurious wake-ups, calls that unregister
  their own item, and owners that die at any moment are steps of it. `SchedulerFairness`, `SchedulerProgress`,
  `SchedulerSafety` and `SchedulerRevalidation` hold the theorems over runs, `SchedulerExamples` two concrete runs.
* **Cached reference browser.** The server is a finite graph that answers Browse (section 5.8.2 of OPC 10000-4).
  `BrowserSpec` says what a finished crawl is, `CachedReferenceBrowser` is the object with its nested loops and recursion,
  `Invalidation` what invalidating drops, `FilterLaws` what a filtered browse returns. `SubtypeTest` is the recursion of the
  cached type test, with two servers in `SubtypeExamples`; `TypeHierarchy` is the HasSubtype relation (section 7.10 of
  OPC 10000-3) and the depth-limited walk of the client module.
* **bcrypt.** `Base64`, `Blowfish`, `KeySchedule`, `EksBlowfish`, `BCrypt` and `Passwords` go from the coding of groups to
  hashing and verifying, on bit-vectors; `EksLaws` and `BCryptLaws` tie them to definitions of their own, up to the published
  cipher and the text of a hash. The constant tables are arbitrary parameters, so every theorem holds for all of them.
* **Aligned data gathering.** `SyncAlignment`, over the number theory in `Divisibility`. Rates are positive rationals.
* **Monitored item.** `MonitoredItem`: validation, descriptor, domain signal and last timestamp over runs; `MonitoredItemLaws`
  says of each operation what it leaves and of each packet where it comes from.
* **Server sessions.** `ServerLock` is the configuration lease and the password; `ClientRegistry` the registry of clients,
  fed by session steps and by background look-ups that race with disconnects and the stop; `ClientRegistryLaws` tells what a
  run leaves of one client.

Objects whose methods update fields are classes. Their methods are proved against functions of the old state, and the
theorems are about those functions and about runs of them.

## Where the code does not do what is promised

Each comes with the condition under which the promise holds, and with an input on which it fails.

* One `onConnectionRestored` per item and reconnect: an item registered twice gets two
  (`OncePerItemNeedsDistinct`, `CalledTwiceIff`; `TwiceRegisteredIsRestoredTwice`).
* Recursive invalidation reaches the direct forward children only (`DropsAllBelowIff`; `GrandchildStaysCached`); browsing
  again still restores everything (`InvalidateThenBrowse`).
* A filtered browse loses a node when the only references to it share their names with earlier ones, also when nothing is
  filtered (`NoFilterKeepsNodesIff`; `SharedNameLosesNode`).
* The cached subtype test need not end on a circle (`TestEndsIff`; `SelfSubtypeHangs`).
* The two subtype tests differ when a base lies only beyond the depth limit (`WalkAgreesWithTest`; `WalkMissesDistantBase`).
* A cost computed in one byte wraps round: 2564 is taken for 4 (`CostIsKeptIff`, which has both; `HashSucceedsIff`).
* A channel that loses timing after data was delivered, or whose counter falls behind, makes the gatherer ask for a negative
  number of samples, which the code casts to an unsigned one (`AsksBackwardsIff`, `CallKeepsAlignmentIff`;
  `LostTimingAsksBackwards`).
* A session that is activated again leaves a connected client behind for good (`ListedIsRegisteredIff`;
  `SecondActivationLeaks`).
* Closing a session does not end a lease taken under another token (`CloseEndsLeaseIff`; `LeaseOutlivesSession`).
* Locking with an empty password reports success without locking (`LockThenUnlock`; `EmptyPasswordLocksNothing`).

## Hypotheses

* Browser: the address space does not change during a call; one result per requested node; no continuation points. A status
  that is neither Good, BadUserAccessDenied nor BadNodeIdUnknown ends the crawl; then the marked nodes keep empty entries and
  only `Bounded` is claimed. Indices are lists in the order of insertion, which is the order the code's maps keep.
* Scheduler: the clock is monotone; time points are unbounded integers. Registrations are numbered to tell entries apart;
  nothing decides on the number.
* bcrypt: the self-test is an input, and the theorems on hashing are about calls on which it passes.
* Alignment: buffers have room for at least one sample, counters are not negative, counts are unbounded, and a channel
  delivers what it is asked for, as the code asserts.
* Monitored item: the node checks throw nothing but the client's own exception, and packets can be sent. Whether a
  value has the standard type of its kind is a property of the value; on macOS the code compares types by name instead.
* Registry: numbers given out by the device are new and not zero; one life of the server, from start to stop.
* Lock: operations do not overlap in time; each takes its readings of the clock in order.

## Model

| member | source | states |
|---|---|---|
| `SchedulerFairness.BoundedBypass` | shared/libraries/opcuageneric/opcuageneric_client/src/sampling_scheduler.cpp:172-199 | In every run, while an entry is due and stays registered, fewer samples are taken than there were entries; each is of another entry registered before that moment, and no entry is sampled twice. |
| `SchedulerFairness.BypassBudget` | shared/libraries/opcuageneric/opcuageneric_client/src/sampling_scheduler.cpp:178-199 | Samples taken while an entry is due, plus the entries still ahead of it, never exceed the entries that were ahead of it at first. |
| `SchedulerFairness.RivalStep` | shared/libraries/opcuageneric/opcuageneric_client/src/sampling_scheduler.cpp:178-198 | No step of any thread puts a new entry ahead of a due one, and the entry that is sampled was ahead and no longer is. |
| `SchedulerFairness.DeadlinesKeepTheRate` | shared/libraries/opcuageneric/opcuageneric_client/src/sampling_scheduler.cpp:32-39 | Over any run a deadline is at least the earlier one plus all intervals used since, and exactly that when no sample was a whole interval late: no drift. |
| `SchedulerFairness.NoCatchUpBurst` | shared/libraries/opcuageneric/opcuageneric_client/src/sampling_scheduler.cpp:178-198 | Two samples of one entry are further apart in time than the sum of the intervals of the samples between them, whatever was late before. |
| `SchedulerProgress.DueIsSampledSoon` | shared/libraries/opcuageneric/opcuageneric_client/src/sampling_scheduler.cpp:161-199 | In every run a due entry whose item stays registered, whose owner lives, and while the scheduler is not stopped, is sampled by the decision after as many as there were entries ahead of it, revalidation passes not counted. |
| `SchedulerProgress.DueIsSampledWithinList` | shared/libraries/opcuageneric/opcuageneric_client/src/sampling_scheduler.cpp:161-199 | The same counted on the list: as many decisions as it has entries are enough. |
| `SchedulerProgress.DueIsSampled` | shared/libraries/opcuageneric/opcuageneric_client/src/sampling_scheduler.cpp:178-198 | Without a stop or a revalidation, the first entry of least deadline is sampled when it is due and its owner lives: its item is called, its deadline moved on, the rest left. |
| `SchedulerProgress.DeadIsForgotten` | shared/libraries/opcuageneric/opcuageneric_client/src/sampling_scheduler.cpp:188-194 | When its owner is gone that entry leaves the list, and no other. |
| `SchedulerProgress.EntryStays` | shared/libraries/opcuageneric/opcuageneric_client/src/sampling_scheduler.cpp:61-199 | In every step of every thread an entry stays as it is unless its item is unregistered, its owner is gone or it is sampled. |
| `SchedulerProgress.SampledStays` | shared/libraries/opcuageneric/opcuageneric_client/src/sampling_scheduler.cpp:196-198 | An entry that is sampled stays in the list with its deadline moved on by the rule of the intervals. |
| `SchedulerProgress.DecisionTakesRival` | shared/libraries/opcuageneric/opcuageneric_client/src/sampling_scheduler.cpp:178-198 | Every decision but the start of a pass takes one entry out of the way of a due one. |
| `SchedulerProgress.DestroyedIff` | shared/libraries/opcuageneric/opcuageneric_client/src/sampling_scheduler.cpp:91-121 | A step of any thread destroys an owner exactly when it takes away the last reference to it. |
| `SchedulerProgress.TurnCallsIff` | shared/libraries/opcuageneric/opcuageneric_client/src/sampling_scheduler.cpp:131-145 | A turn of a pass calls its item exactly if the item has an entry and the owner of the first of them lives. |
| `SchedulerProtocol.InvHolds` | shared/libraries/opcuageneric/opcuageneric_client/src/sampling_scheduler.cpp:61-199 | What every step of every thread keeps: who holds the mutex, that running calls have live owners, and that a blocked thread has a reason to be or a wake-up coming. |
| `SchedulerProtocol.InvStep` | shared/libraries/opcuageneric/opcuageneric_client/src/sampling_scheduler.cpp:61-199 | One step of the loop, of a register, unregister, reconnect or stop, of a notification, of the clock, or of a reference count keeps that invariant. |
| `SchedulerSafety.NoMissedWakeUp` | shared/libraries/opcuageneric/opcuageneric_client/src/sampling_scheduler.cpp:148-186 | A blocked thread with no notification sent or owed is running, sleeps past no deadline, and waits without a deadline only for an empty list; in the poll and in the wait for a deadline no revalidation is pending either. In the wait for an item one may be. |
| `SchedulerExamples.IdleKeepsPassWaiting` | shared/libraries/opcuageneric/opcuageneric_client/src/sampling_scheduler.cpp:172-176 | A run in which the thread waits for an item, with a revalidation pending and no wake-up coming. |
| `SchedulerSafety.CallsAreSafe` | shared/libraries/opcuageneric/opcuageneric_client/src/sampling_scheduler.cpp:91-121 | While item code runs and until its owner is released, the owner is alive and the mutex is free, so unregistering from inside a call cannot block. |
| `SchedulerSafety.CallStep` | shared/libraries/opcuageneric/opcuageneric_client/src/sampling_scheduler.cpp:131-198 | A call is selected only for a registered item with a live owner, and a sample only when it is due and no revalidation is pending. |
| `SchedulerSafety.NoCallAfterUnregister` | shared/libraries/opcuageneric/opcuageneric_client/src/sampling_scheduler.cpp:73-80 | In every interleaving no call starts into an item after its unregistration, until it is registered again. |
| `SchedulerRevalidation.RevalidationPrecedesSampling` | shared/libraries/opcuageneric/opcuageneric_client/src/sampling_scheduler.cpp:161-170 | Between a reconnect and the next sample a whole pass runs, over everything registered when it started, and the thread does not leave it before all its turns are taken. |
| `SchedulerRevalidation.EachRestoredBeforeSampling` | shared/libraries/opcuageneric/opcuageneric_client/src/sampling_scheduler.cpp:123-170 | Between a reconnect and the next sample each of distinct items registered at the start of the pass is restored exactly once if it is still registered with a live owner at its turn, and not at all otherwise. |
| `SchedulerRevalidation.PassTakesTurnsInOrder` | shared/libraries/opcuageneric/opcuageneric_client/src/sampling_scheduler.cpp:123-146 | A pass takes one turn for each place of its snapshot, in order, and restores exactly the items registered with a live owner at their turn, whatever registers or unregisters meanwhile. |
| `SchedulerRevalidation.FinishedPassCallsOnce` | shared/libraries/opcuageneric/opcuageneric_client/src/sampling_scheduler.cpp:123-146 | A finished pass over distinct items restores each exactly once if it can be called at its turn and never otherwise. |
| `SchedulerRevalidation.CalledTwiceIff` | shared/libraries/opcuageneric/opcuageneric_client/src/sampling_scheduler.cpp:123-146 | In any whole pass an item is restored at all exactly when one of its turns can call it, and more than once exactly when two can. |
| `SchedulerRevalidation.OncePerItemNeedsDistinct` | shared/libraries/opcuageneric/opcuageneric_client/include/opcuageneric_client/sampling_scheduler.h:25-58 | When all turns can call, the promise of one call per item holds exactly when no item is registered twice. |
| `SchedulerExamples.TwiceRegisteredIsRestoredTwice` | shared/libraries/opcuageneric/opcuageneric_client/src/sampling_scheduler.cpp:61-146 | The run on which the promise fails: an item is registered twice, the connection restored, and the one pass restores it twice. |
| `SamplingItems.AdvanceDeadline` | shared/libraries/opcuageneric/opcuageneric_client/src/sampling_scheduler.cpp:32-39 | From a due deadline the next one is after now and at most one interval (of 1 ms or more) from now, and exactly one interval on when that is still to come. |
| `SamplingItems.FirstDue` | shared/libraries/opcuageneric/opcuageneric_client/src/sampling_scheduler.cpp:178-179 | The entry chosen has the least deadline and is the first in the list among equal ones. |
| `SamplingScheduler.Scheduler.UnregisterItem` | shared/libraries/opcuageneric/opcuageneric_client/src/sampling_scheduler.cpp:73-80 | Removes every entry of the item and keeps the rest in order. |
| `SamplingScheduler.Scheduler.LockedSection` | shared/libraries/opcuageneric/opcuageneric_client/src/sampling_scheduler.cpp:161-198 | One critical section: its decision and its whole effect on the guarded state are those the protocol uses. |
| `SamplingScheduler.Scheduler.RevalidationTurn` | shared/libraries/opcuageneric/opcuageneric_client/src/sampling_scheduler.cpp:136-142 | Whether the item of a turn is called: its first entry exists and the owner can be referenced. |
| `SamplingScheduler.Scheduler.MinElement` | shared/libraries/opcuageneric/opcuageneric_client/src/sampling_scheduler.cpp:178-179 | The search loop returns the first of the earliest deadlines. |
| `CachedReferenceBrowser.Browser.BrowseMultiple` | shared/libraries/opcua/opcuaclient/src/cached_reference_browser.cpp:129-140 | Terminates on every finite graph, for every batch size; when no call fails it returns normally if and only if no node it comes to has a status that is not tolerated; the cache is then a finished crawl, and however it ends nothing outside the crawl has changed. |
| `CachedReferenceBrowser.LevelProgress` | shared/libraries/opcua/opcuaclient/src/cached_reference_browser.cpp:129-140 | Why it terminates although a level may browse nodes again: what is left to do strictly decreases from level to level. |
| `CachedReferenceBrowser.NextCrawl` | shared/libraries/opcua/opcuaclient/src/cached_reference_browser.cpp:138-139 | The crawl of what a level queued completes the crawl of the level, including which node a bad status belongs to. |
| `BrowserSpec.CrawlKeys` | shared/libraries/opcua/opcuaclient/src/cached_reference_browser.cpp:129-140 | After a crawl a node is cached if and only if it was before or is reached from the requested nodes without passing through a cached one. |
| `BrowserSpec.EntryAfterCrawl` | shared/libraries/opcua/opcuaclient/src/cached_reference_browser.cpp:226-262 | What a finished crawl leaves of a node, by the server's answer: a node asked for, or new, has the index of a good answer, keeps its own or an empty entry when access is denied or it is unknown, and has no other status; all else is as it was. |
| `CachedReferenceBrowser.NoneBadInCrawl` | shared/libraries/opcua/opcuaclient/src/cached_reference_browser.cpp:239-244 | A finished crawl came to no node with another status. |
| `CachedReferenceBrowser.BadHasOtherStatus` | shared/libraries/opcua/opcuaclient/src/cached_reference_browser.cpp:239-244 | The node a crawl stops at answered with a status that is neither good, nor a denied access, nor an unknown node. |
| `BrowserSpec.CrawlUnique` | shared/libraries/opcua/opcuaclient/src/cached_reference_browser.cpp:129-140 | Two finished crawls of the same nodes from the same cache are equal: neither batch size nor order matters. |
| `BrowserSpec.CrawlKeepsCoherent` | shared/libraries/opcua/opcuaclient/src/cached_reference_browser.cpp:226-262 | From a cache that agrees with the server and is closed under forward references, a crawl adds exactly what is forward-reachable and leaves such a cache. |
| `BrowserSpec.CoherentIsClosed` | shared/libraries/opcua/opcuaclient/src/cached_reference_browser.cpp:226-262 | Such a cache holds everything reachable from its nodes. |
| `BrowserSpec.InvalidateThenBrowseRestores` | shared/libraries/opcua/opcuaclient/src/cached_reference_browser.cpp:19-45 | The same whichever of the forward targets were dropped with the node. |
| `ReferenceGraph.IndexIsFirstWins` | shared/libraries/opcua/opcuaclient/src/cached_reference_browser.cpp:249-259 | Both indices of an entry list exactly the first reference of each key, in order. |
| `CachedReferenceBrowser.Browser.ProcessAnswer` | shared/libraries/opcua/opcuaclient/src/cached_reference_browser.cpp:233-261 | A good answer replaces the entry, a denied or unknown node keeps its own, any other status is an error that changes nothing. |
| `CachedReferenceBrowser.Browser.ProcessBrowseResults` | shared/libraries/opcua/opcuaclient/src/cached_reference_browser.cpp:226-262 | Takes in the answers of a batch up to the first bad status, and says whose it was. |
| `CachedReferenceBrowser.Browser.BrowseBatch` | shared/libraries/opcua/opcuaclient/src/cached_reference_browser.cpp:180-224 | One request of at most the batch size: all its nodes are marked, then answered in order. |
| `CachedReferenceBrowser.Browser.FillEntry` | shared/libraries/opcua/opcuaclient/src/cached_reference_browser.cpp:246-260 | The new entry is the index of the references, and exactly the forward targets not cached yet are queued, in order, with repetitions. |
| `CachedReferenceBrowser.Browser.Browse` | shared/libraries/opcua/opcuaclient/src/cached_reference_browser.cpp:11-17 | Leaves every entry cached before as it was; an uncached node is crawled, a cached one costs nothing. |
| `CachedReferenceBrowser.Browser.BrowseOne` | shared/libraries/opcua/opcuaclient/src/cached_reference_browser.cpp:142-178 | The node is accessible exactly when the call is served and its answer good; otherwise the cache is untouched, and else its crawl is completed. |
| `CachedReferenceBrowser.Browser.Invalidate` | shared/libraries/opcua/opcuaclient/src/cached_reference_browser.cpp:19-45 | Drops the entry and, in the recursive form, those of the direct forward children only. |
| `Invalidation.DropsAllBelowIff` | shared/libraries/opcua/opcuaclient/src/cached_reference_browser.cpp:19-45 | The recursive form drops everything cached that is reached from the node if and only if no cached child refers forward to a cached node that is neither the node nor another child. |
| `Invalidation.GrandchildStaysCached` | shared/libraries/opcua/opcuaclient/src/cached_reference_browser.cpp:19-45 | The cache on which it fails, one that crawling a server of three nodes in a chain leaves: the last node stays cached. |
| `Invalidation.InvalidateThenBrowse` | shared/libraries/opcua/opcuaclient/src/cached_reference_browser.cpp:19-45 | Invalidating a node of a cache that agrees with the server, in either form, and browsing it again restores the very cache of before. |
| `Invalidation.DroppedAreTargets` | shared/libraries/opcua/opcuaclient/src/cached_reference_browser.cpp:24-34 | What is dropped beside the node are forward targets that the server has for it. |
| `CachedReferenceBrowser.Browser.BrowseLevel` | shared/libraries/opcua/opcuaclient/src/cached_reference_browser.cpp:129-136 | One level: every requested node is marked and answered, however the requests are cut into batches. |
| `CachedReferenceBrowser.Browser.FinishLevel` | shared/libraries/opcua/opcuaclient/src/cached_reference_browser.cpp:138-139 | The recursive call on what a level queued, and none on an empty queue, finishes the crawl. |
| `CachedReferenceBrowser.Browser.SubtypeSearch` | shared/libraries/opcua/opcuaclient/src/cached_reference_browser.cpp:47-63 | The recursion below a base returns the answer of the specified recursion, of which it needs no more levels. |
| `CachedReferenceBrowser.Browser.SubtypeScan` | shared/libraries/opcua/opcuaclient/src/cached_reference_browser.cpp:54-62 | The loop over the subtypes of a base, whose entry stays in place while nested tests fill the cache. |
| `CachedReferenceBrowser.Browser.PassesFilter` | shared/libraries/opcua/opcuaclient/src/cached_reference_browser.cpp:98-109 | The five tests for one reference; a null id, both directions and the unspecified class leave their test out. |
| `CachedReferenceBrowser.Browser.FilterEntry` | shared/libraries/opcua/opcuaclient/src/cached_reference_browser.cpp:96-115 | The loop over the names of an entry: exactly the accepted references, in order, the first of each key. |
| `CachedReferenceBrowser.BoundedKeepsWellKeyed` | shared/libraries/opcua/opcuaclient/src/cached_reference_browser.cpp:249-256 | However a crawl ends, every entry is keyed by its names. |
| `CachedReferenceBrowser.Browser.IsSubtypeOf` | shared/libraries/opcua/opcuaclient/src/cached_reference_browser.cpp:47-63 | Whenever its recursion ends, on cyclic relations too, it returns, and true exactly for the base itself and for non-null types reachable from it along HasSubtype entries; nested browses change no cached entry. |
| `SubtypeTest.TestEndsIff` | shared/libraries/opcua/opcuaclient/src/cached_reference_browser.cpp:47-63 | On every server the recursion ends if and only if no circle of the relation comes before what leads to the type: none below the base that is reached past no subtype leading to the type. So it always ends on a relation without circles (section 7.10 of OPC 10000-3). |
| `SubtypeTest.EndsIff` | shared/libraries/opcua/opcuaclient/src/cached_reference_browser.cpp:47-63 | The same for any lists of subtypes; and it ends exactly when it ends within one level more than there are types with subtypes. |
| `SubtypeTest.AnswerIsReachability` | shared/libraries/opcua/opcuaclient/src/cached_reference_browser.cpp:54-62 | An answer of the recursion, at whatever depth, is reachability along the relation. |
| `SubtypeExamples.SelfSubtypeHangs` | shared/libraries/opcua/opcuaclient/src/cached_reference_browser.cpp:47-63 | The server on which it never ends, from an empty cache: its base type names itself as its subtype, and any other type is asked for. |
| `SubtypeTest.SubtypeGraphIsEntries` | shared/libraries/opcua/opcuaclient/src/cached_reference_browser.cpp:56-59 | The relation has the HasSubtype entries of the cache, or of the server for a node not cached yet, as its edges. |
| `CachedReferenceBrowser.Browser.BrowseFiltered` | shared/libraries/opcua/opcuaclient/src/cached_reference_browser.cpp:91-116 | Exactly the references that pass all five tests, indexed anew in their order, whenever the type tests that are reached end. |
| `FilterLaws.FilteredIff` | shared/libraries/opcua/opcuaclient/src/cached_reference_browser.cpp:96-113 | A filtered browse returns a reference by name exactly if it is in the entry by name and has the wanted reference type, a subtype of the wanted type definition, the wanted direction and the wanted node class, each if one is wanted. |
| `FilterLaws.FilteredNodes` | shared/libraries/opcua/opcuaclient/src/cached_reference_browser.cpp:96-113 | A node is returned exactly if a reference returned by name leads to it, and under it such a reference. |
| `FilterLaws.NoFilterReturnsNames` | shared/libraries/opcua/opcuaclient/src/cached_reference_browser.cpp:96-113 | Without any filter the index by name is returned unchanged. |
| `FilterLaws.NoFilterKeepsNodesIff` | shared/libraries/opcua/opcuaclient/src/cached_reference_browser.cpp:96-113 | Without any filter a node is kept exactly if some reference that is the first of its name leads to it. |
| `FilterLaws.SharedNameLosesNode` | shared/libraries/opcua/opcuaclient/src/cached_reference_browser.cpp:96-113 | The entry on which a node is lost although nothing is filtered: two references of one name. |
| `TypeHierarchy.IsSubtypeOfAny` | modules/opcua_generic_client_module/src/opcua_generic_client_module_impl.cpp:141-161 | The upward walk finds a base among the first 32 types of the chain of first supertypes, and stops at a null type; it terminates on circles. |
| `TypeHierarchy.AncestorStep` | modules/opcua_generic_client_module/src/opcua_generic_client_module_impl.cpp:141-161 | The chain goes from a type to the first supertype listed for it and ends where none is. |
| `TypeHierarchy.BelowIsAncestry` | modules/opcua_generic_client_module/src/opcua_generic_client_module_impl.cpp:141-161 | Where each type has at most one supertype, being below a base is having it among the ancestors. |
| `TypeHierarchy.WalkAgreesWithCache` | modules/opcua_generic_client_module/src/opcua_generic_client_module_impl.cpp:141-161 | The upward walk and the downward test agree if and only if no base lies above the type beyond the depth limit alone; with fewer than 32 ancestors they always agree. |
| `SubtypeTest.WalkAgreesWithTest` | modules/opcua_generic_client_module/src/opcua_generic_client_module_impl.cpp:141-161 | The same for the recursion of the cached test itself on any server and cache, asked for each base. |
| `SubtypeExamples.WalkMissesDistantBase` | modules/opcua_generic_client_module/src/opcua_generic_client_module_impl.cpp:141-161 | The server on which they differ: a chain of 33 types, whose end the walk misses and the test finds. |
| `SubtypeExamples.WalkReachesLimit` | modules/opcua_generic_client_module/src/opcua_generic_client_module_impl.cpp:141-161 | On the same chain the walk still finds the base one step nearer. |
| `Base64.DecodeUndoesEncode` | shared/libraries/opcua/opcuashared/src/bcrypt/crypt_blowfish.c:385-439 | Decoding gives back the bytes for every number of bytes, wherever the text stands. |
| `Base64.EncodeUndoesDecode` | shared/libraries/opcua/opcuashared/src/bcrypt/crypt_blowfish.c:385-439 | Text that decodes re-encodes to itself, but for the unused bits of its last character. |
| `Base64.BF_encode` | shared/libraries/opcua/opcuashared/src/bcrypt/crypt_blowfish.c:409-439 | The loop writes the encoding at its place and touches nothing else. |
| `Base64.BF_decode` | shared/libraries/opcua/opcuashared/src/bcrypt/crypt_blowfish.c:385-407 | The loop succeeds exactly when every character it reads is there and in the alphabet, and then holds the decoded bytes. |
| `Base64.DecodesIff` | shared/libraries/opcua/opcuashared/src/bcrypt/crypt_blowfish.c:376-407 | For every place and number of bytes a decoding exists exactly when all characters it reads are in the alphabet. |
| `Blowfish.EncryptIsBijective` | shared/libraries/opcua/opcuashared/src/bcrypt/crypt_blowfish.c:498-518 | For any subkeys and boxes, every block is the encryption of exactly one block. |
| `Blowfish.ReversedUndoes` | shared/libraries/opcua/opcuashared/src/bcrypt/crypt_blowfish.c:498-518 | Encrypting with the subkeys reversed undoes encryption. |
| `Blowfish.RoundFormsAgree` | shared/libraries/opcua/opcuashared/src/bcrypt/crypt_blowfish.c:455-496 | The round with byte offsets into the boxes computes the same word as the round with indices. |
| `Blowfish.EncryptBlock` | shared/libraries/opcua/opcuashared/src/bcrypt/crypt_blowfish.c:498-518 | Sixteen rounds with alternating halves are the recursive network. |
| `BCryptLaws.EncryptIsTextbook` | shared/libraries/opcua/opcuashared/src/bcrypt/crypt_blowfish.c:498-518 | The cipher is the published one: sixteen rounds in which the left half takes a subkey, the right half takes the round function of the left, and they change places, with the last exchange undone. |
| `BCryptLaws.RoundFunctionIs` | shared/libraries/opcua/opcuashared/src/bcrypt/crypt_blowfish.c:455-493 | The round function is ((S0[a] + S1[b]) xor S2[c]) + S3[d] on the four bytes of a word, the most significant first. |
| `KeySchedule.BF_set_key` | shared/libraries/opcua/opcuashared/src/bcrypt/crypt_blowfish.c:543-643 | For every key: the words of the chosen expansion, and the initial subkeys mixed with them, bit 16 of the first flipped exactly when the safety flag is set and the key needs it. |
| `KeySchedule.WordIsBigEndian` | shared/libraries/opcua/opcuashared/src/bcrypt/crypt_blowfish.c:567-572 | A correctly expanded word is the big-endian word of four bytes of the key with its terminator, repeated without end. |
| `BCryptLaws.BugWordIs` | shared/libraries/opcua/opcuashared/src/bcrypt/crypt_blowfish.c:591-596 | The words of the other expansion: four characters taken with their sign, each merged into those before, moved up by eight bits. |
| `BCryptLaws.InitialSubkeysAre` | shared/libraries/opcua/opcuashared/src/bcrypt/crypt_blowfish.c:612-642 | The initial subkeys word by word: the table with the expansion mixed in, bit 16 of the first flipped exactly when the measure is asked for and needed. |
| `BCryptLaws.NeedsSafetyIff` | shared/libraries/opcua/opcuashared/src/bcrypt/crypt_blowfish.c:597-629 | The measure is needed exactly when all 18 words of both expansions agree and one of their later characters has its top bit set. |
| `KeySchedule.OneWord` | shared/libraries/opcua/opcuashared/src/bcrypt/crypt_blowfish.c:566-598 | The inner loop: both expansions of a word, the place in the key after it, and the flag for a top bit seen in place 2 to 4 so far. |
| `KeySchedule.ExpandAll` | shared/libraries/opcua/opcuashared/src/bcrypt/crypt_blowfish.c:562-603 | The outer loop: all words, zero difference exactly when both expansions agree on all, and the flag over all. |
| `KeySchedule.SafetyBitIsFlip` | shared/libraries/opcua/opcuashared/src/bcrypt/crypt_blowfish.c:612-641 | The branch-free bit arithmetic decides exactly: flag set, all words of both expansions equal, and a top bit set in place 2 to 4 of some word. |
| `KeySchedule.SafetyPreventsCollision` | shared/libraries/opcua/opcuashared/src/bcrypt/crypt_blowfish.c:632-641 | What the measure is for: a key hashed with it sets up the same state as another key hashed without it, by either expansion, exactly when their words agree and the key does not need the measure. |
| `KeySchedule.SameBytesSameSchedule` | shared/libraries/opcua/opcuashared/src/bcrypt/crypt_blowfish.c:567-603 | The schedule depends on the first 72 bytes of the repeated key alone. |
| `EksBlowfish.Workspace.ComputeDigest` | shared/libraries/opcua/opcuashared/src/bcrypt/crypt_blowfish.c:700-766 | The in-place loops over subkeys and boxes compute the digest as a function of the initial tables, key, salt and count. |
| `EksBlowfish.Workspace.SaltBoxes` | shared/libraries/opcua/opcuashared/src/bcrypt/crypt_blowfish.c:709-726 | Filling the boxes four words at a time continues the salt with its third word. |
| `EksBlowfish.BodyIsChained` | shared/libraries/opcua/opcuashared/src/bcrypt/crypt_blowfish.c:524-536 | What an expansion leaves, without its loops: every pair of subkeys is the pair before it, the first one zeros, encrypted under what was there just then, and the boxes continue with the last subkeys under the new ones. |
| `EksLaws.CostlyRoundIs` | shared/libraries/opcua/opcuashared/src/bcrypt/crypt_blowfish.c:725-753 | A costly round: word i of the expanded key is mixed into subkey i, all is expanded; then word i mod 4 of the salt, and all is expanded again. |
| `EksLaws.CostlyIsRounds` | shared/libraries/opcua/opcuashared/src/bcrypt/crypt_blowfish.c:725-753 | The costly setup is so many of these rounds, one after the other. |
| `EksLaws.DigestIs` | shared/libraries/opcua/opcuashared/src/bcrypt/crypt_blowfish.c:700-766 | The digest: the tables expanded with the salt, the costly rounds, then each of the three pairs of magic words encrypted 64 times under the outcome. |
| `EksLaws.SaltedIsChained` | shared/libraries/opcua/opcuashared/src/bcrypt/crypt_blowfish.c:700-723 | The salted expansion: each pair of subkeys, then of box words, is the pair before it, with the next two words of the repeated salt mixed in, encrypted under what was there just then. |
| `EksBlowfish.NoSaltIsPlain` | shared/libraries/opcua/opcuashared/src/bcrypt/crypt_blowfish.c:700-726 | The salted expansion with a salt of zeros is the plain one, subkeys and boxes alike, although it fills the boxes four words at a time. |
| `EksBlowfish.Workspace.SaltSubkeys` | shared/libraries/opcua/opcuashared/src/bcrypt/crypt_blowfish.c:700-707 | The subkeys are filled two at a time, the salt's words alternating in pairs. |
| `EksBlowfish.Workspace.BF_body` | shared/libraries/opcua/opcuashared/src/bcrypt/crypt_blowfish.c:524-536 | Subkeys, then boxes, are filled in place by chained encryptions that use what has been filled so far. |
| `EksBlowfish.Workspace.CostlySetup` | shared/libraries/opcua/opcuashared/src/bcrypt/crypt_blowfish.c:728-755 | As many such rounds as the cost asks for. |
| `BCrypt.BF_crypt` | shared/libraries/opcua/opcuashared/src/bcrypt/crypt_blowfish.c:649-779 | Succeeds exactly for an acceptable setting and a large enough buffer, writes the hash and its terminator, and on failure leaves the buffer alone; the same on either byte order. |
| `BCrypt.BF_swap` | shared/libraries/opcua/opcuashared/src/bcrypt/crypt_blowfish.c:441-453 | Every word of the buffer has its bytes reversed on a little-endian processor and stays on a big-endian one. |
| `BCrypt.SaltFrom` | shared/libraries/opcua/opcuashared/src/bcrypt/crypt_blowfish.c:686-693 | The salt's words are those of the decoded bytes, most significant first, on either byte order. |
| `BCrypt.DigestOut` | shared/libraries/opcua/opcuashared/src/bcrypt/crypt_blowfish.c:774-775 | The 23 bytes that are encoded are those of the digest, most significant first, on either byte order. |
| `Passwords.HashThenVerify` | shared/libraries/opcua/opcuashared/src/bcrypt.cpp:38-69 | Whatever was hashed, for any password, salt and cost, verifies. |
| `Passwords.VerifiesIffSameHash` | shared/libraries/opcua/opcuashared/src/bcrypt.cpp:38-69 | A password is accepted against a hash if and only if hashing it with the same salt and cost gives that hash. |
| `Passwords.HashIsItsOwnSetting` | shared/libraries/opcua/opcuashared/src/bcrypt/crypt_blowfish.c:768-776 | A hash serves as the setting it was made with, for every password. |
| `Passwords.VerifiedIsCanonical` | shared/libraries/opcua/opcuashared/src/bcrypt.cpp:61-69 | Only texts of 60 characters with an acceptable setting and a canonical last salt character ever verify. |
| `Passwords.KeptIsCanonical` | shared/libraries/opcua/opcuashared/src/bcrypt/crypt_blowfish.c:768-770 | The beginning of a hash holds the encoding of the bytes that the salt decodes to. |
| `Passwords.HashSucceedsIff` | shared/libraries/opcua/opcuashared/src/bcrypt.cpp:38-59 | Hashing succeeds exactly when the salt has 22 characters and the first 22 are of the alphabet, and the cost, tens taken in one byte, is from 4 to 31. |
| `Passwords.RoundsWrap` | shared/libraries/opcua/opcuashared/src/bcrypt.cpp:45-49 | Costs that differ by 2560 hash alike. |
| `Passwords.GeneratedSaltIsKept` | shared/libraries/opcua/opcuashared/src/bcrypt.cpp:77-88 | A generated salt holds its 16 bytes, is accepted with every cost from 4 to 31, and stands unchanged in the hash. |
| `Passwords.OnlyFirstCharactersCount` | shared/libraries/opcua/opcuashared/src/bcrypt/crypt_blowfish.c:567-603 | Passwords of 72 or more characters hash by their first 72. |
| `Passwords.CryptRn` | shared/libraries/opcua/opcuashared/src/bcrypt/crypt_blowfish.c:816-877 | Succeeds exactly for an acceptable setting and a self-test that passes; otherwise the buffer holds a magic text that is never the setting itself. |
| `Passwords.HashHasNoNul` | shared/libraries/opcua/opcuashared/src/bcrypt.cpp:55-58 | The C string that is returned is the whole hash. |
| `Passwords.VerifiesIffRehashes` | shared/libraries/opcua/opcuashared/src/bcrypt.cpp:61-69 | A text verifies for a password exactly when hashing the password with the text as setting reproduces the text. |
| `BCryptLaws.HashTextIs` | shared/libraries/opcua/opcuashared/src/bcrypt.cpp:43-58 | The hash, character by character: $2b$, two digits of the cost, a dollar, 21 characters of the salt and one that keeps its decoding, and 31 characters that decode to the first 23 bytes of the digest of the password by the plain expansion. |
| `BCryptLaws.VersionTakes` | shared/libraries/opcua/opcuashared/src/bcrypt/crypt_blowfish.c:645-647 | Only version x takes the expansion with signs, and only a asks for the safety measure. |
| `BCryptLaws.PrefixIff` | shared/libraries/opcua/opcuashared/src/bcrypt/crypt_blowfish.c:675-688 | A setting is acceptable exactly for a dollar, 2, one of a, b, x and y, a dollar, a cost of two digits up to 31 and a dollar; the cost is that number. |
| `Passwords.HashPassword` | shared/libraries/opcua/opcuashared/src/bcrypt.cpp:38-59 | The method returns the specified hash, or the error for a short salt, for a setting that is refused, or for a self-test that fails. |
| `Passwords.Verify` | shared/libraries/opcua/opcuashared/src/bcrypt.cpp:61-69 | The method returns whether the self-test passes and re-hashing with the text as setting reproduces the text. |
| `SyncAlignment.RunStaysAlignedIff` | shared/libraries/opcua/opcuaclient/src/chdatagather/_alignsyncchdatagather.cpp:60-86 | Over any sequence of calls: all requests stay within 0 and the buffer size minus 1 and all channels stay at one common point, a multiple of the LCM, if and only if every call fits what the channels show. |
| `SyncAlignment.CallKeepsAlignmentIff` | shared/libraries/opcua/opcuaclient/src/chdatagather/_alignsyncchdatagather.cpp:60-86 | One call asks for legal amounts and keeps the channels aligned if and only if: there is no channel; or one has no timing and nothing was delivered yet; or all have timing, none is behind, and none is overrun unless there is no common step to make. |
| `SyncAlignment.AsksBackwardsIff` | shared/libraries/opcua/opcuaclient/src/chdatagather/_alignsyncchdatagather.cpp:60-115 | Some channel is asked for a negative number of samples exactly when one is asked and, if all have timing, one is behind what was delivered, else anything was delivered. |
| `SyncAlignment.LostTimingAsksBackwards` | shared/libraries/opcua/opcuaclient/src/chdatagather/_alignsyncchdatagather.cpp:60-115 | The input on which it fails: a channel loses its timing, and the other is asked for -5 samples. |
| `SyncAlignment.GoalIsFurthest` | shared/libraries/opcua/opcuaclient/src/chdatagather/_alignsyncchdatagather.cpp:60-115 | A call delivers the most it can, by the readings alone: the goal is a whole number of samples of every channel, within what each has acquired and what its buffer, one place kept free, has room for; and every point with these properties is at or before it. |
| `SyncAlignment.DeliveredIs` | shared/libraries/opcua/opcuaclient/src/chdatagather/_alignsyncchdatagather.cpp:64-80 | A channel with timing and without overrun is brought to the goal exactly; every other, and all else of it, stays. |
| `SyncAlignment.NoTimingNoGoal` | shared/libraries/opcua/opcuaclient/src/chdatagather/_alignsyncchdatagather.cpp:88-115 | Without channels, or with one that has no timing, the goal is the beginning. |
| `SyncAlignment.DividesIff` | shared/libraries/opcua/opcuaclient/src/chdatagather/_alignsyncchdatagather.cpp:46-56 | A rate divides the largest when this is a whole multiple of it, and that multiple is the divider. |
| `SyncAlignment.AlignedIsSameTime` | shared/libraries/opcua/opcuaclient/src/chdatagather/_alignsyncchdatagather.cpp:60-86 | Aligned channels have delivered the same span of time: their counts are to each other as their rates. |
| `SyncAlignment.MaxRateIsLargest` | shared/libraries/opcua/opcuaclient/src/chdatagather/_alignsyncchdatagather.cpp:35-42 | The rate found is one of the channels' and none is larger. |
| `SyncAlignment.Gather.Start` | shared/libraries/opcua/opcuaclient/src/chdatagather/_alignsyncchdatagather.cpp:31-58 | Succeeds exactly when every rate divides the largest, and then holds the largest rate and the LCM of the dividers. |
| `SyncAlignment.Gather.FindMaxRate` | shared/libraries/opcua/opcuaclient/src/chdatagather/_alignsyncchdatagather.cpp:35-42 | The loop finds the largest rate, none when there is no channel. |
| `SyncAlignment.Gather.FoldDividers` | shared/libraries/opcua/opcuaclient/src/chdatagather/_alignsyncchdatagather.cpp:44-57 | The loop fails at the first rate that does not divide the largest, and otherwise holds the LCM of all dividers. |
| `SyncAlignment.Gather.GetSamplesAcquired` | shared/libraries/opcua/opcuaclient/src/chdatagather/_alignsyncchdatagather.cpp:88-115 | The least limit of all channels, zero when one has no timing or there is none. |
| `SyncAlignment.Gather.GetData` | shared/libraries/opcua/opcuaclient/src/chdatagather/_alignsyncchdatagather.cpp:60-86 | Every channel with timing and without overrun is brought to the goal; the others are left; the state remains that of a started gatherer. |
| `Divisibility.Lcm` | shared/libraries/opcua/opcuaclient/src/chdatagather/_alignsyncchdatagather.cpp:56-56 | The least positive common multiple. |
| `Divisibility.LcmDividesCommonMultiples` | shared/libraries/opcua/opcuaclient/src/chdatagather/_alignsyncchdatagather.cpp:56-56 | The least common multiple divides every common multiple. |
| `Divisibility.CommonIffMultipleOfLcm` | shared/libraries/opcua/opcuaclient/src/chdatagather/_alignsyncchdatagather.cpp:44-57 | A number is a common multiple of the dividers if and only if it is a multiple of their LCM. |
| `MonitoredItem.EveryRun` | shared/libraries/opcuageneric/opcuageneric_client/src/opcua_monitored_item_fb_impl.cpp:190-575 | In every run of samples, property changes and reconnects: the descriptor is the one for the node's data type when the node is valid, every packet has the sample type of its value, and no domain signal carries one timestamp twice in a row. |
| `MonitoredItem.EverySample` | shared/libraries/opcuageneric/opcuageneric_client/src/opcua_monitored_item_fb_impl.cpp:506-575 | In every run a packet is sent only on a configured, valid node, with a timestamp exactly when the mode is not None, on the domain signal of that moment. |
| `MonitoredItem.RunKeepsInv` | shared/libraries/opcuageneric/opcuageneric_client/src/opcua_monitored_item_fb_impl.cpp:312-575 | The invariant behind it: the remembered timestamp is the last one sent on the present domain signal. |
| `MonitoredItem.PublishesIff` | shared/libraries/opcuageneric/opcuageneric_client/src/opcua_monitored_item_fb_impl.cpp:397-556 | When a sample is published: exactly for a valid response with a supported scalar of its standard type, or any point in time, whose timestamp, if one is wanted, is not the remembered one. |
| `MonitoredItem.TimestampIffWanted` | shared/libraries/opcuageneric/opcuageneric_client/src/opcua_monitored_item_fb_impl.cpp:641-659 | After a valid response there is a timestamp exactly when the mode wants one, and it names the microsecond in which the wanted one lies. |
| `MonitoredItem.UnchangedIsDropped` | shared/libraries/opcuageneric/opcuageneric_client/src/opcua_monitored_item_fb_impl.cpp:518-536 | With server or source timestamps an unchanged node is published at most once. |
| `MonitoredItemLaws.LocalClockStamps` | shared/libraries/opcuageneric/opcuageneric_client/src/opcua_monitored_item_fb_impl.cpp:506-556 | With the local clock every packet is stamped with the reading of the clock, and a sample goes out exactly when it was read well, is a readable scalar of a supported type, and the clock has moved on since the last. |
| `MonitoredItemLaws.GivenTimeStamps` | shared/libraries/opcuageneric/opcuageneric_client/src/opcua_monitored_item_fb_impl.cpp:641-650 | With the server's or the source's timestamp every packet names the microsecond of that timestamp of its own response. |
| `MonitoredItemLaws.PublishedIsWellRead` | shared/libraries/opcuageneric/opcuageneric_client/src/opcua_monitored_item_fb_impl.cpp:397-556 | Whatever is published was good, present, not empty and a readable scalar, has its own kind, and leaves every status in order. |
| `MonitoredItemLaws.TroubleShows` | shared/libraries/opcuageneric/opcuageneric_client/src/opcua_monitored_item_fb_impl.cpp:506-556 | What a sample leaves in the statuses: nothing changes on an item in error; a throw, an incomplete response and an unsupported type each set theirs. |
| `MonitoredItemLaws.UnreadableShows` | shared/libraries/opcuageneric/opcuageneric_client/src/opcua_monitored_item_fb_impl.cpp:577-639 | Of a supported value that cannot be read, and whose timestamp is not the remembered one, a number makes the read throw unless it is an integer of another namespace, and all else is an error of the value. |
| `MonitoredItemLaws.ChangeSets` | shared/libraries/opcuageneric/opcuageneric_client/src/opcua_monitored_item_fb_impl.cpp:257-325 | What a change of the properties sets, whatever was before: statuses, node, mode and interval. |
| `MonitoredItemLaws.ChangeOfDomain` | shared/libraries/opcuageneric/opcuageneric_client/src/opcua_monitored_item_fb_impl.cpp:465-489 | The domain signal stays, with its last timestamp, while one is wanted; goes when none is; and one that is made is new and has sent nothing. |
| `MonitoredItemLaws.ReconnectSets` | shared/libraries/opcuageneric/opcuageneric_client/src/opcua_monitored_item_fb_impl.cpp:558-575 | A reconnect voids what the reads reported and checks the node again; all else stays. |
| `MonitoredItemLaws.SamplesKeepFormat` | shared/libraries/opcuageneric/opcuageneric_client/src/opcua_monitored_item_fb_impl.cpp:16-63 | Samples have the width, sign and form of the values; texts go as strings, and only points in time have a time descriptor. |
| `MonitoredItem.Item.ProcessSample` | shared/libraries/opcuageneric/opcuageneric_client/src/opcua_monitored_item_fb_impl.cpp:506-556 | Its effect on the whole state and the packet it sends, for every response and for a read that throws. |
| `MonitoredItem.Item.PropertyChanged` | shared/libraries/opcuageneric/opcuageneric_client/src/opcua_monitored_item_fb_impl.cpp:312-325 | Statuses reset, properties read, node validated, descriptor and domain signal set anew. |
| `MonitoredItem.Item.OnConnectionRestored` | shared/libraries/opcuageneric/opcuageneric_client/src/opcua_monitored_item_fb_impl.cpp:558-575 | Read errors are void, the node is validated again, the descriptor follows; the configuration error stays. |
| `MonitoredItem.Item.ValidateNode` | shared/libraries/opcuageneric/opcuageneric_client/src/opcua_monitored_item_fb_impl.cpp:358-395 | The node is valid exactly when it exists, is a variable, can be read, and no check threw. |
| `MonitoredItem.Item.ValidateResponse` | shared/libraries/opcuageneric/opcuageneric_client/src/opcua_monitored_item_fb_impl.cpp:397-428 | A response is valid exactly when it is good, holds a value, and has the timestamp that is wanted and is not zero. |
| `MonitoredItem.Item.Publish` | shared/libraries/opcuageneric/opcuageneric_client/src/opcua_monitored_item_fb_impl.cpp:577-639 | What can be read is sent and its timestamp remembered; a number that is no scalar of its standard type makes the read throw, an integer type of another namespace or another array makes no packet. |
| `MonitoredItem.Item.ReconfigureSignal` | shared/libraries/opcuageneric/opcuageneric_client/src/opcua_monitored_item_fb_impl.cpp:465-491 | The domain signal exists exactly when a timestamp is wanted, a new one forgets the last timestamp, and the descriptor is shown. |
| `MonitoredItem.Item.ValidateValueDataType` | shared/libraries/opcuageneric/opcuageneric_client/src/opcua_monitored_item_fb_impl.cpp:430-452 | The item follows the type of the value and shows its descriptor. |
| `MonitoredItem.Item.ReadProperties` | shared/libraries/opcuageneric/opcuageneric_client/src/opcua_monitored_item_fb_impl.cpp:257-310 | An empty node id keeps the old node and is an error; a bad interval is an error and becomes the default; an unknown mode becomes ServerTimestamp. |
| `ServerLock.LeaseIsExclusive` | shared/libraries/opcua/opcuaserver/src/opcuaserverlock.cpp:15-87 | In every run on a monotone clock, while a lease is unexpired the operations of all other tokens fail and change nothing: not the holder, not the expiry, not the password. |
| `ServerLock.GrantsDoNotOverlap` | shared/libraries/opcua/opcuaserver/src/opcuaserverlock.cpp:55-64 | Two grants to different tokens, the first holder silent in between, do not overlap in time. |
| `ServerLock.GrantedAgainIff` | shared/libraries/opcua/opcuaserver/src/opcuaserverlock.cpp:55-74 | After a lease that the others left alone while it ran, a lock is granted to its holder always and to anybody else exactly from its end on, so many seconds after the last reading; and what is granted runs for the seconds asked for. |
| `ServerLock.RefusedIsFree` | shared/libraries/opcua/opcuaserver/src/opcuaserverlock.cpp:49-64 | A lease that its holder gives up is over at once: the next lock is granted to whoever asks. |
| `ServerLock.OnlyTheHolderEndsIt` | shared/libraries/opcua/opcuaserver/src/opcuaserverlock.cpp:49-64 | If anything changed before the expiry, the holder did something. |
| `ServerLock.PasswordStands` | shared/libraries/opcua/opcuaserver/src/opcuaserverlock.cpp:15-37 | A password changes only if somebody with access unlocks with that very password. |
| `ServerLock.PasswordUnderLease` | shared/libraries/opcua/opcuaserver/src/opcuaserverlock.cpp:15-37 | While a lease runs its holder alone can set a password when none is set; then nobody can set another, and only that password, from the holder, takes it off. |
| `ServerLock.OpcUaServerLock.LockConfigurationControl` | shared/libraries/opcua/opcuaserver/src/opcuaserverlock.cpp:55-69 | Grants or renews the lease for a token with access, and refuses every other without effect. |
| `ServerLock.OpcUaServerLock.RefuseConfigurationControlLock` | shared/libraries/opcua/opcuaserver/src/opcuaserverlock.cpp:49-53 | Ends the lease of its holder and does nothing for any other token. |
| `ServerLock.OpcUaServerLock.LockPassword` | shared/libraries/opcua/opcuaserver/src/opcuaserverlock.cpp:15-25 | Sets the password for a token with access when none is set. |
| `ServerLock.OpcUaServerLock.UnlockPassword` | shared/libraries/opcua/opcuaserver/src/opcuaserverlock.cpp:27-37 | Clears the password for a token with access that names it. |
| `ClientRegistry.NobodyListedAfterStop` | shared/libraries/opcuatms/opcuatms_server/src/tms_server.cpp:134-162 | If every session is activated once, the device lists exactly the registry's numbers in every interleaving, and nobody after the stop, however late the background calls come. |
| `ClientRegistry.ListedIsRegisteredIff` | shared/libraries/opcuatms/opcuatms_server/src/tms_server.cpp:55-110 | The device lists exactly the registry's numbers if and only if no client was ever given a second one. |
| `ClientRegistry.RunKeepsRegistry` | shared/libraries/opcuatms/opcuatms_server/src/tms_server.cpp:55-162 | In every interleaving each non-zero number is listed and belongs to one client, and the contexts kept are those of open sessions, one each. |
| `ClientRegistryLaws.RegisteredIff` | shared/libraries/opcuatms/opcuatms_server/src/tms_server.cpp:55-153 | At the end of a run a client is registered if and only if its session was activated and since then neither closed nor the registry cleared. |
| `ClientRegistryLaws.ContextIff` | shared/libraries/opcua/opcuaserver/src/opcuaserver.cpp:679-730 | At the end of a run a session has a context if and only if an activation made one and it was not closed. |
| `ClientRegistryLaws.ContextIsKept` | shared/libraries/opcua/opcuaserver/src/opcuaserver.cpp:662-681 | A session keeps the context it was given until it is closed. |
| `ClientRegistryLaws.CallsAreCounted` | shared/libraries/opcua/opcuaserver/src/opcuaserver.cpp:687-712 | Every activation with a known peer makes one background call; a call goes on to its end, once, exactly if it begins before the stop. |
| `ClientRegistryLaws.InfoLists` | shared/libraries/opcuatms/opcuatms_server/src/tms_server.cpp:64-94 | The end of a background call lists a registered client under a number nobody had, leaves it without a number when the device is gone, and changes nothing for a client that has left. |
| `ClientRegistryLaws.ClearLeaves` | shared/libraries/opcuatms/opcuatms_server/src/tms_server.cpp:138-153 | After the stop nobody is registered, and what is listed still are the numbers that were overwritten. |
| `ClientRegistry.NeverListedAgain` | shared/libraries/opcuatms/opcuatms_server/src/tms_server.cpp:80-110 | A number that is off the list never returns, so none can be removed twice. |
| `ClientRegistry.SecondActivationLeaks` | shared/libraries/opcua/opcuaserver/src/opcuaserver.cpp:652-717 | The input on which it fails: a session activated twice leaves its first number listed after it is closed. |
| `ClientRegistry.AllClosedLeavesNoContext` | shared/libraries/opcua/opcuaserver/src/opcuaserver.cpp:719-734 | Once every activated session is closed no context is left, as the assertion at shutdown expects. |
| `ClientRegistry.TmsServer.ActivateSession` | shared/libraries/opcua/opcuaserver/src/opcuaserver.cpp:679-712 | A context on the first activation only, the client registered unless known, and the look-up scheduled if there is a peer. |
| `ClientRegistry.TmsServer.ClientInfo` | shared/libraries/opcuatms/opcuatms_server/src/tms_server.cpp:64-94 | A client still registered is listed under a new number, which replaces the one it had. |
| `ClientRegistry.TmsServer.ClientDisconnected` | shared/libraries/opcuatms/opcuatms_server/src/tms_server.cpp:95-110 | The client leaves the registry and, if it has a number, the device; only listed numbers are removed. |
| `ClientRegistry.TmsServer.InfoCallBegins` | shared/libraries/opcuatms/opcuatms_server/src/tms_server.cpp:66-69 | The background call goes on only if it sees the server running. |
| `ClientRegistry.TmsServer.CloseSession` | shared/libraries/opcua/opcuaserver/src/opcuaserver.cpp:719-734 | The context is dropped and the client disconnected. |
| `ClientRegistry.TmsServer.RemoveAll` | shared/libraries/opcuatms/opcuatms_server/src/tms_server.cpp:146-150 | The loop over the registry takes each number off the list once. |
| `ClientRegistry.TmsServer.ClearAll` | shared/libraries/opcuatms/opcuatms_server/src/tms_server.cpp:138-153 | The registry is empty and its numbers are off the list. |
| `SamplingItems.ClampedIs` | shared/libraries/opcuageneric/opcuageneric_client/src/sampling_scheduler.cpp:34-35 | An interval in nanoseconds; below one millisecond it is one millisecond. |
| `SchedulerProgress.NothingDueWaits` | shared/libraries/opcuageneric/opcuageneric_client/src/sampling_scheduler.cpp:172-186 | Before the least deadline the thread sleeps until it, and with no entry until there is one. |
| `SchedulerProgress.WhatComesFirst` | shared/libraries/opcuageneric/opcuageneric_client/src/sampling_scheduler.cpp:161-170 | A stop comes before everything, and a revalidation before every sample. |
| `SchedulerProgress.CallComesBack` | shared/libraries/opcuageneric/opcuageneric_client/src/sampling_scheduler.cpp:100-121 | After a call and the release of its owner the thread is back at the loop's head or at the next turn of its pass. |
| `SchedulerProgress.HeadLeadsToDecision` | shared/libraries/opcuageneric/opcuageneric_client/src/sampling_scheduler.cpp:148-163 | A connected, running thread gets from the loop's head to a decision as soon as the mutex is free. |
| `SchedulerProgress.PassEnds` | shared/libraries/opcuageneric/opcuageneric_client/src/sampling_scheduler.cpp:131-134 | A pass that is stopped, or has taken all its turns, goes back to the loop's head. |
| `SchedulerProgress.WakingLeadsToHead` | shared/libraries/opcuageneric/opcuageneric_client/src/sampling_scheduler.cpp:148-186 | A thread that wakes goes back to the loop's head exactly when what it waits for has come, and from a deadline always. |
| `SchedulerProgress.DisconnectedPolls` | shared/libraries/opcuageneric/opcuageneric_client/src/sampling_scheduler.cpp:152-159 | While disconnected the thread polls for a second at a time. |
| `SchedulerProgress.RegisteredIsDue` | shared/libraries/opcuageneric/opcuageneric_client/src/sampling_scheduler.cpp:61-71 | A registered item is added behind all others, due at once, and a wake-up is on its way. |
| `SchedulerProgress.UnregisteredIsOff` | shared/libraries/opcuageneric/opcuageneric_client/src/sampling_scheduler.cpp:73-80 | An unregistration takes off exactly the entries of the item, and a wake-up is on its way. |
| `SchedulerProgress.SnapshotIsList` | shared/libraries/opcuageneric/opcuageneric_client/src/sampling_scheduler.cpp:125-129 | A pass works through the items of the list, in their order. |
| `FilterLaws.EntryIsNamedOnce` | shared/libraries/opcua/opcuaclient/src/cached_reference_browser.cpp:249-256 | Every entry the server gives has each name once. |
| `KeySchedule.KeyByteIs` | shared/libraries/opcua/opcuashared/src/bcrypt/crypt_blowfish.c:594-608 | The characters of the key in order, its terminator, and the same again. |
| `BCryptLaws.AlphabetIs` | shared/libraries/opcua/opcuashared/src/bcrypt/crypt_blowfish.c:364-374 | The 64 characters of the coding, in order. |
| `BCryptLaws.GroupIsNumber` | shared/libraries/opcua/opcuashared/src/bcrypt/crypt_blowfish.c:416-437 | Four characters and the three bytes they stand for are the same 24-bit number. |
| `BCryptLaws.DigestBytesAreWords` | shared/libraries/opcua/opcuashared/src/bcrypt/crypt_blowfish.c:774-775 | Four bytes of the digest in order are a word of it, the most significant first. |
| `BCryptLaws.LastDigestBytes` | shared/libraries/opcua/opcuashared/src/bcrypt/crypt_blowfish.c:772-775 | Of the last word only the first three bytes are kept. |
| `BCryptLaws.DigitsAre` | shared/libraries/opcua/opcuashared/src/bcrypt/crypt_blowfish.c:680-688 | The digits of a cost are the characters 0 to 9. |
| `BCryptLaws.MagicIs` | shared/libraries/opcua/opcuashared/src/bcrypt/crypt_blowfish.c:781-794 | The text written instead of a hash is *0, or *1 for a setting that begins with *0. |
| `BCryptLaws.RoundsOfCost` | shared/libraries/opcua/opcuashared/src/bcrypt/crypt_blowfish.c:688-688 | The number of rounds doubles with every step of the cost, from one. |
| `MonitoredItemLaws.DataTypesAreNumbered` | shared/libraries/opcuageneric/opcuageneric_client/src/opcua_monitored_item_fb_impl.cpp:49-63 | The data types of the kinds are their numbers in the standard (section 5.1.2 of OPC 10000-6). |
| `MonitoredItemLaws.EpochIs` | shared/libraries/opcua/opcuashared/src/opcuadatavalue.cpp:57-62 | The epoch: 369 years and 89 leap days of 100 ns ticks. |
| `MonitoredItemLaws.MicrosecondsAre` | shared/libraries/opcua/opcuashared/src/opcuadatavalue.cpp:57-62 | Dates are microseconds from the epoch, those before it counting back from 2 to the power of 64, and zero stays zero. |
| `MonitoredItemLaws.ModeIsPlace` | shared/libraries/opcuageneric/opcuageneric_client/src/opcua_monitored_item_fb_impl.cpp:284-294 | The modes are the places of the selection list, and any other number is the server's. |
| `MonitoredItemLaws.ConstructedIs` | shared/libraries/opcuageneric/opcuageneric_client/src/opcua_monitored_item_fb_impl.cpp:65-77 | A constructed item has nothing but what its properties and the check of the node say. |
| `MonitoredItemLaws.UndefinedWhenInvalid` | shared/libraries/opcuageneric/opcuageneric_client/src/opcua_monitored_item_fb_impl.cpp:190-204 | In every run an invalid node, and one whose last value has no supported type, shows the undefined descriptor. |
| `ServerLock.UnlockedStaysUnlocked` | shared/libraries/opcua/opcuaserver/src/opcuaserverlock.cpp:27-37 | Where no password is set any word unlocks, and nothing changes. |
| `Passwords.CostIsKeptIff` | shared/libraries/opcua/opcuashared/src/bcrypt.cpp:45-49 | The cost is the one that was asked for exactly below 2560; 2564 is taken for 4. |
| `Passwords.SettingIsAcceptable` | shared/libraries/opcua/opcuashared/src/bcrypt.cpp:43-51 | The setting that is put together is acceptable exactly for a cost up to 31, and then has that cost. |
| `SyncAlignment.StartIsInStep` | shared/libraries/opcua/opcuaclient/src/chdatagather/_alignsyncchdatagather.cpp:31-58 | With nothing delivered yet, channels that have been started are aligned. |
| `ServerLock.CloseEndsLeaseIff` | shared/libraries/opcua/opcuaserver/src/opcuaserver.cpp:719-724 | Closing a session ends the lease exactly when the lease was taken under the session's own id. |
| `ServerLock.LeaseOutlivesSession` | shared/libraries/opcua/opcuaserver/src/opcuaserver.cpp:719-724 | A lease taken under another token that runs on after the close. |
| `ServerLock.LockThenUnlock` | shared/libraries/opcua/opcuaserver/src/opcuaserverlock.cpp:15-42 | Locking and unlocking with one password restores the state; an accepted lock locks unless the password is empty. |
| `ServerLock.EmptyPasswordLocksNothing` | shared/libraries/opcua/opcuaserver/src/opcuaserverlock.cpp:15-25 | A lock with an empty password is accepted and changes nothing. |
| `BCrypt.LoadedAndSwapped` | shared/libraries/opcua/opcuashared/src/bcrypt/crypt_blowfish.c:441-453 | A word loaded from memory and swapped is big-endian on a processor of either byte order. |
| `BCrypt.SwappedAndStored` | shared/libraries/opcua/opcuashared/src/bcrypt/crypt_blowfish.c:441-453 | A word swapped and stored has its most significant byte first on either. |
| `MonitoredItem.TablesAgree` | shared/libraries/opcuageneric/opcuageneric_client/src/opcua_monitored_item_fb_impl.cpp:16-63 | The three type tables agree for every kind of value, supported or not. |

## Left out

- CachedReferenceBrowser.Browser.IsSubtypeOf: requires that the recursion ends, since a call on which it does not has no result (`TestEndsIff` says when).
- CachedReferenceBrowser.Browser.BrowseFiltered: requires the same of the type tests that are reached, and an entry that is keyed by its names, as all entries a crawl makes are (`BoundedKeepsWellKeyed`).
- The continuation-point loop of a batch, which reads the first response again: no claim is made about it.
- The accessors of the browser over one entry (type definition, reference by name, child by name): each is settled by reading its body.
- Node identifiers that are GUIDs or byte strings: they behave as the two kinds that are modelled.
- The scheduler's start, join and destructor, and owners that die while the scheduler itself is destroyed.
- A null item given to the scheduler, which it ignores, and the item's answer to the sampling interval, which is a parameter of the step.
- KeySchedule.BF_set_key: the body is the C loop split into one method for a word and one for all words; the character pointer is an index.
- Passwords.CryptRn: takes the outcome of the self-test as an input instead of running it on its fixed values.
- Random salts and the constants of the cipher, which prove nothing general.
- Channels that are not synchronous, which are asked without a count, and the choice of the synchronous ones.
- SyncAlignment.Gather.Start: does not reset what was delivered before, as in the code, so the theorem on runs speaks of one start with nothing delivered.
- Component status texts and their order of precedence, and the contents of packets beyond type and timestamp.
- Finished background look-ups that the server still keeps in a list and purges when it schedules the next.
- Identity tokens, peer addresses and the look-up itself: an activation that fails has no effect on the registry.
- Value converters, tree construction of client devices, discovery, connection strings and module plumbing: mostly field copies or calls into libraries that are not part of this model.
