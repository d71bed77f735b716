# Verified model of ardvark

ardvark crawls the web for ARD catalogs. Worker processes share one table of work
items, the frontier: they lease rows, run a handler for each, and let handlers add
more rows. Catalogs, their entries and the registries they name go into further
tables; exports and searches read them back.

This project models the parts of ardvark that are hard to get right and proves what
they promise:

- **The frontier as a transition system.** `FrontierTable.dfy` has the rows and the
  single SQL statements, `FrontierSystem.dfy` the steps that many goroutines of many
  workers take on one table. `enqueue` and `Fail` consist of several statements, with
  any other steps in between. On top of it: lease safety and clock skew
  (`LeaseSafety.dfy`), enqueue races (`EnqueueRaces.dfy`), the page budget
  (`PageBudget.dfy`), sharding (`Sharding.dfy`), global quiescence (`Quiescence.dfy`),
  bounded work (`BoundedWork.dfy`) and the step that unbounds it (`EndlessCrawl.dfy`).
  `Frontier.dfy` is the imperative `Frontier` type over the same statements.
- **The engine.** `Dispatcher.dfy` is `Run`'s worker pool under every schedule,
  `Shutdown.dfy` puts the pool, the context's cancellation and the frontier's
  transition system into one machine and says what becomes of every item and when
  `Run` leaves. `Engine.dfy` has `process` and the child work of a page, `HandlerWork.dfy`
  that of host probes and inline catalogs. `DedupKey.dfy` is the dedup key,
  `RelationRows.dfy` what it means for the rows of every run.
- **Crash recovery.** `CatalogStore.dfy`, `CatalogRecovery.dfy` and
  `CatalogCompleteness.dfy` cut `processCatalog` into its store and frontier
  operations, let it crash between any two of them, and compare the rows after
  recovery with those of one undisturbed call. `RecoveryAmongOthers.dfy` lets all other
  workers act at any point, `RecoveryFailures.dfy` has the traces on which recovery
  fails. `ProbeRecovery.dfy` asks the same question for probe hits.
- **What a handler leaves.** `ItemRows.dfy` writes the frontier rows of follow-ups out,
  column by column with the text of their keys. `CatalogRows.dfy`, `HarvestRows.dfy` and
  `ProbeRows.dfy` say which of these rows a catalog, a registry's answer and a host probe
  leave, and that they leave no other. `CatalogProcessor.dfy`, `RegistryHarvester.dfy` and
  `HostProber.dfy` are the imperative handlers, `CatalogWork.dfy` bounds the work that
  catalogs and registries create.
- **Sequential algorithms.** The JSON string writer and the JSONL export (`Utf8.dfy`,
  `JsonString.dfy`, `Export.dfy`), URNs (`Urn.dfy`, `UrnRules.dfy`) and their equivalence
  under RFC 8141 (`UrnEquivalence.dfy`), verification checks (`Checks.dfy`,
  `CheckRules.dfy`), seed names and CT-log windows (`Hostnames.dfy`, `HostnameRules.dfy`,
  `CtLog.dfy`), cursor pagination and LIKE patterns (`Search.dfy`, `Like.dfy`).

`Basics.dfy` holds sums and inductions along runs, iterations and loops. In
`hide F;` a proof tells the verifier that it does not need the body of `F`, in `hide *;`
that of any function.

Row ids are positions in a sequence, because no modelled statement deletes a row. The
hostname of a URL, lower-casing, IDNA, public suffixes, clocks, the network's answers
and the configuration are parameters. SHA-256 is taken to be injective, so the preimage
stands for a dedup key and the document for a content hash.

Where code and comments disagree, the code is followed. The comment at
internal/crawler/handlers.go:402-404 says that a saved catalog with an unchanged hash
always has as many entry rows as the document has entries. Rows harvested from a
registry carry the same catalog id (internal/crawler/handlers.go:731), so the numbers
can differ, and then no entry is followed.

Some promises do not hold of the code without a condition. For each there is an input
or a trace on which it fails, and a theorem that gives the exact condition:

| promise | exact condition | fails on |
|---|---|---|
| equivalent URNs are duplicates | `UrnEquivalence.RecognisesEquivalentsExactly`: no letter in a percent-encoded octet; components count as part of the name | `UrnEquivalence.SlashTwice`, `UrnEquivalence.ComponentsAreNotIgnored` |
| a crash does not show | `CatalogCompleteness.CrashesDoNotShowExactly`: embedded catalogs of one level that share an identifier share their bytes | `RecoveryFailures.TwinsShowTheCrash` |
| a harvest between crash and recovery does not show | `CatalogWork.HarvestDoesNotShowExactly`: it attached nothing, or nothing was left to do | `RecoveryFailures.HarvestLosesTheArtifact` |
| a recorded probe hit gets its row | `ProbeRecovery.FullProbeKeepsPromisesExactly`: each hit left without a row is found again | `ProbeRecovery.PromiseLost` |
| one key per kind, URL and relationship | `DedupKey.KeysMeetExactly`: no URL without a relationship imitates another's suffix behind a NUL | `DedupKey.ImitatingUrlCollides` |
| no failure is recorded after cancellation (a recorded failure costs an attempt; the row is failed if the error is permanent or the cap is reached, else pending) | `Shutdown.EveryItemSettles`: the handler's error was not met before it | `Shutdown.FailOutlivesCancel` |
| search ignores case | `Search.SqliteIsInsensitiveExactly`: only ASCII capitals are lower-cased to a character of the query | `Search.CapitalsOutsideAsciiAreMissed` |
| a crawl ends | `BoundedWork.EveryCrawlDrains`: no registry results that are catalog pointers, and finitely many rows handed back by interruptions | `EndlessCrawl.CatalogResultsNeverEnd` |

## Model

| member | source | states |
|---|---|---|
| LeaseSafety.LeasesAreSafe | internal/frontier/frontier.go:404-657 | at every step of every run a row has a lease time exactly when it is in flight and an empty worker id otherwise; it moves only pending to in flight, in flight to pending, done or failed, done or failed to pending; a held row changes only by its own worker's finishing statement or by an expired lease |
| LeaseSafety.FinishTouchesOwnRowOnly | internal/frontier/frontier.go:537-657 | a late Complete, Requeue or second half of Fail changes no row but the one its goroutine holds, and that only while its worker owns it |
| LeaseSafety.HeldRowStep | internal/frontier/frontier.go:359-657 | in one step a leased row stays as it is, is finished by its holder, or is reclaimed after expiry |
| LeaseSafety.LeaseSurvivesSkew | internal/store/models.go:254-268 | with clocks at most d apart, nobody takes a lease away before the holder's own clock has passed its end minus d |
| LeaseSafety.NoSecondHolderWithinSkew | internal/frontier/frontier.go:477-483 | within that bound no Dequeue of any worker returns the row again |
| FrontierSystem.StepOk | internal/frontier/frontier.go:258-657 | every step keeps the unique dedup key, the lease fields, the shard of every row and what waiting enqueue calls rely on; rows are never deleted and keep key, kind, url, host and shard |
| FrontierSystem.RunOk | internal/frontier/frontier.go:258-657 | the same in every reachable state |
| FrontierSystem.EnqueueStepOk | internal/frontier/frontier.go:258-391 | one statement of enqueue keeps the table invariant and touches no leased row |
| FrontierTable.CountsReadDrained | internal/frontier/frontier.go:703-719 | the snapshot reads (0, 0) exactly when no row is pending or in flight |
| EnqueueRaces.TrueReturnsCounted | internal/frontier/frontier.go:258-391 | over every run there is one row per key, and the calls that returned true for a key number its insert plus its moves from done or failed back to pending |
| EnqueueRaces.TrueMeansChange | internal/frontier/frontier.go:329-391 | a step returns true for a key if and only if it inserts or revives the row of that key, never both |
| EnqueueRaces.EnsureNeverChangesRows | internal/frontier/frontier.go:216-222 | no statement of Ensure changes an existing row, whatever happened since its read |
| EnqueueRaces.ResumeNeverMovesDone | internal/frontier/frontier.go:224-229 | no statement of Resume changes a done row |
| EnqueueRaces.EnqueueOutcome | internal/frontier/frontier.go:195-391 | an undisturbed call inserts a new key unless the budget is reached, revives a finished row it may revive at any count, and otherwise changes nothing |
| EnqueueRaces.EffectOfCall | internal/frontier/frontier.go:258-391 | the same column by column: an inserted row carries the item's kind, url, host, depth, priority, key, run and each provenance id, pending and untried; a revived row keeps kind, url, host, key, priority and shard, adopts depth, run and each provenance id, and starts afresh; the budget counts the rows of host and kind |
| EnqueueRaces.CallsWriteColumns | internal/frontier/frontier.go:329-381 | in every interleaving a step of a call adds or changes a row in these two ways only, and only if it returns true |
| PageBudget.OvershootBound | internal/frontier/frontier.go:285-327 | with at most K budgeted enqueues open at once, the (host, kind) rows never exceed the budget, or the count at the start, by more than K - 1 plus the rows inserted without a budget |
| PageBudget.InsertStep | internal/frontier/frontier.go:305-332 | an insert raises the count by one and uses up the Create that waited |
| PageBudget.QuietStep | internal/frontier/frontier.go:305-327 | a step that inserts nothing keeps the count, and beyond the budget no further Create starts to wait |
| PageBudget.RevivalIgnoresBudget | internal/frontier/frontier.go:238-248 | re-activating a finished row succeeds at any count, adopts the new depth and adds no row |
| Sharding.ExactlyOneOwner | internal/frontier/frontier.go:453-457 | a pending row is eligible for exactly one index of the fleet |
| Sharding.EveryIndexServesSomeShard | internal/config/config.go:395-407 | every index has a shard to serve if and only if the fleet is no larger than 8192 |
| Sharding.FetchHostFixed | internal/frontier/frontier.go:157-164 | the host a row fetches, and its stored shard, never change, through re-activation too |
| Sharding.HostsAreNotShared | internal/frontier/frontier.go:138-164 | over a whole run two indices never dequeue rows that fetch from the same host |
| Sharding.FnvVectors | internal/frontier/frontier.go:138-142 | the shard hash gives the published FNV-1a values of the empty string and of a |
| Quiescence.SnapshotMeansQuiet | internal/frontier/frontier.go:689-719 | if handlers finish within their lease and nobody seeds from outside, a (0, 0) snapshot means the table never changes again, crashed peers included |
| Quiescence.StepHolds | internal/crawler/engine.go:313-362 | through every step each live goroutine keeps holding its own leased row, and no two handle one row |
| Quiescence.TwoCountsCanMiss | internal/frontier/frontier.go:696-702 | two separate counts can read pending 0 and in flight 0 while a row is pending |
| DedupKey.KeysMeetExactly | internal/crawler/engine.go:213-249 | for all items: one key if and only if they agree on kind, on URL (host for host_probe) and on the relationship, or one without a relationship has a URL that ends in a NUL and the other's relationship |
| DedupKey.KeyInjective | internal/crawler/engine.go:213-249 | hence kind, URL or host, and relationship determine the key and are determined by it, whatever characters related URLs hold, if URLs without a relationship hold no NUL |
| DedupKey.ImitatingUrlCollides | internal/crawler/engine.go:218-234 | the pair that is left out does collide: a URL that ends in a NUL and a parent, and the child of that parent |
| DedupKey.SuffixInjective | internal/crawler/engine.go:218-234 | the relationship suffixes are told apart |
| RelationRows.OneRowPerRelation | internal/crawler/engine.go:213-249 | over every run in which items come from buildItem, each row's key is the key of its own columns, through re-activation too, and no two rows agree on kind, URL or host, and relationship |
| RelationRows.StepStaysBuilt | internal/frontier/frontier.go:359-381 | every step keeps that, although a re-activation overwrites the provenance |
| BoundedWork.EveryCrawlDrains | internal/crawler/engine.go:268-366 | every interleaving ends within the weight of the state at the start, plus the price of one attempt for each row that a requeue, or a reclaim after a crash, hands back; where a fleet of workers, of any size, can go no further the frontier is drained |
| BoundedWork.SetbackCosts | internal/frontier/frontier.go:533-584 | a crash lowers the weight too, and handing a leased row back raises it by the price of one attempt at most |
| BoundedWork.StepLowers | internal/crawler/engine.go:409-462 | every other step strictly lowers the weight of live rows and open handlers, although finished rows are re-activated at other depths |
| BoundedWork.ChildRanksLower | internal/crawler/handlers.go:101-117 | whatever a handler may enqueue ranks below the handler |
| BoundedWork.ActivationFits | internal/frontier/frontier.go:359-381 | a row re-activated by a handler weighs no more than the handler's price for a child, because it adopts the child's depth |
| EndlessCrawl.CatalogResultsNeverEnd | internal/crawler/handlers.go:736-746 | a site of one catalog and one registry that name each other: a crawl from one pending row takes more than any number of steps, without a retry or a lost lease, and each item enqueues exactly what its handler enqueues |
| EndlessCrawl.HandlerNamesNext | internal/crawler/handlers.go:681-746 | on that site every round saves the catalog under a new parent, lists the registry under a new entry, and so names an item with a new key |
| Frontier.SelectionUnique | internal/frontier/frontier.go:442-468 | the order by priority and id, the limit and the shard determine what Dequeue selects |
| Frontier.SelectionIsEnabled | internal/frontier/frontier.go:442-468 | that selection is a step of the transition system |
| Frontier.Frontier.Dequeue | internal/frontier/frontier.go:442-498 | returns the first n eligible rows in order, leased to this worker; no other row changes |
| Frontier.Frontier.NextBest | internal/frontier/frontier.go:449-457 | finds the eligible row that precedes all others not yet taken |
| Frontier.Frontier.Run | internal/frontier/frontier.go:258-391 | the sequential enqueue has the effect of an undisturbed call, in columns, and refuses an empty key |
| Frontier.Frontier.Enqueue | internal/frontier/frontier.go:210-214 | inserts a row with the item's columns, or revives a done or failed one for it, whatever the count |
| Frontier.Frontier.Ensure | internal/frontier/frontier.go:220-222 | inserts a row with the item's columns, or leaves every row alone |
| Frontier.Frontier.Resume | internal/frontier/frontier.go:227-229 | inserts a row with the item's columns, or revives a failed one for it |
| Frontier.Frontier.EnqueueBudgeted | internal/frontier/frontier.go:249-251 | does the same for a new key while the (host, kind) rows number less than the budget, and for a done or failed row at any count |
| Frontier.Frontier.CountByHostKind | internal/frontier/frontier.go:679-687 | the loop counts the rows of a host and kind |
| Frontier.Frontier.Complete | internal/frontier/frontier.go:593-604 | done if this worker owns the row, otherwise nothing changes and the result says whether the row is gone or lost |
| Frontier.Frontier.Requeue | internal/frontier/frontier.go:537-548 | pending with attempts unchanged if this worker owns the row, otherwise nothing changes |
| Frontier.Frontier.Fail | internal/frontier/frontier.go:621-657 | one more attempt, failed from the cap on, permanent exactly when the row ended failed; nothing changes when the lease is lost |
| Frontier.Frontier.ReclaimExpiredLeases | internal/frontier/frontier.go:576-584 | exactly the expired rows become pending, and their number is returned |
| Frontier.Frontier.ReclaimAll | internal/frontier/frontier.go:559-567 | exactly the leased rows become pending, and their number is returned |
| Frontier.Frontier.Counts | internal/frontier/frontier.go:703-719 | one pass counts pending and leased rows, both zero exactly when the table is drained |
| Dispatcher.ReturnedMeansProcessed | internal/crawler/engine.go:295-366 | for every schedule, when Run returns each item has been processed as often as it was dequeued, and the counter is zero |
| Dispatcher.NeverProcessedTwice | internal/crawler/engine.go:299-308 | at no time was an item processed more often than dequeued |
| Dispatcher.IdleMeansNobodyWorks | internal/crawler/engine.go:323-334 | a zero counter means no goroutine is inside process |
| Dispatcher.NeverStuck | internal/crawler/engine.go:295-366 | until Run has returned some step can be taken |
| Shutdown.EveryItemSettles | internal/crawler/engine.go:295-366 | for every schedule of the pool and every step of other workers, also between Fail's read and write: when Run returns, each item it dequeued was settled by one statement; a row nobody touched until then is done, pending with the attempts it was leased with, or one attempt older and then failed if its error is permanent or the cap is reached, else pending; otherwise the lease was lost first; after cancellation Fail's write runs exactly for items whose error was met before |
| Shutdown.CancelledNeverFails | internal/crawler/engine.go:429-441 | hence an item whose handler had met no error at cancellation ends done or pending, as it was before this worker leased it, never failed, unless its lease was lost |
| Shutdown.FailOutlivesCancel | internal/crawler/engine.go:443-452 | an item whose error, a permanent one, was met before cancellation is failed after it |
| Shutdown.LeavesNoWork | internal/crawler/engine.go:334-352 | no Run leaves its loop on an empty snapshot of Counts while work remains: if nobody seeds from outside and handlers finish within their lease, no row changes from that move on, all are finished, and no handler of any worker is alive |
| Shutdown.MoveOk | internal/crawler/engine.go:295-366 | every move of the machine keeps the frontier's invariant, the pool's conservation of items, and that processed items are settled and only errors are failed |
| Engine.Engine.Process | internal/crawler/engine.go:409-463 | an owned row is done if it was handled; pending with its attempts kept if the error came with a cancellation; otherwise one attempt older with the error's message, failed if and only if the error is permanent or the attempts reach the cap, else pending; nothing else changes |
| Engine.HandlePageFetch | internal/crawler/handlers.go:63-117 | call k, for each of the k hosts, enqueues its host_probe at depth 0; then each hint with a host a catalog_fetch at depth 0 with method link_tag; then, exactly below the depth limit, each link with a host a page_fetch one deeper under the page budget; all may re-activate, and there is no further call |
| Engine.PageWorkFits | internal/crawler/handlers.go:63-117 | there are no more of them than the page has hosts, hints and links, and each ranks below the page |
| HandlerWork.ProbeWorkFits | internal/crawler/handlers.go:162-303 | a host probe makes one enqueue call per catalog URL of its hits, or per hit on record when it skips the probing, and each ranks below it |
| HandlerWork.InlineWorkFits | internal/crawler/handlers.go:145-156 | the inline catalogs of a page of any depth create at most one row per entry, each ranked below the page |
| CatalogStore.GetOrAddStable | internal/store/store.go:312-338 | a row found or inserted once is found at the same id for ever |
| CatalogStore.EntryIdsSaved | internal/store/store.go:453-468 | the entry rows of a catalog just saved are its entries, in order |
| CatalogStore.EnsureRowIsEnsure | internal/frontier/frontier.go:220-222 | the Ensure used here is the frontier's, statement by statement |
| CatalogStore.EnsureStable | internal/frontier/frontier.go:216-222 | ensuring an item again later changes nothing |
| CatalogRecovery.CrashEquivalence | internal/crawler/handlers.go:362-519 | stop the call after any number of operations and run it again: domains, catalogs, entries, registries and frontier are those of one undisturbed call, through embedded catalogs of any depth |
| CatalogRecovery.AnyNumberOfCrashes | internal/crawler/handlers.go:388-411 | the same after any number of crashed attempts |
| CatalogRecovery.SecondCallChangesNothing | internal/crawler/handlers.go:373-413 | processing unchanged bytes again changes no row |
| CatalogRecovery.Replay | internal/crawler/handlers.go:388-411 | the second run passes through the same operations and writes nothing up to the crash point |
| CatalogRecovery.SaveStaysSettled | internal/store/store.go:535-551 | a saved catalog stays the latest of its domain, source and parent while the call goes on |
| CatalogRecovery.LegitUnique | internal/crawler/handlers.go:497-502 | within a call, source and parent determine the document |
| CatalogRecovery.CallEnds | internal/crawler/handlers.go:362-452 | every call ends |
| CatalogRecovery.DistinctIsConsistent | internal/crawler/handlers.go:497-502 | distinct identifiers on each level are enough for recovery |
| CatalogCompleteness.CrashesDoNotShowExactly | internal/crawler/handlers.go:373-451 | crashes never show if and only if, on every followed level, embedded catalogs with one identifier carry the same bytes |
| RecoveryFailures.TwinsShowTheCrash | internal/crawler/handlers.go:497-502 | two embedded catalogs of one identifier with different bytes: crash behind the last operation, and the second run saves catalogs again |
| CatalogCompleteness.RecoveryIsComplete | internal/crawler/handlers.go:460-519 | after any crashes every catalog of every level is saved and every entry has the frontier row its kind asks for, known by the text of its key, and its registry row |
| RecoveryAmongOthers.RecoveryAmongOthers | internal/crawler/handlers.go:362-519 | the same with any crashes and with all other workers at work between any two operations, appending rows and moving frontier rows: once one attempt has ended nothing is missing, then and for ever, if nobody else saves a catalog under this call's domain, source and parent, or embedded in one, or attaches rows to these; the same URL under another parent is free |
| RecoveryAmongOthers.LastingKept | internal/crawler/handlers.go:388-411 | what an operation did stays done through every later operation, crash and foreign write |
| CatalogCompleteness.FixedMeansComplete | internal/crawler/handlers.go:388-411 | a call that changes nothing has left nothing to do |
| CatalogCompleteness.UnchangedCallFollowsExactly | internal/crawler/handlers.go:388-411 | a call that finds its catalog saved and unchanged goes on to the entries if and only if the depth allows it and there are as many entry rows as entries; otherwise it adds its domain at most |
| CatalogProcessor.CatalogProcessor.ProcessCatalog | internal/crawler/handlers.go:362-452 | the recursive imperative code ends in the store the operation-by-operation call ends in, and there leaves what CatalogRows.CallLeaves says |
| CatalogRows.CallLeaves | internal/crawler/handlers.go:460-519 | below the depth limit each catalog pointer with a URL has its catalog_fetch row (url, host, depth + 1, its parent), one with embedded data a saved catalog treated alike; each registry with a URL, if harvesting is on, its registry row and its registry_harvest row (url, depth 0, entry, catalog and registry ids); each other entry with a URL, a registry too if harvesting is off, its artifact_fetch row if artifacts are fetched (url, host, depth 0, its entry id); rows found under these keys stay, new ones have exactly these columns, and no further row appears |
| CatalogProcessor.CatalogProcessor.EnqueueEntryFollowups | internal/crawler/handlers.go:460-486 | the fan-out loop ends in the store the operations of its entries end in |
| CatalogProcessor.CatalogProcessor.FollowCatalogPointer | internal/crawler/handlers.go:492-505 | one catalog pointer, with everything embedded in it |
| CatalogProcessor.CatalogProcessor.FollowRegistryPointer | internal/crawler/handlers.go:512-519 | one registry pointer: its registry row, then its harvest item |
| CatalogProcessor.CatalogProcessor.UpsertDomain | internal/store/store.go:312-338 | inserts the host unless it is there, and touches nothing else |
| CatalogProcessor.CatalogProcessor.SaveRegistry | internal/store/store.go:583-605 | reuses the row of the same entry, URL and referral parent, else inserts it |
| CatalogWork.CatalogWorkFits | internal/crawler/handlers.go:460-505 | a document creates at most one frontier row per entry, embedded ones included, each pending and ranked below the handler |
| CatalogWork.NoWorkAtTheLimit | internal/crawler/handlers.go:447-449 | at the depth limit a catalog is saved and no work is created |
| CatalogWork.HarvestWorkFits | internal/crawler/handlers.go:681-788 | without catalog pointers among the results a harvest creates at most one row per result and referral, one referral deeper |
| RegistryHarvester.RegistryHarvester.HandleRegistryHarvest | internal/crawler/handlers.go:681-788 | ends in the store the operations of attaching, following and referring end in, and there leaves what HarvestRows.HarvestLeaves says; nothing changes beyond the limit or without provenance |
| HarvestRows.HarvestLeaves | internal/crawler/handlers.go:719-788 | result i is the i-th new entry row of the catalog, with the registry's id; each catalog result with a URL has its catalog_fetch row at depth 0, one with embedded data a saved catalog; each registry result with a URL, if harvesting is on, and each referral within the limit has its registry row (entry, url, referral parent) and its registry_harvest row (url, depth + 1, entry, catalog and registry ids); no further row appears |
| CatalogWork.HarvestEndsRecovery | internal/crawler/handlers.go:398-407 | once harvested rows are attached to a saved catalog, processing it again follows no entry |
| CatalogWork.HarvestDoesNotShowExactly | internal/crawler/handlers.go:398-407 | recovery and harvest may be swapped if and only if the harvest attached nothing or the crashed call had nothing left to do |
| RecoveryFailures.HarvestLosesTheArtifact | internal/crawler/handlers.go:719-733 | a catalog of a registry and an artifact, a crash behind the harvest's enqueue, one harvested result: no number of attempts enqueues the artifact, which an undisturbed call does |
| ProbeRecovery.DoneMeansPromisesKept | internal/crawler/handlers.go:162-303 | whatever crashes, skips and other workers did, once the host_probe row is done every recorded hit has its catalog_fetch row, if full probes find the same URLs |
| ProbeRecovery.NoDoneRowRevived | internal/crawler/handlers.go:226-241 | no statement of the handler changes a done row on the way |
| ProbeRecovery.FullProbeKeepsPromisesExactly | internal/crawler/handlers.go:194-242 | with changing answers a full probe keeps all promises if and only if each hit left without a row is found again |
| ProbeRecovery.PromiseLost | internal/crawler/handlers.go:194-242 | a hit recorded, a crash before its resume, and a full probe that does not find it again: the host_probe row is done, the hit on record, and there is no catalog_fetch row |
| ProbeRecovery.StepsKeepKeys | internal/frontier/frontier.go:258-657 | what others do in between is covered by the transition system |
| HostProber.HostProber.HandleHostProbe | internal/crawler/handlers.go:162-268 | skips only a host probed recently, on the first attempt and without --force: every hit on record then has a catalog_fetch row that is not failed, and nothing is recorded; otherwise one hit row per catalog URL and one miss row per method without a hit are recorded, in order, and every URL of a hit has such a row; rows are only added in these columns or revived from failed; fails exactly if it probed and a method without a hit asked for a retry |
| ProbeRows.ProbeLeaves | internal/crawler/handlers.go:194-242 | what the operations of a full probe leave in the probe and frontier rows, column by column |
| ProbeRows.SkipLeaves | internal/crawler/handlers.go:285-303 | what resuming the hits on record leaves |
| HostProber.HostProber.ReenqueueKnownCatalogHits | internal/crawler/handlers.go:285-303 | resumes a catalog_fetch for every recorded hit, in order |
| Utf8.EncodeDecode | internal/jsonout/export.go:275-275 | decoding a well-formed character gives a scalar value whose encoding is those bytes (section 4 of RFC 3629) |
| Utf8.CleanFixesWellFormed | internal/jsonout/export.go:276-282 | replacing ill-formed bytes changes a text if and only if it is not well-formed |
| Utf8.CleanIsWellFormed | internal/jsonout/export.go:276-282 | the result is well-formed |
| JsonString.AppendJSONString | internal/jsonout/export.go:242-294 | the chunk-copying writer appends exactly the rune-by-rune escaped string |
| JsonString.AppendEscaped | internal/jsonout/export.go:253-270 | the switch appends the escape of an ASCII character that needs one |
| JsonString.QuoteRoundTrip | internal/jsonout/export.go:237-294 | decoding the output (section 7 of RFC 8259) gives the input back with each ill-formed byte replaced by U+FFFD, whatever follows |
| JsonString.ExactRoundTrip | internal/jsonout/export.go:237-294 | the round trip is exact if and only if the input is well-formed |
| JsonString.QuoteInjective | internal/jsonout/export.go:237-294 | well-formed inputs have different outputs unless they are equal |
| JsonString.NoControls | internal/jsonout/export.go:253-270 | the output has no raw control character and none of <, > and & |
| JsonString.NoSeparators | internal/jsonout/export.go:283-290 | nor the bytes of U+2028 or U+2029 |
| JsonString.PlainStays | internal/jsonout/export.go:247-250 | ASCII without control characters, quotation marks, backslashes, <, > and & is written as it is |
| Export.AppendField | internal/jsonout/export.go:225-233 | appends one member, behind a comma if asked |
| Export.AppendRowJSON | internal/jsonout/export.go:207-223 | appends the thirteen members in order as one object and a line break |
| Export.ObjectBack | internal/jsonout/export.go:207-233 | decoding a row's object gives its keys and cleaned values in order |
| Export.RowIsOneLine | internal/jsonout/export.go:222-222 | the line break of a row is its last byte only |
| Export.ExportJsonl | internal/jsonout/export.go:123-141 | the row loop writes all rows in order and counts them |
| Export.ExportRoundTrip | internal/jsonout/export.go:207-223 | the export has one line per row, and decoding line i gives the thirteen keys in order, each with its own column of row i |
| Urn.ParseURN | internal/ard/types.go:142-201 | the loops over prefixes and segments compute the parse the properties below are about, errors in the order of the code |
| UrnRules.ParsesExactly | internal/ard/types.go:142-201 | a string is parsed, and as this URN, if and only if it is urn:air: or urn:ai: in any case and then two or more non-empty parts joined by colons: a spelling of the publisher, whose lower-case ASCII form the URN has and which holds a dot and no blank, the namespace, and the name |
| Urn.PrintParse | internal/ard/types.go:127-201 | printing a parsed URN and parsing again is the identity |
| Urn.SchemaFormParses | internal/ard/verify.go:269-280 | schema normalisation changes nothing ParseURN sees, errors included, except that the NID becomes air |
| Urn.SchemaFormIdempotent | internal/ard/verify.go:269-280 | normalising twice is normalising once |
| Urn.NormalizeIdentifierPublisherASCII | internal/ard/types.go:214-236 | the loop computes the normal form the properties below are about |
| UrnRules.SchemaFormIs | internal/ard/verify.go:269-280 | the form for the schema is urn:air:, the publisher's lower-case ASCII form if it has one, and the rest as it was |
| Urn.AsciiBodyParses | internal/ard/types.go:221-233 | rewriting the publisher leaves the parse as it was |
| Urn.KeysTellIdentifiers | internal/ard/verify.go:598-611 | compared keys are equal if and only if both parse to one URN or both are the same unparsable string |
| Urn.SameUrnExactly | internal/ard/types.go:127-201 | two strings parse to one URN if and only if NID in any case, canonical publisher and all octets behind the publisher agree |
| UrnEquivalence.RecognisesEquivalentsExactly | internal/ard/types.go:142-201 | the code recognises every name equivalent to a URN (section 3.1 of RFC 8141, canonical publisher) if and only if no percent-encoded octet behind its publisher has a letter among its digits |
| UrnEquivalence.SameParseMeansRfcSame | internal/ard/types.go:142-201 | what parses to one URN is equivalent |
| UrnEquivalence.SlashTwice | internal/ard/verify.go:604-631 | urn:air:a.b:x%2f and urn:air:a.b:x%2F are equivalent, both parse, and no duplicate is reported |
| UrnEquivalence.ComponentsAreNotIgnored | internal/ard/types.go:142-201 | r-, q- and f-components are part of the name to the code: an empty f-component makes a different URN |
| UrnEquivalence.SchemaIdentifiersAgree | internal/ard/schema/ai-catalog.schema.json:70 | identifiers of the characters the catalog schema allows meet the condition |
| Urn.UniqueExactly | internal/ard/verify.go:604-631 | no duplicate is reported if and only if no two entries carry the same identifier |
| UrnEquivalence.UniqueByTheStandard | internal/ard/verify.go:604-631 | for identifiers without components and without letters in percent-encoded octets a duplicate is reported exactly when two entries carry equivalent URNs or equal strings that are no URNs |
| Urn.CheckIdentifierUnique | internal/ard/verify.go:604-631 | the map loop lists each identifier at the second occurrence of its key, and passes if there is none |
| Checks.PartitionChecks | internal/ard/checks.go:20-54 | each owner gets the checks attributed to it, in order; an entry has a bucket exactly when it has checks |
| Checks.IndexIdentifiers | internal/ard/checks.go:25-40 | after the first loop the lookup holds exactly the names that occur once, with their entry, and the ambiguous set those that occur more often |
| Checks.EntryIndexOfIsAttributedTo | internal/ard/checks.go:69-80 | lookup by the index tables is attribution by unambiguous name, and by stamped index among equal names |
| Checks.NothingLost | internal/ard/checks.go:45-53 | the catalog's checks and all buckets add up to the checks given |
| Checks.SemanticChecks | internal/ard/verify.go:535-581 | the loops make the catalog's checks and then each entry's checks, stamped with its index |
| CheckRules.ChecksAreDue | internal/ard/verify.go:535-743 | which checks are made, each once, and when each passes: exactly one of url and data; an identifier that parses; a publisher of the serving domain, for URNs of a served catalog; two to five queries, for entries that are no pointers; a known media type; version 1.0; no identifier twice; the schema's own are not made when it failed |
| Checks.BucketIsWhatWasMade | internal/ard/checks.go:5-19 | the bucket of a named entry is exactly the sequence made for it, however often identifiers repeat; an unnamed entry has none |
| Checks.CatalogKeepsItsOwn | internal/ard/checks.go:56-68 | with every entry named the catalog keeps exactly the catalog-wide checks |
| Hostnames.SanitizeMeans | internal/seed/seed.go:183-208 | the result holds every sanitized name exactly once |
| HostnameRules.SanitizedExactly | internal/seed/seed.go:212-257 | a raw name is kept, and as this name, if and only if that is what trimming, dropping one leading *. and one final dot and lower-casing make of it, it has a dot, 253 characters at most, labels of one to 63 letters, digits and inner hyphens, and is no dotted decimal address |
| Hostnames.SanitizeTwice | internal/seed/seed.go:183-231 | sanitizing the result changes nothing |
| Hostnames.SanitizedStays | internal/seed/seed.go:212-231 | a sanitized name is its own sanitized form |
| Hostnames.SanitizeAll | internal/seed/seed.go:191-208 | the loop with its seen set computes the result those properties are about |
| Hostnames.DomainCollector.Add | internal/seed/seed.go:127-160 | however names are chunked into calls, the collector holds the first `limit` of the sanitized names fed so far |
| Hostnames.FullIsFinal | internal/seed/seed.go:143-149 | once the collector is full, more names make no difference |
| Hostnames.SanitizedFirst | internal/seed/ct.go:165-178 | names sanitized by an earlier log may be fed again with the same result |
| CtLog.DomainsFromLog | internal/seed/ct.go:190-251 | every domain returned is the sanitized form of a name of a leaf that was read, each once, at most n; if they are fewer than n, none is missing and, if the log always answers a non-empty prefix, exactly the newest 4n leaves were read; no leaf is read twice, the leaves read are then a prefix of four adjacent windows going backward, and the result does not depend on the page size |
| CtLog.ReadWindow | internal/seed/ct.go:215-245 | a window is read without gaps from its start, to its end unless the collector is full or an answer is empty |
| CtLog.WindowOrderCovers | internal/seed/ct.go:196-214 | the windows cover exactly the newest min(w * size, treeSize) leaves, each once |
| Like.LikeMeansContains | internal/jsonout/search.go:205-208 | under LIKE with escape '!' the pattern matches exactly the texts that contain the lower-cased value |
| Search.QueryFindsSubstrings | internal/jsonout/search.go:159-168 | the text filter keeps a row if and only if the trimmed query is empty or some column, lower-cased by the database, contains it, lower-cased by strings.ToLower |
| Search.FilterIsInsensitiveExactly | internal/jsonout/search.go:159-208 | it finds what a search with one lower-casing finds, in every text, if and only if both lower-casings take the same characters to those of the query |
| Search.SqliteIsInsensitiveExactly | internal/jsonout/search.go:159-208 | with a LOWER of ASCII only: if and only if no character but an ASCII capital is lower-cased to one of the query's |
| Search.CapitalsOutsideAsciiAreMissed | internal/jsonout/search.go:159-208 | with such a LOWER a query for a capital E with acute misses the column that is that letter |
| Search.SearchPage | internal/jsonout/search.go:135-203 | a page holds the first matching rows beyond the cursor, at most the limit, which is 1 to 200 or 0 for 50, with the last id as cursor exactly when there are more; other limits are refused, and so are verdicts but none, valid, valid_with_warnings and invalid |
| Search.CatalogPage | internal/jsonout/search.go:245-272 | the entry page of GetCatalog pages over one catalog's rows the same way |
| Search.PageIsNextRows | internal/jsonout/search.go:186-201 | a page holds the next rows of all matching ones, and its cursor is the id of the last of them |
| Search.SelectIsBeyond | internal/jsonout/search.go:156-187 | a query beyond a cursor selects what the matching rows hold beyond it |
| Search.PaginationIsExact | internal/jsonout/search.go:186-202 | following the cursor until it is absent returns every matching row once, in id order, for any limits and while rows with larger ids are inserted |
| Search.PaginationEnds | internal/jsonout/search.go:186-202 | on a table that no longer changes the cursor is absent after at most one page more than there are matching rows |

## Left out

- HTTP, robots.txt, rate limits, HTML and registry clients: handlers get an arbitrary finite answer instead.
- The database engine: row locks with SKIP LOCKED and transactions are atomic steps, SQL errors and migrations are not modelled, and fetched_at is taken to grow with every saved catalog.
- Ownership by lease: rows are owned by worker id, as in the code, so two leases of one worker id are not told apart, and exact attempt counts in that case are not claimed.
- ReclaimInFlight as a concurrent step: it runs only where there is one process; `Frontier.Frontier.ReclaimAll` is its sequential form.
- enqueue with a caller-supplied status: callers leave it empty, which means pending.
- BoundedWork.EveryCrawlDrains: excludes reclaims that take the lease of a live handler, assumes a bound on children per handler call, and excludes catalog pointers among registry results.
- CatalogRecovery.CrashEquivalence: leaves out --force, verification checks and domains.ard_status, which the unchanged branch never rewrites. Equality of all rows is about one worker, since the rows of others shift ids; with others at work `RecoveryAmongOthers.RecoveryAmongOthers` states completeness.
- CatalogProcessor.CatalogProcessor.ProcessCatalog: leaves out verification, --force and domains.ard_status in the same way.
- CatalogRows.CallLeaves: is about a call that nobody disturbs, on a store in which every saved catalog still has its entries' rows, as every call leaves it, and none of the call's own catalogs has rows of a harvest; `CatalogCompleteness.RecoveryIsComplete` and `RecoveryAmongOthers.RecoveryAmongOthers` have crashes and other workers, `CatalogCompleteness.UnchangedCallFollowsExactly` the remaining stores.
- HarvestRows.HarvestLeaves: starts from such a store too, and from a catalog id that is there; what embedded catalogs among the results leave in turn is stated if that catalog's own embedded ones have no rows of a harvest.
- RegistryHarvester.RegistryHarvester.HandleRegistryHarvest: a failed search and the registry's harvest status are left out; the harvest starts from the answer of a search that succeeded.
- ProbeRecovery.DoneMeansPromisesKept: is about rows handleHostProbe wrote; rows of `ardvark probe` hold the robots.txt URL. The choice between skipping and probing is arbitrary in the run.
- HostProber.HostProber.HandleHostProbe: domain status and last_probed_at are left out; whether the host was probed recently is a parameter.
- Shutdown.EveryItemSettles: statements that fail with an SQL error are left out, except that a failed query may end the loop, as is a process that dies before Run returns. A lease that is lost to another goroutine of the same worker id counts as lost.
- Engine.HandlePageFetch: inline catalogs go through processCatalog and are not repeated in it; failed domain upserts are not modelled.
- Urn.ParseURN: folds the prefix over ASCII letters. A prefix spelled with U+0130, which lower-cases to an ASCII letter, is rejected by the code with another error.
- UrnEquivalence.RecognisesEquivalentsExactly: air and ai stay different NIDs, and the publisher is compared as the domain name it is, in canonical form.
- Checks.SemanticChecks: leaves out message texts, JSON Schema checks and the media-type table, of which two flags remain.
- CtLog.DomainsFromLog: certificates are parsed elsewhere, so a leaf is a list of names or unparsable; request errors are left out. With empty answers only distinctness and the result over what was read are stated.
- Export.ExportJsonl: CSV is written by a library and left out, as are files and buffering.
- The loop over several CT logs (internal/seed/ct.go:157-179), which asks each log for what is still missing, is left out.
- Search.CatalogPage: finding the catalog by id or URL, and loading its checks, is left out.
- Search.SearchPage: the filters are one arbitrary predicate on rows; the exactness of the tag filter is not claimed.
- Search.QueryFindsSubstrings: both lower-casings work character by character.
- Sharding.HostsAreNotShared: is about the exact string fetchHost returns; a host_probe row keeps a port, an item with a URL does not.
- Backoff sleeps, events, logging, the CLI, the MCP server, the UI, configuration loading and the other seed sources are left out; they connect the parts modelled here.
