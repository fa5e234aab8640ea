# longctx: model and proofs

A Dafny model of the retrieval index of longctx, from a file that changes on disk to the chunk that a query is
answered with, and proofs of what it keeps along the way.

* **Watching.** `Watch` is the watcher as a state machine over a disk that keeps changing: notices gathered and handed
  over in batches without an order, the bounded queue, the rescan flag, a drained batch in flight, the walk of the worker
  and the periodic walk, all interleaved. `WatchProofs` proves that no update is lost in a run of safe steps and that these
  guards are exact, `OrderlyRuns` what the surroundings have to do for it, `WatchLimits` gives a losing run for each
  condition. `Settling` proves that the watcher comes to rest while what is still to be queued (`QueueLoad`) fits, `Storm`
  and `Starvation` when rescans converge and when they feed on themselves. `Rebuild` goes from there to what is served:
  the rebuilt index, one-to-one rows, lines that can be cited. `Events`, `EventProofs` and `PathIndex` are the coalescing of a batch and its meaning. `Watcher`
  is the class with its queue, walk and drain.
* **Indexing.** `Index` gives every indexer operation as a function on files, chunks and embedding rows, `IndexProofs`
  the invariants of all runs and the refinement of a rebuild, `Indexer` the class that changes a file table and an
  `EmbedStore` step by step and is proved to do what `Index` says.
* **Chunking.** `Chunker` and `TokenChunker` are the two window loops with the exact conditions under which no text is
  lost; `Lines` and `Records` take chunks to line citations and back.
* **Ranking.** `Ranking` and `Fusion` are reciprocal-rank fusion, `Selection` the cap, the greedy take, the second trim,
  paging and sub-queries.
* **Guards.** `TokenBucket`, `Cleanup`, `Eviction`, `ReplayLog`, `EmbedCache`, `SingletonLock`.

`dafny verify dfyconfig.toml` checks everything. A class method is proved against a function of the state before it; the
theorems are about those functions. Operations with a choice the code leaves open (rows handed out, walk order, argsort
ties) take the choice as an argument and are proved for every acceptable one.

## Assumptions

Hashing, decoding, embedding and the filter chain are fields of `Env` and otherwise unknown. Digests are taken to
identify contents (`CollisionFree`), and the filter chain answers by path and content and does not change during a run.
What the mtime walk descends into and what the watch filter lets through are fields of `Watch.Config`; the watch filter
goes by the absolute path, so a project below a directory it ignores is not watched at all.

`awatch` hands over sets of changes (the type is spelled out in longctx_daemon/parent_watcher.py:203), so a batch keeps no
order and no repetition; a change may also go unnoticed, by the watch filter or while `awatch` is down after an error or a
vanished root.

The watcher theorems are about one path at a time and ask two things. The path is one the walk meets if the filter chain
ever accepts it (`Watch.Walks`); `WatchLimits.UnwalkedLosesUpdate` shows what happens otherwise. And each step of the run
is safe for the path (`Watch.SafeFor`) and does not change it unnoticed. `WatchProofs.StepExact` shows that these guards
are exactly what keeps a path accounted for. `OrderlyRuns.Orderly` puts them as conditions on what goes on around the
watcher, and `OrderlyRuns.OrderlyRunIsSafe` derives the guards from these:

* every change of the path is noticed (else `WatchLimits.UnnoticedLosesUpdate`, and the next complete periodic walk
  catches up, `WatchProofs.SweepCatchesUp`);
* a write has a newer integer mtime than the record (else `WatchLimits.SameMtimeLosesUpdate`, if events are dropped);
* a batch that is handed over does not hold both a DELETE and a CREATE or MODIFY of the path (else
  `WatchLimits.SaveOutOfOrderLosesUpdate`, `WatchLimits.RemovalOutOfOrderLosesUpdate`);
* a RENAME synthesised to the path files what reading it would (else `WatchLimits.UnrelatedRenameLosesUpdate`);
* what a walk found is still so when it is queued, or a notice is yet to come (else `WatchLimits.LateReportLosesUpdate`,
  `WatchLimits.LateReturnLosesUpdate`);
* a flagged rescan is neither skipped for a missing root with the path still indexed nor cleared by a re-add (else
  `WatchLimits.MissingRootLosesUpdate`, `WatchLimits.ReAddLosesUpdate`).

Each of these runs starts from a quiet project and has exactly one step that is unsafe or unnoticed.

In sync means that an accepted file is recorded as it is and a missing one is not recorded. It does not mean that the index
is what a rebuild would give: an indexed file that is overwritten with content the filter chain rejects, because it has
become binary or too large, is skipped by its update (longctx_daemon/indexer.py:514-521) and its old chunks are served on
(`WatchLimits.RejectedOverwriteStays`). `Rebuild.RebuiltInOrder` says when the two are the same. A full scan does not drop
such records either, nor those of files that are gone.

## Where code and documentation disagree

The model follows the code in each case.

* `_index_file` says an unchanged file gets its mtime refreshed (longctx_daemon/indexer.py:730-733); it does not, so a
  touched file is reported by every later walk (`Storm.UpdateSettlesExact`). The same method documents `None` for a
  no-op and returns counts.
* The widened cap is said to guarantee that the filter never starves the take loop
  (longctx_daemon/searcher.py:704-706); it does so only while the number asked plus the number suppressed fits the
  fusion depth (`Selection.SuppressionExact`).
* `search` with `max_results` of 0 keeps one chunk, the response handler none (`Selection.RetrimIsIdentityExact`).
* Coalescing promises that a DELETE and a CREATE of another path are a rename that preserves embeddings
  (longctx_daemon/watcher.py:1053-1054); two unrelated files are folded as well
  (`WatchLimits.UnrelatedRenameLosesUpdate`).
* A DELETE and a CREATE of one path are said to be a MODIFY (longctx_daemon/watcher.py:1055); for an unchanged file it
  leaves the old mtime, where the two events would have recorded the new one (`PathIndex.ResaveKeepsOldMtime`). Queued in
  the other order, as a batch of `awatch` may be, they are a DELETE (`WatchLimits.SaveOutOfOrderLosesUpdate`).
* The watch filter is described as saving wake-ups for paths the indexer filters anyway
  (longctx_daemon/watcher.py:150-162); the default exclude patterns (longctx_daemon/indexer.py:53-58) lack `env`,
  `outputs`, `.vscode` and others of its directories, whose files are indexed and not watched
  (`WatchLimits.UnnoticedLosesUpdate`).
* The walk is said to skip always-noisy directories (longctx_daemon/watcher.py:1276-1277); of these `.tox` is neither
  filtered nor excluded, so a walk drops what a save indexed (`WatchLimits.UnwalkedLosesUpdate`).
* `rename_file` counts on one SQL update; an indexed destination violates the unique constraint
  (longctx_daemon/storage/sqlite_store.py:109) and the call falls back to delete and reindex.
* `release` says a waiter that slipped in between unlock and unlink is left alone
  (longctx_daemon/server_info.py:348-350); its file is unlinked (`SingletonLocks.InterruptedReleaseFails`).
* Shard names are said to list oldest first (longctx_daemon/replay_log.py:111-116); of shards with one time stamp
  the first lists last, and the others by their counters as texts (`ReplayLogs.ListingOrderExact`).
* The self-throttle is described as reacting to sustained load over a window of 300 seconds
  (longctx_daemon/watcher.py:184-186); a single sample above the threshold engages it, and with a configured rate below
  one per second it speeds the worker up (`TokenBuckets.ThrottleFollowsLoad`).
* Directory names keep the caches of different embedders apart (longctx/rag/embed_cache.py:51-52), but names that
  differ only in a slash, a colon or an underscore share one (`EmbedCaches.SharedDirExact`).
* A cache failure is never fatal (longctx/rag/embed_cache.py:7-9), but with the cache on an empty list of texts raises
  where without it an empty result comes back (`EmbedCaches.EmbedCache.EncodeWithCache`).
* The chunker accepts any sentence slack, and the default one is too large for chunks under 31 characters; characters
  are then lost (`Chunker.CoverageExact`).

## Model

| member | source | states |
|---|---|---|
| WatchProofs.NoLostUpdate | longctx_daemon/watcher.py:814-846 | in every run of disk changes, batches handed over and queued in any order, drains, event applications, worker and sweep walks in any interleaving, whose steps are safe for a path and do not change it unnoticed: whenever its index entry differs from the disk it is named in a notice yet to be queued, in the queue or the batch in flight, or a rescan will still tell; when nothing is left, index and disk agree |
| OrderlyRuns.NothingLostInOrder | longctx_daemon/watcher.py:757-777 | the same under conditions on single steps: every change of the path is noticed and newer than the record, a batch handed over does not say of the path both that it is there and that it is gone, a RENAME to it is a true move, no rescan is skipped or cleared, and a walk that reports it late finds it as it was or a notice is yet to come |
| OrderlyRuns.ReindexedInOrder | longctx_daemon/watcher.py:994-1043 | and so at rest, after any such joint run of watcher and indexer, a search of the accepted file sees what indexing it into an empty store shows |
| Rebuild.CitableInOrder | longctx_daemon/mcp_server.py:1941-1955 | from disk to citation: at rest after such a run, looking up any line from 1 to the last one of an accepted file finds a stored chunk with a character on it, and any other line does not |
| Rebuild.JointRunExact | longctx_daemon/indexer.py:704-828 | along a joint run of watcher and indexer, stored chunks are one-to-one with the live rows in every state if and only if no applied event carries over a repeated hash |
| Rebuild.RebuiltInOrder | longctx_daemon/indexer.py:514-521 | at rest after an orderly run the index has of a path what a rebuild would give if and only if no record of a file the filter rejects is left, and none is if no rejected content was written over a recorded file |
| Rebuild.AcceptedStepExact | longctx_daemon/indexer.py:514-521 | a step leaves a record of a rejected file if and only if it writes rejected content over a recorded one |
| Rebuild.StaleStepExact | longctx_daemon/indexer.py:514-521 | such a record goes if and only if the file is removed or written with accepted content, or an event that says it is gone is applied |
| WatchLimits.RejectedOverwriteStays | longctx_daemon/indexer.py:514-521 | an indexed file overwritten with content the filter rejects: all steps are safe, and at rest the old content is still served |
| OrderlyRuns.OrderlyRunIsSafe | longctx_daemon/watcher.py:757-846 | such a run is safe at every step, in whatever order its batches are queued |
| OrderlyRuns.DeliverIsSafe | longctx_daemon/watcher.py:771-777 | with one kind of word about a path in the batch every order of queueing it is safe, overflow included |
| WatchProofs.QuiescentMeansReindexed | longctx_daemon/watcher.py:994-1043 | at rest, after any joint run of watcher and indexer that is safe for a path, the chunks, lines and vectors found for the accepted file are those of indexing its present content into an empty store, and a file that is gone is gone from the index |
| WatchProofs.JointRunKeeps | longctx_daemon/indexer.py:502-637 | along such a run the index with its chunks and rows stays sound and the view of the watcher stays its projection |
| WatchProofs.StepExact | longctx_daemon/watcher.py:994-1043 | from a state that accounts for a path, each of the fourteen kinds of step that does not change it unnoticed keeps it accounted for if and only if the step is safe for it; for a notice, in particular, that the last one queued about the path is true |
| WatchProofs.RunExact | longctx_daemon/watcher.py:994-1043 | the same over whole runs: accounted for in every state if and only if every step is safe |
| WatchProofs.StepInvExact | longctx_daemon/watcher.py:994-1043 | for all followed paths together |
| WatchProofs.StepKeepsQueue | longctx_daemon/watcher.py:827-843 | whatever happens, the queue never holds more than `queue_size` events and is empty whenever a rescan is flagged, so the events dropped under the flag are all it drops |
| WatchProofs.QueuedExact | longctx_daemon/watcher.py:827-843 | queueing an event keeps a path accounted for if and only if the event is true or a notice is yet to come, and what is dropped is in sync, mentioned elsewhere or told by its mtime |
| WatchProofs.ApplyExact | longctx_daemon/watcher.py:1124-1199 | applying one coalesced event against a disk that has moved on keeps a path accounted for if and only if it is not a RENAME to it with the last word that files other content |
| WatchProofs.DrainKeeps | longctx_daemon/watcher.py:1003-1021 | taking the queue away, or discarding it for a flagged rescan, loses no path |
| WatchProofs.VisitKeeps | longctx_daemon/watcher.py:1299-1313 | a walk meeting a file, and keeping what it found of it to queue later, loses no path |
| WatchProofs.GlimpseKeeps | longctx_daemon/watcher.py:1307-1311 | a file listed by the walk and gone when its mtime is read is accounted for by its own notice, though the walk reports neither |
| WatchProofs.ReportExact | longctx_daemon/watcher.py:1312-1318 | when queueing what was found of a file, which may have changed since its mtime was read, keeps a path accounted for |
| WatchProofs.ReportGoneExact | longctx_daemon/watcher.py:1320-1326 | when reporting a recorded path the walk did not see as deleted keeps it accounted for |
| WatchProofs.SilentChangeExact | longctx_daemon/watcher.py:192-220 | a change at rest stays accounted for if and only if it is noticed or leaves the path in sync; otherwise it is lost at once, with nothing on its way |
| WatchProofs.SweepStartExact | longctx_daemon/watcher.py:1292-1326 | a periodic walk that begins accounts for a path, watched or not, if and only if nothing wrong about it is queued or in flight with no notice to come, and the recorded mtime is older where that is all there is to tell by |
| WatchProofs.SweepCatchesUp | longctx_daemon/watcher.py:1266-1326 | a periodic walk that ran from start to finish has caught up with whatever changed before it began, seen or not: the path is accounted for afterwards and in sync once at rest |
| WatchProofs.LostForGood | longctx_daemon/watcher.py:1308-1313 | a path out of sync whose recorded mtime is not older stays out of sync, however many walks are done, until it changes again |
| WatchProofs.AnyChange | longctx_daemon/watcher.py:757-777 | nothing holds back the disk or the order of a batch: any file may be written or removed at any time, noticed if it is watched and unnoticed always, and any notice of the batch may be the next |
| WatchProofs.AnyVisit | longctx_daemon/watcher.py:1292-1311 | a walk may come next to any walkable file it has not met, listed when it began or not; where a listed one is gone it may miss it or only find its mtime missing |
| WatchLimits.PendingZeroIsNotIndexed | longctx_daemon/watcher.py:626-633 | a drained batch is counted nowhere: `pending_updates` is 0 with a written file not indexed |
| WatchLimits.UnrelatedRenameLosesUpdate | longctx_daemon/watcher.py:1101-1117 | deleting one file and creating an unrelated one in one batch files the old content under the new path, with the new mtime: a run with this one unsafe step, and the update lost for good |
| WatchLimits.LateReturnLosesUpdate | longctx_daemon/watcher.py:1320-1326 | a path that returns after a walk missed it and before the walk reports it is dropped from the index; the report is the one unsafe step |
| WatchLimits.SameMtimeLosesUpdate | longctx_daemon/watcher.py:1308-1313 | for any queue size, an overflow that drops the notice of a change without a newer integer mtime is the one unsafe step, and the update is lost for good |
| WatchLimits.ReAddLosesUpdate | longctx_daemon/watcher.py:457-465 | for any queue size, re-adding a project clears a flagged rescan together with the dropped events it stood for; the re-add is the one unsafe step |
| WatchLimits.MissingRootLosesUpdate | longctx_daemon/watcher.py:1280-1282 | for any queue size, a rescan drained while the root is missing is over without a walk and leaves the gone files indexed; the skipped walk is the one unsafe step |
| WatchLimits.SaveOutOfOrderLosesUpdate | longctx_daemon/watcher.py:757-777 | a file saved by removing and creating it, both in one batch and queued as CREATE, DELETE: the file is there and not indexed; the last notice is the one unsafe step |
| WatchLimits.RemovalOutOfOrderLosesUpdate | longctx_daemon/watcher.py:757-777 | a file written and removed, both in one batch and queued as DELETE, MODIFY: the file is gone and stays indexed |
| WatchLimits.TwoWordsSlip | longctx_daemon/watcher.py:771-777 | every batch with two words about a path and nothing newer gathered can be queued so that the last notice is false, if the queue has room for it and no rescan is flagged |
| WatchLimits.LateReportLosesUpdate | longctx_daemon/watcher.py:1308-1318 | a touched file removed between the reading of its mtime and the queueing of what it says, with its own notice queued first, stays indexed; the late report is the one unsafe step |
| WatchLimits.UnnoticedLosesUpdate | longctx_daemon/watcher.py:757-792 | one save of an accepted file that the watch filter hides, or that is made while `awatch` is down, leaves everything at rest and the file not indexed |
| WatchLimits.UnwalkedLosesUpdate | longctx_daemon/watcher.py:1294-1326 | a file the filter chain accepts under a directory the walk skips is indexed by its save and dropped by the next walk |
| Storm.StormLivelockExact | longctx_daemon/watcher.py:1292-1326 | one rescan round over a static disk returns to the very state it began in if and only if more paths have drifted than the queue holds |
| Starvation.RunStarves | longctx_daemon/watcher.py:1292-1326 | beyond one round and a static disk: once a rescan is flagged with the worker idle, and while more paths stay new, newer than recorded or missing than the queue holds, no step of any run without a re-add changes the index, whatever else is written, noticed or swept, unless everything is missing and the root with it |
| Starvation.RejectedFilesStarve | longctx_daemon/watcher.py:1311-1318 | in particular while more files than `queue_size` that no update records, such as those the filter chain rejects, lie where walks meet them: nothing is indexed and the watcher never comes to rest |
| QueueLoad.LoadNeverRises | longctx_daemon/watcher.py:827-843 | left alone, the watcher never has more to queue than before as long as that fits: the notices, the queue, the new, newer and missing files the running walks have yet to report, and the drift a flagged or handed-over rescan will find with what the batch in flight may add |
| Settling.SettlesInTime | longctx_daemon/watcher.py:994-1043 | left alone, and if what is still to be queued fits the queue, the watcher takes no more steps than a count of what is left to do, from any state and in any interleaving, and can stop only with nothing waiting and no walk under way; files that are indexed and unchanged take no room |
| Settling.WorkFalls | longctx_daemon/watcher.py:994-1043 | every step leaves less to do: notices, queue, batch in flight, walks and flagged rescans weighed together, as long as what is to be queued fits |
| Settling.SettlesInSync | longctx_daemon/watcher.py:994-1043 | and then index and disk agree on every path that was accounted for and whose steps were safe |
| Settling.SettlesInOrder | longctx_daemon/watcher.py:994-1043 | for which the step conditions of orderly runs are enough |
| Storm.StormConvergesExact | longctx_daemon/watcher.py:1003-1021 | when the drift fits the queue, one walk and one drain bring the whole index in sync with the disk if and only if every accepted file can be walked to and is indexed as it is or shows drift, and a RENAME folded on the way is faithful |
| Storm.StormRecovers | longctx_daemon/watcher.py:1003-1021 | so a flagged rescan makes good what it stands for: a path the invariant accounts for is in sync afterwards unless an unfaithful RENAME names it |
| Storm.EnqueueAllExact | longctx_daemon/watcher.py:827-843 | queueing many events keeps them all if they fit, and throws all of them away and flags a rescan if they do not |
| Storm.WalkEventCount | longctx_daemon/watcher.py:1292-1326 | a walk emits exactly one event per drifted or missing path, in whatever order it goes |
| Storm.WalkEventsAre | longctx_daemon/watcher.py:1308-1326 | what a whole walk says of each path: DELETE if recorded and gone, CREATE if new, MODIFY if newer, nothing otherwise |
| Storm.RoundExec | longctx_daemon/watcher.py:1015-1021 | a rescan round step by step: index untouched, queue and flag as queueing all walk events leaves them |
| Storm.UpdateSettlesExact | longctx_daemon/indexer.py:729-733 | an update settles the drift it is triggered by if and only if the filter accepts the file and its hash is new |
| Storm.ResidualDriftExact | longctx_daemon/watcher.py:1308-1326 | after a rescan round and its drain, the next walk reports a path if and only if this one found it newer and it was in sync all the same; missing files are settled |
| PathIndex.CoalescingMeaningExact | longctx_daemon/watcher.py:1045-1120 | applying the coalesced batch, updates before deletes and renames, leaves the very index that replaying the raw events one by one leaves, hashes and mtimes, if and only if each path deleted and re-created shows what reading it would (not indexed if now rejected, recorded with its present mtime if its hash is the same) and a folded RENAME carries what reading the destination would give |
| PathIndex.CoalescedHashesExact | longctx_daemon/watcher.py:1045-1120 | the hashes alone agree if and only if no such path that is indexed is now rejected and the RENAME is faithful |
| PathIndex.ResaveKeepsOldMtime | longctx_daemon/watcher.py:1070-1089 | a file deleted and put back unchanged with a newer mtime is where the two differ: the replay records the new mtime, the MODIFY keeps the old one |
| PathIndex.IndexerRefinesPaths | longctx_daemon/indexer.py:562-637 | the path-to-hash view the watcher proofs use follows the full indexer step for step, for updates, deletes and all four rename routes |
| PathIndex.ReplayIs | longctx_daemon/watcher.py:1045-1060 | the hash and mtime that replaying raw events leaves at a path, as a function of its last event and of any DELETE before |
| PathIndex.ApplyBatchIs | longctx_daemon/watcher.py:1124-1199 | the hash and mtime the coalesced batch leaves at a path, although it runs in another order |
| EventProofs.EveryPathSurvives | longctx_daemon/watcher.py:1119-1120 | every path of a batch is the path or the old path of a coalesced event |
| EventProofs.CoalescingKeepsLastWord | longctx_daemon/watcher.py:1061-1120 | coalescing and reordering keep, for each path, whether its last event said it is there or gone |
| EventProofs.CoalescedMentionsOnce | longctx_daemon/watcher.py:1061-1120 | each path of the batch is mentioned by exactly one coalesced event and no other path is |
| Events.CoalesceEvents | longctx_daemon/watcher.py:1045-1120 | the three phases as loops over maps give the coalesced batch |
| Events.LastPerPath | longctx_daemon/watcher.py:1061-1068 | phase 1: order of first appearance, last event wins |
| Events.UpgradeAtomicSaves | longctx_daemon/watcher.py:1070-1089 | phase 2: a surviving CREATE whose first DELETE came before its first CREATE becomes a MODIFY, all else stays |
| Events.FoldRename | longctx_daemon/watcher.py:1091-1120 | phase 3: exactly one surviving DELETE and one surviving CREATE on different paths become one RENAME |
| EventProofs.FoldExact | longctx_daemon/watcher.py:1091-1117 | a batch is folded into a RENAME from a to b if and only if a is the one path left with a DELETE and b the one left with a CREATE; with two of either nothing is folded |
| EventProofs.SurvivingExact | longctx_daemon/watcher.py:1061-1089 | a path is left with its last event, except that a CREATE becomes a MODIFY if and only if some DELETE of the path came before every CREATE of it |
| EventProofs.CoalescedInOrder | longctx_daemon/watcher.py:1119-1120 | the coalesced batch goes by the first appearance of its paths among the raw events |
| EventProofs.DispatchInOrder | longctx_daemon/watcher.py:1144-1199 | what is dispatched keeps the order of the batch, but for the updates, which all come first |
| Watcher.Watcher.EnqueueEvent | longctx_daemon/watcher.py:814-843 | the queue and the flag after one event: dropped under a rescan, appended, or overflow |
| Watcher.Watcher.MtimeWalk | longctx_daemon/watcher.py:1266-1326 | the events a walk queues, in walk order, for new, newer and missing files; none when the root is missing |
| Watcher.Watcher.ApplyEvents | longctx_daemon/watcher.py:1124-1199 | the index after a batch is the batch applied with updates first and deletes and renames after |
| Watcher.Watcher.DrainNow | longctx_daemon/watcher.py:994-1043 | a flagged rescan queues what the walk finds, or is simply over when the root is missing, and indexes nothing; otherwise an expired queue is emptied into the index by one coalesced batch and an unexpired one is left alone |
| Watcher.Watcher.constructor | longctx_daemon/watcher.py:386-447 | a new project state has an empty queue and no rescan |
| IndexProofs.ApplyExactIff | longctx_daemon/indexer.py:704-828 | update, delete, rename and project drop keep stored chunks one-to-one with exactly the live rows if and only if the operation carries over no hash that is repeated in the old or the new chunks |
| IndexProofs.RunsExact | longctx_daemon/indexer.py:539-637 | over a whole run: no leaked row, no shared row and no reference to a freed row in any state if and only if no step carries over a repeated hash |
| IndexProofs.RunsSound | longctx_daemon/indexer.py:704-828 | in every state of every run, repeated chunks or not, each stored chunk points at a live row that embeds its own text, no two files share rows, and the stored records are those of any content with the stored hash |
| IndexProofs.ApplySound | longctx_daemon/indexer.py:502-637 | each operation keeps that |
| IndexProofs.ReindexExactIff | longctx_daemon/indexer.py:762-828 | the same for re-indexing one file |
| IndexProofs.RepeatLeaks | longctx_daemon/indexer.py:771-783 | of two old chunks with one carried hash the row of the earlier one stays live and unused |
| IndexProofs.RepeatAliases | longctx_daemon/indexer.py:798-803 | two new chunks with one carried hash are given the same row |
| IndexProofs.RepeatedChunksBreakRows | longctx_daemon/indexer.py:771-777 | a file with a doubled chunk, updated once, leaves the one-to-one state: any two contents starting with the same doubled character under one-character windows |
| IndexProofs.CarriedChunk | longctx_daemon/indexer.py:770-777 | a chunk whose hash is known keeps the row of the last old chunk with that hash, alive and unchanged |
| IndexProofs.EmbeddedChunk | longctx_daemon/indexer.py:785-795 | a chunk whose hash is new gets the row of its own turn in the batch, holding its embedding |
| IndexProofs.UpdateRefinesRebuild | longctx_daemon/indexer.py:704-828 | after `update_file` the records and vectors found for the file equal those of indexing the content into an empty store, including the hash-match early return and repeated chunks |
| IndexProofs.SoundIsFromScratch | longctx_daemon/indexer.py:729-733 | a stored file whose hash matches the content shows exactly what indexing that content from nothing would |
| IndexProofs.CountsAreHonest | longctx_daemon/indexer.py:785-828 | total = new + reused, exactly `new` rows are appended, and a chunk is new exactly when its hash was not in the file before |
| IndexProofs.ApplyFrame | longctx_daemon/indexer.py:502-637 | an operation changes what a search finds of no other file |
| IndexProofs.MoveSound | longctx_daemon/indexer.py:607-617 | an in-place rename moves a file with its rows to a free path and keeps soundness and one-to-one rows |
| IndexProofs.RenameMeans | longctx_daemon/indexer.py:562-637 | what a rename leaves: nothing changed for an unknown path, the file dropped for a rejected destination, the old records and vectors under a free destination with its mtime, and what reading it gives under an indexed one |
| IndexProofs.DropProjectLeavesNothing | longctx_daemon/indexer.py:553-560 | dropping a project removes exactly its files and, from a one-to-one state, leaves no row of it |
| IndexModel.RowByHashHit | longctx_daemon/indexer.py:771 | of equal hashes the last old chunk is the one found |
| Indexer.Indexer.constructor | longctx_daemon/indexer.py:399-422 | a new indexer over an empty store is sound and one-to-one |
| Indexer.Indexer.IndexFile | longctx_daemon/indexer.py:704-828 | the loops and store calls give the specified new files and rows, from rows the store was free to hand out, and the returned counts; from a one-to-one state no row is freed twice |
| Indexer.Indexer.UpdateFile | longctx_daemon/indexer.py:502-537 | filter, then index; counts are absent for a skipped file |
| Indexer.Indexer.DeleteFile | longctx_daemon/indexer.py:539-551 | frees the rows of every chunk, none twice from a one-to-one state and none out of range, then drops file and chunks |
| Indexer.Indexer.DeleteProject | longctx_daemon/indexer.py:553-560 | frees every row of every file of the project, none twice from a one-to-one state, then drops its files |
| Indexer.Indexer.RenameFile | longctx_daemon/indexer.py:562-637 | all four routes: old path unknown, destination rejected, in-place rename, and delete and reindex |
| Indexer.KeepRows | longctx_daemon/indexer.py:770-777 | the two loops that find the carried rows |
| Indexer.Materialize | longctx_daemon/indexer.py:797-818 | each record gets its carried or its new row |
| EmbedStores.EmbedStore.AppendBatch | longctx_daemon/storage/memmap_store.py:320-353 | rows are distinct, none was live, each holds its vector and no live row changes; the file grows only by what the free rows do not hold, and so is never longer than it was or than its live rows |
| Indexer.FileIsPeak | longctx_daemon/storage/memmap_store.py:338-353 | over a run of the indexer, whose operations each leave the file as long as it was or as its live rows, whichever is more, it is exactly as long as the most rows that were ever live at once |
| EmbedStores.EmbedStore.FreeRow | longctx_daemon/storage/memmap_store.py:355-370 | exactly that row leaves the live set; freeing twice changes nothing, and is counted; a row past the end is refused |
| Chunker.CoverageExact | longctx/rag/chunker.py:152-177 | every character of every text lies in a chunk if and only if the overlap is not negative and, when sentences are respected, the slack is at most one more than the window |
| Chunker.DefaultsGapless | longctx/rag/chunker.py:94-120 | for the default overlap and slack that is exactly when a chunk holds at least 31 characters |
| Chunker.ChunksTile | longctx/rag/chunker.py:152-177 | under that condition chunks are non-empty slices no longer than the window, starts increase, the first begins at 0, the last ends at the end, and each begins no later than its predecessor ends |
| Chunker.ChunksRebuildText | longctx/rag/chunker.py:152-177 | dropping the overlaps rebuilds the text exactly |
| Chunker.ChunkCountBound | longctx/rag/chunker.py:152-177 | with overlap plus slack below the window, (chunks - 1) times the guaranteed advance stays below the text length |
| Chunker.NegativeOverlapGap | longctx/rag/chunker.py:175 | a negative overlap loses a character of some text |
| Chunker.ExcessSlackGap | longctx/rag/chunker.py:45-56 | a slack of two or more above the window loses a character of some text |
| Chunker.CutsMonotone | longctx/rag/chunker.py:161-175 | right edges never move left, in any configuration |
| Chunker.PositionsCount | longctx/rag/chunker.py:176 | positions count up by one from the base |
| Chunker.ChunkCharProxy | longctx/rag/chunker.py:152-177 | the loop cuts the specified windows and ends |
| Chunker.ChunksExact | longctx/rag/chunker.py:152-177 | in any configuration, gapless or not: a window that would end inside the text ends at the last sentence end in reach, or where it would otherwise; text and token count fit the offsets; neighbours share exactly the overlap unless the next would not move on; and the chunks stop only where the text is used up |
| Chunker.ConfiguredChunks | longctx/rag/chunker.py:152-155 | that for a configured chunker, whose window, overlap and token count all take a token for the configured number of characters |
| Chunker.DefaultsExact | longctx/rag/chunker.py:94-120 | which arguments the constructor refuses, and its defaults: an overlap of a tenth of the chunk but at least one token, which refuses chunks of one token, and a slack of a twentieth of the characters but at least 32 |
| Chunker.ChunkMany | longctx/rag/chunker.py:131-137 | documents are chunked in order and positions run 0, 1, 2 over all of them |
| Chunker.DocumentChunks | longctx/rag/chunker.py:131-137 | the chunks of a document stand together, after those of all before it, and are those of the document by itself with positions that run on |
| Chunker.TokenCountMeans | longctx/rag/chunker.py:171 | the token estimate is how many whole tokens fit into the characters, but at least one |
| Chunker.LastSentenceEnd | longctx/rag/chunker.py:52-56 | the sentence end found is the last one in reach |
| Chunker.WalkToSentenceEnd | longctx/rag/chunker.py:45-56 | the cut never moves right and moves left by less than the slack |
| TokenChunker.TokenCoverageExact | longctx/rag/chunker.py:197-221 | with an offset mapping, every character from the first token to the last lies in a chunk, for every text and mapping, if and only if neighbouring windows share at least one token |
| TokenChunker.TokenChunkCountExact | longctx/rag/chunker.py:197-221 | the number of chunks is the least that reaches the last token |
| TokenChunker.TokenWindows | longctx/rag/chunker.py:197-221 | the loop over tokens cuts the specified windows and ends |
| TokenChunker.TokenChunksExact | longctx/rag/chunker.py:197-221 | chunk i holds the tokens from i times size minus overlap on, as many as fit and are there, and the text from the first to the last character of these |
| TokenChunker.ChunkWithTokenizer | longctx/rag/chunker.py:179-221 | windows of tokens, or characters when the tokenizer gives no offsets |
| Lines.LineStartOffsets | longctx_daemon/indexer.py:949-962 | the find loop collects every line start |
| Lines.OffsetToLineIsExact | longctx_daemon/indexer.py:965-970 | the line of an offset is one more than the newlines before it |
| Lines.BisectRight | longctx_daemon/indexer.py:965-970 | how many sorted entries are at most the offset |
| Records.BuildRecords | longctx_daemon/indexer.py:830-871 | every chunk becomes a record with the lines of its first and last character and the hash of its text |
| Records.IndexedLinesAreCitable | longctx_daemon/mcp_server.py:1941-1955 | from text to citation: looking up any line from 1 to that of the last character finds a chunk with a character on it, and any other line does not |
| Records.CitationExact | longctx_daemon/mcp_server.py:1941-1955 | the same for any records that tile the text |
| Records.SpanIsReal | longctx_daemon/indexer.py:843-854 | a record spans exactly the lines its characters sit on |
| Records.LineIntervalsContiguous | longctx_daemon/indexer.py:843-854 | line intervals start at 1, end at the last line and leave no line out between neighbours |
| Records.PickChunkForLine | longctx_daemon/mcp_server.py:1941-1955 | a chunk spanning the line is returned whenever there is one |
| Records.PickIsFirst | longctx_daemon/mcp_server.py:1941-1955 | it is the first chunk that spans the line |
| Records.PickFallsBack | longctx_daemon/mcp_server.py:1941-1955 | and the very first chunk where none does or no line is asked for |
| Records.RecordsCarry | longctx_daemon/indexer.py:843-871 | record i carries the place, offsets, text and token count of chunk i and the hash of its text |
| Fusion.RrfFuse | longctx_daemon/searcher.py:1313-1352 | the accumulating loops list every chunk of every ranking once, with its closed-form weighted sum of 1/(k + rank), best first and smaller id first on a tie |
| Fusion.FusionOrderFree | longctx_daemon/searcher.py:1340-1352 | fusing the same rankings in another order gives the very same list |
| Fusion.Dominance | longctx_daemon/searcher.py:1340-1352 | a chunk ahead of another in every ranking that has the other is fused strictly ahead of it, with every source that has rankings at a positive weight, as searches call it |
| Fusion.WeakDominance | longctx_daemon/searcher.py:1340-1352 | with a weight of zero the two can tie, and then the smaller id comes first |
| Fusion.MultiIsSumOfSingles | longctx/rag/coarse_filter.py:180-204 | fusing N queries at once scores each chunk as the sum of its N single-query scores |
| Fusion.FilterMultiQuery | longctx/rag/coarse_filter.py:180-259 | the empty input and the two error exits, sources of weight 0 left out; each chunk once with the sum of its single-query scores, highest first and those of one score in the order of the first ranking used, as many as asked for, and nothing cut is ahead of anything kept |
| Fusion.Accumulate | longctx_daemon/searcher.py:1340-1350 | the double loop adds to each chunk exactly its weighted places |
| Fusion.OnePlace | longctx_daemon/searcher.py:90-97 | a chunk that stands once, at rank r of one ranking, is fused with the score v such that v times (k + r) is the weight of the ranking |
| Fusion.AgreementExact | longctx_daemon/searcher.py:1313-1352 | with equal weights a chunk at ranks i and j of two rankings beats one that stands only once, at rank h, if and only if (k + h)(2k + i + j) > (k + i)(k + j): the larger k, the more agreement counts |
| Fusion.AheadExact | longctx/rag/coarse_filter.py:251-258 | the order of the result is a strict one: by score, and on a tie by the place in the first ranking used |
| Ranking.RankingUnique | longctx_daemon/searcher.py:1352 | the final sort has no freedom: entries have one listing by score and id |
| Selection.SuppressionExact | longctx_daemon/searcher.py:698-712 | cutting the fused list at the widened cap loses nothing, for every list, if and only if the number asked plus the number suppressed is at most the fusion depth; and then no smaller cap would do |
| Selection.HarmlessExact | longctx_daemon/searcher.py:698-712 | cutting at any depth loses nothing, for every list, if and only if it is at least the number asked plus the number suppressed |
| Selection.SearchIsPage | longctx_daemon/searcher.py:707-712 | with every id resolvable and no dedup a search is a prefix of filter-then-take on the capped list, one chunk at least, and all of it if and only if its tokens fit the budget or it is a single chunk |
| Selection.TakeIsFilterThenTake | longctx_daemon/searcher.py:864-907 | the same for the greedy loop from any point on |
| Selection.PagingEnumerates | longctx_daemon/searcher.py:698-712 | searches through the take loop that each suppress all that was shown go through the fused ranking without repeat or gap for any token budget, with something new each time down to the fusion depth, and page by page if the pages fit the budget |
| Selection.UnlimitedSearch | longctx_daemon/searcher.py:707-712 | without a limit and without dedup a search returns, down to the fusion depth, what is neither suppressed nor gone from the store: a prefix of it, one chunk at least, and all of it if and only if its tokens fit the budget or it is a single chunk |
| Selection.ResolvedExact | longctx_daemon/searcher.py:785-800 | ids the store no longer has are skipped, as if they had been suppressed |
| Selection.TakeFilters | longctx_daemon/searcher.py:864-907 | what is kept is a subsequence of the ranking, free of suppressed ids, with distinct doc roots under dedup, and no longer than asked |
| Selection.TakeIsGreedy | longctx_daemon/searcher.py:869-907 | what is kept is a prefix of what passes the suppress and dedup gates, and it ends early only when the asked number is reached or the next chunk would overflow the budget with something already kept |
| Selection.PassingExact | longctx_daemon/searcher.py:870-877 | a chunk passes the gates if and only if it is not suppressed and, under dedup, is the first unsuppressed one of its doc root |
| Selection.TakeBudget | longctx_daemon/searcher.py:879-907 | more than one chunk is kept only within the token budget |
| Selection.TakeLoop | longctx_daemon/searcher.py:864-907 | the loop with its three filters and two exits keeps the specified chunks |
| Selection.Retrim | longctx_daemon/mcp_server.py:1078-1091 | the response handler's own trimming loop |
| Selection.RetrimIsGreedy | longctx_daemon/mcp_server.py:1078-1091 | of any list the second trim keeps a prefix no longer than asked, within the budget but for its first chunk, and cut short only where the next chunk would break one of the two |
| Selection.RetrimIsIdentityExact | longctx_daemon/mcp_server.py:1078-1091 | trimming a search result again changes nothing if and only if no limit or a positive one was asked, or nothing was found |
| Selection.SearchMulti | longctx_daemon/searcher.py:1023-1045 | each group is what its sub-query finds with everything before it suppressed, and repeats none of it |
| Selection.GroupsPairwiseDisjoint | longctx_daemon/searcher.py:1018-1045 | any two groups share no chunk, and none shows one suppressed from the start |
| Selection.ChunkTokenCount | longctx_daemon/searcher.py:1450-1460 | the recorded count, or the estimate when there is none; never zero |
| TokenBuckets.GrantedWithinRate | longctx_daemon/watcher.py:243-292 | over any sequence of acquires and rate changes, to zero and back as well, with sleeps at least as long as asked, 0 <= tokens <= burst and the total granted while the limiter is on is at most the burst plus the largest rate times the time passed |
| TokenBuckets.SleepPaysExact | longctx_daemon/watcher.py:268-287 | a sleeping acquire is paid for if and only if the sleep was as long as the missing tokens take to earn |
| TokenBuckets.BoundReached | longctx_daemon/watcher.py:243-287 | the bound is reached |
| TokenBuckets.AskedExact | longctx_daemon/watcher.py:257-287 | an acquire asks for no sleep when off or enough tokens are there, and otherwise for as long as the missing ones take to earn, at least a hundredth of a second |
| TokenBuckets.NothingLostExact | longctx_daemon/watcher.py:257-287 | within the burst an acquire leaves exactly what was there and earned, up to the burst, less what it took, if and only if its sleep was long enough; a larger one leaves nothing |
| TokenBuckets.ThrottleFollowsLoad | longctx_daemon/watcher.py:948-992 | over any run of samples the rate is the configured one, or half of it, but at least one, exactly while the last telling sample was high; that is a slower one if and only if the configured rate is above one |
| TokenBuckets.LookedExact | longctx_daemon/watcher.py:962-975 | with a clock that does not run backwards a sample is looked at if and only if the throttle is on and a minute has passed since every sample looked at before |
| TokenBuckets.TokenBucket.Acquire | longctx_daemon/watcher.py:243-287 | the four paths: disabled, enough tokens, larger than the burst, sleep and refill |
| TokenBuckets.RateIsRetroactive | longctx_daemon/watcher.py:289-292 | a new rate is credited for all the time since the last refill; this makes no difference if and only if no time has passed, the rate is the same, or the bucket would be full at either rate |
| TokenBuckets.OffExact | longctx_daemon/watcher.py:257-258 | an acquire neither waits nor leaves a trace if and only if the rate is zero |
| TokenBuckets.TokenBucket.constructor | longctx_daemon/watcher.py:237-241 | a bucket starts full, with a burst of at least one |
| TokenBuckets.Throttler.MaybeSelfThrottle | longctx_daemon/watcher.py:962-992 | engage above the threshold, release below six tenths of it, at most once a minute |
| Cleanup.DroppedExact | longctx_daemon/watcher.py:1336-1370 | a tick drops a watched project if and only if it ends an unbroken run of ticks that all missed the root, without a re-add, whose first is at least the grace period ago |
| Cleanup.StampIsFirstMissing | longctx_daemon/watcher.py:1337-1345 | `first_missing_at` is the time of the first tick of that run, and is set exactly when there is one |
| Cleanup.PausedExact | longctx_daemon/watcher.py:1372-1391 | over a run, a watched project is paused if and only if some tick found it idle for long enough with nothing queued, and nobody has asked about it or added it again since |
| Cleanup.Cleaner.CleanupTick | longctx_daemon/watcher.py:1328-1391 | one tick over all projects: which are deleted, and the stamp and pause state of every other |
| Cleanup.Cleaner.AddProject | longctx_daemon/watcher.py:449-470 | re-adding clears the stamp and the pause of one project |
| Eviction.PlanEviction | longctx_daemon/disk_budget.py:104-175 | no targets when disabled or within budget, otherwise the shortest sufficient prefix of the eviction order; with the sizes it went by |
| Eviction.PlanIsLru | longctx_daemon/disk_budget.py:144-175 | a plan frees the overflow or evicts all it may, is not enough without its last target, touches no pinned or empty project, and spares none that was asked longer ago than one it evicts |
| Eviction.EvictableIsLru | longctx_daemon/disk_budget.py:144-165 | the order holds exactly the unpinned projects with something to free, sorted by last query, and of those asked at the same time the smallest first |
| Eviction.PlanUnique | longctx_daemon/disk_budget.py:158-175 | a plan is determined by what it is asked |
| Eviction.ChooseTargets | longctx_daemon/disk_budget.py:158-175 | the loop stops once enough is freed and skips what frees nothing |
| ReplayLogs.LogConserves | longctx_daemon/replay_log.py:72-95 | over any run of records, shards in rotation order and then the active file are the original content and every line in order, no line is split, a file started since stays within the limit or holds one record, and none is closed unless the next line would not have fit |
| ReplayLogs.ReplayLog.Record | longctx_daemon/replay_log.py:72-95 | rotate first if the line would not fit, then append; shards get names that were free |
| ReplayLogs.ReplayLog.Rotate | longctx_daemon/replay_log.py:111-147 | the active file becomes the next shard under a new name and an empty one is opened |
| ReplayLogs.FreeName | longctx_daemon/replay_log.py:133-137 | the walk to a free name ends, at the first free one |
| ReplayLogs.ListingOrderExact | longctx_daemon/replay_log.py:111-137 | a shard lists after one rotated before it if and only if their time stamps differ, or both carry counters that sort as texts in the order counted |
| ReplayLogs.SameWidthInOrder | longctx_daemon/replay_log.py:133-137 | counters of the same width list in order |
| ReplayLogs.NineThenTen | longctx_daemon/replay_log.py:133-137 | 10 lists before 9, and after 1 |
| EmbedCaches.EmbedCache.EncodeWithCache | longctx/rag/embed_cache.py:100-139 | from a sound cache the result is every text's own vector in input order, whatever the mix of hits, misses and duplicates and however the writes end, or the error of stacking nothing; and what the disk then holds |
| EmbedCaches.WritesKeepSound | longctx/rag/embed_cache.py:128-137 | the cache stays sound |
| EmbedCaches.WritesKeepOthers | longctx/rag/embed_cache.py:75-98 | no other embedder's directory is touched |
| EmbedCaches.WarmCacheEmbedsNothing | longctx/rag/embed_cache.py:117-137 | once every write went through, the same texts leave nothing to embed |
| EmbedCaches.SharingExact | longctx/rag/embed_cache.py:36-38 | writes of one embedder keep the cache of another sound if and only if they have different directories or give the same vectors |
| EmbedCaches.SharedDirExact | longctx/rag/embed_cache.py:36-38 | two names share a directory if and only if they differ only where both have a slash, a colon or an underscore |
| EmbedCaches.EmbedCache.Get | longctx/rag/embed_cache.py:79-88 | a vector exactly when the cache is on and the file is there and loads |
| EmbedCaches.ReadBack | longctx/rag/embed_cache.py:79-98 | after a write a get of that text gives the vector just saved, or nothing after a torn write; failed writes and other texts change nothing |
| SingletonLocks.OneHolderPerInode | longctx_daemon/server_info.py:296-357 | in every interleaving of open, lock, unlock, unlink and crash steps no two processes hold the same file |
| SingletonLocks.PathExact | longctx_daemon/server_info.py:296-357 | every holder is on the file the path names, all through a run, if and only if each lock is won on the file still at the path and each unlink removes an unlocked file |
| SingletonLocks.WholeCallsExclude | longctx_daemon/server_info.py:296-357 | when no other process interferes with an acquire or a release, though its own may die between the steps, at most one process holds the lock, on the path's file |
| SingletonLocks.OneDaemon | longctx_daemon/server_info.py:296-357 | the same for every run of calls from the start |
| SingletonLocks.FromTheStart | longctx_daemon/server_info.py:296-357 | both of the first two for every interleaving from the start |
| SingletonLocks.PathIsExclusion | longctx_daemon/server_info.py:296-357 | every holder is on the path's file if and only if no process that acquires undisturbed ends up holding a lock beside another |
| SingletonLocks.InterruptedReleaseFails | longctx_daemon/server_info.py:350-355 | a waiter that slips in between unlock and unlink ends in two daemons |
| SingletonLocks.InterruptedAcquireFails | longctx_daemon/server_info.py:311-317 | a release between a waiter's open and its lock ends in two daemons |
| SingletonLocks.SingletonLock.Acquire | longctx_daemon/server_info.py:296-335 | idempotent; otherwise open and lock, with the outcome reported |
| SingletonLocks.SingletonLock.Release | longctx_daemon/server_info.py:337-357 | idempotent; otherwise unlock and unlink |

## Left out

- WatchProofs.NoLostUpdate: asks for safe steps; `WatchProofs.RunExact` shows these are exactly the ones that keep the path accounted for, but a later word may still repair what an unsafe step left unaccounted for.
- SingletonLocks.WholeCallsExclude: assumes that no other process interferes with a call; the exact condition on interleaved steps is `SingletonLocks.PathExact`.
- Watcher.Watcher.DrainNow: one project, against a disk that stands still during the call; the interleaved version is the state machine in `Watch`.
- Reading a file is one step: content and mtime come from the same moment. A write between `read_bytes` and `stat`, a crash between the writes of `_index_file`, and exceptions swallowed in the middle of a batch are not modelled.
- Chunks stored without an embedding row (`embedding_row` is `None`), dtype and norm checks, the growth of the memmap file, its header and the SQLite schema beyond the unique path.
- `asyncio`, threads and condition variables: each block under a lock is one step; quiescence waits and time-outs are not modelled.
- Tier 2 pausing beyond the pause flag itself: while paused, changes are only found by the walk on resume, and a project that is paused or removed in the middle of a drain is not modelled.
- Directory moves, symbolic links and path resolution; a project is its set of relative paths.
- The relevance floor, symbol-aware re-ranking, query classification, policies and the construction of doc-root keys: `Selection` takes the ranked chunks and their keys as given.
- Floating-point rounding: scores, tokens and times are reals; argsort orders are inputs.
- `retrieve_chunked` and its best-per-parent reduction (longctx/rag/pipeline.py), which would repeat the window arguments with fixed strides.
- Executing an eviction plan, measuring project sizes, and the serialisation of replay records, whose lengths are taken in ASCII characters as `json.dumps` writes them.
- Reuse of inode numbers in the lock file model: a new file always gets a new number.
- Configuration files, `reconcile`, service installers, transports, the parent-directory watcher, packs, evaluation scripts and the HTTP client: easy set algebra or plumbing.
