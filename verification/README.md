# Verified model of the Chat-Lab core

A Dafny model of the stateful cores of Chat-Lab, a chat server with a file scanning and
analysis pipeline (a master process, scanner processes and specialist services), and
proofs of what those cores guarantee. `dafny verify dfyconfig.toml` checks all of it.

Imperative code is modelled as classes and methods with loops, each proved against a
function on values; concurrent code is modelled as a step relation, and the theorems are
about every finite sequence of steps (steps that are not enabled do not happen). Value
conversions are functions.

| file | what it models |
|---|---|
| `Text.dfy` | key text: byte order, decimal fields, fixed-width timestamps |
| `Badger.dfy` | the ordered key-value table with forward and reverse iteration |
| `Paging.dfy` | cursor paging over a key prefix, while keys are added |
| `Mime.dfy` | the listed MIME types |
| `Messages.dfy` | chat history |
| `Tasks.dfy`, `TaskQueue.dfy` | the persistent transfer queue and its poller |
| `Analyses.dfy`, `Search.dfy` | analysis records, pointer index, search index; what lookups and searches answer |
| `AnalysisScan.dfy`, `RoomScan.dfy`, `LatestScan.dfy` | scans of a namespace: keys and cursors, the records answered, and how they compare with lookups |
| `BatchSink.dfy`, `SinkStore.dfy` | the analysis sink: batching and storing |
| `Enrichment.dfy`, `EnrichmentRace.dfy` | merging specialist results, one at a time and overlapping |
| `JobGate.dfy`, `JobProtocol.dfy`, `GateLoss.dfy`, `GateDrift.dfy` | the capacity gate in front of the specialists, when it loses capacity and when it exceeds it |
| `DirectoryWalk.dfy`, `WalkResults.dfy`, `WalkEffort.dfy`, `WalkQueue.dfy` | the concurrent directory walk: coverage, number of steps, full queues |
| `Transfer.dfy`, `Accumulator.dfy`, `Download.dfy` | chunked file transfer: sending, reassembly, end to end |
| `Moderation.dfy`, `Censoring.dfy`, `Spelling.dfy` | dictionary moderation: the code, which runes it replaces, which spellings it recognises |

## Main results

- Paging through a room while messages arrive returns only that room, newest first, none
  twice, and everything present at the start once a page is short (`Messages.PagingIsExact`),
  which full pages cannot put off for longer than there are keys (`Messages.PagingEnds`).
- Every enqueued file transfer is dispatched at most once in every run, pending plus
  dispatched is what was enqueued (`TaskQueue.DispatchedAtMostOnce`), and ticks drain the
  queue in order (`TaskQueue.TicksDrainInOrder`). What is dispatched asks for the drive, file
  and path that were enqueued (`TaskQueue.DispatchedAsGiven`).
- Main records, pointers and search documents agree with a plain map from entity to last
  record after any run (`Analyses.EveryRunAgrees`), and the two-step lookup refines that map
  (`Analyses.FetchIsLastRecord`). Paging through a namespace while records are stored and
  rewritten answers stored records, none twice, newest first, and every initial entry by the
  nil cursor (`RoomScan.RoomScanIsPartition`). After any run, scans answer exactly the last
  records if and only if nothing intrudes and no entity was moved
  (`LatestScan.RunScanIsLatest`). The pages of a search are the last records of all that
  matches, each once, in ranking order (`Search.PagesAreTheRanking`).
- No event of the batching sink is lost, reordered, duplicated or stranded, in every
  interleaving, and batches obey a tight bound (`BatchSink.BatchesAreTheEvents`,
  `BatchSink.TimerRescues`, `BatchSink.BoundIsTight`).
- The specialist gate's counter is exact in every honest run and never wraps in any run
  (`JobProtocol.HonestRuns`, `JobProtocol.AnyRun`). The gate is lost for good if and only if
  as many slots were lost as there are (`GateLoss.GateIsLostIff`), and it can come to run
  more jobs than its maximum if and only if wrong answers made it drift
  (`GateDrift.OverAdmitsIff`).
- When the directory walk's wait group is at zero, every reachable directory was visited and
  every authorised file reported exactly once (`WalkResults.SingleScanIsComplete`). From every
  state no interleaving goes on for more than one number of steps, and a walk is complete
  exactly when it took that many (`WalkEffort.EveryWalkEnds`). No scan of at most n directories ever blocks if and only if n
  is less than the queue's capacity plus twice the scanners (`WalkQueue.QueueSizeIsExact`).
- The outcome of a download that receives its own messages is known exactly for every
  failure, every cancellation and every state of the master (`Download.DownloadOutcome`): a
  published file equals its source unless one condition holds before the download
  (`Download.DownloadIsSafe`), and an undisturbed download is always published
  (`Download.DownloadIsDelivered`). From an empty master this covers every sequence of
  downloads (`Download.EveryDownloadIsClean`).
- A rune is censored exactly when it lies in a stretch that reads as a dictionary word
  (`Censoring.CoveredIsSpelled`), whatever the spelling (`Censoring.EverySpellingIsCovered`).
  Stated on the leet table itself, a stretch is replaced if it spells a word and only then
  (`Spelling.SpelledWordIsReplaced`, `Spelling.OnlySpelledWordsAreReplaced`).

## Where the code does less than one might expect

Each point is a theorem: the exact condition under which the property holds, in most cases
next to a concrete input that breaks it.

- A file left open by a failed write, downloaded again without its metadata, is published with
  old bytes in front (`Download.StaleByteIsPublished`; exact: `Download.DownloadIsSafe`).
- A spurious specialist answer lets the gate run more jobs than its maximum
  (`JobProtocol.SpuriousAnswerOverAdmits`; exact: `GateDrift.OverAdmitsIff`).
- Files no specialist handles, and answers that are dropped, use up the gate for good
  (`GateLoss.UnhandledFilesExhaustTheGate`; exact: `GateLoss.GateIsLostIff`).
- A namespace that continues another one after a colon leaks into its scans
  (`RoomScan.NestedNamespaceLeaks`; exact: `RoomScan.ScanIsolation`).
- An entity stored again at another time stays in scans under its old key
  (`LatestScan.MovedIsListedTwice`; exact: `LatestScan.RunScanIsLatest`).
- A search without a namespace counts hits and then drops them
  (`Analyses.GlobalSearchDropsHits`; exact: `Analyses.SearchDropsNothing`).
- The sink stores under `file-room` but enrichment looks up by drive
  (`SinkStore.SegmentReachesSinkRecord`).
- Priorities the code does not define are rewritten on storage, so their key cannot be
  rebuilt (`Tasks.FetchedKeyIsEnqueuedKey`).
- A batch that repeats an entity leaves one search document per record, unlike single stores
  (exact: `Analyses.BatchIsOneByOneIff`).
- Times before 1970 sort backwards among themselves (exact: `Text.TimestampOrderIff`).
- Two overlapping enrichments of one record lose the first one's tags and scores
  (exact: `EnrichmentRace.OverlapLosesIff`).
- A small directory queue can block all scanners (`WalkQueue.SmallQueueBlocks`; exact:
  `WalkQueue.QueueSizeIsExact`).
- Replacing with a noise rune such as `*` can join neighbours into a new match
  (`Censoring.StarsCanJoin`; exact for each text: `Censoring.NoiseJoinsNeighbours`). So can a
  letter that occurs in a word (`Censoring.LettersCanMatchAgain`), and only such a rune
  (`Censoring.CountingCanMatchAgain`).
- An empty file yields no terminal message, so the sender loop does not end by itself
  (`Transfer.WhenDownloadsEnd`), contrary to the comment at
  infrastructure/grpc/server/file_downloader_server.go:82-83 that a processed file ends it.

## Conventions

- The Badger table is a key-sorted sequence of entries; keys are strings ordered by code point,
  which is the order of their UTF-8 bytes. Transactions are atomic. Marshalling is the
  identity on protobuf values, and bytes of other repositories are `Foreign`.
- UUIDs are their canonical 36-character text; the other spellings a UUID parser accepts do
  not occur. Times are 64-bit nanosecond counts. Floating-point scores are reals.
- Bluge is a map from entity to documents. A search returns hits, and the ranking is an
  argument.
- Channels are sequences, every section under a mutex is one step. Cancellation, failing
  system calls, random identifiers, clocks, map iteration order and `Broadcast` outcomes
  are arguments, so theorems hold for all of them.
- SHA-256 is an arbitrary function of the bytes; a running digest is represented by the bytes
  it has consumed. MIME sniffing, the Unicode tables and the Aho-Corasick search are
  arguments with contracts (`Moderation.Sane`, `Moderation.Exact`).
- Score names are lowered in the Latin capitals only.
- File paths are lists of components in the walk; a temporary path is the directory, a slash,
  the file identifier and `.tmp`, without the clean-up of `filepath.Join`.

## Model

| member | source | states |
|---|---|---|
| `Text.TimestampOrder` | infrastructure/storage/message_repository.go:46-51 | zero-padded timestamps sort like the times they stand for, from 1970 on |
| `Text.TimestampOrderIff` | infrastructure/storage/message_repository.go:46-51 | of two times less than 10^18 nanoseconds before 1970 the earlier one sorts first if and only if the later one is not before 1970 |
| `Text.StampOrder` | infrastructure/storage/message_repository.go:46-51 | the time-and-identifier part of a key sorts by time, then identifier |
| `Badger.SeekReverseLands` | infrastructure/storage/message_repository.go:72-92 | a reverse seek lands on the largest key not above its target |
| `Badger.FamilyNext` | infrastructure/storage/file_task_repository.go:73-111 | from the first key of a prefix on, the family is contiguous and ends at the first key without the prefix |
| `Paging.PageIsExact` | infrastructure/storage/message_repository.go:65-128 | one call returns the newest keys below the cursor, none skipped, all of them if the page is short |
| `Paging.EmptyCursorIsFinal` | infrastructure/storage/message_repository.go:78-101 | the empty cursor of an empty page yields an empty page whatever is stored meanwhile |
| `Messages.MessageRepository.StoreMessage` | infrastructure/storage/message_repository.go:46-60 | writes exactly one entry, under the room, time and identifier |
| `Messages.MessageRepository.GetMessages` | infrastructure/storage/message_repository.go:65-128 | answers the page the specification of the scan gives, or an error when a value does not decode |
| `Messages.PageSize` | infrastructure/storage/message_repository.go:65-128 | with a limit of at least one a page holds that many keys, or all that are left |
| `Messages.RoomIsolation` | infrastructure/storage/message_repository.go:46-51 | a room's prefix matches the keys of that room and of no other, for all rooms |
| `Messages.KeyOrder` | infrastructure/storage/message_repository.go:46-51 | inside a room key order is the order of time, then identifier, and keys determine both |
| `Messages.StoreKeepsWellFormed` | infrastructure/storage/message_repository.go:46-60 | storing keeps the table well formed, and a new (room, time, identifier) disturbs no entry |
| `Messages.ExhaustionIsFinal` | infrastructure/storage/message_repository.go:65-128 | after an empty page every later page is empty, even if messages arrive |
| `Messages.ReadAllIsExact` | infrastructure/storage/message_repository.go:65-128 | following cursors over a growing table lists stored keys strictly descending, and all initial ones once a page is short |
| `Messages.FetchMatchesKeys` | infrastructure/storage/message_repository.go:116-154 | on well-formed tables no page is an error, and messages match keys one to one |
| `Messages.PagingIsExact` | infrastructure/storage/message_repository.go:46-128 | paging from the start: only the room's messages, newest first, none twice, all initial ones by the first short page |
| `Messages.ShortPageComes` | infrastructure/storage/message_repository.go:65-128 | full pages cannot add up to more keys than are stored, so a short page comes |
| `Messages.PagingEnds` | infrastructure/storage/message_repository.go:65-128 | enough pages return every message of the room present at the start |
| `Messages.RunsAreHistory` | infrastructure/storage/message_repository.go:46-60 | the tables that stores of distinct messages pass through meet the hypotheses of the paging results |
| `Tasks.FileTaskRepository.EnqueueTask` | infrastructure/storage/file_task_repository.go:56-70 | writes exactly one pending entry |
| `Tasks.FileTaskRepository.GetNextBatch` | infrastructure/storage/file_task_repository.go:73-111 | answers the decoded first entries of the pending family, or an error |
| `Tasks.FileTaskRepository.MarkAsProcessing` | infrastructure/storage/file_task_repository.go:114-144 | succeeds exactly when the pending key exists and the transaction commits, and then moves one entry |
| `Tasks.StorageKeepsTask` | infrastructure/storage/file_task_repository.go:146-183 | a task comes back from storage field by field: MIME type through the table, undefined priorities as NORMAL, the retry count as 32 bits |
| `Tasks.FetchedKeyIsEnqueuedKey` | infrastructure/storage/file_task_repository.go:146-183 | the stored form rebuilds its enqueue key if and only if its priority is HIGH or NORMAL |
| `Tasks.KeyOrder` | infrastructure/storage/file_task_repository.go:56-60 | for nineteen-digit times key order is (priority, creation time, identifier), and keys determine all three |
| `Tasks.PendingInOrder` | infrastructure/storage/file_task_repository.go:73-111 | the pending list is exactly the stored pending entries, in that order |
| `Tasks.BatchIsFirstInOrder` | infrastructure/storage/file_task_repository.go:73-111 | a batch is exactly the first `limit` pending entries in that order, never an error |
| `Tasks.FamiliesApart` | infrastructure/storage/file_task_repository.go:114-144 | pending and processing keys never meet |
| `Tasks.ClaimTakesOne` | infrastructure/storage/file_task_repository.go:114-144 | claiming any pending entry succeeds and removes exactly that one from the pending list |
| `Tasks.EnqueueAddsOne` | infrastructure/storage/file_task_repository.go:56-70 | enqueuing under a new key adds exactly one entry to the pending list |
| `TaskQueue.FileTransferWorker.Tick` | runtime/workers/file_transfer.go:48-77 | one turn of the ticker: poll, claim each, and send for each claimed task, in order, a request with its drive, identifier and path |
| `TaskQueue.TickIsRun` | runtime/workers/file_transfer.go:48-77 | a tick is one poll followed by claims of the queue machine |
| `TaskQueue.EveryRunKeepsInv` | runtime/workers/file_transfer.go:37-79 | the queue invariant holds in every run of enqueues, polls, and claims that commit or fail |
| `TaskQueue.DispatchedAtMostOnce` | runtime/workers/file_transfer.go:37-79 | in every run each entry is dispatched at most once, pending plus dispatched is all enqueued, processing entries are the dispatched ones |
| `TaskQueue.ClaimsDrain` | runtime/workers/file_transfer.go:55-77 | a tick whose claims all commit takes its batch out, in order |
| `TaskQueue.TicksDrainInOrder` | runtime/workers/file_transfer.go:48-77 | ticks drain the queue in order, `limit` at a time, until it is empty |
| `TaskQueue.DispatchedAsGiven` | runtime/workers/file_transfer.go:37-79 | in every run each dispatched task has the identifier, drive and path of a task given to the queue, and once nothing is pending every given task was dispatched |
| `TaskQueue.TaskIsRequestedAsGiven` | runtime/workers/file_transfer.go:48-77 | a task put into the queue is asked for by the next large enough tick, by its own drive, identifier and path |
| `Analyses.StorageRoundTrip` | infrastructure/storage/analysis_repository.go:490-662 | a stored record reads back up to version and payload normalisation, and has the document indexed for it |
| `Analyses.KeysKeepEntitiesApart` | infrastructure/storage/analysis_repository.go:482-488 | main and pointer keys determine the entity, and the two kinds never coincide |
| `Analyses.AnalysisRepository.Store` | infrastructure/storage/analysis_repository.go:99-127 | writes the record, the pointer and the document of one entity |
| `Analyses.AnalysisRepository.StoreBatch` | infrastructure/storage/analysis_repository.go:171-221 | writes all records and pointers, then all documents |
| `Analyses.AnalysisRepository.ScanAnalysesByRoom` | infrastructure/storage/analysis_repository.go:226-295 | answers the page and cursor the specification of the scan gives, or an error |
| `Analyses.AnalysisRepository.FetchFullByEntityId` | infrastructure/storage/analysis_repository.go:306-350 | answers the two-step lookup with its five outcomes |
| `Search.FetchOutcomes` | infrastructure/storage/analysis_repository.go:306-350 | which of the five outcomes a lookup has, by what is stored under the pointer key and under the key it names |
| `Analyses.AnalysisRepository.SearchAndHydrate` | infrastructure/storage/analysis_repository.go:400-479 | counts the ranked hits, reads the ranking from the offset on for at most the limit, and answers what can be fetched in the namespace, in ranking order |
| `Analyses.StoreKeepsAgreement` | infrastructure/storage/analysis_repository.go:99-127 | a store updates exactly one entity of the map the stores represent |
| `Analyses.BatchIsOneByOne` | infrastructure/storage/analysis_repository.go:171-221 | a batch of distinct entities reaches the state of storing one by one |
| `Analyses.BatchIsOneByOneIff` | infrastructure/storage/analysis_repository.go:171-221 | and only such a batch does: a repeated entity keeps one search document per record |
| `Analyses.EveryRunAgrees` | infrastructure/storage/analysis_repository.go:99-221 | after any run of stores and distinct-entity batches, record, pointer and document of each entity are those of its last record |
| `Analyses.FetchIsLastRecord` | infrastructure/storage/analysis_repository.go:306-350 | the lookup finds the last record exactly when it is in the requested namespace, and says what is missing otherwise |
| `Analyses.IndexMatchesRecords` | infrastructure/storage/analysis_repository.go:613-662 | every search document is the one computed from the record the pointer leads to |
| `Analyses.HydrateIsFilter` | infrastructure/storage/analysis_repository.go:400-479 | hydration returns exactly the hits of the namespace, in ranking order |
| `Analyses.SearchDropsNothing` | infrastructure/storage/analysis_repository.go:355-479 | a page comes back whole if and only if every hit is in the namespace asked for, which a non-empty namespace guarantees |
| `Analyses.SearchIsPaged` | infrastructure/storage/analysis_repository.go:355-479 | the total is the number of indexed hits, and in a non-empty namespace a page holds the records of its slice of the ranking, as many as asked for or left |
| `Search.FetchedFields` | infrastructure/storage/analysis_repository.go:306-350 | a lookup answers the last stored record field by field |
| `Search.IndexedDocument` | infrastructure/storage/analysis_repository.go:613-662 | the one document of an entity: text and category by kind of payload, its namespace, and every score under its lower-case name |
| `Search.TotalIsMatching` | infrastructure/storage/analysis_repository.go:400-479 | the total is the number of entities whose last record is in the namespace and matches |
| `Search.ResultAt` | infrastructure/storage/analysis_repository.go:400-479 | the i-th result is the last record of the entity ranked at offset plus i, and there are as many as asked for or left |
| `Search.PagesWalkRanking` | infrastructure/storage/analysis_repository.go:400-479 | the first n pages are the records of the first n times limit entities of the ranking, in order |
| `Search.PagesAreTheRanking` | infrastructure/storage/analysis_repository.go:355-479 | enough pages hold the record of every match exactly once, in ranking order |
| `Analyses.GlobalSearchDropsHits` | infrastructure/storage/analysis_repository.go:355-479 | a search without a namespace counts a hit and drops it |
| `AnalysisScan.CursorNilMeansDone` | infrastructure/storage/analysis_repository.go:226-295 | the returned cursor is nil if and only if nothing is left (or the limit is zero) |
| `AnalysisScan.PageSize` | infrastructure/storage/analysis_repository.go:226-295 | with a limit of at least one a page holds that many keys, or all that are left |
| `AnalysisScan.StoreKeepsWellFormed` | infrastructure/storage/analysis_repository.go:99-119 | storing keeps every main entry under its own record's key and removes no key |
| `AnalysisScan.ScanIsExact` | infrastructure/storage/analysis_repository.go:226-295 | pages over a growing table list stored keys strictly descending, and all initial ones by the nil cursor |
| `AnalysisScan.PrefixMatches` | infrastructure/storage/analysis_repository.go:226-240 | a namespace's prefix matches its own records, the colliding ones, and no others |
| `RoomScan.ScanIsolation` | infrastructure/storage/analysis_repository.go:226-295 | a completed scan answers records of its namespace only if and only if no colliding record is within reach |
| `RoomScan.NestedNamespaceLeaks` | infrastructure/storage/analysis_repository.go:226-295 | a scan of `chat` answers a record of namespace `chat:7` |
| `AnalysisScan.KeyOrder` | infrastructure/storage/analysis_repository.go:482-488 | inside a namespace key order is the order of time, then entity |
| `AnalysisScan.NilCursorComes` | infrastructure/storage/analysis_repository.go:226-295 | full pages cannot add up to more keys than are stored, so the nil cursor comes |
| `RoomScan.RunsAreGrowing` | infrastructure/storage/analysis_repository.go:99-221 | the tables any run of stores and batches passes through meet the hypotheses of the scan results |
| `RoomScan.RecordsMatchKeys` | infrastructure/storage/analysis_repository.go:226-295 | the records answered over all pages match the listed keys one to one, each held by a table |
| `RoomScan.RoomScanIsPartition` | infrastructure/storage/analysis_repository.go:226-295 | records answered over several pages are stored, none twice, newest first, of the namespace where nothing intrudes, and complete by the nil cursor |
| `LatestScan.ScanIsLatest` | infrastructure/storage/analysis_repository.go:226-350 | a completed scan answers exactly what lookups in the namespace answer if and only if nothing intrudes and no entry is outdated |
| `LatestScan.OutdatedIffMoved` | infrastructure/storage/analysis_repository.go:99-221 | after a run an entry is outdated if and only if its entity was later written to another namespace or time |
| `LatestScan.RunScanIsLatest` | infrastructure/storage/analysis_repository.go:99-350 | after any run scans answer exactly the last records if and only if nothing intrudes and no entity was moved |
| `LatestScan.MovedIsListedTwice` | infrastructure/storage/analysis_repository.go:99-127 | an entity stored twice at different times is listed twice while a lookup answers the second record |
| `Enrichment.HandleAnalysisSegment` | sink/analysis_sink.go:96-155 | fetches, merges all results in order, and stores; changes nothing on failure |
| `Enrichment.MergingOnlyAdds` | sink/analysis_sink.go:106-143 | merging keeps identity, place and time, keeps old tags as a prefix and every score key, and changes only scores it has results for |
| `Enrichment.TagsAreGiven` | sink/analysis_sink.go:106-143 | a tag is there afterwards if and only if it was there or a result brings it, as a score's tag or a document's author |
| `Enrichment.LastScoreWins` | sink/analysis_sink.go:106-143 | the score of a metric is the last one a result gives it |
| `Enrichment.NoTitleKeepsSummary` | sink/analysis_sink.go:106-143 | without a document title the summary stays |
| `Enrichment.LastTitleWins` | sink/analysis_sink.go:106-143 | otherwise the summary is the last non-empty title |
| `Enrichment.NoTextKeepsPayload` | sink/analysis_sink.go:106-143 | without an audio text, or without a file payload held by value, the payload stays |
| `Enrichment.LastTextWins` | sink/analysis_sink.go:106-143 | otherwise the content is the last audio text, and name, type and size stay |
| `Enrichment.EnrichmentIsInPlace` | sink/analysis_sink.go:96-155 | succeeds if and only if the drive is the record's namespace; then keys, pointer and all other entities are untouched |
| `EnrichmentRace.OtherEntityIsSafe` | sink/analysis_sink.go:101-145 | overlapping enrichments of different entities leave the state sequential ones leave |
| `EnrichmentRace.MergeAdds` | sink/analysis_sink.go:106-143 | merging adds exactly the tags and scores read off the results |
| `EnrichmentRace.OverlapLosesIff` | sink/analysis_sink.go:101-145 | overlapping enrichments of one entity lose tags if and only if the first has any, and scores if and only if they are not redundant |
| `BatchSink.AnalysisSink.AppendLocked` | sink/analysis_sink.go:63-82 | appends under the lock, arms a timer for the first event, reports fullness |
| `BatchSink.AnalysisSink.Flush` | sink/analysis_sink.go:159-182 | swaps the buffer out and hands it off unless it is empty |
| `BatchSink.AnalysisSink.HandleNewFile` | sink/analysis_sink.go:63-89 | without interference the event is buffered, or handed off with the buffer it fills |
| `BatchSink.EveryRunKeepsInv` | sink/analysis_sink.go:63-182 | order, timer and size invariants hold in every interleaving, stale timer callbacks included |
| `BatchSink.BatchesAreTheEvents` | sink/analysis_sink.go:63-182 | batches followed by the buffer are the accepted events in order; no batch is empty or above max - 1 + workers |
| `BatchSink.TimerRescues` | sink/analysis_sink.go:63-182 | a non-empty buffer always has a timer that alone brings it to storage |
| `BatchSink.BoundIsTight` | sink/analysis_sink.go:63-89 | for every limit and worker count some run hands off a batch of exactly max - 1 + workers |
| `SinkStore.ProcessAndStore` | sink/analysis_sink.go:188-217 | stores the analyses of a batch and enqueues a transfer for each authorised event, skipping enqueues that fail |
| `SinkStore.BatchIsQueued` | sink/analysis_sink.go:188-217 | each authorised event whose enqueue succeeds adds exactly one pending transfer and no other changes |
| `SinkStore.WantedFields` | sink/analysis_sink.go:188-217 | the transfers are those of the authorised events whose enqueue succeeds, in order, each with its event's fields, priority NORMAL and no retries |
| `SinkStore.SinkRecordFields` | sink/analysis_sink.go:222-278 | after a batch, looking an event up in `file-room` answers the record built from its fields |
| `SinkStore.SegmentReachesSinkRecord` | sink/analysis_sink.go:96-278 | a specialist result reaches a record the sink stored if and only if its drive is called `file-room` |
| `JobGate.FileTmpJobWorker.AddJob` | runtime/workers/file_tmp_job.go:94-109 | registers an unknown file as waiting, ignores a known one |
| `JobGate.FileTmpJobWorker.ProcessJobs` | runtime/workers/file_tmp_job.go:113-155 | for every iteration order and every outcome, the tick the specification gives, with 32-bit arithmetic; requests carry path and type of waiting jobs, and the temporary files of dropped jobs are removed |
| `JobGate.FileTmpJobWorker.HandleSpecialistResponse` | runtime/workers/file_tmp_job.go:159-190 | frees job and slot, deletes the file, passes the result on with the job's drive unless the context is done |
| `JobGate.TickKeepsAccount` | runtime/workers/file_tmp_job.go:113-155 | no subtraction wraps, slots and count add up to the maximum, and the tick is work conserving |
| `JobGate.TickKeepsHistory` | runtime/workers/file_tmp_job.go:113-155 | a tick loses no location, and sends distinct files that were not running before |
| `JobProtocol.HonestRuns` | runtime/workers/file_tmp_job.go:73-220 | in every honest run the count is the number of running jobs, at most the maximum; every location is in exactly one of waiting, running, answered, rejected; segments carry the registered drive |
| `JobProtocol.AnswersFindTheirJob` | runtime/workers/file_tmp_job.go:159-220 | an honest answer always finds its job, so the unknown-file branch is unreachable |
| `JobProtocol.AnyRun` | runtime/workers/file_tmp_job.go:94-172 | under arbitrary answers the count stays within the maximum and the running jobs |
| `JobProtocol.AnswerKeepsExactness` | runtime/workers/file_tmp_job.go:159-172 | for every gate, an answer keeps the distance between running jobs and count if and only if it names a running job exactly when the count is positive |
| `JobProtocol.SpuriousAnswerOverAdmits` | runtime/workers/file_tmp_job.go:113-172 | one spurious answer makes two jobs run at a maximum of one |
| `GateLoss.UnhandledFilesExhaustTheGate` | runtime/coordinator.go:218-230 | one tick over enough files without a capable specialist takes all slots with no answer outstanding |
| `GateLoss.ExhaustedIsFinal` | runtime/workers/file_tmp_job.go:113-155 | from then on nothing is sent, answered or dropped in any run |
| `GateLoss.SlotsAreAwaitedOrLost` | runtime/workers/file_tmp_job.go:113-172 | in every honest run the count is the awaited answers plus the lost slots, and the gate is exhausted if and only if all slots are lost |
| `GateLoss.LossesOnlyGrow` | runtime/workers/file_tmp_job.go:113-172 | a lost slot stays lost |
| `GateLoss.CanStillAnswer` | runtime/workers/file_tmp_job.go:94-190 | a gate that is not exhausted has an honest continuation that emits an answer |
| `GateLoss.GateIsLostIff` | runtime/coordinator.go:195-278 | no honest continuation ever emits again if and only if unhandled files and dropped answers took as many slots as there are |
| `GateDrift.RunningIsCountAndDrift` | runtime/workers/file_tmp_job.go:94-172 | in every run, whatever answers arrive, as many jobs run as the count and the drift of the answers say |
| `GateDrift.OverAdmitsIff` | runtime/workers/file_tmp_job.go:94-172 | after any run the gate can come to run more than its maximum if and only if the run has drifted |
| `DirectoryWalk.Channels.TriggerScan` | services/scanner_control_service.go:26-34 | raises the wait group by one and queues the root |
| `DirectoryWalk.Channels.HandleDirectory` | runtime/workers/file_scanner.go:105-194 | queues all subdirectories, reports all authorised files, raises the wait group by the former and lowers it by one |
| `DirectoryWalk.FilesMeaning` | runtime/workers/file_scanner.go:105-194 | the files reported for a directory are its authorised regular entries with readable file information, all of them, in listing order |
| `DirectoryWalk.SubdirsMeaning` | runtime/workers/file_scanner.go:105-139 | the directories queued for it are its directory entries, all of them, in listing order |
| `DirectoryWalk.EveryRunBalances` | runtime/workers/file_scanner.go:62-194 | in every interleaving the wait group counts what is queued, held or about to be queued, and every path is accounted for |
| `WalkResults.AloneIsHandleDirectory` | runtime/workers/file_scanner.go:105-139 | an undisturbed scanner's steps have the effect of one call of the method |
| `WalkResults.WalkIsExact` | runtime/workers/file_scanner.go:62-194 | at all times nothing is visited or reported too often; at wait group zero everything exactly as often as triggered |
| `WalkResults.ReportedMeans` | runtime/workers/file_scanner.go:141-194 | a path is to be reported if and only if its parent lists it as an authorised regular file with readable file information |
| `WalkResults.ReachesMeans` | runtime/workers/file_scanner.go:105-139 | a directory is to be visited if and only if every step from the root to it is a listed directory |
| `WalkResults.SingleScanIsComplete` | runtime/workers/file_scanner.go:62-194 | after one trigger, at wait group zero, a directory was visited once if every step to it is a listed directory, a file reported once if such a directory lists it as an authorised regular file, and nothing else was |
| `WalkEffort.StepCostsOne` | runtime/workers/file_scanner.go:62-139 | every step brings the walk exactly one step nearer its end |
| `WalkEffort.CostZero` | runtime/workers/file_scanner.go:62-139 | no step is left if and only if the wait group is at zero |
| `WalkEffort.RunCosts` | runtime/workers/file_scanner.go:62-139 | a run of n steps brings the walk n steps nearer its end |
| `WalkEffort.EveryWalkEnds` | runtime/workers/file_scanner.go:62-139 | from every reachable state no interleaving takes more than one number of steps, and the walk is complete if and only if it took that many |
| `WalkQueue.StuckIsJammed` | runtime/workers/file_scanner.go:105-139 | an unfinished walk stops moving if and only if all scanners wait for room in a full queue |
| `WalkQueue.CounterFits` | services/scanner_control_service.go:26-34 | after one trigger the wait group never exceeds the number of reachable directories |
| `WalkQueue.LargeQueueCompletes` | runtime/workers/file_scanner.go:62-139 | if capacity plus twice the scanners exceeds the reachable directories, the walk stops only when complete |
| `WalkQueue.EveryScanCompletes` | runtime/workers/file_scanner.go:62-139 | then every run that goes on while it can ends complete after the same number of steps |
| `WalkQueue.SmallQueueBlocks` | runtime/workers/file_scanner.go:105-139 | for every capacity and number of scanners some tree with exactly capacity plus twice the scanners reachable directories blocks |
| `WalkQueue.QueueSizeIsExact` | runtime/workers/file_scanner.go:105-139 | no scan of at most n reachable directories blocks if and only if n is less than capacity plus twice the scanners |
| `Transfer.WireRoundTrip` | infrastructure/grpc/server/file_downloader_server.go:108-145 | the wire carries a message unchanged if and only if it has at most one part, a listed MIME type and a 32-bit error code |
| `Mime.TypeTable` | domain/mimetypes/mime_types.go:96-109 | the eight listed types are kept, every other becomes `unknown` |
| `Transfer.StreamChunks` | runtime/workers/file_downloader_scanner.go:128-173 | the read loop over a reused buffer sends the specified chunks, and has digested the whole file when it completes |
| `Transfer.Process` | runtime/workers/file_downloader_scanner.go:71-189 | the messages of one request, for all failures and cancellations, with the tests in the order of the code |
| `Transfer.RefusedIff` | runtime/workers/file_downloader_scanner.go:71-108 | a request is let through if and only if its path is valid and found, small enough, no directory, regular and can be opened |
| `Transfer.RefusedWith` | runtime/workers/file_downloader_scanner.go:71-108 | a refused request sends the error message and code of the first test that fails, or nothing when cancelled |
| `Transfer.LoopCompletes` | runtime/workers/file_downloader_scanner.go:136-173 | the loop completes if and only if the reads reach the end and no send is cancelled |
| `Transfer.ChunksAreTheFile` | runtime/workers/file_downloader_scanner.go:136-173 | however reads split the file, chunks are non-empty, at most the buffer's size, and a prefix of the file, all of it on completion |
| `Transfer.StreamIsTheFile` | runtime/workers/file_downloader_scanner.go:71-189 | an undisturbed request for a file that passes the tests yields its metadata, the file in chunks, and one signature over the file, message by message |
| `Transfer.EveryRunFollowsGrammar` | runtime/workers/file_downloader_scanner.go:71-201 | every run follows the message grammar; a signature only follows the complete file |
| `Transfer.Forward` | infrastructure/grpc/server/file_downloader_server.go:66-89 | forwards up to the first terminal message as far as the stream accepts, and ends by itself if and only if one went out |
| `Transfer.GrammarIsUncut` | infrastructure/grpc/server/file_downloader_server.go:66-89 | the sender loop cuts no download short |
| `Transfer.WhenDownloadsEnd` | runtime/workers/file_downloader_scanner.go:71-189 | a request makes the sender loop end if and only if an error or a signature goes out, by the properties of the file; never for an empty file |
| `Accumulator.PathsApart` | services/file_accumulator.go:47-48 | different files have different temporary paths |
| `Accumulator.FileAccumulator.Finalize` | services/file_accumulator.go:96-125 | removes the file from both maps in any case, yields its buffer exactly on a digest match |
| `Accumulator.FileAccumulator.ProcessResponse` | services/file_accumulator.go:38-93 | the effect of each kind of message, with failing creates and writes and cancelled publication |
| `Accumulator.FileAccumulator.HandleDownload` | runtime/workers/file_downloader_master.go:49-109 | feeds converted messages in order and stops at the first that is not accepted |
| `Accumulator.EveryRunTracks` | services/file_accumulator.go:38-125 | in every interleaving of files, the maps have the same keys, and digest and temporary file hold the bytes since the last metadata |
| `Accumulator.PublishedIsDue` | services/file_accumulator.go:75-125 | exactly the files whose signature matches those bytes are published, in order |
| `Accumulator.OncePerMetadata` | services/file_accumulator.go:38-125 | each metadata message is good for at most one publication |
| `Accumulator.PublishedFileKeeps` | services/file_accumulator.go:38-125 | from its publication to its next metadata a file holds exactly the signed bytes, whatever messages come |
| `Download.DownloadLeavesOthers` | services/file_accumulator.go:38-125 | a download leaves digest, buffer and bytes of every other file in transit alone |
| `Download.DownloadTouchesOnePath` | services/file_accumulator.go:38-125 | a download writes to no path but its own file's, published files included |
| `Download.WireIsTransparent` | runtime/workers/file_downloader_master.go:84-109 | a download's messages arrive as they were sent |
| `Download.AcceptKeepsShape` | services/file_accumulator.go:38-125 | under all messages and failures both maps know the same files, each under its own path |
| `Download.DownloadOutcome` | services/file_accumulator.go:38-125 | end to end under all failures, cancellations and states: exactly when a location is published, which one, and what its file holds |
| `Download.DownloadIsSafe` | services/file_accumulator.go:57-125 | a published file equals its source if and only if it was not left open with bytes on disk, then deprived of its new metadata, with an unchanged digest |
| `Download.StaleByteIsPublished` | services/file_accumulator.go:70-73 | a failed write followed by a download without metadata publishes a wrong file, for every digest function |
| `Download.DownloadIsDelivered` | services/file_accumulator.go:38-125 | end to end undisturbed, for every file that passes the tests: published exactly once under `<dir>/<id>.tmp` with its drive and type, which then holds the source's bytes |
| `Download.EveryDownloadIsClean` | runtime/workers/file_downloader_master.go:34-82 | in every sequence of downloads from an empty master each publishes nothing or its own source, unless it is spoiled |
| `Download.LastDownloadStays` | runtime/workers/file_downloader_master.go:34-82 | the last published download of a file leaves its source's content for good |
| `Moderation.Normalize` | moderation/moderator.go:107-122 | the normal form, with the position each kept rune comes from |
| `Moderation.NormalizeRunes` | moderation/moderator.go:125-135 | the dictionary normaliser computes the same normal form as the message normaliser, on every input |
| `Moderation.NewModerator` | moderation/moderator.go:24-42 | fails exactly without patterns or automaton; otherwise a moderator with the non-empty normal forms |
| `Moderation.PatternsAreNormalForms` | moderation/moderator.go:24-31 | a word is a pattern if and only if it is the non-empty normal form of a dictionary word |
| `Moderation.KeptMeaning` | moderation/moderator.go:107-122 | positions are strictly increasing, in range, not noise, and fold to the normal form |
| `Moderation.ApplyMatches` | moderation/moderator.go:71-98 | overwrites exactly the spans of matches in range, in place and within bounds |
| `Moderation.Censor` | moderation/moderator.go:49-104 | replaces exactly the covered runes, keeps the length, reports the matched words |
| `Censoring.CoveredIsSpelled` | moderation/moderator.go:49-122 | a rune is replaced if and only if it lies in a stretch bounded by counting runes that reads as a pattern |
| `Censoring.ReadAlikeIsEqualNorm` | moderation/moderator.go:107-163 | equal normal forms are exactly spellings that agree rune by rune up to case, leet and noise |
| `Censoring.EverySpellingIsCovered` | moderation/moderator.go:24-163 | all counting runes of any stretch that reads like a dictionary word are replaced |
| `Spelling.NormOfRune` | moderation/moderator.go:107-163 | a rune contributes nothing if it is punctuation, space or symbol and not leet, otherwise the lower case of what it reads as, by the table of ten leet runes |
| `Spelling.LeetReadsAsLetter` | moderation/moderator.go:107-163 | anywhere in a text a leet rune reads as its letter |
| `Spelling.SkippedMakesNoDifference` | moderation/moderator.go:107-122 | anywhere in a text a skipped rune can be put in or left out |
| `Spelling.SameNormIsSpelling` | moderation/moderator.go:107-163 | two texts have the same normal form if and only if they agree rune by rune up to case, the leet table and skipped runes |
| `Spelling.SpelledWordIsReplaced` | moderation/moderator.go:24-163 | a stretch that spells a dictionary word is replaced whole, skipped runes in between included |
| `Spelling.LeetWordIsReplaced` | moderation/moderator.go:24-163 | in particular a dictionary word written in leet |
| `Spelling.OnlySpelledWordsAreReplaced` | moderation/moderator.go:24-163 | every replaced rune lies in such a stretch |
| `Censoring.CensoringIsIdempotent` | moderation/moderator.go:49-122 | with a replacement that counts and is in no pattern, no match remains and censoring again changes nothing |
| `Censoring.NoiseJoinsNeighbours` | moderation/moderator.go:49-122 | with a noise replacement a match remains if and only if the spared runes contain a pattern |
| `Censoring.StarsCanJoin` | moderation/moderator.go:49-122 | with `*`, the words `x` and `ab` and the text `axb` leave a match |
| `Censoring.RoundsConverge` | moderation/moderator.go:49-122 | with a noise replacement repeated censoring reaches a clean text within as many rounds as runes count |
| `Censoring.CountingCanMatchAgain` | moderation/moderator.go:49-122 | with a counting replacement every remaining match contains the replacement's folding; the normal form of the result is the masked form of the text |
| `Censoring.LettersCanMatchAgain` | moderation/moderator.go:49-122 | with `a`, the word `ab` and the text `abb` a match remains |

## Left out

- JobProtocol: the contents of specialist results; an answer is its file identifier, because the result list is shared between goroutines without a lock.
- JobProtocol: goroutines, timeouts and the registry inside `Broadcast`; a broadcast fails, is accepted and answered at most once, or is accepted and never answered.
- DirectoryWalk: cancellation, an unbuffered directory channel, a tree that changes during the walk, back pressure and monitoring counters.
- DirectoryWalk: reports to a full file channel; reporting does not block.
- JobProtocol: runs after the context is cancelled; the worker then stops.
- EnrichmentRace: is about two enrichments, and about tags and scores; summary and payload are not compared.
- BatchSink: what happens to a batch whose storage fails after it was handed off.
- Analyses: runs in which only one of the two stores succeeds; scoring and ranking of search results.
- Analyses: nil payload pointers, which the code dereferences.
- Tasks.KeyOrder: is about priorities HIGH and NORMAL and nineteen-digit times, because unpadded fields do not sort by value; the repository methods and `FetchedKeyIsEnqueuedKey` cover all of them.
- Messages.KeyOrder: is about times from 1970 on, because a minus sign breaks the padding.
- Messages.PagingIsExact: assumes that no message overwrites another one, that is, identifiers are distinct per room and time; moderated messages do not keep theirs.
- Messages: the lifetime of Badger's value buffers outside a transaction.
- Accumulator.EveryRunTracks: is about successful creates and writes; failing ones are covered by `ProcessResponse`, `AcceptKeepsShape` and `DownloadOutcome`.
- Accumulator: a chunk is one step, although the code releases its read lock before writing; messages of one file come from one goroutine.
- Transfer: downloads that find messages or a sender loop of an earlier, broken-off download on the shared response channel; messages carry no file identifier.
- Censoring.CountingCanMatchAgain: gives a necessary condition on dictionary and replacement rune; which dictionaries admit a text that matches again is open.
- Moderation: texts are rune sequences, so invalid UTF-8 is already replaced.
- The gRPC plumbing, process launch, authentication, telemetry, health checks, dashboards, configuration and Python services: I/O and thin wrappers around foreign code, or members without deep invariants.
- Termination of the supervisor on shutdown: one worker never returns on cancellation, so nothing is claimed.
