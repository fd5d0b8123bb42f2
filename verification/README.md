# kuberag, verified

kuberag is a Kubernetes operator that keeps retrieval-augmented knowledge bases in
step with their specification, together with the Python worker that fills the vector
store and the retriever that serves it. This project models its hardest parts in Dafny
and proves what they promise. Nothing here was executed.

`dafny verify dfyconfig.toml` checks everything.

## How the model is laid out

**The controller** (`KnowledgeBase`, `Reconciler`, `ControllerRuns`,
`ControllerTheorems`, `ControllerLaws`, `AutoTuneBounds`, `Scheduling`,
`ControllerScripts`, `ExactConditions`, `Tuning`, `ChunkingLabel`). `KnowledgeBase.Record` is the object
whose status fields a reconcile pass assigns one by one; each of its methods is proved
equal to a function on the status as a value. `KnowledgeBaseReconciler.Reconcile` is one
pass, in the source's order of steps with its early returns, proved equal to `Pass`.
`ControllerRuns` interleaves passes with everything else that happens: a worker promotes,
succeeds, fails or vanishes at any time, secrets rotate, users edit the spec. Its ghost
`store` is what the vector store really holds, which the controller cannot see. Time,
cron answers and the visibility of a worker's result enter each pass as a `Tick`.
`ControllerLaws` writes out on the fields what a pass does in each situation.
`Scheduling` says when a cron schedule is due. A run is in time (`ControllerScripts.InTime`)
if its clock does not go back and its schedules are due exactly when one parser finds them
so. `ControllerScripts` builds runs in time, and `ExactConditions` uses them to show that
the conditions under which the promises hold cannot be relaxed.

**The worker's store** (`VectorDb`, `Stores`, `Paths`, `DocPaths`, `Ingest`, `FullIngest`,
`BackupRestore`).
A server is a map of collections plus a map of aliases; an arbitrary script says of every
request whether it goes well, is lost, or loses its reply. The server logs every state it
goes through, so a statement about all logged states is a statement about a kill at any
step, and one about the script says which failures do harm.

**Crawler and globs** (`Crawler`, `Regex`, `Glob`, `GlobMeaning`, `GlobReading`). The
breadth-first crawl over an arbitrary web, and the compiler from globs to regular
expressions, whose output text is read back by a small regular-expression reader and given
its meaning: character by character for every glob, and segment by segment for those whose
double stars are whole segments.

**Chunking** (`Words`, `WindowChunking`, `SemanticChunking`, `RecursiveChunking`,
`Merging`, `ChunkText`, `ChunkLaws`). All three strategies down to `split`, `strip` and `join`.

**Retriever** (`TokenBucket`, `LocalLimiter`, `RedisLimiter`, `LimiterBackends`,
`LimiterDues`, `RankFusion`, `FusionLaws`). Both rate limiters against one ideal limiter and
against bounds from above and below, and reciprocal rank fusion.

## What turned out otherwise than documented

* A deferred cron tick is served before owed work and is incremental. After a failed
  ingest during which a cron tick fired, the retry is therefore incremental, finds its
  sources unchanged, and marks an owed re-index as done although the store holds the old
  chunks (`FailureAfterCronTickMasks`, `MaskedLaunchKeepsOldStore`). For a knowledge base
  that tunes, with a freshness schedule that fires for ever if the parser accepts it, recall
  is attributed to the data measured in all runs in time if and only if the schedule never
  fires (it is empty or refused) or the mode is full (`AttributionIff`).
* The worst such launch follows a user's edit. An edit made while an ingest with a deferred
  tick runs cancels that Job and launches an incremental one (`EditCancelsIntoMaskedLaunch`).
  Exactly then the edit may never reach the store, and the knowledge base is reported Ready
  (`EditReachesStoreIff`).
* An evaluation in flight across a spec edit is credited to the new spec's chunking
  (`EditMisattributesEval`). If it misses, it forces a re-index whose tuning the next pass
  resets, so that auto-tune can force maxAttempts + 2 re-indexes instead of
  maxAttempts + 1. That is possible exactly while such an evaluation is in flight within
  its deadline (`AutoTuneBoundIff`, `EditDuringEvaluation`).
* A freshness schedule whose date never comes, such as 30 February, is due at every pass,
  because the parser's zero time is not after now. The knowledge base is ingested over and
  over and never evaluated (`HopelessNeverEvaluates`).
* docs/RUNBOOK.md:42 says that clearing `suspend` resumes a knowledge base. The phase stays
  Suspended, and evaluations only start from Ready or Degraded: one that is up to date and
  has no freshness schedule is never evaluated again (`ResumedIsNotEvaluated`).
* Source names may contain a bar, and so may document paths. Two sources can share a point
  id exactly when one name is the other followed by a bar and the beginning of a path that
  the source with the shorter name may list: `s3://bucket/` for a bucket; the repository's
  prefix, and proper segments, for a repository, if both sources are repositories; never
  for a web source (`PointIdCollidesIff`, `BucketsClash`). Validation does not rule that out.
* A full ingest that resumes from a checkpoint starts from an empty staging collection
  and skips the completed sources, so it promotes a collection without them
  (`ResumedIngestLosesSkipped`).
* The exception handler of a full ingest says the active collection is preserved. An
  exception after a Qdrant promotion drops the promoted collection (`LosesActiveIff`,
  `CountFailureLosesData`); the same handler in a restore does so too.
* The inline fallback for pgvector, taken when a table `<name>_old` is left over or the
  transaction fails, leaves a moment without any collection (`FullIngest.Promote`).
* `_merge_pieces` does not merge "up to max_words": the bound is `max_words` plus the
  overlap, and it is reached (`OverlapOverflows`). `ChunkOverflowsIff` says exactly which
  chunks are longer.
* README.md, docs/ARCHITECTURE.md and docs/TUNING.md say in places that auto-tune forces
  a re-index by clearing the spec hash; the code sets `PendingRetune` and keeps the hash.
* A comment at internal/controller/knowledgebase_controller.go:144-151 says a new secrets
  hash is persisted even if no ingest runs; in steady state no status write follows.

## Model

| member | source | states |
|---|---|---|
| Tuning.NextChunking | internal/controller/decision_helpers.go:136-157 | for any configuration at all: overlap at most half a chunk, a chunk above 300 tokens never shrinks below 300, no field becomes zero, the strategy changes only at the last rung |
| Tuning.StepKinds | internal/controller/decision_helpers.go:136-170 | the three kinds of ladder step with their numbers, in arithmetic without the source's division, and the order of the strategies |
| Tuning.StepDescends | internal/controller/decision_helpers.go:136-157 | before the last rung each step strictly descends in the measure on chunk size and then room left for overlap |
| Tuning.RotationComesWithoutRepeats | internal/controller/decision_helpers.go:126-170 | from any non-negative configuration, finitely many pairwise different configurations of one strategy, then a rotation to 800/80 |
| Tuning.RungStep | internal/controller/decision_helpers.go:136-170 | the 21 configurations a strategy goes through from 800/80, in order, and the rotation after the last |
| Tuning.LadderCycles | internal/controller/decision_helpers.go:126-170 | from the top of a strategy, two positions hold the same configuration if and only if they agree modulo 63 |
| Tuning.LadderFromAnywhere | internal/controller/decision_helpers.go:126-170 | after the first rotation the ladder cycles through exactly 63 distinct configurations, from any start |
| ChunkingLabel.LabelRoundTrip | internal/controller/decision_helpers.go:332-352 | writing a chunking into the Job label and reading it back is the identity, for any fallback, if and only if the strategy is non-empty and has no dot |
| ChunkingLabel.DefaultLabel | internal/controller/decision_helpers.go:332-352 | the label of the default configuration, letter by letter |
| KnowledgeBase.IngestReason | internal/controller/decision_helpers.go:96-123 | whenever an ingest is owed (spec or model drift, pending re-tune) a reason is given and it is not mere freshness; without a reason nothing is owed |
| KnowledgeBase.Status.Evaluated | internal/controller/evaluation_controller.go:134-214 | the write-back of an evaluation clears the Job and leaves rounds, observed hash and observed model alone |
| KnowledgeBase.Record.ResetIfEdited | internal/controller/knowledgebase_controller.go:159-166 | a user edit under an override drops all tuning state |
| KnowledgeBase.Record.ApplyAutoTune | internal/controller/decision_helpers.go:174-186 | the fields of a forced re-tune |
| KnowledgeBase.Record.RecordBest | internal/controller/decision_helpers.go:193-199 | best recall and chunking move only on a first or strictly better recall |
| KnowledgeBase.Record.SettleOnBest | internal/controller/decision_helpers.go:211-220 | reverts to the best configuration exactly when it differs from the effective one |
| KnowledgeBase.Record.GateOnRecall | internal/controller/evaluation_controller.go:134-214 | the recall gate: met, re-tune, settle or degrade |
| KnowledgeBase.Record.MarkIngested | internal/controller/ingestion_controller.go:67-138 | the write-back of a successful ingest |
| KnowledgeBase.Record.BeginIngestRound | internal/controller/ingestion_controller.go:180-309 | a launch consumes the deferred tick and takes the next round |
| KnowledgeBase.Record.MarkIngestFailed | internal/controller/ingestion_controller.go:67-138 | the write-back of a failed ingest; owed work stays owed |
| Reconciler.BeforeDecision | internal/controller/knowledgebase_controller.go:172-223 | if a pass gets as far as deciding, no Job is active and chunking, hash, model, re-tune and deferral are what they were; Jobs are only deleted before |
| Reconciler.KnowledgeBaseReconciler.FinalizeIngest | internal/controller/ingestion_controller.go:67-138 | cluster state after a finished ingest Job, including lost results, stale hashes and failure |
| Reconciler.KnowledgeBaseReconciler.FinalizeEval | internal/controller/evaluation_controller.go:85-214 | cluster state after a finished evaluation Job |
| Reconciler.KnowledgeBaseReconciler.ReconcileActiveJob | internal/controller/ingestion_controller.go:24-65 | lost, running and finished Jobs, cron ticks deferred while one runs |
| Reconciler.KnowledgeBaseReconciler.StartIngest | internal/controller/ingestion_controller.go:180-309 | mode, label, hashes and name of the launched Job; nothing is written if the name is taken |
| Reconciler.KnowledgeBaseReconciler.StartEval | internal/controller/evaluation_controller.go:17-83 | the launched evaluation |
| Reconciler.KnowledgeBaseReconciler.CancelOrExpire | internal/controller/knowledgebase_controller.go:172-216 | cancels an ingest for a changed spec or secret, writes off one past its deadline |
| Reconciler.KnowledgeBaseReconciler.Reconcile | internal/controller/knowledgebase_controller.go:129-239 | one whole pass refines the function the run theorems are about |
| ControllerLaws.SameCorpusIff | internal/controller/decision_helpers.go:44-71 | two specs ask for the same corpus if and only if sources, embedding, vector store and defaulted chunking agree |
| ControllerLaws.EvaluationSetsPhase | internal/controller/evaluation_controller.go:134-214 | from every steady state: a met target ends Ready, a miss that forces nothing ends Degraded with auto-tune or without, no queries leave the phase alone; a re-index is forced exactly when auto-tune is on and has an attempt or a better configuration left; what is recorded in each case |
| ControllerLaws.FailedEvaluationIsForgotten | internal/controller/evaluation_controller.go:85-105 | a failed evaluation Job changes nothing but the active Job |
| ControllerLaws.IngestIsRecorded | internal/controller/ingestion_controller.go:99-138 | after a finished ingest every status field says what was ingested, with the chunking of its worker, and the Job is gone |
| ControllerLaws.RunningIngestGoesOn | internal/controller/ingestion_controller.go:42-58 | a running ingest that is current and in time stays, and a due cron tick is put off |
| ControllerLaws.UnfinishedIsAwaited | internal/controller/ingestion_controller.go:42-102 | a running evaluation, or a Job whose result is not visible yet, leaves everything as it is |
| ControllerLaws.OverdueJobFails | internal/controller/decision_helpers.go:284-295 | ten minutes past its deadline a Job is written off, as a failure, and nothing new starts |
| ControllerLaws.OutdatedIngestIsCancelled | internal/controller/decision_helpers.go:311-317 | an ingest for another corpus or other credentials is cancelled, which is no failure |
| ControllerLaws.AsIfNeverActive | internal/controller/knowledgebase_controller.go:172-223 | after a cancellation, or when the active Job has vanished, the pass goes on as if it had never been active |
| ControllerLaws.RunningIngestIsRemovedIff | internal/controller/knowledgebase_controller.go:168-216 | a running ingest is removed if and only if the corpus or the credentials changed or it is overdue |
| ControllerLaws.FailedIngestIsRecorded | internal/controller/ingestion_controller.go:67-96 | a failed ingest is recorded with its time and corpus, and what it owed is still owed |
| ControllerLaws.FailureIsWaitedOut | internal/controller/decision_helpers.go:319-330 | for five minutes after a failed ingest no run under the same spec starts anything, whatever else happens |
| ControllerLaws.IngestIsLaunchedIff | internal/controller/decision_helpers.go:96-123 | without an active Job: exactly when an ingest is launched, exactly when it is full, and with which hashes and deadline |
| ControllerLaws.EvaluationIsLaunchedIff | internal/controller/evaluation_controller.go:217-240 | exactly when an evaluation is launched; if neither is, nothing changes |
| ControllerLaws.SuspendedPass | internal/controller/knowledgebase_controller.go:130-139 | a suspended knowledge base only has its phase set |
| ControllerLaws.ResumedIsNotEvaluated | internal/controller/evaluation_controller.go:217-240 | once resumed, an up-to-date knowledge base without a freshness schedule keeps the phase Suspended in every run, and is never evaluated |
| ControllerRuns.EventKeepsSound | internal/controller/knowledgebase_controller.go:129-239 | every event, spec edits included, keeps: one Job at most runs and it is the active one, Job labels say what the worker was told, rounds bound Job names |
| ControllerRuns.UserEditWinsHere | internal/controller/decision_helpers.go:89-123 | a launch whose desired hash differs from the observed one carries the user's chunking and is full unless a deferred tick was pending |
| ControllerRuns.UserEditWins | internal/controller/knowledgebase_controller.go:156-232 | the same after every run from creation, with edits, failures and tuning in any order |
| ControllerRuns.EventKeepsCoherent | internal/controller/ingestion_controller.go:67-138 | every event but a spec edit keeps the bookkeeping, and keeps status and store in agreement unless a masked launch is in flight |
| ControllerTheorems.RecallIsAttributed | internal/controller/ingestion_controller.go:67-138 | spec fixed, no masked launch: after any failures, cancellations, timeouts and lost Jobs, a consumed evaluation measured exactly the effective chunking, and the store still holds it |
| ControllerTheorems.RecallIsAttributedFromCreation | internal/controller/decision_helpers.go:96-123 | this holds for every run from creation in which no pass finds the freshness schedule due, or in full ingestion mode |
| ExactConditions.AttributionIff | internal/controller/decision_helpers.go:96-123 | for a knowledge base that tunes, it holds for all runs in time from creation if and only if its freshness schedule never fires or the mode is full |
| ExactConditions.MisattributedRun | internal/controller/ingestion_controller.go:24-138 | otherwise: a run in time from creation that credits the measurement of the old chunks to a chunking that was never indexed |
| ControllerTheorems.RecallIsAttributedAfterReindex | internal/controller/ingestion_controller.go:67-138 | after any history of edits, from the first full write-back of the current spec on |
| ControllerTheorems.EditMisattributesEval | internal/controller/evaluation_controller.go:134-214 | an evaluation in flight across an edit is recorded correctly if and only if the new spec asks for the chunking that was measured |
| ControllerTheorems.MaskedLaunchKeepsOldStore | internal/controller/ingestion_controller.go:67-138 | after a masked launch the status reports the re-index done; status and store agree if and only if the store already held that chunking |
| ControllerTheorems.FailureAfterCronTickMasks | internal/controller/decision_helpers.go:96-123 | whenever a cron tick fires during an ingest that then fails, the retry is masked, unless the user asked for full runs |
| ExactConditions.EditCancelsIntoMaskedLaunch | internal/controller/decision_helpers.go:96-123 | an edit during an ingest with a deferred tick: that Job is cancelled and an incremental one launched with the new chunking, over the old store |
| ExactConditions.EditReachesStoreIff | internal/controller/ingestion_controller.go:67-138 | the ingest launched for an edit can succeed without touching the store, and be reported as done, if and only if a tick was deferred and the mode is not full; if it promotes, the store holds the edit |
| ControllerTheorems.NextRoundIsFree | internal/controller/ingestion_controller.go:180-309 | in every reachable state the next round's Job names are unused |
| ControllerTheorems.EventTuning | internal/controller/evaluation_controller.go:134-214 | how each event moves the tuning state: untouched, reset on a met target, or one transition on a missed one |
| AutoTuneBounds.EventKeepsTracked | internal/controller/ingestion_controller.go:67-138 | every event, spec edits included, keeps: an active ingest works with the chunking that was effective at its launch, no re-tune is pending while an evaluation is active, attempts are only counted on a tuned chunking |
| AutoTuneBounds.RunSpendsWorldBudget | internal/controller/decision_helpers.go:174-220 | along every run under one spec, from every reachable world, forced re-indexes are paid from a budget that nothing refills |
| AutoTuneBounds.AutoTuneEnds | internal/controller/evaluation_controller.go:134-214 | between two met targets auto-tune forces at most maxAttempts + 1 re-indexes, and one more if an evaluation that may miss is in flight across an edit when the spec comes to rest |
| AutoTuneBounds.AutoTuneEndsFromCreation | internal/controller/evaluation_controller.go:134-214 | the same after any history of edits, failures and tuning from creation |
| Scheduling.DueIffFired | internal/controller/scheduling.go:28-41 | an action is due exactly when its schedule has fired since it last ran, or within the last minute if it never did |
| Scheduling.DueStays | internal/controller/scheduling.go:28-41 | once due, it is due until it has run |
| ControllerScripts.Reindex | internal/controller/ingestion_controller.go:67-138 | from every reachable state that wants an ingest, a run in time of launch, work and write-back gets there, with and without new data |
| ControllerScripts.MissedEval | internal/controller/evaluation_controller.go:134-214 | from every reachable idle state with nothing due, a run in time that launches an evaluation and writes its miss back |
| ExactConditions.AutoTuneBoundIff | internal/controller/evaluation_controller.go:134-214 | with auto-tune enabled, maxAttempts + 1 bounds all runs in time from now on if and only if no evaluation that may miss is in flight across an edit and within its deadline |
| ExactConditions.EditDuringEvaluation | internal/controller/evaluation_controller.go:134-214 | such a state is reached in time from creation by one edit, and then some run in time forces exactly maxAttempts + 2 |
| ExactConditions.HopelessNeverEvaluates | internal/controller/scheduling.go:28-41 | under a schedule without any next fire no run in time, of any length, ever launches or consumes an evaluation |
| ControllerTheorems.BestIsFirstArgmax | internal/controller/decision_helpers.go:193-199 | the best recall is the maximum of all misses since the target was last met, the best chunking that of its first occurrence |
| ControllerTheorems.GivesUpOnBest | internal/controller/evaluation_controller.go:157-202 | an enabled auto-tune that stops forcing ends Degraded on the best configuration |
| ControllerTheorems.LandedStays | internal/controller/evaluation_controller.go:157-202 | once landed, every run that never meets the target stays there and forces nothing |
| VectorDb.UpsertIsExact | worker/rag_worker/stores.py:196-205 | upserting into an empty collection stores exactly the given points if and only if their ids are distinct, else fewer |
| VectorDb.LastWins | worker/rag_worker/stores.py:380-407 | of several points with one id the last is stored, but PostgreSQL keeps source and path of the first |
| VectorDb.Server.Change | worker/rag_worker/stores.py:156-333 | a request took effect or not; success means it did; the state is logged |
| Stores.OffShadowIsUnseen | worker/rag_worker/stores.py:299-333 | changes to the staging collection alone are invisible under the active name |
| Stores.Store.RecreateCollection | worker/rag_worker/stores.py:156-165 | only this collection changes in any logged state; in between it does not exist |
| Stores.Store.Upsert | worker/rag_worker/stores.py:196-205 | adds the points to this collection and touches nothing else |
| Stores.Store.Drop | worker/rag_worker/stores.py:277-297 | success means a table is gone, an alias with its target, or a collection with the aliases on it, and nothing else; failure leaves the old state, the dropped one, or only the alias removed; for a physical Qdrant collection which of them, from the fate of its three requests |
| Stores.Store.SwapCollection | worker/rag_worker/stores.py:299-333 | every logged state shows the old contents or the staged ones under the active name; afterwards every other table, collection and alias is as it was, the former target and any left-over table are gone; whether the promotion took effect, raised or was refused, exactly, from the fate of its requests |
| Stores.Store.SwapTables | worker/rag_worker/stores.py:494-515 | PostgreSQL's transaction of renames: applied or refused, by the fate of its request |
| Stores.Store.SwapAlias | worker/rag_worker/stores.py:299-333 | Qdrant's repoint and the deletion of the former target, request by request |
| DocPaths.TakesIff | worker/rag_worker/sources.py:139-231 | given the paths each kind of source lists, when one source can list a path that ends, behind a bar, in a path of another |
| Ingest.PointIdInjective | worker/rag_worker/common.py:115-117 | if neither source name is the other followed by a bar, an id determines source, document and index, whatever bars there are in paths |
| Ingest.PointIdCollidesIff | worker/rag_worker/common.py:115-117 | two different sources can list documents that share an id if and only if one name is the other followed by a bar and the beginning of a path the source with the shorter name may list |
| Ingest.BucketsClash | worker/rag_worker/common.py:115-117 | two objects of sources with the names "a" and one with a bar in it, whose ids coincide |
| Ingest.IdsDistinctIff | worker/rag_worker/ingest.py:217-230 | differently named sources give every corpus their fetchers can list distinct ids if and only if no two of them clash in that way |
| Ingest.CorpusDistinct | worker/rag_worker/ingest.py:217-230 | if no two sources clash, all ids of a corpus are distinct, also with sources skipped |
| Ingest.CorpusIsExact | worker/rag_worker/ingest.py:217-258 | if no two sources clash, the collection built from a corpus holds one point for every chunk of every source not skipped, under the id source|path|index, with the chunk's embedding, source, path, text and hash each in its own field, and nothing else |
| Ingest.PointsAreChunks | worker/rag_worker/ingest.py:217-230 | even when ids collide, every stored point is a chunk under its id, with its own embedding, text and hash |
| FullIngest.EmbedAndUpsert | worker/rag_worker/ingest.py:233-249 | whatever the batch size, the collection ends as if everything had been upserted at once, and the count is right |
| FullIngest.StageSource | worker/rag_worker/ingest.py:76-89 | one source is added to the staging collection with all its chunks, and its result says how many; with a healthy server that fails exactly if it cannot be fetched |
| FullIngest.BuildStaging | worker/rag_worker/ingest.py:68-92 | the staging collection holds the corpus without the checkpointed sources; only staging changes |
| FullIngest.ReplayInto | worker/rag_worker/ingest.py:128-140 | the inline fallback leaves the whole corpus in the table, whatever a checkpoint called complete, and a result for every source |
| FullIngest.RebuildInline | worker/rag_worker/ingest.py:99-106 | the table is emptied and ends with the whole corpus; in between it does not exist |
| FullIngest.Promote | worker/rag_worker/ingest.py:99-106 | PostgreSQL goes inline if and only if an old table is in the way or its transaction's request fails; up to then readers are safe; in Qdrant the fate of each request decides |
| FullIngest.TryIngest | worker/rag_worker/ingest.py:68-116 | untouched, promoted or inline, with the contents, the count and the per-source results of each when it reports |
| FullIngest.Cleanup | worker/rag_worker/ingest.py:118-125 | harmless before promotion and on pgvector; after a Qdrant promotion the active name resolves to nothing if and only if both look-ups succeed and the deletion arrives |
| FullIngest.Recover | worker/rag_worker/ingest.py:118-125 | the exception handler after each stage: nothing lost before promotion, the promoted data lost if and only if the clean-up reaches it, the inline path safe up to its refusal |
| FullIngest.Run | worker/rag_worker/ingest.py:37-125 | a kill or failure at any step shows the complete old or the complete staged contents; the data is lost exactly in the runs of the next row; on the inline path this holds up to the refusal, and a run that reports has the whole corpus; with a healthy server a run reports if and only if everything can be fetched and there is something to promote, and leaves no staging collection behind otherwise; collections and aliases of other names are untouched |
| FullIngest.LosesActiveIff | worker/rag_worker/ingest.py:99-125 | an exception loses the promoted data if and only if the first failing request is the repoint by its reply, or a later one up to the final count, and the cleanup's three requests get through |
| FullIngest.CountFailureLosesData | worker/rag_worker/ingest.py:99-125 | a failing count after the promotion loses data that was there before and in staging |
| FullIngest.FreshIngestIsExact | worker/rag_worker/ingest.py:68-114 | without a checkpoint and without clashing sources the staged collection holds exactly the corpus, field by field; the count equals the sum, so the clamps change nothing |
| FullIngest.ResultsReport | worker/rag_worker/ingest.py:76-89 | one result for every source fetched and not skipped, with its name, revision and number of chunks, and no other; their sum is the number of chunks |
| FullIngest.CountIsSumIff | worker/rag_worker/ingest.py:93-114 | for any corpus the clamps change nothing if and only if no two chunks share an id |
| FullIngest.ResumedIngestLosesSkipped | worker/rag_worker/ingest.py:49-75 | a resumed ingest promotes the whole corpus if and only if the skipped sources have no chunks |
| BackupRestore.ExportQdrant | worker/rag_worker/backup.py:87-112 | the paged export visits every point exactly once, in the server's order, and terminates |
| BackupRestore.ExportMilvus | worker/rag_worker/backup.py:140-174 | the same with numeric offsets and a short last page |
| BackupRestore.UpsertBatches | worker/rag_worker/restore.py:91-97 | batches of 64 add up to one upsert |
| BackupRestore.Restore | worker/rag_worker/restore.py:71-118 | a restore that returns has promoted all points; repeated ids never get through; unless the repoint took effect readers keep what they had, in every logged state; once it did, which exceptions lose the data; with a healthy server it returns if and only if the ids are distinct, and leaves no staging collection behind otherwise; other names are untouched |
| BackupRestore.ExportIsCarried | worker/rag_worker/backup.py:87-112 | upserting an export rebuilds every id with its vector, and each of the four payload fields with the stored value of its own name |
| BackupRestore.BackupThenRestore | worker/rag_worker/restore.py:71-118 | after a restore that returns, each id has its vector and each payload field its stored value, or an empty one where it is missing; so the active name resolves to the very contents that were stored |
| Crawler.ReachableIsCovered | worker/rag_worker/sources.py:398-436 | once nothing at depth d waits, every URL reachable within d links has been fetched at such a depth |
| Crawler.Classify | worker/rag_worker/sources.py:362-436 | which pages end the crawl, are indexed or are skipped |
| Crawler.FetchWeb | worker/rag_worker/sources.py:362-436 | no URL is taken from the queue twice, budget, non-decreasing depths, all within the limit; fails exactly on a fatal page; the documents are exactly the final pages of fetched URLs that may be indexed, no more than the pages fetched; every fetched URL is a seed or an in-domain link of a document, and a drained crawl has followed all of them; every level before those that still wait is complete at least depths |
| Regex.StarRuns | worker/rag_worker/sources.py:58-83 | a starred class consumes any run of its characters |
| Glob.GlobToRegex | worker/rag_worker/sources.py:58-83 | the loop writes the anchored pattern of the glob |
| Glob.PatternMeansTokens | worker/rag_worker/sources.py:58-83 | the whole pattern, read back as a regular expression, is the expression meant, escapes and anchors included |
| GlobMeaning.GlobMeans | worker/rag_worker/sources.py:58-89 | for paths without line feeds and globs whose double stars are whole segments: accepted if and only if the path matches segment by segment |
| GlobMeaning.CompiledPatternMeans | worker/rag_worker/sources.py:58-89 | the same for the pattern the compiler returns |
| GlobMeaning.PlainGlobKeepsDepth | worker/rag_worker/sources.py:58-89 | without a double star a match has as many slashes as the glob |
| GlobReading.GlobReads | worker/rag_worker/sources.py:58-83 | for every glob and every path without line feeds: accepted if and only if the glob reads it character by character, wherever its double stars are |
| GlobReading.CompiledPatternReads | worker/rag_worker/sources.py:58-83 | the same for the pattern the compiler returns |
| WindowChunking.PackWords | worker/rag_worker/chunking.py:59-71 | emits exactly 1 + ceil((n - max) / step) windows, each the joined words of its range |
| WindowChunking.WindowsFit | worker/rag_worker/chunking.py:59-71 | every window starts inside the text and only the last reaches its end |
| WindowChunking.WindowsCover | worker/rag_worker/chunking.py:59-71 | every word is in some window |
| WindowChunking.NeighboursShare | worker/rag_worker/chunking.py:38-71 | neighbours share exactly min(overlap, max - 1) words |
| WindowChunking.NoOverlapKeepsWords | worker/rag_worker/chunking.py:59-71 | with zero overlap the windows' words are the words |
| SemanticChunking.CollectBlocks | worker/rag_worker/chunking.py:48-54 | the nested loops compute the blocks |
| SemanticChunking.SemanticBlocksKeepWords | worker/rag_worker/chunking.py:48-54 | the blocks' words, one block after the other, are the text's words |
| SemanticChunking.SemanticBlocksAreUnits | worker/rag_worker/chunking.py:48-54 | no block is blank, has a heading after its first character, or a blank line |
| SemanticChunking.HeadingPartsAreAll | worker/rag_worker/chunking.py:48-50 | cutting at headings loses nothing |
| SemanticChunking.HeadingPartsAreHeaded | worker/rag_worker/chunking.py:48-50 | every part but the first starts with a heading, so nothing else is cut |
| SemanticChunking.BlankPartsAreWoven | worker/rag_worker/chunking.py:51-54 | cutting at blank lines takes away nothing but runs of whitespace that begin and end with a line feed |
| RecursiveChunking.CutIsSplit | worker/rag_worker/chunking.py:96-99 | joining the parts with the separator gives the text back, and no part contains the separator |
| RecursiveChunking.SplitOnSeparators | worker/rag_worker/chunking.py:82-107 | the recursive splitter terminates and computes the pieces |
| RecursiveChunking.PiecesFit | worker/rag_worker/chunking.py:82-107 | every piece has one to max words |
| RecursiveChunking.PiecesKeepInk | worker/rag_worker/chunking.py:82-107 | every character that is neither whitespace nor a full stop survives, in order |
| RecursiveChunking.PiecesKeepWords | worker/rag_worker/chunking.py:82-107 | if no separator other than whitespace occurs in the text, the pieces have exactly its words |
| Merging.Carry | worker/rag_worker/chunking.py:118-118 | the slice with Python's negative index: always a suffix, exactly `overlap` words when there are that many, and how many otherwise |
| Merging.MergePieces | worker/rag_worker/chunking.py:110-122 | the loop computes the merge |
| Merging.MergeIsGreedy | worker/rag_worker/chunking.py:110-122 | each chunk is the carried words and whole pieces, at least one, within max unless a single piece, closed only because the next did not fit |
| Merging.GreedyIsMerge | worker/rag_worker/chunking.py:110-122 | that describes the merge completely: no other chunking of the pieces satisfies it |
| Merging.ChunkOverflowsIff | worker/rag_worker/chunking.py:110-122 | a chunk exceeds max if and only if its carried words and first piece already do; every chunk has a fresh word |
| Merging.ChunksAreBounded | worker/rag_worker/chunking.py:110-122 | no chunk exceeds max plus overlap words |
| Merging.FreshIsEverything | worker/rag_worker/chunking.py:110-122 | the fresh parts of the chunks are all words of all pieces, in order |
| Merging.OverlapOverflows | worker/rag_worker/chunking.py:110-122 | a merge with a chunk longer than max |
| ChunkText.SplitText | worker/rag_worker/chunking.py:26-35 | the dispatch computes the strategy's chunks and its final filter drops none |
| ChunkText.ChunkHasWords | worker/rag_worker/chunking.py:26-35 | every chunk of every strategy has at least one word and at most the strategy's limit |
| ChunkText.WindowsKeepWords | worker/rag_worker/chunking.py:26-71 | with zero overlap the words of all fixed or semantic chunks are the words of the text |
| ChunkText.RecursiveKeepsText | worker/rag_worker/chunking.py:76-122 | recursive chunks are greedy and their fresh words carry the whole text's ink, or exactly its words if ". " does not occur |
| ChunkText.RecursiveWithoutOverlap | worker/rag_worker/chunking.py:76-122 | with zero overlap the chunks themselves do |
| ChunkLaws.TokensToWords | worker/rag_worker/chunking.py:38-43 | both limits are the greatest number of words that fit at 1.3 tokens a word, but at least one and none |
| ChunkLaws.FixedChunksAreWindows | worker/rag_worker/chunking.py:26-71 | every strategy but two slides a window over the whole text: which words chunk k has, and which is the last |
| ChunkLaws.NoChunksIff | worker/rag_worker/chunking.py:59-71 | only a blank text has no such chunk |
| ChunkLaws.SemanticChunksStayInBlocks | worker/rag_worker/chunking.py:26-35 | the semantic chunks are the fixed ones of the single blocks, so none reaches from one block into another |
| ChunkLaws.HeadingIff | worker/rag_worker/chunking.py:48-50 | a heading is one to six hashes and whitespace at the start of a line |
| ChunkLaws.ContainsIff | worker/rag_worker/chunking.py:96-97 | a text contains a separator if and only if it occurs somewhere in it |
| ChunkLaws.CoarsestFirst | worker/rag_worker/chunking.py:82-107 | a text too long is cut at the first of blank line, line feed, ". " and space that occurs in it, its pieces are those of its parts, and every part that fits stays whole |
| ChunkLaws.GroupsAtLast | worker/rag_worker/chunking.py:82-107 | without any of them it is cut into groups of words |
| ChunkLaws.GroupIsSlice | worker/rag_worker/chunking.py:90-95 | which words each group has |
| ChunkLaws.CutsComeFirst | worker/rag_worker/chunking.py:96-99 | cuts come from the left |
| ChunkLaws.RecursiveChunksAreMerged | worker/rag_worker/chunking.py:76-122 | the recursive chunks are the greedy merge of those pieces, word for word |
| ChunkLaws.ChunksAreSingleSpaced | worker/rag_worker/chunking.py:26-122 | in a chunk of any strategy the words stand one space apart with nothing around them |
| TokenBucket.LevelGrows | worker/retriever/server.py:228-234 | stored tokens stay within 0 and burst and grow by at most the refill |
| TokenBucket.GoingBackCostsNothing | worker/retriever/server.py:228-234 | a clock that goes back neither adds nor takes tokens |
| TokenBucket.UnitsDoNotMatter | worker/retriever/rate_limit.py:69-72 | counting time in finer units changes no answer |
| LocalLimiter.RateTable.MakeRoom | worker/retriever/server.py:218-227 | the sweep and the forced eviction, only for a new client and a full table |
| LocalLimiter.RateTable.Consume | worker/retriever/server.py:215-242 | table, answer and announced wait of one request |
| LocalLimiter.TableStaysOrderly | worker/retriever/server.py:215-242 | at most 10000 buckets, one per client, in order of last use, 0 to burst tokens each; the client's own is last |
| LocalLimiter.SweepRemovesTheStale | worker/retriever/server.py:218-224 | the sweep that stops at the first fresh bucket removes exactly the stale ones |
| LocalLimiter.StepOfClient | worker/retriever/server.py:215-242 | what one request does to every client's tokens |
| LocalLimiter.TokensAreConserved | worker/retriever/server.py:215-242 | in any stretch of time T a client is admitted at most (1 + e) * burst + T * rpm / 60 times, e counting only evictions of a bucket not yet full |
| LocalLimiter.AnswersLikeIdeal | worker/retriever/server.py:215-242 | a client never evicted early gets the very answers of an unbounded table |
| LocalLimiter.StaleIsFullIff | worker/retriever/server.py:218-224 | dropping stale buckets is harmless if and only if burst is at most 10 * rpm |
| LocalLimiter.EarlyOnlyInACrowd | worker/retriever/server.py:218-227 | then an eviction is early exactly when a new client meets 10000 buckets all used within ten minutes and the oldest is not full |
| LocalLimiter.WaitIsLeast | worker/retriever/server.py:235-239 | the announced wait is the least whole number of seconds that leaves more than one token |
| LocalLimiter.RetryAfterSuffices | worker/retriever/server.py:235-242 | a refused client that waits as told is let through, whatever the other clients do meanwhile |
| RedisLimiter.Redis.Consume | worker/retriever/rate_limit.py:8-40 | stored hash, expiry and answer of one run of the script |
| RedisLimiter.TtlCovers | worker/retriever/rate_limit.py:71-72 | the computed expiry always covers a refill from empty |
| RedisLimiter.ExpiryIsUnobservable | worker/retriever/rate_limit.py:8-40 | for every request sequence in order of time the expiring store answers like one that never expires |
| RedisLimiter.RetryAfterIsExact | worker/retriever/rate_limit.py:35-39 | waiting as told is enough, and a whole second less is not |
| LimiterBackends.BackendsAgree | worker/retriever/rate_limit.py:8-40 | both backends admit and refuse the same requests of a client never evicted early |
| LimiterDues.TokensCanBeUsed | worker/retriever/server.py:215-242 | a client that holds n tokens is let through n times in a row, whatever others do; from an empty table, burst times |
| LimiterDues.RefusalIsEarned | worker/retriever/server.py:215-242 | whenever a client is refused, there is an earlier request of its own since which it was let through more than burst + T * rpm / 60 - 1 times |
| LimiterDues.SharedTokensCanBeUsed | worker/retriever/rate_limit.py:8-40 | the first burst requests of a client are let through |
| LimiterDues.SharedRefusalIsEarned | worker/retriever/rate_limit.py:8-40 | the same bound on refusals for the shared limiter |
| LimiterDues.SharedTokensAreConserved | worker/retriever/rate_limit.py:8-40 | and the bound on admissions: at most burst + T * rpm / 60000 in T milliseconds |
| RankFusion.Rrf | worker/retriever/server.py:403-434 | each key of either list once, with the sum of its weighted reciprocal ranks and its latest payload, by descending score and then first appearance |
| RankFusion.RankedIsSorted | worker/retriever/server.py:427-434 | the stable descending sort orders entries by score and then by first appearance |
| RankFusion.FusionIsUnique | worker/retriever/server.py:403-434 | that describes keys, order and scores of the result completely |
| RankFusion.SwapKeepsScores | worker/retriever/server.py:403-434 | swapping lists and weights together changes no key and no score |
| RankFusion.Dominance | worker/retriever/server.py:403-434 | without duplicates and with weights not negative, a document behind in neither list and ahead in one with weight is ahead in the result |
| RankFusion.DuplicatesBreakDominance | worker/retriever/server.py:403-434 | with duplicates, being ahead at first appearance is not enough |
| RankFusion.CountDominance | worker/retriever/server.py:403-434 | duplicates or not: with weights not negative, a document with at least as many hits in every prefix of both lists scores no less, and comes first if it has more in some prefix of a list with weight |
| RankFusion.VectorWeightKeepsVectorOrder | worker/retriever/server.py:403-434 | weight on the vector list alone gives its order and then the text-only hits in theirs |
| FusionLaws.ScoresAreReciprocalRanks | worker/retriever/server.py:403-434 | a score is the sum over both searches of weight / (k + rank), ranks from 1, over all hits of the document |
| FusionLaws.OneResultPerDocument | worker/retriever/server.py:403-434 | every document found, told by source, path and text, is in the result once, with the payload of its last hit |
| FusionLaws.ResultsComeByScore | worker/retriever/server.py:403-434 | results come by descending score, and by first appearance among equal ones |

## Left out

Controller:

- Conditions, events, metrics, quota handling, oversized ConfigMaps, finalizers, deletion and the rendering of Jobs.
- Informer lag, and an operator that dies between creating a Job and writing the status; API calls succeed.
- Deleting a Job is taken to stop its worker.
- ExactConditions.AutoTuneBoundIff: targets of 1 percent, where all missed recalls are 0 and the best configuration is always the first one.
- The stored secrets hash: every Job carries its hashes as labels, so the fallback to the stored one is never taken.
- `corpusHash` is an injective function of the corpus spec.
- Cron parsing and the requeue interval: `Scheduling.Cron` stands for the parser. The exact conditions are about schedules that fire for ever, never parse or never fire; one whose fires run out is left out.
- The Retriever, VectorIndex, Backup and Restore reconcilers, which are short linear phase changes.

Worker:

- Milvus' alias swap, whose behaviour depends on a client library, and pgvector's export.
- Moving a legacy physical Qdrant collection of the active name aside, which is not atomic by design; the active name is an alias or, for pgvector, a table.
- A staging name that equals the current alias target; restore and ingest use fresh rounds.
- The contents of the active table when the inline fallback itself fails halfway.
- Document paths that repeat within one source; the fetchers list each path once.
- Repository and bucket names with a bar, which the services refuse. The HTTP client reports a bar in a URL percent-encoded.
- The incremental ingest and the revision probes; the controller model only uses that an incremental worker may find every source unchanged.
- UUIDv5 of an id text is injective; `_sanitize` and name truncation.
- Embedding, PDF and HTML parsing, Git and S3 access, URL normalisation, DNS checks and the redirect loop: functions of the world the model is given. A page is a function of its URL for the length of a crawl.
- The suffix fallback of `_match_globs`.
- `int(x / 1.3)` is the floor of 10x/13; integers are unbounded.

Retriever:

- Floating-point rounding in both limiters and in fusion, and Redis' text form of numbers; times are real numbers and do not go back.
- SHA-256 of a client id is injective, so a client's key is its own.
- Embedding, search, reranking, the similarity threshold and generation.
