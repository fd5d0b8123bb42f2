/** The KnowledgeBase spec and status, the decisions taken on them, and the
    in-memory object whose fields a reconcile pass updates one by one. */
module KnowledgeBase {
  import opened Common
  import opened Tuning

  // ---------------------------------------------------------------------------
  // Spec
  // ---------------------------------------------------------------------------

  datatype IngestMode = Full | Incremental

  datatype Embedding = Embedding(model: string, settings: string)

  datatype AutoTune = AutoTune(enabled: Option<bool>, maxAttempts: int)

  datatype RetrievalQuality = RetrievalQuality(
    enabled: Option<bool>,
    evalSchedule: string,
    minimumRecallPercent: int,
    autoTune: Option<AutoTune>)

  datatype Spec = Spec(
    sources: string,
    chunking: Chunking,
    embedding: Embedding,
    vectorStore: string,
    freshnessSchedule: string,
    ingestionMode: Option<IngestMode>,
    activeDeadlineSeconds: int,
    retrievalQuality: Option<RetrievalQuality>,
    suspend: bool)

  /** The corpus fingerprint. SHA-256 is taken to be injective, so the material
      stands for its hash. */
  datatype CorpusHash = CorpusHash(
    sources: string, chunking: Chunking, embedding: Embedding, vectorStore: string)

  /** A configuration with every unset field at its default; the operator and the
      worker use the same defaults. */
  function FillDefaults(c: Chunking): Chunking {
    Chunking(
      if c.strategy == "" then SEMANTIC else c.strategy,
      if c.maxTokens == 0 then 800 else c.maxTokens,
      if c.overlap == 0 then 80 else c.overlap)
  }

  function SpecChunking(spec: Spec): Chunking {
    FillDefaults(spec.chunking)
  }

  function HashOf(spec: Spec): CorpusHash {
    CorpusHash(spec.sources, SpecChunking(spec), spec.embedding, spec.vectorStore)
  }

  predicate AutoTuneEnabled(rq: RetrievalQuality) {
    rq.autoTune.Some? && rq.autoTune.value.enabled == Some(true)
  }

  function AutoTuneMax(rq: RetrievalQuality): int {
    if rq.autoTune.None? || rq.autoTune.value.maxAttempts == 0 then 3
    else rq.autoTune.value.maxAttempts
  }

  /** The recall gate: a target of zero accepts everything. */
  predicate BelowTarget(rq: RetrievalQuality, recall: int) {
    rq.minimumRecallPercent > 0 && recall < rq.minimumRecallPercent
  }

  // ---------------------------------------------------------------------------
  // Status
  // ---------------------------------------------------------------------------

  datatype Phase = NoPhase | Ingesting | Ready | Degraded | Failed | Suspended

  datatype JobName = IngestJob(round: int) | EvalJob(round: int)

  datatype EvalResult = EvalResult(recallPercent: int, queries: int)

  /** A result with the instant at which it was written back. */
  datatype Evaluation = Evaluation(result: EvalResult, time: int)

  datatype Status = Status(
    phase: Phase,
    observedSpecHash: Option<CorpusHash>,
    lastFailedSpecHash: Option<CorpusHash>,
    lastFailureTime: Option<int>,
    observedEmbeddingModel: string,
    effectiveChunking: Option<Chunking>,
    autoTuneAttempts: int,
    pendingRetune: bool,
    bestRecallPercent: int,
    bestChunking: Option<Chunking>,
    evalRound: int,
    ingestRound: int,
    indexedChunks: int,
    lastIndexedTime: Option<int>,
    evaluation: Option<Evaluation>,
    activeJob: Option<JobName>,
    activeJobStartedAt: Option<int>,
    deferCronIngest: bool)
  {
    function Effective(spec: Spec): Chunking {
      if effectiveChunking.Some? then effectiveChunking.value else SpecChunking(spec)
    }

    predicate UserEdited(desired: CorpusHash) {
      effectiveChunking.Some? && observedSpecHash.Some? && observedSpecHash.value != desired
    }

    function WithoutActiveJob(): Status {
      this.(activeJob := None, activeJobStartedAt := None)
    }

    /** The start of a pass: no tuned override once the user has edited the corpus
        spec. */
    function Refreshed(spec: Spec): Status {
      if UserEdited(HashOf(spec)) then
        this.(effectiveChunking := None, autoTuneAttempts := 0, bestChunking := None,
              bestRecallPercent := 0, pendingRetune := false)
      else this
    }

    function AutoTuned(spec: Spec): Status {
      this.(effectiveChunking := Some(NextChunking(Effective(spec))),
            autoTuneAttempts := autoTuneAttempts + 1,
            pendingRetune := true,
            evaluation := None)
    }

    function WithBest(spec: Spec, recall: int): Status {
      if bestChunking.None? || recall > bestRecallPercent then
        this.(bestChunking := Some(Effective(spec)), bestRecallPercent := recall)
      else this
    }

    predicate CanSettle(spec: Spec) {
      bestChunking.Some? && Effective(spec) != bestChunking.value
    }

    function Settled(spec: Spec): Status {
      if CanSettle(spec) then
        this.(effectiveChunking := bestChunking, pendingRetune := true, evaluation := None)
      else this
    }

    function RecallMet(): Status {
      this.(phase := Ready, autoTuneAttempts := 0, bestChunking := None, bestRecallPercent := 0)
    }

    /** Below target: tune again, or land on the best configuration, or degrade. */
    function RecallMissed(spec: Spec, rq: RetrievalQuality, recall: int): Status {
      var s := WithBest(spec, recall);
      if AutoTuneEnabled(rq) && s.autoTuneAttempts < AutoTuneMax(rq) then s.AutoTuned(spec)
      else if AutoTuneEnabled(rq) && s.CanSettle(spec) then s.Settled(spec)
      else s.(phase := Degraded)
    }

    /** The whole write-back of a finished evaluation. Without queries there is no
        gate. */
    function Evaluated(spec: Spec, rq: RetrievalQuality, result: EvalResult, now: int): (t: Status)
      ensures t.activeJob.None? && t.ingestRound == ingestRound && t.evalRound == evalRound
      ensures t.observedSpecHash == observedSpecHash && t.observedEmbeddingModel == observedEmbeddingModel
    {
      var s := WithoutActiveJob().(evaluation := Some(Evaluation(result, now)));
      if result.queries == 0 then s
      else if !BelowTarget(rq, result.recallPercent) then s.RecallMet()
      else s.RecallMissed(spec, rq, result.recallPercent)
    }

    /** The write-back of a successful ingest. */
    function Ingested(spec: Spec, eff: Chunking, hash: CorpusHash, chunks: int, now: int): Status {
      this.(phase := Ready,
            observedSpecHash := Some(hash),
            lastFailedSpecHash := None,
            lastFailureTime := None,
            observedEmbeddingModel := spec.embedding.model,
            effectiveChunking := Some(eff),
            pendingRetune := false,
            indexedChunks := chunks,
            lastIndexedTime := Some(now),
            activeJob := None,
            activeJobStartedAt := None)
    }

    /** The write-back of a failed ingest. */
    function IngestFailed(hash: CorpusHash, now: int): Status {
      WithoutActiveJob().(phase := Failed,
                          lastFailedSpecHash := Some(hash),
                          lastFailureTime := Some(now))
    }

    /** Reasons to ingest that do not depend on the clock or the deferral flag. */
    predicate OwesIngest(spec: Spec) {
      || pendingRetune
      || observedSpecHash.None?
      || observedEmbeddingModel != spec.embedding.model
      || observedSpecHash.value != HashOf(spec)
    }
  }

  const EMPTY_STATUS: Status :=
    Status(NoPhase, None, None, None, "", None, 0, false, 0, None, 0, 0, 0, None, None, None, None, false)

  datatype Reason =
    | DeferredCron | AutoTuneReindex | InitialIngestion | ModelChanged | SpecChanged | FreshnessElapsed

  /** Whether and why the store is stale. `freshnessDue` is the cron oracle. */
  function IngestReason(s: Status, spec: Spec, freshnessDue: bool): (r: Option<Reason>)
    ensures r.None? ==> !s.OwesIngest(spec)
    ensures s.OwesIngest(spec) ==> r.Some? && r.value != FreshnessElapsed
  {
    if s.deferCronIngest && s.activeJob.None? then Some(DeferredCron)
    else if s.pendingRetune then Some(AutoTuneReindex)
    else if s.observedSpecHash.None? then Some(InitialIngestion)
    else if s.observedEmbeddingModel != spec.embedding.model then Some(ModelChanged)
    else if s.observedSpecHash.value != HashOf(spec) then Some(SpecChanged)
    else if spec.freshnessSchedule != "" && freshnessDue then Some(FreshnessElapsed)
    else None
  }

  /** Whether an evaluation is due. `evalFires` is the cron oracle. */
  predicate EvalDue(s: Status, spec: Spec, evalFires: bool) {
    && spec.retrievalQuality.Some?
    && spec.retrievalQuality.value.enabled != Some(false)
    && (s.phase == Ready || s.phase == Degraded)
    && s.indexedChunks != 0
    && (s.evaluation.None? || (spec.retrievalQuality.value.evalSchedule != "" && evalFires))
  }

  // ---------------------------------------------------------------------------
  // The in-memory copy a pass works on
  // ---------------------------------------------------------------------------

  class Record {
    const spec: Spec

    var phase: Phase
    var observedSpecHash: Option<CorpusHash>
    var lastFailedSpecHash: Option<CorpusHash>
    var lastFailureTime: Option<int>
    var observedEmbeddingModel: string
    var effectiveChunking: Option<Chunking>
    var autoTuneAttempts: int
    var pendingRetune: bool
    var bestRecallPercent: int
    var bestChunking: Option<Chunking>
    var evalRound: int
    var ingestRound: int
    var indexedChunks: int
    var lastIndexedTime: Option<int>
    var evaluation: Option<Evaluation>
    var activeJob: Option<JobName>
    var activeJobStartedAt: Option<int>
    var deferCronIngest: bool

    constructor (spec: Spec, s: Status)
      ensures this.spec == spec && Snapshot() == s
    {
      this.spec := spec;
      phase := s.phase;
      observedSpecHash := s.observedSpecHash;
      lastFailedSpecHash := s.lastFailedSpecHash;
      lastFailureTime := s.lastFailureTime;
      observedEmbeddingModel := s.observedEmbeddingModel;
      effectiveChunking := s.effectiveChunking;
      autoTuneAttempts := s.autoTuneAttempts;
      pendingRetune := s.pendingRetune;
      bestRecallPercent := s.bestRecallPercent;
      bestChunking := s.bestChunking;
      evalRound := s.evalRound;
      ingestRound := s.ingestRound;
      indexedChunks := s.indexedChunks;
      lastIndexedTime := s.lastIndexedTime;
      evaluation := s.evaluation;
      activeJob := s.activeJob;
      activeJobStartedAt := s.activeJobStartedAt;
      deferCronIngest := s.deferCronIngest;
    }

    function Snapshot(): Status
      reads this
    {
      Status(phase, observedSpecHash, lastFailedSpecHash, lastFailureTime,
             observedEmbeddingModel, effectiveChunking, autoTuneAttempts, pendingRetune,
             bestRecallPercent, bestChunking, evalRound, ingestRound, indexedChunks, lastIndexedTime, evaluation,
             activeJob, activeJobStartedAt, deferCronIngest)
    }

    function EffectiveChunking(): Chunking
      reads this
    {
      Snapshot().Effective(spec)
    }

    method ClearActiveJob()
      modifies this
      ensures Snapshot() == old(Snapshot()).WithoutActiveJob()
    {
      activeJob := None;
      activeJobStartedAt := None;
    }

    method ResetIfEdited()
      modifies this
      ensures Snapshot() == old(Snapshot()).Refreshed(spec)
    {
      if Snapshot().UserEdited(HashOf(spec)) {
        effectiveChunking := None;
        autoTuneAttempts := 0;
        bestChunking := None;
        bestRecallPercent := 0;
        pendingRetune := false;
      }
    }

    method ApplyAutoTune()
      modifies this
      ensures Snapshot() == old(Snapshot()).AutoTuned(spec)
    {
      var eff := NextChunking(EffectiveChunking());
      effectiveChunking := Some(eff);
      autoTuneAttempts := autoTuneAttempts + 1;
      pendingRetune := true;
      evaluation := None;
    }

    method RecordBest(recall: int)
      modifies this
      ensures Snapshot() == old(Snapshot()).WithBest(spec, recall)
    {
      if bestChunking.None? || recall > bestRecallPercent {
        bestChunking := Some(EffectiveChunking());
        bestRecallPercent := recall;
      }
    }

    method SettleOnBest() returns (reverted: bool)
      modifies this
      ensures reverted == old(Snapshot()).CanSettle(spec)
      ensures Snapshot() == old(Snapshot()).Settled(spec)
    {
      if bestChunking.None? || EffectiveChunking() == bestChunking.value {
        return false;
      }
      effectiveChunking := bestChunking;
      pendingRetune := true;
      evaluation := None;
      return true;
    }

    /** The recall gate and the tuning transitions. */
    method GateOnRecall(rq: RetrievalQuality, result: EvalResult, now: int)
      modifies this
      ensures Snapshot() == old(Snapshot()).Evaluated(spec, rq, result, now)
    {
      ClearActiveJob();
      evaluation := Some(Evaluation(result, now));
      if result.queries == 0 {
        return;
      }
      var target := rq.minimumRecallPercent;
      var below := target > 0 && result.recallPercent < target;
      if !below {
        phase := Ready;
        autoTuneAttempts := 0;
        bestChunking := None;
        bestRecallPercent := 0;
        return;
      }
      RecordBest(result.recallPercent);
      if AutoTuneEnabled(rq) {
        if autoTuneAttempts < AutoTuneMax(rq) {
          ApplyAutoTune();
          return;
        }
        var reverted := SettleOnBest();
        if reverted {
          return;
        }
      }
      phase := Degraded;
    }

    method MarkObserved(hash: CorpusHash)
      modifies this
      ensures Snapshot() == old(Snapshot()).(observedSpecHash := Some(hash), lastFailedSpecHash := None,
                                             lastFailureTime := None,
                                             observedEmbeddingModel := spec.embedding.model)
    {
      observedSpecHash := Some(hash);
      lastFailedSpecHash := None;
      lastFailureTime := None;
      observedEmbeddingModel := spec.embedding.model;
    }

    method MarkEffective(eff: Chunking, chunks: int, now: int)
      modifies this
      ensures Snapshot() == old(Snapshot()).(effectiveChunking := Some(eff), pendingRetune := false,
                                             indexedChunks := chunks, lastIndexedTime := Some(now))
    {
      effectiveChunking := Some(eff);
      pendingRetune := false;
      indexedChunks := chunks;
      lastIndexedTime := Some(now);
    }

    method MarkIngested(eff: Chunking, hash: CorpusHash, chunks: int, now: int)
      modifies this
      ensures Snapshot() == old(Snapshot()).Ingested(spec, eff, hash, chunks, now)
    {
      phase := Ready;
      MarkObserved(hash);
      MarkEffective(eff, chunks, now);
      ClearActiveJob();
    }

    method BeginIngestRound()
      modifies this
      ensures Snapshot() == old(Snapshot()).(deferCronIngest := false, ingestRound := old(ingestRound) + 1)
    {
      deferCronIngest := false;
      ingestRound := ingestRound + 1;
    }

    method SetActiveJob(name: JobName, now: int)
      modifies this
      ensures Snapshot() == old(Snapshot()).(activeJob := Some(name), activeJobStartedAt := Some(now))
    {
      activeJob := Some(name);
      activeJobStartedAt := Some(now);
    }

    method MarkIngestFailed(hash: CorpusHash, now: int)
      modifies this
      ensures Snapshot() == old(Snapshot()).IngestFailed(hash, now)
    {
      phase := Failed;
      activeJob := None;
      activeJobStartedAt := None;
      lastFailedSpecHash := Some(hash);
      lastFailureTime := Some(now);
    }
  }
}
