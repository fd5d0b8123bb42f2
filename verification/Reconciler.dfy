/** One pass of the KnowledgeBase controller over the API server's state. */
module Reconciler {
  import opened Common
  import opened Tuning
  import opened KnowledgeBase
  import ChunkingLabel

  datatype JobState = Running | Complete | FailedJob

  /** What a finished worker leaves in its result ConfigMap. */
  datatype WorkerResult = NoResult | IngestedChunks(total: int) | Measured(result: EvalResult)

  /** A Job object. `promoted` and `measured` record what the worker did to the
      store and which chunking an evaluation really ran against; the controller
      never reads them. */
  datatype Job = Job(
    specHash: CorpusHash,
    secretsHash: string,
    chunkingLabel: string,
    mode: IngestMode,
    workerChunking: Chunking,
    activeDeadlineSeconds: int,
    state: JobState,
    result: WorkerResult,
    promoted: bool,
    measured: Option<Chunking>)

  /** What the API server holds for one KnowledgeBase. */
  datatype Cluster = Cluster(status: Status, jobs: map<JobName, Job>)

  /** What a pass learns from outside: the clock, the two cron oracles, and whether
      the result ConfigMap is visible yet. */
  datatype Tick = Tick(now: int, freshnessDue: bool, evalFires: bool, resultVisible: bool)

  const INGEST_FAILURE_RETRY_DELAY := 300
  const DEADLINE_GRACE := 600

  // ---------------------------------------------------------------------------
  // The pass as a function
  // ---------------------------------------------------------------------------

  predicate IngestIsStale(name: JobName, job: Job, spec: Spec, secrets: string) {
    name.IngestJob? && (job.specHash != HashOf(spec) || job.secretsHash != secrets)
  }

  predicate TimedOut(job: Job, started: Option<int>, now: int) {
    started.Some? && now > started.value + job.activeDeadlineSeconds + DEADLINE_GRACE
  }

  predicate RetryWait(s: Status, desired: CorpusHash, now: int) {
    && s.phase == Failed
    && s.lastFailedSpecHash == Some(desired)
    && s.lastFailureTime.Some?
    && s.lastFailureTime.value + INGEST_FAILURE_RETRY_DELAY > now
  }

  /** Either the pass has ended, or it goes on with the in-memory status `st`. */
  datatype Step = Handled(cluster: Cluster) | Proceed(cluster: Cluster, st: Status)

  /** Cancels a stale ingest and clears a Job that outlived its deadline. */
  function ClearDeadJob(c: Cluster, st: Status, spec: Spec, secrets: string, now: int): Step {
    if st.activeJob.None? || st.activeJob.value !in c.jobs then Proceed(c, st)
    else
      var name := st.activeJob.value;
      var job := c.jobs[name];
      if IngestIsStale(name, job, spec, secrets) then
        var st' := st.WithoutActiveJob();
        Proceed(Cluster(st', c.jobs - {name}), st')
      else if TimedOut(job, st.activeJobStartedAt, now) then
        var st' := st.IngestFailed(HashOf(spec), now);
        Proceed(Cluster(st', c.jobs - {name}), st')
      else Proceed(c, st)
  }

  function FinalizedIngest(c: Cluster, st: Status, name: JobName, job: Job, eff: Chunking, spec: Spec,
      tick: Tick): Cluster {
    if job.state == FailedJob then
      Cluster(st.IngestFailed(job.specHash, tick.now), c.jobs - {name})
    else if !tick.resultVisible || !job.result.IngestedChunks? then c
    else
      Cluster(st.Ingested(spec, ChunkingLabel.Decode(job.chunkingLabel, eff), job.specHash,
                          job.result.total, tick.now),
              c.jobs - {name})
  }

  /** With the gate's configuration removed while the evaluation ran, Go panics on
      the nil pointer before anything is written. */
  function FinalizedEval(c: Cluster, st: Status, job: Job, spec: Spec, tick: Tick): Cluster {
    if job.state == FailedJob then c.(status := st.WithoutActiveJob())
    else if !tick.resultVisible || !job.result.Measured? then c
    else if spec.retrievalQuality.None? then
      if job.result.result.queries == 0 then
        c.(status := st.WithoutActiveJob().(evaluation := Some(Evaluation(job.result.result, tick.now))))
      else c
    else c.(status := st.Evaluated(spec, spec.retrievalQuality.value, job.result.result, tick.now))
  }

  function FinishedActiveJob(c: Cluster, st: Status, eff: Chunking, spec: Spec, tick: Tick): Step
    requires st.activeJob.Some?
  {
    var name := st.activeJob.value;
    if name !in c.jobs then
      var st' := st.WithoutActiveJob();
      Proceed(c.(status := st'), st')
    else
      var job := c.jobs[name];
      if job.state == Running then
        if name.IngestJob? && spec.freshnessSchedule != "" && tick.freshnessDue then
          Handled(c.(status := st.(deferCronIngest := true)))
        else Handled(c)
      else if name.IngestJob? then Handled(FinalizedIngest(c, st, name, job, eff, spec, tick))
      else Handled(FinalizedEval(c, st, job, spec, tick))
  }

  function ModeFor(reason: Reason, spec: Spec): IngestMode {
    if reason == FreshnessElapsed || reason == DeferredCron then
      if spec.ingestionMode.Some? then spec.ingestionMode.value else Incremental
    else Full
  }

  function NewJob(eff: Chunking, spec: Spec, secrets: string, mode: IngestMode): Job {
    Job(HashOf(spec), secrets, ChunkingLabel.Encode(eff), mode, FillDefaults(eff),
        spec.activeDeadlineSeconds, Running, NoResult, false, None)
  }

  function IngestStarted(c: Cluster, st: Status, eff: Chunking, spec: Spec, secrets: string, reason: Reason,
                         now: int): Cluster {
    var name := IngestJob(st.ingestRound + 1);
    if name in c.jobs then c
    else
      Cluster(st.(deferCronIngest := false, ingestRound := st.ingestRound + 1, phase := Ingesting,
                  activeJob := Some(name), activeJobStartedAt := Some(now)),
              c.jobs[name := NewJob(eff, spec, secrets, ModeFor(reason, spec))])
  }

  function EvalStarted(c: Cluster, st: Status, eff: Chunking, spec: Spec, secrets: string, now: int): Cluster {
    var name := EvalJob(st.evalRound + 1);
    if name in c.jobs then c
    else
      Cluster(st.(evalRound := st.evalRound + 1, activeJob := Some(name), activeJobStartedAt := Some(now)),
              c.jobs[name := NewJob(eff, spec, secrets, Full)])
  }

  /** The decision at the end of a pass: ingestion before evaluation. */
  function Decided(c: Cluster, st: Status, eff: Chunking, spec: Spec, secrets: string, tick: Tick): Cluster {
    if RetryWait(st, HashOf(spec), tick.now) then c
    else
      var reason := IngestReason(st, spec, tick.freshnessDue);
      if reason.Some? then IngestStarted(c, st, eff, spec, secrets, reason.value, tick.now)
      else if EvalDue(st, spec, tick.evalFires) then EvalStarted(c, st, eff, spec, secrets, tick.now)
      else c
  }

  /** Everything a pass does before it looks for new work. */
  function BeforeDecision(c: Cluster, st: Status, eff: Chunking, spec: Spec, secrets: string, tick: Tick): (step: Step)
    ensures step.Proceed? ==>
              && step.st.activeJob.None?
              && step.st.effectiveChunking == st.effectiveChunking
              && step.st.observedSpecHash == st.observedSpecHash
              && step.st.observedEmbeddingModel == st.observedEmbeddingModel
              && step.st.pendingRetune == st.pendingRetune
              && step.st.deferCronIngest == st.deferCronIngest
              && step.cluster.jobs.Keys <= c.jobs.Keys
    ensures step.Handled? ==> step.cluster.jobs.Keys <= c.jobs.Keys
  {
    var cleared := ClearDeadJob(c, st, spec, secrets, tick.now);
    if cleared.st.activeJob.Some? then FinishedActiveJob(cleared.cluster, cleared.st, eff, spec, tick)
    else cleared
  }

  /** What is left in the API server when the pass returns. In-memory changes on a
      path without a status update are lost. */
  function Pass(c: Cluster, spec: Spec, secrets: string, tick: Tick): Cluster {
    if spec.suspend then
      c.(status := c.status.(phase := Suspended))
    else
      var st := c.status.Refreshed(spec);
      var eff := st.Effective(spec);
      match BeforeDecision(c, st, eff, spec, secrets, tick)
      case Handled(c') => c'
      case Proceed(c', st') => Decided(c', st', eff, spec, secrets, tick)
  }

  // ---------------------------------------------------------------------------
  // The pass as the controller runs it
  // ---------------------------------------------------------------------------

  class ApiServer {
    const spec: Spec
    const secrets: string
    var status: Status
    var jobs: map<JobName, Job>

    constructor (spec: Spec, secrets: string, c: Cluster)
      ensures this.spec == spec && this.secrets == secrets && Contents() == c
    {
      this.spec, this.secrets := spec, secrets;
      status, jobs := c.status, c.jobs;
    }

    function Contents(): Cluster
      reads this
    {
      Cluster(status, jobs)
    }

    method UpdateStatus(kb: Record)
      modifies this`status
      ensures status == kb.Snapshot()
    {
      status := kb.Snapshot();
    }

    method DeleteJob(name: JobName)
      modifies this`jobs
      ensures jobs == old(jobs) - {name}
    {
      jobs := jobs - {name};
    }

    method CreateJob(name: JobName, job: Job) returns (created: bool)
      modifies this`jobs
      ensures created == (name !in old(jobs))
      ensures jobs == if created then old(jobs)[name := job] else old(jobs)
    {
      created := name !in jobs;
      if created {
        jobs := jobs[name := job];
      }
    }
  }

  class KnowledgeBaseReconciler {
    const api: ApiServer

    constructor (api: ApiServer)
      ensures this.api == api
    {
      this.api := api;
    }

    method FinalizeIngest(kb: Record, name: JobName, job: Job, eff: Chunking, tick: Tick)
      requires kb.spec == api.spec && kb as object != api
      modifies api, kb
      ensures api.Contents() == FinalizedIngest(old(api.Contents()), old(kb.Snapshot()), name, job, eff, api.spec, tick)
    {
      if job.state == FailedJob {
        kb.MarkIngestFailed(job.specHash, tick.now);
        api.UpdateStatus(kb);
        api.DeleteJob(name);
        return;
      }
      if !tick.resultVisible || !job.result.IngestedChunks? {
        return;
      }
      var labelled := ChunkingLabel.Decode(job.chunkingLabel, eff);
      kb.MarkIngested(labelled, job.specHash, job.result.total, tick.now);
      api.UpdateStatus(kb);
      api.DeleteJob(name);
    }

    method FinalizeEval(kb: Record, job: Job, tick: Tick)
      requires kb.spec == api.spec && kb as object != api
      modifies api, kb
      ensures api.Contents() == FinalizedEval(old(api.Contents()), old(kb.Snapshot()), job, api.spec, tick)
    {
      if job.state == FailedJob {
        kb.ClearActiveJob();
        api.UpdateStatus(kb);
        return;
      }
      if !tick.resultVisible || !job.result.Measured? {
        return;
      }
      var result := job.result.result;
      if kb.spec.retrievalQuality.None? {
        if result.queries == 0 {
          kb.ClearActiveJob();
          kb.evaluation := Some(Evaluation(result, tick.now));
          api.UpdateStatus(kb);
        }
        return;
      }
      kb.GateOnRecall(kb.spec.retrievalQuality.value, result, tick.now);
      api.UpdateStatus(kb);
    }

    method ReconcileActiveJob(kb: Record, eff: Chunking, tick: Tick) returns (handled: bool)
      requires kb.spec == api.spec && kb as object != api && kb.activeJob.Some?
      modifies api, kb
      ensures var step := FinishedActiveJob(old(api.Contents()), old(kb.Snapshot()), eff, api.spec, tick);
              && handled == step.Handled?
              && api.Contents() == step.cluster
              && (step.Proceed? ==> kb.Snapshot() == step.st)
    {
      var name := kb.activeJob.value;
      if name !in api.jobs {
        kb.ClearActiveJob();
        api.UpdateStatus(kb);
        return false;
      }
      var job := api.jobs[name];
      if job.state == Running {
        if name.IngestJob? && kb.spec.freshnessSchedule != "" && tick.freshnessDue {
          kb.deferCronIngest := true;
          api.UpdateStatus(kb);
        }
        return true;
      }
      if name.IngestJob? {
        FinalizeIngest(kb, name, job, eff, tick);
      } else {
        FinalizeEval(kb, job, tick);
      }
      return true;
    }

    method StartIngest(kb: Record, eff: Chunking, reason: Reason, now: int)
      requires kb.spec == api.spec && kb as object != api
      modifies api, kb
      ensures api.Contents() == IngestStarted(old(api.Contents()), old(kb.Snapshot()), eff, api.spec, api.secrets,
          reason, now)
    {
      var mode := ModeFor(reason, kb.spec);
      kb.BeginIngestRound();
      var name := IngestJob(kb.ingestRound);
      var created := api.CreateJob(name, NewJob(eff, kb.spec, api.secrets, mode));
      if !created {
        return;
      }
      kb.phase := Ingesting;
      kb.SetActiveJob(name, now);
      api.UpdateStatus(kb);
    }

    method StartEval(kb: Record, eff: Chunking, now: int)
      requires kb.spec == api.spec && kb as object != api
      modifies api, kb
      ensures api.Contents() == EvalStarted(old(api.Contents()), old(kb.Snapshot()), eff, api.spec, api.secrets, now)
    {
      kb.evalRound := kb.evalRound + 1;
      var name := EvalJob(kb.evalRound);
      var created := api.CreateJob(name, NewJob(eff, kb.spec, api.secrets, Full));
      if !created {
        return;
      }
      kb.SetActiveJob(name, now);
      api.UpdateStatus(kb);
    }

    method CancelOrExpire(kb: Record, now: int)
      requires kb.spec == api.spec && kb as object != api
      modifies api, kb
      ensures var step := ClearDeadJob(old(api.Contents()), old(kb.Snapshot()), api.spec, api.secrets, now);
              api.Contents() == step.cluster && kb.Snapshot() == step.st
    {
      if kb.activeJob.None? || kb.activeJob.value !in api.jobs {
        return;
      }
      var name := kb.activeJob.value;
      var active := api.jobs[name];
      if IngestIsStale(name, active, kb.spec, api.secrets) {
        api.DeleteJob(name);
        kb.ClearActiveJob();
        api.UpdateStatus(kb);
      } else if TimedOut(active, kb.activeJobStartedAt, now) {
        api.DeleteJob(name);
        kb.MarkIngestFailed(HashOf(kb.spec), now);
        api.UpdateStatus(kb);
      }
    }

    method Reconcile(tick: Tick)
      modifies api
      ensures api.Contents() == Pass(old(api.Contents()), api.spec, api.secrets, tick)
    {
      var kb := new Record(api.spec, api.status);
      if kb.spec.suspend {
        if kb.phase != Suspended {
          kb.phase := Suspended;
          api.UpdateStatus(kb);
        }
        return;
      }
      kb.ResetIfEdited();
      var eff := kb.EffectiveChunking();
      CancelOrExpire(kb, tick.now);
      if kb.activeJob.Some? {
        var handled := ReconcileActiveJob(kb, eff, tick);
        if handled {
          return;
        }
      }
      if RetryWait(kb.Snapshot(), HashOf(kb.spec), tick.now) {
        return;
      }
      var reason := IngestReason(kb.Snapshot(), kb.spec, tick.freshnessDue);
      if reason.Some? {
        StartIngest(kb, eff, reason.value, tick.now);
      } else if EvalDue(kb.Snapshot(), kb.spec, tick.evalFires) {
        StartEval(kb, eff, tick.now);
      }
    }
  }
}
