/** Whole runs of the controller: reconcile passes interleaved with what workers,
    garbage collection and users do between them. */
module ControllerRuns {
  import opened Common
  import opened Tuning
  import opened KnowledgeBase
  import opened Reconciler
  import ChunkingLabel

  /** `store` is the chunking of the data the active name resolves to; the
      controller cannot see it. */
  datatype World = World(spec: Spec, secrets: string, cluster: Cluster, store: Option<Chunking>)
  {
    function Status(): Status { cluster.status }

    function Effective(): Chunking { cluster.status.Effective(spec) }

    /** The active Job, while it still exists. */
    function Active(): Option<Job> {
      var s := cluster.status;
      if s.activeJob.Some? && s.activeJob.value in cluster.jobs then Some(cluster.jobs[s.activeJob.value])
      else None
    }
  }

  datatype Event =
    | Reconcile(tick: Tick)
    | Promote(name: JobName)
    | Succeed(name: JobName, result: WorkerResult)
    | Fail(name: JobName, dropsStaging: bool)
    | Vanish(name: JobName)
    | RotateSecrets(secrets: string)
    | EditSpec(spec: Spec)

  predicate RunningJob(w: World, name: JobName) {
    name in w.cluster.jobs && w.cluster.jobs[name].state == Running
  }

  /** A full ingest ends well only after promoting its staging collection; an
      incremental one may also find every source unchanged, unless the store is
      empty. */
  predicate CanSucceed(w: World, name: JobName, result: WorkerResult)
    requires name in w.cluster.jobs
  {
    var job := w.cluster.jobs[name];
    if name.IngestJob? then
      result.IngestedChunks? && (job.promoted || (job.mode == Incremental && w.store.Some?))
    else result.Measured?
  }

  function Apply(w: World, e: Event): World {
    match e
    case Reconcile(tick) => w.(cluster := Pass(w.cluster, w.spec, w.secrets, tick))
    case Promote(name) =>
      if RunningJob(w, name) && name.IngestJob? then
        var job := w.cluster.jobs[name];
        w.(store := Some(job.workerChunking),
           cluster := w.cluster.(jobs := w.cluster.jobs[name := job.(promoted := true)]))
      else w
    case Succeed(name, result) =>
      if RunningJob(w, name) && CanSucceed(w, name, result) then
        var job := w.cluster.jobs[name].(state := Complete, result := result,
                                         measured := if name.EvalJob? then w.store else None);
        w.(cluster := w.cluster.(jobs := w.cluster.jobs[name := job]))
      else w
    case Fail(name, dropsStaging) =>
      if RunningJob(w, name) then
        var job := w.cluster.jobs[name];
        w.(store := if name.IngestJob? && job.promoted && dropsStaging then None else w.store,
           cluster := w.cluster.(jobs := w.cluster.jobs[name := job.(state := FailedJob)]))
      else w
    case Vanish(name) => w.(cluster := w.cluster.(jobs := w.cluster.jobs - {name}))
    case RotateSecrets(secrets) => w.(secrets := secrets)
    case EditSpec(spec) => w.(spec := spec)
  }

  function Run(w: World, es: seq<Event>): World
    decreases |es|
  {
    if es == [] then w else Run(Apply(w, es[0]), es[1..])
  }

  // ---------------------------------------------------------------------------
  // Invariant 1: every run, spec edits included
  // ---------------------------------------------------------------------------

  /** What CRD validation guarantees about the chunking a user may ask for. */
  predicate SpecOk(spec: Spec) {
    NonNegative(spec.chunking) && '.' !in spec.chunking.strategy
  }

  predicate Filled(c: Chunking) {
    ChunkingLabel.LabelSafe(c) && c.maxTokens >= 1 && c.overlap >= 1
  }

  /** A Job whose label says what its worker was told to do. */
  predicate Labelled(job: Job) {
    Filled(job.workerChunking) && job.chunkingLabel == ChunkingLabel.Encode(job.workerChunking)
  }

  predicate JobOk(active: Option<JobName>, ingestRound: int, evalRound: int, everIngested: bool, name: JobName,
                  job: Job) {
    && (job.state == Running ==> active == Some(name))
    && match name
       case IngestJob(round) => active == Some(name) && round <= ingestRound && Labelled(job)
       case EvalJob(round) => round <= evalRound && everIngested
  }

  ghost predicate JobsOk(active: Option<JobName>, ingestRound: int, evalRound: int, everIngested: bool,
                         jobs: map<JobName, Job>) {
    forall n | n in jobs :: JobOk(active, ingestRound, evalRound, everIngested, n, jobs[n])
  }

  predicate ConfigsOk(s: Status) {
    && (s.effectiveChunking.Some? ==> s.observedSpecHash.Some? && Filled(s.effectiveChunking.value))
    && (s.bestChunking.Some? ==> Filled(s.bestChunking.value))
    && s.autoTuneAttempts >= 0
  }

  ghost predicate WellFormed(s: Status, jobs: map<JobName, Job>) {
    ConfigsOk(s) && JobsOk(s.activeJob, s.ingestRound, s.evalRound, s.observedSpecHash.Some?, jobs)
  }

  ghost predicate Sound(w: World) {
    SpecOk(w.spec) && WellFormed(w.cluster.status, w.cluster.jobs)
  }

  lemma EffectiveIsFilled(s: Status, spec: Spec)
    requires SpecOk(spec) && ConfigsOk(s)
    ensures Filled(s.Effective(spec))
    ensures FillDefaults(s.Effective(spec)) == s.Effective(spec)
  {
    assert '.' !in SEMANTIC;
  }

  lemma NextIsFilled(c: Chunking)
    requires Filled(c)
    ensures Filled(NextChunking(c))
  {
    assert '.' !in SEMANTIC && '.' !in RECURSIVE && '.' !in FIXED;
  }

  lemma EvaluatedConfigsOk(s: Status, spec: Spec, rq: RetrievalQuality, r: EvalResult, now: int)
    requires SpecOk(spec) && ConfigsOk(s) && s.observedSpecHash.Some?
    ensures ConfigsOk(s.Evaluated(spec, rq, r, now))
  {
    EffectiveIsFilled(s, spec);
    NextIsFilled(s.Effective(spec));
    var t := s.WithoutActiveJob().(evaluation := Some(Evaluation(r, now)));
    if r.queries != 0 && BelowTarget(rq, r.recallPercent) {
      var b := t.WithBest(spec, r.recallPercent);
      assert ConfigsOk(b) && b.Effective(spec) == s.Effective(spec);
      assert ConfigsOk(b.AutoTuned(spec));
      assert ConfigsOk(b.Settled(spec));
    }
  }

  /** Without its active Job, or with that Job no longer running, nothing runs. */
  lemma NothingElseRuns(active: JobName, i: int, e: int, ever: bool, jobs: map<JobName, Job>)
    requires JobsOk(Some(active), i, e, ever, jobs)
    ensures JobsOk(None, i, e, ever, jobs - {active})
    ensures (active in jobs ==> active.EvalJob? && jobs[active].state != Running) ==> JobsOk(None, i, e, ever, jobs)
    ensures JobsOk(None, i, e, true, jobs - {active})
  {
    assert forall n | n in jobs :: JobOk(Some(active), i, e, ever, n, jobs[n]);
  }

  lemma ClearDeadJobWellFormed(c: Cluster, st: Status, spec: Spec, secrets: string, now: int)
    requires WellFormed(c.status, c.jobs) && WellFormed(st, c.jobs)
    ensures var step := ClearDeadJob(c, st, spec, secrets, now);
            && WellFormed(step.cluster.status, step.cluster.jobs)
            && WellFormed(step.st, step.cluster.jobs)
  {
    if st.activeJob.Some? {
      DroppedWellFormed(st, c.jobs, st.activeJob.value);
      FailedWellFormed(st, c.jobs, st.activeJob.value, HashOf(spec), now);
    }
  }

  lemma DroppedWellFormed(s: Status, jobs: map<JobName, Job>, name: JobName)
    requires WellFormed(s, jobs) && s.activeJob == Some(name)
    ensures WellFormed(s.WithoutActiveJob(), jobs - {name})
  {
    NothingElseRuns(name, s.ingestRound, s.evalRound, s.observedSpecHash.Some?, jobs);
  }

  lemma FailedWellFormed(s: Status, jobs: map<JobName, Job>, name: JobName, hash: CorpusHash, now: int)
    requires WellFormed(s, jobs) && s.activeJob == Some(name)
    ensures WellFormed(s.IngestFailed(hash, now), jobs - {name})
  {
    NothingElseRuns(name, s.ingestRound, s.evalRound, s.observedSpecHash.Some?, jobs);
  }

  lemma FinalizedIngestWellFormed(c: Cluster, st: Status, name: JobName, job: Job, eff: Chunking, spec: Spec,
                                  tick: Tick)
    requires WellFormed(c.status, c.jobs) && WellFormed(st, c.jobs)
    requires name.IngestJob? && name in c.jobs && c.jobs[name] == job && st.activeJob == Some(name)
    ensures var c' := FinalizedIngest(c, st, name, job, eff, spec, tick); WellFormed(c'.status, c'.jobs)
  {
    assert JobOk(st.activeJob, st.ingestRound, st.evalRound, st.observedSpecHash.Some?, name, job);
    ChunkingLabel.DecodeOfEncode(job.workerChunking, eff);
    NothingElseRuns(name, st.ingestRound, st.evalRound, st.observedSpecHash.Some?, c.jobs);
  }

  lemma FinalizedEvalWellFormed(c: Cluster, st: Status, name: JobName, job: Job, spec: Spec, tick: Tick)
    requires SpecOk(spec) && WellFormed(c.status, c.jobs) && WellFormed(st, c.jobs)
    requires name.EvalJob? && name in c.jobs && c.jobs[name] == job && st.activeJob == Some(name)
    requires job.state != Running
    ensures var c' := FinalizedEval(c, st, job, spec, tick); WellFormed(c'.status, c'.jobs)
  {
    assert JobOk(st.activeJob, st.ingestRound, st.evalRound, st.observedSpecHash.Some?, name, job);
    NothingElseRuns(name, st.ingestRound, st.evalRound, st.observedSpecHash.Some?, c.jobs);
    if job.state == FailedJob {
      assert WellFormed(st.WithoutActiveJob(), c.jobs);
    } else if tick.resultVisible && job.result.Measured? {
      if spec.retrievalQuality.Some? {
        EvaluatedConfigsOk(st, spec, spec.retrievalQuality.value, job.result.result, tick.now);
      } else {
        var e := Evaluation(job.result.result, tick.now);
        assert WellFormed(st.WithoutActiveJob().(evaluation := Some(e)), c.jobs);
      }
    }
  }

  lemma FinishedWellFormed(c: Cluster, st: Status, eff: Chunking, spec: Spec, tick: Tick)
    requires SpecOk(spec) && WellFormed(c.status, c.jobs) && WellFormed(st, c.jobs) && st.activeJob.Some?
    ensures var step := FinishedActiveJob(c, st, eff, spec, tick);
            && WellFormed(step.cluster.status, step.cluster.jobs)
            && (step.Proceed? ==> WellFormed(step.st, step.cluster.jobs))
  {
    var name := st.activeJob.value;
    if name !in c.jobs {
      NothingElseRuns(name, st.ingestRound, st.evalRound, st.observedSpecHash.Some?, c.jobs);
    } else if c.jobs[name].state != Running {
      if name.IngestJob? {
        FinalizedIngestWellFormed(c, st, name, c.jobs[name], eff, spec, tick);
      } else {
        FinalizedEvalWellFormed(c, st, name, c.jobs[name], spec, tick);
      }
    }
  }

  lemma BeforeDecisionWellFormed(c: Cluster, st: Status, eff: Chunking, spec: Spec, secrets: string, tick: Tick)
    requires SpecOk(spec) && WellFormed(c.status, c.jobs) && WellFormed(st, c.jobs)
    ensures var step := BeforeDecision(c, st, eff, spec, secrets, tick);
            && WellFormed(step.cluster.status, step.cluster.jobs)
            && (step.Proceed? ==> WellFormed(step.st, step.cluster.jobs))
  {
    ClearDeadJobWellFormed(c, st, spec, secrets, tick.now);
    var cleared := ClearDeadJob(c, st, spec, secrets, tick.now);
    if cleared.st.activeJob.Some? {
      FinishedWellFormed(cleared.cluster, cleared.st, eff, spec, tick);
    }
  }

  lemma JobAdded(i: int, e: int, ever: bool, jobs: map<JobName, Job>, name: JobName, job: Job)
    requires JobsOk(None, i, e, ever, jobs)
    requires if name.IngestJob? then name.round == i + 1 && Labelled(job) else name.round == e + 1 && ever
    ensures if name.IngestJob? then JobsOk(Some(name), i + 1, e, ever, jobs[name := job])
            else JobsOk(Some(name), i, e + 1, ever, jobs[name := job])
    ensures name !in jobs
  {
    assert forall n | n in jobs :: JobOk(None, i, e, ever, n, jobs[n]);
  }

  lemma DecidedWellFormed(c: Cluster, st: Status, eff: Chunking, spec: Spec, secrets: string, tick: Tick)
    requires SpecOk(spec) && WellFormed(c.status, c.jobs) && WellFormed(st, c.jobs)
    requires st.activeJob.None? && Filled(eff) && FillDefaults(eff) == eff
    ensures var c' := Decided(c, st, eff, spec, secrets, tick); WellFormed(c'.status, c'.jobs)
  {
    var reason := IngestReason(st, spec, tick.freshnessDue);
    if reason.Some? {
      JobAdded(st.ingestRound, st.evalRound, st.observedSpecHash.Some?, c.jobs, IngestJob(st.ingestRound + 1),
               NewJob(eff, spec, secrets, ModeFor(reason.value, spec)));
    } else {
      JobAdded(st.ingestRound, st.evalRound, st.observedSpecHash.Some?, c.jobs, EvalJob(st.evalRound + 1),
               NewJob(eff, spec, secrets, Full));
    }
  }

  lemma PassWellFormed(w: World, tick: Tick)
    requires Sound(w)
    ensures Sound(Apply(w, Reconcile(tick)))
  {
    var c := w.cluster;
    if !w.spec.suspend {
      var st := c.status.Refreshed(w.spec);
      var eff := st.Effective(w.spec);
      EffectiveIsFilled(st, w.spec);
      BeforeDecisionWellFormed(c, st, eff, w.spec, w.secrets, tick);
      var step := BeforeDecision(c, st, eff, w.spec, w.secrets, tick);
      if step.Proceed? {
        DecidedWellFormed(step.cluster, step.st, eff, w.spec, w.secrets, tick);
      }
    }
  }

  /** Every event keeps the world sound; a spec edit must itself pass validation. */
  lemma EventKeepsSound(w: World, e: Event)
    requires Sound(w) && (e.EditSpec? ==> SpecOk(e.spec))
    ensures Sound(Apply(w, e))
  {
    if e.Reconcile? {
      PassWellFormed(w, e.tick);
    }
  }

  lemma FreshWorldIsSound(spec: Spec, secrets: string)
    requires SpecOk(spec)
    ensures Sound(FreshWorld(spec, secrets))
  {
  }

  /** A KnowledgeBase just created over an empty store. */
  function FreshWorld(spec: Spec, secrets: string): World {
    World(spec, secrets, Cluster(EMPTY_STATUS, map[]), None)
  }

  // ---------------------------------------------------------------------------
  // A user edit always wins
  // ---------------------------------------------------------------------------

  /** The ingest Job a pass launches, if it launches one. */
  function LaunchedIngest(w: World, tick: Tick): Option<Job> {
    var c := Apply(w, Reconcile(tick)).cluster;
    var a := c.status.activeJob;
    if a.Some? && a.value.IngestJob? && a.value in c.jobs && a.value !in w.cluster.jobs then Some(c.jobs[a.value])
    else None
  }

  lemma DecidedLaunch(c: Cluster, st: Status, eff: Chunking, spec: Spec, secrets: string, tick: Tick, name: JobName)
    requires st.activeJob.None? && name.IngestJob? && name !in c.jobs
    requires name in Decided(c, st, eff, spec, secrets, tick).jobs
    ensures var reason := IngestReason(st, spec, tick.freshnessDue);
            && reason.Some?
            && Decided(c, st, eff, spec, secrets, tick).jobs[name]
                 == NewJob(eff, spec, secrets, ModeFor(reason.value, spec))
  {
  }

  /** In any sound world: an ingest Job launched while the desired hash
      differs from the last ingested one works with the user's own chunking, never
      with a left-over tuned or best configuration. It processes everything anew
      unless a deferred cron tick was pending. */
  lemma UserEditWinsHere(w: World, tick: Tick)
    requires Sound(w)
    requires w.Status().observedSpecHash != Some(HashOf(w.spec))
    requires LaunchedIngest(w, tick).Some?
    ensures var job := LaunchedIngest(w, tick).value;
            && job.workerChunking == SpecChunking(w.spec)
            && job.specHash == HashOf(w.spec)
            && (!w.Status().deferCronIngest ==> job.mode == Full)
  {
    var st := w.cluster.status.Refreshed(w.spec);
    assert st.effectiveChunking.None?;
    var eff := st.Effective(w.spec);
    EffectiveIsFilled(st, w.spec);
    var step := BeforeDecision(w.cluster, st, eff, w.spec, w.secrets, tick);
    var name := Apply(w, Reconcile(tick)).cluster.status.activeJob.value;
    if step.Proceed? {
      DecidedLaunch(step.cluster, step.st, eff, w.spec, w.secrets, tick, name);
    }
  }

  /** Every edit in the run passes validation. */
  predicate ValidEdits(es: seq<Event>) {
    forall i :: 0 <= i < |es| && es[i].EditSpec? ==> SpecOk(es[i].spec)
  }

  lemma {:induction false} RunKeepsSound(w: World, es: seq<Event>)
    requires Sound(w) && ValidEdits(es)
    ensures Sound(Run(w, es))
    decreases |es|
  {
    if es != [] {
      EventKeepsSound(w, es[0]);
      RunKeepsSound(Apply(w, es[0]), es[1..]);
    }
  }

  /** A user edit always wins: however the run went, edits, failures and tuning
      included, the next ingest Job launched while the desired hash differs from
      the last ingested one carries the user's chunking. */
  lemma UserEditWins(spec: Spec, secrets: string, es: seq<Event>, tick: Tick)
    requires SpecOk(spec) && ValidEdits(es)
    ensures var w := Run(FreshWorld(spec, secrets), es);
            w.Status().observedSpecHash != Some(HashOf(w.spec)) && LaunchedIngest(w, tick).Some? ==>
              && LaunchedIngest(w, tick).value.workerChunking == SpecChunking(w.spec)
              && LaunchedIngest(w, tick).value.specHash == HashOf(w.spec)
              && (!w.Status().deferCronIngest ==> LaunchedIngest(w, tick).value.mode == Full)
  {
    FreshWorldIsSound(spec, secrets);
    RunKeepsSound(FreshWorld(spec, secrets), es);
    var w := Run(FreshWorld(spec, secrets), es);
    if w.Status().observedSpecHash != Some(HashOf(w.spec)) && LaunchedIngest(w, tick).Some? {
      UserEditWinsHere(w, tick);
    }
  }

  // ---------------------------------------------------------------------------
  // Invariant 2: runs under one spec
  // ---------------------------------------------------------------------------

  predicate ActiveIn(s: Status, jobs: map<JobName, Job>) {
    s.activeJob.Some? && s.activeJob.value in jobs
  }

  predicate ServesData(s: Status) {
    s.phase == Ready || s.phase == Degraded
  }

  /** The status bookkeeping while the spec stands still. */
  predicate SteadyAt(s: Status, jobs: map<JobName, Job>, spec: Spec) {
    && (s.effectiveChunking.Some? ==> s.observedSpecHash == Some(HashOf(spec)))
    && (s.activeJob.Some? && s.activeJob.value.EvalJob? ==> !s.OwesIngest(spec))
    && (s.activeJob.Some? && s.activeJob.value.IngestJob? ==> !ServesData(s))
    && (ActiveIn(s, jobs) && s.activeJob.value.IngestJob? ==>
          && jobs[s.activeJob.value].specHash == HashOf(spec)
          && jobs[s.activeJob.value].workerChunking == s.Effective(spec))
  }

  /** How the status relates to what the store really holds. */
  predicate AgreesAt(s: Status, jobs: map<JobName, Job>, spec: Spec, store: Option<Chunking>) {
    && (!s.OwesIngest(spec) ==> store.None? || store == Some(s.Effective(spec)))
    && (!s.OwesIngest(spec) && ServesData(s) ==> store == Some(s.Effective(spec)))
    && (ActiveIn(s, jobs) && s.activeJob.value.EvalJob? ==>
          && store == Some(s.Effective(spec))
          && (jobs[s.activeJob.value].state == Complete ==> jobs[s.activeJob.value].measured == store))
    && (ActiveIn(s, jobs) && s.activeJob.value.IngestJob? ==>
          var job := jobs[s.activeJob.value];
          job.state == Complete || (job.state == Running && job.promoted) ==> store == Some(job.workerChunking))
  }

  /** An incremental ingest launched although a full one is owed: the deferral flag
      is tested first and hides the other reasons. */
  predicate MaskedAt(s: Status, jobs: map<JobName, Job>, spec: Spec) {
    ActiveIn(s, jobs) && s.activeJob.value.IngestJob?
    && jobs[s.activeJob.value].mode == Incremental && s.OwesIngest(spec)
  }

  predicate Masked(w: World) {
    MaskedAt(w.cluster.status, w.cluster.jobs, w.spec)
  }

  lemma DroppedCoherent(s: Status, jobs: map<JobName, Job>, rest: map<JobName, Job>, spec: Spec,
                        store: Option<Chunking>)
    requires SteadyAt(s, jobs, spec)
    ensures SteadyAt(s.WithoutActiveJob(), rest, spec)
    ensures AgreesAt(s, jobs, spec, store) ==> AgreesAt(s.WithoutActiveJob(), rest, spec, store)
  {
  }

  lemma FailedCoherent(s: Status, jobs: map<JobName, Job>, rest: map<JobName, Job>, spec: Spec,
                       store: Option<Chunking>, hash: CorpusHash, now: int)
    requires SteadyAt(s, jobs, spec)
    ensures SteadyAt(s.IngestFailed(hash, now), rest, spec)
    ensures AgreesAt(s, jobs, spec, store) ==> AgreesAt(s.IngestFailed(hash, now), rest, spec, store)
  {
  }

  lemma ClearDeadJobCoherent(c: Cluster, st: Status, spec: Spec, secrets: string, now: int, store: Option<Chunking>)
    requires SteadyAt(c.status, c.jobs, spec) && SteadyAt(st, c.jobs, spec)
    ensures var step := ClearDeadJob(c, st, spec, secrets, now);
            && SteadyAt(step.cluster.status, step.cluster.jobs, spec) && SteadyAt(step.st, step.cluster.jobs, spec)
            && (AgreesAt(c.status, c.jobs, spec, store) && AgreesAt(st, c.jobs, spec, store) ==>
                  && AgreesAt(step.cluster.status, step.cluster.jobs, spec, store)
                  && AgreesAt(step.st, step.cluster.jobs, spec, store))
  {
    if st.activeJob.Some? {
      DroppedCoherent(st, c.jobs, c.jobs - {st.activeJob.value}, spec, store);
      FailedCoherent(st, c.jobs, c.jobs - {st.activeJob.value}, spec, store, HashOf(spec), now);
    }
  }

  lemma FinalizedIngestCoherent(c: Cluster, st: Status, name: JobName, job: Job, eff: Chunking, spec: Spec,
                                tick: Tick, store: Option<Chunking>)
    requires SteadyAt(c.status, c.jobs, spec) && SteadyAt(st, c.jobs, spec)
    requires name.IngestJob? && name in c.jobs && c.jobs[name] == job && st.activeJob == Some(name)
    requires Labelled(job) && job.state != Running
    ensures var c' := FinalizedIngest(c, st, name, job, eff, spec, tick);
            && SteadyAt(c'.status, c'.jobs, spec)
            && (AgreesAt(c.status, c.jobs, spec, store) && AgreesAt(st, c.jobs, spec, store) ==>
                  AgreesAt(c'.status, c'.jobs, spec, store))
  {
    ChunkingLabel.DecodeOfEncode(job.workerChunking, eff);
    if job.state == FailedJob {
      FailedCoherent(st, c.jobs, c.jobs - {name}, spec, store, job.specHash, tick.now);
    } else if tick.resultVisible && job.result.IngestedChunks? {
      var t := st.Ingested(spec, job.workerChunking, job.specHash, job.result.total, tick.now);
      assert SteadyAt(t, c.jobs - {name}, spec);
    }
  }

  lemma EvaluatedCoherent(s: Status, jobs: map<JobName, Job>, spec: Spec, rq: RetrievalQuality, r: EvalResult, now: int,
                          store: Option<Chunking>)
    requires SteadyAt(s, jobs, spec) && !s.OwesIngest(spec)
    ensures var t := s.Evaluated(spec, rq, r, now);
            && SteadyAt(t, jobs, spec)
            && (store == Some(s.Effective(spec)) ==> AgreesAt(t, jobs, spec, store))
  {
    assert s.observedSpecHash == Some(HashOf(spec));
    var t := s.WithoutActiveJob().(evaluation := Some(Evaluation(r, now)));
    if r.queries != 0 && BelowTarget(rq, r.recallPercent) {
      var b := t.WithBest(spec, r.recallPercent);
      assert SteadyAt(b, jobs, spec) && b.Effective(spec) == s.Effective(spec) && !b.OwesIngest(spec);
      assert SteadyAt(b.AutoTuned(spec), jobs, spec);
      assert SteadyAt(b.(phase := Degraded), jobs, spec);
      if b.CanSettle(spec) {
        assert SteadyAt(b.Settled(spec), jobs, spec);
      }
    }
  }

  lemma FinalizedEvalCoherent(c: Cluster, st: Status, name: JobName, job: Job, spec: Spec, tick: Tick,
                              store: Option<Chunking>)
    requires SteadyAt(c.status, c.jobs, spec) && SteadyAt(st, c.jobs, spec)
    requires name.EvalJob? && name in c.jobs && c.jobs[name] == job && st.activeJob == Some(name)
    requires job.state != Running
    ensures var c' := FinalizedEval(c, st, job, spec, tick);
            && SteadyAt(c'.status, c'.jobs, spec)
            && (AgreesAt(c.status, c.jobs, spec, store) && AgreesAt(st, c.jobs, spec, store) ==>
                  AgreesAt(c'.status, c'.jobs, spec, store))
  {
    if job.state == FailedJob {
      DroppedCoherent(st, c.jobs, c.jobs, spec, store);
    } else if tick.resultVisible && job.result.Measured? {
      if spec.retrievalQuality.Some? {
        EvaluatedCoherent(st, c.jobs, spec, spec.retrievalQuality.value, job.result.result, tick.now, store);
      } else {
        var e := Evaluation(job.result.result, tick.now);
        assert SteadyAt(st.WithoutActiveJob().(evaluation := Some(e)), c.jobs, spec);
      }
    }
  }

  lemma FinishedCoherent(c: Cluster, st: Status, eff: Chunking, spec: Spec, tick: Tick, store: Option<Chunking>)
    requires WellFormed(st, c.jobs) && st.activeJob.Some?
    requires SteadyAt(c.status, c.jobs, spec) && SteadyAt(st, c.jobs, spec)
    ensures var step := FinishedActiveJob(c, st, eff, spec, tick);
            && SteadyAt(step.cluster.status, step.cluster.jobs, spec)
            && (step.Proceed? ==> SteadyAt(step.st, step.cluster.jobs, spec))
            && (AgreesAt(c.status, c.jobs, spec, store) && AgreesAt(st, c.jobs, spec, store) ==>
                  && AgreesAt(step.cluster.status, step.cluster.jobs, spec, store)
                  && (step.Proceed? ==> AgreesAt(step.st, step.cluster.jobs, spec, store)))
  {
    var name := st.activeJob.value;
    if name !in c.jobs {
      DroppedCoherent(st, c.jobs, c.jobs, spec, store);
    } else if c.jobs[name].state != Running {
      if name.IngestJob? {
        assert JobOk(st.activeJob, st.ingestRound, st.evalRound, st.observedSpecHash.Some?, name, c.jobs[name]);
        FinalizedIngestCoherent(c, st, name, c.jobs[name], eff, spec, tick, store);
      } else {
        FinalizedEvalCoherent(c, st, name, c.jobs[name], spec, tick, store);
      }
    } else {
      assert SteadyAt(st.(deferCronIngest := true), c.jobs, spec);
    }
  }

  lemma BeforeDecisionCoherent(c: Cluster, st: Status, eff: Chunking, spec: Spec, secrets: string, tick: Tick,
                               store: Option<Chunking>)
    requires WellFormed(c.status, c.jobs) && WellFormed(st, c.jobs)
    requires SteadyAt(c.status, c.jobs, spec) && SteadyAt(st, c.jobs, spec)
    ensures var step := BeforeDecision(c, st, eff, spec, secrets, tick);
            && SteadyAt(step.cluster.status, step.cluster.jobs, spec)
            && (step.Proceed? ==> SteadyAt(step.st, step.cluster.jobs, spec))
            && (AgreesAt(c.status, c.jobs, spec, store) && AgreesAt(st, c.jobs, spec, store) ==>
                  && AgreesAt(step.cluster.status, step.cluster.jobs, spec, store)
                  && (step.Proceed? ==> AgreesAt(step.st, step.cluster.jobs, spec, store)))
  {
    ClearDeadJobCoherent(c, st, spec, secrets, tick.now, store);
    ClearDeadJobWellFormed(c, st, spec, secrets, tick.now);
    var cleared := ClearDeadJob(c, st, spec, secrets, tick.now);
    if cleared.st.activeJob.Some? {
      FinishedCoherent(cleared.cluster, cleared.st, eff, spec, tick, store);
    }
  }

  lemma IngestStartedCoherent(c: Cluster, st: Status, eff: Chunking, spec: Spec, secrets: string, reason: Reason,
                              now: int, store: Option<Chunking>)
    requires SteadyAt(c.status, c.jobs, spec) && SteadyAt(st, c.jobs, spec)
    requires st.activeJob.None? && eff == st.Effective(spec) && FillDefaults(eff) == eff
    ensures var c' := IngestStarted(c, st, eff, spec, secrets, reason, now);
            && SteadyAt(c'.status, c'.jobs, spec)
            && (AgreesAt(c.status, c.jobs, spec, store) && AgreesAt(st, c.jobs, spec, store) ==>
                  AgreesAt(c'.status, c'.jobs, spec, store))
  {
  }

  lemma EvalStartedCoherent(c: Cluster, st: Status, eff: Chunking, spec: Spec, secrets: string, now: int,
                            store: Option<Chunking>)
    requires SteadyAt(c.status, c.jobs, spec) && SteadyAt(st, c.jobs, spec)
    requires st.activeJob.None? && !st.OwesIngest(spec) && ServesData(st)
    ensures var c' := EvalStarted(c, st, eff, spec, secrets, now);
            && SteadyAt(c'.status, c'.jobs, spec)
            && (AgreesAt(c.status, c.jobs, spec, store) && AgreesAt(st, c.jobs, spec, store) ==>
                  AgreesAt(c'.status, c'.jobs, spec, store))
  {
  }

  lemma DecidedCoherent(c: Cluster, st: Status, eff: Chunking, spec: Spec, secrets: string, tick: Tick,
                        store: Option<Chunking>)
    requires SteadyAt(c.status, c.jobs, spec) && SteadyAt(st, c.jobs, spec)
    requires st.activeJob.None? && eff == st.Effective(spec) && FillDefaults(eff) == eff
    ensures var c' := Decided(c, st, eff, spec, secrets, tick);
            && SteadyAt(c'.status, c'.jobs, spec)
            && (AgreesAt(c.status, c.jobs, spec, store) && AgreesAt(st, c.jobs, spec, store) ==>
                  AgreesAt(c'.status, c'.jobs, spec, store))
  {
    var reason := IngestReason(st, spec, tick.freshnessDue);
    if reason.Some? {
      IngestStartedCoherent(c, st, eff, spec, secrets, reason.value, tick.now, store);
    } else if EvalDue(st, spec, tick.evalFires) {
      EvalStartedCoherent(c, st, eff, spec, secrets, tick.now, store);
    }
  }

  ghost predicate Steady(w: World) {
    Sound(w) && SteadyAt(w.cluster.status, w.cluster.jobs, w.spec)
  }

  predicate Agrees(w: World) {
    AgreesAt(w.cluster.status, w.cluster.jobs, w.spec, w.store)
  }

  lemma PassCoherent(w: World, tick: Tick)
    requires Steady(w)
    ensures var w' := Apply(w, Reconcile(tick)); Steady(w') && (Agrees(w) ==> Agrees(w'))
  {
    PassWellFormed(w, tick);
    var c := w.cluster;
    if w.spec.suspend {
      assert SteadyAt(c.status.(phase := Suspended), c.jobs, w.spec);
    } else {
      var st := c.status.Refreshed(w.spec);
      var eff := st.Effective(w.spec);
      assert st == c.status;
      EffectiveIsFilled(st, w.spec);
      BeforeDecisionCoherent(c, st, eff, w.spec, w.secrets, tick, w.store);
      var step := BeforeDecision(c, st, eff, w.spec, w.secrets, tick);
      if step.Proceed? {
        DecidedCoherent(step.cluster, step.st, eff, w.spec, w.secrets, tick, w.store);
      }
    }
  }

  lemma OnlyActiveRuns(w: World, name: JobName)
    requires Sound(w) && RunningJob(w, name)
    ensures w.cluster.status.activeJob == Some(name)
  {
    var s, jobs := w.cluster.status, w.cluster.jobs;
    assert JobOk(s.activeJob, s.ingestRound, s.evalRound, s.observedSpecHash.Some?, name, jobs[name]);
  }

  /** Every event but a spec edit keeps the bookkeeping steady; it also keeps status
      and store in agreement unless a masked incremental ingest is in flight. */
  lemma EventKeepsCoherent(w: World, e: Event)
    requires Steady(w) && !e.EditSpec?
    ensures Steady(Apply(w, e))
    ensures Agrees(w) && !Masked(w) ==> Agrees(Apply(w, e))
  {
    EventKeepsSound(w, e);
    match e
    case Reconcile(tick) => PassCoherent(w, tick);
    case Promote(name) => if RunningJob(w, name) { OnlyActiveRuns(w, name); }
    case Succeed(name, result) => if RunningJob(w, name) { OnlyActiveRuns(w, name); }
    case Fail(name, dropsStaging) => if RunningJob(w, name) { OnlyActiveRuns(w, name); }
    case Vanish(name) => assert SteadyAt(w.cluster.status, w.cluster.jobs - {name}, w.spec);
    case RotateSecrets(secrets) =>
  }
}
