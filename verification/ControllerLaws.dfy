/** What one pass does in each situation, written out on the fields of the status and of
    the Jobs, and how long a failed ingest waits. */
module ControllerLaws {
  import opened Common
  import opened KnowledgeBase
  import opened Reconciler
  import opened ControllerRuns
  import opened ControllerTheorems
  import ChunkingLabel

  // ---------------------------------------------------------------------------
  // What counts as another corpus
  // ---------------------------------------------------------------------------

  predicate SameOrDefault(a: int, b: int, default: int) {
    (if a == 0 then default else a) == (if b == 0 then default else b)
  }

  /** Two specs ask for the same corpus if and only if they agree on the sources, the
      embedding, the vector store and the chunking, which is semantic, with 800 tokens and
      an overlap of 80, where it is not set. */
  lemma SameCorpusIff(a: Spec, b: Spec)
    ensures HashOf(a) == HashOf(b) <==>
              && a.sources == b.sources && a.embedding == b.embedding && a.vectorStore == b.vectorStore
              && SameOrDefault(a.chunking.maxTokens, b.chunking.maxTokens, 800)
              && SameOrDefault(a.chunking.overlap, b.chunking.overlap, 80)
              && (if a.chunking.strategy == "" then "semantic" else a.chunking.strategy)
                   == (if b.chunking.strategy == "" then "semantic" else b.chunking.strategy)
  {
  }

  // ---------------------------------------------------------------------------
  // The outcome of an evaluation
  // ---------------------------------------------------------------------------

  /** Auto-tune is on, and either attempts are left, of which there are three unless the
      user says otherwise, or a better configuration was seen than the present one. */
  predicate TunesFurther(w: World, rq: RetrievalQuality, recall: int) {
    var s := w.Status();
    && rq.autoTune.Some? && rq.autoTune.value.enabled == Some(true)
    && (|| s.autoTuneAttempts < (if rq.autoTune.value.maxAttempts == 0 then 3 else rq.autoTune.value.maxAttempts)
        || (s.bestChunking.Some? && recall <= s.bestRecallPercent && s.bestChunking.value != w.Effective()))
  }

  /** An evaluation that meets its target leaves the knowledge base Ready. One that misses
      it and forces no re-index leaves it Degraded, with auto-tune or without; one that
      forces a re-index, which only auto-tune does, leaves the phase alone and asks for
      another evaluation. Without queries nothing is judged. */
  lemma EvaluationSetsPhase(w: World, tick: Tick)
    requires Steady(w) && ConsumedEval(w, tick).Some? && w.spec.retrievalQuality.Some?
    ensures var rq, result := w.spec.retrievalQuality.value, ConsumedEval(w, tick).value.result.result;
            var s, s' := w.Status(), Apply(w, Reconcile(tick)).Status();
            var missed := rq.minimumRecallPercent > 0 && result.recallPercent < rq.minimumRecallPercent;
            var forces := Forces(w, Reconcile(tick));
            && s'.activeJob.None? && Apply(w, Reconcile(tick)).cluster.jobs == w.cluster.jobs
            && (forces <==> result.queries != 0 && missed && TunesFurther(w, rq, result.recallPercent))
            && s'.evaluation == (if forces then None else Some(Evaluation(result, tick.now)))
            && s'.phase == (if result.queries == 0 || forces then s.phase else if missed then Degraded else Ready)
            && (result.queries == 0 ==>
                  s'.autoTuneAttempts == s.autoTuneAttempts && s'.bestChunking == s.bestChunking)
            && (!forces ==> s'.effectiveChunking == s.effectiveChunking)
  {
    assert w.Status().Refreshed(w.spec) == w.Status();
    ConsumedEvalIsGated(w, tick);
    EventTuning(w, Reconcile(tick));
  }

  /** The active Job has outlived its deadline by more than ten minutes. */
  predicate Overdue(w: World, now: int) {
    && w.Active().Some? && w.Status().activeJobStartedAt.Some?
    && now > w.Status().activeJobStartedAt.value + w.Active().value.activeDeadlineSeconds + 600
  }

  /** The active ingest works for another corpus or with other credentials than now
      asked for. */
  predicate Outdated(w: World) {
    && w.Active().Some? && w.Status().activeJob.value.IngestJob?
    && (w.Active().value.specHash != HashOf(w.spec) || w.Active().value.secretsHash != w.secrets)
  }

  lemma DeadJobCases(w: World, now: int)
    requires w.Active().Some?
    ensures var st, name := w.Status().Refreshed(w.spec), w.Status().activeJob.value;
            ClearDeadJob(w.cluster, st, w.spec, w.secrets, now) ==
            if Outdated(w) then Proceed(Cluster(st.WithoutActiveJob(), w.cluster.jobs - {name}), st.WithoutActiveJob())
            else if Overdue(w, now) then
              Proceed(Cluster(st.IngestFailed(HashOf(w.spec), now), w.cluster.jobs - {name}),
                      st.IngestFailed(HashOf(w.spec), now))
            else Proceed(w.cluster, st)
  {
  }

  /** A failed evaluation is forgotten. */
  lemma FailedEvaluationIsForgotten(w: World, tick: Tick)
    requires Steady(w) && !w.spec.suspend && w.Active().Some? && w.Status().activeJob.value.EvalJob?
    requires w.Active().value.state == FailedJob && !Overdue(w, tick.now)
    ensures Apply(w, Reconcile(tick)) ==
            w.(cluster := w.cluster.(status := w.Status().(activeJob := None, activeJobStartedAt := None)))
  {
    assert w.Status().Refreshed(w.spec) == w.Status();
    DeadJobCases(w, tick.now);
  }

  // ---------------------------------------------------------------------------
  // The outcome of an ingest
  // ---------------------------------------------------------------------------

  /** The pass over an ingest that is done, in time and for the corpus asked for. */
  lemma FinishedIngestPass(w: World, tick: Tick)
    requires !w.spec.suspend && w.Active().Some? && w.Status().activeJob.value.IngestJob?
    requires w.Active().value.state != Running && !Outdated(w) && !Overdue(w, tick.now)
    ensures var st := w.Status().Refreshed(w.spec);
            Apply(w, Reconcile(tick)) == w.(cluster :=
              FinalizedIngest(w.cluster, st, w.Status().activeJob.value, w.Active().value, st.Effective(w.spec), w.spec,
                              tick))
  {
    DeadJobCases(w, tick.now);
  }

  /** A finished ingest is recorded: the corpus asked for, the model, the chunking its
      worker used, the number of chunks and the time; what was owed or had failed is
      settled. */
  lemma IngestIsRecorded(w: World, tick: Tick)
    requires Sound(w) && !w.spec.suspend && w.Active().Some? && w.Status().activeJob.value.IngestJob?
    requires w.Active().value.state == Complete && w.Active().value.result.IngestedChunks? && tick.resultVisible
    requires !Outdated(w) && !Overdue(w, tick.now)
    ensures var job, s, w' := w.Active().value, w.Status(), Apply(w, Reconcile(tick));
            var s' := w'.Status();
            && s'.phase == Ready
            && s'.observedSpecHash == Some(HashOf(w.spec)) && s'.observedEmbeddingModel == w.spec.embedding.model
            && s'.effectiveChunking == Some(job.workerChunking)
            && s'.indexedChunks == job.result.total && s'.lastIndexedTime == Some(tick.now)
            && s'.lastFailedSpecHash.None? && s'.lastFailureTime.None? && !s'.pendingRetune
            && s'.activeJob.None? && s'.activeJobStartedAt.None?
            && s'.evaluation == s.evaluation && s'.deferCronIngest == s.deferCronIngest
            && s'.ingestRound == s.ingestRound && s'.evalRound == s.evalRound
            && w'.cluster.jobs == w.cluster.jobs - {s.activeJob.value}
  {
    var s, name, job := w.Status(), w.Status().activeJob.value, w.Active().value;
    assert JobOk(s.activeJob, s.ingestRound, s.evalRound, s.observedSpecHash.Some?, name, job);
    FinishedIngestPass(w, tick);
    ChunkingLabel.DecodeOfEncode(job.workerChunking, s.Refreshed(w.spec).Effective(w.spec));
  }

  /** A running ingest that is neither outdated nor overdue is left alone; a cron tick is
      put off until it is done. */
  lemma RunningIngestGoesOn(w: World, tick: Tick)
    requires !w.spec.suspend && w.Active().Some? && w.Status().activeJob.value.IngestJob?
    requires w.Active().value.state == Running && !Outdated(w) && !Overdue(w, tick.now)
    ensures var s, w' := w.Status(), Apply(w, Reconcile(tick));
            && w'.cluster.jobs == w.cluster.jobs && w'.Status().activeJob == s.activeJob
            && w'.Status().phase == s.phase
            && w'.Status().deferCronIngest
                 == (s.deferCronIngest || (w.spec.freshnessSchedule != "" && tick.freshnessDue))
  {
    DeadJobCases(w, tick.now);
  }

  /** So is a running evaluation, and any Job whose result is not visible yet. */
  lemma UnfinishedIsAwaited(w: World, tick: Tick)
    requires !w.spec.suspend && w.Active().Some? && !Outdated(w) && !Overdue(w, tick.now)
    requires || (w.Active().value.state == Running && w.Status().activeJob.value.EvalJob?)
             || (w.Active().value.state == Complete && !tick.resultVisible)
    ensures Apply(w, Reconcile(tick)) == w
  {
    DeadJobCases(w, tick.now);
  }

  /** An overdue Job is written off as a failed ingest, and nothing new is started. */
  lemma OverdueJobFails(w: World, tick: Tick)
    requires !w.spec.suspend && !Outdated(w) && Overdue(w, tick.now)
    ensures var w' := Apply(w, Reconcile(tick));
            && w'.Status().phase == Failed && w'.Status().activeJob.None?
            && w'.Status().lastFailureTime == Some(tick.now)
            && w'.Status().lastFailedSpecHash == Some(HashOf(w.spec))
            && w'.cluster.jobs == w.cluster.jobs - {w.Status().activeJob.value}
  {
    DeadJobCases(w, tick.now);
    var failed := w.Status().Refreshed(w.spec).IngestFailed(HashOf(w.spec), tick.now);
    assert RetryWait(failed, HashOf(w.spec), tick.now);
  }

  /** An outdated one is cancelled, which is no failure. */
  lemma OutdatedIngestIsCancelled(w: World, tick: Tick)
    requires Sound(w) && !w.spec.suspend && Outdated(w)
    ensures var w' := Apply(w, Reconcile(tick));
            && w.Status().activeJob.value !in w'.cluster.jobs
            && w'.Status().lastFailureTime == w.Status().lastFailureTime
            && w'.Status().lastFailedSpecHash == w.Status().lastFailedSpecHash
  {
    var s, name := w.Status(), w.Status().activeJob.value;
    DeadJobCases(w, tick.now);
    NextRoundIsFree(w);
    assert JobOk(s.activeJob, s.ingestRound, s.evalRound, s.observedSpecHash.Some?, name, w.cluster.jobs[name]);
  }

  /** The world without its active Job. */
  function Freed(w: World): World
    requires w.Status().activeJob.Some?
  {
    w.(cluster := Cluster(w.Status().(activeJob := None, activeJobStartedAt := None),
                          w.cluster.jobs - {w.Status().activeJob.value}))
  }

  /** After an outdated ingest is cancelled, or an active Job has vanished, the pass goes on
      as if that Job had never been active; tuning that a user's edit takes back may be
      cleared already. */
  lemma AsIfNeverActive(w: World, tick: Tick)
    requires Sound(w) && !w.spec.suspend && w.Status().activeJob.Some?
    requires Outdated(w) || w.Active().None?
    ensures var w', free := Apply(w, Reconcile(tick)), Apply(Freed(w), Reconcile(tick));
            && w'.cluster.jobs == free.cluster.jobs
            && w'.Status().Refreshed(w.spec) == free.Status().Refreshed(w.spec)
  {
    var st, name := w.Status().Refreshed(w.spec), w.Status().activeJob.value;
    var cleared, rest := st.WithoutActiveJob(), w.cluster.jobs - {name};
    if w.Active().None? {
      assert rest == w.cluster.jobs;
    } else {
      DeadJobCases(w, tick.now);
    }
    assert BeforeDecision(w.cluster, st, st.Effective(w.spec), w.spec, w.secrets, tick)
        == Proceed(Cluster(cleared, rest), cleared);
    assert Freed(w).Status().Refreshed(w.spec) == cleared;
    DecidesAlone(Freed(w), tick);
  }

  /** So a running ingest is removed exactly when the corpus or the credentials have
      changed or it is overdue. */
  lemma RunningIngestIsRemovedIff(w: World, tick: Tick)
    requires Sound(w) && !w.spec.suspend && w.Active().Some? && w.Status().activeJob.value.IngestJob?
    requires w.Active().value.state == Running
    ensures var job, s := w.Active().value, w.Status();
            s.activeJob.value !in Apply(w, Reconcile(tick)).cluster.jobs <==>
              || job.specHash != HashOf(w.spec) || job.secretsHash != w.secrets
              || (s.activeJobStartedAt.Some? && tick.now > s.activeJobStartedAt.value + job.activeDeadlineSeconds + 600)
  {
    if Outdated(w) {
      OutdatedIngestIsCancelled(w, tick);
    } else if Overdue(w, tick.now) {
      OverdueJobFails(w, tick);
    } else {
      RunningIngestGoesOn(w, tick);
    }
  }

  /** A failed ingest of the corpus asked for is recorded as a failure; what it owed is
      still owed. */
  lemma FailedIngestIsRecorded(w: World, tick: Tick)
    requires Sound(w) && !w.spec.suspend && w.Active().Some? && w.Status().activeJob.value.IngestJob?
    requires w.Active().value.state == FailedJob && !Outdated(w) && !Overdue(w, tick.now)
    ensures var w' := Apply(w, Reconcile(tick));
            && w'.Status().phase == Failed && w'.Status().activeJob.None?
            && w'.Status().lastFailureTime == Some(tick.now)
            && w'.Status().lastFailedSpecHash == Some(HashOf(w.spec))
            && w'.Status().OwesIngest(w.spec) == w.Status().Refreshed(w.spec).OwesIngest(w.spec)
            && w'.Status().deferCronIngest == w.Status().deferCronIngest
            && w'.cluster.jobs == w.cluster.jobs - {w.Status().activeJob.value}
  {
    FinishedIngestPass(w, tick);
  }

  // ---------------------------------------------------------------------------
  // The delay after a failure
  // ---------------------------------------------------------------------------

  /** Nothing is active, and the last ingest of the corpus asked for failed at `t`. */
  predicate FailedAt(w: World, t: int) {
    && !w.spec.suspend && w.Status().activeJob.None? && w.Status().phase == Failed
    && w.Status().lastFailedSpecHash == Some(HashOf(w.spec)) && w.Status().lastFailureTime == Some(t)
  }

  predicate AllBefore(es: seq<Event>, t: int) {
    forall i :: 0 <= i < |es| && es[i].Reconcile? ==> es[i].tick.now < t
  }

  lemma NothingRuns(w: World)
    requires Sound(w) && w.Status().activeJob.None?
    ensures forall n | n in w.cluster.jobs :: w.cluster.jobs[n].state != Running
  {
    var s := w.Status();
    assert forall n | n in w.cluster.jobs ::
        JobOk(s.activeJob, s.ingestRound, s.evalRound, s.observedSpecHash.Some?, n, w.cluster.jobs[n]);
  }

  lemma WaitsOneEvent(w: World, e: Event, t: int)
    requires Sound(w) && FailedAt(w, t) && !e.EditSpec? && (e.Reconcile? ==> e.tick.now < t + 300)
    ensures var w' := Apply(w, e);
            && Sound(w') && w'.Status() == w.Status() && w'.spec == w.spec
            && w'.cluster.jobs.Keys <= w.cluster.jobs.Keys && w'.store == w.store
  {
    EventKeepsSound(w, e);
    NothingRuns(w);
    if e.Reconcile? {
      assert RetryWait(w.Status().Refreshed(w.spec), HashOf(w.spec), e.tick.now);
    }
  }

  /** For five minutes after a failure no run under the same spec starts anything,
      whatever credentials or schedules do. */
  lemma {:induction false} FailureIsWaitedOut(w: World, t: int, es: seq<Event>)
    requires Sound(w) && FailedAt(w, t) && SpecFixed(es) && AllBefore(es, t + 300)
    ensures Run(w, es).Status() == w.Status() && Run(w, es).store == w.store
    ensures Run(w, es).cluster.jobs.Keys <= w.cluster.jobs.Keys
    decreases |es|
  {
    if es != [] {
      WaitsOneEvent(w, es[0], t);
      assert forall i :: 0 <= i < |es| - 1 ==> es[1..][i] == es[i + 1];
      FailureIsWaitedOut(Apply(w, es[0]), t, es[1..]);
    }
  }

  // ---------------------------------------------------------------------------
  // What a pass starts
  // ---------------------------------------------------------------------------

  /** The evaluation a pass launches, if it launches one. */
  function LaunchedEval(w: World, tick: Tick): Option<Job> {
    var c := Apply(w, Reconcile(tick)).cluster;
    var a := c.status.activeJob;
    if a.Some? && a.value.EvalJob? && a.value in c.jobs && a.value !in w.cluster.jobs then Some(c.jobs[a.value])
    else None
  }

  /** The last ingest of this corpus failed less than five minutes ago. */
  predicate HoldsBack(w: World, now: int) {
    var s := w.Status();
    && s.phase == Failed && s.lastFailedSpecHash == Some(HashOf(w.spec))
    && s.lastFailureTime.Some? && now < s.lastFailureTime.value + 300
  }

  /** The corpus or the model asked for is not the one ingested, or a re-tune is owed. */
  predicate Behind(w: World) {
    var s := w.Status();
    || s.observedSpecHash != Some(HashOf(w.spec))
    || s.observedEmbeddingModel != w.spec.embedding.model
    || s.pendingRetune
  }

  lemma BehindIsOwed(w: World)
    ensures Behind(w) <==> w.Status().Refreshed(w.spec).OwesIngest(w.spec)
  {
  }

  predicate FreshnessElapses(w: World, tick: Tick) {
    w.spec.freshnessSchedule != "" && tick.freshnessDue
  }

  predicate WantsEvaluation(w: World, tick: Tick) {
    var s := w.Status();
    && w.spec.retrievalQuality.Some? && w.spec.retrievalQuality.value.enabled != Some(false)
    && (s.phase == Ready || s.phase == Degraded) && s.indexedChunks != 0
    && (s.evaluation.None? || (w.spec.retrievalQuality.value.evalSchedule != "" && tick.evalFires))
  }

  /** Without an active Job, an ingest is launched if and only if the last failure is long
      enough ago and a tick was put off, or the data is behind, or the freshness schedule
      has fired. It is full exactly when the data is behind and no tick was put off, or
      when the user asked for full ingests. */
  lemma IngestIsLaunchedIff(w: World, tick: Tick)
    requires Sound(w) && !w.spec.suspend && w.Status().activeJob.None?
    ensures LaunchedIngest(w, tick).Some? <==>
              && !HoldsBack(w, tick.now)
              && (w.Status().deferCronIngest || Behind(w) || FreshnessElapses(w, tick))
    ensures LaunchedIngest(w, tick).Some? ==>
              var job, w' := LaunchedIngest(w, tick).value, Apply(w, Reconcile(tick));
              && (job.mode == Full <==>
                    w.spec.ingestionMode == Some(Full) || (Behind(w) && !w.Status().deferCronIngest))
              && job.specHash == HashOf(w.spec) && job.secretsHash == w.secrets && job.state == Running
              && job.activeDeadlineSeconds == w.spec.activeDeadlineSeconds
              && w'.Status().phase == Ingesting && w'.Status().activeJobStartedAt == Some(tick.now)
              && !w'.Status().deferCronIngest
              && w'.cluster.jobs == w.cluster.jobs[w'.Status().activeJob.value := job]
  {
    NextRoundIsFree(w);
    BehindIsOwed(w);
    DecidesAlone(w, tick);
  }

  /** An evaluation, if and only if no ingest is due or held back, and the knowledge base
      is evaluated, serves data, and has no evaluation yet or a schedule that fired. */
  lemma EvaluationIsLaunchedIff(w: World, tick: Tick)
    requires Sound(w) && !w.spec.suspend && w.Status().activeJob.None?
    ensures LaunchedEval(w, tick).Some? <==>
              && !HoldsBack(w, tick.now)
              && !w.Status().deferCronIngest && !Behind(w) && !FreshnessElapses(w, tick)
              && WantsEvaluation(w, tick)
    ensures LaunchedEval(w, tick).Some? ==>
              var job, w' := LaunchedEval(w, tick).value, Apply(w, Reconcile(tick));
              && job.state == Running && job.activeDeadlineSeconds == w.spec.activeDeadlineSeconds
              && w'.Status().phase == w.Status().phase && w'.Status().activeJobStartedAt == Some(tick.now)
              && w'.Status().evaluation == w.Status().evaluation
              && w'.cluster.jobs == w.cluster.jobs[w'.Status().activeJob.value := job]
    ensures LaunchedIngest(w, tick).None? && LaunchedEval(w, tick).None? ==> Apply(w, Reconcile(tick)) == w
  {
    NextRoundIsFree(w);
    BehindIsOwed(w);
    DecidesAlone(w, tick);
  }

  lemma DecidesAlone(w: World, tick: Tick)
    requires !w.spec.suspend && w.Status().activeJob.None?
    ensures var st := w.Status().Refreshed(w.spec);
            && Apply(w, Reconcile(tick)) ==
                 w.(cluster := Decided(w.cluster, st, st.Effective(w.spec), w.spec, w.secrets, tick))
            && RetryWait(st, HashOf(w.spec), tick.now) == HoldsBack(w, tick.now)
            && st.activeJob.None? && st.ingestRound == w.Status().ingestRound && st.evalRound == w.Status().evalRound
            && EvalDue(st, w.spec, tick.evalFires) == WantsEvaluation(w, tick)
  {
  }

  // ---------------------------------------------------------------------------
  // Suspension
  // ---------------------------------------------------------------------------

  /** A pass over a suspended knowledge base starts, cancels and records nothing. */
  lemma SuspendedPass(w: World, tick: Tick)
    requires w.spec.suspend
    ensures Apply(w, Reconcile(tick)) == w.(cluster := w.cluster.(status := w.Status().(phase := Suspended)))
  {
  }

  /** Up to date and without a schedule, and still marked as suspended. */
  predicate Dormant(w: World) {
    && !w.spec.suspend && w.Status().phase == Suspended && w.Status().activeJob.None?
    && w.spec.freshnessSchedule == "" && !w.Status().deferCronIngest && !Behind(w)
  }

  /** Resuming does not undo the phase: until the user changes the spec, such a knowledge
      base is never evaluated again, whatever its evaluation schedule. */
  lemma {:induction false} ResumedIsNotEvaluated(w: World, es: seq<Event>)
    requires Sound(w) && Dormant(w) && SpecFixed(es)
    ensures Run(w, es).Status() == w.Status() && Run(w, es).cluster.jobs.Keys <= w.cluster.jobs.Keys
    decreases |es|
  {
    if es != [] {
      var w' := Apply(w, es[0]);
      EventKeepsSound(w, es[0]);
      NothingRuns(w);
      if es[0].Reconcile? {
        IngestIsLaunchedIff(w, es[0].tick);
        EvaluationIsLaunchedIff(w, es[0].tick);
        assert w' == w;
      } else {
        assert w'.Status() == w.Status() && w'.spec == w.spec;
      }
      ResumedIsNotEvaluated(w', es[1..]);
    }
  }
}
