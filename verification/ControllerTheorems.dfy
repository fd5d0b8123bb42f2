/** What the controller promises over whole runs: recall is attributed to the data
    that was measured, auto-tune ends, and it ends on the best configuration. */
module ControllerTheorems {
  import opened Common
  import opened Tuning
  import opened KnowledgeBase
  import opened Reconciler
  import opened ControllerRuns
  import ChunkingLabel

  // ---------------------------------------------------------------------------
  // Runs under one spec
  // ---------------------------------------------------------------------------

  predicate SpecFixed(es: seq<Event>) {
    forall i :: 0 <= i < |es| ==> !es[i].EditSpec?
  }

  /** No masked incremental ingest is ever in flight along the run. */
  predicate NeverMasked(w: World, es: seq<Event>)
    decreases |es|
  {
    !Masked(w) && (es == [] || NeverMasked(Apply(w, es[0]), es[1..]))
  }

  lemma {:induction false} RunKeepsCoherent(w: World, es: seq<Event>)
    requires Steady(w) && SpecFixed(es)
    ensures Steady(Run(w, es)) && Run(w, es).spec == w.spec
    ensures Agrees(w) && NeverMasked(w, es) ==> Agrees(Run(w, es))
    decreases |es|
  {
    if es != [] {
      EventKeepsCoherent(w, es[0]);
      RunKeepsCoherent(Apply(w, es[0]), es[1..]);
    }
  }

  // ---------------------------------------------------------------------------
  // Recall is attributed to the data measured
  // ---------------------------------------------------------------------------

  /** The finished evaluation Job whose measurement a pass writes back. */
  function ConsumedEval(w: World, tick: Tick): Option<Job> {
    var a := w.Active();
    if !w.spec.suspend && a.Some? && w.Status().activeJob.value.EvalJob?
       && !TimedOut(a.value, w.Status().activeJobStartedAt, tick.now)
       && a.value.state == Complete && tick.resultVisible && a.value.result.Measured? then a
    else None
  }

  /** A consumed evaluation goes through the recall gate, which attributes it to the
      effective chunking of that moment. */
  lemma ConsumedEvalIsGated(w: World, tick: Tick)
    requires ConsumedEval(w, tick).Some? && w.spec.retrievalQuality.Some?
    ensures Apply(w, Reconcile(tick)).Status() ==
            w.Status().Refreshed(w.spec).Evaluated(w.spec, w.spec.retrievalQuality.value,
                                                   ConsumedEval(w, tick).value.result.result, tick.now)
  {
  }

  /** With the spec fixed and no masked ingest, every evaluation written back, after
      any failures, cancellations, timeouts and lost Jobs, measured exactly the
      chunking it is attributed to, and the store still holds that chunking. */
  lemma RecallIsAttributed(w: World, es: seq<Event>, tick: Tick)
    requires Steady(w) && Agrees(w) && SpecFixed(es) && NeverMasked(w, es)
    ensures var w' := Run(w, es);
            ConsumedEval(w', tick).Some? ==>
              && ConsumedEval(w', tick).value.measured == Some(w'.Effective())
              && w'.store == Some(w'.Effective())
              && w'.Status().Refreshed(w'.spec).Effective(w'.spec) == w'.Effective()
  {
    RunKeepsCoherent(w, es);
  }

  /** The tick cannot lead to an incremental ingest: no schedule is due, or even a
      deferred ingest is full. */
  predicate Unmasking(spec: Spec, tick: Tick) {
    spec.freshnessSchedule == "" || !tick.freshnessDue || spec.ingestionMode == Some(Full)
  }

  predicate AllFull(s: Status, jobs: map<JobName, Job>, spec: Spec) {
    && (s.deferCronIngest ==> spec.ingestionMode == Some(Full))
    && forall n | n in jobs :: jobs[n].mode == Full
  }

  predicate Unmaskable(w: World) {
    AllFull(w.cluster.status, w.cluster.jobs, w.spec)
  }

  lemma FinishedKeepsFull(c: Cluster, st: Status, eff: Chunking, spec: Spec, tick: Tick)
    requires Unmasking(spec, tick) && AllFull(c.status, c.jobs, spec) && AllFull(st, c.jobs, spec)
    requires st.activeJob.Some?
    ensures var step := FinishedActiveJob(c, st, eff, spec, tick);
            && AllFull(step.cluster.status, step.cluster.jobs, spec)
            && (step.Proceed? ==> AllFull(step.st, step.cluster.jobs, spec))
  {
  }

  lemma DecidedKeepsFull(c: Cluster, st: Status, eff: Chunking, spec: Spec, secrets: string, tick: Tick)
    requires Unmasking(spec, tick) && AllFull(c.status, c.jobs, spec) && AllFull(st, c.jobs, spec)
    ensures var c' := Decided(c, st, eff, spec, secrets, tick); AllFull(c'.status, c'.jobs, spec)
  {
    var reason := IngestReason(st, spec, tick.freshnessDue);
    if reason.Some? {
      assert ModeFor(reason.value, spec) == Full;
    }
  }

  lemma PassKeepsUnmaskable(w: World, tick: Tick)
    requires Unmaskable(w) && Unmasking(w.spec, tick)
    ensures Unmaskable(Apply(w, Reconcile(tick)))
  {
    if !w.spec.suspend {
      var st := w.cluster.status.Refreshed(w.spec);
      var eff := st.Effective(w.spec);
      var cleared := ClearDeadJob(w.cluster, st, w.spec, w.secrets, tick.now);
      assert AllFull(cleared.cluster.status, cleared.cluster.jobs, w.spec);
      assert AllFull(cleared.st, cleared.cluster.jobs, w.spec);
      if cleared.st.activeJob.Some? {
        FinishedKeepsFull(cleared.cluster, cleared.st, eff, w.spec, tick);
      }
      var step := BeforeDecision(w.cluster, st, eff, w.spec, w.secrets, tick);
      if step.Proceed? {
        DecidedKeepsFull(step.cluster, step.st, eff, w.spec, w.secrets, tick);
      }
    }
  }

  lemma EventKeepsUnmaskable(w: World, e: Event)
    requires Unmaskable(w) && !e.EditSpec? && (e.Reconcile? ==> Unmasking(w.spec, e.tick))
    ensures Unmaskable(Apply(w, e))
  {
    if e.Reconcile? {
      PassKeepsUnmaskable(w, e.tick);
    }
  }

  predicate UnmaskingRun(spec: Spec, es: seq<Event>) {
    forall i :: 0 <= i < |es| && es[i].Reconcile? ==> Unmasking(spec, es[i].tick)
  }

  lemma {:induction false} UnmaskableIsNeverMasked(w: World, es: seq<Event>)
    requires Unmaskable(w) && SpecFixed(es) && UnmaskingRun(w.spec, es)
    ensures NeverMasked(w, es)
    decreases |es|
  {
    if es != [] {
      EventKeepsUnmaskable(w, es[0]);
      UnmaskableIsNeverMasked(Apply(w, es[0]), es[1..]);
    }
  }

  /** If no pass finds the freshness schedule due, or in full mode, every evaluation
      written back along any run from creation is attributed to the chunking it
      measured. */
  lemma RecallIsAttributedFromCreation(spec: Spec, secrets: string, es: seq<Event>, tick: Tick)
    requires SpecOk(spec) && UnmaskingRun(spec, es) && SpecFixed(es)
    ensures var w := Run(FreshWorld(spec, secrets), es);
            ConsumedEval(w, tick).Some? ==> ConsumedEval(w, tick).value.measured == Some(w.Effective())
  {
    var w := FreshWorld(spec, secrets);
    FreshWorldIsSound(spec, secrets);
    UnmaskableIsNeverMasked(w, es);
    RecallIsAttributed(w, es, tick);
  }

  // ---------------------------------------------------------------------------
  // An episode begins at the first full ingest after an edit
  // ---------------------------------------------------------------------------

  /** What the workers have really done: the store holds the chunking of a promoted
      ingest that has not failed, and a finished full ingest has promoted. */
  ghost predicate Truthful(w: World) {
    forall n | n in w.cluster.jobs && n.IngestJob? ::
      var job := w.cluster.jobs[n];
      && (job.promoted && job.state != FailedJob ==> w.store == Some(job.workerChunking))
      && (job.state == Complete && job.mode == Full ==> job.promoted)
  }

  lemma BeforeDecisionJobs(c: Cluster, st: Status, eff: Chunking, spec: Spec, secrets: string, tick: Tick)
    ensures var step := BeforeDecision(c, st, eff, spec, secrets, tick);
            forall n | n in step.cluster.jobs :: n in c.jobs && step.cluster.jobs[n] == c.jobs[n]
  {
    var cleared := ClearDeadJob(c, st, spec, secrets, tick.now);
    assert forall n | n in cleared.cluster.jobs :: n in c.jobs && cleared.cluster.jobs[n] == c.jobs[n];
  }

  /** A pass only deletes Jobs or adds one that has not started its work. */
  lemma PassJobs(c: Cluster, spec: Spec, secrets: string, tick: Tick, n: JobName)
    requires n in Pass(c, spec, secrets, tick).jobs
    ensures var job := Pass(c, spec, secrets, tick).jobs[n];
            (n in c.jobs && c.jobs[n] == job) || (job.state == Running && !job.promoted)
  {
    var st := c.status.Refreshed(spec);
    BeforeDecisionJobs(c, st, st.Effective(spec), spec, secrets, tick);
  }

  lemma EventKeepsTruthful(w: World, e: Event)
    requires Sound(w) && Truthful(w)
    ensures Truthful(Apply(w, e))
  {
    if e.Reconcile? {
      forall n | n in Apply(w, e).cluster.jobs && n.IngestJob?
        ensures var job := Apply(w, e).cluster.jobs[n];
                (n in w.cluster.jobs && w.cluster.jobs[n] == job) || (job.state == Running && !job.promoted)
      {
        PassJobs(w.cluster, w.spec, w.secrets, e.tick, n);
      }
    } else if (e.Promote? || e.Fail?) && RunningJob(w, e.name) {
      OnlyActiveRuns(w, e.name);
      forall n | n in w.cluster.jobs && n.IngestJob? ensures n == w.Status().activeJob.value {
        var s := w.Status();
        assert JobOk(s.activeJob, s.ingestRound, s.evalRound, s.observedSpecHash.Some?, n, w.cluster.jobs[n]);
      }
    }
  }

  lemma {:induction false} RunKeepsTruthful(w: World, es: seq<Event>)
    requires Sound(w) && Truthful(w) && ValidEdits(es)
    ensures Sound(Run(w, es)) && Truthful(Run(w, es))
    decreases |es|
  {
    if es != [] {
      EventKeepsSound(w, es[0]);
      EventKeepsTruthful(w, es[0]);
      RunKeepsTruthful(Apply(w, es[0]), es[1..]);
    }
  }

  /** The pass writes back a full ingest of the current spec. */
  predicate WritesBackFull(w: World, tick: Tick) {
    && !w.spec.suspend && w.Active().Some? && w.Status().activeJob.value.IngestJob?
    && var job := w.Active().value;
       && job.mode == Full && job.state == Complete && job.result.IngestedChunks? && tick.resultVisible
       && job.specHash == HashOf(w.spec) && job.secretsHash == w.secrets
       && !TimedOut(job, w.Status().activeJobStartedAt, tick.now)
  }

  lemma IngestedAgreement(s: Status, jobs: map<JobName, Job>, spec: Spec, eff: Chunking, chunks: int, now: int,
                          store: Option<Chunking>)
    ensures var t := s.Ingested(spec, eff, HashOf(spec), chunks, now);
            && t.phase == Ready && !t.OwesIngest(spec) && t.Effective(spec) == eff
            && (AgreesAt(t, jobs, spec, store) <==> store == Some(eff))
  {
  }

  lemma EpisodeBegins(w: World, tick: Tick)
    requires Sound(w) && Truthful(w) && WritesBackFull(w, tick)
    ensures var w' := Apply(w, Reconcile(tick)); Steady(w') && Agrees(w')
  {
    var s := w.Status();
    var job := w.Active().value;
    var st := s.Refreshed(w.spec);
    assert JobOk(s.activeJob, s.ingestRound, s.evalRound, s.observedSpecHash.Some?, s.activeJob.value, job);
    ChunkingLabel.DecodeOfEncode(job.workerChunking, st.Effective(w.spec));
    EventKeepsSound(w, Reconcile(tick));
    var w' := Apply(w, Reconcile(tick));
    assert w'.Status() == st.Ingested(w.spec, job.workerChunking, job.specHash, job.result.total, tick.now);
    IngestedAgreement(st, w'.cluster.jobs, w.spec, job.workerChunking, job.result.total, tick.now, w.store);
  }

  /** After any history of edits, failures and tuning: from the first full ingest of
      the current spec on, and while the spec stands, every evaluation written back
      is attributed to the chunking it measured. */
  lemma RecallIsAttributedAfterReindex(spec: Spec, secrets: string, before: seq<Event>, ingested: Tick,
                                       after: seq<Event>, tick: Tick)
    requires SpecOk(spec) && ValidEdits(before) && SpecFixed(after)
    requires WritesBackFull(Run(FreshWorld(spec, secrets), before), ingested)
    requires NeverMasked(Apply(Run(FreshWorld(spec, secrets), before), Reconcile(ingested)), after)
    ensures var w := Run(Apply(Run(FreshWorld(spec, secrets), before), Reconcile(ingested)), after);
            ConsumedEval(w, tick).Some? ==> ConsumedEval(w, tick).value.measured == Some(w.Effective())
  {
    FreshWorldIsSound(spec, secrets);
    RunKeepsTruthful(FreshWorld(spec, secrets), before);
    EpisodeBegins(Run(FreshWorld(spec, secrets), before), ingested);
    RecallIsAttributed(Apply(Run(FreshWorld(spec, secrets), before), Reconcile(ingested)), after, tick);
  }

  // ---------------------------------------------------------------------------
  // Where attribution fails
  // ---------------------------------------------------------------------------

  /** An evaluation in flight across a spec edit is attributed to the chunking of
      the new spec, so a missed target is recorded correctly precisely when the new
      spec asks for the chunking that was measured. */
  lemma EditMisattributesEval(w: World, edited: Spec, tick: Tick)
    requires Steady(w) && Agrees(w)
    requires HashOf(edited) != HashOf(w.spec)
    requires w.Status().effectiveChunking.Some?
    requires edited.retrievalQuality.Some?
    requires ConsumedEval(Apply(w, EditSpec(edited)), tick).Some?
    requires var r := ConsumedEval(Apply(w, EditSpec(edited)), tick).value.result.result;
             r.queries != 0 && BelowTarget(edited.retrievalQuality.value, r.recallPercent)
    ensures var w1 := Apply(w, EditSpec(edited));
            var recorded := Apply(w1, Reconcile(tick)).Status().bestChunking;
            && recorded == Some(SpecChunking(edited))
            && (recorded == ConsumedEval(w1, tick).value.measured <==> SpecChunking(edited) == w.Effective())
  {
    ConsumedEvalIsGated(Apply(w, EditSpec(edited)), tick);
  }

  /** What a pass that launches an ingest leaves behind. */
  lemma LaunchFacts(w: World, tick: Tick)
    requires Steady(w) && LaunchedIngest(w, tick).Some?
    ensures var w' := Apply(w, Reconcile(tick));
            var job := LaunchedIngest(w, tick).value;
            && w'.Active() == Some(job) && w'.Status().activeJob.value.IngestJob?
            && job.state == Running && job.workerChunking == w.Effective() && Labelled(job)
            && job.specHash == HashOf(w.spec) && job.secretsHash == w.secrets
            && job.activeDeadlineSeconds == w.spec.activeDeadlineSeconds
            && w'.Status().activeJobStartedAt == Some(tick.now)
            && w'.Status().effectiveChunking == w.Status().effectiveChunking
  {
    var st := w.cluster.status;
    var eff := st.Effective(w.spec);
    EffectiveIsFilled(st, w.spec);
    var step := BeforeDecision(w.cluster, st, eff, w.spec, w.secrets, tick);
    var name := Apply(w, Reconcile(tick)).Status().activeJob.value;
    assert step.Proceed?;
    DecidedLaunch(step.cluster, step.st, eff, w.spec, w.secrets, tick, name);
  }

  /** What an incremental worker that finds its sources unchanged leaves behind. */
  lemma UnchangedSourcesFacts(w: World, chunks: int)
    requires w.Active().Some? && w.Status().activeJob.value.IngestJob? && w.store.Some?
    requires w.Active().value.state == Running && w.Active().value.mode == Incremental
    ensures var w' := Apply(w, Succeed(w.Status().activeJob.value, IngestedChunks(chunks)));
            && w'.Status() == w.Status() && w'.store == w.store && w'.spec == w.spec && w'.secrets == w.secrets
            && w'.Active() == Some(w.Active().value.(state := Complete, result := IngestedChunks(chunks),
                 measured := None))
  {
  }

  /** What a pass that writes back a finished ingest leaves behind. */
  lemma WriteBackFacts(w: World, tick: Tick)
    requires Steady(w) && w.Active().Some? && w.Status().activeJob.value.IngestJob? && !w.spec.suspend
    requires var job := w.Active().value;
             && job.state == Complete && job.result.IngestedChunks? && tick.resultVisible
             && Labelled(job) && job.secretsHash == w.secrets
             && !TimedOut(job, w.Status().activeJobStartedAt, tick.now)
    ensures Apply(w, Reconcile(tick)).Status() ==
            w.Status().Ingested(w.spec, w.Effective(), HashOf(w.spec), w.Active().value.result.total, tick.now)
  {
    ChunkingLabel.DecodeOfEncode(w.Active().value.workerChunking, w.Effective());
  }

  /** A masked launch: after a worker that found its sources unchanged, the status
      reports the re-index as done while the store still holds what it held. Status
      and store agree afterwards precisely when they agreed before. */
  lemma MaskedLaunchKeepsOldStore(w: World, launch: Tick, chunks: int, finish: Tick)
    requires Steady(w) && w.store.Some?
    requires LaunchedIngest(w, launch).Some? && LaunchedIngest(w, launch).value.mode == Incremental
    requires finish.resultVisible && finish.now <= launch.now + w.spec.activeDeadlineSeconds + DEADLINE_GRACE
    ensures var w1 := Apply(w, Reconcile(launch));
            var w2 := Apply(w1, Succeed(w1.Status().activeJob.value, IngestedChunks(chunks)));
            var w3 := Apply(w2, Reconcile(finish));
            && w3.Status().phase == Ready && !w3.Status().OwesIngest(w3.spec)
            && w3.store == w.store
            && w3.Effective() == w.Effective()
            && (Agrees(w3) <==> w.store == Some(w.Effective()))
  {
    LaunchFacts(w, launch);
    EventKeepsCoherent(w, Reconcile(launch));
    var w1 := Apply(w, Reconcile(launch));
    var e := Succeed(w1.Status().activeJob.value, IngestedChunks(chunks));
    EventKeepsCoherent(w1, e);
    UnchangedSourcesFacts(w1, chunks);
    var w2 := Apply(w1, e);
    WriteBackFacts(w2, finish);
    IngestedAgreement(w2.Status(), Apply(w2, Reconcile(finish)).cluster.jobs, w.spec, w.Effective(), chunks, finish.now,
                      w.store);
  }

  /** A running ingest that is neither stale nor overdue. */
  predicate Ingesting(w: World, now: int) {
    && w.Active().Some? && w.Status().activeJob.value.IngestJob? && w.Active().value.state == Running
    && !IngestIsStale(w.Status().activeJob.value, w.Active().value, w.spec, w.secrets)
    && !TimedOut(w.Active().value, w.Status().activeJobStartedAt, now)
  }

  /** A cron tick during a running ingest only sets the deferral flag. */
  lemma CronTickDefers(w: World, tick: Tick)
    requires !w.spec.suspend && w.spec.freshnessSchedule != "" && tick.freshnessDue
    requires !w.Status().UserEdited(HashOf(w.spec)) && Ingesting(w, tick.now)
    ensures Apply(w, Reconcile(tick)) == w.(cluster := w.cluster.(status := w.Status().(deferCronIngest := true)))
  {
  }

  /** A failed ingest is written off; the flag and the pending work stay. */
  lemma FailureSeen(w: World, tick: Tick)
    requires !w.spec.suspend && !w.Status().UserEdited(HashOf(w.spec))
    requires Ingesting(w, tick.now)
    ensures var name := w.Status().activeJob.value;
            Apply(Apply(w, Fail(name, false)), Reconcile(tick)) ==
            w.(cluster := Cluster(w.Status().IngestFailed(w.Active().value.specHash, tick.now),
                w.cluster.jobs - {name}))
  {
  }

  /** The deferred tick is served first once the retry delay is over. */
  lemma DeferredIsServedFirst(w: World, tick: Tick)
    requires !w.spec.suspend && !w.Status().UserEdited(HashOf(w.spec)) && w.Status().activeJob.None?
    requires w.Status().deferCronIngest && !RetryWait(w.Status(), HashOf(w.spec), tick.now)
    requires IngestJob(w.Status().ingestRound + 1) !in w.cluster.jobs
    ensures LaunchedIngest(w, tick) == Some(NewJob(w.Effective(), w.spec, w.secrets, ModeFor(DeferredCron, w.spec)))
    ensures Apply(w, Reconcile(tick)).Status().OwesIngest(w.spec) == w.Status().OwesIngest(w.spec)
  {
  }

  /** How a launch gets masked: whenever a cron tick fires during an ingest that then
      fails, the next launch serves the tick, incrementally unless the user asked for
      full runs, although the failed work is still owed. */
  lemma FailureAfterCronTickMasks(w: World, fires: Tick, seen: Tick, retry: Tick)
    requires Sound(w) && !w.spec.suspend && w.spec.freshnessSchedule != "" && w.spec.ingestionMode != Some(Full)
    requires !w.Status().UserEdited(HashOf(w.spec)) && w.Status().OwesIngest(w.spec)
    requires Ingesting(w, fires.now) && fires.freshnessDue && Ingesting(w, seen.now)
    requires retry.now >= seen.now + INGEST_FAILURE_RETRY_DELAY
    ensures var w1 := Apply(w, Reconcile(fires));
            var w2 := Apply(Apply(w1, Fail(w1.Status().activeJob.value, false)), Reconcile(seen));
            && LaunchedIngest(w2, retry).Some?
            && LaunchedIngest(w2, retry).value.mode == Incremental
            && Masked(Apply(w2, Reconcile(retry)))
            && w2.store == w.store && w2.Effective() == w.Effective()
  {
    CronTickDefers(w, fires);
    var w1 := Apply(w, Reconcile(fires));
    FailureSeen(w1, seen);
    var w2 := Apply(Apply(w1, Fail(w1.Status().activeJob.value, false)), Reconcile(seen));
    EventKeepsSound(w, Reconcile(fires));
    EventKeepsSound(w1, Fail(w1.Status().activeJob.value, false));
    EventKeepsSound(Apply(w1, Fail(w1.Status().activeJob.value, false)), Reconcile(seen));
    NextRoundIsFree(w2);
    DeferredIsServedFirst(w2, retry);
  }

  /** Job names never collide: the next round has no Job yet. */
  lemma NextRoundIsFree(w: World)
    requires Sound(w)
    ensures IngestJob(w.Status().ingestRound + 1) !in w.cluster.jobs
    ensures EvalJob(w.Status().evalRound + 1) !in w.cluster.jobs
  {
    var s := w.Status();
    assert forall n | n in w.cluster.jobs ::
        JobOk(s.activeJob, s.ingestRound, s.evalRound, s.observedSpecHash.Some?, n, w.cluster.jobs[n]);
  }

  // ---------------------------------------------------------------------------
  // Auto-tune along a run
  // ---------------------------------------------------------------------------

  /** What a pass makes of a consumed evaluation. */
  datatype Verdict = NoVerdict | Met | Missed(chunking: Chunking, recall: int)

  function VerdictOf(w: World, e: Event): Verdict {
    if e.Reconcile? && ConsumedEval(w, e.tick).Some? && w.spec.retrievalQuality.Some? then
      var r := ConsumedEval(w, e.tick).value.result.result;
      if r.queries == 0 then NoVerdict
      else if BelowTarget(w.spec.retrievalQuality.value, r.recallPercent) then Missed(w.Effective(), r.recallPercent)
      else Met
    else NoVerdict
  }

  /** An event that makes the controller owe a re-index for auto-tune's sake. */
  predicate Forces(w: World, e: Event) {
    !w.Status().pendingRetune && Apply(w, e).Status().pendingRetune
  }

  /** The status fields auto-tune works with. */
  datatype TuneState = TuneState(effective: Chunking, attempts: int, best: Option<Chunking>, bestRecall: int,
      pending: bool)

  function TuneOf(s: Status, spec: Spec): TuneState {
    TuneState(s.Effective(spec), s.autoTuneAttempts, s.bestChunking, s.bestRecallPercent, s.pendingRetune)
  }

  /** Apart from the settling of the pending flag, nothing but a verdict moves the
      tuning state: not ingests, failures, cancellations, timeouts or lost Jobs. */
  predicate Untouched(t: TuneState, t': TuneState) {
    t' == t || t' == t.(pending := false)
  }

  lemma FinalizedIngestTuning(c: Cluster, name: JobName, job: Job, eff: Chunking, spec: Spec, tick: Tick)
    requires Labelled(job) && job.workerChunking == c.status.Effective(spec)
    ensures Untouched(TuneOf(c.status, spec),
        TuneOf(FinalizedIngest(c, c.status, name, job, eff, spec, tick).status, spec))
  {
    ChunkingLabel.DecodeOfEncode(job.workerChunking, eff);
  }

  lemma FinalizedEvalTuning(c: Cluster, job: Job, spec: Spec, tick: Tick)
    requires job.state != Running
    requires job.state != Complete || !tick.resultVisible || !job.result.Measured? || spec.retrievalQuality.None?
             || job.result.result.queries == 0
    ensures TuneOf(FinalizedEval(c, c.status, job, spec, tick).status, spec) == TuneOf(c.status, spec)
  {
  }

  lemma BeforeDecisionTuning(c: Cluster, eff: Chunking, spec: Spec, secrets: string, tick: Tick)
    requires WellFormed(c.status, c.jobs) && SteadyAt(c.status, c.jobs, spec)
    requires ActiveIn(c.status, c.jobs) && c.status.activeJob.value.EvalJob?
             && !TimedOut(c.jobs[c.status.activeJob.value], c.status.activeJobStartedAt, tick.now) ==>
               var job := c.jobs[c.status.activeJob.value];
               job.state != Complete || !tick.resultVisible || !job.result.Measured? || spec.retrievalQuality.None?
               || job.result.result.queries == 0
    ensures var step := BeforeDecision(c, c.status, eff, spec, secrets, tick);
            && Untouched(TuneOf(c.status, spec), TuneOf(step.cluster.status, spec))
            && (step.Proceed? ==> Untouched(TuneOf(c.status, spec), TuneOf(step.st, spec)))
  {
    var s := c.status;
    if ActiveIn(s, c.jobs) {
      var name := s.activeJob.value;
      var job := c.jobs[name];
      if !IngestIsStale(name, job, spec, secrets) && !TimedOut(job, s.activeJobStartedAt, tick.now) {
        if name.IngestJob? {
          assert JobOk(s.activeJob, s.ingestRound, s.evalRound, s.observedSpecHash.Some?, name, job);
          FinalizedIngestTuning(c, name, job, eff, spec, tick);
        } else if job.state != Running {
          FinalizedEvalTuning(c, job, spec, tick);
        }
      }
    }
  }

  lemma DecidedTuning(c: Cluster, st: Status, eff: Chunking, spec: Spec, secrets: string, tick: Tick)
    ensures var t := TuneOf(Decided(c, st, eff, spec, secrets, tick).status, spec);
            t == TuneOf(c.status, spec) || t == TuneOf(st, spec)
  {
  }

  lemma PassTuning(w: World, tick: Tick)
    requires Steady(w) && VerdictOf(w, Reconcile(tick)).NoVerdict?
    ensures Untouched(TuneOf(w.Status(), w.spec), TuneOf(Apply(w, Reconcile(tick)).Status(), w.spec))
  {
    if !w.spec.suspend {
      var st := w.cluster.status;
      assert st.Refreshed(w.spec) == st;
      var eff := st.Effective(w.spec);
      BeforeDecisionTuning(w.cluster, eff, w.spec, w.secrets, tick);
      var step := BeforeDecision(w.cluster, st, eff, w.spec, w.secrets, tick);
      if step.Proceed? {
        DecidedTuning(step.cluster, step.st, eff, w.spec, w.secrets, tick);
      }
    }
  }

  /** A missed target, seen on the tuning state alone. */
  function AfterMiss(t: TuneState, rq: RetrievalQuality, recall: int): TuneState {
    var b := if t.best.None? || recall > t.bestRecall then t.(best := Some(t.effective), bestRecall := recall) else t;
    if AutoTuneEnabled(rq) && b.attempts < AutoTuneMax(rq) then
      b.(effective := NextChunking(b.effective), attempts := b.attempts + 1, pending := true)
    else if AutoTuneEnabled(rq) && b.effective != b.best.value then
      b.(effective := b.best.value, pending := true)
    else b
  }

  lemma MissTuning(s: Status, spec: Spec, rq: RetrievalQuality, r: EvalResult, now: int)
    requires r.queries != 0
    ensures BelowTarget(rq, r.recallPercent) ==>
              TuneOf(s.Evaluated(spec, rq, r, now), spec) == AfterMiss(TuneOf(s, spec), rq, r.recallPercent)
    ensures !BelowTarget(rq, r.recallPercent) ==>
              TuneOf(s.Evaluated(spec, rq, r, now), spec) == TuneState(s.Effective(spec), 0, None, 0, s.pendingRetune)
  {
    var s0 := s.WithoutActiveJob().(evaluation := Some(Evaluation(r, now)));
    assert TuneOf(s0, spec) == TuneOf(s, spec);
    var b := s0.WithBest(spec, r.recallPercent);
    assert b.Effective(spec) == s.Effective(spec);
  }

  /** One event of a run under one spec, as auto-tune sees it. */
  lemma EventTuning(w: World, e: Event)
    requires Steady(w) && !e.EditSpec?
    ensures var t, t' := TuneOf(w.Status(), w.spec), TuneOf(Apply(w, e).Status(), w.spec);
            match VerdictOf(w, e)
            case NoVerdict => Untouched(t, t')
            case Met => t' == TuneState(t.effective, 0, None, 0, false) && !t.pending
            case Missed(chunking, recall) =>
              && chunking == t.effective && !t.pending
              && t' == AfterMiss(t, w.spec.retrievalQuality.value, recall)
  {
    if VerdictOf(w, e).NoVerdict? {
      if e.Reconcile? {
        PassTuning(w, e.tick);
      } else {
        assert Apply(w, e).Status() == w.Status();
      }
    } else {
      ConsumedEvalIsGated(w, e.tick);
      assert w.Status().Refreshed(w.spec) == w.Status();
      MissTuning(w.Status(), w.spec, w.spec.retrievalQuality.value, ConsumedEval(w, e.tick).value.result.result,
                 e.tick.now);
    }
  }

  // ---------------------------------------------------------------------------
  // What auto-tune may still force
  // ---------------------------------------------------------------------------

  /** No evaluation along the run meets the target. */
  predicate NeverMet(w: World, es: seq<Event>)
    decreases |es|
  {
    es == [] || (!VerdictOf(w, es[0]).Met? && NeverMet(Apply(w, es[0]), es[1..]))
  }

  /** How often the run makes the controller owe a tuning re-index. */
  function ForcedCount(w: World, es: seq<Event>): nat
    decreases |es|
  {
    if es == [] then 0
    else (if Forces(w, es[0]) then 1 else 0) + ForcedCount(Apply(w, es[0]), es[1..])
  }

  predicate Landed(t: TuneState, rq: RetrievalQuality) {
    t.attempts >= AutoTuneMax(rq) && t.best == Some(t.effective)
  }

  /** Attempts left, plus one for the final return to the best configuration. */
  function Budget(t: TuneState, spec: Spec): nat {
    if spec.retrievalQuality.None? then 0
    else
      var rq := spec.retrievalQuality.value;
      (if t.attempts < AutoTuneMax(rq) then AutoTuneMax(rq) - t.attempts else 0) + (if Landed(t, rq) then 0 else 1)
  }

  // ---------------------------------------------------------------------------
  // Auto-tune ends on the best configuration
  // ---------------------------------------------------------------------------

  type Miss = (Chunking, int)

  /** The missed evaluations since the target was last met. */
  function MissLog(w: World, log: seq<Miss>, es: seq<Event>): seq<Miss>
    decreases |es|
  {
    if es == [] then log
    else
      var log' := match VerdictOf(w, es[0])
        case NoVerdict => log
        case Met => []
        case Missed(chunking, recall) => log + [(chunking, recall)];
      MissLog(Apply(w, es[0]), log', es[1..])
  }

  predicate FirstArgmax(log: seq<Miss>, i: nat) {
    && i < |log|
    && (forall j :: 0 <= j < |log| ==> log[j].1 <= log[i].1)
    && (forall j :: 0 <= j < i ==> log[j].1 < log[i].1)
  }

  ghost predicate BestFits(t: TuneState, log: seq<Miss>) {
    if log == [] then t.best.None?
    else exists i: nat :: FirstArgmax(log, i) && t.best == Some(log[i].0) && t.bestRecall == log[i].1
  }

  lemma MissKeepsBest(t: TuneState, log: seq<Miss>, rq: RetrievalQuality, recall: int)
    requires BestFits(t, log)
    ensures BestFits(AfterMiss(t, rq, recall), log + [(t.effective, recall)])
  {
    var log' := log + [(t.effective, recall)];
    if log == [] {
      assert FirstArgmax(log', 0);
    } else {
      var i: nat :| FirstArgmax(log, i) && t.best == Some(log[i].0) && t.bestRecall == log[i].1;
      var k: nat := if recall > t.bestRecall then |log| else i;
      assert FirstArgmax(log', k);
    }
  }

  /** The recorded best recall is the maximum of all missed recalls since the target
      was last met, and the recorded chunking is the one of its first occurrence. */
  lemma {:induction false} BestIsFirstArgmax(w: World, log: seq<Miss>, es: seq<Event>)
    requires Steady(w) && SpecFixed(es) && BestFits(TuneOf(w.Status(), w.spec), log)
    ensures BestFits(TuneOf(Run(w, es).Status(), w.spec), MissLog(w, log, es))
    decreases |es|
  {
    if es != [] {
      EventTuning(w, es[0]);
      EventKeepsCoherent(w, es[0]);
      if VerdictOf(w, es[0]).Missed? {
        MissKeepsBest(TuneOf(w.Status(), w.spec), log, w.spec.retrievalQuality.value, VerdictOf(w, es[0]).recall);
      }
      var log' := match VerdictOf(w, es[0])
        case NoVerdict => log
        case Met => []
        case Missed(chunking, recall) => log + [(chunking, recall)];
      BestIsFirstArgmax(Apply(w, es[0]), log', es[1..]);
    }
  }

  /** An enabled auto-tune gives up (a missed target that forces no re-index) only
      as Degraded and on the best configuration. */
  lemma GivesUpOnBest(w: World, e: Event)
    requires Steady(w) && !e.EditSpec? && VerdictOf(w, e).Missed?
    requires AutoTuneEnabled(w.spec.retrievalQuality.value) && !Forces(w, e)
    ensures var w' := Apply(w, e);
            && w'.Status().phase == Degraded
            && Landed(TuneOf(w'.Status(), w.spec), w.spec.retrievalQuality.value)
  {
    EventTuning(w, e);
    ConsumedEvalIsGated(w, e.tick);
    assert w.Status().Refreshed(w.spec) == w.Status();
  }

  lemma LandedStep(w: World, e: Event)
    requires Steady(w) && !e.EditSpec? && !VerdictOf(w, e).Met? && w.spec.retrievalQuality.Some?
    requires Landed(TuneOf(w.Status(), w.spec), w.spec.retrievalQuality.value)
    ensures var w' := Apply(w, e);
            && w'.spec == w.spec && w'.Effective() == w.Effective() && !Forces(w, e)
            && Landed(TuneOf(w'.Status(), w.spec), w.spec.retrievalQuality.value)
  {
    EventTuning(w, e);
  }

  /** Once landed, a run that never meets the target stays on the best configuration
      and forces nothing more. */
  lemma {:induction false} LandedStays(w: World, es: seq<Event>)
    requires Steady(w) && SpecFixed(es) && NeverMet(w, es) && w.spec.retrievalQuality.Some?
    requires Landed(TuneOf(w.Status(), w.spec), w.spec.retrievalQuality.value)
    ensures var w' := Run(w, es);
            && ForcedCount(w, es) == 0
            && w'.Effective() == w.Effective()
            && Landed(TuneOf(w'.Status(), w'.spec), w.spec.retrievalQuality.value)
    decreases |es|
  {
    if es != [] {
      LandedStep(w, es[0]);
      EventKeepsCoherent(w, es[0]);
      LandedStays(Apply(w, es[0]), es[1..]);
    }
  }
}
