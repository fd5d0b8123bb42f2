/** How many re-indexes auto-tune can force, from any world a KnowledgeBase can reach. */
module AutoTuneBounds {
  import opened Common
  import opened Tuning
  import opened KnowledgeBase
  import opened Reconciler
  import opened ControllerRuns
  import opened ControllerTheorems
  import ChunkingLabel

  // ---------------------------------------------------------------------------
  // What every event keeps, spec edits included
  // ---------------------------------------------------------------------------

  /** The chunking an ingest of this corpus works with. */
  function ChunkingFor(s: Status, hash: CorpusHash): Chunking {
    if s.effectiveChunking.Some? then s.effectiveChunking.value else hash.chunking
  }

  /** An active ingest works for the corpus that was last ingested, if its chunking is
      tuned, and with the effective chunking; no re-tune is pending while an evaluation
      is active; and attempts are only counted on a tuned chunking. */
  predicate TrackedAt(s: Status, jobs: map<JobName, Job>) {
    && (ActiveIn(s, jobs) && s.activeJob.value.IngestJob? ==>
          var job := jobs[s.activeJob.value];
          && (s.effectiveChunking.Some? ==> s.observedSpecHash == Some(job.specHash))
          && job.workerChunking == ChunkingFor(s, job.specHash))
    && (s.activeJob.Some? && s.activeJob.value.EvalJob? ==> !s.pendingRetune)
    && (s.effectiveChunking.None? ==> s.autoTuneAttempts == 0)
  }

  ghost predicate Tracked(w: World) {
    Sound(w) && TrackedAt(w.cluster.status, w.cluster.jobs)
  }

  lemma ClearDeadJobTracked(c: Cluster, spec: Spec, secrets: string, now: int)
    requires TrackedAt(c.status, c.jobs)
    ensures var step := ClearDeadJob(c, c.status.Refreshed(spec), spec, secrets, now);
            TrackedAt(step.cluster.status, step.cluster.jobs) && TrackedAt(step.st, step.cluster.jobs)
  {
    var s := c.status;
    var st := s.Refreshed(spec);
    if ActiveIn(s, c.jobs) && s.activeJob.value.IngestJob? && s.UserEdited(HashOf(spec)) {
      assert IngestIsStale(s.activeJob.value, c.jobs[s.activeJob.value], spec, secrets);
    }
  }

  lemma FinishedTracked(c: Cluster, st: Status, eff: Chunking, spec: Spec, tick: Tick)
    requires TrackedAt(c.status, c.jobs) && TrackedAt(st, c.jobs) && st.activeJob.Some?
    ensures var step := FinishedActiveJob(c, st, eff, spec, tick);
            && TrackedAt(step.cluster.status, step.cluster.jobs)
            && (step.Proceed? ==> TrackedAt(step.st, step.cluster.jobs))
  {
    var name := st.activeJob.value;
    if name in c.jobs && c.jobs[name].state != Running && name.EvalJob? {
      FinalizedEvalTracked(c, st, c.jobs[name], spec, tick);
    }
  }

  lemma FinalizedEvalTracked(c: Cluster, st: Status, job: Job, spec: Spec, tick: Tick)
    requires TrackedAt(c.status, c.jobs) && TrackedAt(st, c.jobs)
    ensures TrackedAt(FinalizedEval(c, st, job, spec, tick).status, c.jobs)
  {
    if spec.retrievalQuality.Some? && job.result.Measured? {
      var rq, r := spec.retrievalQuality.value, job.result.result;
      var s0 := st.WithoutActiveJob().(evaluation := Some(Evaluation(r, tick.now)));
      var b := s0.WithBest(spec, r.recallPercent);
      assert b.effectiveChunking == st.effectiveChunking && b.autoTuneAttempts == st.autoTuneAttempts;
      assert TrackedAt(st.Evaluated(spec, rq, r, tick.now), c.jobs);
    }
  }

  lemma DecidedTracked(c: Cluster, st: Status, eff: Chunking, spec: Spec, secrets: string, tick: Tick)
    requires TrackedAt(c.status, c.jobs) && TrackedAt(st, c.jobs) && ConfigsOk(st)
    requires eff == st.Effective(spec) && FillDefaults(eff) == eff && !st.UserEdited(HashOf(spec))
    ensures var c' := Decided(c, st, eff, spec, secrets, tick); TrackedAt(c'.status, c'.jobs)
  {
  }

  lemma PassTracked(w: World, tick: Tick)
    requires Tracked(w)
    ensures var w' := Apply(w, Reconcile(tick)); TrackedAt(w'.cluster.status, w'.cluster.jobs)
  {
    var c := w.cluster;
    if !w.spec.suspend {
      var st := c.status.Refreshed(w.spec);
      var eff := st.Effective(w.spec);
      EffectiveIsFilled(st, w.spec);
      ClearDeadJobTracked(c, w.spec, w.secrets, tick.now);
      BeforeDecisionWellFormed(c, st, eff, w.spec, w.secrets, tick);
      var cleared := ClearDeadJob(c, st, w.spec, w.secrets, tick.now);
      if cleared.st.activeJob.Some? {
        FinishedTracked(cleared.cluster, cleared.st, eff, w.spec, tick);
      }
      var step := BeforeDecision(c, st, eff, w.spec, w.secrets, tick);
      if step.Proceed? {
        DecidedTracked(step.cluster, step.st, eff, w.spec, w.secrets, tick);
      }
    }
  }

  lemma EventKeepsTracked(w: World, e: Event)
    requires Tracked(w) && (e.EditSpec? ==> SpecOk(e.spec))
    ensures Tracked(Apply(w, e))
  {
    EventKeepsSound(w, e);
    if e.Reconcile? {
      PassTracked(w, e.tick);
    }
  }

  lemma FreshWorldIsTracked(spec: Spec, secrets: string)
    requires SpecOk(spec)
    ensures Tracked(FreshWorld(spec, secrets))
  {
    FreshWorldIsSound(spec, secrets);
  }

  lemma {:induction false} RunKeepsTracked(w: World, es: seq<Event>)
    requires Tracked(w) && ValidEdits(es)
    ensures Tracked(Run(w, es))
    decreases |es|
  {
    if es != [] {
      EventKeepsTracked(w, es[0]);
      RunKeepsTracked(Apply(w, es[0]), es[1..]);
    }
  }

  // ---------------------------------------------------------------------------
  // Tuning as the next pass will see it
  // ---------------------------------------------------------------------------

  /** The tuning state after the reset a pass begins with. */
  function Upcoming(s: Status, spec: Spec): TuneState {
    TuneOf(s.Refreshed(spec), spec)
  }

  /** The fields of the status that tuning and its reset depend on. */
  predicate SameTuning(x: Status, y: Status) {
    && x.effectiveChunking == y.effectiveChunking && x.autoTuneAttempts == y.autoTuneAttempts
    && x.bestChunking == y.bestChunking && x.bestRecallPercent == y.bestRecallPercent
    && x.pendingRetune == y.pendingRetune && x.observedSpecHash == y.observedSpecHash
  }

  /** `x` is the status before a pass or has the tuning of its reset, possibly with the
      pending flag settled by a write-back of the current corpus. */
  predicate Undisturbed(s: Status, x: Status, spec: Spec) {
    && Untouched(Upcoming(s, spec), Upcoming(x, spec))
    && (x.pendingRetune ==> s.pendingRetune)
  }

  lemma SameTuningUndisturbed(s: Status, x: Status, spec: Spec)
    requires SameTuning(x, s) || SameTuning(x, s.Refreshed(spec))
    ensures Undisturbed(s, x, spec)
  {
  }

  lemma WriteBackUndisturbed(s: Status, job: Job, eff: Chunking, spec: Spec, chunks: int, now: int)
    requires !s.UserEdited(HashOf(spec)) && job.specHash == HashOf(spec) && Labelled(job)
    requires job.workerChunking == ChunkingFor(s, job.specHash)
    ensures var labelled := ChunkingLabel.Decode(job.chunkingLabel, eff);
            Undisturbed(s, s.Ingested(spec, labelled, job.specHash, chunks, now), spec)
  {
    ChunkingLabel.DecodeOfEncode(job.workerChunking, eff);
    var t := s.Ingested(spec, job.workerChunking, job.specHash, chunks, now);
    assert t.Refreshed(spec) == t;
    assert TuneOf(t, spec) == TuneOf(s, spec).(pending := false);
  }

  /** The active evaluation of a status, while it still exists. */
  function EvalIn(s: Status, jobs: map<JobName, Job>): Option<Job> {
    if ActiveIn(s, jobs) && s.activeJob.value.EvalJob? then Some(jobs[s.activeJob.value]) else None
  }

  /** A Job whose result misses the target, or may still do so. */
  predicate MayMiss(job: Job, rq: RetrievalQuality) {
    || job.state == Running
    || (job.state == Complete && job.result.Measured? && job.result.result.queries != 0
        && BelowTarget(rq, job.result.result.recallPercent))
  }

  /** An evaluation that may miss its target is in flight although the corpus it runs on
      is no longer the one the user asks for. */
  predicate EvalAcrossEditIn(s: Status, jobs: map<JobName, Job>, spec: Spec) {
    && spec.retrievalQuality.Some? && s.observedSpecHash != Some(HashOf(spec))
    && EvalIn(s, jobs).Some? && MayMiss(EvalIn(s, jobs).value, spec.retrievalQuality.value)
  }

  predicate EvalAcrossEdit(w: World) {
    EvalAcrossEditIn(w.cluster.status, w.cluster.jobs, w.spec)
  }

  /** The cluster after some part of a pass has done nothing new to tuning and has not
      brought an evaluation across an edit into flight. */
  predicate Uneventful(w: World, x: Status, jobs: map<JobName, Job>) {
    Undisturbed(w.Status(), x, w.spec) && (EvalAcrossEditIn(x, jobs, w.spec) ==> EvalAcrossEdit(w))
  }

  lemma ClearDeadJobUneventful(w: World, now: int)
    ensures var step := ClearDeadJob(w.cluster, w.Status().Refreshed(w.spec), w.spec, w.secrets, now);
            && Uneventful(w, step.cluster.status, step.cluster.jobs)
            && SameTuning(step.st, w.Status().Refreshed(w.spec))
  {
    var s := w.Status();
    var st := s.Refreshed(w.spec);
    if ActiveIn(st, w.cluster.jobs) && ClearDeadJob(w.cluster, st, w.spec, w.secrets, now) != Proceed(w.cluster, st) {
      var failed := st.IngestFailed(HashOf(w.spec), now);
      SameTuningUndisturbed(s, st.WithoutActiveJob(), w.spec);
      SameTuningUndisturbed(s, failed, w.spec);
    } else {
      SameTuningUndisturbed(s, s, w.spec);
    }
  }

  /** A Job that outlives the clearing leaves everything as it was. */
  lemma StillActive(w: World, now: int)
    ensures var st := w.Status().Refreshed(w.spec);
            var cleared := ClearDeadJob(w.cluster, st, w.spec, w.secrets, now);
            cleared.st.activeJob.Some? ==>
              && cleared == Proceed(w.cluster, st) && w.Status().activeJob.Some?
              && (w.Status().activeJob.value in w.cluster.jobs ==>
                    var job := w.cluster.jobs[w.Status().activeJob.value];
                    && !IngestIsStale(w.Status().activeJob.value, job, w.spec, w.secrets)
                    && !TimedOut(job, st.activeJobStartedAt, now))
  {
  }

  lemma FinalizedIngestUneventful(w: World, name: JobName, job: Job, tick: Tick)
    requires Tracked(w) && w.Status().activeJob == Some(name) && name.IngestJob?
    requires name in w.cluster.jobs && w.cluster.jobs[name] == job
    requires !IngestIsStale(name, job, w.spec, w.secrets)
    ensures var st := w.Status().Refreshed(w.spec);
            var c' := FinalizedIngest(w.cluster, st, name, job, st.Effective(w.spec), w.spec, tick);
            Uneventful(w, c'.status, c'.jobs)
  {
    var s := w.Status();
    assert JobOk(s.activeJob, s.ingestRound, s.evalRound, s.observedSpecHash.Some?, name, job);
    var st := s.Refreshed(w.spec);
    assert st == s;
    var c' := FinalizedIngest(w.cluster, st, name, job, st.Effective(w.spec), w.spec, tick);
    if job.state != FailedJob && tick.resultVisible && job.result.IngestedChunks? {
      WriteBackUndisturbed(s, job, st.Effective(w.spec), w.spec, job.result.total, tick.now);
    } else {
      SameTuningUndisturbed(s, c'.status, w.spec);
    }
  }

  lemma FinalizedEvalUneventful(w: World, job: Job, tick: Tick)
    requires job.state == Complete && tick.resultVisible && job.result.Measured? && w.spec.retrievalQuality.Some? ==>
               job.result.result.queries == 0
    requires EvalIn(w.Status(), w.cluster.jobs) == Some(job) && job.state != Running
    ensures var c' := FinalizedEval(w.cluster, w.Status().Refreshed(w.spec), job, w.spec, tick);
            Uneventful(w, c'.status, c'.jobs)
  {
    var c' := FinalizedEval(w.cluster, w.Status().Refreshed(w.spec), job, w.spec, tick);
    SameTuningUndisturbed(w.Status(), c'.status, w.spec);
  }

  lemma FinishedUneventful(w: World, tick: Tick)
    requires Tracked(w) && !w.spec.suspend && VerdictOf(w, Reconcile(tick)).NoVerdict?
    requires ClearDeadJob(w.cluster, w.Status().Refreshed(w.spec), w.spec, w.secrets, tick.now).st.activeJob.Some?
    ensures var st := w.Status().Refreshed(w.spec);
            st.activeJob.Some? &&
            var step := FinishedActiveJob(w.cluster, st, st.Effective(w.spec), w.spec, tick);
            && Uneventful(w, step.cluster.status, step.cluster.jobs)
            && (step.Proceed? ==> SameTuning(step.st, st) && step.st.activeJob.None?)
  {
    StillActive(w, tick.now);
    var s := w.Status();
    var st := s.Refreshed(w.spec);
    var name := s.activeJob.value;
    var step := FinishedActiveJob(w.cluster, st, st.Effective(w.spec), w.spec, tick);
    if name in w.cluster.jobs && w.cluster.jobs[name].state != Running {
      if name.IngestJob? {
        FinalizedIngestUneventful(w, name, w.cluster.jobs[name], tick);
      } else {
        FinalizedEvalUneventful(w, w.cluster.jobs[name], tick);
      }
    } else {
      SameTuningUndisturbed(s, step.cluster.status, w.spec);
    }
  }

  lemma DecidedUneventful(w: World, c: Cluster, st: Status, tick: Tick)
    requires Uneventful(w, c.status, c.jobs) && SameTuning(st, w.Status().Refreshed(w.spec)) && st.activeJob.None?
    ensures var c' := Decided(c, st, st.Effective(w.spec), w.spec, w.secrets, tick);
            Uneventful(w, c'.status, c'.jobs)
  {
    var c' := Decided(c, st, st.Effective(w.spec), w.spec, w.secrets, tick);
    if c' != c {
      SameTuningUndisturbed(w.Status(), c'.status, w.spec);
    }
  }

  lemma BeforeDecisionUneventful(w: World, tick: Tick)
    requires Tracked(w) && !w.spec.suspend && VerdictOf(w, Reconcile(tick)).NoVerdict?
    ensures var st := w.Status().Refreshed(w.spec);
            var step := BeforeDecision(w.cluster, st, st.Effective(w.spec), w.spec, w.secrets, tick);
            && Uneventful(w, step.cluster.status, step.cluster.jobs)
            && (step.Proceed? ==> SameTuning(step.st, st))
  {
    var st := w.Status().Refreshed(w.spec);
    ClearDeadJobUneventful(w, tick.now);
    if ClearDeadJob(w.cluster, st, w.spec, w.secrets, tick.now).st.activeJob.Some? {
      StillActive(w, tick.now);
      FinishedUneventful(w, tick);
    }
  }

  lemma PassUneventful(w: World, tick: Tick)
    requires Tracked(w) && VerdictOf(w, Reconcile(tick)).NoVerdict?
    ensures var w' := Apply(w, Reconcile(tick)); Uneventful(w, w'.cluster.status, w'.cluster.jobs)
  {
    if w.spec.suspend {
      SameTuningUndisturbed(w.Status(), w.Status().(phase := Suspended), w.spec);
    } else {
      var st := w.Status().Refreshed(w.spec);
      BeforeDecisionUneventful(w, tick);
      var step := BeforeDecision(w.cluster, st, st.Effective(w.spec), w.spec, w.secrets, tick);
      if step.Proceed? {
        DecidedUneventful(w, step.cluster, step.st, tick);
        assert step.st.Effective(w.spec) == st.Effective(w.spec);
      }
    }
  }

  // ---------------------------------------------------------------------------
  // The budget
  // ---------------------------------------------------------------------------

  /** What an episode of tuning may cost from its start. */
  function FullBudget(spec: Spec): nat {
    if spec.retrievalQuality.None? then 0
    else (if AutoTuneMax(spec.retrievalQuality.value) > 0 then AutoTuneMax(spec.retrievalQuality.value) else 0) + 1
  }

  /** One re-index for an evaluation across an edit, whose tuning will be reset, and then
      a whole episode; otherwise what is left of the current one. */
  function WorldBudget(w: World): nat {
    if EvalAcrossEdit(w) then 1 + FullBudget(w.spec) else Budget(Upcoming(w.Status(), w.spec), w.spec)
  }

  lemma BudgetIsBounded(t: TuneState, spec: Spec)
    requires t.attempts >= 0
    ensures Budget(t, spec) <= FullBudget(spec)
  {
  }

  lemma AttemptsCount(s: Status, spec: Spec)
    requires ConfigsOk(s)
    ensures Upcoming(s, spec).attempts >= 0
  {
  }

  /** A missed target that is not across an edit is one transition of the tuning state. */
  lemma MissSpends(t: TuneState, rq: RetrievalQuality, recall: int, spec: Spec)
    requires spec.retrievalQuality == Some(rq)
    ensures var t' := AfterMiss(t, rq, recall);
            (if !t.pending && t'.pending then 1 else 0) + Budget(t', spec) <= Budget(t, spec)
  {
  }

  lemma MissedStep(w: World, tick: Tick)
    requires Tracked(w) && VerdictOf(w, Reconcile(tick)).Missed? && !EvalAcrossEdit(w)
    ensures var rq := w.spec.retrievalQuality.value;
            var w' := Apply(w, Reconcile(tick));
            && Upcoming(w.Status(), w.spec) == TuneOf(w.Status(), w.spec)
            && Upcoming(w'.Status(), w.spec)
               == AfterMiss(TuneOf(w.Status(), w.spec), rq, ConsumedEval(w, tick).value.result.result.recallPercent)
            && w'.Status().activeJob.None?
            && TuneOf(w'.Status(), w.spec) == Upcoming(w'.Status(), w.spec)
  {
    var rq, r := w.spec.retrievalQuality.value, ConsumedEval(w, tick).value.result.result;
    var s := w.Status();
    assert EvalIn(s, w.cluster.jobs) == ConsumedEval(w, tick);
    assert s.observedSpecHash == Some(HashOf(w.spec)) && s.Refreshed(w.spec) == s;
    ConsumedEvalIsGated(w, tick);
    MissTuning(s, w.spec, rq, r, tick.now);
    var t := s.Evaluated(w.spec, rq, r, tick.now);
    assert t.Refreshed(w.spec) == t;
  }

  lemma EventSpendsWorldBudget(w: World, e: Event)
    requires Tracked(w) && !e.EditSpec? && !VerdictOf(w, e).Met?
    ensures (if Forces(w, e) then 1 else 0) + WorldBudget(Apply(w, e)) <= WorldBudget(w)
  {
    var w' := Apply(w, e);
    EventKeepsTracked(w, e);
    AttemptsCount(w'.Status(), w.spec);
    BudgetIsBounded(Upcoming(w'.Status(), w.spec), w.spec);
    if VerdictOf(w, e).Missed? {
      var rq := w.spec.retrievalQuality.value;
      if EvalAcrossEdit(w) {
        ConsumedEvalIsGated(w, e.tick);
      } else {
        MissedStep(w, e.tick);
        MissSpends(TuneOf(w.Status(), w.spec), rq, VerdictOf(w, e).recall, w.spec);
      }
    } else {
      if e.Reconcile? {
        PassUneventful(w, e.tick);
      } else {
        assert w'.Status() == w.Status();
        assert EvalAcrossEdit(w') ==> EvalAcrossEdit(w);
      }
    }
  }

  lemma {:induction false} RunSpendsWorldBudget(w: World, es: seq<Event>)
    requires Tracked(w) && SpecFixed(es) && NeverMet(w, es)
    ensures ForcedCount(w, es) + WorldBudget(Run(w, es)) <= WorldBudget(w)
    decreases |es|
  {
    if es != [] {
      EventSpendsWorldBudget(w, es[0]);
      EventKeepsTracked(w, es[0]);
      RunSpendsWorldBudget(Apply(w, es[0]), es[1..]);
    }
  }

  /** Between two evaluations that meet the target, under one spec, auto-tune forces at
      most maxAttempts + 1 re-indexes, and one more if an evaluation that may miss the
      target is in flight across an edit when the spec comes to rest: through any number
      of missed targets, empty datasets, failures and scheduled re-evaluations. */
  lemma AutoTuneEnds(w: World, es: seq<Event>)
    requires Tracked(w) && SpecFixed(es) && NeverMet(w, es)
    ensures w.spec.retrievalQuality.None? ==> ForcedCount(w, es) == 0
    ensures w.spec.retrievalQuality.Some? ==>
              var max := AutoTuneMax(w.spec.retrievalQuality.value);
              ForcedCount(w, es) <= (if max > 0 then max else 0) + (if EvalAcrossEdit(w) then 2 else 1)
  {
    RunSpendsWorldBudget(w, es);
    AttemptsCount(w.Status(), w.spec);
    BudgetIsBounded(Upcoming(w.Status(), w.spec), w.spec);
  }

  /** The same for every run from creation, whatever edits came before. */
  lemma AutoTuneEndsFromCreation(spec: Spec, secrets: string, before: seq<Event>, es: seq<Event>)
    requires SpecOk(spec) && ValidEdits(before) && SpecFixed(es)
    requires NeverMet(Run(FreshWorld(spec, secrets), before), es)
    ensures var w := Run(FreshWorld(spec, secrets), before);
            ForcedCount(w, es) <= FullBudget(w.spec) + (if EvalAcrossEdit(w) then 1 else 0)
  {
    FreshWorldIsTracked(spec, secrets);
    RunKeepsTracked(FreshWorld(spec, secrets), before);
    AutoTuneEnds(Run(FreshWorld(spec, secrets), before), es);
  }
}
