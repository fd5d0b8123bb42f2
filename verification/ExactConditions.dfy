/** Exactly when the controller's promises hold, over runs whose clock does not go back
    and whose schedules answer as they must: the bound on auto-tune, and the attribution
    of recall, for knowledge bases that tune. */
module ExactConditions {
  import opened Common
  import opened Tuning
  import opened KnowledgeBase
  import opened Reconciler
  import opened ControllerRuns
  import opened ControllerTheorems
  import opened AutoTuneBounds
  import opened ControllerScripts
  import opened Scheduling
  import ChunkingLabel

  /** The spec lets auto-tune work, and recalls up to `low` miss its target. Validation
      keeps deadlines and attempts positive. A freshness schedule always has a next fire;
      see `HopelessNeverEvaluates` for one that never has. */
  ghost predicate Tunable(cron: Cron, spec: Spec, low: int) {
    && SpecOk(spec) && !spec.suspend && spec.activeDeadlineSeconds >= 0
    && cron.Sound() && (cron.Fires(spec.freshnessSchedule) ==> cron.Endless(spec.freshnessSchedule))
    && spec.retrievalQuality.Some?
    && var rq := spec.retrievalQuality.value;
       && rq.enabled != Some(false) && AutoTuneEnabled(rq) && AutoTuneMax(rq) >= 1
       && rq.minimumRecallPercent > low >= 0
  }

  lemma NextDiffers(c: Chunking)
    requires Filled(c)
    ensures NextChunking(c) != c
  {
    StrategyNames();
  }

  // ---------------------------------------------------------------------------
  // A re-index followed by a missed evaluation
  // ---------------------------------------------------------------------------

  /** The first instant from here on at which the retry delay is over. */
  function RetryFrom(w: World, from: int): int {
    var failed := w.Status().lastFailureTime;
    if failed.Some? && failed.value + INGEST_FAILURE_RETRY_DELAY > from then failed.value + INGEST_FAILURE_RETRY_DELAY
    else from
  }

  /** A re-index is owed, and an evaluation after it. */
  predicate Due(w: World) {
    w.Status().activeJob.None? && w.Status().Refreshed(w.spec).OwesIngest(w.spec) && w.Status().evaluation.None?
  }

  lemma DueIsWanting(cron: Cron, w: World, from: int)
    requires Due(w) && Tunable(cron, w.spec, 0)
    ensures Wanting(w, RetryFrom(w, from)) && from <= RetryFrom(w, from)
  {
  }

  lemma IndexedIsIdle(cron: Cron, w: World, now: int)
    requires Due(w) && Tunable(cron, w.spec, 0)
    ensures var i := Indexed(w, true, now);
            && Idle(i) && NothingDue(cron, i, now) && i.spec == w.spec
            && TuneOf(i.Status(), w.spec) == Upcoming(w.Status(), w.spec).(pending := false)
  {
    NotDueAtOnce(cron, w.spec.freshnessSchedule, now);
  }

  /** One round of auto-tune: the owed re-index, and an evaluation that misses. */
  lemma Round(cron: Cron, w: World, recall: int, from: int) returns (es: seq<Event>, w': World, to: int)
    requires Tracked(w) && Tunable(cron, w.spec, 0) && Due(w) && BelowTarget(w.spec.retrievalQuality.value, recall)
    ensures var rq := w.spec.retrievalQuality.value;
            var t := AfterMiss(Upcoming(w.Status(), w.spec).(pending := false), rq, recall);
            && Story(cron, w, es, w', if t.pending then 1 else 0, from, to) && Tracked(w') && w'.spec == w.spec
            && TuneOf(w'.Status(), w.spec) == t
            && (t.pending ==> Due(w') && Upcoming(w'.Status(), w.spec) == t)
  {
    to := RetryFrom(w, from);
    DueIsWanting(cron, w, from);
    var first := Reindex(cron, w, to, true);
    IndexedIsIdle(cron, w, to);
    var i := Indexed(w, true, to);
    var second;
    second, w' := MissedEval(cron, i, to, recall);
    var n := if w'.Status().pendingRetune then 1 else 0;
    StoryThen(cron, w, first, i, 0, second, w', n, to, to, to);
    es := first + second;
    EarlierStart(cron, w, es, from, to, to);
    EvaluatedIsDue(EvalLaunched(i, to).Status(), w.spec, EvalResult(recall, 1), to);
  }

  lemma EvaluatedIsDue(s: Status, spec: Spec, r: EvalResult, now: int)
    requires spec.retrievalQuality.Some? && BelowTarget(spec.retrievalQuality.value, r.recallPercent) && r.queries != 0
    requires s.observedSpecHash == Some(HashOf(spec)) && !s.pendingRetune
    ensures var t := s.Evaluated(spec, spec.retrievalQuality.value, r, now);
            && t.activeJob.None? && t.observedSpecHash == s.observedSpecHash && t.Refreshed(spec) == t
            && t.lastFailureTime == s.lastFailureTime && t.lastIndexedTime == s.lastIndexedTime
            && (t.pendingRetune ==> t.evaluation.None?)
  {
    var s0 := s.WithoutActiveJob().(evaluation := Some(Evaluation(r, now)));
    var b := s0.WithBest(spec, r.recallPercent);
    assert !b.pendingRetune;
  }

  /** From a fresh start, or any state below the last attempt: every attempt is spent,
      the last one on the best recall so far, so that the final miss returns to it. */
  lemma {:induction false} SpendsEverything(cron: Cron, w: World, from: int)
    returns (es: seq<Event>, w': World, to: int)
    requires Tracked(w) && Tunable(cron, w.spec, 1) && Due(w)
    requires var t := Upcoming(w.Status(), w.spec);
             t.attempts < AutoTuneMax(w.spec.retrievalQuality.value) && (t.best.None? || t.bestRecall <= 0)
    ensures Story(cron, w, es, w',
                  AutoTuneMax(w.spec.retrievalQuality.value) - Upcoming(w.Status(), w.spec).attempts + 1, from, to)
    decreases AutoTuneMax(w.spec.retrievalQuality.value) - Upcoming(w.Status(), w.spec).attempts
  {
    var rq := w.spec.retrievalQuality.value;
    var t := Upcoming(w.Status(), w.spec);
    AttemptsCount(w.Status(), w.spec);
    var first, second, m, mid;
    if t.attempts + 1 < AutoTuneMax(rq) {
      first, m, mid := Round(cron, w, 0, from);
      second, w', to := SpendsEverything(cron, m, mid);
      StoryThen(cron, w, first, m, 1, second, w', AutoTuneMax(rq) - t.attempts, from, mid, to);
    } else {
      EffectiveIsFilled(w.Status().Refreshed(w.spec), w.spec);
      NextDiffers(t.effective);
      first, m, mid := Round(cron, w, 1, from);
      second, w', to := Round(cron, m, 0, mid);
      StoryThen(cron, w, first, m, 1, second, w', 1, from, mid, to);
    }
    es := first + second;
  }

  // ---------------------------------------------------------------------------
  // The bound on auto-tune
  // ---------------------------------------------------------------------------

  /** An evaluation that may miss is in flight across an edit, and within its deadline. */
  predicate LiveAcrossEdit(w: World, now: int) {
    EvalAcrossEdit(w) && !TimedOut(w.Active().value, w.Status().activeJobStartedAt, now)
  }

  /** It misses: its re-index is forced, and reset at once. */
  lemma MissAcrossEdit(cron: Cron, w: World, now: int) returns (es: seq<Event>, w': World)
    requires Tracked(w) && Tunable(cron, w.spec, 0) && LiveAcrossEdit(w, now)
    ensures Story(cron, w, es, w', 1, now, now) && Tracked(w') && w'.spec == w.spec && Due(w')
    ensures Upcoming(w'.Status(), w.spec).attempts == 0 && Upcoming(w'.Status(), w.spec).best.None?
  {
    var s := w.Status();
    var name := s.activeJob.value;
    var m := w;
    var first: seq<Event> := [];
    assert InTime(cron, w, first, now, now);
    if w.Active().value.state == Running {
      var measured := Succeed(name, Measured(EvalResult(0, 1)));
      StoryOne(cron, w, measured, now, now);
      first, m := [measured], Apply(w, measured);
    }
    var pass := Reconcile(TickAt(cron, m, now));
    w' := Apply(m, pass);
    assert m.Status() == s;
    ConsumedEvalIsGated(m, pass.tick);
    MissResets(w, ConsumedEval(m, pass.tick).value.result.result, now);
    StoryOne(cron, m, pass, now, now);
    StoryThen(cron, w, first, m, 0, [pass], w', 1, now, now, now);
    es := first + [pass];
    StoryTracked(cron, w, es, w', 1, now, now);
  }

  lemma MissResets(w: World, r: EvalResult, now: int)
    requires Tracked(w) && EvalAcrossEdit(w)
    requires AutoTuneEnabled(w.spec.retrievalQuality.value) && AutoTuneMax(w.spec.retrievalQuality.value) >= 1
    requires r.queries != 0 && BelowTarget(w.spec.retrievalQuality.value, r.recallPercent)
    ensures var t := w.Status().Refreshed(w.spec).Evaluated(w.spec, w.spec.retrievalQuality.value, r, now);
            && !w.Status().pendingRetune && t.pendingRetune
            && t.activeJob.None? && t.evaluation.None? && t.Refreshed(w.spec).OwesIngest(w.spec)
            && Upcoming(t, w.spec).attempts == 0 && Upcoming(t, w.spec).best.None?
  {
    var s := w.Status();
    var name := s.activeJob.value;
    assert JobOk(s.activeJob, s.ingestRound, s.evalRound, s.observedSpecHash.Some?, name, w.cluster.jobs[name]);
    var s0 := s.Refreshed(w.spec).WithoutActiveJob().(evaluation := Some(Evaluation(r, now)));
    var b := s0.WithBest(w.spec, r.recallPercent);
    assert b.autoTuneAttempts == 0;
    var t := b.AutoTuned(w.spec);
    assert t.UserEdited(HashOf(w.spec));
  }

  /** A pass clears an evaluation that has outlived its deadline. */
  lemma OverdueIsCleared(w: World, tick: Tick)
    requires Tracked(w) && !w.spec.suspend && EvalAcrossEdit(w)
    requires TimedOut(w.Active().value, w.Status().activeJobStartedAt, tick.now)
    ensures !Forces(w, Reconcile(tick)) && !EvalAcrossEdit(Apply(w, Reconcile(tick)))
  {
    var st := w.Status().Refreshed(w.spec);
    var name := st.activeJob.value;
    var failed := st.IngestFailed(HashOf(w.spec), tick.now);
    assert BeforeDecision(w.cluster, st, st.Effective(w.spec), w.spec, w.secrets, tick)
        == Proceed(Cluster(failed, w.cluster.jobs - {name}), failed);
    assert RetryWait(failed, HashOf(w.spec), tick.now);
  }

  /** Such an evaluation never counts. */
  lemma {:induction false} OverdueIsHarmless(cron: Cron, w: World, es: seq<Event>, now: int, to: int)
    requires Tracked(w) && !w.spec.suspend && EvalAcrossEdit(w)
    requires TimedOut(w.Active().value, w.Status().activeJobStartedAt, now)
    requires SpecFixed(es) && NeverMet(w, es) && InTime(cron, w, es, now, to)
    ensures ForcedCount(w, es) <= FullBudget(w.spec)
    decreases |es|
  {
    if es != [] {
      var w' := Apply(w, es[0]);
      EventKeepsTracked(w, es[0]);
      if es[0].Reconcile? {
        OverdueIsCleared(w, es[0].tick);
      } else {
        assert w'.Status() == w.Status() && w'.spec == w.spec;
      }
      if EvalAcrossEdit(w') {
        OverdueIsHarmless(cron, w', es[1..], now, to);
      } else {
        AutoTuneEnds(w', es[1..]);
      }
    }
  }

  /** A run in time under one spec that never meets the target. */
  predicate Unmet(cron: Cron, w: World, es: seq<Event>, from: int, to: int) {
    SpecFixed(es) && NeverMet(w, es) && InTime(cron, w, es, from, to)
  }

  /** With auto-tune enabled and a target above 1: from this instant on the bound of
      maxAttempts + 1 holds for all runs in time if and only if no evaluation that may
      miss is in flight across an edit and within its deadline; with one, some run forces
      maxAttempts + 2 re-indexes. */
  lemma AutoTuneBoundIff(cron: Cron, w: World, now: int)
    requires Tracked(w) && Tunable(cron, w.spec, 1)
    ensures !LiveAcrossEdit(w, now) <==>
            forall es, to | Unmet(cron, w, es, now, to) ::
              ForcedCount(w, es) <= AutoTuneMax(w.spec.retrievalQuality.value) + 1
  {
    if LiveAcrossEdit(w, now) {
      var es, to := TwoMore(cron, w, now);
      assert Unmet(cron, w, es, now, to);
    } else {
      forall es, to | Unmet(cron, w, es, now, to)
        ensures ForcedCount(w, es) <= AutoTuneMax(w.spec.retrievalQuality.value) + 1
      {
        if EvalAcrossEdit(w) {
          OverdueIsHarmless(cron, w, es, now, to);
        } else {
          AutoTuneEnds(w, es);
        }
      }
    }
  }

  lemma TwoMore(cron: Cron, w: World, now: int) returns (es: seq<Event>, to: int)
    requires Tracked(w) && Tunable(cron, w.spec, 1) && LiveAcrossEdit(w, now)
    ensures SpecFixed(es) && NeverMet(w, es) && InTime(cron, w, es, now, to)
    ensures ForcedCount(w, es) == AutoTuneMax(w.spec.retrievalQuality.value) + 2
  {
    var first, m := MissAcrossEdit(cron, w, now);
    var second, w';
    second, w', to := SpendsEverything(cron, m, now);
    StoryThen(cron, w, first, m, 1, second, w', AutoTuneMax(w.spec.retrievalQuality.value) + 1, now, now, to);
    es := first + second;
  }

  /** Creation, indexing, and the launch of the first evaluation, all at one instant. */
  lemma FirstEvaluation(cron: Cron, spec: Spec, secrets: string, now: int) returns (es: seq<Event>, l: World)
    requires Tunable(cron, spec, 0)
    ensures Story(cron, FreshWorld(spec, secrets), es, l, 0, now, now) && Tracked(l)
    ensures l == EvalLaunched(Indexed(FreshWorld(spec, secrets), true, now), now)
    ensures EvalIn(l.Status(), l.cluster.jobs).Some? && EvalIn(l.Status(), l.cluster.jobs).value.state == Running
    ensures l.Status().observedSpecHash == Some(HashOf(spec))
    ensures !TimedOut(l.Active().value, l.Status().activeJobStartedAt, now)
  {
    var w0 := FreshWorld(spec, secrets);
    FreshWorldIsTracked(spec, secrets);
    DueIsWanting(cron, w0, now);
    var first := Reindex(cron, w0, now, true);
    IndexedIsIdle(cron, w0, now);
    var i := Indexed(w0, true, now);
    var launch := Reconcile(TickAt(cron, i, now));
    EvalLaunchStep(i, launch.tick);
    StoryPlain(cron, w0, first, i, 0, launch, now, now, now);
    l := EvalLaunched(i, now);
    es := first + [launch];
    StoryTracked(cron, w0, es, l, 0, now, now);
  }

  /** An edit puts a running evaluation across it. */
  lemma EditCrosses(l: World, edited: Spec, now: int)
    requires Tracked(l) && SpecOk(edited) && edited.retrievalQuality.Some?
    requires EvalIn(l.Status(), l.cluster.jobs).Some? && EvalIn(l.Status(), l.cluster.jobs).value.state == Running
    requires l.Status().observedSpecHash != Some(HashOf(edited))
    requires !TimedOut(l.Active().value, l.Status().activeJobStartedAt, now)
    ensures Tracked(Apply(l, EditSpec(edited))) && LiveAcrossEdit(Apply(l, EditSpec(edited)), now)
  {
    EventKeepsTracked(l, EditSpec(edited));
  }

  lemma EditAtEnd(cron: Cron, w: World, es: seq<Event>, l: World, edited: Spec, from: int, to: int)
    requires InTime(cron, w, es, from, to) && Run(w, es) == l && SpecFixed(es) && SpecOk(edited)
    ensures InTime(cron, w, es + [EditSpec(edited)], from, to) && ValidEdits(es + [EditSpec(edited)])
    ensures Run(w, es + [EditSpec(edited)]) == Apply(l, EditSpec(edited))
  {
    var edit := [EditSpec(edited)];
    TimePasses(cron, w, es, from, to);
    assert edit[1..] == [];
    var w' := Apply(l, edit[0]);
    assert Run(w', []) == w' && InTime(cron, w', [], to, to);
    assert Run(l, edit) == w' && InTime(cron, l, edit, to, to);
    CountsThen(w, es, edit);
    InTimeThen(cron, w, es, edit, from, to, to);
  }

  /** That happens: a knowledge base is created and indexed, its evaluation is launched,
      and the user edits the corpus. From there auto-tune forces maxAttempts + 2. */
  lemma EditDuringEvaluation(cron: Cron, spec: Spec, secrets: string, edited: Spec, start: int)
    returns (before: seq<Event>, es: seq<Event>, to: int)
    requires Tunable(cron, spec, 1) && Tunable(cron, edited, 1) && HashOf(edited) != HashOf(spec)
    ensures ValidEdits(before) && SpecFixed(es)
    ensures InTime(cron, FreshWorld(spec, secrets), before, start, start)
    ensures var w := Run(FreshWorld(spec, secrets), before);
            && w.spec == edited && LiveAcrossEdit(w, start)
            && NeverMet(w, es) && InTime(cron, w, es, start, to)
            && ForcedCount(w, es) == AutoTuneMax(edited.retrievalQuality.value) + 2
  {
    var first, l := FirstEvaluation(cron, spec, secrets, start);
    before := first + [EditSpec(edited)];
    EditAtEnd(cron, FreshWorld(spec, secrets), first, l, edited, start, start);
    EditCrosses(l, edited, start);
    es, to := TwoMore(cron, Apply(l, EditSpec(edited)), start);
  }

  // ---------------------------------------------------------------------------
  // Attribution
  // ---------------------------------------------------------------------------

  /** Every evaluation written back along any run in time of the spec from creation is
      credited to the chunking it measured. */
  ghost predicate AlwaysAttributed(cron: Cron, spec: Spec, secrets: string) {
    forall es, start, to, tick: Tick |
        && SpecFixed(es) && InTime(cron, FreshWorld(spec, secrets), es, start, to) && to <= tick.now
        && tick == TickAt(cron, Run(FreshWorld(spec, secrets), es), tick.now)
        && ConsumedEval(Run(FreshWorld(spec, secrets), es), tick).Some? ::
      var w := Run(FreshWorld(spec, secrets), es);
      ConsumedEval(w, tick).value.measured == Some(w.Effective())
  }

  /** The schedule never fires, or even a deferred ingest is full. */
  predicate NeverMasks(cron: Cron, spec: Spec) {
    !cron.Fires(spec.freshnessSchedule) || spec.ingestionMode == Some(Full)
  }

  lemma {:induction false} InTimeUnmasks(cron: Cron, w: World, es: seq<Event>, from: int, to: int)
    requires NeverMasks(cron, w.spec) && SpecFixed(es) && InTime(cron, w, es, from, to)
    ensures UnmaskingRun(w.spec, es)
    decreases |es|
  {
    if es != [] {
      var w', rest := Apply(w, es[0]), es[1..];
      InTimeUnmasks(cron, w', rest, if es[0].Reconcile? then es[0].tick.now else from, to);
      assert forall i :: 0 < i < |es| ==> es[i] == rest[i - 1];
    }
  }

  /** A running ingest fails, and the failure is seen. */
  lemma FailureIsSeen(cron: Cron, d: World, now: int) returns (es: seq<Event>, f: World)
    requires Tracked(d) && !d.spec.suspend && !d.Status().UserEdited(HashOf(d.spec))
    requires ControllerTheorems.Ingesting(d, now)
    ensures Story(cron, d, es, f, 0, now, now)
    ensures f == d.(cluster := Cluster(d.Status().IngestFailed(d.Active().value.specHash, now),
                                       d.cluster.jobs - {d.Status().activeJob.value}))
  {
    var fails := Fail(d.Status().activeJob.value, false);
    StoryOne(cron, d, fails, now, now);
    var x := Apply(d, fails);
    var seen := Reconcile(TickAt(cron, x, now));
    FailureSeen(d, seen.tick);
    f := Apply(x, seen);
    StoryPlain(cron, d, [fails], x, 0, seen, now, now, now);
    es := [fails] + [seen];
  }

  /** A wanted ingest is launched, and the schedule fires while it runs. */
  lemma LaunchAndFire(cron: Cron, w: World, now: int, fire: int) returns (es: seq<Event>, d: World)
    requires Tracked(w) && Wanting(w, now) && now <= fire <= now + w.spec.activeDeadlineSeconds + DEADLINE_GRACE
    requires cron.Due(w.spec.freshnessSchedule, w.Status().lastIndexedTime, fire)
    ensures Story(cron, w, es, d, 0, now, fire) && Tracked(d)
    ensures ControllerScripts.Reason(w).Some?
    ensures var l := Launched(w, now);
            d == l.(cluster := l.cluster.(status := l.Status().(deferCronIngest := true)))
    ensures ControllerTheorems.Ingesting(d, fire) && !d.Status().UserEdited(HashOf(d.spec))
  {
    var launch := Reconcile(TickAt(cron, w, now));
    LaunchStep(w, launch.tick);
    StoryOne(cron, w, launch, now, now);
    var l := Launched(w, now);
    var fires := Reconcile(TickAt(cron, l, fire));
    assert ControllerTheorems.Ingesting(l, fire);
    CronTickDefers(l, fires.tick);
    StoryPlain(cron, w, [launch], l, 0, fires, now, now, fire);
    d := Apply(l, fires);
    es := [launch] + [fires];
    StoryTracked(cron, w, es, d, 0, now, fire);
  }

  /** From a pending re-tune over a filled store: its ingest is launched, the schedule
      fires, the Job fails, and the failure is seen. */
  lemma DeferredFailure(cron: Cron, w: World, now: int, fire: int) returns (es: seq<Event>, f: World)
    requires Tracked(w) && Wanting(w, now) && now <= fire <= now + w.spec.activeDeadlineSeconds + DEADLINE_GRACE
    requires cron.Due(w.spec.freshnessSchedule, w.Status().lastIndexedTime, fire)
    ensures Story(cron, w, es, f, 0, now, fire) && Tracked(f) && f.spec == w.spec && f.store == w.store
    ensures f.Status() == Launched(w, now).Status().(deferCronIngest := true).IngestFailed(HashOf(w.spec), fire)
  {
    var first, d := LaunchAndFire(cron, w, now, fire);
    var second;
    second, f := FailureIsSeen(cron, d, fire);
    StoryThen(cron, w, first, d, 0, second, f, 0, now, fire, fire);
    es := first + second;
    StoryTracked(cron, w, es, f, 0, now, fire);
  }

  /** A deferred ingest that finds nothing new, and an evaluation after it. */
  lemma RetryMisattributes(cron: Cron, f: World, to: int) returns (es: seq<Event>, m: World)
    requires Tracked(f) && Tunable(cron, f.spec, 0) && f.spec.ingestionMode != Some(Full)
    requires Wanting(f, to) && f.store.Some? && f.Status().evaluation.None?
    requires f.Status().deferCronIngest && f.Status().Refreshed(f.spec) == f.Status()
    ensures Story(cron, f, es, m, 0, to, to) && m.spec == f.spec && m.Effective() == f.Effective()
    ensures var eval := ConsumedEval(m, TickAt(cron, m, to)); eval.Some? && eval.value.measured == f.store
  {
    var first := Reindex(cron, f, to, false);
    var i := Indexed(f, false, to);
    NotDueAtOnce(cron, f.spec.freshnessSchedule, to);
    assert Idle(i) && NothingDue(cron, i, to);
    var second;
    second, m := Measure(cron, i, to, 0);
    StoryThen(cron, f, first, i, 0, second, m, 0, to, to, to);
    es := first + second;
  }

  /** A masked retry: afterwards an evaluation of the old chunks is credited to the new
      chunking. */
  lemma MaskedRetryMisattributes(cron: Cron, w: World, now: int, fire: int) returns (es: seq<Event>, m: World, to: int)
    requires Tracked(w) && Tunable(cron, w.spec, 0) && Due(w) && Wanting(w, now) && w.store.Some?
    requires w.spec.ingestionMode != Some(Full)
    requires now <= fire <= now + w.spec.activeDeadlineSeconds + DEADLINE_GRACE
    requires cron.Due(w.spec.freshnessSchedule, w.Status().lastIndexedTime, fire)
    ensures Story(cron, w, es, m, 0, now, to) && m.spec == w.spec
    ensures var eval := ConsumedEval(m, TickAt(cron, m, to)); eval.Some? && eval.value.measured == w.store
    ensures m.Effective() == w.Status().Refreshed(w.spec).Effective(w.spec)
  {
    var first, f := DeferredFailure(cron, w, now, fire);
    to := fire + INGEST_FAILURE_RETRY_DELAY;
    assert f.Status().Refreshed(f.spec) == f.Status() && Wanting(f, to);
    var second;
    second, m := RetryMisattributes(cron, f, to);
    EarlierStart(cron, f, second, fire, to, to);
    StoryThen(cron, w, first, f, 0, second, m, 0, now, fire, to);
    es := first + second;
  }

  /** For a knowledge base that tunes: recall is always attributed to the data measured
      if and only if its freshness schedule never fires or its ingestion mode is full. */
  lemma AttributionIff(cron: Cron, spec: Spec, secrets: string)
    requires Tunable(cron, spec, 0)
    ensures AlwaysAttributed(cron, spec, secrets) <==> NeverMasks(cron, spec)
  {
    var w0 := FreshWorld(spec, secrets);
    if NeverMasks(cron, spec) {
      forall es, start, to, tick: Tick |
          && SpecFixed(es) && InTime(cron, w0, es, start, to) && to <= tick.now
          && tick == TickAt(cron, Run(w0, es), tick.now) && ConsumedEval(Run(w0, es), tick).Some?
        ensures ConsumedEval(Run(w0, es), tick).value.measured == Some(Run(w0, es).Effective())
      {
        InTimeUnmasks(cron, w0, es, start, to);
        RecallIsAttributedFromCreation(spec, secrets, es, tick);
      }
    } else {
      var es, m, start, to := MisattributedRun(cron, spec, secrets);
      var tick := TickAt(cron, m, to);
      assert Run(w0, es) == m && SpecFixed(es) && InTime(cron, w0, es, start, to);
      assert ConsumedEval(Run(w0, es), tick).Some?;
    }
  }

  /** An evaluation right after the first indexing misses its target. */
  lemma FirstMiss(cron: Cron, spec: Spec, secrets: string, start: int) returns (es: seq<Event>, w: World)
    requires Tunable(cron, spec, 0)
    ensures Story(cron, FreshWorld(spec, secrets), es, w, 1, start, start) && Tracked(w) && w.spec == spec
    ensures Due(w) && w.Status().lastIndexedTime == Some(start) && w.Status().lastFailureTime.None?
    ensures w.store == Some(SpecChunking(spec))
    ensures w.Status().Refreshed(spec).Effective(spec) == NextChunking(SpecChunking(spec))
  {
    var w0 := FreshWorld(spec, secrets);
    FreshWorldIsTracked(spec, secrets);
    DueIsWanting(cron, w0, start);
    var first := Reindex(cron, w0, start, true);
    IndexedIsIdle(cron, w0, start);
    var i := Indexed(w0, true, start);
    var second;
    second, w := MissedEval(cron, i, start, 0);
    EvaluatedIsDue(EvalLaunched(i, start).Status(), spec, EvalResult(0, 1), start);
    StoryThen(cron, w0, first, i, 0, second, w, 1, start, start, start);
    es := first + second;
  }

  /** Creation a second before the schedule fires, indexing, a missed evaluation, and then
      a masked retry of the re-tune. */
  lemma MisattributedRun(cron: Cron, spec: Spec, secrets: string)
    returns (es: seq<Event>, m: World, start: int, to: int)
    requires Tunable(cron, spec, 0) && !NeverMasks(cron, spec)
    ensures Story(cron, FreshWorld(spec, secrets), es, m, 1, start, to)
    ensures var eval := ConsumedEval(m, TickAt(cron, m, to));
            eval.Some? && eval.value.measured == Some(SpecChunking(spec))
    ensures m.Effective() == NextChunking(SpecChunking(spec)) && m.Effective() != SpecChunking(spec)
  {
    var fire := cron.next(spec.freshnessSchedule, 0).value;
    start := fire - 1;
    assert cron.next(spec.freshnessSchedule, 0).Some?;
    assert cron.next(spec.freshnessSchedule, start) == cron.next(spec.freshnessSchedule, 0);
    EffectiveIsFilled(EMPTY_STATUS, spec);
    NextDiffers(SpecChunking(spec));
    var first, w := FirstMiss(cron, spec, secrets, start);
    DueIsWanting(cron, w, start);
    var second;
    second, m, to := MaskedRetryMisattributes(cron, w, start, fire);
    StoryThen(cron, FreshWorld(spec, secrets), first, w, 1, second, m, 0, start, start, to);
    es := first + second;
  }

  // ---------------------------------------------------------------------------
  // Whether an edit reaches the store
  // ---------------------------------------------------------------------------

  /** A deferred tick is served before the edit, and incrementally. */
  predicate MasksEdit(w: World) {
    w.Status().deferCronIngest && w.spec.ingestionMode != Some(Full)
  }

  lemma StaleIsCancelled(w: World, tick: Tick)
    requires !w.spec.suspend && w.Active().Some? && w.Status().activeJob.value.IngestJob?
    requires w.Active().value.specHash != HashOf(w.spec)
    ensures var st := w.Status().Refreshed(w.spec);
            var cleared := st.WithoutActiveJob();
            BeforeDecision(w.cluster, st, st.Effective(w.spec), w.spec, w.secrets, tick)
            == Proceed(Cluster(cleared, w.cluster.jobs - {w.Status().activeJob.value}), cleared)
  {
  }

  /** An edit while an ingest with a deferred tick runs: the pass cancels that Job and
      launches an incremental one with the new chunking over the old store. */
  lemma EditCancelsIntoMaskedLaunch(w: World, tick: Tick)
    requires Sound(w) && !w.spec.suspend && MasksEdit(w)
    requires w.Active().Some? && w.Status().activeJob.value.IngestJob? && w.Active().value.specHash != HashOf(w.spec)
    requires w.Status().phase != Failed && w.Status().observedSpecHash != Some(HashOf(w.spec))
    ensures var w' := Apply(w, Reconcile(tick));
            && LaunchedIngest(w, tick).Some? && w.Status().activeJob.value !in w'.cluster.jobs
            && LaunchedIngest(w, tick).value.mode == Incremental
            && LaunchedIngest(w, tick).value.workerChunking == SpecChunking(w.spec)
            && w'.store == w.store
  {
    NextRoundIsFree(w);
    var st := w.Status().Refreshed(w.spec);
    EffectiveIsFilled(st, w.spec);
    StaleIsCancelled(w, tick);
    assert IngestReason(st.WithoutActiveJob(), w.spec, tick.freshnessDue) == Some(DeferredCron);
  }

  lemma EditedLaunch(w: World, tick: Tick)
    requires Sound(w) && w.Status().observedSpecHash != Some(HashOf(w.spec)) && LaunchedIngest(w, tick).Some?
    ensures var w' := Apply(w, Reconcile(tick));
            var job := LaunchedIngest(w, tick).value;
            && !w.spec.suspend && w'.Active() == Some(job) && w'.Status().activeJob.value.IngestJob?
            && job.state == Running && !job.promoted && Labelled(job) && job.workerChunking == SpecChunking(w.spec)
            && job.specHash == HashOf(w.spec) && job.secretsHash == w.secrets
            && job.activeDeadlineSeconds == w.spec.activeDeadlineSeconds
            && w'.Status().activeJobStartedAt == Some(tick.now)
            && w'.Status().effectiveChunking.None?
            && w'.spec == w.spec && w'.secrets == w.secrets && w'.store == w.store
            && job.mode == (if MasksEdit(w) then Incremental else Full)
  {
    var st := w.Status().Refreshed(w.spec);
    assert st.effectiveChunking.None?;
    var eff := st.Effective(w.spec);
    EffectiveIsFilled(st, w.spec);
    var step := BeforeDecision(w.cluster, st, eff, w.spec, w.secrets, tick);
    var name := Apply(w, Reconcile(tick)).cluster.status.activeJob.value;
    if step.Proceed? {
      DecidedLaunch(step.cluster, step.st, eff, w.spec, w.secrets, tick, name);
    }
  }

  /** The ingest launched for an edit over a filled store can end well without touching
      the store if and only if the edit is masked. The status then reports it as done. */
  lemma EditReachesStoreIff(w: World, launch: Tick, chunks: int, finish: Tick)
    requires Sound(w) && w.store.Some? && w.Status().observedSpecHash != Some(HashOf(w.spec))
    requires LaunchedIngest(w, launch).Some? && finish.resultVisible
    requires finish.now <= launch.now + w.spec.activeDeadlineSeconds + DEADLINE_GRACE
    ensures var w1 := Apply(w, Reconcile(launch));
            var name := w1.Status().activeJob.value;
            var w2 := Apply(w1, Succeed(name, IngestedChunks(chunks)));
            var w3 := Apply(w2, Reconcile(finish));
            && (MasksEdit(w) <==> w2.cluster.jobs[name].state == Complete)
            && (MasksEdit(w) ==>
                  && w3.Status().phase == Ready && !w3.Status().OwesIngest(w3.spec)
                  && w3.Effective() == SpecChunking(w.spec) && w3.store == w.store)
            && Apply(w1, Promote(name)).store == Some(SpecChunking(w.spec))
  {
    EditedLaunch(w, launch);
    var w1 := Apply(w, Reconcile(launch));
    var name := w1.Status().activeJob.value;
    var w2 := Apply(w1, Succeed(name, IngestedChunks(chunks)));
    if MasksEdit(w) {
      assert w2.Status() == w1.Status() && Finished(w2, name, finish.now);
      ChunkingLabel.DecodeOfEncode(SpecChunking(w.spec), w2.Effective());
      FinishedIsWrittenBack(w2, name, finish);
    }
  }

  // ---------------------------------------------------------------------------
  // A schedule without a next fire
  // ---------------------------------------------------------------------------

  predicate NoEvals(w: World) {
    forall n | n in w.cluster.jobs :: n.IngestJob?
  }

  lemma PassAddsNoEval(cron: Cron, w: World, tick: Tick)
    requires NoEvals(w) && tick.freshnessDue && cron.Hopeless(w.spec.freshnessSchedule)
    ensures NoEvals(Apply(w, Reconcile(tick)))
  {
    if !w.spec.suspend {
      var st := w.Status().Refreshed(w.spec);
      BeforeDecisionJobs(w.cluster, st, st.Effective(w.spec), w.spec, w.secrets, tick);
    }
  }

  /** A freshness schedule whose date never comes, such as 30 February, is due at every
      pass: the knowledge base is ingested over and over and never evaluated. */
  lemma {:induction false} HopelessNeverEvaluates(cron: Cron, w: World, es: seq<Event>, from: int, to: int, tick: Tick)
    requires cron.Hopeless(w.spec.freshnessSchedule) && NoEvals(w)
    requires SpecFixed(es) && InTime(cron, w, es, from, to)
    ensures NoEvals(Run(w, es)) && ConsumedEval(Run(w, es), tick).None?
    decreases |es|
  {
    if es != [] {
      if es[0].Reconcile? {
        PassAddsNoEval(cron, w, es[0].tick);
      }
      var later := if es[0].Reconcile? then es[0].tick.now else from;
      HopelessNeverEvaluates(cron, Apply(w, es[0]), es[1..], later, to, tick);
    }
  }
}
