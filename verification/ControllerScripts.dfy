/** Runs in time: re-indexes and missed evaluations strung together, with a clock that
    does not go back and schedules that answer as they must, to show that the bounds on
    auto-tune are reached and where attribution fails. */
module ControllerScripts {
  import opened Common
  import opened KnowledgeBase
  import opened Reconciler
  import opened ControllerRuns
  import opened ControllerTheorems
  import opened AutoTuneBounds
  import opened Scheduling
  import ChunkingLabel

  // ---------------------------------------------------------------------------
  // Runs and what they force
  // ---------------------------------------------------------------------------

  /** What a pass over this status finds due at an instant. */
  function TickAt(cron: Cron, w: World, now: int): Tick {
    var s := w.Status();
    Tick(now,
         cron.Due(w.spec.freshnessSchedule, s.lastIndexedTime, now),
         w.spec.retrievalQuality.Some? && s.evaluation.Some?
           && cron.Due(w.spec.retrievalQuality.value.evalSchedule, Some(s.evaluation.value.time), now),
         true)
  }

  /** The clock does not go back, and every pass finds due what the schedules say. */
  predicate InTime(cron: Cron, w: World, es: seq<Event>, from: int, to: int)
    decreases |es|
  {
    if es == [] then from <= to
    else if es[0].Reconcile? then
      var tick := es[0].tick;
      && from <= tick.now && tick == TickAt(cron, w, tick.now).(resultVisible := tick.resultVisible)
      && InTime(cron, Apply(w, es[0]), es[1..], tick.now, to)
    else InTime(cron, Apply(w, es[0]), es[1..], from, to)
  }

  lemma {:induction false} TimePasses(cron: Cron, w: World, es: seq<Event>, from: int, to: int)
    requires InTime(cron, w, es, from, to)
    ensures from <= to
    decreases |es|
  {
    if es != [] {
      TimePasses(cron, Apply(w, es[0]), es[1..], if es[0].Reconcile? then es[0].tick.now else from, to);
    }
  }

  /** A run in time under one spec that never meets the target, where it leads, and how
      many re-indexes it forces. */
  predicate Story(cron: Cron, w: World, es: seq<Event>, w': World, forced: nat, from: int, to: int) {
    && SpecFixed(es) && NeverMet(w, es) && Run(w, es) == w' && ForcedCount(w, es) == forced
    && InTime(cron, w, es, from, to)
  }

  lemma StoryOne(cron: Cron, w: World, e: Event, from: int, to: int)
    requires !e.EditSpec? && !VerdictOf(w, e).Met? && from <= to
    requires e.Reconcile? ==> from <= e.tick.now <= to && e.tick == TickAt(cron, w, e.tick.now)
    ensures Story(cron, w, [e], Apply(w, e), if Forces(w, e) then 1 else 0, from, to)
  {
    assert [e][1..] == [];
    var w' := Apply(w, e);
    assert Run(w', []) == w' && ForcedCount(w', []) == 0;
    assert InTime(cron, w', [], if e.Reconcile? then e.tick.now else from, to);
  }

  lemma {:induction false} InTimeThen(cron: Cron, w: World, a: seq<Event>, b: seq<Event>, from: int, mid: int, to: int)
    requires InTime(cron, w, a, from, mid) && InTime(cron, Run(w, a), b, mid, to)
    ensures InTime(cron, w, a + b, from, to)
    decreases |a|
  {
    if a == [] {
      assert a + b == b;
      EarlierStart(cron, w, b, from, mid, to);
    } else {
      assert (a + b)[0] == a[0] && (a + b)[1..] == a[1..] + b;
      InTimeThen(cron, Apply(w, a[0]), a[1..], b, if a[0].Reconcile? then a[0].tick.now else from, mid, to);
    }
  }

  lemma {:induction false} EarlierStart(cron: Cron, w: World, es: seq<Event>, from: int, mid: int, to: int)
    requires from <= mid && InTime(cron, w, es, mid, to)
    ensures InTime(cron, w, es, from, to)
    decreases |es|
  {
    if es != [] && !es[0].Reconcile? {
      EarlierStart(cron, Apply(w, es[0]), es[1..], from, mid, to);
    }
  }

  lemma {:induction false} CountsThen(w: World, a: seq<Event>, b: seq<Event>)
    ensures Run(w, a + b) == Run(Run(w, a), b)
    ensures ForcedCount(w, a + b) == ForcedCount(w, a) + ForcedCount(Run(w, a), b)
    ensures NeverMet(w, a + b) <==> NeverMet(w, a) && NeverMet(Run(w, a), b)
    decreases |a|
  {
    if a == [] {
      assert a + b == b;
    } else {
      assert (a + b)[0] == a[0] && (a + b)[1..] == a[1..] + b;
      CountsThen(Apply(w, a[0]), a[1..], b);
    }
  }

  lemma StoryThen(cron: Cron, w: World, a: seq<Event>, m: World, i: nat, b: seq<Event>, w': World, j: nat,
                  from: int, mid: int, to: int)
    requires Story(cron, w, a, m, i, from, mid) && Story(cron, m, b, w', j, mid, to)
    ensures Story(cron, w, a + b, w', i + j, from, to)
  {
    CountsThen(w, a, b);
    InTimeThen(cron, w, a, b, from, mid, to);
  }

  /** One more event that has no verdict and forces nothing. */
  lemma StoryPlain(cron: Cron, w: World, es: seq<Event>, m: World, n: nat, e: Event, from: int, mid: int, to: int)
    requires Story(cron, w, es, m, n, from, mid) && mid <= to
    requires !e.EditSpec? && VerdictOf(m, e).NoVerdict? && !Forces(m, e)
    requires e.Reconcile? ==> mid <= e.tick.now <= to && e.tick == TickAt(cron, m, e.tick.now)
    ensures Story(cron, w, es + [e], Apply(m, e), n, from, to)
  {
    StoryOne(cron, m, e, mid, to);
    StoryThen(cron, w, es, m, n, [e], Apply(m, e), 0, from, mid, to);
  }

  lemma StoryTracked(cron: Cron, w: World, es: seq<Event>, w': World, n: nat, from: int, to: int)
    requires Tracked(w) && Story(cron, w, es, w', n, from, to)
    ensures Tracked(w') && w'.spec == w.spec
  {
    RunKeepsTracked(w, es);
    SpecStays(w, es);
  }

  lemma {:induction false} SpecStays(w: World, es: seq<Event>)
    requires SpecFixed(es)
    ensures Run(w, es).spec == w.spec
    decreases |es|
  {
    if es != [] {
      SpecStays(Apply(w, es[0]), es[1..]);
    }
  }

  // ---------------------------------------------------------------------------
  // A re-index, event by event
  // ---------------------------------------------------------------------------

  /** No Job is active, an ingest is wanted, and the retry delay is over. */
  predicate Wanting(w: World, now: int) {
    var st := w.Status().Refreshed(w.spec);
    && !w.spec.suspend && w.spec.activeDeadlineSeconds >= 0 && w.Status().activeJob.None?
    && (st.OwesIngest(w.spec) || st.deferCronIngest)
    && !RetryWait(st, HashOf(w.spec), now)
  }

  function Reason(w: World): Option<Reason> {
    IngestReason(w.Status().Refreshed(w.spec), w.spec, false)
  }

  function NextIngest(w: World): JobName {
    IngestJob(w.Status().ingestRound + 1)
  }

  function Launched(w: World, now: int): World
    requires Reason(w).Some?
  {
    var st := w.Status().Refreshed(w.spec);
    w.(cluster := Cluster(
         st.(deferCronIngest := false, ingestRound := st.ingestRound + 1, phase := Phase.Ingesting,
             activeJob := Some(NextIngest(w)), activeJobStartedAt := Some(now)),
         w.cluster.jobs[NextIngest(w) := NewJob(st.Effective(w.spec), w.spec, w.secrets,
             ModeFor(Reason(w).value, w.spec))]))
  }

  /** Without an active Job a pass goes straight to its decision. */
  lemma NothingActive(w: World, tick: Tick)
    requires !w.spec.suspend && w.Status().activeJob.None?
    ensures var st := w.Status().Refreshed(w.spec);
            Apply(w, Reconcile(tick)) ==
            w.(cluster := Decided(w.cluster, st, st.Effective(w.spec), w.spec, w.secrets, tick))
    ensures VerdictOf(w, Reconcile(tick)).NoVerdict?
  {
  }

  /** What is owed or deferred comes before any schedule. */
  lemma SameReason(w: World, tick: Tick)
    requires Wanting(w, tick.now)
    ensures Reason(w).Some? && IngestReason(w.Status().Refreshed(w.spec), w.spec, tick.freshnessDue) == Reason(w)
  {
  }

  lemma LaunchStep(w: World, tick: Tick)
    requires Tracked(w) && Wanting(w, tick.now)
    ensures Reason(w).Some? && Apply(w, Reconcile(tick)) == Launched(w, tick.now)
    ensures VerdictOf(w, Reconcile(tick)).NoVerdict? && !Forces(w, Reconcile(tick))
  {
    NextRoundIsFree(w);
    NothingActive(w, tick);
    SameReason(w, tick);
    var st := w.Status().Refreshed(w.spec);
    assert st.ingestRound == w.Status().ingestRound;
    assert Decided(w.cluster, st, st.Effective(w.spec), w.spec, w.secrets, tick)
        == IngestStarted(w.cluster, st, st.Effective(w.spec), w.spec, w.secrets, Reason(w).value, tick.now);
    assert Apply(w, Reconcile(tick)) == Launched(w, tick.now);
  }

  /** The Job of `Launched` after its worker is done. */
  function Worked(w: World, now: int, promotes: bool): World
    requires Reason(w).Some?
  {
    var l := Launched(w, now);
    var job := l.cluster.jobs[NextIngest(w)];
    l.(store := if promotes then Some(job.workerChunking) else w.store,
       cluster := l.cluster.(jobs := l.cluster.jobs[NextIngest(w) :=
         job.(promoted := promotes, state := Complete, result := IngestedChunks(1))]))
  }

  /** The worker's events: promotion if it has new data, and success. */
  function Work(name: JobName, promotes: bool): seq<Event> {
    (if promotes then [Promote(name)] else []) + [Succeed(name, IngestedChunks(1))]
  }

  lemma WorkStory(cron: Cron, w: World, now: int, promotes: bool)
    requires Reason(w).Some?
    requires !promotes ==> w.store.Some? && ModeFor(Reason(w).value, w.spec) == Incremental
    ensures Story(cron, Launched(w, now), Work(NextIngest(w), promotes), Worked(w, now, promotes), 0, now, now)
  {
    var l, name := Launched(w, now), NextIngest(w);
    var done := Succeed(name, IngestedChunks(1));
    if promotes {
      StoryOne(cron, l, Promote(name), now, now);
      var p := Apply(l, Promote(name));
      StoryPlain(cron, l, [Promote(name)], p, 0, done, now, now, now);
      assert Apply(p, done).cluster.jobs == Worked(w, now, true).cluster.jobs;
      assert Apply(p, done) == Worked(w, now, true);
    } else {
      StoryOne(cron, l, done, now, now);
      assert [] + [done] == [done];
      assert Apply(l, done) == Worked(w, now, false);
    }
  }

  /** After the write-back: the ingest is done, and tuning as the reset left it. */
  function Indexed(w: World, promotes: bool, now: int): World {
    var st := w.Status().Refreshed(w.spec);
    var eff := st.Effective(w.spec);
    w.(store := if promotes then Some(eff) else w.store,
       cluster := w.cluster.(status :=
         st.(deferCronIngest := false, ingestRound := st.ingestRound + 1)
           .Ingested(w.spec, eff, HashOf(w.spec), 1, now)))
  }

  /** A finished ingest of the current corpus, ready to be written back. */
  predicate Finished(m: World, name: JobName, now: int) {
    && !m.spec.suspend && m.Status().activeJob == Some(name) && name.IngestJob? && name in m.cluster.jobs
    && var job := m.cluster.jobs[name];
       && job.state == Complete && job.result.IngestedChunks?
       && !IngestIsStale(name, job, m.spec, m.secrets) && !TimedOut(job, m.Status().activeJobStartedAt, now)
  }

  lemma FinishedIsWrittenBack(m: World, name: JobName, tick: Tick)
    requires Finished(m, name, tick.now) && m.Status().Refreshed(m.spec) == m.Status() && tick.resultVisible
    ensures var job := m.cluster.jobs[name];
            var labelled := ChunkingLabel.Decode(job.chunkingLabel, m.Effective());
            Apply(m, Reconcile(tick)) == m.(cluster := Cluster(
              m.Status().Ingested(m.spec, labelled, job.specHash, job.result.total, tick.now),
              m.cluster.jobs - {name}))
    ensures VerdictOf(m, Reconcile(tick)).NoVerdict? && !Forces(m, Reconcile(tick))
  {
    var st, eff := m.Status(), m.Effective();
    var job := m.cluster.jobs[name];
    assert ClearDeadJob(m.cluster, st, m.spec, m.secrets, tick.now) == Proceed(m.cluster, st);
    assert BeforeDecision(m.cluster, st, eff, m.spec, m.secrets, tick)
        == Handled(FinalizedIngest(m.cluster, st, name, job, eff, m.spec, tick));
    assert ConsumedEval(m, tick).None?;
  }

  lemma WorkedIsFinished(w: World, now: int, promotes: bool)
    requires Tracked(w) && Wanting(w, now) && Reason(w).Some?
    ensures var m := Worked(w, now, promotes);
            && Finished(m, NextIngest(w), now) && m.Status().Refreshed(m.spec) == m.Status()
            && m.Effective() == w.Status().Refreshed(w.spec).Effective(w.spec)
            && m.cluster.jobs - {NextIngest(w)} == w.cluster.jobs
  {
    NextRoundIsFree(w);
    var m := Worked(w, now, promotes);
    assert m.cluster.jobs - {NextIngest(w)} == w.cluster.jobs;
  }

  lemma WriteBackStep(w: World, promotes: bool, tick: Tick)
    requires Tracked(w) && Wanting(w, tick.now) && Reason(w).Some? && tick.resultVisible
    ensures Apply(Worked(w, tick.now, promotes), Reconcile(tick)) == Indexed(w, promotes, tick.now)
    ensures VerdictOf(Worked(w, tick.now, promotes), Reconcile(tick)).NoVerdict?
    ensures !Forces(Worked(w, tick.now, promotes), Reconcile(tick))
  {
    var eff := w.Status().Refreshed(w.spec).Effective(w.spec);
    EffectiveIsFilled(w.Status().Refreshed(w.spec), w.spec);
    ChunkingLabel.DecodeOfEncode(eff, eff);
    WorkedIsFinished(w, tick.now, promotes);
    FinishedIsWrittenBack(Worked(w, tick.now, promotes), NextIngest(w), tick);
  }

  /** A re-index from launch to write-back. */
  lemma Reindex(cron: Cron, w: World, now: int, promotes: bool) returns (es: seq<Event>)
    requires Tracked(w) && Wanting(w, now)
    requires !promotes ==> w.store.Some? && w.Status().Refreshed(w.spec).deferCronIngest
    requires !promotes ==> w.spec.ingestionMode != Some(Full)
    ensures Story(cron, w, es, Indexed(w, promotes, now), 0, now, now) && Tracked(Indexed(w, promotes, now))
  {
    var launch := Reconcile(TickAt(cron, w, now));
    LaunchStep(w, launch.tick);
    StoryOne(cron, w, launch, now, now);
    WorkStory(cron, w, now, promotes);
    var m := Worked(w, now, promotes);
    var finish := Reconcile(TickAt(cron, m, now));
    WriteBackStep(w, promotes, finish.tick);
    var work := Work(NextIngest(w), promotes);
    StoryThen(cron, w, [launch], Launched(w, now), 0, work, m, 0, now, now, now);
    es := [launch] + work + [finish];
    StoryPlain(cron, w, [launch] + work, m, 0, finish, now, now, now);
    StoryTracked(cron, w, es, Indexed(w, promotes, now), 0, now, now);
  }

  // ---------------------------------------------------------------------------
  // A missed evaluation, event by event
  // ---------------------------------------------------------------------------

  /** An evaluation is due at once and nothing else is. */
  predicate Idle(w: World) {
    var s := w.Status();
    && !w.spec.suspend && w.spec.activeDeadlineSeconds >= 0
    && w.spec.retrievalQuality.Some? && w.spec.retrievalQuality.value.enabled != Some(false)
    && s.phase == Ready && s.activeJob.None? && !s.deferCronIngest && !s.OwesIngest(w.spec)
    && s.evaluation.None? && s.indexedChunks != 0
  }

  function NextEval(w: World): JobName {
    EvalJob(w.Status().evalRound + 1)
  }

  function EvalLaunched(w: World, now: int): World {
    var s := w.Status();
    w.(cluster := Cluster(
         s.(evalRound := s.evalRound + 1, activeJob := Some(NextEval(w)), activeJobStartedAt := Some(now)),
         w.cluster.jobs[NextEval(w) := NewJob(s.Effective(w.spec), w.spec, w.secrets, Full)]))
  }

  lemma EvalLaunchStep(w: World, tick: Tick)
    requires Tracked(w) && Idle(w) && !tick.freshnessDue
    ensures Apply(w, Reconcile(tick)) == EvalLaunched(w, tick.now)
    ensures VerdictOf(w, Reconcile(tick)).NoVerdict? && !Forces(w, Reconcile(tick))
  {
    NextRoundIsFree(w);
    assert w.Status().Refreshed(w.spec) == w.Status();
  }

  function Measuring(w: World, recall: int): Event {
    Succeed(NextEval(w), Measured(EvalResult(recall, 1)))
  }

  /** No freshness ingest is due. */
  predicate NothingDue(cron: Cron, w: World, now: int) {
    !cron.Due(w.spec.freshnessSchedule, w.Status().lastIndexedTime, now)
  }

  /** The evaluation has measured the store and waits to be written back. */
  lemma Measure(cron: Cron, w: World, now: int, recall: int) returns (es: seq<Event>, m: World)
    requires Tracked(w) && Idle(w) && NothingDue(cron, w, now)
    ensures Story(cron, w, es, m, 0, now, now) && m == Apply(EvalLaunched(w, now), Measuring(w, recall))
    ensures var eval := ConsumedEval(m, TickAt(cron, m, now));
            && eval.Some? && eval.value.measured == w.store && eval.value.result == Measured(EvalResult(recall, 1))
    ensures m.Status() == EvalLaunched(w, now).Status()
    ensures m.spec == w.spec && m.store == w.store && m.secrets == w.secrets
  {
    var launch := Reconcile(TickAt(cron, w, now));
    EvalLaunchStep(w, launch.tick);
    StoryOne(cron, w, launch, now, now);
    var l := EvalLaunched(w, now);
    m := Apply(l, Measuring(w, recall));
    StoryPlain(cron, w, [launch], l, 0, Measuring(w, recall), now, now, now);
    es := [launch] + [Measuring(w, recall)];
  }

  /** A missed evaluation from launch to write-back. */
  lemma MissedEval(cron: Cron, w: World, now: int, recall: int) returns (es: seq<Event>, w': World)
    requires Tracked(w) && Idle(w) && NothingDue(cron, w, now)
    requires BelowTarget(w.spec.retrievalQuality.value, recall)
    ensures var rq := w.spec.retrievalQuality.value;
            && w'.Status() == EvalLaunched(w, now).Status().Evaluated(w.spec, rq, EvalResult(recall, 1), now)
            && TuneOf(w'.Status(), w.spec) == AfterMiss(TuneOf(w.Status(), w.spec), rq, recall)
            && Story(cron, w, es, w', if w'.Status().pendingRetune then 1 else 0, now, now) && Tracked(w')
            && w'.spec == w.spec && w'.store == w.store && w'.secrets == w.secrets
  {
    var rq := w.spec.retrievalQuality.value;
    var first, m := Measure(cron, w, now, recall);
    var finish := Reconcile(TickAt(cron, m, now));
    ConsumedEvalIsGated(m, finish.tick);
    assert m.Status().Refreshed(m.spec) == m.Status();
    w' := Apply(m, finish);
    MissTuning(m.Status(), w.spec, rq, EvalResult(recall, 1), now);
    assert TuneOf(m.Status(), w.spec) == TuneOf(w.Status(), w.spec);
    StoryOne(cron, m, finish, now, now);
    var n := if w'.Status().pendingRetune then 1 else 0;
    StoryThen(cron, w, first, m, 0, [finish], w', n, now, now, now);
    es := first + [finish];
    StoryTracked(cron, w, es, w', n, now, now);
  }
}
