/** `_full_ingest` as the worker runs it, killed or failing at any request. */
module FullIngest {
  import opened Common
  import opened VectorDb
  import opened Stores
  import opened Ingest
  import opened DocPaths

  datatype Outcome = Done(totalChunks: int, sources: seq<SourceResult>) | Raised

  /** How far a run got with the active name. */
  datatype Stage = Untouched | Promoted | Inline

  function SumChunks(rs: seq<SourceResult>): int {
    if rs == [] then 0 else SumChunks(rs[..|rs| - 1]) + rs[|rs| - 1].chunks
  }

  /** The results reported for the sources that are not skipped. */
  function ResultsOf(p: Pipeline, sources: seq<string>, skip: set<string>): seq<SourceResult> {
    if sources == [] then []
    else
      var last := sources[|sources| - 1];
      ResultsOf(p, sources[..|sources| - 1], skip)
        + if last in skip || p.fetch(last).FetchFailed? then [] else [ResultOf(p, last)]
  }

  function ResultOf(p: Pipeline, source: string): SourceResult
    requires p.fetch(source).Fetched?
  {
    SourceResult(source, p.fetch(source).revision, |SourceEntries(p, source, p.fetch(source).docs)|)
  }

  /** Every source has been fetched, and the results are those of its chunks; further
      ones are left over from the run before. */
  predicate Replayed(p: Pipeline, sources: seq<string>, results: seq<SourceResult>) {
    && |sources| <= |results|
    && forall k :: 0 <= k < |sources| ==> p.fetch(sources[k]).Fetched? && results[k] == ResultOf(p, sources[k])
  }

  function NamesOf(rs: seq<SourceResult>): set<string> {
    set r | r in rs :: r.name
  }

  /** What the staging collection holds in the end. */
  function Staged(backend: Backend, p: Pipeline, sources: seq<string>, skip: set<string>): Contents {
    UpsertAll(backend, map[], CorpusEntries(p, sources, skip))
  }

  /** Upserts one window of entries after those already stored. */
  method Flush(store: Store, ghost start: Db, ghost log0: seq<Db>, ghost c0: Contents, ghost stored: seq<Entry>,
               window: seq<Entry>)
    returns (ok: bool)
    requires store.Quiet(start, log0) && store.collection in store.server.collections
    requires store.server.collections[store.collection] == UpsertAll(store.server.backend, c0, stored)
    modifies store.server
    ensures store.Quiet(start, log0)
    ensures ok ==> store.collection in store.server.collections
                   && store.server.collections[store.collection] == UpsertAll(store.server.backend, c0, stored + window)
    ensures old(store.server.faults) == [] ==> ok && store.server.faults == []
  {
    ghost var mid, log1 := store.server.State(), store.server.log;
    UpsertAllConcat(store.server.backend, c0, stored, window);
    ok := store.Upsert(window);
    QuietTransitive(start, log0, mid, log1, store.server.State(), store.server.log, store.collection);
  }

  /** Embeds and upserts one bounded batch at a time. Whatever the batch size, the
      collection ends up as if everything had been upserted at once. */
  method EmbedAndUpsert(store: Store, entries: seq<Entry>, batch: int) returns (ok: bool, total: nat)
    requires Plain(store.server.State(), store.collection) && store.collection in store.server.collections
    modifies store.server
    ensures store.Quiet(old(store.server.State()), old(store.server.log))
    ensures ok ==> total == |entries|
    ensures ok ==> store.collection in store.server.collections
                   && store.server.collections[store.collection] ==
                      UpsertAll(store.server.backend, old(store.server.collections)[store.collection], entries)
    ensures old(store.server.faults) == [] ==> ok && store.server.faults == []
  {
    ghost var start, log0 := store.server.State(), store.server.log;
    ghost var c0 := store.server.collections[store.collection];
    total := 0;
    var window: seq<Entry> := [];
    for i := 0 to |entries|
      invariant store.collection in store.server.collections && store.Quiet(start, log0)
      invariant total + |window| == i && entries[..total] + window == entries[..i]
      invariant store.server.collections[store.collection] == UpsertAll(store.server.backend, c0, entries[..total])
      invariant old(store.server.faults) == [] ==> store.server.faults == []
    {
      window := window + [entries[i]];
      assert entries[..total] + window == entries[..i + 1];
      if |window| >= batch {
        ok := Flush(store, start, log0, c0, entries[..total], window);
        if !ok {
          return;
        }
        total := total + |window|;
        window := [];
      }
    }
    assert entries[..|entries|] == entries;
    if window != [] {
      ok := Flush(store, start, log0, c0, entries[..total], window);
      if !ok {
        return;
      }
      total := total + |window|;
    } else {
      assert entries[..total] == entries;
    }
    ok := true;
  }

  /** Every source that is not skipped can be fetched. */
  predicate AllFetched(p: Pipeline, sources: seq<string>, skip: set<string>) {
    forall k :: 0 <= k < |sources| && sources[k] !in skip ==> p.fetch(sources[k]).Fetched?
  }

  /** What the loop over the sources has done after the first `k`. */
  ghost predicate BuiltSoFar(backend: Backend, p: Pipeline, sources: seq<string>, checkpoint: seq<SourceResult>, k: nat,
                             staging: Contents, total: int, results: seq<SourceResult>)
    requires k <= |sources|
  {
    var skip := NamesOf(checkpoint);
    && staging == Staged(backend, p, sources[..k], skip)
    && total == SumChunks(results)
    && results == checkpoint + ResultsOf(p, sources[..k], skip)
    && total == SumChunks(checkpoint) + |CorpusEntries(p, sources[..k], skip)|
    && AllFetched(p, sources[..k], skip)
  }

  lemma StagedOne(backend: Backend, p: Pipeline, sources: seq<string>, k: nat, skip: set<string>)
    requires k < |sources| && sources[k] !in skip && p.fetch(sources[k]).Fetched?
    ensures var entries := SourceEntries(p, sources[k], p.fetch(sources[k]).docs);
            && CorpusEntries(p, sources[..k + 1], skip) == CorpusEntries(p, sources[..k], skip) + entries
            && Staged(backend, p, sources[..k + 1], skip)
                 == UpsertAll(backend, Staged(backend, p, sources[..k], skip), entries)
            && ResultsOf(p, sources[..k + 1], skip) == ResultsOf(p, sources[..k], skip) + [ResultOf(p, sources[k])]
  {
    assert sources[..k + 1][..k] == sources[..k];
    var entries := SourceEntries(p, sources[k], p.fetch(sources[k]).docs);
    UpsertAllConcat(backend, map[], CorpusEntries(p, sources[..k], skip), entries);
  }

  lemma AllFetchedOne(p: Pipeline, sources: seq<string>, k: nat, skip: set<string>)
    requires k < |sources| && AllFetched(p, sources[..k], skip) && (sources[k] in skip || p.fetch(sources[k]).Fetched?)
    ensures AllFetched(p, sources[..k + 1], skip)
  {
    assert forall j :: 0 <= j < k ==> sources[..k + 1][j] == sources[..k][j];
  }

  lemma BuiltSkipped(backend: Backend, p: Pipeline, sources: seq<string>, checkpoint: seq<SourceResult>, k: nat,
                     staging: Contents, total: int, results: seq<SourceResult>)
    requires k < |sources| && BuiltSoFar(backend, p, sources, checkpoint, k, staging, total, results)
    requires sources[k] in NamesOf(checkpoint)
    ensures BuiltSoFar(backend, p, sources, checkpoint, k + 1, staging, total, results)
  {
    var skip := NamesOf(checkpoint);
    AllFetchedOne(p, sources, k, skip);
    assert sources[..k + 1][..k] == sources[..k];
    assert CorpusEntries(p, sources[..k + 1], skip) == CorpusEntries(p, sources[..k], skip);
    assert ResultsOf(p, sources[..k + 1], skip) == ResultsOf(p, sources[..k], skip);
  }

  lemma SumSnoc(results: seq<SourceResult>, r: SourceResult)
    ensures SumChunks(results + [r]) == SumChunks(results) + r.chunks
  {
    assert (results + [r])[..|results|] == results;
  }

  lemma Reassociate(a: seq<SourceResult>, b: seq<SourceResult>, r: SourceResult)
    ensures a + (b + [r]) == (a + b) + [r]
  {
  }

  lemma BuiltOne(backend: Backend, p: Pipeline, sources: seq<string>, checkpoint: seq<SourceResult>, k: nat,
                 staging: Contents, total: int, results: seq<SourceResult>)
    requires k < |sources| && BuiltSoFar(backend, p, sources, checkpoint, k, staging, total, results)
    requires sources[k] !in NamesOf(checkpoint) && p.fetch(sources[k]).Fetched?
    ensures var entries := SourceEntries(p, sources[k], p.fetch(sources[k]).docs);
            BuiltSoFar(backend, p, sources, checkpoint, k + 1, UpsertAll(backend, staging, entries), total + |entries|,
                       results + [ResultOf(p, sources[k])])
  {
    var skip := NamesOf(checkpoint);
    var r := ResultOf(p, sources[k]);
    StagedOne(backend, p, sources, k, skip);
    AllFetchedOne(p, sources, k, skip);
    SumSnoc(results, r);
    Reassociate(checkpoint, ResultsOf(p, sources[..k], skip), r);
  }

  /** One source: fetched, chunked, embedded and upserted. */
  method StageSource(p: Pipeline, name: string, batch: int, shadow: Store) returns (ok: bool, result: SourceResult)
    requires Plain(shadow.server.State(), shadow.collection)
    requires shadow.collection in shadow.server.collections
    modifies shadow.server
    ensures shadow.Quiet(old(shadow.server.State()), old(shadow.server.log))
    ensures ok ==> p.fetch(name).Fetched? && result == ResultOf(p, name)
    ensures ok ==> shadow.collection in shadow.server.collections
    ensures ok ==> shadow.server.collections[shadow.collection]
                     == UpsertAll(shadow.server.backend, old(shadow.server.collections)[shadow.collection],
                                  SourceEntries(p, name, p.fetch(name).docs))
    ensures old(shadow.server.faults) == [] ==>
              shadow.server.faults == [] && (ok <==> p.fetch(name).Fetched?)
  {
    var fetched := p.fetch(name);
    if fetched.FetchFailed? {
      return false, SourceResult(name, "", 0);
    }
    var count;
    ok, count := EmbedAndUpsert(shadow, SourceEntries(p, name, fetched.docs), batch);
    result := SourceResult(name, fetched.revision, count);
  }

  /** The loop over the sources, skipping those a checkpoint calls complete. */
  method BuildStaging(p: Pipeline, sources: seq<string>, checkpoint: seq<SourceResult>, batch: int, shadow: Store)
    returns (ok: bool, total: int, results: seq<SourceResult>)
    requires Plain(shadow.server.State(), shadow.collection)
    requires shadow.collection in shadow.server.collections
    requires shadow.server.collections[shadow.collection] == map[]
    modifies shadow.server
    ensures shadow.Quiet(old(shadow.server.State()), old(shadow.server.log))
    ensures ok ==> shadow.collection in shadow.server.collections
    ensures ok ==> BuiltSoFar(shadow.server.backend, p, sources, checkpoint, |sources|,
                              shadow.server.collections[shadow.collection], total, results)
    ensures old(shadow.server.faults) == [] ==>
              shadow.server.faults == [] && (ok <==> AllFetched(p, sources, NamesOf(checkpoint)))
  {
    var completed := NamesOf(checkpoint);
    results := checkpoint;
    total := SumChunks(checkpoint);
    for k := 0 to |sources|
      invariant shadow.collection in shadow.server.collections
      invariant shadow.Quiet(old(shadow.server.State()), old(shadow.server.log))
      invariant BuiltSoFar(shadow.server.backend, p, sources, checkpoint, k,
                           shadow.server.collections[shadow.collection], total, results)
      invariant old(shadow.server.faults) == [] ==> shadow.server.faults == []
    {
      var name := sources[k];
      ghost var mid, log1 := shadow.server.State(), shadow.server.log;
      if name in completed {
        BuiltSkipped(shadow.server.backend, p, sources, checkpoint, k,
                     shadow.server.collections[shadow.collection], total, results);
      } else {
        ghost var staging := shadow.server.collections[shadow.collection];
        var result;
        ok, result := StageSource(p, name, batch, shadow);
        QuietTransitive(old(shadow.server.State()), old(shadow.server.log), mid, log1,
                        shadow.server.State(), shadow.server.log, shadow.collection);
        if !ok {
          assert old(shadow.server.faults) == [] ==> !p.fetch(name).Fetched?;
          return;
        }
        BuiltOne(shadow.server.backend, p, sources, checkpoint, k, staging, total, results);
        results := results + [result];
        total := total + result.chunks;
      }
    }
    assert sources[..|sources|] == sources;
    ok := true;
  }

  lemma ReplayedOne(p: Pipeline, sources: seq<string>, k: nat, results: seq<SourceResult>)
    requires k < |sources| && k < |results| && Replayed(p, sources[..k], results) && p.fetch(sources[k]).Fetched?
    ensures Replayed(p, sources[..k + 1], results[k := ResultOf(p, sources[k])])
  {
  }

  /** The inline fallback re-ingests every source into the active collection, which it
      has just emptied: in the end that holds the whole corpus, whatever a checkpoint
      called complete. */
  method ReplayInto(p: Pipeline, sources: seq<string>, results: seq<SourceResult>, batch: int, store: Store)
    returns (ok: bool, replayed: seq<SourceResult>)
    requires Plain(store.server.State(), store.collection) && store.collection in store.server.collections
    requires store.server.collections[store.collection] == map[]
    modifies store.server
    ensures store.Quiet(old(store.server.State()), old(store.server.log))
    ensures old(store.server.faults) == [] ==> store.server.faults == []
    ensures ok ==>
              && store.collection in store.server.collections
              && store.server.collections[store.collection] == Staged(store.server.backend, p, sources, {})
              && Replayed(p, sources, replayed) && |replayed| == |results|
  {
    replayed := results;
    ok := true;
    for k := 0 to |sources|
      invariant ok && store.collection in store.server.collections
      invariant store.Quiet(old(store.server.State()), old(store.server.log))
      invariant old(store.server.faults) == [] ==> store.server.faults == []
      invariant store.server.collections[store.collection] == Staged(store.server.backend, p, sources[..k], {})
      invariant |replayed| == |results| && Replayed(p, sources[..k], replayed)
    {
      var fetched := p.fetch(sources[k]);
      if fetched.FetchFailed? || k >= |replayed| {
        return false, replayed;
      }
      ghost var mid, log1 := store.server.State(), store.server.log;
      var count;
      ok, count := EmbedAndUpsert(store, SourceEntries(p, sources[k], fetched.docs), batch);
      QuietTransitive(old(store.server.State()), old(store.server.log), mid, log1,
                      store.server.State(), store.server.log, store.collection);
      if !ok {
        return;
      }
      StagedOne(store.server.backend, p, sources, k, {});
      ReplayedOne(p, sources, k, replayed);
      replayed := replayed[k := SourceResult(sources[k], fetched.revision, count)];
    }
    assert sources[..|sources|] == sources;
  }

  /** Since the state `before`, and with these faults to come, nothing has changed under
      other names; and no fault has come up by itself. */
  ghost predicate Confined(store: Store, shadow: string, before: Db, faults: seq<Fault>)
    reads store.server
  {
    && Elsewhere(before, store.server.State(), Touched(before, store.collection, shadow))
    && (faults == [] ==> store.server.faults == [])
  }

  lemma QuietIsElsewhere(start: Db, log0: seq<Db>, now: Db, log: seq<Db>, active: string, shadow: string)
    requires QuietLog(start, log0, now, log, shadow)
    ensures Elsewhere(start, now, Touched(start, active, shadow))
    ensures Touched(now, active, shadow) == Touched(start, active, shadow)
  {
    OffShadowIsElsewhere(start, now, shadow, Touched(start, active, shadow));
  }

  lemma QuietIsSafe(start: Db, log0: seq<Db>, now: Db, log: seq<Db>, active: string, shadow: string)
    requires QuietLog(start, log0, now, log, shadow) && Apart(start, active, shadow)
    ensures forall i :: |log0| <= i < |log| ==> log[i].Resolve(active) == start.Resolve(active)
    ensures now.Resolve(active) == start.Resolve(active) && Apart(now, active, shadow)
  {
    forall i | |log0| <= i < |log| ensures log[i].Resolve(active) == start.Resolve(active) {
      OffShadowIsUnseen(start, log[i], active, shadow);
    }
    OffShadowIsUnseen(start, now, active, shadow);
  }

  /** Whether PostgreSQL will refuse, and what Qdrant has to repoint and delete, is
      settled before the staging collection is built. */
  lemma QuietKeepsPlan(store: Store, start: Db, now: Db, shadow: string)
    requires OffShadow(start, now, shadow) && Apart(start, store.collection, shadow)
    ensures store.CanRename(now, shadow) == store.CanRename(start, shadow)
    ensures store.Aliased(now) == store.Aliased(start) && store.HasTarget(now) == store.HasTarget(start)
  {
    forall name | name != shadow ensures name in now.collections <==> name in start.collections {
      assert name in now.collections <==> name in now.collections - {shadow};
      assert name in start.collections <==> name in start.collections - {shadow};
    }
  }

  lemma QuietKeepsLayout(store: Store, start: Db, log0: seq<Db>, now: Db, log: seq<Db>, shadow: string)
    requires QuietLog(start, log0, now, log, shadow) && store.Promotable(start) && store.collection != shadow
    ensures store.Promotable(now)
  {
    assert store.collection in now.collections ==> store.collection in now.collections - {shadow};
    assert store.collection in start.collections - {shadow} ==> store.collection in start.collections;
  }

  /** What the handler for exceptions finds after a promotion. */
  predicate AfterPromotion(backend: Backend, db: Db, active: string, shadow: string) {
    match backend
    case Qdrant =>
      && active in db.aliases && db.aliases[active] == shadow
      && shadow !in db.aliases && shadow in db.collections && active !in db.collections
    case PgVector => db.aliases == map[] && shadow !in db.collections
  }

  /** Up to entry `to` of the log, readers see the old contents or the staged ones. */
  ghost predicate SafeUntil(log: seq<Db>, from: nat, to: int, active: string, before: Option<Contents>,
                            staged: Contents) {
    && from <= to <= |log|
    && forall i :: from <= i < to ==> log[i].Resolve(active) == before || log[i].Resolve(active) == Some(staged)
  }

  /** The inline fallback: the active collection is recreated, empty, and every source
      replayed into it. */
  method RebuildInline(p: Pipeline, sources: seq<string>, results: seq<SourceResult>, batch: int, store: Store)
    returns (ok: bool, final: seq<SourceResult>)
    requires Plain(store.server.State(), store.collection)
    modifies store.server
    ensures store.Quiet(old(store.server.State()), old(store.server.log))
    ensures old(store.server.faults) == [] ==> store.server.faults == []
    ensures ok ==>
              && store.server.State().Resolve(store.collection) == Some(Staged(store.server.backend, p, sources, {}))
              && Replayed(p, sources, final)
    ensures ok && store.collection in old(store.server.collections) ==>
              exists i :: |old(store.server.log)| <= i < |store.server.log|
                  && store.server.log[i].Resolve(store.collection).None?
  {
    final := results;
    ghost var start, log0 := store.server.State(), store.server.log;
    ok := store.RecreateCollection();
    ghost var ready, log1 := store.server.State(), store.server.log;
    if ok {
      ok, final := ReplayInto(p, sources, results, batch, store);
      QuietTransitive(start, log0, ready, log1, store.server.State(), store.server.log, store.collection);
      assert start.Resolve(store.collection).Some? ==> store.server.log[|log0|] == log1[|log0|];
    }
  }

  /** Promotes the staging collection or, when the store refuses, rebuilds the active
      one in place. `refused` is the length of the log when it refuses. PostgreSQL
      refuses exactly when a table is in the way or the transaction's request fails;
      Qdrant never does. */
  method Promote(p: Pipeline, sources: seq<string>, results: seq<SourceResult>, batch: int, store: Store, shadow: Store)
    returns (ok: bool, final: seq<SourceResult>, ghost stage: Stage, ghost refused: nat)
    requires shadow.server == store.server && store.Promotable(store.server.State())
    requires Apart(store.server.State(), store.collection, shadow.collection)
    requires shadow.collection in store.server.collections
    modifies store.server
    ensures old(store.server.log) <= store.server.log
    ensures Confined(store, shadow.collection, old(store.server.State()), old(store.server.faults))
    ensures stage != Inline ==> final == results
    ensures stage == Untouched ==>
              && !ok && store.server.State() == old(store.server.State())
              && forall i :: |old(store.server.log)| <= i < |store.server.log| ==>
                   store.server.log[i] == old(store.server.State())
    ensures stage == Promoted ==>
              && store.server.State().Resolve(store.collection) == old(store.server.State()).Resolve(shadow.collection)
              && AfterPromotion(store.server.backend, store.server.State(), store.collection, shadow.collection)
              && forall i :: |old(store.server.log)| <= i < |store.server.log| ==>
                   store.ShowsOldOrStaged(old(store.server.State()), shadow.collection, store.server.log[i])
    ensures stage == Inline <==>
              && store.server.backend == PgVector
              && (!old(store.CanRename(store.server.State(), shadow.collection))
                  || FaultAt(old(store.server.faults), 0) != NoFault)
    ensures store.server.backend == PgVector && stage != Inline ==> stage == Promoted
    ensures store.server.backend == PgVector && old(store.server.faults) == [] && stage == Promoted ==>
              ok && store.server.faults == []
    ensures stage == Inline ==>
              && SafeUntil(store.server.log, |old(store.server.log)|, refused, store.collection,
                           old(store.server.State()).Resolve(store.collection),
                           old(store.server.collections)[shadow.collection])
              && (ok ==>
                    && store.server.State().Resolve(store.collection)
                         == Some(Staged(store.server.backend, p, sources, {}))
                    && Replayed(p, sources, final))
              && (ok && old(store.server.State()).Resolve(store.collection).Some? ==>
                    exists i :: refused <= i < |store.server.log|
                        && store.server.log[i].Resolve(store.collection).None?)
    ensures store.server.backend == Qdrant ==>
              var swap := QdrantSwap(old(store.server.faults), old(store.Aliased(store.server.State())),
                                     old(store.HasTarget(store.server.State())));
              && stage == (if swap.applied then Promoted else Untouched) && ok == !swap.raised
              && store.server.faults == Later(old(store.server.faults), swap.used)
  {
    var swap;
    ghost var applied;
    final := results;
    swap, applied := store.SwapCollection(shadow.collection);
    refused := |store.server.log|;
    match swap {
      case Swapped =>
        return true, results, Promoted, refused;
      case SwapRaised =>
        return false, results, if applied then Promoted else Untouched, refused;
      case Refused =>
        stage := Inline;
        ghost var kept := store.server.log;
        assert SafeUntil(kept, |old(store.server.log)|, refused, store.collection,
                         old(store.server.State()).Resolve(store.collection),
                         old(store.server.collections)[shadow.collection]);
        ghost var start, before := old(store.server.State()), store.server.State();
        ok, final := RebuildInline(p, sources, results, batch, store);
        OffShadowIsElsewhere(before, store.server.State(), store.collection,
                             Touched(start, store.collection, shadow.collection));
        assert kept <= store.server.log;
        assert forall i :: 0 <= i < refused ==> store.server.log[i] == kept[i];
    }
  }

  // ---------------------------------------------------------------------------
  // How a run against Qdrant ends
  // ---------------------------------------------------------------------------

  /** How far a promotion and the count after it get, and how many requests they make. */
  datatype Ending = Ending(stage: Stage, raised: bool, used: nat)

  function QdrantEnding(faults: seq<Fault>, aliased: bool, hasTarget: bool): Ending {
    var swap := QdrantSwap(faults, aliased, hasTarget);
    if swap.raised then Ending(if swap.applied then Promoted else Untouched, true, swap.used)
    else Ending(Promoted, FaultAt(faults, swap.used) != NoFault, swap.used + 1)
  }

  /** The run raises after its promotion and the cleanup takes the promoted data. */
  predicate LosesActive(faults: seq<Fault>, aliased: bool, hasTarget: bool) {
    var e := QdrantEnding(faults, aliased, hasTarget);
    e.stage == Promoted && e.raised && DropBites(Later(faults, e.used))
  }

  lemma SmoothEnding(aliased: bool, hasTarget: bool)
    ensures QdrantEnding([], aliased, hasTarget).stage == Promoted && !QdrantEnding([], aliased, hasTarget).raised
  {
  }

  /** The position of the final count among the requests that start with the promotion. */
  function CountAt(aliased: bool, hasTarget: bool): nat {
    if aliased && hasTarget then 4 else 3
  }

  predicate FirstFailure(faults: seq<Fault>, j: nat) {
    FaultAt(faults, j) != NoFault && forall i :: 0 <= i < j ==> FaultAt(faults, i) == NoFault
  }

  /** The promoted data is lost exactly when the first request that fails is the repoint,
      by its reply, or one after it up to the count, and the cleanup's three requests get
      through. Any other exception preserves the active data. */
  lemma LosesActiveIff(faults: seq<Fault>, aliased: bool, hasTarget: bool)
    requires hasTarget ==> aliased
    ensures LosesActive(faults, aliased, hasTarget) <==>
            exists j: nat | RepointAt(aliased) <= j <= CountAt(aliased, hasTarget) ::
              && FirstFailure(faults, j)
              && (j == RepointAt(aliased) ==> FaultAt(faults, j) == ReplyLost)
              && DropBites(Later(faults, j + 1))
  {
    var e := QdrantEnding(faults, aliased, hasTarget);
    if LosesActive(faults, aliased, hasTarget) {
      assert FirstFailure(faults, e.used - 1);
    }
    if j: nat :| RepointAt(aliased) <= j <= CountAt(aliased, hasTarget) && FirstFailure(faults, j)
                 && (j == RepointAt(aliased) ==> FaultAt(faults, j) == ReplyLost) && DropBites(Later(faults, j + 1)) {
      assert forall i :: 0 <= i < j ==> FaultAt(faults, i) == NoFault;
      assert e.used == j + 1;
    }
  }

  /** Promotion and the count after it: the end of the `try`. */
  method PromoteAndCount(p: Pipeline, sources: seq<string>, results: seq<SourceResult>, total: int, batch: int,
                         store: Store, shadow: Store)
    returns (o: Outcome, ghost stage: Stage, ghost refused: nat)
    requires shadow.server == store.server && store.Promotable(store.server.State())
    requires Apart(store.server.State(), store.collection, shadow.collection)
    requires shadow.collection in store.server.collections
    modifies store.server
    ensures old(store.server.log) <= store.server.log
    ensures Confined(store, shadow.collection, old(store.server.State()), old(store.server.faults))
    ensures stage == Untouched ==>
              && o == Raised && store.server.State() == old(store.server.State())
              && forall i :: |old(store.server.log)| <= i < |store.server.log| ==>
                   store.server.log[i] == old(store.server.State())
    ensures stage == Promoted ==>
              var staged := old(store.server.collections)[shadow.collection];
              && store.server.State().Resolve(store.collection) == Some(staged)
              && AfterPromotion(store.server.backend, store.server.State(), store.collection, shadow.collection)
              && SafeUntil(store.server.log, |old(store.server.log)|, |store.server.log|, store.collection,
                           old(store.server.State()).Resolve(store.collection), staged)
              && (o.Done? ==> o == Done(if |staged| < total then total else |staged|, results))
    ensures stage == Inline <==>
              && store.server.backend == PgVector
              && (!old(store.CanRename(store.server.State(), shadow.collection))
                  || FaultAt(old(store.server.faults), 0) != NoFault)
    ensures store.server.backend == PgVector && stage != Inline ==> stage == Promoted
    ensures stage == Inline ==>
              var whole := Staged(store.server.backend, p, sources, {});
              && SafeUntil(store.server.log, |old(store.server.log)|, refused, store.collection,
                           old(store.server.State()).Resolve(store.collection),
                           old(store.server.collections)[shadow.collection])
              && (o.Done? ==>
                    && store.server.State().Resolve(store.collection) == Some(whole)
                    && o.totalChunks == (if |whole| < total then total else |whole|)
                    && Replayed(p, sources, o.sources))
              && (o.Done? && old(store.server.State()).Resolve(store.collection).Some? ==>
                    exists i :: refused <= i < |store.server.log|
                        && store.server.log[i].Resolve(store.collection).None?)
    ensures store.server.backend == PgVector && old(store.server.faults) == [] && stage == Promoted ==> o.Done?
    ensures store.server.backend == Qdrant ==>
              var e := QdrantEnding(old(store.server.faults), old(store.Aliased(store.server.State())),
                                    old(store.HasTarget(store.server.State())));
              && stage == e.stage && (o == Raised) == e.raised
              && (e.raised ==> store.server.faults == Later(old(store.server.faults), e.used))
  {
    var ok, final;
    ok, final, stage, refused := Promote(p, sources, results, batch, store, shadow);
    if !ok {
      return Raised, stage, refused;
    }
    var n;
    ok, n := store.Count();
    if store.server.backend == Qdrant {
      LaterLater(old(store.server.faults),
          QdrantSwap(old(store.server.faults), old(store.Aliased(store.server.State())),
                                                      old(store.HasTarget(store.server.State()))).used, 1);
    }
    if !ok {
      return Raised, stage, refused;
    }
    if n < total {
      n := total;
    }
    return Done(n, final), stage, refused;
  }

  /** Everything can be fetched, and there is something to promote. */
  predicate HasChunks(backend: Backend, p: Pipeline, sources: seq<string>, checkpoint: seq<SourceResult>) {
    var skip := NamesOf(checkpoint);
    && AllFetched(p, sources, skip)
    && (Staged(backend, p, sources, skip) != map[] || SumChunks(checkpoint) + |CorpusEntries(p, sources, skip)| > 0)
  }

  /** Builds the staging collection and checks that there is something to promote. */
  method BuildAndVerify(p: Pipeline, sources: seq<string>, checkpoint: seq<SourceResult>, batch: int, shadow: Store)
    returns (ok: bool, total: int, results: seq<SourceResult>)
    requires Plain(shadow.server.State(), shadow.collection)
    requires shadow.collection in shadow.server.collections
    requires shadow.server.collections[shadow.collection] == map[]
    modifies shadow.server
    ensures shadow.Quiet(old(shadow.server.State()), old(shadow.server.log))
    ensures ok ==> shadow.collection in shadow.server.collections
    ensures ok ==> BuiltSoFar(shadow.server.backend, p, sources, checkpoint, |sources|,
                              shadow.server.collections[shadow.collection], total, results)
    ensures old(shadow.server.faults) == [] ==>
              (ok <==> HasChunks(shadow.server.backend, p, sources, checkpoint)) && shadow.server.faults == []
    ensures old(shadow.server.faults) == [] && !ok && AllFetched(p, sources, NamesOf(checkpoint)) ==>
              shadow.collection !in shadow.server.collections
  {
    ghost var start, log0 := shadow.server.State(), shadow.server.log;
    ok, total, results := BuildStaging(p, sources, checkpoint, batch, shadow);
    assert sources[..|sources|] == sources;
    if !ok {
      return;
    }
    ghost var built, log1 := shadow.server.State(), shadow.server.log;
    assert built.Resolve(shadow.collection) == Some(Staged(shadow.server.backend, p, sources, NamesOf(checkpoint)));
    var n;
    ok, n := shadow.Count();
    if !ok {
      return;
    }
    if n < total {
      n := total;
    }
    if n == 0 {
      var dropped := shadow.Drop();
      QuietTransitive(start, log0, built, log1, shadow.server.State(), shadow.server.log, shadow.collection);
      return false, total, results;
    }
  }

  /** The body of the `try`: build, verify, promote, report. `plan` is what is left of
      the faults when the promotion starts, if it does. */
  method TryIngest(p: Pipeline, sources: seq<string>, checkpoint: seq<SourceResult>, batch: int, store: Store,
                   shadow: Store)
    returns (o: Outcome, ghost stage: Stage, ghost plan: Option<seq<Fault>>, ghost refused: nat)
    requires shadow.server == store.server && store.Promotable(store.server.State())
    requires Apart(store.server.State(), store.collection, shadow.collection)
    requires shadow.collection in store.server.collections && store.server.collections[shadow.collection] == map[]
    modifies store.server
    ensures old(store.server.log) <= store.server.log
    ensures Confined(store, shadow.collection, old(store.server.State()), old(store.server.faults))
    ensures stage == Untouched ==> o == Raised && shadow.Quiet(old(store.server.State()), old(store.server.log))
    ensures stage == Promoted ==>
              PromotedState(p, sources, checkpoint, store.server, |old(store.server.log)|, store.collection,
                            shadow.collection, old(store.server.State()).Resolve(store.collection), o)
    ensures stage == Inline ==>
              InlineState(p, sources, checkpoint, store.server, |old(store.server.log)|, refused, store.collection,
                          old(store.server.State()).Resolve(store.collection), o)
    ensures PlanFollowed(store, shadow.collection, old(store.server.State()), plan, o, stage)
    ensures store.server.backend == Qdrant && plan.Some? && o == Raised ==>
              store.server.faults == Later(plan.value,
                  QdrantEnding(plan.value, old(store.Aliased(store.server.State())),
                                                                    old(store.HasTarget(store.server.State()))).used)
    ensures old(store.server.faults) == []
            && (store.server.backend == Qdrant || old(store.CanRename(store.server.State(), shadow.collection))) ==>
              (o.Done? <==> HasChunks(store.server.backend, p, sources, checkpoint))
  {
    plan, refused := None, 0;
    ghost var start, log0 := store.server.State(), store.server.log;
    var ok, total, results := BuildAndVerify(p, sources, checkpoint, batch, shadow);
    ghost var built, log1 := store.server.State(), store.server.log;
    QuietIsSafe(start, log0, built, log1, store.collection, shadow.collection);
    QuietIsElsewhere(start, log0, built, log1, store.collection, shadow.collection);
    if !ok {
      return Raised, Untouched, plan, refused;
    }
    QuietKeepsLayout(store, start, log0, built, log1, shadow.collection);
    QuietKeepsPlan(store, start, built, shadow.collection);
    SmoothEnding(store.Aliased(built), store.HasTarget(built));
    assert sources[..|sources|] == sources;
    plan := Some(store.server.faults);
    o, stage, refused := PromoteAndCount(p, sources, results, total, batch, store, shadow);
    ElsewhereTransitive(start, built, store.server.State(), Touched(start, store.collection, shadow.collection));
    if stage == Untouched {
      QuietTransitive(start, log0, built, log1, store.server.State(), store.server.log, shadow.collection);
    } else {
      SafeFromStart(start, log0, log1, store.server.log, if stage == Inline then refused else |store.server.log|,
                    store.collection, Staged(store.server.backend, p, sources, NamesOf(checkpoint)));
    }
  }

  /** After a promotion: the staged contents, and the totals and results if it reports. */
  ghost predicate PromotedState(p: Pipeline, sources: seq<string>, checkpoint: seq<SourceResult>, server: Server,
                                from: nat,
                                active: string, shadow: string, before: Option<Contents>, o: Outcome)
    reads server
  {
    var skip := NamesOf(checkpoint);
    var staged := Staged(server.backend, p, sources, skip);
    && SafeUntil(server.log, from, |server.log|, active, before, staged)
    && server.State().Resolve(active) == Some(staged)
    && AfterPromotion(server.backend, server.State(), active, shadow)
    && (o.Done? ==> Reported(p, sources, checkpoint, staged, o))
  }

  /** What a run without the fallback reports: the checkpointed results and one for every
      other source, and a count no less than their sum. */
  predicate Reported(p: Pipeline, sources: seq<string>, checkpoint: seq<SourceResult>, staged: Contents, o: Outcome)
    requires o.Done?
  {
    var total := SumChunks(checkpoint) + |CorpusEntries(p, sources, NamesOf(checkpoint))|;
    && o.sources == checkpoint + ResultsOf(p, sources, NamesOf(checkpoint))
    && SumChunks(o.sources) == total
    && o.totalChunks == if |staged| < total then total else |staged|
  }

  /** After the inline fallback: safe up to the refusal; if it reports, the whole corpus
      is there, but there was a moment without any collection. */
  ghost predicate InlineState(p: Pipeline, sources: seq<string>, checkpoint: seq<SourceResult>, server: Server,
                              from: nat,
                              refused: nat, active: string, before: Option<Contents>, o: Outcome)
    reads server
  {
    var whole := Staged(server.backend, p, sources, {});
    var total := SumChunks(checkpoint) + |CorpusEntries(p, sources, NamesOf(checkpoint))|;
    && server.backend == PgVector
    && SafeUntil(server.log, from, refused, active, before, Staged(server.backend, p, sources, NamesOf(checkpoint)))
    && (o.Done? ==>
          && server.State().Resolve(active) == Some(whole)
          && Replayed(p, sources, o.sources)
          && o.totalChunks == if |whole| < total then total else |whole|)
    && (o.Done? && before.Some? ==>
          exists i :: refused <= i < |server.log| && server.log[i].Resolve(active).None?)
  }

  /** How the faults decide the stage and, for Qdrant, the outcome. */
  predicate PlanFollowed(store: Store, shadow: string, start: Db, plan: Option<seq<Fault>>, o: Outcome, stage: Stage) {
    match plan
    case None => stage == Untouched && o == Raised
    case Some(faults) =>
      if store.server.backend == PgVector then
        stage == if store.CanRename(start, shadow) && FaultAt(faults, 0) == NoFault then Promoted else Inline
      else
        var e := QdrantEnding(faults, store.Aliased(start), store.HasTarget(start));
        stage == e.stage && (o == Raised) == e.raised
  }

  lemma SafeFromStart(start: Db, log0: seq<Db>, log1: seq<Db>, log2: seq<Db>, to: int, active: string, staged: Contents)
    requires log0 <= log1 <= log2
    requires forall i :: |log0| <= i < |log1| ==> log1[i].Resolve(active) == start.Resolve(active)
    requires SafeUntil(log2, |log1|, to, active, start.Resolve(active), staged)
    ensures SafeUntil(log2, |log0|, to, active, start.Resolve(active), staged)
  {
    assert forall i :: |log0| <= i < |log1| ==> log2[i] == log1[i];
  }

  /** The cleanup of the exception handler: drops the staging name and ignores what
      goes wrong. After a Qdrant promotion that name is the active data, and it is gone
      unless one of the two look-ups or the deletion is lost. */
  method Cleanup(shadow: Store, active: string, ghost stage: Stage) returns (ok: bool)
    requires stage == Untouched ==> Apart(shadow.server.State(), active, shadow.collection)
    requires stage == Promoted ==>
               AfterPromotion(shadow.server.backend, shadow.server.State(), active, shadow.collection)
    modifies shadow.server
    ensures old(shadow.server.log) <= shadow.server.log
    ensures shadow.server.backend == PgVector || stage != Inline ==>
              && Elsewhere(old(shadow.server.State()), shadow.server.State(), {shadow.collection})
              && (ok ==> shadow.collection !in shadow.server.collections)
    ensures old(shadow.server.faults) == [] ==> ok && shadow.server.faults == []
    ensures stage == Untouched ==> shadow.Quiet(old(shadow.server.State()), old(shadow.server.log))
    ensures stage == Promoted && shadow.server.backend == PgVector ==>
              && shadow.server.State() == old(shadow.server.State())
              && forall i :: |old(shadow.server.log)| <= i < |shadow.server.log| ==>
                   shadow.server.log[i] == old(shadow.server.State())
    ensures stage == Promoted && shadow.server.backend == Qdrant ==>
              && (DropBites(old(shadow.server.faults)) ==> |shadow.server.log| == |old(shadow.server.log)| + 1)
              && |shadow.server.log| <= |old(shadow.server.log)| + 1
              && (|shadow.server.log| > |old(shadow.server.log)| ==>
                    shadow.server.log[|shadow.server.log| - 1] == shadow.server.State())
              && shadow.server.State().Resolve(active) ==
                 (if DropBites(old(shadow.server.faults)) then None else old(shadow.server.State()).Resolve(active))
              && (ok ==> shadow.server.State().Resolve(active).None?)
  {
    ok := shadow.Drop();
  }

  /** Everything up to the exception handler; `entered` says whether the `try` began. */
  method Attempt(p: Pipeline, sources: seq<string>, checkpoint: seq<SourceResult>, batch: int, store: Store,
                 shadow: Store)
    returns (entered: bool, o: Outcome, ghost stage: Stage, ghost plan: Option<seq<Fault>>, ghost refused: nat)
    requires shadow.server == store.server && store.Promotable(store.server.State())
    requires Apart(store.server.State(), store.collection, shadow.collection)
    modifies store.server
    ensures old(store.server.log) <= store.server.log
    ensures Confined(store, shadow.collection, old(store.server.State()), old(store.server.faults))
    ensures !entered ==> o == Raised && stage == Untouched
    ensures old(store.server.faults) == [] ==> entered
    ensures stage == Untouched ==> o == Raised && shadow.Quiet(old(store.server.State()), old(store.server.log))
    ensures stage == Promoted ==>
              PromotedState(p, sources, checkpoint, store.server, |old(store.server.log)|, store.collection,
                            shadow.collection, old(store.server.State()).Resolve(store.collection), o)
    ensures stage == Inline ==>
              InlineState(p, sources, checkpoint, store.server, |old(store.server.log)|, refused, store.collection,
                          old(store.server.State()).Resolve(store.collection), o)
    ensures PlanFollowed(store, shadow.collection, old(store.server.State()), plan, o, stage)
    ensures store.server.backend == Qdrant && plan.Some? && o == Raised ==>
              store.server.faults == Later(plan.value,
                  QdrantEnding(plan.value, old(store.Aliased(store.server.State())),
                                                                    old(store.HasTarget(store.server.State()))).used)
    ensures old(store.server.faults) == []
            && (store.server.backend == Qdrant || old(store.CanRename(store.server.State(), shadow.collection))) ==>
              (o.Done? <==> HasChunks(store.server.backend, p, sources, checkpoint))
  {
    plan, refused := None, 0;
    ghost var start, log0 := store.server.State(), store.server.log;
    entered := shadow.RecreateCollection();
    ghost var ready, log1 := store.server.State(), store.server.log;
    QuietIsSafe(start, log0, ready, log1, store.collection, shadow.collection);
    QuietIsElsewhere(start, log0, ready, log1, store.collection, shadow.collection);
    if !entered {
      return false, Raised, Untouched, plan, refused;
    }
    QuietKeepsLayout(store, start, log0, ready, log1, shadow.collection);
    QuietKeepsPlan(store, start, ready, shadow.collection);
    o, stage, plan, refused := TryIngest(p, sources, checkpoint, batch, store, shadow);
    ElsewhereTransitive(start, ready, store.server.State(), Touched(start, store.collection, shadow.collection));
    if stage == Untouched {
      QuietTransitive(start, log0, ready, log1, store.server.State(), store.server.log, shadow.collection);
    } else {
      SafeFromStart(start, log0, log1, store.server.log, if stage == Inline then refused else |store.server.log|,
                    store.collection, Staged(store.server.backend, p, sources, NamesOf(checkpoint)));
    }
  }

  /** One full ingest, from the creation of the staging collection to the cleanup.
      Whatever fails and wherever the worker is killed, readers of the active name
      see exactly the old contents or exactly the staged ones, with two exceptions:
      the inline fallback after PostgreSQL's refusal, and the cleanup after a failure
      that follows a Qdrant promotion, when `LosesActive`. */
  method Run(p: Pipeline, sources: seq<string>, checkpoint: seq<SourceResult>, batch: int, store: Store, shadow: Store)
    returns (o: Outcome, ghost stage: Stage, ghost plan: Option<seq<Fault>>, ghost refused: nat)
    requires shadow.server == store.server && store.Promotable(store.server.State())
    requires Apart(store.server.State(), store.collection, shadow.collection)
    modifies store.server
    ensures old(store.server.log) <= store.server.log
    ensures Confined(store, shadow.collection, old(store.server.State()), old(store.server.faults))
    ensures old(store.server.faults) == [] && o == Raised ==> shadow.collection !in store.server.collections
    ensures PlanFollowed(store, shadow.collection, old(store.server.State()), plan, o, stage)
    ensures stage == Untouched ==>
              && o == Raised
              && store.server.State().Resolve(store.collection) == old(store.server.State()).Resolve(store.collection)
              && forall i :: |old(store.server.log)| <= i < |store.server.log| ==>
                   store.server.log[i].Resolve(store.collection) == old(store.server.State()).Resolve(store.collection)
    ensures var before := old(store.server.State()).Resolve(store.collection);
            var staged := Staged(store.server.backend, p, sources, NamesOf(checkpoint));
            var loses := store.server.backend == Qdrant && plan.Some?
                         && LosesActive(plan.value, old(store.Aliased(store.server.State())),
                                        old(store.HasTarget(store.server.State())));
            stage == Promoted ==>
              && store.server.State().Resolve(store.collection) == (if loses then None else Some(staged))
              && SafeUntil(store.server.log, |old(store.server.log)|, |store.server.log| - (if loses then 1 else 0),
                           store.collection, before, staged)
              && (o.Done? ==> Reported(p, sources, checkpoint, staged, o))
    ensures stage == Inline ==>
              var before := old(store.server.State()).Resolve(store.collection);
              var staged := Staged(store.server.backend, p, sources, NamesOf(checkpoint));
              && SafeUntil(store.server.log, |old(store.server.log)|, refused, store.collection, before, staged)
              && (o.Done? ==> InlineState(p, sources, checkpoint, store.server, |old(store.server.log)|, refused,
                                          store.collection, before, o))
    ensures old(store.server.faults) == []
            && (store.server.backend == Qdrant || old(store.CanRename(store.server.State(), shadow.collection))) ==>
              (o.Done? <==> HasChunks(store.server.backend, p, sources, checkpoint))
  {
    ghost var start, log0 := store.server.State(), store.server.log;
    var entered;
    entered, o, stage, plan, refused := Attempt(p, sources, checkpoint, batch, store, shadow);
    ghost var staged := Staged(store.server.backend, p, sources, NamesOf(checkpoint));
    ghost var tried := store.server.State();
    if entered && o == Raised {
      Recover(store, shadow, stage, refused, start, log0, staged);
      ElsewhereMore(tried, store.server.State(), {shadow.collection},
                    Touched(start, store.collection, shadow.collection));
      ElsewhereTransitive(start, tried, store.server.State(), Touched(start, store.collection, shadow.collection));
    } else if stage == Untouched {
      QuietIsSafe(start, log0, store.server.State(), store.server.log, store.collection, shadow.collection);
    }
  }

  /** The exception handler, stage by stage. `start` and `log0` are the state and the log
      before the run. */
  method Recover(store: Store, shadow: Store, ghost stage: Stage, ghost refused: nat, ghost start: Db,
                 ghost log0: seq<Db>, ghost staged: Contents)
    requires shadow.server == store.server && log0 <= store.server.log
    requires stage == Untouched ==> Apart(start, store.collection, shadow.collection) && shadow.Quiet(start, log0)
    requires stage == Promoted ==>
               && AfterPromotion(store.server.backend, store.server.State(), store.collection, shadow.collection)
               && store.server.State().Resolve(store.collection) == Some(staged)
    requires stage == Inline ==> store.server.backend == PgVector
    requires stage != Untouched ==>
               SafeUntil(store.server.log, |log0|, if stage == Inline then refused else |store.server.log|,
                         store.collection, start.Resolve(store.collection), staged)
    modifies store.server
    ensures old(store.server.log) <= store.server.log
    ensures Elsewhere(old(store.server.State()), store.server.State(), {shadow.collection})
    ensures old(store.server.faults) == [] ==>
              store.server.faults == [] && shadow.collection !in store.server.collections
    ensures stage == Untouched ==>
              && store.server.State().Resolve(store.collection) == start.Resolve(store.collection)
              && forall i :: |log0| <= i < |store.server.log| ==>
                   store.server.log[i].Resolve(store.collection) == start.Resolve(store.collection)
    ensures stage == Promoted ==>
              var bites := store.server.backend == Qdrant && DropBites(old(store.server.faults));
              && store.server.State().Resolve(store.collection) == (if bites then None else Some(staged))
              && SafeUntil(store.server.log, |log0|, |store.server.log| - (if bites then 1 else 0), store.collection,
                           start.Resolve(store.collection), staged)
    ensures stage == Inline ==>
              SafeUntil(store.server.log, |log0|, refused, store.collection, start.Resolve(store.collection), staged)
  {
    ghost var tried, log1 := store.server.State(), store.server.log;
    if stage == Untouched {
      QuietIsSafe(start, log0, tried, log1, store.collection, shadow.collection);
    }
    var dropped := Cleanup(shadow, store.collection, stage);
    ghost var now, log2 := store.server.State(), store.server.log;
    match stage {
      case Untouched =>
        QuietTransitive(start, log0, tried, log1, now, log2, shadow.collection);
        QuietIsSafe(start, log0, now, log2, store.collection, shadow.collection);
      case Promoted =>
        SafeExtends(log1, log2, |log0|, |log1|, store.collection, start.Resolve(store.collection), staged);
        SafeToTheEnd(log2, |log0|, |log1|, now, store.collection, start.Resolve(store.collection), staged);
      case Inline =>
        SafeExtends(log1, log2, |log0|, refused, store.collection, start.Resolve(store.collection), staged);
    }
  }

  /** Entries after `to` that show the present state are as safe as that. */
  lemma SafeToTheEnd(log: seq<Db>, from: nat, to: nat, now: Db, active: string, before: Option<Contents>,
                     staged: Contents)
    requires to <= |log| && forall i :: to <= i < |log| ==> log[i].Resolve(active) == now.Resolve(active)
    ensures SafeUntil(log, from, to, active, before, staged) && now.Resolve(active) == Some(staged) ==>
              SafeUntil(log, from, |log|, active, before, staged)
  {
  }

  lemma SafeExtends(log: seq<Db>, more: seq<Db>, from: nat, to: int, active: string, before: Option<Contents>,
                    staged: Contents)
    requires log <= more && SafeUntil(log, from, to, active, before, staged)
    ensures SafeUntil(more, from, to, active, before, staged)
  {
    assert forall i :: from <= i < to ==> more[i] == log[i];
  }

  /** A witness: everything goes well except the count after the promotion. The data was
      there before and in staging, and is gone afterwards. */
  method CountFailureLosesData(p: Pipeline, sources: seq<string>, results: seq<SourceResult>, batch: int,
                               store: Store, shadow: Store)
    requires shadow.server == store.server && store.server.backend == Qdrant && store.Promotable(store.server.State())
    requires Apart(store.server.State(), store.collection, shadow.collection)
    requires shadow.collection in store.server.collections && store.server.State().Resolve(store.collection).Some?
    requires store.server.faults == [NoFault, NoFault, NoFault, NoFault, RequestLost]
    modifies store.server
    ensures store.server.State().Resolve(store.collection).None?
  {
    var o;
    ghost var stage, refused;
    o, stage, refused := PromoteAndCount(p, sources, results, SumChunks(results), batch, store, shadow);
    var ok := Cleanup(shadow, store.collection, stage);
  }

  // ---------------------------------------------------------------------------
  // What a promoted collection holds
  // ---------------------------------------------------------------------------

  /** Without a checkpoint a full ingest is exact: one point per source, document and
      chunk index, so its count is the sum of the per-source counts and the "at least
      the total" clamps change nothing. */
  lemma FreshIngestIsExact(backend: Backend, p: Pipeline, sources: seq<string>, origin: string -> Origin)
    requires CorpusOk(p, sources, origin)
    ensures var staged := Staged(backend, p, sources, NamesOf([]));
            && HoldsCorpus(staged, p, sources, {})
            && |staged| == SumChunks([]) + |CorpusEntries(p, sources, NamesOf([]))|
  {
    assert NamesOf([]) == {};
    CorpusIsExact(backend, p, sources, origin, {});
    CorpusEntriesAreChunks(p, sources, {});
  }

  /** `r` says of source `k`, fetched and not skipped: its name, the revision fetched and
      the number of its chunks. */
  predicate ResultFor(p: Pipeline, sources: seq<string>, skip: set<string>, k: int, r: SourceResult) {
    && 0 <= k < |sources| && sources[k] !in skip && p.fetch(sources[k]).Fetched?
    && r.name == sources[k]
    && r.revision == p.fetch(sources[k]).revision
    && r.chunks == ChunksOfDocs(p, p.fetch(sources[k]).docs)
  }

  lemma ResultOfLast(p: Pipeline, sources: seq<string>, skip: set<string>, r: SourceResult)
    requires sources != []
    ensures var n := |sources| - 1;
            && (forall k :: ResultFor(p, sources[..n], skip, k, r) ==> ResultFor(p, sources, skip, k, r))
            && (forall k :: ResultFor(p, sources, skip, k, r) && k != n ==> ResultFor(p, sources[..n], skip, k, r))
  {
    assert forall k :: 0 <= k < |sources| - 1 ==> sources[..|sources| - 1][k] == sources[k];
  }

  lemma ResultForIsResultOf(p: Pipeline, sources: seq<string>, skip: set<string>, k: nat, r: SourceResult)
    requires k < |sources| && sources[k] !in skip && p.fetch(sources[k]).Fetched?
    ensures ResultFor(p, sources, skip, k, r) <==> r == ResultOf(p, sources[k])
  {
    EntriesAreChunks(p, sources[k], p.fetch(sources[k]).docs);
  }

  lemma {:induction false} ResultsSum(p: Pipeline, sources: seq<string>, skip: set<string>)
    ensures SumChunks(ResultsOf(p, sources, skip)) == ChunksOfCorpus(p, sources, skip)
  {
    if sources != [] {
      var init, last := sources[..|sources| - 1], sources[|sources| - 1];
      var before := ResultsOf(p, init, skip);
      ResultsSum(p, init, skip);
      if last !in skip && p.fetch(last).Fetched? {
        EntriesAreChunks(p, last, p.fetch(last).docs);
        SumSnoc(before, ResultOf(p, last));
        assert ResultsOf(p, sources, skip) == before + [ResultOf(p, last)];
      } else {
        assert ResultsOf(p, sources, skip) == before;
      }
    }
  }

  lemma {:induction false} ResultIsFor(p: Pipeline, sources: seq<string>, skip: set<string>, r: SourceResult)
    ensures r in ResultsOf(p, sources, skip) <==> exists k :: ResultFor(p, sources, skip, k, r)
  {
    if sources != [] {
      var n := |sources| - 1;
      var before := ResultsOf(p, sources[..n], skip);
      ResultIsFor(p, sources[..n], skip, r);
      ResultOfLast(p, sources, skip, r);
      if sources[n] !in skip && p.fetch(sources[n]).Fetched? {
        ResultForIsResultOf(p, sources, skip, n, r);
        assert ResultsOf(p, sources, skip) == before + [ResultOf(p, sources[n])];
      } else {
        assert ResultsOf(p, sources, skip) == before;
      }
    }
  }

  /** The results of a run: one for every source that was fetched and not skipped, and no
      others; their sum is the number of all chunks. */
  lemma ResultsReport(p: Pipeline, sources: seq<string>, skip: set<string>)
    ensures SumChunks(ResultsOf(p, sources, skip)) == ChunksOfCorpus(p, sources, skip)
    ensures forall r :: r in ResultsOf(p, sources, skip) <==> exists k :: ResultFor(p, sources, skip, k, r)
  {
    ResultsSum(p, sources, skip);
    forall r ensures r in ResultsOf(p, sources, skip) <==> exists k :: ResultFor(p, sources, skip, k, r) {
      ResultIsFor(p, sources, skip, r);
    }
  }

  /** For any corpus at all the count is the sum of the per-source counts, and the clamps
      change nothing, if and only if no two chunks share an id; otherwise it is less. */
  lemma CountIsSumIff(backend: Backend, p: Pipeline, sources: seq<string>, skip: set<string>)
    ensures |Staged(backend, p, sources, skip)| <= |CorpusEntries(p, sources, skip)|
    ensures |Staged(backend, p, sources, skip)| == |CorpusEntries(p, sources, skip)|
            <==> DistinctIds(CorpusEntries(p, sources, skip))
  {
    UpsertIsExact(backend, CorpusEntries(p, sources, skip));
  }

  /** A resumed ingest skips completed sources although its staging collection starts
      empty, so it promotes the whole corpus precisely when the skipped sources have
      no chunks. */
  lemma ResumedIngestLosesSkipped(backend: Backend, p: Pipeline, sources: seq<string>, origin: string -> Origin,
                                  skip: set<string>)
    requires CorpusOk(p, sources, origin)
    ensures Staged(backend, p, sources, skip) == Staged(backend, p, sources, {})
            <==> forall k, d, i | InCorpus(p, sources, {}, k, d, i) :: sources[k] !in skip
  {
    if Staged(backend, p, sources, skip) == Staged(backend, p, sources, {}) {
      WholeSkipsNothing(backend, p, sources, origin, skip);
    } else if forall k, d, i | InCorpus(p, sources, {}, k, d, i) :: sources[k] !in skip {
      SkippingNothing(p, sources, skip);
    }
  }

  lemma WholeSkipsNothing(backend: Backend, p: Pipeline, sources: seq<string>, origin: string -> Origin,
                          skip: set<string>)
    requires CorpusOk(p, sources, origin) && Staged(backend, p, sources, skip) == Staged(backend, p, sources, {})
    ensures forall k, d, i | InCorpus(p, sources, {}, k, d, i) :: sources[k] !in skip
  {
    CorpusIsExact(backend, p, sources, origin, skip);
    CorpusIsExact(backend, p, sources, origin, {});
    forall k, d, i | InCorpus(p, sources, {}, k, d, i) ensures sources[k] !in skip {
      HeldIsNotSkipped(Staged(backend, p, sources, {}), p, sources, origin, skip, k, d, i);
    }
  }

  lemma HeldIsNotSkipped(c: Contents, p: Pipeline, sources: seq<string>, origin: string -> Origin, skip: set<string>,
                         k: nat, d: nat, i: nat)
    requires CorpusOk(p, sources, origin) && HoldsCorpus(c, p, sources, skip) && HoldsCorpus(c, p, sources, {})
    requires InCorpus(p, sources, {}, k, d, i)
    ensures sources[k] !in skip
  {
    assert HoldsChunk(c, p, sources[k], p.fetch(sources[k]).docs[d], i);
    var id := PointId(sources[k], p.fetch(sources[k]).docs[d].path, i);
    var k', d', i' :| InCorpus(p, sources, skip, k', d', i')
                      && id == sources[k'] + "|" + p.fetch(sources[k']).docs[d'].path + "|" + Numeral(i');
    IdsOfDocs(p, sources, origin, k, d, i, k', d', i');
  }

  lemma {:induction false} SkippingNothing(p: Pipeline, sources: seq<string>, skip: set<string>)
    requires forall k, d, i | InCorpus(p, sources, {}, k, d, i) :: sources[k] !in skip
    ensures CorpusEntries(p, sources, skip) == CorpusEntries(p, sources, {})
  {
    if sources != [] {
      var n := |sources| - 1;
      var init := sources[..n];
      forall k, d, i | InCorpus(p, init, {}, k, d, i) ensures init[k] !in skip {
        assert InCorpus(p, sources, {}, k, d, i);
      }
      SkippingNothing(p, init, skip);
      var fetched := p.fetch(sources[n]);
      if sources[n] in skip && fetched.Fetched? && SourceEntries(p, sources[n], fetched.docs) != [] {
        var d, i := FromSource(p, sources[n], fetched.docs, SourceEntries(p, sources[n], fetched.docs)[0]);
        assert InCorpus(p, sources, {}, n, d, i);
      }
    }
  }
}
