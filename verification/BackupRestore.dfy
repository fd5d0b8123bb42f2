/** Backup pages through a collection; restore writes the pages into a staging
    collection, checks the count and promotes it. */
module BackupRestore {
  import opened Common
  import opened VectorDb
  import opened Stores
  import FullIngest

  /** A point as the store returns it: any payload fields. */
  datatype Raw = Raw(vector: Vector, fields: map<string, string>)

  type Stored = map<string, Raw>

  function Field(raw: Raw, name: string): string {
    if name in raw.fields then raw.fields[name] else ""
  }

  /** The exported form: the vector and the four payload fields. */
  function Exported(raw: Raw): Point {
    Point(raw.vector, Payload(Field(raw, "source"), Field(raw, "doc_path"), Field(raw, "text"),
        Field(raw, "chunk_hash")))
  }

  /** The server's order on the ids of a collection. */
  predicate Enumerates(order: seq<string>, c: Stored) {
    && (forall i, j :: 0 <= i < j < |order| ==> order[i] != order[j])
    && (forall i :: 0 <= i < |order| ==> order[i] in c)
    && (forall id :: id in c ==> id in order)
  }

  function ExportAll(order: seq<string>, c: Stored): seq<Entry>
    requires forall i :: 0 <= i < |order| ==> order[i] in c
  {
    seq(|order|, i requires 0 <= i < |order| => Entry(order[i], Exported(c[order[i]])))
  }

  const SCROLL_LIMIT := 500
  const RESTORE_BATCH := 64

  /** One page of at most `limit` ids from position `start`. */
  function Page(order: seq<string>, start: nat, limit: nat): seq<string> {
    if start >= |order| then []
    else if start + limit <= |order| then order[start..start + limit]
    else order[start..]
  }

  /** Position of an id in the server's order. */
  function PositionOf(order: seq<string>, id: string): (n: nat)
    requires id in order
    ensures n < |order| && order[n] == id
  {
    if order[0] == id then 0 else 1 + PositionOf(order[1..], id)
  }

  /** Qdrant's scroll: a page that begins with the id `offset`, and the id the next
      page begins with. */
  method Scroll(order: seq<string>, offset: Option<string>, limit: nat)
    returns (page: seq<string>, next: Option<string>)
    requires offset.Some? ==> offset.value in order
    requires forall i, j :: 0 <= i < j < |order| ==> order[i] != order[j]
    ensures var start := if offset.Some? then PositionOf(order, offset.value) else 0;
            && page == Page(order, start, limit)
            && next == if start + limit < |order| then Some(order[start + limit]) else None
  {
    var start := if offset.Some? then PositionOf(order, offset.value) else 0;
    page := Page(order, start, limit);
    next := if start + limit < |order| then Some(order[start + limit]) else None;
  }

  lemma PositionIsIndex(order: seq<string>, n: nat)
    requires n < |order|
    requires forall i, j :: 0 <= i < j < |order| ==> order[i] != order[j]
    ensures PositionOf(order, order[n]) == n
  {
  }

  /** Appends the exported points of one page. */
  method AppendPage(order: seq<string>, c: Stored, points: seq<Entry>, page: seq<string>) returns (more: seq<Entry>)
    requires Enumerates(order, c) && |points| + |page| <= |order|
    requires page == order[|points|..|points| + |page|] && points == ExportAll(order, c)[..|points|]
    ensures more == ExportAll(order, c)[..|points| + |page|]
  {
    more := points;
    for k := 0 to |page|
      invariant |more| == |points| + k && more == ExportAll(order, c)[..|more|]
    {
      assert page[k] == order[|more|];
      more := more + [Entry(page[k], Exported(c[page[k]]))];
    }
  }

  /** The export visits every point exactly once, in the server's order. */
  method ExportQdrant(order: seq<string>, c: Stored) returns (points: seq<Entry>)
    requires Enumerates(order, c)
    ensures points == ExportAll(order, c)
  {
    points := [];
    var offset: Option<string> := None;
    ghost var start, all := 0, ExportAll(order, c);
    while true
      invariant |points| == start <= |order| && points == all[..start]
      invariant offset == if start == 0 then None else if start < |order| then Some(order[start]) else offset
      invariant start > 0 ==> start < |order|
      decreases |order| - start
    {
      if start > 0 {
        PositionIsIndex(order, start);
      }
      var page, next := Scroll(order, offset, SCROLL_LIMIT);
      points := AppendPage(order, c, points, page);
      start := |points|;
      offset := next;
      if next.None? {
        break;
      }
    }
  }

  /** Milvus pages by numeric offset and stops at a short or empty page. */
  method ExportMilvus(order: seq<string>, c: Stored) returns (points: seq<Entry>)
    requires Enumerates(order, c)
    ensures points == ExportAll(order, c)
  {
    points := [];
    var offset := 0;
    while true
      invariant offset == |points| <= |order| && points == ExportAll(order, c)[..|points|]
      decreases |order| - |points|
    {
      var page := Page(order, offset, SCROLL_LIMIT);
      if page == [] {
        break;
      }
      points := AppendPage(order, c, points, page);
      if |page| < SCROLL_LIMIT {
        break;
      }
      offset := offset + SCROLL_LIMIT;
    }
  }

  // ---------------------------------------------------------------------------
  // Restore
  // ---------------------------------------------------------------------------

  datatype Restored = Restored(total: nat) | RestoreRaised

  /** Upserts the points in batches of 64. */
  method UpsertBatches(points: seq<Entry>, shadow: Store) returns (ok: bool)
    requires Plain(shadow.server.State(), shadow.collection)
    requires shadow.collection in shadow.server.collections && shadow.server.collections[shadow.collection] == map[]
    modifies shadow.server
    ensures shadow.Quiet(old(shadow.server.State()), old(shadow.server.log))
    ensures ok ==> shadow.collection in shadow.server.collections
                   && shadow.server.collections[shadow.collection] == UpsertAll(shadow.server.backend, map[], points)
    ensures old(shadow.server.faults) == [] ==> ok && shadow.server.faults == []
  {
    ghost var start, log0 := shadow.server.State(), shadow.server.log;
    var i := 0;
    while i < |points|
      invariant 0 <= i <= |points|
      invariant shadow.collection in shadow.server.collections && shadow.Quiet(start, log0)
      invariant shadow.server.collections[shadow.collection] == UpsertAll(shadow.server.backend, map[], points[..i])
      invariant old(shadow.server.faults) == [] ==> shadow.server.faults == []
    {
      var j := if i + RESTORE_BATCH <= |points| then i + RESTORE_BATCH else |points|;
      ok := FullIngest.Flush(shadow, start, log0, map[], points[..i], points[i..j]);
      if !ok {
        return;
      }
      assert points[..i] + points[i..j] == points[..j];
      i := j;
    }
    assert points[..|points|] == points;
    ok := true;
  }

  /** Everything before the promotion: the staging collection is created, filled and
      counted. */
  method FillStaging(points: seq<Entry>, shadow: Store) returns (ok: bool)
    requires Plain(shadow.server.State(), shadow.collection)
    modifies shadow.server
    ensures shadow.Quiet(old(shadow.server.State()), old(shadow.server.log))
    ensures ok ==>
              && DistinctIds(points) && shadow.collection in shadow.server.collections
              && shadow.server.collections[shadow.collection] == UpsertAll(shadow.server.backend, map[], points)
    ensures old(shadow.server.faults) == [] ==> (ok <==> DistinctIds(points)) && shadow.server.faults == []
  {
    ghost var start, log0 := shadow.server.State(), shadow.server.log;
    ok := shadow.RecreateCollection();
    if !ok {
      return;
    }
    ghost var ready, log1 := shadow.server.State(), shadow.server.log;
    ok := UpsertBatches(points, shadow);
    QuietTransitive(start, log0, ready, log1, shadow.server.State(), shadow.server.log, shadow.collection);
    if !ok {
      return;
    }
    UpsertIsExact(shadow.server.backend, points);
    var n;
    ok, n := shadow.Count();
    ok := ok && n == |points|;
  }

  /** The body of the `try` in a restore. `plan` is what is left of the faults when the
      promotion starts, if it does. */
  method TryRestore(points: seq<Entry>, store: Store, shadow: Store)
    returns (r: Restored, ghost applied: bool, ghost plan: Option<seq<Fault>>)
    requires shadow.server == store.server && store.Promotable(store.server.State())
    requires Apart(store.server.State(), store.collection, shadow.collection)
    modifies store.server
    ensures old(store.server.log) <= store.server.log
    ensures FullIngest.Confined(store, shadow.collection, old(store.server.State()), old(store.server.faults))
    ensures !applied ==> r == RestoreRaised && shadow.Quiet(old(store.server.State()), old(store.server.log))
    ensures applied ==>
              var restored := UpsertAll(store.server.backend, map[], points);
              && DistinctIds(points)
              && FullIngest.SafeUntil(store.server.log, |old(store.server.log)|, |store.server.log|, store.collection,
                                      old(store.server.State()).Resolve(store.collection), restored)
              && store.server.State().Resolve(store.collection) == Some(restored)
              && FullIngest.AfterPromotion(store.server.backend, store.server.State(), store.collection,
                   shadow.collection)
    ensures r.Restored? ==> applied && r.total == |points|
    ensures RestoreFollows(store, shadow.collection, old(store.server.State()), plan, r, applied)
    ensures store.server.backend == Qdrant && plan.Some? ==>
              store.server.faults == Later(plan.value, QdrantSwap(plan.value, old(store.Aliased(store.server.State())),
                                                                  old(store.HasTarget(store.server.State()))).used)
    ensures old(store.server.faults) == []
            && (store.server.backend == Qdrant || old(store.CanRename(store.server.State(), shadow.collection))) ==>
              (r.Restored? <==> DistinctIds(points))
  {
    plan, applied := None, false;
    ghost var start, log0 := store.server.State(), store.server.log;
    var ok := FillStaging(points, shadow);
    ghost var built, log1 := store.server.State(), store.server.log;
    FullIngest.QuietIsSafe(start, log0, built, log1, store.collection, shadow.collection);
    FullIngest.QuietIsElsewhere(start, log0, built, log1, store.collection, shadow.collection);
    if !ok {
      return RestoreRaised, false, plan;
    }
    FullIngest.QuietKeepsLayout(store, start, log0, built, log1, shadow.collection);
    FullIngest.QuietKeepsPlan(store, start, built, shadow.collection);
    plan := Some(store.server.faults);
    var swap;
    swap, applied := store.SwapCollection(shadow.collection);
    ElsewhereTransitive(start, built, store.server.State(), Touched(start, store.collection, shadow.collection));
    if applied {
      FullIngest.SafeFromStart(start, log0, log1, store.server.log, |store.server.log|, store.collection,
                               UpsertAll(store.server.backend, map[], points));
    } else {
      QuietTransitive(start, log0, built, log1, store.server.State(), store.server.log, shadow.collection);
    }
    r := if swap == Swapped then Restored.Restored(|points|) else RestoreRaised;
  }

  /** How the faults decide whether a restore that got as far as promoting is applied,
      and whether it returns. */
  predicate RestoreFollows(store: Store, shadow: string, start: Db, plan: Option<seq<Fault>>, r: Restored,
                           applied: bool) {
    match plan
    case None => !applied && r == RestoreRaised
    case Some(faults) =>
      if store.server.backend == PgVector then
        r.Restored? <==> store.CanRename(start, shadow) && FaultAt(faults, 0) == NoFault
      else
        var swap := QdrantSwap(faults, store.Aliased(start), store.HasTarget(start));
        applied == swap.applied && r.Restored? == !swap.raised
  }

  /** The promotion took effect, but raised, and the cleanup takes the restored data. */
  predicate LosesRestored(faults: seq<Fault>, aliased: bool, hasTarget: bool) {
    var swap := QdrantSwap(faults, aliased, hasTarget);
    swap.applied && swap.raised && DropBites(Later(faults, swap.used))
  }

  /** A whole restore with its cleanup. Points with repeated ids never reach the
      active name; and unless the repoint took effect, a failed or killed restore
      leaves readers with exactly what they had. Once it did they have the restored
      points, unless `LosesRestored`. */
  method Restore(points: seq<Entry>, store: Store, shadow: Store)
    returns (r: Restored, ghost applied: bool, ghost plan: Option<seq<Fault>>)
    requires shadow.server == store.server && store.Promotable(store.server.State())
    requires Apart(store.server.State(), store.collection, shadow.collection)
    modifies store.server
    ensures old(store.server.log) <= store.server.log
    ensures FullIngest.Confined(store, shadow.collection, old(store.server.State()), old(store.server.faults))
    ensures old(store.server.faults) == [] && r == RestoreRaised ==> shadow.collection !in store.server.collections
    ensures RestoreFollows(store, shadow.collection, old(store.server.State()), plan, r, applied)
    ensures r.Restored? ==> DistinctIds(points) && r.total == |points| && applied
    ensures !DistinctIds(points) ==> !applied
    ensures !applied ==>
              && r == RestoreRaised
              && store.server.State().Resolve(store.collection) == old(store.server.State()).Resolve(store.collection)
              && forall i :: |old(store.server.log)| <= i < |store.server.log| ==>
                   store.server.log[i].Resolve(store.collection) == old(store.server.State()).Resolve(store.collection)
    ensures var restored := UpsertAll(store.server.backend, map[], points);
            var loses := store.server.backend == Qdrant && plan.Some?
                         && LosesRestored(plan.value, old(store.Aliased(store.server.State())),
                                          old(store.HasTarget(store.server.State())));
            applied ==>
              && store.server.State().Resolve(store.collection) == (if loses then None else Some(restored))
              && FullIngest.SafeUntil(store.server.log, |old(store.server.log)|,
                                      |store.server.log| - (if loses then 1 else 0), store.collection,
                                      old(store.server.State()).Resolve(store.collection), restored)
    ensures old(store.server.faults) == []
            && (store.server.backend == Qdrant || old(store.CanRename(store.server.State(), shadow.collection))) ==>
              (r.Restored? <==> DistinctIds(points))
  {
    ghost var start, log0 := store.server.State(), store.server.log;
    r, applied, plan := TryRestore(points, store, shadow);
    if r == RestoreRaised {
      ghost var stage := if applied then FullIngest.Promoted else FullIngest.Untouched;
      ghost var tried := store.server.State();
      FullIngest.Recover(store, shadow, stage, 0, start, log0, UpsertAll(store.server.backend, map[], points));
      ElsewhereMore(tried, store.server.State(), {shadow.collection},
                    Touched(start, store.collection, shadow.collection));
      ElsewhereTransitive(start, tried, store.server.State(), Touched(start, store.collection, shadow.collection));
    }
  }

  // ---------------------------------------------------------------------------
  // Backup then restore
  // ---------------------------------------------------------------------------

  /** The backed-up collection, reduced to what a backup carries. */
  function Carried(c: Stored): Contents {
    map id | id in c :: Exported(c[id])
  }

  lemma SameContents(d: Contents, es: seq<Entry>, c: Stored)
    requires forall i :: 0 <= i < |es| ==> es[i].id in d && d[es[i].id] == es[i].point
    requires forall i :: 0 <= i < |es| ==> es[i].id in c && es[i].point == Exported(c[es[i].id])
    requires forall id :: id in d ==> exists i :: 0 <= i < |es| && es[i].id == id
    requires forall id :: id in c ==> exists i :: 0 <= i < |es| && es[i].id == id
    ensures d == Carried(c)
  {
  }

  lemma ExportFits(order: seq<string>, c: Stored)
    requires Enumerates(order, c)
    ensures DistinctIds(ExportAll(order, c))
    ensures forall i :: 0 <= i < |order| ==>
              ExportAll(order, c)[i].id in c && ExportAll(order, c)[i].point == Exported(c[ExportAll(order, c)[i].id])
  {
  }

  lemma ExportCovers(order: seq<string>, c: Stored, id: string)
    requires Enumerates(order, c) && id in c
    ensures exists i :: 0 <= i < |ExportAll(order, c)| && ExportAll(order, c)[i].id == id
  {
    var i :| 0 <= i < |order| && order[i] == id;
    assert ExportAll(order, c)[i].id == id;
  }

  lemma CarriedSize(c: Stored)
    ensures |Carried(c)| == |c|
  {
    assert Carried(c).Keys == c.Keys;
    assert |Carried(c)| == |Carried(c).Keys| && |c| == |c.Keys|;
  }

  /** The stored value of a payload field, or an empty one where it is missing. */
  predicate HasField(raw: Raw, name: string, value: string) {
    if name in raw.fields then value == raw.fields[name] else value == ""
  }

  /** The restored collection has the ids and vectors of the one backed up, and each
      payload field has the stored value of its own name. */
  predicate SameAsStored(d: Contents, c: Stored) {
    && d.Keys == c.Keys
    && forall id :: id in c ==>
         && d[id].vector == c[id].vector
         && HasField(c[id], "source", d[id].payload.source)
         && HasField(c[id], "doc_path", d[id].payload.docPath)
         && HasField(c[id], "text", d[id].payload.text)
         && HasField(c[id], "chunk_hash", d[id].payload.chunkHash)
  }

  /** How the worker stores contents: each point with its vector and these fields, maybe
      among others. */
  predicate Keeps(c: Stored, d: Contents) {
    && c.Keys == d.Keys
    && forall id :: id in d ==>
         && c[id].vector == d[id].vector
         && map["source" := d[id].payload.source, "doc_path" := d[id].payload.docPath,
                "text" := d[id].payload.text, "chunk_hash" := d[id].payload.chunkHash].Items <= c[id].fields.Items
  }

  lemma CarriedIsSame(c: Stored)
    ensures SameAsStored(Carried(c), c)
  {
  }

  lemma FieldOf(raw: Raw, fields: map<string, string>, name: string)
    requires fields.Items <= raw.fields.Items && name in fields
    ensures name in raw.fields && raw.fields[name] == fields[name]
  {
    assert (name, fields[name]) in fields.Items;
    assert (name, fields[name]) in raw.fields.Items;
  }

  /** Only one collection is the same as the stored one: that which the worker stored. */
  lemma SameIsStored(c: Stored, r: Contents, d: Contents)
    requires SameAsStored(r, c) && Keeps(c, d)
    ensures r == d
  {
    forall id | id in d ensures id in r && r[id] == d[id] {
      var p := d[id].payload;
      var fields := map["source" := p.source, "doc_path" := p.docPath, "text" := p.text, "chunk_hash" := p.chunkHash];
      FieldOf(c[id], fields, "source");
      FieldOf(c[id], fields, "doc_path");
      FieldOf(c[id], fields, "text");
      FieldOf(c[id], fields, "chunk_hash");
      assert r[id].payload == p;
    }
  }

  /** What an export carries is exactly what upserting it rebuilds: every id with its
      vector and its four payload fields. */
  lemma ExportIsCarried(backend: Backend, order: seq<string>, c: Stored)
    requires Enumerates(order, c)
    ensures DistinctIds(ExportAll(order, c))
    ensures UpsertAll(backend, map[], ExportAll(order, c)) == Carried(c)
    ensures SameAsStored(UpsertAll(backend, map[], ExportAll(order, c)), c)
  {
    CarriedIsSame(c);
    var es := ExportAll(order, c);
    ExportFits(order, c);
    forall id | id in c ensures exists i :: 0 <= i < |es| && es[i].id == id {
      ExportCovers(order, c, id);
    }
    UpsertIsExact(backend, es);
    SameContents(UpsertAll(backend, map[], es), es, c);
  }

  /** Backing up a Qdrant collection and restoring it makes the active name resolve to
      the same ids with the same vectors and payload fields, on any backend and under
      any server order; that is, to the very contents the worker had stored. */
  method BackupThenRestore(order: seq<string>, c: Stored, store: Store, shadow: Store) returns (r: Restored)
    requires Enumerates(order, c)
    requires shadow.server == store.server && store.Promotable(store.server.State())
    requires Apart(store.server.State(), store.collection, shadow.collection)
    modifies store.server
    ensures r.Restored? ==>
              && r.total == |c| && store.server.State().Resolve(store.collection).Some?
              && SameAsStored(store.server.State().Resolve(store.collection).value, c)
              && forall d: Contents | Keeps(c, d) :: store.server.State().Resolve(store.collection) == Some(d)
    ensures old(store.server.faults) == []
            && (store.server.backend == Qdrant || old(store.CanRename(store.server.State(), shadow.collection))) ==>
              r.Restored?
  {
    var points := ExportQdrant(order, c);
    ExportIsCarried(store.server.backend, order, c);
    UpsertIsExact(store.server.backend, points);
    CarriedSize(c);
    forall d: Contents | Keeps(c, d) ensures Carried(c) == d {
      SameIsStored(c, Carried(c), d);
    }
    ghost var applied, plan;
    r, applied, plan := Restore(points, store, shadow);
  }
}
