/** The worker's store object: the operations on one collection name, as sequences
    of requests to the server. */
module Stores {
  import opened Common
  import opened VectorDb

  /** No alias is called `name` and none points to it: the name stands for a
      physical collection that nothing else reads. */
  predicate Plain(db: Db, name: string) {
    name !in db.aliases && forall a | a in db.aliases :: db.aliases[a] != name
  }

  /** The staging name is apart from the active one. */
  predicate Apart(db: Db, active: string, shadow: string) {
    active != shadow && Plain(db, shadow)
  }

  /** The two states differ at most in the physical collection `shadow`. */
  predicate OffShadow(a: Db, b: Db, shadow: string) {
    b.aliases == a.aliases && b.collections - {shadow} == a.collections - {shadow}
  }

  /** Readers of the active name cannot tell two such states apart. */
  lemma OffShadowIsUnseen(a: Db, b: Db, active: string, shadow: string)
    requires OffShadow(a, b, shadow) && Apart(a, active, shadow)
    ensures b.Resolve(active) == a.Resolve(active) && Apart(b, active, shadow)
  {
    var t := a.Target(active);
    assert t != shadow;
    assert t in a.collections <==> t in a.collections - {shadow};
    assert t in b.collections <==> t in b.collections - {shadow};
    if t in a.collections {
      assert (a.collections - {shadow})[t] == a.collections[t];
      assert (b.collections - {shadow})[t] == b.collections[t];
    }
  }

  lemma DeletePlain(db: Db, name: string)
    requires Plain(db, name)
    ensures db.Delete(name) == db.(collections := db.collections - {name})
    ensures OffShadow(db, db.Delete(name), name)
  {
    assert db.Delete(name).aliases == db.aliases;
  }

  ghost predicate QuietLog(start: Db, log0: seq<Db>, now: Db, log: seq<Db>, shadow: string) {
    && Plain(now, shadow)
    && OffShadow(start, now, shadow)
    && log0 <= log
    && forall i :: |log0| <= i < |log| ==> OffShadow(start, log[i], shadow)
  }

  lemma QuietTransitive(start: Db, log0: seq<Db>, mid: Db, log1: seq<Db>, now: Db, log2: seq<Db>, shadow: string)
    requires QuietLog(start, log0, mid, log1, shadow) && QuietLog(mid, log1, now, log2, shadow)
    ensures QuietLog(start, log0, now, log2, shadow)
  {
    forall i | |log0| <= i < |log2| ensures OffShadow(start, log2[i], shadow) {
      if i < |log1| {
        assert log2[i] == log1[i];
      }
    }
  }

  // ---------------------------------------------------------------------------
  // What other knowledge bases keep
  // ---------------------------------------------------------------------------

  /** Collections and aliases with other names are as they were; only an alias that points
      to one of these names may be gone. */
  ghost predicate Elsewhere(before: Db, after: Db, touched: set<string>) {
    && (forall name | name !in touched ::
          && (name in after.collections <==> name in before.collections)
          && (name in before.collections ==> after.collections[name] == before.collections[name]))
    && (forall a | a !in touched ::
          && (a in after.aliases ==> a in before.aliases && after.aliases[a] == before.aliases[a])
          && (a in before.aliases && before.aliases[a] !in touched ==> a in after.aliases))
  }

  /** The names a promotion deals with. */
  function Touched(db: Db, active: string, shadow: string): set<string> {
    {active, shadow, active + "_old", db.Target(active)}
  }

  lemma ElsewhereTransitive(a: Db, b: Db, c: Db, touched: set<string>)
    requires Elsewhere(a, b, touched) && Elsewhere(b, c, touched)
    ensures Elsewhere(a, c, touched)
  {
  }

  lemma ElsewhereMore(a: Db, b: Db, few: set<string>, many: set<string>)
    requires Elsewhere(a, b, few) && few <= many
    ensures Elsewhere(a, b, many)
  {
  }

  lemma OffShadowIsElsewhere(a: Db, b: Db, shadow: string, touched: set<string>)
    requires OffShadow(a, b, shadow) && shadow in touched
    ensures Elsewhere(a, b, touched)
  {
    forall name | name != shadow
      ensures name in b.collections <==> name in a.collections
      ensures name in a.collections ==> b.collections[name] == a.collections[name]
    {
      assert name in a.collections <==> name in a.collections - {shadow};
      assert name in b.collections <==> name in b.collections - {shadow};
      if name in a.collections {
        assert (a.collections - {shadow})[name] == a.collections[name];
        assert (b.collections - {shadow})[name] == b.collections[name];
      }
    }
  }

  // ---------------------------------------------------------------------------
  // Dropping a name
  // ---------------------------------------------------------------------------

  function Unaliased(db: Db, name: string): Db {
    db.(aliases := db.aliases - {name})
  }

  /** What is left after a name was dropped. */
  function Dropped(backend: Backend, db: Db, name: string): Db {
    if backend == PgVector then db.Delete(name)
    else if name in db.aliases then
      var rest := Unaliased(db, name);
      if db.aliases[name] in db.collections then rest.Delete(db.aliases[name]) else rest
    else if name in db.collections then db.Delete(name)
    else db
  }

  /** Whatever a drop leaves differs only under the name and its target. */
  lemma DropIsElsewhere(backend: Backend, db: Db, name: string)
    ensures var touched := {name, if backend == PgVector then name else db.Target(name)};
            forall next | next == db || next == Dropped(backend, db, name)
                          || (backend == Qdrant && name in db.aliases && next == Unaliased(db, name)) ::
              Elsewhere(db, next, touched)
    ensures backend == PgVector ==> Dropped(backend, db, name).collections == db.collections - {name}
    ensures backend == Qdrant ==>
              && name !in Dropped(backend, db, name).aliases
              && Dropped(backend, db, name).collections == db.collections - {db.Target(name)}
  {
  }

  /** Dropping a physical Qdrant collection takes two reads and the deletion. */
  predicate DropBites(faults: seq<Fault>) {
    FaultAt(faults, 0) == NoFault && FaultAt(faults, 1) == NoFault && FaultAt(faults, 2) != RequestLost
  }

  // ---------------------------------------------------------------------------
  // Promoting a staging collection
  // ---------------------------------------------------------------------------

  /** How a promotion in Qdrant goes, request by request. With an alias: read it,
      repoint it, look for its old target, delete that. Without: read the aliases, look
      for a collection of the name, create the alias. */
  datatype SwapPlan = SwapPlan(applied: bool, raised: bool, used: nat)

  function RepointAt(aliased: bool): nat {
    if aliased then 1 else 2
  }

  function QdrantSwap(faults: seq<Fault>, aliased: bool, deletes: bool): SwapPlan {
    var repoint := RepointAt(aliased);
    if FaultAt(faults, 0) != NoFault then SwapPlan(false, true, 1)
    else if !aliased && FaultAt(faults, 1) != NoFault then SwapPlan(false, true, 2)
    else if FaultAt(faults, repoint) != NoFault then
      SwapPlan(FaultAt(faults, repoint) == ReplyLost, true, repoint + 1)
    else if aliased && FaultAt(faults, 2) != NoFault then SwapPlan(true, true, 3)
    else if aliased && deletes && FaultAt(faults, 3) != NoFault then SwapPlan(true, true, 4)
    else SwapPlan(true, false, if aliased && deletes then 4 else 3)
  }

  datatype SwapResult = Swapped | Refused | SwapRaised

  /** The table `active` has the contents of `shadow`, which is gone, and so is `left`;
      every other table is as it was. */
  ghost predicate OnlyRenamed(before: map<string, Contents>, after: map<string, Contents>, active: string,
                              shadow: string, left: string)
    requires shadow in before
  {
    && active in after && after[active] == before[shadow]
    && shadow !in after && left !in after
    && forall name | name != active && name != shadow && name != left ::
         && (name in after <==> name in before)
         && (name in before ==> after[name] == before[name])
  }

  /** The alias `active` points to `shadow`. Its former target is gone, with whatever other
      alias pointed to it; every other collection and alias is as it was. */
  ghost predicate OnlyRepointed(before: Db, after: Db, active: string, shadow: string) {
    var former := if active in before.aliases then before.aliases[active] else shadow;
    && active in after.aliases && after.aliases[active] == shadow
    && (forall name ::
          && (name in after.collections <==> name in before.collections && (name != former || former == shadow))
          && (name in after.collections ==> after.collections[name] == before.collections[name]))
    && (forall a | a != active ::
          && (a in after.aliases ==> a in before.aliases && after.aliases[a] == before.aliases[a])
          && (a in before.aliases && (before.aliases[a] != former || former !in before.collections) ==>
                a in after.aliases))
  }

  lemma RenamedOnly(db: Db, active: string, shadow: string)
    requires Apart(db, active, shadow) && shadow in db.collections && db.aliases == map[]
    ensures OnlyRenamed(db.collections, db.Renamed(active, shadow).collections, active, shadow, active + "_old")
    ensures Elsewhere(db, db.Renamed(active, shadow), Touched(db, active, shadow))
    ensures db.Renamed(active, shadow).Resolve(active) == db.Resolve(shadow)
  {
    assert |active + "_old"| > |active|;
  }

  /** The state after a repoint and, where the former target exists, its deletion. */
  function Repointed(db: Db, active: string, shadow: string): Db {
    var former := if active in db.aliases then db.aliases[active] else shadow;
    var next := db.Repoint(active, shadow);
    if former != shadow && former in db.collections then next.Delete(former) else next
  }

  lemma RepointedOnly(db: Db, active: string, shadow: string)
    requires Plain(db, shadow)
    ensures OnlyRepointed(db, Repointed(db, active, shadow), active, shadow)
  {
  }

  /** Readers of `active` see the staged contents, and others what they saw. */
  lemma RepointedSafely(db: Db, active: string, shadow: string)
    requires Apart(db, active, shadow) && shadow in db.collections && active !in db.collections
    ensures OnlyRepointed(db, Repointed(db, active, shadow), active, shadow)
    ensures forall next | next == db.Repoint(active, shadow) || next == Repointed(db, active, shadow) ::
              && next.Resolve(active) == db.Resolve(shadow)
              && Elsewhere(db, next, Touched(db, active, shadow))
              && active in next.aliases && next.aliases[active] == shadow
              && shadow !in next.aliases && shadow in next.collections && active !in next.collections
  {
    RepointedOnly(db, active, shadow);
  }

  class Store {
    const server: Server
    const collection: string

    constructor (server: Server, collection: string)
      ensures this.server == server && this.collection == collection
    {
      this.server, this.collection := server, collection;
    }

    /** Since the server was in state `start` with the log `log0`, only this
        physical collection has changed. */
    ghost predicate Quiet(start: Db, log0: seq<Db>)
      reads server
    {
      QuietLog(start, log0, server.State(), server.log, collection)
    }

    /** Deletes the physical collection and creates it again, empty. */
    method RecreateCollection() returns (ok: bool)
      requires Plain(server.State(), collection)
      modifies server
      ensures Quiet(old(server.State()), old(server.log))
      ensures ok ==> server.State() == old(server.State()).Put(collection, map[])
      ensures ok && collection in old(server.collections) ==>
                |server.log| == old(|server.log|) + 2 && server.log[old(|server.log|)].Resolve(collection).None?
      ensures old(server.faults) == [] ==> ok && server.faults == []
    {
      ghost var start := server.State();
      if collection in server.collections {
        DeletePlain(start, collection);
        ok := server.Change(server.State().Delete(collection));
        if !ok {
          return;
        }
      }
      assert server.collections - {collection} == start.collections - {collection};
      assert server.State().Put(collection, map[]).collections - {collection} == start.collections - {collection};
      ok := server.Change(server.State().Put(collection, map[]));
      assert ok ==> server.State().collections == start.collections[collection := map[]];
    }

    method Upsert(es: seq<Entry>) returns (ok: bool)
      requires Plain(server.State(), collection)
      modifies server
      ensures Quiet(old(server.State()), old(server.log))
      ensures ok ==> collection in old(server.collections)
      ensures old(server.faults) == [] && collection in old(server.collections) ==> ok && server.faults == []
      ensures ok ==> server.State() == old(server.State()).Put(collection,
          UpsertAll(server.backend, old(server.collections)[collection], es))
    {
      if collection !in server.collections {
        return false;
      }
      var c := UpsertAll(server.backend, server.collections[collection], es);
      assert server.State().Put(collection, c).collections - {collection} == server.collections - {collection};
      ok := server.Change(server.State().Put(collection, c));
    }

    method Count() returns (ok: bool, n: nat)
      modifies server`faults
      ensures ok ==> server.State().Resolve(collection).Some? && n == |server.State().Resolve(collection).value|
      ensures ok == (FaultAt(old(server.faults), 0) == NoFault && server.State().Resolve(collection).Some?)
      ensures server.faults == Later(old(server.faults), 1)
    {
      n := 0;
      ok := server.Ask();
      if ok {
        var c := server.State().Resolve(collection);
        ok := c.Some?;
        n := if c.Some? then |c.value| else 0;
      }
    }

    /** The name stands for a physical collection. */
    predicate IsPhysical(db: Db) {
      collection !in db.aliases && collection in db.collections
    }

    /** Drops whatever the name stands for: a table; or, in Qdrant, an alias with its
        target, or a physical collection together with the aliases that point to it. */
    method Drop() returns (ok: bool)
      modifies server
      ensures Plain(old(server.State()), collection) ==> Quiet(old(server.State()), old(server.log))
      ensures old(server.log) <= server.log && |server.log| <= |old(server.log)| + 2
      ensures |server.log| > |old(server.log)| ==> server.log[|server.log| - 1] == server.State()
      ensures ok ==> server.State() == Dropped(server.backend, old(server.State()), collection)
      ensures ok && server.backend == PgVector ==> server.collections == old(server.collections) - {collection}
      ensures ok && server.backend == Qdrant ==>
                && collection !in server.aliases
                && server.collections == old(server.collections) - {old(server.State()).Target(collection)}
      ensures !ok ==>
                || server.State() == old(server.State())
                || server.State() == Dropped(server.backend, old(server.State()), collection)
                || (collection in old(server.aliases) && server.State() == Unaliased(old(server.State()), collection))
      ensures server.backend == Qdrant && old(IsPhysical(server.State())) ==>
                && (DropBites(old(server.faults)) ==> |server.log| == |old(server.log)| + 1)
                && |server.log| <= |old(server.log)| + 1
                && ok == (forall i: nat | i < 3 :: FaultAt(old(server.faults), i) == NoFault)
                && server.State() == if DropBites(old(server.faults)) then old(server.State()).Delete(collection)
                                     else old(server.State())
      ensures Elsewhere(old(server.State()), server.State(),
                        {collection, if server.backend == PgVector then collection
                                     else old(server.State()).Target(collection)})
      ensures old(server.faults) == [] ==> ok && server.faults == []
      ensures collection !in old(server.collections) && Plain(old(server.State()), collection) ==>
                && server.State() == old(server.State())
                && forall i :: |old(server.log)| <= i < |server.log| ==> server.log[i] == old(server.State())
    {
      ghost var start := server.State();
      if Plain(start, collection) {
        DeletePlain(start, collection);
      }
      DropIsElsewhere(server.backend, start, collection);
      if server.backend == PgVector {
        ok := server.Change(server.State().Delete(collection));
      } else {
        ok := DropFromQdrant();
      }
    }

    method DropFromQdrant() returns (ok: bool)
      modifies server
      ensures old(server.log) <= server.log && |server.log| <= |old(server.log)| + 2
      ensures |server.log| > |old(server.log)| ==> server.log[|server.log| - 1] == server.State()
      ensures ok ==> server.State() == Dropped(Qdrant, old(server.State()), collection)
      ensures !ok ==>
                || server.State() == old(server.State())
                || server.State() == Dropped(Qdrant, old(server.State()), collection)
                || (collection in old(server.aliases) && server.State() == Unaliased(old(server.State()), collection))
      ensures collection !in old(server.aliases) ==> |server.log| <= |old(server.log)| + 1
      ensures old(IsPhysical(server.State())) ==>
                && (DropBites(old(server.faults)) ==> |server.log| == |old(server.log)| + 1)
                && ok == (forall i: nat | i < 3 :: FaultAt(old(server.faults), i) == NoFault)
                && server.State() == if DropBites(old(server.faults)) then old(server.State()).Delete(collection)
                                     else old(server.State())
      ensures old(server.faults) == [] ==> ok && server.faults == []
      ensures collection !in old(server.collections) && collection !in old(server.aliases) ==>
                server.State() == old(server.State()) && server.log == old(server.log)
    {
      ok := server.Ask();
      if !ok {
        return;
      }
      if collection in server.aliases {
        var target := server.aliases[collection];
        ok := server.Change(Unaliased(server.State(), collection));
        if !ok {
          return;
        }
        ok := server.Ask();
        if ok && target in server.collections {
          ok := server.Change(server.State().Delete(target));
        }
      } else {
        ok := server.Ask();
        if ok && collection in server.collections {
          ok := server.Change(server.State().Delete(collection));
        }
      }
    }

    /** The layout promotion is atomic on: PostgreSQL tables, or a Qdrant name that
        is not a physical collection. */
    predicate Promotable(db: Db)
    {
      if server.backend == PgVector then db.aliases == map[] else collection !in db.collections
    }

    /** PostgreSQL's transaction of renames goes through unless an `_old` table is left
        from before. */
    predicate CanRename(db: Db, shadow: string) {
      collection in db.collections ==> collection + "_old" !in db.collections && collection + "_old" != shadow
    }

    /** In Qdrant: whether the name is an alias, and whether its target exists. */
    predicate Aliased(db: Db) {
      collection in db.aliases
    }

    predicate HasTarget(db: Db) {
      collection in db.aliases && db.aliases[collection] in db.collections
    }

    /** Readers of this name see what they saw at `start`, or the staged contents. */
    ghost predicate ShowsOldOrStaged(start: Db, shadow: string, db: Db) {
      db.Resolve(collection) == start.Resolve(collection) || db.Resolve(collection) == start.Resolve(shadow)
    }

    /** Promotes the staging collection. `applied` says whether the repoint, or the
        transaction, took effect. */
    method SwapCollection(shadow: string) returns (r: SwapResult, ghost applied: bool)
      requires Apart(server.State(), collection, shadow) && shadow in server.collections
      requires Promotable(server.State())
      modifies server
      ensures old(server.log) <= server.log
      ensures forall i :: old(|server.log|) <= i < |server.log| ==>
                ShowsOldOrStaged(old(server.State()), shadow, server.log[i])
      ensures server.State().Resolve(collection) == old(server.State()).Resolve(if applied then shadow else collection)
      ensures r == Swapped ==> applied
      ensures Elsewhere(old(server.State()), server.State(), Touched(old(server.State()), collection, shadow))
      ensures !applied ==> server.State() == old(server.State())
      ensures !applied ==> forall i :: |old(server.log)| <= i < |server.log| ==> server.log[i] == old(server.State())
      ensures server.backend == Qdrant ==> r != Refused
      ensures server.backend == PgVector ==> r != SwapRaised
      ensures server.backend == Qdrant && applied ==>
                && collection in server.aliases && server.aliases[collection] == shadow
                && shadow !in server.aliases && shadow in server.collections && collection !in server.collections
      ensures server.backend == PgVector && applied ==> server.aliases == map[] && shadow !in server.collections
      ensures server.backend == PgVector && applied ==>
                OnlyRenamed(old(server.collections), server.collections, collection, shadow, collection + "_old")
      ensures server.backend == Qdrant && r == Swapped ==>
                OnlyRepointed(old(server.State()), server.State(), collection, shadow)
      ensures server.backend == PgVector ==>
                && (r != Refused <==>
                      old(CanRename(server.State(), shadow)) && FaultAt(old(server.faults), 0) == NoFault)
                && server.faults == Later(old(server.faults), 1)
      ensures server.backend == Qdrant ==>
                var plan := QdrantSwap(old(server.faults), old(Aliased(server.State())),
                    old(HasTarget(server.State())));
                && applied == plan.applied && (r == SwapRaised) == plan.raised
                && server.faults == Later(old(server.faults), plan.used)
    {
      ghost var start := server.State();
      if server.backend == PgVector {
        RenamedOnly(start, collection, shadow);
        r, applied := SwapTables(shadow);
      } else {
        RepointedSafely(start, collection, shadow);
        r, applied := SwapAlias(shadow);
      }
    }

    /** PostgreSQL: the renames in one transaction. */
    method SwapTables(shadow: string) returns (r: SwapResult, ghost applied: bool)
      requires shadow in server.collections
      modifies server
      ensures applied == (old(CanRename(server.State(), shadow)) && FaultAt(old(server.faults), 0) != RequestLost)
      ensures server.State() == if applied then old(server.State().Renamed(collection, shadow)) else old(server.State())
      ensures old(server.log) <= server.log
      ensures forall i :: |old(server.log)| <= i < |server.log| ==> server.log[i] == server.State()
      ensures r == if old(CanRename(server.State(), shadow)) && FaultAt(old(server.faults), 0) == NoFault then Swapped
                   else Refused
      ensures server.faults == Later(old(server.faults), 1)
    {
      if !CanRename(server.State(), shadow) {
        var refused := server.Ask();
        return Refused, false;
      }
      var ok := server.Change(server.State().Renamed(collection, shadow));
      applied := FaultAt(old(server.faults), 0) != RequestLost;
      return if ok then Swapped else Refused, applied;
    }

    /** Qdrant: the alias is repointed, and its former target deleted. */
    method SwapAlias(shadow: string) returns (r: SwapResult, ghost applied: bool)
      requires Plain(server.State(), shadow)
      modifies server
      ensures var plan := QdrantSwap(old(server.faults), old(Aliased(server.State())), old(HasTarget(server.State())));
              && applied == plan.applied && r == (if plan.raised then SwapRaised else Swapped)
              && server.faults == Later(old(server.faults), plan.used)
      ensures !applied ==> server.State() == old(server.State())
      ensures applied ==>
                || server.State() == old(server.State()).Repoint(collection, shadow)
                || server.State() == Repointed(old(server.State()), collection, shadow)
      ensures r == Swapped ==> server.State() == Repointed(old(server.State()), collection, shadow)
      ensures old(server.log) <= server.log
      ensures forall i :: |old(server.log)| <= i < |server.log| ==>
                || server.log[i] == old(server.State())
                || (applied && server.log[i] == old(server.State()).Repoint(collection, shadow))
                || (applied && server.log[i] == Repointed(old(server.State()), collection, shadow))
    {
      applied := false;
      var aliased := collection in server.aliases;
      var ok := server.Ask();
      if !ok {
        return SwapRaised, false;
      }
      if !aliased {
        ok := server.Ask();
        if !ok {
          return SwapRaised, false;
        }
      }
      var target := if aliased then server.aliases[collection] else shadow;
      ghost var before := server.faults;
      ok := server.Change(server.State().Repoint(collection, shadow));
      applied := FaultAt(before, 0) != RequestLost;
      if !ok {
        return SwapRaised, applied;
      }
      if target != shadow {
        ok := server.Ask();
        if !ok {
          return SwapRaised, applied;
        }
        if target in server.collections {
          ok := server.Change(server.State().Delete(target));
          if !ok {
            return SwapRaised, applied;
          }
        }
      }
      return Swapped, applied;
    }
  }
}
