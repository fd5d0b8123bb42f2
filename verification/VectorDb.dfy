/** A vector database behind the worker's small store interface: collections, and,
    for Qdrant, aliases. Every request is one atomic change; it may fail before or
    after it took effect, and the worker may be killed between any two requests. */
module VectorDb {
  import opened Common

  type Vector = seq<real>

  datatype Payload = Payload(source: string, docPath: string, text: string, chunkHash: string)

  datatype Point = Point(vector: Vector, payload: Payload)

  datatype Entry = Entry(id: string, point: Point)

  type Contents = map<string, Point>

  datatype Backend = Qdrant | PgVector

  datatype Db = Db(collections: map<string, Contents>, aliases: map<string, string>)
  {
    /** The physical collection behind a name. */
    function Target(name: string): string {
      if name in aliases then aliases[name] else name
    }

    /** What a reader of `name` sees. */
    function Resolve(name: string): Option<Contents> {
      if Target(name) in collections then Some(collections[Target(name)]) else None
    }

    function Put(name: string, c: Contents): Db {
      this.(collections := collections[name := c])
    }

    /** Deleting a collection takes the aliases that point to it along. */
    function Delete(name: string): Db {
      Db(collections - {name}, map a | a in aliases && aliases[a] != name :: aliases[a])
    }

    function Repoint(alias: string, name: string): Db {
      this.(aliases := aliases[alias := name])
    }

    /** PostgreSQL's renames in one transaction: `shadow` takes the place of `active`. */
    function Renamed(active: string, shadow: string): Db
      requires shadow in collections
    {
      this.(collections := (collections - {active, shadow, active + "_old"})[active := collections[shadow]])
    }
  }

  function UpsertOne(backend: Backend, c: Contents, e: Entry): Contents {
    if backend == PgVector && e.id in c then
      var kept := c[e.id].payload;
      c[e.id := e.point.(payload := e.point.payload.(source := kept.source, docPath := kept.docPath))]
    else c[e.id := e.point]
  }

  function UpsertAll(backend: Backend, c: Contents, es: seq<Entry>): Contents {
    if es == [] then c
    else UpsertOne(backend, UpsertAll(backend, c, es[..|es| - 1]), es[|es| - 1])
  }

  lemma {:induction false} UpsertAllConcat(backend: Backend, c: Contents, a: seq<Entry>, b: seq<Entry>)
    ensures UpsertAll(backend, c, a + b) == UpsertAll(backend, UpsertAll(backend, c, a), b)
  {
    if b == [] {
      assert a + b == a;
    } else {
      assert (a + b)[..|a + b| - 1] == a + b[..|b| - 1];
      UpsertAllConcat(backend, c, a, b[..|b| - 1]);
    }
  }

  predicate DistinctIds(es: seq<Entry>) {
    forall i, j :: 0 <= i < j < |es| ==> es[i].id != es[j].id
  }

  function IdSet(es: seq<Entry>): set<string> {
    if es == [] then {} else IdSet(es[..|es| - 1]) + {es[|es| - 1].id}
  }

  lemma {:induction false} UpsertKeys(backend: Backend, c: Contents, es: seq<Entry>)
    ensures UpsertAll(backend, c, es).Keys == c.Keys + IdSet(es)
  {
    if es != [] {
      UpsertKeys(backend, c, es[..|es| - 1]);
    }
  }

  lemma {:induction false} InIdSet(es: seq<Entry>, i: nat)
    requires i < |es|
    ensures es[i].id in IdSet(es)
  {
    if i < |es| - 1 {
      assert es[..|es| - 1][i] == es[i];
      InIdSet(es[..|es| - 1], i);
    }
  }

  lemma {:induction false} FromIdSet(es: seq<Entry>, id: string) returns (i: nat)
    requires id in IdSet(es)
    ensures i < |es| && es[i].id == id
  {
    if es[|es| - 1].id == id {
      i := |es| - 1;
    } else {
      i := FromIdSet(es[..|es| - 1], id);
    }
  }

  lemma {:induction false} IdCount(es: seq<Entry>)
    ensures |IdSet(es)| <= |es|
    ensures |IdSet(es)| == |es| <==> DistinctIds(es)
  {
    if es != [] {
      var n := |es| - 1;
      var init, last := es[..n], es[n].id;
      IdCount(init);
      assert forall i :: 0 <= i < n ==> init[i] == es[i];
      if last in IdSet(init) {
        var i := FromIdSet(init, last);
        assert es[i].id == es[n].id;
        assert IdSet(es) == IdSet(init);
      } else {
        forall i | 0 <= i < n ensures es[i].id != last {
          InIdSet(init, i);
        }
        assert |IdSet(es)| == |IdSet(init)| + 1;
      }
    }
  }

  /** What was upserted is what is stored, when no later entry has the same id. */
  lemma {:induction false} UpsertStores(backend: Backend, es: seq<Entry>, i: nat)
    requires DistinctIds(es) && i < |es|
    ensures es[i].id in UpsertAll(backend, map[], es) && UpsertAll(backend, map[], es)[es[i].id] == es[i].point
  {
    var n := |es| - 1;
    var init := es[..n];
    if i < n {
      UpsertStores(backend, init, i);
    } else {
      UpsertKeys(backend, map[], init);
      if es[n].id in IdSet(init) {
        var j := FromIdSet(init, es[n].id);
        assert false;
      }
    }
  }

  /** Of several entries with one id the last one is stored, except that PostgreSQL keeps
      the source and the path of the first. */
  lemma {:induction false} LastWins(backend: Backend, es: seq<Entry>, id: string) returns (first: nat, last: nat)
    requires id in UpsertAll(backend, map[], es)
    ensures first <= last < |es| && es[first].id == id && es[last].id == id
    ensures forall i :: (0 <= i < first || last < i < |es|) ==> es[i].id != id
    ensures var stored, origin := UpsertAll(backend, map[], es)[id], if backend == PgVector then first else last;
            && stored.vector == es[last].point.vector
            && stored.payload.text == es[last].point.payload.text
            && stored.payload.chunkHash == es[last].point.payload.chunkHash
            && stored.payload.source == es[origin].point.payload.source
            && stored.payload.docPath == es[origin].point.payload.docPath
  {
    var n := |es| - 1;
    var init := es[..n];
    assert forall i :: 0 <= i < n ==> init[i] == es[i];
    if es[n].id != id {
      first, last := LastWins(backend, init, id);
    } else if id in UpsertAll(backend, map[], init) {
      first, last := LastWins(backend, init, id);
      last := n;
    } else {
      UpsertKeys(backend, map[], init);
      forall i | 0 <= i < n ensures es[i].id != id {
        InIdSet(init, i);
      }
      first, last := n, n;
    }
  }

  /** Upserting into an empty collection stores exactly the given entries, one point
      each, if and only if their ids are distinct; otherwise it stores fewer. */
  lemma UpsertIsExact(backend: Backend, es: seq<Entry>)
    ensures var c := UpsertAll(backend, map[], es);
            && |c| <= |es|
            && (|c| == |es| <==> DistinctIds(es))
            && (DistinctIds(es) ==> forall i :: 0 <= i < |es| ==> es[i].id in c && c[es[i].id] == es[i].point)
            && (forall id :: id in c ==> exists i :: 0 <= i < |es| && es[i].id == id)
  {
    var c := UpsertAll(backend, map[], es);
    UpsertKeys(backend, map[], es);
    IdCount(es);
    assert |c| == |c.Keys|;
    if DistinctIds(es) {
      forall i | 0 <= i < |es| ensures es[i].id in c && c[es[i].id] == es[i].point {
        UpsertStores(backend, es, i);
      }
    }
    forall id | id in c ensures exists i :: 0 <= i < |es| && es[i].id == id {
      var i := FromIdSet(es, id);
    }
  }

  // ---------------------------------------------------------------------------
  // The server and its requests
  // ---------------------------------------------------------------------------

  /** What goes wrong with a request: it never arrives, or its reply never comes back. */
  datatype Fault = NoFault | RequestLost | ReplyLost

  /** The fate of request number `i`; requests beyond the script go well. */
  function FaultAt(faults: seq<Fault>, i: nat): Fault {
    if i < |faults| then faults[i] else NoFault
  }

  /** What is left of the script after `n` requests. */
  function Later(faults: seq<Fault>, n: nat): (rest: seq<Fault>)
    ensures forall i: nat :: FaultAt(rest, i) == FaultAt(faults, n + i)
  {
    if n <= |faults| then faults[n..] else []
  }

  lemma LaterLater(faults: seq<Fault>, m: nat, n: nat)
    ensures Later(Later(faults, m), n) == Later(faults, m + n)
  {
  }

  class Server {
    const backend: Backend
    var collections: map<string, Contents>
    var aliases: map<string, string>
    /** The fate of every request to come. */
    var faults: seq<Fault>
    /** Every state the server has been in, request by request. */
    ghost var log: seq<Db>

    constructor (backend: Backend, db: Db, faults: seq<Fault>)
      ensures this.backend == backend && State() == db && log == [] && this.faults == faults
    {
      this.backend := backend;
      collections, aliases := db.collections, db.aliases;
      this.faults := faults;
      log := [];
    }

    function State(): Db
      reads this
    {
      Db(collections, aliases)
    }

    /** One changing request. A lost request changes nothing; a lost reply reports
        failure although the change was made. */
    method Change(next: Db) returns (ok: bool)
      modifies this
      ensures State() == if FaultAt(old(faults), 0) == RequestLost then old(State()) else next
      ensures ok == (FaultAt(old(faults), 0) == NoFault)
      ensures faults == Later(old(faults), 1)
      ensures log == old(log) + [State()]
    {
      var fault := FaultAt(faults, 0);
      faults := Later(faults, 1);
      if fault != RequestLost {
        collections, aliases := next.collections, next.aliases;
      }
      log := log + [State()];
      ok := fault == NoFault;
    }

    /** One reading request, which may fail. */
    method Ask() returns (ok: bool)
      modifies this`faults
      ensures ok == (FaultAt(old(faults), 0) == NoFault)
      ensures faults == Later(old(faults), 1)
    {
      ok := FaultAt(faults, 0) == NoFault;
      faults := Later(faults, 1);
    }
  }
}
