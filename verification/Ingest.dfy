/** The full ingest: build a staging collection source by source, verify it, and
    promote it. */
module Ingest {
  import opened Common
  import opened VectorDb
  import opened DocPaths

  // ---------------------------------------------------------------------------
  // The points of a corpus
  // ---------------------------------------------------------------------------

  datatype Doc = Doc(path: string, text: string)

  datatype Fetch = FetchFailed | Fetched(revision: string, docs: seq<Doc>)

  datatype SourceResult = SourceResult(name: string, revision: string, chunks: int)

  /** The foreign parts of the pipeline, as functions of their input. */
  datatype Pipeline = Pipeline(
    fetch: string -> Fetch,
    chunk: string -> seq<string>,
    embed: string -> Vector,
    chunkHash: string -> string)

  /** The text a point id is the UUIDv5 of; UUIDv5 is taken to be injective, so the
      text stands for the id. */
  function PointId(source: string, docPath: string, index: nat): string {
    source + "|" + docPath + "|" + Numeral(index)
  }

  function ChunkEntry(p: Pipeline, source: string, doc: Doc, index: nat): Entry
    requires index < |p.chunk(doc.text)|
  {
    var chunk := p.chunk(doc.text)[index];
    Entry(PointId(source, doc.path, index),
          Point(p.embed(chunk), Payload(source, doc.path, chunk, p.chunkHash(chunk))))
  }

  function DocEntries(p: Pipeline, source: string, doc: Doc): seq<Entry> {
    seq(|p.chunk(doc.text)|, i requires 0 <= i < |p.chunk(doc.text)| => ChunkEntry(p, source, doc, i))
  }

  function SourceEntries(p: Pipeline, source: string, docs: seq<Doc>): seq<Entry> {
    if docs == [] then [] else SourceEntries(p, source, docs[..|docs| - 1]) + DocEntries(p, source, docs[|docs| - 1])
  }

  /** The entries of every source that is not skipped; a source that cannot be
      fetched has none. */
  function CorpusEntries(p: Pipeline, sources: seq<string>, skip: set<string>): seq<Entry> {
    if sources == [] then []
    else
      var last := sources[|sources| - 1];
      CorpusEntries(p, sources[..|sources| - 1], skip) +
      if last in skip || p.fetch(last).FetchFailed? then [] else SourceEntries(p, last, p.fetch(last).docs)
  }

  // ---------------------------------------------------------------------------
  // Point ids are unique
  // ---------------------------------------------------------------------------

  predicate DistinctNames(names: seq<string>) {
    forall i, j :: 0 <= i < j < |names| ==> names[i] != names[j]
  }

  predicate DistinctPaths(docs: seq<Doc>) {
    forall i, j :: 0 <= i < j < |docs| ==> docs[i].path != docs[j].path
  }

  lemma NumeralHasNoBar(n: nat)
    ensures NoBar(Numeral(n))
  {
  }

  lemma NumeralInjective(m: nat, n: nat)
    requires Numeral(m) == Numeral(n)
    ensures m == n
  {
    NumeralRoundTrip(m);
    NumeralRoundTrip(n);
  }

  /** The last bar splits a text in one way only. */
  lemma LastBar(x: string, a: string, y: string, b: string)
    requires NoBar(a) && NoBar(b) && x + "|" + a == y + "|" + b
    ensures a == b && x == y
  {
    var s := x + "|" + a;
    assert s[|x|] == '|' && s[|y|] == '|';
    assert forall i :: |x| < i < |s| ==> s[i] == a[i - |x| - 1];
    assert forall i :: |y| < i < |s| ==> s[i] == b[i - |y| - 1];
    assert |x| == |y|;
    assert s[..|x|] == x && s[..|y|] == y;
    assert s[|x| + 1..] == a && s[|y| + 1..] == b;
  }

  /** One source name is the beginning of the other, up to a bar. */
  predicate Nested(s1: string, s2: string) {
    s1 + "|" <= s2
  }

  /** Names of which none is another one followed by a bar; they may contain bars, and
      so may document paths. */
  predicate Unnested(s1: string, s2: string) {
    !Nested(s1, s2) && !Nested(s2, s1)
  }

  lemma ShorterIsNested(s1: string, d1: string, s2: string, d2: string)
    requires |s1| < |s2| && s1 + "|" + d1 == s2 + "|" + d2
    ensures Nested(s1, s2)
  {
    var t := s1 + "|" + d1;
    assert s1 + "|" == t[..|s1| + 1] && s2 == t[..|s2|];
    assert t[..|s1| + 1] == t[..|s2|][..|s1| + 1];
  }

  /** Ids of sources whose names do not nest determine source, document and index. */
  lemma PointIdInjective(s1: string, d1: string, i1: nat, s2: string, d2: string, i2: nat)
    requires Unnested(s1, s2) && PointId(s1, d1, i1) == PointId(s2, d2, i2)
    ensures s1 == s2 && d1 == d2 && i1 == i2
  {
    NumeralHasNoBar(i1);
    NumeralHasNoBar(i2);
    LastBar(s1 + "|" + d1, Numeral(i1), s2 + "|" + d2, Numeral(i2));
    NumeralInjective(i1, i2);
    var t := s1 + "|" + d1;
    if |s1| < |s2| {
      ShorterIsNested(s1, d1, s2, d2);
    } else if |s2| < |s1| {
      ShorterIsNested(s2, d2, s1, d1);
    } else {
      assert t[..|s1|] == s1 && t[..|s2|] == s2;
      assert t[|s1| + 1..] == d1 && t[|s2| + 1..] == d2;
    }
  }

  /** What follows the bar. */
  function Beyond(s1: string, s2: string): string
    requires Nested(s1, s2)
  {
    s2[|s1| + 1..]
  }

  /** The second source can list a document whose id is also one of the first: its name is
      the first one followed by a bar and the beginning of a path the first may list. */
  predicate Clash(s1: string, o1: Origin, s2: string, o2: Origin) {
    Nested(s1, s2) && Takes(o1, Beyond(s1, s2), o2)
  }

  lemma NestedIds(s1: string, d1: string, s2: string, d2: string)
    requires Nested(s1, s2)
    ensures s1 + "|" + d1 == s2 + "|" + d2 <==> d1 == Beyond(s1, s2) + "|" + d2
  {
    assert s2 == s1 + "|" + Beyond(s1, s2);
    var t := s2 + "|" + d2;
    assert t[|s1| + 1..] == Beyond(s1, s2) + "|" + d2;
    assert (s1 + "|" + d1)[|s1| + 1..] == d1;
    assert t[..|s1| + 1] == s1 + "|";
  }

  lemma SharedIdClashes(s1: string, o1: Origin, d1: string, i1: nat, s2: string, o2: Origin, d2: string, i2: nat)
    requires OriginOk(o1) && OriginOk(o2) && Listed(o1, d1) && Listed(o2, d2)
    requires Nested(s1, s2) && PointId(s1, d1, i1) == PointId(s2, d2, i2)
    ensures Clash(s1, o1, s2, o2)
  {
    NumeralHasNoBar(i1);
    NumeralHasNoBar(i2);
    LastBar(s1 + "|" + d1, Numeral(i1), s2 + "|" + d2, Numeral(i2));
    NestedIds(s1, d1, s2, d2);
    TakesIff(o1, Beyond(s1, s2), o2);
  }

  lemma ClashShares(s1: string, o1: Origin, s2: string, o2: Origin) returns (d1: string, d2: string)
    requires OriginOk(o1) && OriginOk(o2) && Clash(s1, o1, s2, o2)
    ensures Listed(o1, d1) && Listed(o2, d2) && PointId(s1, d1, 0) == PointId(s2, d2, 0)
  {
    TakesIff(o1, Beyond(s1, s2), o2);
    d2 :| Listed(o2, d2) && Listed(o1, Beyond(s1, s2) + "|" + d2);
    d1 := Beyond(s1, s2) + "|" + d2;
    NestedIds(s1, d1, s2, d2);
  }

  /** Two documents of the sources share an id. */
  ghost predicate SomeIdShared(s1: string, o1: Origin, s2: string, o2: Origin) {
    exists d1, i1, d2, i2 :: Listed(o1, d1) && Listed(o2, d2) && PointId(s1, d1, i1) == PointId(s2, d2, i2)
  }

  /** Two different sources can list documents that share an id if and only if they
      clash. */
  lemma PointIdCollidesIff(s1: string, o1: Origin, s2: string, o2: Origin)
    requires s1 != s2 && OriginOk(o1) && OriginOk(o2)
    ensures SomeIdShared(s1, o1, s2, o2) <==> Clash(s1, o1, s2, o2) || Clash(s2, o2, s1, o1)
  {
    if Clash(s1, o1, s2, o2) {
      var d1, d2 := ClashShares(s1, o1, s2, o2);
    } else if Clash(s2, o2, s1, o1) {
      var d2, d1 := ClashShares(s2, o2, s1, o1);
      assert PointId(s1, d1, 0) == PointId(s2, d2, 0);
    } else if SomeIdShared(s1, o1, s2, o2) {
      var d1, i1, d2, i2 :| Listed(o1, d1) && Listed(o2, d2) && PointId(s1, d1, i1) == PointId(s2, d2, i2);
      DistinctNamesSeparate(s1, o1, d1, i1, s2, o2, d2, i2);
    }
  }

  /** Sources that do not clash share no id. */
  lemma DistinctNamesSeparate(s1: string, o1: Origin, d1: string, i1: nat, s2: string, o2: Origin, d2: string, i2: nat)
    requires s1 != s2 && OriginOk(o1) && OriginOk(o2) && Listed(o1, d1) && Listed(o2, d2)
    requires !Clash(s1, o1, s2, o2) && !Clash(s2, o2, s1, o1)
    ensures PointId(s1, d1, i1) != PointId(s2, d2, i2)
  {
    if PointId(s1, d1, i1) == PointId(s2, d2, i2) {
      if Nested(s1, s2) {
        SharedIdClashes(s1, o1, d1, i1, s2, o2, d2, i2);
      } else if Nested(s2, s1) {
        SharedIdClashes(s2, o2, d2, i2, s1, o1, d1, i1);
      } else {
        PointIdInjective(s1, d1, i1, s2, d2, i2);
      }
    }
  }

  /** It happens: objects of two buckets' sources, one of them with a bar in its name. */
  lemma BucketsClash()
    ensures var s1, s2 := "a", "a|s3://docs/x";
            var d1, d2 := "s3://docs/x|s3://docs/y", "s3://docs/y";
            && Listed(S3("docs"), d1) && Listed(S3("docs"), d2) && PointId(s1, d1, 0) == PointId(s2, d2, 0)
  {
    var p := BucketPrefix("docs");
    assert p == "s3://docs/" && |p| == 10;
    assert "s3://docs/x|s3://docs/y"[..10] == p && "s3://docs/y"[..10] == p;
    assert "a" + "|" + "s3://docs/x|s3://docs/y" == "a|s3://docs/x" + "|" + "s3://docs/y";
  }

  // ---------------------------------------------------------------------------
  // One entry per (source, document, chunk index)
  // ---------------------------------------------------------------------------

  lemma DistinctConcat(a: seq<Entry>, b: seq<Entry>)
    requires DistinctIds(a) && DistinctIds(b)
    requires forall x, y :: x in a && y in b ==> x.id != y.id
    ensures DistinctIds(a + b)
  {
    var c := a + b;
    forall i, j | 0 <= i < j < |c| ensures c[i].id != c[j].id {
      if i < |a| <= j {
        assert c[i] in a && c[j] in b;
      }
    }
  }

  lemma DocDistinct(p: Pipeline, source: string, doc: Doc)
    ensures DistinctIds(DocEntries(p, source, doc))
  {
    var es := DocEntries(p, source, doc);
    forall i, j | 0 <= i < j < |es| ensures es[i].id != es[j].id {
      if es[i].id == es[j].id {
        PointIdInjective(source, doc.path, i, source, doc.path, j);
      }
    }
  }

  lemma {:induction false} FromSource(p: Pipeline, source: string, docs: seq<Doc>, e: Entry) returns (d: nat, i: nat)
    requires e in SourceEntries(p, source, docs)
    ensures d < |docs| && i < |p.chunk(docs[d].text)| && e == ChunkEntry(p, source, docs[d], i)
  {
    var n := |docs| - 1;
    if e in SourceEntries(p, source, docs[..n]) {
      d, i := FromSource(p, source, docs[..n], e);
    } else {
      d := n;
      i :| 0 <= i < |p.chunk(docs[n].text)| && DocEntries(p, source, docs[n])[i] == e;
    }
  }

  lemma {:induction false} IntoSource(p: Pipeline, source: string, docs: seq<Doc>, d: nat, i: nat)
    requires d < |docs| && i < |p.chunk(docs[d].text)|
    ensures ChunkEntry(p, source, docs[d], i) in SourceEntries(p, source, docs)
  {
    var n := |docs| - 1;
    if d < n {
      assert docs[..n][d] == docs[d];
      IntoSource(p, source, docs[..n], d, i);
    } else {
      assert DocEntries(p, source, docs[n])[i] == ChunkEntry(p, source, docs[d], i);
    }
  }

  lemma {:induction false} SourceDistinct(p: Pipeline, source: string, docs: seq<Doc>)
    requires DistinctPaths(docs)
    ensures DistinctIds(SourceEntries(p, source, docs))
  {
    if docs != [] {
      var n := |docs| - 1;
      var a, b := SourceEntries(p, source, docs[..n]), DocEntries(p, source, docs[n]);
      SourceDistinct(p, source, docs[..n]);
      DocDistinct(p, source, docs[n]);
      forall x, y | x in a && y in b ensures x.id != y.id {
        var d, i := FromSource(p, source, docs[..n], x);
        var j :| 0 <= j < |b| && b[j] == y;
        assert docs[d].path != docs[n].path;
        if x.id == y.id {
          PointIdInjective(source, docs[d].path, i, source, docs[n].path, j);
        }
      }
      DistinctConcat(a, b);
    }
  }

  /** Chunk `i` of document `d` of source `k` belongs to the corpus. */
  predicate InCorpus(p: Pipeline, sources: seq<string>, skip: set<string>, k: int, d: int, i: int) {
    && 0 <= k < |sources| && sources[k] !in skip && p.fetch(sources[k]).Fetched?
    && 0 <= d < |p.fetch(sources[k]).docs|
    && 0 <= i < |p.chunk(p.fetch(sources[k]).docs[d].text)|
  }

  function CorpusEntry(p: Pipeline, sources: seq<string>, skip: set<string>, k: int, d: int, i: int): Entry
    requires InCorpus(p, sources, skip, k, d, i)
  {
    ChunkEntry(p, sources[k], p.fetch(sources[k]).docs[d], i)
  }

  lemma {:induction false} FromCorpus(p: Pipeline, sources: seq<string>, skip: set<string>, e: Entry)
    returns (k: nat, d: nat, i: nat)
    requires e in CorpusEntries(p, sources, skip)
    ensures InCorpus(p, sources, skip, k, d, i) && e == CorpusEntry(p, sources, skip, k, d, i)
  {
    var n := |sources| - 1;
    if e in CorpusEntries(p, sources[..n], skip) {
      k, d, i := FromCorpus(p, sources[..n], skip, e);
    } else {
      k := n;
      d, i := FromSource(p, sources[n], p.fetch(sources[n]).docs, e);
    }
  }

  lemma {:induction false} IntoCorpus(p: Pipeline, sources: seq<string>, skip: set<string>, k: nat, d: nat, i: nat)
    requires InCorpus(p, sources, skip, k, d, i)
    ensures CorpusEntry(p, sources, skip, k, d, i) in CorpusEntries(p, sources, skip)
  {
    var n := |sources| - 1;
    if k < n {
      assert sources[..n][k] == sources[k];
      IntoCorpus(p, sources[..n], skip, k, d, i);
    } else {
      IntoSource(p, sources[n], p.fetch(sources[n]).docs, d, i);
    }
  }

  /** The source names are different, as validation demands, and no two sources clash,
      which nothing demands; the fetchers list each document once, in their form. */
  ghost predicate CorpusOk(p: Pipeline, sources: seq<string>, origin: string -> Origin) {
    NamesOk(sources, origin) && PathsOk(p, sources, origin)
  }

  predicate NamesOk(names: seq<string>, origin: string -> Origin) {
    && DistinctNames(names)
    && (forall i :: 0 <= i < |names| ==> OriginOk(origin(names[i])))
    && forall i, j :: 0 <= i < |names| && 0 <= j < |names| ==>
         !Clash(names[i], origin(names[i]), names[j], origin(names[j]))
  }

  predicate PathsOk(p: Pipeline, sources: seq<string>, origin: string -> Origin) {
    forall k :: 0 <= k < |sources| && p.fetch(sources[k]).Fetched? ==>
      DocsOk(origin(sources[k]), p.fetch(sources[k]).docs)
  }

  predicate DocsOk(o: Origin, docs: seq<Doc>) {
    DistinctPaths(docs) && forall d :: 0 <= d < |docs| ==> Listed(o, docs[d].path)
  }

  lemma NotNestedInItself(s: string)
    ensures Unnested(s, s)
  {
  }

  /** Documents of one source or of two that do not clash have different ids. */
  lemma IdsOfDocs(p: Pipeline, sources: seq<string>, origin: string -> Origin, k: nat, d: nat, i: nat,
                  k': nat, d': nat, i': nat)
    requires CorpusOk(p, sources, origin) && k < |sources| && k' < |sources|
    requires p.fetch(sources[k]).Fetched? && p.fetch(sources[k']).Fetched?
    requires d < |p.fetch(sources[k]).docs| && d' < |p.fetch(sources[k']).docs|
    ensures var id, id' := PointId(sources[k], p.fetch(sources[k]).docs[d].path, i),
                           PointId(sources[k'], p.fetch(sources[k']).docs[d'].path, i');
            id == id' ==> k == k' && d == d' && i == i'
  {
    var s, s' := sources[k], sources[k'];
    var docs, docs' := p.fetch(s).docs, p.fetch(s').docs;
    assert DocsOk(origin(s), docs) && DocsOk(origin(s'), docs');
    if k == k' {
      NotNestedInItself(s);
      if PointId(s, docs[d].path, i) == PointId(s', docs'[d'].path, i') {
        PointIdInjective(s, docs[d].path, i, s', docs'[d'].path, i');
        SamePath(docs, d, d');
      }
    } else {
      DifferentNames(sources, k, k');
      DistinctNamesSeparate(s, origin(s), docs[d].path, i, s', origin(s'), docs'[d'].path, i');
    }
  }

  lemma SamePath(docs: seq<Doc>, d: nat, d': nat)
    requires DistinctPaths(docs) && d < |docs| && d' < |docs| && docs[d].path == docs[d'].path
    ensures d == d'
  {
  }

  lemma DifferentNames(names: seq<string>, k: nat, k': nat)
    requires DistinctNames(names) && k < |names| && k' < |names| && k != k'
    ensures names[k] != names[k']
  {
    if k < k' {
      assert names[k] != names[k'];
    } else {
      assert names[k'] != names[k];
    }
  }

  lemma {:induction false} CorpusDistinct(p: Pipeline, sources: seq<string>, origin: string -> Origin,
                                          skip: set<string>)
    requires CorpusOk(p, sources, origin)
    ensures DistinctIds(CorpusEntries(p, sources, skip))
  {
    if sources != [] {
      var n := |sources| - 1;
      var init, last := sources[..n], sources[n];
      assert forall k :: 0 <= k < n ==> init[k] == sources[k];
      CorpusDistinct(p, init, origin, skip);
      if last !in skip && p.fetch(last).Fetched? {
        var a, b := CorpusEntries(p, init, skip), SourceEntries(p, last, p.fetch(last).docs);
        SourceDistinct(p, last, p.fetch(last).docs);
        forall x, y | x in a && y in b ensures x.id != y.id {
          var k, d, i := FromCorpus(p, init, skip, x);
          var d', i' := FromSource(p, last, p.fetch(last).docs, y);
          IdsOfDocs(p, sources, origin, k, d, i, n, d', i');
        }
        DistinctConcat(a, b);
      }
    }
  }

  /** How many chunks the documents of a source have, and a corpus. */
  function ChunksOfDocs(p: Pipeline, docs: seq<Doc>): nat {
    if docs == [] then 0 else ChunksOfDocs(p, docs[..|docs| - 1]) + |p.chunk(docs[|docs| - 1].text)|
  }

  function ChunksOfCorpus(p: Pipeline, sources: seq<string>, skip: set<string>): nat {
    if sources == [] then 0
    else
      var last := sources[|sources| - 1];
      ChunksOfCorpus(p, sources[..|sources| - 1], skip)
        + if last in skip || p.fetch(last).FetchFailed? then 0 else ChunksOfDocs(p, p.fetch(last).docs)
  }

  lemma {:induction false} EntriesAreChunks(p: Pipeline, source: string, docs: seq<Doc>)
    ensures |SourceEntries(p, source, docs)| == ChunksOfDocs(p, docs)
  {
    if docs != [] {
      EntriesAreChunks(p, source, docs[..|docs| - 1]);
    }
  }

  lemma {:induction false} CorpusEntriesAreChunks(p: Pipeline, sources: seq<string>, skip: set<string>)
    ensures |CorpusEntries(p, sources, skip)| == ChunksOfCorpus(p, sources, skip)
  {
    if sources != [] {
      var last := sources[|sources| - 1];
      CorpusEntriesAreChunks(p, sources[..|sources| - 1], skip);
      if p.fetch(last).Fetched? {
        EntriesAreChunks(p, last, p.fetch(last).docs);
      }
    }
  }

  /** Chunk `i` of a document is stored under the id `source|path|i`: its embedding, and
      in the payload the source, the path, the chunk itself and the chunk's hash. */
  predicate HoldsChunk(c: Contents, p: Pipeline, source: string, doc: Doc, i: nat)
    requires i < |p.chunk(doc.text)|
  {
    var id, chunk := source + "|" + doc.path + "|" + Numeral(i), p.chunk(doc.text)[i];
    && id in c
    && c[id].vector == p.embed(chunk)
    && c[id].payload.source == source
    && c[id].payload.docPath == doc.path
    && c[id].payload.text == chunk
    && c[id].payload.chunkHash == p.chunkHash(chunk)
  }

  /** One point for every chunk of every document of every source that is not skipped,
      and nothing else. */
  ghost predicate HoldsCorpus(c: Contents, p: Pipeline, sources: seq<string>, skip: set<string>) {
    && |c| == ChunksOfCorpus(p, sources, skip)
    && (forall k, d, i | InCorpus(p, sources, skip, k, d, i) ::
          HoldsChunk(c, p, sources[k], p.fetch(sources[k]).docs[d], i))
    && (forall id | id in c :: exists k, d, i ::
          InCorpus(p, sources, skip, k, d, i)
          && id == sources[k] + "|" + p.fetch(sources[k]).docs[d].path + "|" + Numeral(i))
  }

  /** Whatever the corpus, and however ids collide in it, every point stored is a chunk
      under its own id, with the embedding, the text and the hash of that chunk. */
  lemma PointsAreChunks(backend: Backend, p: Pipeline, sources: seq<string>, skip: set<string>, id: string)
    returns (k: nat, d: nat, i: nat)
    requires id in UpsertAll(backend, map[], CorpusEntries(p, sources, skip))
    ensures InCorpus(p, sources, skip, k, d, i)
    ensures var doc := p.fetch(sources[k]).docs[d];
            var chunk := p.chunk(doc.text)[i];
            var point := UpsertAll(backend, map[], CorpusEntries(p, sources, skip))[id];
            && id == sources[k] + "|" + doc.path + "|" + Numeral(i)
            && point.vector == p.embed(chunk)
            && point.payload.text == chunk && point.payload.chunkHash == p.chunkHash(chunk)
            && (backend == Qdrant ==> point.payload.source == sources[k] && point.payload.docPath == doc.path)
  {
    var es := CorpusEntries(p, sources, skip);
    var first, last := LastWins(backend, es, id);
    k, d, i := FromCorpus(p, sources, skip, es[last]);
  }

  /** The collection a full ingest builds holds exactly one point per source,
      document and chunk index, and nothing else. */
  lemma CorpusIsExact(backend: Backend, p: Pipeline, sources: seq<string>, origin: string -> Origin, skip: set<string>)
    requires CorpusOk(p, sources, origin)
    ensures HoldsCorpus(UpsertAll(backend, map[], CorpusEntries(p, sources, skip)), p, sources, skip)
    ensures forall k, d, i, k', d', i' | InCorpus(p, sources, skip, k, d, i)
              && InCorpus(p, sources, skip, k', d', i') ::
                PointId(sources[k], p.fetch(sources[k]).docs[d].path, i)
                == PointId(sources[k'], p.fetch(sources[k']).docs[d'].path, i')
                ==> k == k' && d == d' && i == i'
  {
    var es := CorpusEntries(p, sources, skip);
    var c := UpsertAll(backend, map[], es);
    CorpusDistinct(p, sources, origin, skip);
    UpsertIsExact(backend, es);
    CorpusEntriesAreChunks(p, sources, skip);
    forall k, d, i | InCorpus(p, sources, skip, k, d, i)
      ensures HoldsChunk(c, p, sources[k], p.fetch(sources[k]).docs[d], i)
    {
      IntoCorpus(p, sources, skip, k, d, i);
    }
    forall id | id in c
      ensures exists k, d, i ::
                InCorpus(p, sources, skip, k, d, i)
                && id == sources[k] + "|" + p.fetch(sources[k]).docs[d].path + "|" + Numeral(i)
    {
      var j :| 0 <= j < |es| && es[j].id == id;
      var k, d, i := FromCorpus(p, sources, skip, es[j]);
    }
    forall k, d, i, k', d', i' | InCorpus(p, sources, skip, k, d, i) && InCorpus(p, sources, skip, k', d', i')
                                && PointId(sources[k], p.fetch(sources[k]).docs[d].path, i)
                                     == PointId(sources[k'], p.fetch(sources[k']).docs[d'].path, i')
      ensures k == k' && d == d' && i == i'
    {
      IdsOfDocs(p, sources, origin, k, d, i, k', d', i');
    }
  }

  /** A corpus of two documents, one of each source, that are not fetched for any other. */
  function Pair(s1: string, d1: string, s2: string, d2: string): Pipeline {
    Pipeline(
      name => Fetched("", if name == s1 then [Doc(d1, "")] else if name == s2 then [Doc(d2, "")] else []),
      text => ["chunk"],
      chunk => [],
      chunk => "")
  }

  lemma SharedId(es: seq<Entry>, x: Entry, y: Entry)
    requires x in es && y in es && x != y && x.id == y.id
    ensures !DistinctIds(es)
  {
    var a :| 0 <= a < |es| && es[a] == x;
    var b :| 0 <= b < |es| && es[b] == y;
    assert a != b && es[a].id == es[b].id;
  }

  lemma PairEntry(sources: seq<string>, k: nat, p: Pipeline, d: string) returns (e: Entry)
    requires k < |sources| && p.fetch(sources[k]) == Fetched("", [Doc(d, "")]) && |p.chunk("")| == 1
    ensures e in CorpusEntries(p, sources, {})
    ensures e.id == PointId(sources[k], d, 0) && e.point.payload.source == sources[k]
  {
    assert InCorpus(p, sources, {}, k, 0, 0);
    IntoCorpus(p, sources, {}, k, 0, 0);
    e := CorpusEntry(p, sources, {}, k, 0, 0);
  }

  lemma PairListed(sources: seq<string>, origin: string -> Origin, s1: string, d1: string, s2: string, d2: string)
    requires Listed(origin(s1), d1) && Listed(origin(s2), d2)
    ensures PathsOk(Pair(s1, d1, s2, d2), sources, origin)
  {
    var p := Pair(s1, d1, s2, d2);
    forall k | 0 <= k < |sources| ensures DocsOk(origin(sources[k]), p.fetch(sources[k]).docs) {
    }
  }

  lemma PairCollides(sources: seq<string>, origin: string -> Origin, i: nat, j: nat, d1: string, d2: string)
    requires i < |sources| && j < |sources| && sources[i] != sources[j]
    requires Listed(origin(sources[i]), d1) && Listed(origin(sources[j]), d2)
    requires PointId(sources[i], d1, 0) == PointId(sources[j], d2, 0)
    ensures var p := Pair(sources[i], d1, sources[j], d2);
            PathsOk(p, sources, origin) && !DistinctIds(CorpusEntries(p, sources, {}))
  {
    var p := Pair(sources[i], d1, sources[j], d2);
    PairListed(sources, origin, sources[i], d1, sources[j], d2);
    var x := PairEntry(sources, i, p, d1);
    var y := PairEntry(sources, j, p, d2);
    SharedId(CorpusEntries(p, sources, {}), x, y);
  }

  /** Different sources give every corpus their fetchers can list distinct ids if and only
      if no two of them clash. */
  lemma IdsDistinctIff(sources: seq<string>, origin: string -> Origin)
    requires DistinctNames(sources) && forall i :: 0 <= i < |sources| ==> OriginOk(origin(sources[i]))
    ensures NamesOk(sources, origin) <==>
            forall p: Pipeline | PathsOk(p, sources, origin) :: DistinctIds(CorpusEntries(p, sources, {}))
  {
    if NamesOk(sources, origin) {
      forall p: Pipeline | PathsOk(p, sources, origin) ensures DistinctIds(CorpusEntries(p, sources, {})) {
        CorpusDistinct(p, sources, origin, {});
      }
    } else {
      var i, j :| 0 <= i < |sources| && 0 <= j < |sources|
                  && Clash(sources[i], origin(sources[i]), sources[j], origin(sources[j]));
      var d1, d2 := ClashShares(sources[i], origin(sources[i]), sources[j], origin(sources[j]));
      PairCollides(sources, origin, i, j, d1, d2);
    }
  }
}
