/** The greedy merger of `recursive` chunking. A piece is seen as its words here, and a
    chunk as the words it joins. */
module Merging {
  import opened Words
  import opened WindowChunking

  type Piece = seq<string>

  /** Python's `s[start:]`: a negative index counts from the end. */
  function SliceFrom(s: seq<string>, start: int): seq<string> {
    if start >= 0 then (if start <= |s| then s[start..] else [])
    else if |s| + start >= 0 then s[|s| + start..]
    else s
  }

  /** The words carried into the next chunk: always a suffix, and the last `overlap`
      words when there are that many. A shorter chunk has a negative start index, so it
      carries what exceeds it, or itself when the overlap is over twice as long. */
  function Carry(cur: seq<string>, overlap: nat): (tail: seq<string>)
    ensures |tail| <= |cur| && tail == cur[|cur| - |tail|..]
    ensures |tail| == if overlap <= |cur| then overlap else Min(|cur|, overlap - |cur|)
  {
    if overlap == 0 then [] else SliceFrom(cur, |cur| - overlap)
  }

  /** The closed chunks and the words collected for the next one. */
  datatype Progress = Progress(done: seq<seq<string>>, cur: seq<string>)

  function Added(p: Progress, piece: Piece, max: nat, overlap: nat): Progress {
    if p.cur != [] && |p.cur| + |piece| > max then
      Progress(p.done + [p.cur], Carry(p.cur, overlap) + piece)
    else p.(cur := p.cur + piece)
  }

  function After(pieces: seq<Piece>, n: nat, max: nat, overlap: nat): Progress
    requires n <= |pieces|
  {
    if n == 0 then Progress([], []) else Added(After(pieces, n - 1, max, overlap), pieces[n - 1], max, overlap)
  }

  function Closed(p: Progress): seq<seq<string>> {
    if p.cur == [] then p.done else p.done + [p.cur]
  }

  function Merge(pieces: seq<Piece>, max: nat, overlap: nat): seq<seq<string>> {
    Closed(After(pieces, |pieces|, max, overlap))
  }

  function Joined(chunks: seq<seq<string>>): (texts: seq<string>)
    ensures |texts| == |chunks| && forall k :: 0 <= k < |chunks| ==> texts[k] == Join(chunks[k])
  {
    seq(|chunks|, k requires 0 <= k < |chunks| => Join(chunks[k]))
  }

  function WordsOf(pieces: seq<string>): (words: seq<Piece>)
    ensures |words| == |pieces| && forall k :: 0 <= k < |pieces| ==> words[k] == Split(pieces[k])
  {
    seq(|pieces|, k requires 0 <= k < |pieces| => Split(pieces[k]))
  }

  lemma JoinedSnoc(done: seq<seq<string>>, cur: seq<string>)
    ensures Joined(done + [cur]) == Joined(done) + [Join(cur)]
  {
  }

  lemma AddedCases(p: Progress, piece: Piece, max: nat, overlap: nat)
    ensures var q := Added(p, piece, max, overlap);
            if p.cur != [] && |p.cur| + |piece| > max then
              Joined(q.done) == Joined(p.done) + [Join(p.cur)] && q.cur == Carry(p.cur, overlap) + piece
            else q.done == p.done && q.cur == p.cur + piece
  {
    JoinedSnoc(p.done, p.cur);
  }

  /** One turn of the loop: a full chunk is closed, and the piece goes into the next. */
  method TakePiece(chunks: seq<string>, cur: seq<string>, piece: Piece, max: nat, overlap: nat, ghost p: Progress)
    returns (chunks': seq<string>, cur': seq<string>)
    requires chunks == Joined(p.done) && cur == p.cur
    ensures var q := Added(p, piece, max, overlap); chunks' == Joined(q.done) && cur' == q.cur
  {
    AddedCases(p, piece, max, overlap);
    chunks', cur' := chunks, cur;
    if cur' != [] && |cur'| + |piece| > max {
      chunks' := chunks' + [Join(cur')];
      cur' := Carry(cur', overlap);
    }
    cur' := cur' + piece;
  }

  lemma AfterNext(pieces: seq<Piece>, n: nat, max: nat, overlap: nat)
    requires n < |pieces|
    ensures After(pieces, n + 1, max, overlap) == Added(After(pieces, n, max, overlap), pieces[n], max, overlap)
  {
  }

  method MergePieces(pieces: seq<string>, max: nat, overlap: nat) returns (chunks: seq<string>)
    ensures chunks == Joined(Merge(WordsOf(pieces), max, overlap))
  {
    ghost var words := WordsOf(pieces);
    ghost var p := Progress([], []);
    var cur: seq<string> := [];
    chunks := [];
    for k := 0 to |pieces|
      invariant p == After(words, k, max, overlap)
      invariant chunks == Joined(p.done) && cur == p.cur
    {
      chunks, cur := TakePiece(chunks, cur, Split(pieces[k]), max, overlap, p);
      AfterNext(words, k, max, overlap);
      p := Added(p, words[k], max, overlap);
    }
    ClosedJoined(p);
    if cur != [] {
      chunks := chunks + [Join(cur)];
    }
  }

  lemma ClosedJoined(p: Progress)
    ensures Joined(Closed(p)) == if p.cur == [] then Joined(p.done) else Joined(p.done) + [Join(p.cur)]
  {
    JoinedSnoc(p.done, p.cur);
  }

  // ---------------------------------------------------------------------------
  // What a greedy merge is
  // ---------------------------------------------------------------------------

  /** The words of the pieces from `a` up to `b`. */
  function WordsBetween(pieces: seq<Piece>, a: nat, b: nat): seq<string>
    requires a <= b <= |pieces|
  {
    if a == b then [] else WordsBetween(pieces, a, b - 1) + pieces[b - 1]
  }

  /** Chunk `k` takes the pieces from `starts[k]` up to here. */
  function End(starts: seq<nat>, n: nat, k: nat): nat {
    if k + 1 < |starts| then starts[k + 1] else n
  }

  /** What chunk `k` carries over from the chunk before it. */
  function Carried(chunks: seq<seq<string>>, k: nat, overlap: nat): seq<string>
    requires k < |chunks|
  {
    if k == 0 then [] else Carry(chunks[k - 1], overlap)
  }

  /** A chunk is the words it carries and then whole pieces, at least one; it is no
      longer than `max` unless it has a single piece; and it was closed only because the
      next piece would not have fitted. */
  predicate ChunkIsGreedy(pieces: seq<Piece>, n: nat, chunks: seq<seq<string>>, starts: seq<nat>, max: nat,
                          overlap: nat, k: nat)
    requires n <= |pieces| && |starts| == |chunks| && k < |chunks|
  {
    var a, b := starts[k], End(starts, n, k);
    && a < b <= n
    && chunks[k] == Carried(chunks, k, overlap) + WordsBetween(pieces, a, b)
    && (|chunks[k]| <= max || b == a + 1)
    && (k + 1 < |chunks| ==> b < n && |chunks[k]| + |pieces[b]| > max)
  }

  /** The chunks, and the piece each of them starts at. */
  predicate Greedy(pieces: seq<Piece>, n: nat, chunks: seq<seq<string>>, starts: seq<nat>, max: nat, overlap: nat) {
    && n <= |pieces| && |starts| == |chunks|
    && (chunks == [] <==> n == 0)
    && (chunks != [] ==> starts[0] == 0)
    && forall k :: 0 <= k < |chunks| ==> ChunkIsGreedy(pieces, n, chunks, starts, max, overlap, k)
  }

  predicate NoneEmpty(pieces: seq<Piece>) {
    forall k :: 0 <= k < |pieces| ==> pieces[k] != []
  }

  /** The last chunk takes one more piece. */
  lemma GreedyExtends(pieces: seq<Piece>, n: nat, done: seq<seq<string>>, cur: seq<string>, starts: seq<nat>,
                      max: nat, overlap: nat)
    requires n < |pieces| && Greedy(pieces, n, done + [cur], starts, max, overlap)
    requires |cur| + |pieces[n]| <= max
    ensures Greedy(pieces, n + 1, done + [cur + pieces[n]], starts, max, overlap)
  {
    var was, now := done + [cur], done + [cur + pieces[n]];
    var m := n + 1;
    forall k | 0 <= k < |now| ensures ChunkIsGreedy(pieces, m, now, starts, max, overlap, k) {
      assert ChunkIsGreedy(pieces, n, was, starts, max, overlap, k);
      assert Carried(now, k, overlap) == Carried(was, k, overlap);
      if k == |done| {
        var a := starts[k];
        assert WordsBetween(pieces, a, n + 1) == WordsBetween(pieces, a, n) + pieces[n];
        assert now[k] == Carried(now, k, overlap) + WordsBetween(pieces, a, n + 1);
      } else {
        assert now[k] == was[k];
      }
    }
  }

  /** A new chunk starts with the next piece. */
  lemma GreedyCloses(pieces: seq<Piece>, n: nat, chunks: seq<seq<string>>, starts: seq<nat>, max: nat, overlap: nat)
    requires 0 < n < |pieces| && Greedy(pieces, n, chunks, starts, max, overlap)
    requires |chunks[|chunks| - 1]| + |pieces[n]| > max
    ensures var next := Carry(chunks[|chunks| - 1], overlap) + pieces[n];
            Greedy(pieces, n + 1, chunks + [next], starts + [n], max, overlap)
  {
    var next := Carry(chunks[|chunks| - 1], overlap) + pieces[n];
    var now := chunks + [next];
    var m, starts' := n + 1, starts + [n];
    forall k | 0 <= k < |now| ensures ChunkIsGreedy(pieces, m, now, starts', max, overlap, k) {
      if k < |chunks| {
        assert ChunkIsGreedy(pieces, n, chunks, starts, max, overlap, k);
        assert now[k] == chunks[k] && starts'[k] == starts[k];
        assert k > 0 ==> now[k - 1] == chunks[k - 1];
        ClosedChunkStays(pieces, n, chunks, now, starts, starts', max, overlap, k);
      } else {
        assert WordsBetween(pieces, n, n) == [];
        assert WordsBetween(pieces, n, n + 1) == pieces[n];
        assert Carried(now, k, overlap) == Carry(chunks[k - 1], overlap);
      }
    }
  }

  lemma ClosedChunkStays(pieces: seq<Piece>, n: nat, chunks: seq<seq<string>>, now: seq<seq<string>>,
                         starts: seq<nat>, starts': seq<nat>, max: nat, overlap: nat, k: nat)
    requires n < |pieces| && |starts| == |chunks| && |starts'| == |now| == |chunks| + 1 && k < |chunks|
    requires ChunkIsGreedy(pieces, n, chunks, starts, max, overlap, k)
    requires now[k] == chunks[k] && (k > 0 ==> now[k - 1] == chunks[k - 1])
    requires starts'[k] == starts[k] && starts'[k + 1] == End(starts, n, k)
    requires k + 1 == |chunks| ==> |chunks[k]| + |pieces[n]| > max
    ensures ChunkIsGreedy(pieces, n + 1, now, starts', max, overlap, k)
  {
  }

  lemma AfterStep(pieces: seq<Piece>, n: nat, max: nat, overlap: nat)
    requires 0 < n < |pieces| && After(pieces, n, max, overlap).cur != []
    ensures var was := After(pieces, n, max, overlap);
            && After(pieces, n + 1, max, overlap) == Added(was, pieces[n], max, overlap)
            && Closed(was) == was.done + [was.cur]
  {
  }

  lemma {:induction false} AfterIsGreedy(pieces: seq<Piece>, n: nat, max: nat, overlap: nat) returns (starts: seq<nat>)
    requires NoneEmpty(pieces) && 0 < n <= |pieces|
    ensures After(pieces, n, max, overlap).cur != []
    ensures Greedy(pieces, n, Closed(After(pieces, n, max, overlap)), starts, max, overlap)
  {
    if n == 1 {
      starts := [0];
      GreedyStarts(pieces, max, overlap);
    } else {
      var m := n - 1;
      var before := AfterIsGreedy(pieces, m, max, overlap);
      AfterStep(pieces, m, max, overlap);
      starts := AddedIsGreedy(pieces, m, After(pieces, m, max, overlap), before, max, overlap);
    }
  }

  lemma AddedIsGreedy(pieces: seq<Piece>, n: nat, p: Progress, before: seq<nat>, max: nat, overlap: nat)
    returns (starts: seq<nat>)
    requires NoneEmpty(pieces) && 0 < n < |pieces| && p.cur != []
    requires Greedy(pieces, n, p.done + [p.cur], before, max, overlap)
    ensures Added(p, pieces[n], max, overlap).cur != []
    ensures Greedy(pieces, n + 1, Closed(Added(p, pieces[n], max, overlap)), starts, max, overlap)
  {
    if |p.cur| + |pieces[n]| > max {
      starts := before + [n];
      var chunks := p.done + [p.cur];
      assert chunks[|chunks| - 1] == p.cur;
      GreedyCloses(pieces, n, chunks, before, max, overlap);
    } else {
      starts := before;
      GreedyExtends(pieces, n, p.done, p.cur, before, max, overlap);
    }
  }

  lemma GreedyStarts(pieces: seq<Piece>, max: nat, overlap: nat)
    requires NoneEmpty(pieces) && pieces != []
    ensures Greedy(pieces, 1, [pieces[0]], [0], max, overlap)
    ensures After(pieces, 1, max, overlap) == Progress([], pieces[0])
    ensures Closed(After(pieces, 1, max, overlap)) == [pieces[0]]
  {
    var none: seq<string> := [];
    var noChunks: seq<seq<string>> := [];
    assert none + pieces[0] == pieces[0];
    assert noChunks + [pieces[0]] == [pieces[0]];
    assert After(pieces, 0, max, overlap) == Progress([], []);
    assert WordsBetween(pieces, 0, 0) == [];
    assert WordsBetween(pieces, 0, 1) == none + pieces[0];
    assert ChunkIsGreedy(pieces, 1, [pieces[0]], [0], max, overlap, 0);
  }

  /** The merge of non-empty pieces is greedy. */
  lemma MergeIsGreedy(pieces: seq<Piece>, max: nat, overlap: nat) returns (starts: seq<nat>)
    requires NoneEmpty(pieces)
    ensures Greedy(pieces, |pieces|, Merge(pieces, max, overlap), starts, max, overlap)
  {
    if pieces == [] {
      starts := [];
    } else {
      starts := AfterIsGreedy(pieces, |pieces|, max, overlap);
    }
  }

  lemma {:induction false} WordsGrow(pieces: seq<Piece>, a: nat, b: nat, c: nat)
    requires a <= b < c <= |pieces|
    ensures |WordsBetween(pieces, a, c)| >= |WordsBetween(pieces, a, b)| + |pieces[b]|
    decreases c
  {
    if b < c - 1 {
      WordsGrow(pieces, a, b, c - 1);
    }
  }

  /** Two greedy chunkings that agree before chunk `k` end it at the same piece. */
  lemma SameEnd(pieces: seq<Piece>, n: nat, one: seq<seq<string>>, starts: seq<nat>, other: seq<seq<string>>,
                starts': seq<nat>, max: nat, overlap: nat, k: nat)
    requires Greedy(pieces, n, one, starts, max, overlap) && Greedy(pieces, n, other, starts', max, overlap)
    requires k < |one| && k < |other| && starts[k] == starts'[k]
    requires Carried(one, k, overlap) == Carried(other, k, overlap)
    ensures End(starts, n, k) >= End(starts', n, k)
  {
    assert ChunkIsGreedy(pieces, n, one, starts, max, overlap, k);
    assert ChunkIsGreedy(pieces, n, other, starts', max, overlap, k);
    if End(starts, n, k) < End(starts', n, k) {
      WordsGrow(pieces, starts[k], End(starts, n, k), End(starts', n, k));
      assert false;
    }
  }

  lemma SameChunk(pieces: seq<Piece>, n: nat, one: seq<seq<string>>, starts: seq<nat>, other: seq<seq<string>>,
                  starts': seq<nat>, max: nat, overlap: nat, k: nat)
    requires Greedy(pieces, n, one, starts, max, overlap) && Greedy(pieces, n, other, starts', max, overlap)
    requires k < |one| && k < |other| && starts[k] == starts'[k]
    requires Carried(one, k, overlap) == Carried(other, k, overlap)
    ensures one[k] == other[k] && End(starts, n, k) == End(starts', n, k)
  {
    SameEnd(pieces, n, one, starts, other, starts', max, overlap, k);
    SameEnd(pieces, n, other, starts', one, starts, max, overlap, k);
    assert ChunkIsGreedy(pieces, n, one, starts, max, overlap, k);
    assert ChunkIsGreedy(pieces, n, other, starts', max, overlap, k);
  }

  lemma NotLast(pieces: seq<Piece>, n: nat, chunks: seq<seq<string>>, starts: seq<nat>, max: nat, overlap: nat, k: nat)
    requires Greedy(pieces, n, chunks, starts, max, overlap) && k < |chunks|
    ensures k + 1 < |chunks| <==> End(starts, n, k) < n
  {
    assert ChunkIsGreedy(pieces, n, chunks, starts, max, overlap, k);
  }

  lemma {:induction false} SamePrefix(pieces: seq<Piece>, n: nat, one: seq<seq<string>>, starts: seq<nat>,
                                      other: seq<seq<string>>, starts': seq<nat>, max: nat, overlap: nat, k: nat)
    requires Greedy(pieces, n, one, starts, max, overlap) && Greedy(pieces, n, other, starts', max, overlap)
    requires k < |one|
    ensures k < |other| && starts[k] == starts'[k] && one[k] == other[k]
    ensures End(starts, n, k) == End(starts', n, k)
    decreases k
  {
    if k > 0 {
      SamePrefix(pieces, n, one, starts, other, starts', max, overlap, k - 1);
      PrefixGoesOn(pieces, n, one, starts, other, starts', max, overlap, k);
    }
    SameChunk(pieces, n, one, starts, other, starts', max, overlap, k);
  }

  lemma PrefixGoesOn(pieces: seq<Piece>, n: nat, one: seq<seq<string>>, starts: seq<nat>, other: seq<seq<string>>,
                     starts': seq<nat>, max: nat, overlap: nat, k: nat)
    requires Greedy(pieces, n, one, starts, max, overlap) && Greedy(pieces, n, other, starts', max, overlap)
    requires 0 < k < |one| && k - 1 < |other|
    requires End(starts, n, k - 1) == End(starts', n, k - 1)
    ensures k < |other| && starts[k] == starts'[k]
  {
    NotLast(pieces, n, one, starts, max, overlap, k - 1);
    NotLast(pieces, n, other, starts', max, overlap, k - 1);
  }

  /** There is only one greedy chunking of the pieces: the merge. */
  lemma GreedyIsMerge(pieces: seq<Piece>, chunks: seq<seq<string>>, starts: seq<nat>, max: nat, overlap: nat)
    requires NoneEmpty(pieces) && Greedy(pieces, |pieces|, chunks, starts, max, overlap)
    ensures chunks == Merge(pieces, max, overlap)
  {
    var merged := Merge(pieces, max, overlap);
    var starts' := MergeIsGreedy(pieces, max, overlap);
    if chunks != [] {
      SamePrefix(pieces, |pieces|, chunks, starts, merged, starts', max, overlap, |chunks| - 1);
      SamePrefix(pieces, |pieces|, merged, starts', chunks, starts, max, overlap, |merged| - 1);
    }
    assert |merged| == |chunks|;
    forall k | 0 <= k < |chunks| ensures chunks[k] == merged[k] {
      SamePrefix(pieces, |pieces|, chunks, starts, merged, starts', max, overlap, k);
    }
    assert chunks == merged;
  }

  // ---------------------------------------------------------------------------
  // Consequences
  // ---------------------------------------------------------------------------

  /** A chunk is longer than `max` exactly when the words it carries and its first piece
      already are; and no chunk has no fresh word. */
  lemma ChunkOverflowsIff(pieces: seq<Piece>, chunks: seq<seq<string>>, starts: seq<nat>, max: nat, overlap: nat,
                          k: nat)
    requires NoneEmpty(pieces) && Greedy(pieces, |pieces|, chunks, starts, max, overlap) && k < |chunks|
    ensures starts[k] < End(starts, |pieces|, k) <= |pieces|
    ensures |chunks[k]| > max <==> |Carried(chunks, k, overlap)| + |pieces[starts[k]]| > max
    ensures |chunks[k]| > |Carried(chunks, k, overlap)|
  {
    var a, b := starts[k], End(starts, |pieces|, k);
    ChunkLength(pieces, chunks, starts, max, overlap, k);
    WordsGrow(pieces, a, a, b);
    if b == a + 1 {
      OnePiece(pieces, a);
    }
  }

  lemma ChunkLength(pieces: seq<Piece>, chunks: seq<seq<string>>, starts: seq<nat>, max: nat, overlap: nat, k: nat)
    requires NoneEmpty(pieces) && Greedy(pieces, |pieces|, chunks, starts, max, overlap) && k < |chunks|
    ensures var a, b := starts[k], End(starts, |pieces|, k);
            && a < b <= |pieces| && |pieces[a]| > 0
            && |chunks[k]| == |Carried(chunks, k, overlap)| + |WordsBetween(pieces, a, b)|
            && (|chunks[k]| <= max || b == a + 1)
  {
    assert ChunkIsGreedy(pieces, |pieces|, chunks, starts, max, overlap, k);
  }

  lemma OnePiece(pieces: seq<Piece>, a: nat)
    requires a < |pieces|
    ensures WordsBetween(pieces, a, a + 1) == pieces[a]
  {
    assert WordsBetween(pieces, a, a) == [];
  }

  /** No chunk of pieces of at most `max` words has more than `max + overlap` words. */
  lemma ChunksAreBounded(pieces: seq<Piece>, max: nat, overlap: nat)
    requires NoneEmpty(pieces) && forall k :: 0 <= k < |pieces| ==> |pieces[k]| <= max
    ensures forall chunk :: chunk in Merge(pieces, max, overlap) ==> 1 <= |chunk| <= max + overlap
  {
    var chunks := Merge(pieces, max, overlap);
    var starts := MergeIsGreedy(pieces, max, overlap);
    forall k | 0 <= k < |chunks| ensures 1 <= |chunks[k]| <= max + overlap {
      ChunkOverflowsIff(pieces, chunks, starts, max, overlap, k);
      var a, b := starts[k], End(starts, |pieces|, k);
      assert ChunkIsGreedy(pieces, |pieces|, chunks, starts, max, overlap, k);
      if b == a + 1 {
        OnePiece(pieces, a);
      }
    }
  }

  /** The fresh words of the first `m` chunks, one chunk after the other. */
  function FreshWords(pieces: seq<Piece>, chunks: seq<seq<string>>, starts: seq<nat>, max: nat, overlap: nat,
                      m: nat): seq<string>
    requires Greedy(pieces, |pieces|, chunks, starts, max, overlap) && m <= |chunks|
  {
    if m == 0 then []
    else
      assert ChunkIsGreedy(pieces, |pieces|, chunks, starts, max, overlap, m - 1);
      FreshWords(pieces, chunks, starts, max, overlap, m - 1)
        + chunks[m - 1][|Carried(chunks, m - 1, overlap)|..]
  }

  lemma {:induction false} WordsConcat(pieces: seq<Piece>, a: nat, b: nat)
    requires a <= b <= |pieces|
    ensures WordsBetween(pieces, 0, a) + WordsBetween(pieces, a, b) == WordsBetween(pieces, 0, b)
    decreases b
  {
    if a < b {
      WordsConcat(pieces, a, b - 1);
    }
  }

  lemma {:induction false} FreshSoFar(pieces: seq<Piece>, chunks: seq<seq<string>>, starts: seq<nat>, max: nat,
                                      overlap: nat, m: nat)
    requires Greedy(pieces, |pieces|, chunks, starts, max, overlap) && 0 < m <= |chunks|
    ensures End(starts, |pieces|, m - 1) <= |pieces|
    ensures FreshWords(pieces, chunks, starts, max, overlap, m) == WordsBetween(pieces, 0, End(starts, |pieces|, m - 1))
    decreases m
  {
    var k := m - 1;
    var a, b := starts[k], End(starts, |pieces|, k);
    assert ChunkIsGreedy(pieces, |pieces|, chunks, starts, max, overlap, k);
    assert chunks[k][|Carried(chunks, k, overlap)|..] == WordsBetween(pieces, a, b);
    if k > 0 {
      FreshSoFar(pieces, chunks, starts, max, overlap, k);
    }
    assert FreshWords(pieces, chunks, starts, max, overlap, k) == WordsBetween(pieces, 0, a);
    WordsConcat(pieces, a, b);
  }

  /** The fresh words of all chunks are the words of all pieces, in order. */
  lemma FreshIsEverything(pieces: seq<Piece>, chunks: seq<seq<string>>, starts: seq<nat>, max: nat, overlap: nat)
    requires Greedy(pieces, |pieces|, chunks, starts, max, overlap)
    ensures FreshWords(pieces, chunks, starts, max, overlap, |chunks|) == WordsBetween(pieces, 0, |pieces|)
  {
    if chunks != [] {
      FreshSoFar(pieces, chunks, starts, max, overlap, |chunks|);
    }
  }

  /** The bound of `max + overlap` is more than `max` in earnest: with room for 5 words
      and an overlap of 3, two pieces of 4 words make a second chunk of 7. */
  lemma OverlapOverflows()
    ensures var a, b := ["a", "b", "c", "d"], ["e", "f", "g", "h"];
            Merge([a, b], 5, 3) == [a, ["b", "c", "d", "e", "f", "g", "h"]]
  {
    var none: seq<string> := [];
    var a, b := ["a", "b", "c", "d"], ["e", "f", "g", "h"];
    var pieces := [a, b];
    assert none + a == a;
    assert After(pieces, 0, 5, 3) == Progress([], []);
    assert After(pieces, 1, 5, 3) == Progress([], a);
    assert Carry(a, 3) + b == ["b", "c", "d", "e", "f", "g", "h"];
    assert After(pieces, 2, 5, 3) == Progress([a], Carry(a, 3) + b);
  }
}
