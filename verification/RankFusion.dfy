/** Reciprocal rank fusion of a vector search and a text search. Scores are real
    numbers. */
module RankFusion {
  import opened Common

  /** A hit's payload; `extra` stands for the fields that fusion does not look at. */
  datatype Payload = Payload(source: Option<string>, docPath: Option<string>, text: Option<string>, extra: string)

  datatype Key = Key(source: string, docPath: string, text: string)

  function OrEmpty(s: Option<string>): string {
    match s case Some(value) => value case None => ""
  }

  function KeyOf(p: Payload): Key {
    Key(OrEmpty(p.source), OrEmpty(p.docPath), OrEmpty(p.text))
  }

  datatype Fused = Fused(score: real, payload: Payload)

  /** The dictionaries of the scores and payloads, with their keys in the order of
      insertion. */
  datatype Tally = Tally(order: seq<Key>, scores: map<Key, real>, payloads: map<Key, Payload>)

  const EMPTY: Tally := Tally([], map[], map[])

  function Added(t: Tally, h: Payload, share: real): Tally {
    var key := KeyOf(h);
    Tally(
      if key in t.scores then t.order else t.order + [key],
      t.scores[key := (if key in t.scores then t.scores[key] else 0.0) + share],
      t.payloads[key := h])
  }

  /** What a hit at a rank is worth. */
  function Share(weight: real, k: nat, rank: nat): real {
    weight / (k + rank + 1) as real
  }

  /** The tally after the first `n` hits. */
  function Counted(t: Tally, hits: seq<Payload>, n: nat, weight: real, k: nat): Tally
    requires n <= |hits|
  {
    if n == 0 then t else Added(Counted(t, hits, n - 1, weight, k), hits[n - 1], Share(weight, k, n - 1))
  }

  /** The stable sort by descending score. */
  function Inserted(ranked: seq<Fused>, x: Fused): (all: seq<Fused>)
    ensures multiset(all) == multiset(ranked) + multiset{x}
  {
    if ranked == [] then [x]
    else
      var front, last := ranked[..|ranked| - 1], ranked[|ranked| - 1];
      assert ranked == front + [last];
      if last.score >= x.score then ranked + [x] else Inserted(front, x) + [last]
  }

  function Ranked(fused: seq<Fused>): (all: seq<Fused>)
    ensures multiset(all) == multiset(fused)
  {
    if fused == [] then []
    else
      assert fused == fused[..|fused| - 1] + [fused[|fused| - 1]];
      Inserted(Ranked(fused[..|fused| - 1]), fused[|fused| - 1])
  }

  // ---------------------------------------------------------------------------
  // What a fusion is
  // ---------------------------------------------------------------------------

  predicate Occurs(hits: seq<Payload>, key: Key) {
    exists i :: 0 <= i < |hits| && KeyOf(hits[i]) == key
  }

  /** The rank of the first hit with the key, or the number of hits. */
  function FirstSeen(hits: seq<Payload>, key: Key): (i: nat)
    ensures i <= |hits| && (i < |hits| <==> Occurs(hits, key))
    ensures i < |hits| ==> KeyOf(hits[i]) == key
    ensures forall j :: 0 <= j < i ==> KeyOf(hits[j]) != key
  {
    if hits == [] then 0
    else if KeyOf(hits[0]) == key then 0
    else
      var rest := FirstSeen(hits[1..], key);
      assert forall j :: 0 < j < |hits| ==> hits[j] == hits[1..][j - 1];
      1 + rest
  }

  /** The weighted reciprocal ranks of a key among the first `n` hits, added up. */
  function Total(hits: seq<Payload>, n: nat, key: Key, weight: real, k: nat): real
    requires n <= |hits|
  {
    if n == 0 then 0.0
    else Total(hits, n - 1, key, weight, k) + if KeyOf(hits[n - 1]) == key then Share(weight, k, n - 1) else 0.0
  }

  /** The two searches and the parameters of their fusion. */
  datatype Search = Search(vector: seq<Payload>, text: seq<Payload>, k: nat, denseWeight: real, textWeight: real) {
    function Score(key: Key): real {
      Total(vector, |vector|, key, denseWeight, k) + Total(text, |text|, key, textWeight, k)
    }

    function Hits(): seq<Payload> {
      vector + text
    }

    /** The order of the result: by score, and by first appearance among equals. */
    predicate Before(a: Key, b: Key) {
      Score(a) > Score(b) || (Score(a) == Score(b) && FirstSeen(Hits(), a) < FirstSeen(Hits(), b))
    }

    /** Keys in the order of the result. */
    predicate InOrder(keys: seq<Key>) {
      forall i, j :: 0 <= i < j < |keys| ==> Before(keys[i], keys[j])
    }

    /** The payload of the last hit with its key. */
    predicate IsLatest(p: Payload) {
      exists i :: 0 <= i < |Hits()| && Hits()[i] == p && !Occurs(Hits()[i + 1..], KeyOf(p))
    }

    /** Each key of either search once, with its score and its latest payload, in
        order. */
    ghost predicate IsFusion(out: seq<Fused>) {
      && InOrder(Keys(out))
      && (forall key :: key in Keys(out) <==> Occurs(Hits(), key))
      && forall i :: 0 <= i < |out| ==> out[i].score == Score(KeyOf(out[i].payload)) && IsLatest(out[i].payload)
    }
  }

  function Keys(out: seq<Fused>): (keys: seq<Key>)
    ensures |keys| == |out| && forall i :: 0 <= i < |out| ==> keys[i] == KeyOf(out[i].payload)
  {
    seq(|out|, i requires 0 <= i < |out| => KeyOf(out[i].payload))
  }

  // ---------------------------------------------------------------------------
  // The tally
  // ---------------------------------------------------------------------------

  /** `t` has one entry for each key of `seen`, in order of first appearance, and the
      latest payloads. */
  ghost predicate Tallied(t: Tally, seen: seq<Payload>) {
    && t.scores.Keys == t.payloads.Keys
    && (forall key :: key in t.scores <==> Occurs(seen, key))
    && (forall key :: key in t.order <==> key in t.scores)
    && (forall i, j :: 0 <= i < j < |t.order| ==> FirstSeen(seen, t.order[i]) < FirstSeen(seen, t.order[j]))
    && (forall key :: key in t.payloads ==> LatestIs(seen, key, t.payloads[key]))
  }

  predicate LatestIs(seen: seq<Payload>, key: Key, p: Payload) {
    KeyOf(p) == key && exists i :: 0 <= i < |seen| && seen[i] == p && !Occurs(seen[i + 1..], key)
  }

  lemma {:induction false} FirstSeenSnoc(seen: seq<Payload>, h: Payload, key: Key)
    ensures Occurs(seen, key) ==> Occurs(seen + [h], key) && FirstSeen(seen + [h], key) == FirstSeen(seen, key)
    ensures !Occurs(seen, key) && KeyOf(h) == key ==> Occurs(seen + [h], key) && FirstSeen(seen + [h], key) == |seen|
    ensures Occurs(seen + [h], key) ==> Occurs(seen, key) || KeyOf(h) == key
  {
    var more := seen + [h];
    var i := FirstSeen(seen, key);
    var j := FirstSeen(more, key);
    if i < |seen| {
      assert more[i] == seen[i];
    } else if KeyOf(h) == key {
      assert more[|seen|] == h;
    }
    if j < |seen| {
      assert seen[j] == more[j];
    }
  }

  lemma LatestSnoc(seen: seq<Payload>, h: Payload, key: Key, p: Payload)
    requires LatestIs(seen, key, p) && KeyOf(h) != key
    ensures LatestIs(seen + [h], key, p)
  {
    var i :| 0 <= i < |seen| && seen[i] == p && !Occurs(seen[i + 1..], key);
    assert (seen + [h])[i + 1..] == seen[i + 1..] + [h];
    FirstSeenSnoc(seen[i + 1..], h, key);
    assert (seen + [h])[i] == p;
  }

  lemma LatestIsLast(seen: seq<Payload>, h: Payload)
    ensures LatestIs(seen + [h], KeyOf(h), h)
  {
    var i := |seen|;
    assert (seen + [h])[i] == h && (seen + [h])[i + 1..] == [];
  }

  lemma SeenAsBefore(t: Tally, seen: seq<Payload>, h: Payload, i: nat)
    requires Tallied(t, seen) && i < |t.order|
    ensures FirstSeen(seen + [h], t.order[i]) == FirstSeen(seen, t.order[i]) < |seen|
  {
    assert t.order[i] in t.order;
    FirstSeenSnoc(seen, h, t.order[i]);
  }

  lemma OrderSnoc(t: Tally, seen: seq<Payload>, h: Payload, share: real)
    requires Tallied(t, seen)
    ensures var order := Added(t, h, share).order;
            forall i, j :: 0 <= i < j < |order| ==> FirstSeen(seen + [h], order[i]) < FirstSeen(seen + [h], order[j])
  {
    var order, more := Added(t, h, share).order, seen + [h];
    forall i, j | 0 <= i < j < |order| ensures FirstSeen(more, order[i]) < FirstSeen(more, order[j]) {
      SeenAsBefore(t, seen, h, i);
      if j < |t.order| {
        SeenAsBefore(t, seen, h, j);
      } else {
        assert order[j] == KeyOf(h) && !Occurs(seen, KeyOf(h));
        FirstSeenSnoc(seen, h, KeyOf(h));
      }
    }
  }

  lemma OccursSnoc(seen: seq<Payload>, h: Payload, key: Key)
    ensures Occurs(seen + [h], key) <==> Occurs(seen, key) || KeyOf(h) == key
  {
    FirstSeenSnoc(seen, h, key);
  }

  lemma KeysSnoc(t: Tally, seen: seq<Payload>, h: Payload, share: real)
    requires Tallied(t, seen)
    ensures var t' := Added(t, h, share);
            && t'.scores.Keys == t'.payloads.Keys
            && (forall key :: key in t'.scores <==> Occurs(seen + [h], key))
            && (forall key :: key in t'.order <==> key in t'.scores)
  {
    var t' := Added(t, h, share);
    forall key ensures key in t'.scores <==> Occurs(seen + [h], key) {
      OccursSnoc(seen, h, key);
    }
  }

  lemma PayloadsSnoc(t: Tally, seen: seq<Payload>, h: Payload, share: real)
    requires Tallied(t, seen)
    ensures var payloads := Added(t, h, share).payloads;
            forall key :: key in payloads ==> LatestIs(seen + [h], key, payloads[key])
  {
    var payloads := Added(t, h, share).payloads;
    forall key | key in payloads ensures LatestIs(seen + [h], key, payloads[key]) {
      if key == KeyOf(h) {
        LatestIsLast(seen, h);
      } else {
        LatestSnoc(seen, h, key, t.payloads[key]);
      }
    }
  }

  lemma TalliedSnoc(t: Tally, seen: seq<Payload>, h: Payload, share: real)
    requires Tallied(t, seen)
    ensures Tallied(Added(t, h, share), seen + [h])
  {
    KeysSnoc(t, seen, h, share);
    OrderSnoc(t, seen, h, share);
    PayloadsSnoc(t, seen, h, share);
  }

  lemma {:induction false} CountedIsTallied(t: Tally, before: seq<Payload>, hits: seq<Payload>, n: nat,
                                            weight: real, k: nat)
    requires Tallied(t, before) && n <= |hits|
    ensures Tallied(Counted(t, hits, n, weight, k), before + hits[..n])
  {
    if n == 0 {
      assert before + hits[..0] == before;
    } else {
      CountedIsTallied(t, before, hits, n - 1, weight, k);
      assert before + hits[..n] == (before + hits[..n - 1]) + [hits[n - 1]];
      TalliedSnoc(Counted(t, hits, n - 1, weight, k), before + hits[..n - 1], hits[n - 1], Share(weight, k, n - 1));
    }
  }

  function ScoreIn(t: Tally, key: Key): real {
    if key in t.scores then t.scores[key] else 0.0
  }

  lemma {:induction false} CountedScore(t: Tally, hits: seq<Payload>, n: nat, weight: real, k: nat, key: Key)
    requires n <= |hits|
    ensures ScoreIn(Counted(t, hits, n, weight, k), key) == ScoreIn(t, key) + Total(hits, n, key, weight, k)
  {
    if n > 0 {
      CountedScore(t, hits, n - 1, weight, k, key);
    }
  }

  // ---------------------------------------------------------------------------
  // The sort
  // ---------------------------------------------------------------------------

  predicate Sorted(s: Search, out: seq<Fused>) {
    forall i, j :: 0 <= i < j < |out| ==> Precedes(s, out[i], out[j])
  }

  predicate Precedes(s: Search, a: Fused, b: Fused) {
    a.score > b.score || (a.score == b.score && Position(s, a) < Position(s, b))
  }

  function Position(s: Search, f: Fused): nat {
    FirstSeen(s.Hits(), KeyOf(f.payload))
  }

  lemma {:induction false} InsertedIsSorted(s: Search, ranked: seq<Fused>, x: Fused)
    requires Sorted(s, ranked) && forall f :: f in ranked ==> Position(s, f) < Position(s, x)
    ensures Sorted(s, Inserted(ranked, x))
  {
    if ranked != [] {
      var front, last := ranked[..|ranked| - 1], ranked[|ranked| - 1];
      if last.score >= x.score {
        forall f | f in ranked ensures Precedes(s, f, x) {
        }
        SortedSnoc(s, ranked, x);
      } else {
        InsertedIsSorted(s, front, x);
        var more := Inserted(front, x);
        forall f | f in more ensures Precedes(s, f, last) {
          assert f in multiset(more);
          assert f in multiset(front) || f == x;
          assert f in front || f == x;
        }
        SortedSnoc(s, more, last);
      }
    }
  }

  lemma SortedSnoc(s: Search, ranked: seq<Fused>, last: Fused)
    requires Sorted(s, ranked) && forall f :: f in ranked ==> Precedes(s, f, last)
    ensures Sorted(s, ranked + [last])
  {
  }

  predicate ByPosition(s: Search, fused: seq<Fused>) {
    forall i, j :: 0 <= i < j < |fused| ==> Position(s, fused[i]) < Position(s, fused[j])
  }

  lemma {:induction false} RankedIsSorted(s: Search, fused: seq<Fused>)
    requires ByPosition(s, fused)
    ensures Sorted(s, Ranked(fused))
  {
    if fused != [] {
      var front, last := fused[..|fused| - 1], fused[|fused| - 1];
      RankedIsSorted(s, front);
      forall f | f in Ranked(front) ensures Position(s, f) < Position(s, last) {
        assert f in multiset(Ranked(front));
        assert f in multiset(front);
        assert f in front;
      }
      InsertedIsSorted(s, Ranked(front), last);
    }
  }

  // ---------------------------------------------------------------------------
  // The fusion
  // ---------------------------------------------------------------------------

  /** The entries of a tally in the order of insertion. */
  function Entries(t: Tally): (fused: seq<Fused>)
    requires forall key :: key in t.order ==> key in t.scores && key in t.payloads
    ensures |fused| == |t.order|
    ensures forall i :: 0 <= i < |fused| ==> fused[i] == Fused(t.scores[t.order[i]], t.payloads[t.order[i]])
  {
    seq(|t.order|, i requires 0 <= i < |t.order| =>
      assert t.order[i] in t.order;
      Fused(t.scores[t.order[i]], t.payloads[t.order[i]]))
  }

  function FinalTally(s: Search): Tally {
    Counted(Counted(EMPTY, s.vector, |s.vector|, s.denseWeight, s.k), s.text, |s.text|, s.textWeight, s.k)
  }

  lemma FinalTallyIsRight(s: Search)
    ensures Tallied(FinalTally(s), s.Hits())
    ensures forall key :: key in FinalTally(s).scores ==> FinalTally(s).scores[key] == s.Score(key)
  {
    var none: seq<Payload> := [];
    var half := Counted(EMPTY, s.vector, |s.vector|, s.denseWeight, s.k);
    CountedIsTallied(EMPTY, none, s.vector, |s.vector|, s.denseWeight, s.k);
    assert none + s.vector[..|s.vector|] == s.vector;
    CountedIsTallied(half, s.vector, s.text, |s.text|, s.textWeight, s.k);
    assert s.vector + s.text[..|s.text|] == s.Hits();
    forall key | key in FinalTally(s).scores ensures FinalTally(s).scores[key] == s.Score(key) {
      CountedScore(EMPTY, s.vector, |s.vector|, s.denseWeight, s.k, key);
      CountedScore(half, s.text, |s.text|, s.textWeight, s.k, key);
    }
  }

  lemma EntryIsRight(t: Tally, seen: seq<Payload>, i: nat)
    requires Tallied(t, seen) && i < |t.order|
    ensures var f := Entries(t)[i];
            && KeyOf(f.payload) == t.order[i] && f.score == t.scores[t.order[i]]
            && LatestIs(seen, t.order[i], f.payload) && Occurs(seen, t.order[i])
  {
    assert t.order[i] in t.order;
    assert LatestIs(seen, t.order[i], t.payloads[t.order[i]]);
  }

  lemma EntriesAreRight(s: Search, t: Tally, fused: seq<Fused>)
    requires Tallied(t, s.Hits()) && fused == Entries(t)
    requires forall key :: key in t.scores ==> t.scores[key] == s.Score(key)
    ensures ByPosition(s, fused)
    ensures forall f :: f in fused ==> RightScore(s, f)
    ensures forall key :: Occurs(s.Hits(), key) <==> exists f :: f in fused && KeyOf(f.payload) == key
  {
    forall i | 0 <= i < |fused|
      ensures KeyOf(fused[i].payload) == t.order[i] && Occurs(s.Hits(), t.order[i]) && RightScore(s, fused[i])
    {
      EntryIsRight(t, s.Hits(), i);
      assert t.order[i] in t.order;
    }
    forall key | Occurs(s.Hits(), key) ensures exists f :: f in fused && KeyOf(f.payload) == key {
      assert key in t.order;
      var i :| 0 <= i < |t.order| && t.order[i] == key;
      assert fused[i] in fused;
    }
  }

  lemma RankedKeys(fused: seq<Fused>, key: Key)
    ensures key in Keys(Ranked(fused)) <==> exists f :: f in fused && KeyOf(f.payload) == key
  {
    var out := Ranked(fused);
    if key in Keys(out) {
      var i :| 0 <= i < |out| && Keys(out)[i] == key;
      assert out[i] in multiset(out);
      assert out[i] in fused;
    }
    if f :| f in fused && KeyOf(f.payload) == key {
      assert f in multiset(fused);
      assert f in multiset(out);
      var i :| 0 <= i < |out| && out[i] == f;
      assert Keys(out)[i] == key;
    }
  }

  lemma RankedMembers(fused: seq<Fused>, i: nat)
    requires i < |Ranked(fused)|
    ensures Ranked(fused)[i] in fused
  {
    assert Ranked(fused)[i] in multiset(Ranked(fused));
    assert Ranked(fused)[i] in multiset(fused);
  }

  predicate RightScore(s: Search, f: Fused) {
    f.score == s.Score(KeyOf(f.payload)) && s.IsLatest(f.payload)
  }

  lemma SortedKeys(s: Search, out: seq<Fused>)
    requires Sorted(s, out) && forall i :: 0 <= i < |out| ==> RightScore(s, out[i])
    ensures s.InOrder(Keys(out))
  {
    forall i, j | 0 <= i < j < |out| ensures s.Before(Keys(out)[i], Keys(out)[j]) {
      assert Precedes(s, out[i], out[j]);
      assert RightScore(s, out[i]) && RightScore(s, out[j]);
    }
  }

  lemma RankedIsFusion(s: Search, fused: seq<Fused>)
    requires ByPosition(s, fused) && forall f :: f in fused ==> RightScore(s, f)
    requires forall key :: Occurs(s.Hits(), key) <==> exists f :: f in fused && KeyOf(f.payload) == key
    ensures s.IsFusion(Ranked(fused))
  {
    var out := Ranked(fused);
    RankedIsSorted(s, fused);
    forall i | 0 <= i < |out| ensures RightScore(s, out[i]) {
      RankedMembers(fused, i);
    }
    SortedKeys(s, out);
    forall key ensures key in Keys(out) <==> Occurs(s.Hits(), key) {
      RankedKeys(fused, key);
    }
  }

  method ListEntries(t: Tally) returns (fused: seq<Fused>)
    requires forall key :: key in t.order ==> key in t.scores && key in t.payloads
    ensures fused == Entries(t)
  {
    fused := [];
    for i := 0 to |t.order|
      invariant |fused| == i && forall j :: 0 <= j < i ==> fused[j] == Entries(t)[j]
    {
      var key := t.order[i];
      assert key in t.order;
      fused := fused + [Fused(t.scores[key], t.payloads[key])];
    }
  }

  method AddRanks(t0: Tally, hits: seq<Payload>, weight: real, k: nat) returns (t: Tally)
    ensures t == Counted(t0, hits, |hits|, weight, k)
  {
    t := t0;
    for rank := 0 to |hits|
      invariant t == Counted(t0, hits, rank, weight, k)
    {
      t := Added(t, hits[rank], Share(weight, k, rank));
    }
  }

  /** The result has every key of either search once, with the sum of its weighted
      reciprocal ranks and its latest payload, by descending score and then by first
      appearance. */
  method Rrf(s: Search) returns (out: seq<Fused>)
    ensures s.IsFusion(out)
  {
    var half := AddRanks(EMPTY, s.vector, s.denseWeight, s.k);
    var t := AddRanks(half, s.text, s.textWeight, s.k);
    FinalTallyIsRight(s);
    var fused := ListEntries(t);
    EntriesAreRight(s, FinalTally(s), fused);
    RankedIsFusion(s, fused);
    out := Ranked(fused);
  }

  // ---------------------------------------------------------------------------
  // Only one order
  // ---------------------------------------------------------------------------

  lemma FirstIsMember(keys: seq<Key>)
    ensures keys != [] ==> keys[0] in keys
  {
  }

  lemma FirstIsFirst(s: Search, keys: seq<Key>, key: Key)
    requires s.InOrder(keys) && key in keys
    ensures key == keys[0] || s.Before(keys[0], key)
  {
    var i :| 0 <= i < |keys| && keys[i] == key;
  }

  lemma {:induction false} OneOrder(s: Search, a: seq<Key>, b: seq<Key>)
    requires s.InOrder(a) && s.InOrder(b) && forall key :: key in a <==> key in b
    ensures a == b
  {
    FirstIsMember(a);
    FirstIsMember(b);
    if a != [] {
      FirstIsFirst(s, a, b[0]);
      FirstIsFirst(s, b, a[0]);
      TailKeys(s, a);
      TailKeys(s, b);
      OneOrder(s, a[1..], b[1..]);
    }
  }

  lemma TailKeys(s: Search, keys: seq<Key>)
    requires s.InOrder(keys) && keys != []
    ensures s.InOrder(keys[1..])
    ensures forall key :: key in keys[1..] <==> key in keys && key != keys[0]
  {
    forall key | key in keys[1..] ensures key in keys && key != keys[0] {
      var i :| 0 <= i < |keys[1..]| && keys[1..][i] == key;
      assert keys[i + 1] == key && s.Before(keys[0], keys[i + 1]);
    }
    forall key | key in keys && key != keys[0] ensures key in keys[1..] {
      var i :| 0 <= i < |keys| && keys[i] == key;
      assert keys[1..][i - 1] == key;
    }
  }

  /** Any two fusions of the same searches list the same keys in the same order. */
  lemma FusionIsUnique(s: Search, one: seq<Fused>, other: seq<Fused>)
    requires s.IsFusion(one) && s.IsFusion(other)
    ensures Keys(one) == Keys(other)
    ensures forall i :: 0 <= i < |one| ==> one[i].score == other[i].score
  {
    OneOrder(s, Keys(one), Keys(other));
    forall i | 0 <= i < |one| ensures one[i].score == other[i].score {
      assert Keys(one)[i] == Keys(other)[i];
    }
  }

  /** Swapping the two lists together with their weights changes neither the keys nor
      the score of any. */
  lemma SwapKeepsScores(s: Search, out: seq<Fused>, swapped: seq<Fused>)
    requires s.IsFusion(out) && Search(s.text, s.vector, s.k, s.textWeight, s.denseWeight).IsFusion(swapped)
    ensures forall key :: key in Keys(out) <==> key in Keys(swapped)
    ensures forall i, j :: 0 <= i < |out| && 0 <= j < |swapped| && Keys(out)[i] == Keys(swapped)[j] ==>
              out[i].score == swapped[j].score
  {
    var s' := Search(s.text, s.vector, s.k, s.textWeight, s.denseWeight);
    forall key ensures key in Keys(out) <==> key in Keys(swapped) {
      OccursInBoth(s.vector, s.text, key);
      OccursInBoth(s.text, s.vector, key);
      assert s'.Hits() == s.text + s.vector;
    }
    forall i, j | 0 <= i < |out| && 0 <= j < |swapped| && Keys(out)[i] == Keys(swapped)[j]
      ensures out[i].score == swapped[j].score
    {
      assert s'.Score(Keys(out)[i]) == s.Score(Keys(out)[i]);
    }
  }

  // ---------------------------------------------------------------------------
  // Dominance
  // ---------------------------------------------------------------------------

  predicate NoDuplicates(hits: seq<Payload>) {
    forall i, j :: 0 <= i < j < |hits| ==> KeyOf(hits[i]) != KeyOf(hits[j])
  }

  lemma OnlyHit(hits: seq<Payload>, i: nat, key: Key)
    requires NoDuplicates(hits) && i < |hits|
    ensures KeyOf(hits[i]) == key <==> FirstSeen(hits, key) == i
  {
  }

  lemma {:induction false} TotalOfDistinct(hits: seq<Payload>, n: nat, key: Key, weight: real, k: nat)
    requires NoDuplicates(hits) && n <= |hits|
    ensures Total(hits, n, key, weight, k)
         == if FirstSeen(hits, key) < n then Share(weight, k, FirstSeen(hits, key)) else 0.0
  {
    if n > 0 {
      TotalOfDistinct(hits, n - 1, key, weight, k);
      OnlyHit(hits, n - 1, key);
    }
  }

  /** `b` is nowhere in the list, or `a` is there at a better rank. */
  predicate NotBehind(hits: seq<Payload>, a: Key, b: Key) {
    Occurs(hits, b) ==> FirstSeen(hits, a) < FirstSeen(hits, b)
  }

  predicate Ahead(hits: seq<Payload>, a: Key, b: Key) {
    NotBehind(hits, a, b) && Occurs(hits, a)
  }

  lemma BetterShare(weight: real, k: nat, i: nat, j: nat)
    requires weight >= 0.0 && i < j
    ensures 0.0 <= Share(weight, k, j) <= Share(weight, k, i)
    ensures weight > 0.0 ==> 0.0 < Share(weight, k, j) < Share(weight, k, i)
  {
    var m, n := (k + i + 1) as real, (k + j + 1) as real;
    var a, b := weight / m, weight / n;
    assert a * m == weight && b * n == weight;
    assert (a - b) * n == a * (n - m);
    assert a >= 0.0 && b >= 0.0;
    assert a * (n - m) >= 0.0;
    assert weight > 0.0 ==> a > 0.0 && b > 0.0 && a * (n - m) > 0.0;
  }

  lemma ListDominance(hits: seq<Payload>, a: Key, b: Key, weight: real, k: nat)
    requires NoDuplicates(hits) && weight >= 0.0 && NotBehind(hits, a, b)
    ensures Total(hits, |hits|, a, weight, k) >= Total(hits, |hits|, b, weight, k)
    ensures weight > 0.0 && Ahead(hits, a, b) ==> Total(hits, |hits|, a, weight, k) > Total(hits, |hits|, b, weight, k)
  {
    var i, j := FirstSeen(hits, a), FirstSeen(hits, b);
    TotalOfDistinct(hits, |hits|, a, weight, k);
    TotalOfDistinct(hits, |hits|, b, weight, k);
    if j < |hits| {
      BetterShare(weight, k, i, j);
    } else {
      BetterShare(weight, k, i, i + 1);
    }
  }

  /** Without duplicates, a document that is behind another in neither list, and ahead of
      it in one that has weight, is ahead of it in every fusion. */
  lemma Dominance(s: Search, out: seq<Fused>, i: nat, j: nat)
    requires s.IsFusion(out) && i < |out| && j < |out|
    requires NoDuplicates(s.vector) && NoDuplicates(s.text) && s.denseWeight >= 0.0 && s.textWeight >= 0.0
    requires NotBehind(s.vector, Keys(out)[i], Keys(out)[j]) && NotBehind(s.text, Keys(out)[i], Keys(out)[j])
    requires (s.denseWeight > 0.0 && Ahead(s.vector, Keys(out)[i], Keys(out)[j]))
          || (s.textWeight > 0.0 && Ahead(s.text, Keys(out)[i], Keys(out)[j]))
    ensures i < j && out[i].score > out[j].score
  {
    var a, b := Keys(out)[i], Keys(out)[j];
    ListDominance(s.vector, a, b, s.denseWeight, s.k);
    ListDominance(s.text, a, b, s.textWeight, s.k);
    assert s.Score(a) > s.Score(b);
  }

  /** How many of the first `n` hits have the key. */
  function Count(hits: seq<Payload>, n: nat, key: Key): nat
    requires n <= |hits|
  {
    if n == 0 then 0 else Count(hits, n - 1, key) + if KeyOf(hits[n - 1]) == key then 1 else 0
  }

  /** How far `a` is ahead of `b` after `n` hits. */
  function Lead(hits: seq<Payload>, n: nat, a: Key, b: Key): int
    requires n <= |hits|
  {
    Count(hits, n, a) - Count(hits, n, b)
  }

  /** `a` is never behind `b` in the list. */
  predicate NeverBehind(hits: seq<Payload>, a: Key, b: Key) {
    forall n :: 0 <= n <= |hits| ==> Lead(hits, n, a, b) >= 0
  }

  /** And somewhere it is ahead. */
  predicate SomewhereAhead(hits: seq<Payload>, n: nat, a: Key, b: Key)
    requires n <= |hits|
  {
    exists m :: 0 <= m <= n && Lead(hits, m, a, b) > 0
  }

  /** The worth of a lead at a price per hit. */
  function Worth(lead: nat, price: real): (worth: real)
    requires price >= 0.0
    ensures worth >= 0.0
  {
    if lead == 0 then 0.0 else Worth(lead - 1, price) + price
  }

  lemma {:induction false} WorthFalls(lead: nat, near: real, far: real)
    requires 0.0 <= far <= near
    ensures Worth(lead, far) <= Worth(lead, near)
    ensures lead > 0 && far < near ==> Worth(lead, far) < Worth(lead, near)
  {
    if lead > 0 {
      WorthFalls(lead - 1, near, far);
    }
  }

  /** What was gained pays for a lead, at this price; more than pays, if `strictly`. */
  predicate Pays(gained: real, lead: nat, price: real, strictly: bool)
    requires price >= 0.0
  {
    gained >= Worth(lead, price) && (strictly ==> gained > Worth(lead, price))
  }

  function One(hit: bool): int {
    if hit then 1 else 0
  }

  function Earned(hit: bool, share: real): real {
    if hit then share else 0.0
  }

  /** A hit of `a` earns what it costs to be one further ahead; a hit of `b` costs it. */
  lemma PayStep(gained: real, before: nat, a: bool, b: bool, near: real, far: real, was: bool, strictly: bool)
    requires before + One(a) - One(b) >= 0 && 0.0 <= far <= near && Pays(gained, before, near, was)
    requires strictly ==> was || (before + One(a) - One(b) > 0 && far < near)
    ensures Pays(gained + Earned(a, near) - Earned(b, near), before + One(a) - One(b), far, strictly)
  {
    WorthFalls(before + One(a) - One(b), near, far);
  }

  lemma AheadSomewhere(hits: seq<Payload>, n: nat, a: Key, b: Key)
    requires 0 < n <= |hits|
    ensures SomewhereAhead(hits, n, a, b) <==> SomewhereAhead(hits, n - 1, a, b) || Lead(hits, n, a, b) > 0
  {
  }

  function Gained(hits: seq<Payload>, n: nat, a: Key, b: Key, weight: real, k: nat): real
    requires n <= |hits|
  {
    Total(hits, n, a, weight, k) - Total(hits, n, b, weight, k)
  }

  /** A lead is worth at least as many shares of the next rank. */
  lemma {:induction false} LeadPays(hits: seq<Payload>, n: nat, a: Key, b: Key, weight: real, k: nat)
    requires n <= |hits| && weight >= 0.0 && NeverBehind(hits, a, b)
    ensures Share(weight, k, n) >= 0.0
    ensures Pays(Gained(hits, n, a, b, weight, k), Lead(hits, n, a, b), Share(weight, k, n),
                 weight > 0.0 && SomewhereAhead(hits, n, a, b))
  {
    if n == 0 {
      BetterShare(weight, k, 0, 1);
    } else {
      LeadPays(hits, n - 1, a, b, weight, k);
      LeadPaysMore(hits, n, a, b, weight, k);
    }
  }

  lemma LeadPaysMore(hits: seq<Payload>, n: nat, a: Key, b: Key, weight: real, k: nat)
    requires 0 < n <= |hits| && weight >= 0.0 && NeverBehind(hits, a, b) && Share(weight, k, n - 1) >= 0.0
    requires Pays(Gained(hits, n - 1, a, b, weight, k), Lead(hits, n - 1, a, b), Share(weight, k, n - 1),
                  weight > 0.0 && SomewhereAhead(hits, n - 1, a, b))
    ensures Share(weight, k, n) >= 0.0
    ensures Pays(Gained(hits, n, a, b, weight, k), Lead(hits, n, a, b), Share(weight, k, n),
                 weight > 0.0 && SomewhereAhead(hits, n, a, b))
  {
    BetterShare(weight, k, n - 1, n);
    AheadSomewhere(hits, n, a, b);
    HitGains(hits, n, a, b, weight, k);
    var key := KeyOf(hits[n - 1]);
    PayStep(Gained(hits, n - 1, a, b, weight, k), Lead(hits, n - 1, a, b), key == a, key == b,
            Share(weight, k, n - 1), Share(weight, k, n),
            weight > 0.0 && SomewhereAhead(hits, n - 1, a, b), weight > 0.0 && SomewhereAhead(hits, n, a, b));
  }

  lemma HitGains(hits: seq<Payload>, n: nat, a: Key, b: Key, weight: real, k: nat)
    requires 0 < n <= |hits|
    ensures var key, share := KeyOf(hits[n - 1]), Share(weight, k, n - 1);
            && Gained(hits, n, a, b, weight, k)
                 == Gained(hits, n - 1, a, b, weight, k) + Earned(key == a, share) - Earned(key == b, share)
            && Lead(hits, n, a, b) == Lead(hits, n - 1, a, b) + One(key == a) - One(key == b)
  {
  }

  lemma LeadWins(hits: seq<Payload>, a: Key, b: Key, weight: real, k: nat)
    requires weight >= 0.0 && NeverBehind(hits, a, b)
    ensures Total(hits, |hits|, a, weight, k) >= Total(hits, |hits|, b, weight, k)
    ensures weight > 0.0 && SomewhereAhead(hits, |hits|, a, b) ==>
              Total(hits, |hits|, a, weight, k) > Total(hits, |hits|, b, weight, k)
  {
    LeadPays(hits, |hits|, a, b, weight, k);
  }

  /** Duplicates or not: if every prefix of either list has at least as many hits of one
      document as of another, it scores no less; and more, and comes first, if some prefix
      of a list that has weight has more of it. */
  lemma CountDominance(s: Search, out: seq<Fused>, i: nat, j: nat)
    requires s.IsFusion(out) && i < |out| && j < |out| && s.denseWeight >= 0.0 && s.textWeight >= 0.0
    requires NeverBehind(s.vector, Keys(out)[i], Keys(out)[j]) && NeverBehind(s.text, Keys(out)[i], Keys(out)[j])
    ensures out[i].score >= out[j].score
    ensures (s.denseWeight > 0.0 && SomewhereAhead(s.vector, |s.vector|, Keys(out)[i], Keys(out)[j]))
            || (s.textWeight > 0.0 && SomewhereAhead(s.text, |s.text|, Keys(out)[i], Keys(out)[j])) ==>
              i < j && out[i].score > out[j].score
  {
    var a, b := Keys(out)[i], Keys(out)[j];
    LeadWins(s.vector, a, b, s.denseWeight, s.k);
    LeadWins(s.text, a, b, s.textWeight, s.k);
    assert out[i].score == s.Score(a) && out[j].score == s.Score(b);
  }

  /** Otherwise duplicates may decide: the key that comes first in the list is overtaken
      by one that comes second and third. */
  lemma DuplicatesBreakDominance()
    ensures var a, b := Payload(Some("s"), Some("a"), Some(""), ""), Payload(Some("s"), Some("b"), Some(""), "");
            var s := Search([a, b, b], [], 60, 1.0, 0.0);
            Ahead(s.vector, KeyOf(a), KeyOf(b)) && s.Before(KeyOf(b), KeyOf(a))
  {
    var a, b := Payload(Some("s"), Some("a"), Some(""), ""), Payload(Some("s"), Some("b"), Some(""), "");
    var v := [a, b, b];
    assert KeyOf(a).docPath[0] == 'a' && KeyOf(b).docPath[0] == 'b';
    assert KeyOf(v[0]) == KeyOf(a) && KeyOf(v[1]) == KeyOf(b);
    ThreeTotals(v, KeyOf(a));
    ThreeTotals(v, KeyOf(b));
  }

  lemma ThreeTotals(v: seq<Payload>, key: Key)
    requires |v| == 3
    ensures Total(v, 3, key, 1.0, 60)
         == (if KeyOf(v[0]) == key then 1.0 / 61.0 else 0.0)
            + (if KeyOf(v[1]) == key then 1.0 / 62.0 else 0.0)
            + (if KeyOf(v[2]) == key then 1.0 / 63.0 else 0.0)
  {
    assert Total(v, 0, key, 1.0, 60) == 0.0;
    assert Total(v, 1, key, 1.0, 60) == if KeyOf(v[0]) == key then 1.0 / 61.0 else 0.0;
  }

  // ---------------------------------------------------------------------------
  // All the weight on the vector search
  // ---------------------------------------------------------------------------

  function KeysOf(hits: seq<Payload>): (keys: seq<Key>)
    ensures |keys| == |hits| && forall i :: 0 <= i < |hits| ==> keys[i] == KeyOf(hits[i])
  {
    seq(|hits|, i requires 0 <= i < |hits| => KeyOf(hits[i]))
  }

  /** The keys of the hits that are not among the vector hits, in order. */
  function OnlyIn(hits: seq<Payload>, vector: seq<Payload>): seq<Key> {
    if hits == [] then []
    else
      OnlyIn(hits[..|hits| - 1], vector)
        + if Occurs(vector, KeyOf(hits[|hits| - 1])) then [] else [KeyOf(hits[|hits| - 1])]
  }

  lemma {:induction false} OnlyInMembers(hits: seq<Payload>, vector: seq<Payload>)
    ensures forall key :: key in OnlyIn(hits, vector) <==> Occurs(hits, key) && !Occurs(vector, key)
  {
    if hits != [] {
      var front, last := hits[..|hits| - 1], hits[|hits| - 1];
      OnlyInMembers(front, vector);
      forall key ensures key in OnlyIn(hits, vector) <==> Occurs(hits, key) && !Occurs(vector, key) {
        FirstSeenSnoc(front, last, key);
        assert front + [last] == hits;
      }
    }
  }

  lemma {:induction false} OnlyInByRank(hits: seq<Payload>, vector: seq<Payload>)
    requires NoDuplicates(hits)
    ensures forall i, j :: 0 <= i < j < |OnlyIn(hits, vector)| ==>
              FirstSeen(hits, OnlyIn(hits, vector)[i]) < FirstSeen(hits, OnlyIn(hits, vector)[j])
  {
    if hits != [] {
      var front, last := hits[..|hits| - 1], hits[|hits| - 1];
      var before := OnlyIn(front, vector);
      OnlyInByRank(front, vector);
      OnlyInMembers(front, vector);
      assert front + [last] == hits;
      var keys := OnlyIn(hits, vector);
      forall i, j | 0 <= i < j < |keys| ensures FirstSeen(hits, keys[i]) < FirstSeen(hits, keys[j]) {
        assert keys[i] == before[i] && before[i] in before;
        FirstSeenSnoc(front, last, keys[i]);
        FirstSeenSnoc(front, last, keys[j]);
        if j < |before| {
          assert keys[j] == before[j] && before[j] in before;
        } else {
          assert !Occurs(front, KeyOf(last));
        }
      }
    }
  }

  lemma {:induction false} FirstSeenInBoth(a: seq<Payload>, b: seq<Payload>, key: Key)
    ensures FirstSeen(a + b, key) == if Occurs(a, key) then FirstSeen(a, key) else |a| + FirstSeen(b, key)
  {
    if a == [] {
      assert a + b == b;
    } else {
      assert (a + b)[1..] == a[1..] + b;
      FirstSeenInBoth(a[1..], b, key);
      assert FirstSeen(a, key) < |a| <==> Occurs(a, key);
    }
  }

  lemma VectorScore(s: Search, key: Key)
    requires NoDuplicates(s.vector) && NoDuplicates(s.text) && s.textWeight == 0.0 && s.denseWeight > 0.0
    ensures s.Score(key) == if Occurs(s.vector, key) then Share(s.denseWeight, s.k, FirstSeen(s.vector, key)) else 0.0
  {
    TotalOfDistinct(s.vector, |s.vector|, key, s.denseWeight, s.k);
    TotalOfDistinct(s.text, |s.text|, key, 0.0, s.k);
  }

  lemma VectorOrderIsOrder(s: Search)
    requires NoDuplicates(s.vector) && NoDuplicates(s.text) && s.textWeight == 0.0 && s.denseWeight > 0.0
    ensures s.InOrder(KeysOf(s.vector) + OnlyIn(s.text, s.vector))
  {
    var tail := OnlyIn(s.text, s.vector);
    var n := |s.vector|;
    var keys := KeysOf(s.vector) + tail;
    OnlyInMembers(s.text, s.vector);
    OnlyInByRank(s.text, s.vector);
    forall i, j | 0 <= i < j < |keys| ensures s.Before(keys[i], keys[j]) {
      VectorScore(s, keys[i]);
      VectorScore(s, keys[j]);
      if i < n {
        assert keys[i] == KeyOf(s.vector[i]) && FirstSeen(s.vector, keys[i]) == i;
        if j < n {
          assert keys[j] == KeyOf(s.vector[j]) && FirstSeen(s.vector, keys[j]) == j;
          BetterShare(s.denseWeight, s.k, i, j);
        } else {
          assert keys[j] == tail[j - n] && tail[j - n] in tail;
          BetterShare(s.denseWeight, s.k, i, i + 1);
        }
      } else {
        assert keys[i] == tail[i - n] && tail[i - n] in tail;
        assert keys[j] == tail[j - n] && tail[j - n] in tail;
        FirstSeenInBoth(s.vector, s.text, keys[i]);
        FirstSeenInBoth(s.vector, s.text, keys[j]);
      }
    }
  }

  /** With all the weight on the vector search the result is the vector hits in their
      order, and then the hits only the text search has, in theirs. */
  lemma VectorWeightKeepsVectorOrder(s: Search, out: seq<Fused>)
    requires s.IsFusion(out) && NoDuplicates(s.vector) && NoDuplicates(s.text)
    requires s.textWeight == 0.0 && s.denseWeight > 0.0
    ensures Keys(out) == KeysOf(s.vector) + OnlyIn(s.text, s.vector)
  {
    var keys := KeysOf(s.vector) + OnlyIn(s.text, s.vector);
    VectorOrderIsOrder(s);
    OnlyInMembers(s.text, s.vector);
    forall key ensures key in keys <==> key in Keys(out) {
      OccursInBoth(s.vector, s.text, key);
      assert key in KeysOf(s.vector) <==> Occurs(s.vector, key);
    }
    OneOrder(s, Keys(out), keys);
  }

  lemma OccursInBoth(a: seq<Payload>, b: seq<Payload>, key: Key)
    ensures Occurs(a + b, key) <==> Occurs(a, key) || Occurs(b, key)
  {
    if Occurs(a, key) {
      var i :| 0 <= i < |a| && KeyOf(a[i]) == key;
      assert (a + b)[i] == a[i];
    }
    if Occurs(b, key) {
      var i :| 0 <= i < |b| && KeyOf(b[i]) == key;
      assert (a + b)[|a| + i] == b[i];
    }
  }
}
