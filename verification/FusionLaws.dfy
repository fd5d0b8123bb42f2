/** Reciprocal rank fusion written out on the documents of the hits. */
module FusionLaws {
  import opened Common
  import opened RankFusion

  /** Two hits are the same document: source, path and text agree, a missing field being
      an empty one. */
  predicate SameDocument(p: Payload, q: Payload) {
    && (if p.source.Some? then p.source.value else "") == (if q.source.Some? then q.source.value else "")
    && (if p.docPath.Some? then p.docPath.value else "") == (if q.docPath.Some? then q.docPath.value else "")
    && (if p.text.Some? then p.text.value else "") == (if q.text.Some? then q.text.value else "")
  }

  lemma SameKey(p: Payload, q: Payload)
    ensures SameDocument(p, q) <==> KeyOf(p) == KeyOf(q)
  {
  }

  lemma AllSameKey()
    ensures forall p, q :: SameDocument(p, q) <==> KeyOf(p) == KeyOf(q)
  {
  }

  /** What a document gains among the first `n` hits: the weight over `k` plus the rank,
      counted from 1, for each of its hits. */
  function Gains(hits: seq<Payload>, n: nat, p: Payload, weight: real, k: nat): real
    requires n <= |hits|
  {
    if n == 0 then 0.0
    else Gains(hits, n - 1, p, weight, k) + if SameDocument(hits[n - 1], p) then weight / (k + n) as real else 0.0
  }

  lemma ShareAtRank(weight: real, k: nat, n: nat)
    requires n >= 1
    ensures Share(weight, k, n - 1) == weight / (k + n) as real
  {
    assert k + (n - 1) + 1 == k + n;
  }

  lemma {:induction false} TotalIsGained(hits: seq<Payload>, n: nat, p: Payload, weight: real, k: nat)
    requires n <= |hits|
    ensures Total(hits, n, KeyOf(p), weight, k) == Gains(hits, n, p, weight, k)
  {
    if n > 0 {
      TotalIsGained(hits, n - 1, p, weight, k);
      SameKey(hits[n - 1], p);
      ShareAtRank(weight, k, n);
    }
  }

  /** The score of a result is what its document gains in both searches. */
  lemma ScoresAreReciprocalRanks(s: Search, out: seq<Fused>, i: nat)
    requires s.IsFusion(out) && i < |out|
    ensures out[i].score == Gains(s.vector, |s.vector|, out[i].payload, s.denseWeight, s.k)
                            + Gains(s.text, |s.text|, out[i].payload, s.textWeight, s.k)
  {
    TotalIsGained(s.vector, |s.vector|, out[i].payload, s.denseWeight, s.k);
    TotalIsGained(s.text, |s.text|, out[i].payload, s.textWeight, s.k);
  }

  /** Every document found is in the result once, with the payload of its last hit, and
      nothing else is. */
  lemma OneResultPerDocument(s: Search, out: seq<Fused>)
    requires s.IsFusion(out)
    ensures forall h :: h in s.vector + s.text ==> exists i :: 0 <= i < |out| && SameDocument(out[i].payload, h)
    ensures forall i, j :: 0 <= i < j < |out| ==> !SameDocument(out[i].payload, out[j].payload)
    ensures forall i :: 0 <= i < |out| ==> LastOf(s.vector + s.text, out[i].payload)
  {
    AllSameKey();
    forall h | h in s.vector + s.text ensures exists i :: 0 <= i < |out| && SameDocument(out[i].payload, h) {
      var n :| 0 <= n < |s.Hits()| && s.Hits()[n] == h;
      assert KeyOf(h) in Keys(out);
      var i :| 0 <= i < |out| && Keys(out)[i] == KeyOf(h);
      assert SameDocument(out[i].payload, h);
    }
    forall i, j | 0 <= i < j < |out| ensures !SameDocument(out[i].payload, out[j].payload) {
      assert s.Before(Keys(out)[i], Keys(out)[j]);
    }
    forall i | 0 <= i < |out| ensures LastOf(s.vector + s.text, out[i].payload) {
      assert s.IsLatest(out[i].payload);
      LatestIsLast(s, out[i].payload);
    }
  }

  /** `p` is a hit, and no later hit is the same document. */
  predicate LastOf(hits: seq<Payload>, p: Payload) {
    exists n :: 0 <= n < |hits| && hits[n] == p && forall m :: n < m < |hits| ==> !SameDocument(hits[m], p)
  }

  lemma LatestIsLast(s: Search, p: Payload)
    requires s.IsLatest(p)
    ensures LastOf(s.vector + s.text, p)
  {
    var hits := s.Hits();
    var n :| 0 <= n < |hits| && hits[n] == p && !Occurs(hits[n + 1..], KeyOf(p));
    forall m | n < m < |hits| ensures !SameDocument(hits[m], p) {
      assert hits[n + 1..][m - n - 1] == hits[m];
      SameKey(hits[m], p);
    }
  }

  /** The rank at which a document first appears. */
  predicate FirstOf(hits: seq<Payload>, p: Payload, n: nat) {
    n < |hits| && SameDocument(hits[n], p) && forall m :: 0 <= m < n ==> !SameDocument(hits[m], p)
  }

  /** Results come by descending score, and by first appearance among equal ones. */
  lemma ResultsComeByScore(s: Search, out: seq<Fused>, i: nat, j: nat, m: nat, n: nat)
    requires s.IsFusion(out) && i < j < |out|
    requires FirstOf(s.vector + s.text, out[i].payload, m) && FirstOf(s.vector + s.text, out[j].payload, n)
    ensures out[i].score > out[j].score || (out[i].score == out[j].score && m < n)
  {
    assert s.Before(Keys(out)[i], Keys(out)[j]);
    FirstIsSeen(s.Hits(), out[i].payload, m);
    FirstIsSeen(s.Hits(), out[j].payload, n);
  }

  lemma FirstIsSeen(hits: seq<Payload>, p: Payload, n: nat)
    requires FirstOf(hits, p, n)
    ensures FirstSeen(hits, KeyOf(p)) == n
  {
    AllSameKey();
    assert Occurs(hits, KeyOf(p));
  }
}
