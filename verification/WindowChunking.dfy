/** The sliding window of `fixed` chunking. */
module WindowChunking {
  import opened Words

  /** Tokens are counted as words times 1.3. */
  function MaxWords(maxTokens: int): (n: nat)
    ensures n >= 1
  {
    if 10 * maxTokens / 13 >= 1 then 10 * maxTokens / 13 else 1
  }

  function OverlapWords(overlap: int): nat {
    if overlap >= 0 then 10 * overlap / 13 else 0
  }

  function StepOf(maxTokens: int, overlap: int): (step: nat)
    ensures 1 <= step <= MaxWords(maxTokens)
  {
    var d := MaxWords(maxTokens) - OverlapWords(overlap);
    if d >= 1 then d else 1
  }

  function Min(a: int, b: int): int {
    if a < b then a else b
  }

  /** Where window `k` starts: `k` steps into the words. */
  function Start(k: nat, step: nat): nat {
    if k == 0 then 0 else Start(k - 1, step) + step
  }

  lemma {:induction false} StartIsProduct(k: nat, step: nat)
    ensures Start(k, step) == k * step
  {
    if k > 0 {
      StartIsProduct(k - 1, step);
    }
  }

  lemma {:induction false} StartMonotone(j: nat, k: nat, step: nat)
    requires j <= k
    ensures Start(j, step) <= Start(k, step)
    decreases k
  {
    if j < k {
      StartMonotone(j, k - 1, step);
    }
  }

  /** Window `k` of the words. */
  function Window(words: seq<string>, k: nat, maxWords: nat, step: nat): seq<string>
    requires Start(k, step) <= |words|
  {
    words[Start(k, step)..Min(Start(k, step) + maxWords, |words|)]
  }

  /** How many windows there are: one, or one more for every started step beyond the
      first window. */
  function WindowCount(n: nat, maxWords: nat, step: nat): nat
    requires step > 0
  {
    if n <= maxWords then 1 else 1 + (n - maxWords + step - 1) / step
  }

  lemma {:induction false} LastStart(m: nat, step: nat)
    requires step > 0
    ensures Start((m + step - 1) / step, step) < m + step
    ensures m <= Start((m + step - 1) / step, step)
  {
    var q := (m + step - 1) / step;
    StartIsProduct(q, step);
    assert q * step <= m + step - 1 < q * step + step;
  }

  /** Every window of the count starts inside the text, and only the last one reaches
      its end. */
  lemma WindowsFit(n: nat, maxWords: nat, step: nat, k: nat)
    requires n > 0 && 1 <= step <= maxWords && k < WindowCount(n, maxWords, step)
    ensures Start(k, step) < n
    ensures Start(k, step) + maxWords >= n <==> k == WindowCount(n, maxWords, step) - 1
  {
    var last := WindowCount(n, maxWords, step) - 1;
    if n > maxWords {
      LastStart(n - maxWords, step);
      if k < last {
        StartMonotone(k, last - 1, step);
      }
    }
  }

  /** The text is window `k` of the words, joined. */
  predicate IsWindow(text: string, words: seq<string>, k: nat, maxWords: nat, step: nat) {
    Start(k, step) < |words| && text == Join(Window(words, k, maxWords, step))
  }

  /** The first windows of the words, as joined texts. */
  predicate Windowed(out: seq<string>, words: seq<string>, maxWords: nat, step: nat) {
    && words != [] && 1 <= step <= maxWords
    && forall k :: 0 <= k < |out| ==> IsWindow(out[k], words, k, maxWords, step)
  }

  lemma WindowAdded(out: seq<string>, words: seq<string>, maxWords: nat, step: nat, text: string)
    requires Windowed(out, words, maxWords, step) && IsWindow(text, words, |out|, maxWords, step)
    ensures Windowed(out + [text], words, maxWords, step)
  {
  }

  /** The sliding window: the loop over `range(0, len(words), step)` with its early
      exit. It emits exactly the windows of the count. */
  method PackWords(text: string, maxTokens: int, overlap: int) returns (out: seq<string>)
    ensures var words := Split(text);
            var maxWords, step := MaxWords(maxTokens), StepOf(maxTokens, overlap);
            if words == [] then out == []
            else Windowed(out, words, maxWords, step) && |out| == WindowCount(|words|, maxWords, step)
  {
    var words := Split(text);
    out := [];
    if words == [] {
      return;
    }
    var maxWords := MaxWords(maxTokens);
    var step := StepOf(maxTokens, overlap);
    var i := 0;
    while i < |words|
      invariant i == Start(|out|, step) && Windowed(out, words, maxWords, step)
      invariant |out| < WindowCount(|words|, maxWords, step)
      decreases WindowCount(|words|, maxWords, step) - |out|
    {
      WindowsFit(|words|, maxWords, step, |out|);
      var text := Join(words[i..Min(i + maxWords, |words|)]);
      WindowAdded(out, words, maxWords, step, text);
      out := out + [text];
      if i + maxWords >= |words| {
        return;
      }
      i := i + step;
    }
    WindowsFit(|words|, maxWords, step, |out|);
  }

  // ---------------------------------------------------------------------------
  // What the windows cover and share
  // ---------------------------------------------------------------------------

  /** Every word is in some window. */
  lemma WindowsCover(n: nat, maxWords: nat, step: nat, j: nat) returns (k: nat)
    requires j < n && 1 <= step <= maxWords
    ensures k < WindowCount(n, maxWords, step) && Start(k, step) <= j < Start(k, step) + maxWords
  {
    var last := WindowCount(n, maxWords, step) - 1;
    WindowsFit(n, maxWords, step, last);
    k := CoveringWindow(maxWords, step, j, last);
  }

  lemma {:induction false} CoveringWindow(maxWords: nat, step: nat, j: nat, last: nat) returns (k: nat)
    requires 1 <= step <= maxWords && j < Start(last, step) + maxWords
    ensures k <= last && Start(k, step) <= j < Start(k, step) + maxWords
    decreases last
  {
    if Start(last, step) <= j {
      k := last;
    } else {
      k := CoveringWindow(maxWords, step, j, last - 1);
    }
  }

  lemma SharedSlice(words: seq<string>, a: nat, step: nat, shared: nat, end: nat)
    requires a + step + shared < end <= |words|
    ensures words[a..a + step + shared][step..] == words[a + step..end][..shared]
  {
  }

  /** Neighbouring windows share exactly min(overlap, maxWords - 1) words: the last
      ones of the first are the first ones of the second, which has more. */
  lemma NeighboursShare(words: seq<string>, maxTokens: int, overlap: int, k: nat)
    requires words != []
    requires k + 1 < WindowCount(|words|, MaxWords(maxTokens), StepOf(maxTokens, overlap))
    ensures var maxWords, step := MaxWords(maxTokens), StepOf(maxTokens, overlap);
            var shared := Min(OverlapWords(overlap), maxWords - 1);
            && Start(k, step) < |words| && Start(k + 1, step) < |words|
            && var here, next := Window(words, k, maxWords, step), Window(words, k + 1, maxWords, step);
               |here| == maxWords && |next| > shared && here[maxWords - shared..] == next[..shared]
  {
    var maxWords, step := MaxWords(maxTokens), StepOf(maxTokens, overlap);
    WindowsFit(|words|, maxWords, step, k);
    WindowsFit(|words|, maxWords, step, k + 1);
    var a := Start(k, step);
    var shared := Min(OverlapWords(overlap), maxWords - 1);
    assert Start(k + 1, step) == a + step && step + shared == maxWords;
    SharedSlice(words, a, step, shared, Min(a + step + maxWords, |words|));
  }

  /** All words of a list of chunks, one after the other. */
  function AllSplit(chunks: seq<string>): seq<string> {
    if chunks == [] then [] else AllSplit(chunks[..|chunks| - 1]) + Split(chunks[|chunks| - 1])
  }

  lemma SnocLast(a: seq<string>, b: seq<string>, last: string)
    ensures a + (b + [last]) == (a + b) + [last]
  {
  }

  lemma AllSplitConcatOne(a: seq<string>, b: seq<string>, last: string)
    requires AllSplit(a + b) == AllSplit(a) + AllSplit(b)
    ensures AllSplit(a + (b + [last])) == AllSplit(a) + AllSplit(b + [last])
  {
    SnocLast(a, b, last);
    AllSplitSnoc(a + b, last);
    AllSplitSnoc(b, last);
  }

  lemma {:induction false} AllSplitConcat(a: seq<string>, b: seq<string>)
    ensures AllSplit(a + b) == AllSplit(a) + AllSplit(b)
  {
    if b == [] {
      assert a + b == a;
    } else {
      var front, last := b[..|b| - 1], b[|b| - 1];
      assert b == front + [last];
      AllSplitConcat(a, front);
      AllSplitConcatOne(a, front, last);
    }
  }

  lemma SliceSplits(words: seq<string>, a: nat, b: nat)
    requires AllWords(words) && a <= b <= |words|
    ensures Split(Join(words[a..b])) == words[a..b]
  {
    SplitOfJoin(words[a..b]);
  }

  lemma AllSplitSnoc(chunks: seq<string>, last: string)
    ensures AllSplit(chunks + [last]) == AllSplit(chunks) + Split(last)
  {
    assert (chunks + [last])[..|chunks|] == chunks;
  }

  lemma AllSplitOne(only: string)
    ensures AllSplit([only]) == Split(only)
  {
    var none: seq<string> := [];
    AllSplitSnoc(none, only);
    assert none + [only] == [only];
    assert AllSplit(none) == [];
  }

  lemma TakeSnoc(chunks: seq<string>, m: nat)
    requires 0 < m <= |chunks|
    ensures AllSplit(chunks[..m]) == AllSplit(chunks[..m - 1]) + Split(chunks[m - 1])
  {
    assert chunks[..m] == chunks[..m - 1] + [chunks[m - 1]];
    AllSplitSnoc(chunks[..m - 1], chunks[m - 1]);
  }

  lemma WindowWords(text: string, words: seq<string>, k: nat, maxWords: nat, step: nat)
    requires AllWords(words) && IsWindow(text, words, k, maxWords, step)
    ensures Split(text) == words[Start(k, step)..Min(Start(k, step) + maxWords, |words|)]
  {
    SliceSplits(words, Start(k, step), Min(Start(k, step) + maxWords, |words|));
  }

  lemma OneMoreWindow(out: seq<string>, words: seq<string>, maxWords: nat, m: nat, a: nat, b: nat)
    requires 0 < m <= |out| && AllWords(words)
    requires IsWindow(out[m - 1], words, m - 1, maxWords, maxWords)
    requires a == Start(m - 1, maxWords) && b == Min(a + maxWords, |words|)
    requires AllSplit(out[..m - 1]) == words[..a]
    ensures AllSplit(out[..m]) == words[..b]
  {
    TakeSnoc(out, m);
    WindowWords(out[m - 1], words, m - 1, maxWords, maxWords);
    CutsMeet(words, a, b);
  }

  /** The words of the first `m` windows. */
  lemma {:induction false} DisjointWindows(out: seq<string>, words: seq<string>, maxWords: nat, m: nat)
    requires Windowed(out, words, maxWords, maxWords) && AllWords(words) && m <= |out|
    ensures AllSplit(out[..m]) == words[..Min(Start(m, maxWords), |words|)]
    decreases m
  {
    if m > 0 {
      DisjointWindows(out, words, maxWords, m - 1);
      var a := Start(m - 1, maxWords);
      assert IsWindow(out[m - 1], words, m - 1, maxWords, maxWords);
      assert Min(a, |words|) == a;
      OneMoreWindow(out, words, maxWords, m, a, Min(a + maxWords, |words|));
      assert Start(m, maxWords) == a + maxWords;
    }
  }

  lemma CutsMeet(words: seq<string>, a: nat, b: nat)
    requires a <= b <= |words|
    ensures words[..a] + words[a..b] == words[..b]
  {
  }

  /** With zero overlap the chunks' words, one after the other, are the text's words. */
  lemma NoOverlapKeepsWords(out: seq<string>, words: seq<string>, maxWords: nat)
    requires Windowed(out, words, maxWords, maxWords) && AllWords(words)
    requires |out| == WindowCount(|words|, maxWords, maxWords)
    ensures AllSplit(out) == words
  {
    DisjointWindows(out, words, maxWords, |out|);
    WindowsReachEnd(|words|, maxWords);
    TakeAll(out);
    TakeAll(words);
  }

  lemma WindowsReachEnd(n: nat, maxWords: nat)
    requires n > 0 && maxWords >= 1
    ensures Start(WindowCount(n, maxWords, maxWords), maxWords) >= n
  {
    WindowsFit(n, maxWords, maxWords, WindowCount(n, maxWords, maxWords) - 1);
  }

  lemma TakeAll(s: seq<string>)
    ensures s[..|s|] == s
  {
  }
}
