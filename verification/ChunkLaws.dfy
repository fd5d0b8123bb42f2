/** Where the cuts of each strategy fall. */
module ChunkLaws {
  import opened Words
  import opened WindowChunking
  import opened SemanticChunking
  import opened RecursiveChunking
  import opened Merging
  import opened ChunkText

  /** Limits in words: as many as fit, at 1.3 tokens a word, but at least one in a chunk. */
  lemma TokensToWords(maxTokens: int, overlap: int)
    ensures var n := MaxWords(maxTokens);
            n >= 1 && (13 * n <= 10 * maxTokens || n == 1) && 10 * maxTokens < 13 * (n + 1)
    ensures var n := OverlapWords(overlap);
            n >= 0 && (13 * n <= 10 * overlap || n == 0) && 10 * overlap < 13 * (n + 1)
  {
  }

  // ---------------------------------------------------------------------------
  // Fixed
  // ---------------------------------------------------------------------------

  lemma WindowWords(text: string, words: seq<string>, k: nat, max: nat, step: nat)
    requires AllWords(words) && max >= 1 && IsWindow(text, words, k, max, step)
    ensures Split(text) == words[Start(k, step)..Min(Start(k, step) + max, |words|)]
  {
    SliceSplits(words, Start(k, step), Min(Start(k, step) + max, |words|));
  }

  /** What the `k`-th of `n` chunks has of the words, and that the last one alone reaches
      their end. */
  predicate IsChunkOf(chunk: string, n: nat, words: seq<string>, k: nat, max: nat, step: nat) {
    var a := Start(k, step);
    && a < |words|
    && Split(chunk) == words[a..Min(a + max, |words|)]
    && (k == n - 1 <==> a + max >= |words|)
  }

  lemma WindowIsChunk(chunk: string, words: seq<string>, k: nat, max: nat, step: nat)
    requires AllWords(words) && words != [] && 1 <= step <= max && k < WindowCount(|words|, max, step)
    requires IsWindow(chunk, words, k, max, step)
    ensures IsChunkOf(chunk, WindowCount(|words|, max, step), words, k, max, step)
  {
    WindowsFit(|words|, max, step, k);
    WindowWords(chunk, words, k, max, step);
  }

  lemma PackedIsWindow(text: string, maxTokens: int, overlap: int, k: nat)
    requires k < |Packed(text, maxTokens, overlap)|
    ensures var words, max, step := Split(text), MaxWords(maxTokens), StepOf(maxTokens, overlap);
            && words != [] && |Packed(text, maxTokens, overlap)| == WindowCount(|words|, max, step)
            && IsWindow(Packed(text, maxTokens, overlap)[k], words, k, max, step)
  {
    WindowsFit(|Split(text)|, MaxWords(maxTokens), StepOf(maxTokens, overlap), k);
  }

  lemma PackedChunk(text: string, maxTokens: int, overlap: int, k: nat)
    requires k < |Packed(text, maxTokens, overlap)|
    ensures var chunks := Packed(text, maxTokens, overlap);
            IsChunkOf(chunks[k], |chunks|, Split(text), k, MaxWords(maxTokens), StepOf(maxTokens, overlap))
  {
    var words, max, step := Split(text), MaxWords(maxTokens), StepOf(maxTokens, overlap);
    PackedIsWindow(text, maxTokens, overlap, k);
    WindowIsChunk(Packed(text, maxTokens, overlap)[k], words, k, max, step);
  }

  /** Any other strategy slides a window over the words of the whole text: chunk `k` has
      the words from `k` steps on, at most `max`, and the last one alone reaches the end.
      (`Start(k, step)` is `k * step`.) */
  lemma FixedChunksAreWindows(text: string, maxTokens: int, overlap: int, strategy: string, k: nat)
    requires strategy != "recursive" && strategy != "semantic" && k < |Chunks(text, maxTokens, overlap, strategy)|
    ensures var max, shared := MaxWords(maxTokens), OverlapWords(overlap);
            var chunks := Chunks(text, maxTokens, overlap, strategy);
            IsChunkOf(chunks[k], |chunks|, Split(text), k, max, if shared < max then max - shared else 1)
  {
    PackedChunk(text, maxTokens, overlap, k);
  }

  lemma NoChunksIff(text: string, maxTokens: int, overlap: int, strategy: string)
    requires strategy != "recursive" && strategy != "semantic"
    ensures Chunks(text, maxTokens, overlap, strategy) == [] <==> Blank(text)
  {
    SplitIsEmpty(text);
  }

  // ---------------------------------------------------------------------------
  // Semantic
  // ---------------------------------------------------------------------------

  lemma {:induction false} FromBlock(blocks: seq<string>, maxTokens: int, overlap: int, c: string) returns (b: nat)
    requires c in PackedBlocks(blocks, maxTokens, overlap)
    ensures b < |blocks| && c in Packed(blocks[b], maxTokens, overlap)
  {
    b := |blocks| - 1;
    var front := PackedBlocks(blocks[..b], maxTokens, overlap);
    if c in front {
      b := FromBlock(blocks[..b], maxTokens, overlap, c);
    } else {
      OneMoreBlock(blocks, maxTokens, overlap);
    }
  }

  lemma OneMoreBlock(blocks: seq<string>, maxTokens: int, overlap: int)
    requires blocks != []
    ensures var n := |blocks| - 1;
            PackedBlocks(blocks, maxTokens, overlap)
            == PackedBlocks(blocks[..n], maxTokens, overlap) + Packed(blocks[n], maxTokens, overlap)
  {
  }

  lemma {:induction false} IntoBlocks(blocks: seq<string>, maxTokens: int, overlap: int, b: nat, c: string)
    requires b < |blocks| && c in Packed(blocks[b], maxTokens, overlap)
    ensures c in PackedBlocks(blocks, maxTokens, overlap)
  {
    OneMoreBlock(blocks, maxTokens, overlap);
    if b < |blocks| - 1 {
      IntoBlocks(blocks[..|blocks| - 1], maxTokens, overlap, b, c);
    }
  }

  lemma FixedIsPacked(text: string, maxTokens: int, overlap: int)
    ensures Chunks(text, maxTokens, overlap, "fixed") == Packed(text, maxTokens, overlap)
  {
    assert "fixed"[0] == 'f' && "recursive"[0] == 'r' && "semantic"[0] == 's';
  }

  lemma SemanticIsPacked(text: string, maxTokens: int, overlap: int)
    ensures Chunks(text, maxTokens, overlap, "semantic") == PackedBlocks(SemanticBlocks(text), maxTokens, overlap)
  {
    assert "recursive"[0] == 'r' && "semantic"[0] == 's';
  }

  /** Some block has the chunk among the fixed chunks of its own. */
  predicate InSomeBlock(blocks: seq<string>, maxTokens: int, overlap: int, c: string) {
    exists b :: 0 <= b < |blocks| && c in Chunks(blocks[b], maxTokens, overlap, "fixed")
  }

  lemma PackedInSomeBlock(blocks: seq<string>, maxTokens: int, overlap: int, c: string)
    requires c in PackedBlocks(blocks, maxTokens, overlap)
    ensures InSomeBlock(blocks, maxTokens, overlap, c)
  {
    var b := FromBlock(blocks, maxTokens, overlap, c);
    FixedIsPacked(blocks[b], maxTokens, overlap);
  }

  lemma SomeBlockIsPacked(blocks: seq<string>, maxTokens: int, overlap: int, c: string)
    requires InSomeBlock(blocks, maxTokens, overlap, c)
    ensures c in PackedBlocks(blocks, maxTokens, overlap)
  {
    var b :| 0 <= b < |blocks| && c in Chunks(blocks[b], maxTokens, overlap, "fixed");
    FixedIsPacked(blocks[b], maxTokens, overlap);
    IntoBlocks(blocks, maxTokens, overlap, b, c);
  }

  /** The semantic chunks are the fixed ones of every single block: none reaches from one
      block into another. */
  lemma SemanticChunksStayInBlocks(text: string, maxTokens: int, overlap: int, c: string)
    ensures c in Chunks(text, maxTokens, overlap, "semantic") <==>
            InSomeBlock(SemanticBlocks(text), maxTokens, overlap, c)
  {
    var blocks := SemanticBlocks(text);
    SemanticIsPacked(text, maxTokens, overlap);
    if c in PackedBlocks(blocks, maxTokens, overlap) {
      PackedInSomeBlock(blocks, maxTokens, overlap, c);
    }
    if InSomeBlock(blocks, maxTokens, overlap, c) {
      SomeBlockIsPacked(blocks, maxTokens, overlap, c);
    }
  }

  predicate HashesFrom(s: string, p: nat, n: nat) {
    p + n <= |s| && forall i :: p <= i < p + n ==> s[i] == '#'
  }

  /** A heading: at the start of a line, one to six hashes and whitespace after them. */
  lemma HeadingIff(s: string, p: nat)
    ensures HeadingAt(s, p) <==>
              && p < |s| && (p == 0 || s[p - 1] == '\n')
              && exists n :: 1 <= n <= 6 && HashesFrom(s, p, n) && p + n < |s| && IsSpace(s[p + n])
  {
    if p < |s| {
      var rest, m := s[p..], Hashes(s[p..]);
      assert forall i :: 0 <= i < |rest| ==> rest[i] == s[p + i];
      assert HashesFrom(s, p, m);
      if n :| 1 <= n <= 6 && HashesFrom(s, p, n) && p + n < |s| && IsSpace(s[p + n]) {
        assert rest[n] != '#';
        assert m < |rest| ==> rest[m] != '#';
        assert n == m;
      }
    }
  }

  // ---------------------------------------------------------------------------
  // Recursive
  // ---------------------------------------------------------------------------

  lemma ContainsIff(s: string, sep: string)
    requires sep != ""
    ensures Contains(s, sep) <==> exists i: nat :: OccursAt(s, sep, i)
  {
    if i: nat :| OccursAt(s, sep, i) {
      FindIsFirst(s, sep, 0, i);
    }
  }

  lemma FirstCut(s: string, sep: string, i: nat)
    requires sep != "" && Find(s, sep, 0) < |s| && i < Find(s, sep, 0)
    ensures !OccursAt(s[..Find(s, sep, 0)] + sep, sep, i)
  {
    var n := Find(s, sep, 0);
    if OccursAt(s[..n] + sep, sep, i) {
      assert s[..n] + sep == s[0..n + |sep|];
      OccursInWhole(s, 0, n + |sep|, sep, i);
      FindIsFirst(s, sep, 0, i);
    }
  }

  /** The cuts come from the left: no separator starts in a part, not even one that the
      next separator completes. */
  lemma {:induction false} CutsComeFirst(s: string, sep: string)
    requires sep != ""
    ensures forall k, i: nat :: 0 <= k < |Cut(s, sep)| - 1 && i < |Cut(s, sep)[k]| ==>
              !OccursAt(Cut(s, sep)[k] + sep, sep, i)
    decreases |s|
  {
    var n := Find(s, sep, 0);
    if n < |s| {
      CutsComeFirst(s[n + |sep|..], sep);
      forall i: nat | i < n ensures !OccursAt(s[..n] + sep, sep, i) {
        FirstCut(s, sep, i);
      }
    }
  }

  /** The separators tried for a cut, from the coarsest to the finest. */
  function Separator(level: nat): (sep: string)
    requires level < 4
    ensures sep != ""
  {
    if level == 0 then "\n\n" else if level == 1 then "\n" else if level == 2 then ". " else " "
  }

  predicate Lacks(text: string, level: nat)
    requires level <= 4
  {
    forall j: nat :: j < level ==> !Contains(text, Separator(j))
  }

  lemma SeparatorsInOrder(level: nat)
    requires level < 4
    ensures SEPARATORS[level] == Separator(level) && SEPARATORS[level..][0] == Separator(level)
    ensures SEPARATORS[level..][1..] == SEPARATORS[level + 1..]
  {
  }

  /** Separators that do not occur make no difference. */
  lemma {:induction false} LackedIsSkipped(text: string, level: nat, max: nat)
    requires max > 0 && level <= 4 && Lacks(text, level)
    ensures Pieces(text, SEPARATORS, max) == Pieces(text, SEPARATORS[level..], max)
  {
    if level == 0 {
      assert SEPARATORS[0..] == SEPARATORS;
    } else {
      LackedIsSkipped(text, level - 1, max);
      SeparatorsInOrder(level - 1);
      assert !Contains(text, Separator(level - 1));
    }
  }

  lemma SliceLacks(s: string, a: nat, b: nat, sep: string)
    requires sep != "" && a <= b <= |s| && !Contains(s, sep)
    ensures !Contains(s[a..b], sep)
  {
    if Contains(s[a..b], sep) {
      var j := Find(s[a..b], sep, 0);
      OccursInWhole(s, a, b, sep, j);
      FindIsFirst(s, sep, 0, a + j);
    }
  }

  /** No part of a text has a separator that the text lacks. */
  lemma {:induction false} PartsLack(s: string, cut: string, sep: string)
    requires cut != "" && sep != "" && !Contains(s, sep)
    ensures forall k :: 0 <= k < |Cut(s, cut)| ==> !Contains(Cut(s, cut)[k], sep)
    decreases |s|
  {
    var i := Find(s, cut, 0);
    if i < |s| {
      SliceLacks(s, 0, i, sep);
      SliceLacks(s, i + |cut|, |s|, sep);
      assert s[0..i] == s[..i] && s[i + |cut|..|s|] == s[i + |cut|..];
      PartsLack(s[i + |cut|..], cut, sep);
    }
  }

  lemma PartsLackMore(text: string, level: nat)
    requires level < 4 && Lacks(text, level)
    ensures forall k :: 0 <= k < |Cut(text, Separator(level))| ==> Lacks(Cut(text, Separator(level))[k], level + 1)
  {
    var parts := Cut(text, Separator(level));
    CutIsSplit(text, Separator(level));
    forall k, j: nat | 0 <= k < |parts| && j < level + 1 ensures !Contains(parts[k], Separator(j)) {
      if j < level {
        PartsLack(text, Separator(level), Separator(j));
      }
    }
  }

  lemma {:induction false} PartsOnTheirOwn(parts: seq<string>, level: nat, max: nat)
    requires max > 0 && level <= 4 && forall k :: 0 <= k < |parts| ==> Lacks(parts[k], level)
    ensures PiecesOfParts(parts, SEPARATORS, max) == PiecesOfParts(parts, SEPARATORS[level..], max)
  {
    if parts != [] {
      var n := |parts| - 1;
      assert forall k :: 0 <= k < n ==> parts[..n][k] == parts[k];
      PartsOnTheirOwn(parts[..n], level, max);
      LackedIsSkipped(parts[n], level, max);
    }
  }

  lemma {:induction false} PieceOfPart(parts: seq<string>, max: nat, k: nat, piece: string)
    requires max > 0 && k < |parts| && piece in Pieces(parts[k], SEPARATORS, max)
    ensures piece in PiecesOfParts(parts, SEPARATORS, max)
  {
    var n := |parts| - 1;
    if k < n {
      assert parts[..n][k] == parts[k];
      PieceOfPart(parts[..n], max, k, piece);
    }
  }

  /** A text that fits is one piece; a longer one is cut at the coarsest separator that
      occurs in it, and its pieces are those of its parts, one after the other. So every
      part that fits stays whole. */
  lemma CoarsestFirst(text: string, level: nat, max: nat)
    requires max > 0 && level < 4 && |Split(text)| > max && Lacks(text, level) && Contains(text, Separator(level))
    ensures var parts := Cut(text, Separator(level));
            && Pieces(text, SEPARATORS, max) == PiecesOfParts(parts, SEPARATORS, max)
            && forall k :: 0 <= k < |parts| && 1 <= |Split(parts[k])| <= max ==>
                 Strip(parts[k]) in Pieces(text, SEPARATORS, max)
  {
    var parts := Cut(text, Separator(level));
    SplitIsEmpty(text);
    LackedIsSkipped(text, level, max);
    SeparatorsInOrder(level);
    PartsLackMore(text, level);
    PartsOnTheirOwn(parts, level + 1, max);
    forall k | 0 <= k < |parts| && 1 <= |Split(parts[k])| <= max
      ensures Strip(parts[k]) in Pieces(text, SEPARATORS, max)
    {
      SplitIsEmpty(parts[k]);
      assert Pieces(parts[k], SEPARATORS, max) == [Strip(parts[k])];
      PieceOfPart(parts, max, k, Strip(parts[k]));
    }
  }

  /** A text without any separator, such as words between tabs, is cut into groups of
      `max` words. */
  lemma GroupsAtLast(text: string, max: nat)
    requires max > 0 && |Split(text)| > max && Lacks(text, 4)
    ensures Pieces(text, SEPARATORS, max) == Groups(Split(text), max)
  {
    SplitIsEmpty(text);
    LackedIsSkipped(text, 4, max);
    assert SEPARATORS[4..][0] == "";
  }

  lemma SliceOfRest(words: seq<string>, max: nat, a: nat)
    requires max + a <= |words|
    ensures words[max..][a..Min(a + max, |words| - max)] == words[a + max..Min(a + max + max, |words|)]
  {
  }

  lemma {:induction false} GroupIsSlice(words: seq<string>, max: nat, g: nat)
    requires max > 0 && AllWords(words) && g < |Groups(words, max)|
    ensures Start(g, max) < |words|
    ensures Split(Groups(words, max)[g]) == words[Start(g, max)..Min(Start(g, max) + max, |words|)]
    ensures Start(g, max) + max >= |words| <==> g == |Groups(words, max)| - 1
  {
    if |words| <= max {
      SplitOfJoin(words);
      assert words[0..|words|] == words;
    } else if g == 0 {
      SplitOfJoin(words[..max]);
    } else {
      var rest := words[max..];
      GroupIsSlice(rest, max, g - 1);
      SliceOfRest(words, max, Start(g - 1, max));
    }
  }

  /** The recursive chunks are the greedy merge of the pieces, word for word. */
  lemma RecursiveChunksAreMerged(text: string, maxTokens: int, overlap: int) returns (starts: seq<nat>)
    ensures var pieces := WordsOf(Pieces(text, SEPARATORS, MaxWords(maxTokens)));
            var chunks := Chunks(text, maxTokens, overlap, "recursive");
            Greedy(pieces, |pieces|, WordsOf(chunks), starts, MaxWords(maxTokens), OverlapWords(overlap))
  {
    var chunks, merged := Chunks(text, maxTokens, overlap, "recursive"), RecursiveChunks(text, maxTokens, overlap);
    starts := RecursiveKeepsText(text, maxTokens, overlap);
    forall k | 0 <= k < |merged| ensures Split(chunks[k]) == merged[k] {
      RecursiveChunkWords(text, maxTokens, overlap, k);
    }
    assert WordsOf(chunks) == merged;
  }

  // ---------------------------------------------------------------------------
  // Whitespace
  // ---------------------------------------------------------------------------

  /** The only whitespace is single spaces between other characters. */
  predicate SingleSpaced(s: string) {
    forall i :: 0 <= i < |s| && IsSpace(s[i]) ==>
      s[i] == ' ' && 0 < i < |s| - 1 && !IsSpace(s[i - 1]) && !IsSpace(s[i + 1])
  }

  lemma SpacedBehindWord(w: string, rest: string)
    requires IsWord(w) && rest != "" && !IsSpace(rest[0]) && SingleSpaced(rest)
    ensures SingleSpaced(w + " " + rest)
  {
    var s := w + " " + rest;
    assert forall i | 0 <= i < |w| :: s[i] == w[i];
    forall i | 0 <= i < |s| && IsSpace(s[i])
      ensures s[i] == ' ' && 0 < i < |s| - 1 && !IsSpace(s[i - 1]) && !IsSpace(s[i + 1])
    {
      if i > |w| {
        var j := i - |w| - 1;
        assert s[i] == rest[j];
        assert 0 < j < |rest| - 1 && s[i - 1] == rest[j - 1] && s[i + 1] == rest[j + 1];
      } else {
        assert s[i - 1] == w[|w| - 1] && s[i + 1] == rest[0];
      }
    }
  }

  lemma {:induction false} JoinIsSingleSpaced(words: seq<string>)
    requires AllWords(words)
    ensures SingleSpaced(Join(words))
    ensures words != [] ==> Join(words) != "" && !IsSpace(Join(words)[0])
  {
    if |words| == 1 {
      assert IsWord(words[0]);
    } else if words != [] {
      var rest := words[1..];
      assert forall i :: 0 <= i < |rest| ==> rest[i] == words[i + 1];
      JoinIsSingleSpaced(rest);
      SpacedBehindWord(words[0], Join(rest));
      assert IsWord(words[0]) && Join(words)[0] == words[0][0];
    }
  }

  lemma PackedIsSingleSpaced(text: string, maxTokens: int, overlap: int, c: string)
    requires c in Packed(text, maxTokens, overlap)
    ensures SingleSpaced(c)
  {
    var k :| 0 <= k < |Packed(text, maxTokens, overlap)| && Packed(text, maxTokens, overlap)[k] == c;
    PackedIsWindow(text, maxTokens, overlap, k);
    JoinIsSingleSpaced(Window(Split(text), k, MaxWords(maxTokens), StepOf(maxTokens, overlap)));
  }

  /** In a chunk of any strategy the words stand one space apart, with nothing around
      them: so its words determine it. */
  lemma ChunksAreSingleSpaced(text: string, maxTokens: int, overlap: int, strategy: string, c: string)
    requires c in Chunks(text, maxTokens, overlap, strategy)
    ensures SingleSpaced(c)
  {
    if strategy == "recursive" {
      var chunks, pieces := RecursiveChunks(text, maxTokens, overlap), PieceWords(text, maxTokens);
      var k :| 0 <= k < |chunks| && Joined(chunks)[k] == c;
      PieceWordsFit(text, maxTokens);
      MergedAreWords(pieces, |pieces|, MaxWords(maxTokens), OverlapWords(overlap));
      JoinIsSingleSpaced(chunks[k]);
    } else if strategy == "semantic" {
      var b := FromBlock(SemanticBlocks(text), maxTokens, overlap, c);
      PackedIsSingleSpaced(SemanticBlocks(text)[b], maxTokens, overlap, c);
    } else {
      PackedIsSingleSpaced(text, maxTokens, overlap, c);
    }
  }
}
