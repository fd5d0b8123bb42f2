/** The three chunking strategies put together. */
module ChunkText {
  import opened Words
  import opened WindowChunking
  import opened SemanticChunking
  import opened RecursiveChunking
  import opened Merging

  /** The windows of a text. */
  function Packed(text: string, maxTokens: int, overlap: int): (out: seq<string>)
  {
    var words := Split(text);
    var max, step := MaxWords(maxTokens), StepOf(maxTokens, overlap);
    if words == [] then []
    else
      seq(WindowCount(|words|, max, step), k requires 0 <= k < WindowCount(|words|, max, step) =>
        WindowsFit(|words|, max, step, k);
        Join(Window(words, k, max, step)))
  }

  /** The windows of several blocks. */
  function PackedBlocks(blocks: seq<string>, maxTokens: int, overlap: int): seq<string> {
    if blocks == [] then []
    else PackedBlocks(blocks[..|blocks| - 1], maxTokens, overlap) + Packed(blocks[|blocks| - 1], maxTokens, overlap)
  }

  function PieceWords(text: string, maxTokens: int): seq<Piece> {
    WordsOf(Pieces(text, SEPARATORS, MaxWords(maxTokens)))
  }

  function RecursiveChunks(text: string, maxTokens: int, overlap: int): seq<seq<string>> {
    Merge(PieceWords(text, maxTokens), MaxWords(maxTokens), OverlapWords(overlap))
  }

  /** The chunks of a text under a strategy. */
  function Chunks(text: string, maxTokens: int, overlap: int, strategy: string): seq<string> {
    if strategy == "recursive" then Joined(RecursiveChunks(text, maxTokens, overlap))
    else if strategy == "semantic" then PackedBlocks(SemanticBlocks(text), maxTokens, overlap)
    else Packed(text, maxTokens, overlap)
  }

  method Pack(text: string, maxTokens: int, overlap: int) returns (out: seq<string>)
    ensures out == Packed(text, maxTokens, overlap)
  {
    out := PackWords(text, maxTokens, overlap);
    var words := Split(text);
    if words != [] {
      var max, step := MaxWords(maxTokens), StepOf(maxTokens, overlap);
      var packed := Packed(text, maxTokens, overlap);
      assert |out| == |packed|;
      forall k | 0 <= k < |out| ensures out[k] == packed[k] {
        assert IsWindow(out[k], words, k, max, step);
      }
    }
  }

  method RecursiveSplit(text: string, maxTokens: int, overlap: int) returns (out: seq<string>)
    ensures out == Joined(RecursiveChunks(text, maxTokens, overlap))
  {
    var pieces := SplitOnSeparators(text, SEPARATORS, MaxWords(maxTokens));
    out := MergePieces(pieces, MaxWords(maxTokens), OverlapWords(overlap));
  }

  method PackBlocks(blocks: seq<string>, maxTokens: int, overlap: int) returns (out: seq<string>)
    ensures out == PackedBlocks(blocks, maxTokens, overlap)
  {
    out := [];
    for k := 0 to |blocks|
      invariant out == PackedBlocks(blocks[..k], maxTokens, overlap)
    {
      assert blocks[..k + 1][..k] == blocks[..k];
      var packed := Pack(blocks[k], maxTokens, overlap);
      out := out + packed;
    }
    TakeAll(blocks);
  }

  /** The dispatch and the final filter, which never drops a chunk. */
  method SplitText(text: string, maxTokens: int, overlap: int, strategy: string) returns (out: seq<string>)
    ensures out == Chunks(text, maxTokens, overlap, strategy)
  {
    var chunks;
    if strategy == "recursive" {
      chunks := RecursiveSplit(text, maxTokens, overlap);
    } else if strategy == "semantic" {
      var blocks := CollectBlocks(text);
      chunks := PackBlocks(blocks, maxTokens, overlap);
    } else {
      chunks := Pack(text, maxTokens, overlap);
    }
    out := DropBlank(chunks);
    NothingToDrop(text, maxTokens, overlap, strategy);
  }

  lemma NothingToDrop(text: string, maxTokens: int, overlap: int, strategy: string)
    ensures Inked(Chunks(text, maxTokens, overlap, strategy)) == Chunks(text, maxTokens, overlap, strategy)
  {
    var chunks := Chunks(text, maxTokens, overlap, strategy);
    forall k | 0 <= k < |chunks| ensures !Blank(chunks[k]) {
      ChunkHasWords(text, maxTokens, overlap, strategy, k);
      SplitIsEmpty(chunks[k]);
    }
    InkedOfInked(chunks);
  }

  lemma {:induction false} InkedOfInked(chunks: seq<string>)
    requires forall k :: 0 <= k < |chunks| ==> !Blank(chunks[k])
    ensures Inked(chunks) == chunks
  {
    if chunks != [] {
      InkedOfInked(chunks[..|chunks| - 1]);
    }
  }

  // ---------------------------------------------------------------------------
  // Sizes
  // ---------------------------------------------------------------------------

  predicate Sized(chunk: string, max: nat) {
    1 <= |Split(chunk)| <= max
  }

  lemma WindowSized(text: string, words: seq<string>, k: nat, max: nat, step: nat)
    requires AllWords(words) && max >= 1 && IsWindow(text, words, k, max, step)
    ensures Sized(text, max)
  {
    var a := Start(k, step);
    SliceSplits(words, a, Min(a + max, |words|));
  }

  lemma PackedSized(text: string, maxTokens: int, overlap: int, k: nat)
    requires k < |Packed(text, maxTokens, overlap)|
    ensures Sized(Packed(text, maxTokens, overlap)[k], MaxWords(maxTokens))
  {
    var words := Split(text);
    var max, step := MaxWords(maxTokens), StepOf(maxTokens, overlap);
    WindowsFit(|words|, max, step, k);
    WindowSized(Packed(text, maxTokens, overlap)[k], words, k, max, step);
  }

  predicate AllSized(chunks: seq<string>, max: nat) {
    forall k :: 0 <= k < |chunks| ==> Sized(chunks[k], max)
  }

  lemma AllSizedConcat(a: seq<string>, b: seq<string>, max: nat)
    requires AllSized(a, max) && AllSized(b, max)
    ensures AllSized(a + b, max)
  {
  }

  lemma {:induction false} PackedBlocksSized(blocks: seq<string>, maxTokens: int, overlap: int)
    ensures AllSized(PackedBlocks(blocks, maxTokens, overlap), MaxWords(maxTokens))
  {
    if blocks != [] {
      var front, last := blocks[..|blocks| - 1], blocks[|blocks| - 1];
      var packed := Packed(last, maxTokens, overlap);
      PackedBlocksSized(front, maxTokens, overlap);
      forall k | 0 <= k < |packed| ensures Sized(packed[k], MaxWords(maxTokens)) {
        PackedSized(last, maxTokens, overlap, k);
      }
      AllSizedConcat(PackedBlocks(front, maxTokens, overlap), packed, MaxWords(maxTokens));
    }
  }

  lemma PieceWordsFit(text: string, maxTokens: int)
    ensures NoneEmpty(PieceWords(text, maxTokens))
    ensures forall k :: 0 <= k < |PieceWords(text, maxTokens)| ==>
              |PieceWords(text, maxTokens)[k]| <= MaxWords(maxTokens) && AllWords(PieceWords(text, maxTokens)[k])
  {
    var max := MaxWords(maxTokens);
    var pieces := Pieces(text, SEPARATORS, max);
    PiecesFit(text, SEPARATORS, max);
    assert forall k :: 0 <= k < |pieces| ==> Fits(pieces[k], max);
  }

  lemma {:induction false} MergedAreWords(pieces: seq<Piece>, n: nat, max: nat, overlap: nat)
    requires n <= |pieces| && forall k :: 0 <= k < |pieces| ==> AllWords(pieces[k])
    ensures AllWords(After(pieces, n, max, overlap).cur)
    ensures forall k :: 0 <= k < |After(pieces, n, max, overlap).done| ==>
        AllWords(After(pieces, n, max, overlap).done[k])
  {
    if n > 0 {
      MergedAreWords(pieces, n - 1, max, overlap);
    }
  }

  /** A recursive chunk splits into exactly the words the merger put into it. */
  lemma RecursiveChunkWords(text: string, maxTokens: int, overlap: int, k: nat)
    requires k < |RecursiveChunks(text, maxTokens, overlap)|
    ensures Split(Join(RecursiveChunks(text, maxTokens, overlap)[k])) == RecursiveChunks(text, maxTokens, overlap)[k]
  {
    var pieces := PieceWords(text, maxTokens);
    PieceWordsFit(text, maxTokens);
    MergedAreWords(pieces, |pieces|, MaxWords(maxTokens), OverlapWords(overlap));
    SplitOfJoin(RecursiveChunks(text, maxTokens, overlap)[k]);
  }

  /** The most words a chunk of a strategy can have. */
  function Limit(maxTokens: int, overlap: int, strategy: string): nat {
    if strategy == "recursive" then MaxWords(maxTokens) + OverlapWords(overlap) else MaxWords(maxTokens)
  }

  /** Every chunk has at least one word and at most the strategy's limit, which is
      `max` words without overlap. */
  lemma ChunkHasWords(text: string, maxTokens: int, overlap: int, strategy: string, k: nat)
    requires k < |Chunks(text, maxTokens, overlap, strategy)|
    ensures Sized(Chunks(text, maxTokens, overlap, strategy)[k], Limit(maxTokens, overlap, strategy))
  {
    if strategy == "recursive" {
      var chunks := RecursiveChunks(text, maxTokens, overlap);
      RecursiveChunkWords(text, maxTokens, overlap, k);
      PieceWordsFit(text, maxTokens);
      ChunksAreBounded(PieceWords(text, maxTokens), MaxWords(maxTokens), OverlapWords(overlap));
      assert chunks[k] in chunks;
    } else if strategy == "semantic" {
      PackedBlocksSized(SemanticBlocks(text), maxTokens, overlap);
    } else {
      PackedSized(text, maxTokens, overlap, k);
    }
  }

  // ---------------------------------------------------------------------------
  // Content
  // ---------------------------------------------------------------------------

  lemma PackedKeepsWords(text: string, maxTokens: int, overlap: int)
    requires OverlapWords(overlap) == 0
    ensures AllSplit(Packed(text, maxTokens, overlap)) == Split(text)
  {
    var words := Split(text);
    if words != [] {
      var packed := Packed(text, maxTokens, overlap);
      var max := MaxWords(maxTokens);
      forall k | 0 <= k < |packed| ensures IsWindow(packed[k], words, k, max, max) {
        WindowsFit(|words|, max, max, k);
      }
      NoOverlapKeepsWords(packed, words, max);
    }
  }

  lemma {:induction false} PackedBlocksKeepWords(blocks: seq<string>, maxTokens: int, overlap: int)
    requires OverlapWords(overlap) == 0
    ensures AllSplit(PackedBlocks(blocks, maxTokens, overlap)) == AllSplit(blocks)
  {
    if blocks != [] {
      var front, last := blocks[..|blocks| - 1], blocks[|blocks| - 1];
      PackedBlocksKeepWords(front, maxTokens, overlap);
      PackedKeepsWords(last, maxTokens, overlap);
      AllSplitConcat(PackedBlocks(front, maxTokens, overlap), Packed(last, maxTokens, overlap));
    }
  }

  /** With zero overlap the words of the fixed or semantic chunks, one after the other,
      are exactly the words of the text. */
  lemma WindowsKeepWords(text: string, maxTokens: int, overlap: int, strategy: string)
    requires OverlapWords(overlap) == 0 && strategy != "recursive"
    ensures AllSplit(Chunks(text, maxTokens, overlap, strategy)) == Split(text)
  {
    if strategy == "semantic" {
      PackedBlocksKeepWords(SemanticBlocks(text), maxTokens, overlap);
      SemanticBlocksKeepWords(text);
    } else {
      PackedKeepsWords(text, maxTokens, overlap);
    }
  }

  lemma {:induction false} PieceWordsAreAllSplit(pieces: seq<string>, n: nat)
    requires n <= |pieces|
    ensures WordsBetween(WordsOf(pieces), 0, n) == AllSplit(pieces[..n])
  {
    if n > 0 {
      PieceWordsAreAllSplit(pieces, n - 1);
      assert pieces[..n][..n - 1] == pieces[..n - 1];
    }
  }

  lemma {:induction false} InkOfAllSplit(pieces: seq<string>)
    ensures InkOfAll(AllSplit(pieces)) == InkOfAll(pieces)
  {
    if pieces != [] {
      var front, last := pieces[..|pieces| - 1], pieces[|pieces| - 1];
      InkOfAllSplit(front);
      InkOfAllConcat(AllSplit(front), Split(last));
      InkOfSplit(last);
      InkOfAllConcat(front, [last]);
      InkOfOne(last);
      assert pieces == front + [last];
    }
  }

  lemma SeparatorsAreInkless()
    ensures forall k :: 0 <= k < |SEPARATORS| ==> Inkless(SEPARATORS[k])
    ensures |SEPARATORS| == 5 && SEPARATORS[4] == ""
  {
  }

  lemma SeparatorsAreHarmless(text: string)
    requires !Contains(text, ". ")
    ensures AllHarmless(SEPARATORS, text)
  {
    forall k | 0 <= k < |SEPARATORS| ensures Harmless(SEPARATORS[k], text) {
      if k == 2 {
      } else if k == 4 {
      } else {
        assert Blank(SEPARATORS[k]);
      }
    }
  }

  /** The words of the pieces: the ink of the text, and exactly its words if it has no
      full stop followed by a space. */
  lemma PieceWordsKeepText(text: string, maxTokens: int)
    ensures var pieces := PieceWords(text, maxTokens);
            && InkOfAll(WordsBetween(pieces, 0, |pieces|)) == Ink(text)
            && (!Contains(text, ". ") ==> WordsBetween(pieces, 0, |pieces|) == Split(text))
  {
    var max := MaxWords(maxTokens);
    var pieces := Pieces(text, SEPARATORS, max);
    PieceWordsAreAllSplit(pieces, |pieces|);
    TakeAll(pieces);
    InkOfAllSplit(pieces);
    SeparatorsAreInkless();
    PiecesKeepInk(text, SEPARATORS, max);
    if !Contains(text, ". ") {
      SeparatorsAreHarmless(text);
      PiecesKeepWords(text, SEPARATORS, max);
    }
  }

  /** Recursive chunks: each is a tail of the chunk before it, of at most `overlap`
      words, and at least one fresh word; the fresh words of all chunks carry the whole
      ink of the text in order, and are exactly its words if it has no full stop followed
      by a space. */
  lemma RecursiveKeepsText(text: string, maxTokens: int, overlap: int) returns (starts: seq<nat>)
    ensures var pieces, max, ov := PieceWords(text, maxTokens), MaxWords(maxTokens), OverlapWords(overlap);
            var chunks := RecursiveChunks(text, maxTokens, overlap);
            && Greedy(pieces, |pieces|, chunks, starts, max, ov)
            && var news := FreshWords(pieces, chunks, starts, max, ov, |chunks|);
               && InkOfAll(news) == Ink(text)
               && (!Contains(text, ". ") ==> news == Split(text))
  {
    var pieces, max, ov := PieceWords(text, maxTokens), MaxWords(maxTokens), OverlapWords(overlap);
    PieceWordsFit(text, maxTokens);
    PieceWordsKeepText(text, maxTokens);
    starts := MergeIsGreedy(pieces, max, ov);
    FreshIsEverything(pieces, RecursiveChunks(text, maxTokens, overlap), starts, max, ov);
  }

  lemma FreshStep(pieces: seq<Piece>, chunks: seq<seq<string>>, starts: seq<nat>, max: nat, m: nat)
    requires Greedy(pieces, |pieces|, chunks, starts, max, 0) && 0 < m <= |chunks|
    ensures FreshWords(pieces, chunks, starts, max, 0, m)
        == FreshWords(pieces, chunks, starts, max, 0, m - 1) + chunks[m - 1]
  {
    assert Carried(chunks, m - 1, 0) == [];
    assert chunks[m - 1][0..] == chunks[m - 1];
  }

  lemma FreshPlusOne(pieces: seq<Piece>, chunks: seq<seq<string>>, starts: seq<nat>, max: nat, texts: seq<string>,
                     m: nat)
    requires Greedy(pieces, |pieces|, chunks, starts, max, 0) && 0 < m <= |chunks| == |texts|
    requires Split(texts[m - 1]) == chunks[m - 1]
    requires AllSplit(texts[..m - 1]) == FreshWords(pieces, chunks, starts, max, 0, m - 1)
    ensures AllSplit(texts[..m]) == FreshWords(pieces, chunks, starts, max, 0, m)
  {
    FreshStep(pieces, chunks, starts, max, m);
    TakeSnoc(texts, m);
  }

  lemma NothingTaken(texts: seq<string>)
    ensures AllSplit(texts[..0]) == []
  {
  }

  lemma {:induction false} FreshIsAllWithoutOverlap(pieces: seq<Piece>, chunks: seq<seq<string>>, starts: seq<nat>,
                                                    max: nat, texts: seq<string>, m: nat)
    requires Greedy(pieces, |pieces|, chunks, starts, max, 0) && m <= |chunks| == |texts|
    requires forall k :: 0 <= k < |chunks| ==> Split(texts[k]) == chunks[k]
    ensures AllSplit(texts[..m]) == FreshWords(pieces, chunks, starts, max, 0, m)
  {
    if m == 0 {
      NothingTaken(texts);
    } else {
      FreshIsAllWithoutOverlap(pieces, chunks, starts, max, texts, m - 1);
      FreshPlusOne(pieces, chunks, starts, max, texts, m);
    }
  }

  /** With zero overlap the recursive chunks themselves carry the ink of the text in
      order, and exactly its words if it has no full stop followed by a space. */
  lemma RecursiveWithoutOverlap(text: string, maxTokens: int, overlap: int)
    requires OverlapWords(overlap) == 0
    ensures InkOfAll(AllSplit(Chunks(text, maxTokens, overlap, "recursive"))) == Ink(text)
    ensures !Contains(text, ". ") ==> AllSplit(Chunks(text, maxTokens, overlap, "recursive")) == Split(text)
  {
    var starts := RecursiveKeepsText(text, maxTokens, overlap);
    var chunks := RecursiveChunks(text, maxTokens, overlap);
    var texts := Joined(chunks);
    forall k | 0 <= k < |chunks| ensures Split(texts[k]) == chunks[k] {
      RecursiveChunkWords(text, maxTokens, overlap, k);
    }
    FreshIsAllWithoutOverlap(PieceWords(text, maxTokens), chunks, starts, MaxWords(maxTokens), texts, |chunks|);
    TakeAll(texts);
  }
}
