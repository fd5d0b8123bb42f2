/** The splitter of `recursive` chunking: a text is cut on the coarsest separator it
    contains, and every part still too long on the finer ones. */
module RecursiveChunking {
  import opened Words
  import opened WindowChunking

  // ---------------------------------------------------------------------------
  // text.split(separator)
  // ---------------------------------------------------------------------------

  predicate OccursAt(s: string, sep: string, i: nat) {
    i + |sep| <= |s| && s[i..i + |sep|] == sep
  }

  /** The first occurrence at or after `from`, or the length of the text. */
  function Find(s: string, sep: string, from: nat): (i: nat)
    requires sep != "" && from <= |s|
    ensures from <= i <= |s| && (i < |s| ==> OccursAt(s, sep, i))
    decreases |s| - from
  {
    if from == |s| || OccursAt(s, sep, from) then from else Find(s, sep, from + 1)
  }

  /** No occurrence comes before the one that is found. */
  lemma {:induction false} FindIsFirst(s: string, sep: string, from: nat, j: nat)
    requires sep != "" && from <= j && OccursAt(s, sep, j)
    ensures Find(s, sep, from) <= j
    decreases j - from
  {
    if from < j {
      FindIsFirst(s, sep, from + 1, j);
    }
  }

  predicate Contains(s: string, sep: string)
    requires sep != ""
  {
    Find(s, sep, 0) < |s|
  }

  /** `s.split(sep)`: cut at the occurrences from the left. */
  function Cut(s: string, sep: string): (parts: seq<string>)
    requires sep != ""
    decreases |s|
  {
    var i := Find(s, sep, 0);
    if i == |s| then [s] else [s[..i]] + Cut(s[i + |sep|..], sep)
  }

  /** `sep.join(parts)`. */
  function JoinWith(parts: seq<string>, sep: string): string {
    if parts == [] then "" else if |parts| == 1 then parts[0] else parts[0] + sep + JoinWith(parts[1..], sep)
  }

  lemma JoinWithCons(first: string, rest: seq<string>, sep: string)
    requires rest != []
    ensures JoinWith([first] + rest, sep) == first + sep + JoinWith(rest, sep)
  {
    assert ([first] + rest)[1..] == rest;
  }

  lemma OccursInWhole(s: string, a: nat, b: nat, sep: string, j: nat)
    requires a <= b <= |s| && OccursAt(s[a..b], sep, j)
    ensures OccursAt(s, sep, a + j)
  {
    var part, n := s[a..b], j + |sep|;
    assert forall k :: j <= k < n ==> part[k] == s[a + k];
    assert part[j..n] == s[a + j..a + n];
  }

  lemma BeforeFirst(s: string, sep: string)
    requires sep != "" && Find(s, sep, 0) < |s|
    ensures !Contains(s[..Find(s, sep, 0)], sep)
  {
    var i := Find(s, sep, 0);
    assert s[..i] == s[0..i];
    var j := Find(s[0..i], sep, 0);
    if j < i {
      OccursInWhole(s, 0, i, sep, j);
      FindIsFirst(s, sep, 0, j);
    }
  }

  /** Splitting is undone by joining, and no part contains the separator. */
  lemma {:induction false} CutIsSplit(s: string, sep: string)
    requires sep != ""
    ensures Cut(s, sep) != [] && JoinWith(Cut(s, sep), sep) == s
    ensures forall k :: 0 <= k < |Cut(s, sep)| ==> !Contains(Cut(s, sep)[k], sep)
    decreases |s|
  {
    var i := Find(s, sep, 0);
    if i < |s| {
      var rest := Cut(s[i + |sep|..], sep);
      CutIsSplit(s[i + |sep|..], sep);
      JoinWithCons(s[..i], rest, sep);
      CutsApart(s, sep, i);
      BeforeFirst(s, sep);
    }
  }

  // ---------------------------------------------------------------------------
  // The splitter
  // ---------------------------------------------------------------------------

  const SEPARATORS: seq<string> := ["\n\n", "\n", ". ", " ", ""]

  /** Consecutive groups of `max` words, the last one maybe shorter. */
  function Groups(words: seq<string>, max: nat): seq<string>
    requires max > 0
  {
    if words == [] then []
    else if |words| <= max then [Join(words)]
    else [Join(words[..max])] + Groups(words[max..], max)
  }

  /** The pieces of a text. */
  function Pieces(text: string, separators: seq<string>, max: nat): seq<string>
    requires max > 0
    decreases |separators|, 0
  {
    if Blank(text) then []
    else if |Split(text)| <= max || separators == [] then [Strip(text)]
    else if separators[0] == "" then Groups(Split(text), max)
    else if Contains(text, separators[0]) then
      PiecesOfParts(Cut(text, separators[0]), separators[1..], max)
    else Pieces(text, separators[1..], max)
  }

  /** The pieces of the parts of a text. */
  function PiecesOfParts(parts: seq<string>, separators: seq<string>, max: nat): seq<string>
    requires max > 0
    decreases |separators|, |parts| + 1
  {
    if parts == [] then []
    else PiecesOfParts(parts[..|parts| - 1], separators, max) + Pieces(parts[|parts| - 1], separators, max)
  }

  lemma PiecesOfPartsSnoc(parts: seq<string>, k: nat, separators: seq<string>, max: nat)
    requires max > 0 && k < |parts|
    ensures PiecesOfParts(parts[..k + 1], separators, max)
         == PiecesOfParts(parts[..k], separators, max) + Pieces(parts[k], separators, max)
  {
    assert parts[..k + 1][..k] == parts[..k];
  }

  /** The groups of the words from `j` on; none beyond the end. */
  function GroupsFrom(words: seq<string>, j: nat, max: nat): seq<string>
    requires max > 0
  {
    if j < |words| then Groups(words[j..], max) else []
  }

  lemma NextGroup(words: seq<string>, j: nat, end: nat, max: nat)
    requires max > 0 && j < |words| && end == Min(j + max, |words|)
    ensures GroupsFrom(words, j, max) == [Join(words[j..end])] + GroupsFrom(words, j + max, max)
  {
    var rest := words[j..];
    if j + max < |words| {
      assert words[j..end] == rest[..max] && rest[max..] == words[j + max..];
    } else {
      assert words[j..end] == rest;
    }
  }

  lemma GroupsFromStart(words: seq<string>, max: nat)
    requires max > 0
    ensures GroupsFrom(words, 0, max) == Groups(words, max)
  {
    assert words[0..] == words;
  }

  lemma AppendOne(out: seq<string>, group: string, rest: seq<string>)
    ensures out + ([group] + rest) == (out + [group]) + rest
  {
  }

  /** The hard split of the finest level. */
  method SplitIntoGroups(words: seq<string>, max: nat) returns (out: seq<string>)
    requires max > 0
    ensures out == Groups(words, max)
  {
    ghost var all := Groups(words, max);
    out := [];
    var j := 0;
    GroupsFromStart(words, max);
    while j < |words|
      invariant all == out + GroupsFrom(words, j, max)
      decreases |words| - j
    {
      var end := Min(j + max, |words|);
      var group := Join(words[j..end]);
      NextGroup(words, j, end, max);
      AppendOne(out, group, GroupsFrom(words, j + max, max));
      out := out + [group];
      j := j + max;
    }
  }

  method SplitOnSeparators(text: string, separators: seq<string>, max: nat) returns (out: seq<string>)
    requires max > 0
    ensures out == Pieces(text, separators, max)
    decreases |separators|, 0
  {
    StripIsEmpty(text);
    if Strip(text) == "" {
      return [];
    }
    if |Split(text)| <= max {
      return [Strip(text)];
    }
    for i := 0 to |separators|
      invariant Pieces(text, separators, max) == Pieces(text, separators[i..], max)
    {
      var separator := separators[i];
      if separator == "" {
        out := SplitIntoGroups(Split(text), max);
        return;
      }
      if Contains(text, separator) {
        out := SplitParts(Cut(text, separator), separators[i + 1..], max);
        return;
      }
    }
    return [Strip(text)];
  }

  /** The inner loop over the parts; blank ones are skipped. */
  method SplitParts(parts: seq<string>, separators: seq<string>, max: nat) returns (out: seq<string>)
    requires max > 0
    ensures out == PiecesOfParts(parts, separators, max)
    decreases |separators|, 1
  {
    out := [];
    for k := 0 to |parts|
      invariant out == PiecesOfParts(parts[..k], separators, max)
    {
      var part := parts[k];
      PiecesOfPartsSnoc(parts, k, separators, max);
      StripIsEmpty(part);
      if Strip(part) != "" {
        if |Split(part)| <= max {
          out := out + [Strip(part)];
        } else {
          var pieces := SplitOnSeparators(part, separators, max);
          out := out + pieces;
        }
      }
    }
    TakeAll(parts);
  }

  // ---------------------------------------------------------------------------
  // Pieces are small and not empty
  // ---------------------------------------------------------------------------

  predicate Fits(piece: string, max: nat) {
    1 <= |Split(piece)| <= max
  }

  lemma {:induction false} GroupsFit(words: seq<string>, max: nat)
    requires max > 0 && AllWords(words)
    ensures forall k :: 0 <= k < |Groups(words, max)| ==> Fits(Groups(words, max)[k], max)
  {
    if words != [] {
      if |words| <= max {
        SplitOfJoin(words);
      } else {
        SplitOfJoin(words[..max]);
        GroupsFit(words[max..], max);
      }
    }
  }

  lemma StripFits(text: string, max: nat)
    requires !Blank(text) && |Split(text)| <= max
    ensures Fits(Strip(text), max)
  {
    SplitIsEmpty(text);
    SplitOfStrip(text);
  }

  /** When the separators end in "", every piece has between one and `max` words. */
  lemma {:induction false} PiecesFit(text: string, separators: seq<string>, max: nat)
    requires max > 0 && separators != [] && separators[|separators| - 1] == ""
    ensures forall k :: 0 <= k < |Pieces(text, separators, max)| ==> Fits(Pieces(text, separators, max)[k], max)
    decreases |separators|, 0
  {
    if Blank(text) {
    } else if |Split(text)| <= max {
      StripFits(text, max);
    } else if separators[0] == "" {
      GroupsFit(Split(text), max);
    } else if Contains(text, separators[0]) {
      PiecesOfPartsFit(Cut(text, separators[0]), separators[1..], max);
    } else {
      PiecesFit(text, separators[1..], max);
    }
  }

  lemma {:induction false} PiecesOfPartsFit(parts: seq<string>, separators: seq<string>, max: nat)
    requires max > 0 && separators != [] && separators[|separators| - 1] == ""
    ensures forall k :: 0 <= k < |PiecesOfParts(parts, separators, max)| ==>
              Fits(PiecesOfParts(parts, separators, max)[k], max)
    decreases |separators|, |parts| + 1
  {
    if parts != [] {
      PiecesOfPartsFit(parts[..|parts| - 1], separators, max);
      PiecesFit(parts[|parts| - 1], separators, max);
    }
  }

  // ---------------------------------------------------------------------------
  // Nothing but whitespace and full stops is lost
  // ---------------------------------------------------------------------------

  predicate Inkless(s: string) {
    forall i :: 0 <= i < |s| ==> !IsInk(s[i])
  }

  lemma CutsApart(s: string, sep: string, i: nat)
    requires OccursAt(s, sep, i)
    ensures s == s[..i] + sep + s[i + |sep|..]
  {
  }

  lemma {:induction false} InkOfCut(s: string, sep: string)
    requires sep != "" && Inkless(sep)
    ensures InkOfAll(Cut(s, sep)) == Ink(s)
    decreases |s|
  {
    var i := Find(s, sep, 0);
    if i == |s| {
      InkOfOne(s);
    } else {
      var rest := s[i + |sep|..];
      CutsApart(s, sep, i);
      InkConcat(s[..i] + sep, rest);
      InkConcat(s[..i], sep);
      InkOfNone(sep);
      InkOfCut(rest, sep);
      InkOfAllConcat([s[..i]], Cut(rest, sep));
      InkOfOne(s[..i]);
    }
  }

  lemma InkOfOne(s: string)
    ensures InkOfAll([s]) == Ink(s)
  {
    assert [s][1..] == [];
  }

  lemma {:induction false} InkOfGroups(words: seq<string>, max: nat)
    requires max > 0
    ensures InkOfAll(Groups(words, max)) == InkOfAll(words)
  {
    if words != [] {
      if |words| <= max {
        InkOfOne(Join(words));
        InkOfJoin(words);
      } else {
        InkOfOne(Join(words[..max]));
        InkOfJoin(words[..max]);
        InkOfGroups(words[max..], max);
        InkOfAllConcat([Join(words[..max])], Groups(words[max..], max));
        InkOfAllConcat(words[..max], words[max..]);
        assert words == words[..max] + words[max..];
      }
    }
  }

  /** Splitting keeps the ink of a text, in order. */
  lemma {:induction false} PiecesKeepInk(text: string, separators: seq<string>, max: nat)
    requires max > 0 && forall k :: 0 <= k < |separators| ==> Inkless(separators[k])
    ensures InkOfAll(Pieces(text, separators, max)) == Ink(text)
    decreases |separators|, 0
  {
    if Blank(text) {
      InkOfNone(text);
    } else if |Split(text)| <= max || separators == [] {
      InkOfOne(Strip(text));
      InkOfStrip(text);
    } else if separators[0] == "" {
      InkOfGroups(Split(text), max);
      InkOfSplit(text);
    } else if Contains(text, separators[0]) {
      PiecesOfPartsKeepInk(Cut(text, separators[0]), separators[1..], max);
      InkOfCut(text, separators[0]);
    } else {
      PiecesKeepInk(text, separators[1..], max);
    }
  }

  lemma {:induction false} PiecesOfPartsKeepInk(parts: seq<string>, separators: seq<string>, max: nat)
    requires max > 0 && forall k :: 0 <= k < |separators| ==> Inkless(separators[k])
    ensures InkOfAll(PiecesOfParts(parts, separators, max)) == InkOfAll(parts)
    decreases |separators|, |parts| + 1
  {
    if parts != [] {
      var front, last := parts[..|parts| - 1], parts[|parts| - 1];
      PiecesOfPartsKeepInk(front, separators, max);
      PiecesKeepInk(last, separators, max);
      InkOfAllConcat(PiecesOfParts(front, separators, max), Pieces(last, separators, max));
      InkOfAllConcat(front, [last]);
      InkOfOne(last);
      assert parts == front + [last];
    }
  }

  // ---------------------------------------------------------------------------
  // Without ". " nothing but whitespace is lost
  // ---------------------------------------------------------------------------

  /** Cutting `s` on `sep` breaks no word: `sep` is blank or does not occur. */
  predicate Harmless(sep: string, s: string) {
    sep == "" || Blank(sep) || !Contains(s, sep)
  }

  predicate AllHarmless(separators: seq<string>, s: string) {
    forall k :: 0 <= k < |separators| ==> Harmless(separators[k], s)
  }

  lemma HarmlessToSlices(sep: string, s: string, a: nat, b: nat)
    requires a <= b <= |s| && Harmless(sep, s)
    ensures Harmless(sep, s[a..b])
  {
    if sep != "" && !Blank(sep) && Contains(s[a..b], sep) {
      var i := Find(s[a..b], sep, 0);
      OccursInWhole(s, a, b, sep, i);
      FindIsFirst(s, sep, 0, a + i);
    }
  }

  lemma AllHarmlessToSlices(separators: seq<string>, s: string, a: nat, b: nat)
    requires a <= b <= |s| && AllHarmless(separators, s)
    ensures AllHarmless(separators, s[a..b])
  {
    forall k | 0 <= k < |separators| ensures Harmless(separators[k], s[a..b]) {
      HarmlessToSlices(separators[k], s, a, b);
    }
  }

  lemma HarmlessApart(separators: seq<string>, s: string, a: nat, b: nat)
    requires a <= b <= |s| && AllHarmless(separators, s)
    ensures AllHarmless(separators, s[..a]) && AllHarmless(separators, s[b..])
  {
    AllHarmlessToSlices(separators, s, 0, a);
    AllHarmlessToSlices(separators, s, b, |s|);
    assert s[0..a] == s[..a] && s[b..|s|] == s[b..];
  }

  predicate PartsHarmless(separators: seq<string>, parts: seq<string>) {
    forall k :: 0 <= k < |parts| ==> AllHarmless(separators, parts[k])
  }

  lemma PartsHarmlessCons(separators: seq<string>, first: string, rest: seq<string>)
    requires AllHarmless(separators, first) && PartsHarmless(separators, rest)
    ensures PartsHarmless(separators, [first] + rest)
  {
  }

  lemma PartsHarmlessInit(separators: seq<string>, parts: seq<string>)
    requires PartsHarmless(separators, parts) && parts != []
    ensures PartsHarmless(separators, parts[..|parts| - 1]) && AllHarmless(separators, parts[|parts| - 1])
  {
  }

  lemma {:induction false} CutKeepsHarmless(s: string, sep: string, separators: seq<string>)
    requires sep != "" && AllHarmless(separators, s)
    ensures PartsHarmless(separators, Cut(s, sep))
    decreases |s|
  {
    var i := Find(s, sep, 0);
    if i < |s| {
      var rest := s[i + |sep|..];
      HarmlessApart(separators, s, i, i + |sep|);
      CutKeepsHarmless(rest, sep, separators);
      PartsHarmlessCons(separators, s[..i], Cut(rest, sep));
    } else {
      assert Cut(s, sep) == [s];
    }
  }

  lemma {:induction false} WordsOfCut(s: string, sep: string)
    requires sep != "" && Blank(sep)
    ensures AllSplit(Cut(s, sep)) == Split(s)
    decreases |s|
  {
    var i := Find(s, sep, 0);
    if i == |s| {
      AllSplitOne(s);
    } else {
      var rest := s[i + |sep|..];
      CutsApart(s, sep, i);
      SplitGap(s[..i], sep, rest);
      WordsOfCut(rest, sep);
      AllSplitConcat([s[..i]], Cut(rest, sep));
      AllSplitOne(s[..i]);
    }
  }

  lemma {:induction false} WordsOfGroups(words: seq<string>, max: nat)
    requires max > 0 && AllWords(words)
    ensures AllSplit(Groups(words, max)) == words
  {
    if words != [] {
      if |words| <= max {
        AllSplitOne(Join(words));
        SplitOfJoin(words);
      } else {
        var first := Join(words[..max]);
        AllSplitOne(first);
        SplitOfJoin(words[..max]);
        WordsOfGroups(words[max..], max);
        AllSplitConcat([first], Groups(words[max..], max));
        assert words == words[..max] + words[max..];
      }
    }
  }

  /** When no separator with ink or full stop in it occurs in the text, the pieces have
      exactly the text's words. */
  lemma {:induction false} PiecesKeepWords(text: string, separators: seq<string>, max: nat)
    requires max > 0 && AllHarmless(separators, text)
    ensures AllSplit(Pieces(text, separators, max)) == Split(text)
    decreases |separators|, 0
  {
    if Blank(text) {
      SplitIsEmpty(text);
    } else if |Split(text)| <= max || separators == [] {
      AllSplitOne(Strip(text));
      SplitOfStrip(text);
    } else if separators[0] == "" {
      WordsOfGroups(Split(text), max);
    } else {
      TailHarmless(separators, text);
      if Contains(text, separators[0]) {
        assert Harmless(separators[0], text);
        CutKeepsHarmless(text, separators[0], separators[1..]);
        PiecesOfPartsKeepWords(Cut(text, separators[0]), separators[1..], max);
        WordsOfCut(text, separators[0]);
      } else {
        PiecesKeepWords(text, separators[1..], max);
      }
    }
  }

  lemma TailHarmless(separators: seq<string>, text: string)
    requires separators != [] && AllHarmless(separators, text)
    ensures AllHarmless(separators[1..], text)
  {
    forall k | 0 <= k < |separators[1..]| ensures Harmless(separators[1..][k], text) {
      assert separators[1..][k] == separators[k + 1];
    }
  }

  lemma {:induction false} PiecesOfPartsKeepWords(parts: seq<string>, separators: seq<string>, max: nat)
    requires max > 0 && PartsHarmless(separators, parts)
    ensures AllSplit(PiecesOfParts(parts, separators, max)) == AllSplit(parts)
    decreases |separators|, |parts| + 1
  {
    if parts != [] {
      var front, last := parts[..|parts| - 1], parts[|parts| - 1];
      PartsHarmlessInit(separators, parts);
      PiecesOfPartsKeepWords(front, separators, max);
      PiecesKeepWords(last, separators, max);
      var before, after := PiecesOfParts(front, separators, max), Pieces(last, separators, max);
      assert PiecesOfParts(parts, separators, max) == before + after;
      AllSplitConcat(before, after);
      assert AllSplit(parts) == AllSplit(front) + Split(last);
    }
  }
}
