/** The structural blocks of `semantic` chunking: a text is cut before its Markdown
    headings, and each part at its blank lines. */
module SemanticChunking {
  import opened Words
  import opened WindowChunking

  // ---------------------------------------------------------------------------
  // Headings: (?=^#{1,6}\s)
  // ---------------------------------------------------------------------------

  function Hashes(s: string): (n: nat)
    ensures n <= |s| && (n < |s| ==> s[n] != '#')
    ensures forall i :: 0 <= i < n ==> s[i] == '#'
  {
    if s == "" || s[0] != '#' then 0 else 1 + Hashes(s[1..])
  }

  /** One to six '#' and then whitespace, at the start of a line. */
  predicate HeadingAt(s: string, p: nat) {
    && p < |s| && (p == 0 || s[p - 1] == '\n')
    && var n := Hashes(s[p..]);
       1 <= n <= 6 && p + n < |s| && IsSpace(s[p + n])
  }

  /** The parts of `s[start..]`, cut before every heading at or after `from`. */
  function HeadingParts(s: string, start: nat, from: nat): (parts: seq<string>)
    requires start <= from <= |s|
    ensures parts != []
    decreases |s| - from
  {
    if from == |s| then [s[start..]]
    else if HeadingAt(s, from) then [s[start..from]] + HeadingParts(s, from, from + 1)
    else HeadingParts(s, start, from + 1)
  }

  // ---------------------------------------------------------------------------
  // Blank lines: \n\s*\n
  // ---------------------------------------------------------------------------

  /** Two line feeds with nothing but whitespace between them. */
  predicate BlankLines(s: string, i: nat, j: nat) {
    i < j < |s| && s[i] == '\n' && s[j] == '\n' && forall k :: i < k < j ==> IsSpace(s[k])
  }

  /** The last line feed of the whitespace that starts at `at`, if there is one. */
  function LastBreak(s: string, at: nat): (end: int)
    requires at <= |s|
    ensures end == -1 || at <= end < |s|
    ensures end != -1 ==> s[end] == '\n' && forall k :: at <= k < end ==> IsSpace(s[k])
    decreases |s| - at
  {
    if at == |s| || !IsSpace(s[at]) then -1
    else
      var rest := LastBreak(s, at + 1);
      if rest != -1 then rest else if s[at] == '\n' then at else -1
  }

  /** No later line feed is reached by whitespace alone. */
  lemma {:induction false} LastBreakIsLast(s: string, at: nat, j: nat)
    requires at <= j < |s| && s[j] == '\n' && forall k :: at <= k < j ==> IsSpace(s[k])
    ensures LastBreak(s, at) >= j
    decreases j - at
  {
    if at < j {
      LastBreakIsLast(s, at + 1, j);
    }
  }

  /** The parts of `s[start..]`, cut at the blank lines that start at or after `from`;
      a cut swallows everything up to the last line feed of the blank space. */
  function BlankParts(s: string, start: nat, from: nat): (parts: seq<string>)
    requires start <= from <= |s|
    decreases |s| - from
  {
    if from == |s| then [s[start..]]
    else if s[from] == '\n' && LastBreak(s, from + 1) != -1 then
      var end := LastBreak(s, from + 1) + 1;
      [s[start..from]] + BlankParts(s, end, end)
    else BlankParts(s, start, from + 1)
  }

  /** The parts that are not blank. */
  function Inked(parts: seq<string>): (kept: seq<string>) {
    if parts == [] then []
    else Inked(parts[..|parts| - 1]) + (if Blank(parts[|parts| - 1]) then [] else [parts[|parts| - 1]])
  }

  /** The blocks of some heading parts. */
  function Blocks(parts: seq<string>): seq<string> {
    if parts == [] then []
    else Blocks(parts[..|parts| - 1]) + Inked(BlankParts(parts[|parts| - 1], 0, 0))
  }

  function SemanticBlocks(text: string): seq<string> {
    Blocks(HeadingParts(text, 0, 0))
  }

  /** The filter `if p.strip()`. */
  method DropBlank(parts: seq<string>) returns (kept: seq<string>)
    ensures kept == Inked(parts)
  {
    kept := [];
    for j := 0 to |parts|
      invariant kept == Inked(parts[..j])
    {
      assert parts[..j + 1][..j] == parts[..j];
      StripIsEmpty(parts[j]);
      if Strip(parts[j]) != "" {
        kept := kept + [parts[j]];
      }
    }
    TakeAll(parts);
  }

  /** The two nested splits. */
  method CollectBlocks(text: string) returns (blocks: seq<string>)
    ensures blocks == SemanticBlocks(text)
  {
    var parts := HeadingParts(text, 0, 0);
    blocks := [];
    for i := 0 to |parts|
      invariant blocks == Blocks(parts[..i])
    {
      assert parts[..i + 1][..i] == parts[..i];
      var kept := DropBlank(BlankParts(parts[i], 0, 0));
      blocks := blocks + kept;
    }
    TakeAll(parts);
  }

  // ---------------------------------------------------------------------------
  // No word is lost or broken
  // ---------------------------------------------------------------------------

  lemma WordsBesideCut(s: string, start: nat, from: nat, rest: seq<string>)
    requires start <= from < |s| && (from == 0 || s[from - 1] == '\n')
    requires AllSplit(rest) == Split(s[from..])
    ensures AllSplit([s[start..from]] + rest) == Split(s[start..])
  {
    var a, b := s[start..from], s[from..];
    assert s[start..] == a + b;
    assert a != "" ==> a[|a| - 1] == s[from - 1];
    SplitConcat(a, b);
    AllSplitCons(a, rest);
  }

  lemma {:induction false} HeadingPartsKeepWords(s: string, start: nat, from: nat)
    requires start <= from <= |s|
    ensures AllSplit(HeadingParts(s, start, from)) == Split(s[start..])
    decreases |s| - from
  {
    var parts := HeadingParts(s, start, from);
    if from == |s| {
      assert parts == [s[start..]];
      AllSplitOne(s[start..]);
    } else if HeadingAt(s, from) {
      var rest := HeadingParts(s, from, from + 1);
      assert parts == [s[start..from]] + rest;
      HeadingPartsKeepWords(s, from, from + 1);
      WordsBesideCut(s, start, from, rest);
    } else {
      assert parts == HeadingParts(s, start, from + 1);
      HeadingPartsKeepWords(s, start, from + 1);
    }
  }

  lemma AllSplitCons(first: string, rest: seq<string>)
    ensures AllSplit([first] + rest) == Split(first) + AllSplit(rest)
  {
    AllSplitOne(first);
    AllSplitConcat([first], rest);
  }

  lemma WordsAroundGap(s: string, start: nat, from: nat, end: nat)
    requires start <= from < end <= |s| && forall k :: from <= k < end ==> IsSpace(s[k])
    ensures Split(s[start..]) == Split(s[start..from]) + Split(s[end..])
  {
    var a, gap, b := s[start..from], s[from..end], s[end..];
    assert s[start..] == a + gap + b;
    SplitGap(a, gap, b);
  }

  lemma WordsBesideGap(s: string, start: nat, from: nat, end: nat, rest: seq<string>)
    requires start <= from < end <= |s| && forall k :: from <= k < end ==> IsSpace(s[k])
    requires AllSplit(rest) == Split(s[end..])
    ensures AllSplit([s[start..from]] + rest) == Split(s[start..])
  {
    WordsAroundGap(s, start, from, end);
    AllSplitCons(s[start..from], rest);
  }

  lemma {:induction false} BlankPartsKeepWords(s: string, start: nat, from: nat)
    requires start <= from <= |s|
    ensures AllSplit(BlankParts(s, start, from)) == Split(s[start..])
    decreases |s| - from
  {
    var parts := BlankParts(s, start, from);
    if from == |s| {
      assert parts == [s[start..]];
      AllSplitOne(s[start..]);
    } else if s[from] == '\n' && LastBreak(s, from + 1) != -1 {
      var end := LastBreak(s, from + 1) + 1;
      var rest := BlankParts(s, end, end);
      assert parts == [s[start..from]] + rest;
      BlankPartsKeepWords(s, end, end);
      WordsBesideGap(s, start, from, end, rest);
    } else {
      assert parts == BlankParts(s, start, from + 1);
      BlankPartsKeepWords(s, start, from + 1);
    }
  }

  lemma {:induction false} InkedKeepsWords(parts: seq<string>)
    ensures AllSplit(Inked(parts)) == AllSplit(parts)
  {
    if parts != [] {
      var last := parts[|parts| - 1];
      InkedKeepsWords(parts[..|parts| - 1]);
      if Blank(last) {
        SplitIsEmpty(last);
        assert Inked(parts) == Inked(parts[..|parts| - 1]);
      } else {
        AllSplitSnoc(Inked(parts[..|parts| - 1]), last);
      }
    }
  }

  lemma {:induction false} BlocksKeepWords(parts: seq<string>)
    ensures AllSplit(Blocks(parts)) == AllSplit(parts)
  {
    if parts != [] {
      var last := parts[|parts| - 1];
      BlocksKeepWords(parts[..|parts| - 1]);
      AllSplitConcat(Blocks(parts[..|parts| - 1]), Inked(BlankParts(last, 0, 0)));
      InkedKeepsWords(BlankParts(last, 0, 0));
      BlankPartsKeepWords(last, 0, 0);
      assert last[0..] == last;
    }
  }

  /** The words of the blocks, one block after the other, are the words of the text. */
  lemma SemanticBlocksKeepWords(text: string)
    ensures AllSplit(SemanticBlocks(text)) == Split(text)
  {
    HeadingPartsKeepWords(text, 0, 0);
    BlocksKeepWords(HeadingParts(text, 0, 0));
    assert text[0..] == text;
  }

  // ---------------------------------------------------------------------------
  // Nothing else is cut
  // ---------------------------------------------------------------------------

  function Concat(parts: seq<string>): string {
    if parts == [] then "" else parts[0] + Concat(parts[1..])
  }

  lemma ConcatCons(first: string, rest: seq<string>)
    ensures Concat([first] + rest) == first + Concat(rest)
  {
    assert ([first] + rest)[1..] == rest;
  }

  lemma ConcatOne(only: string)
    ensures Concat([only]) == only
  {
    assert [only][1..] == [];
  }

  /** A heading is still one when the text is cut at a later line start. */
  lemma HeadingKept(s: string, start: nat, end: nat)
    requires start < end <= |s| && HeadingAt(s, start) && (end == |s| || s[end - 1] == '\n')
    ensures HeadingAt(s[start..end], 0)
  {
    var all, part := s[start..], s[start..end];
    var n := Hashes(all);
    assert all[n] == s[start + n];
    assert forall i :: start <= i < start + n ==> s[i] == all[i - start];
    assert start + n < end;
    assert forall i :: 0 <= i < |part| ==> part[i] == all[i];
    assert Hashes(part) == n;
    assert part[0..] == part;
  }

  /** Cutting at headings loses nothing. */
  lemma {:induction false} HeadingPartsAreAll(s: string, start: nat, from: nat)
    requires start <= from <= |s|
    ensures Concat(HeadingParts(s, start, from)) == s[start..]
    decreases |s| - from
  {
    if from == |s| {
      ConcatOne(s[start..]);
    } else if HeadingAt(s, from) {
      HeadingPartsAreAll(s, from, from + 1);
      ConcatCons(s[start..from], HeadingParts(s, from, from + 1));
      assert s[start..] == s[start..from] + s[from..];
    } else {
      HeadingPartsAreAll(s, start, from + 1);
    }
  }

  /** Every part but the first is headed; so is the first if the text is. */
  lemma {:induction false} HeadingPartsAreHeaded(s: string, start: nat, from: nat)
    requires start <= from <= |s|
    ensures forall k :: 0 < k < |HeadingParts(s, start, from)| ==> HeadingAt(HeadingParts(s, start, from)[k], 0)
    ensures start < from && HeadingAt(s, start) ==> HeadingAt(HeadingParts(s, start, from)[0], 0)
    decreases |s| - from
  {
    var parts := HeadingParts(s, start, from);
    if start < from && HeadingAt(s, start) && (from == |s| || HeadingAt(s, from)) {
      HeadingKept(s, start, from);
    }
    if from == |s| {
      assert s[start..|s|] == s[start..];
    } else if HeadingAt(s, from) {
      HeadingPartsAreHeaded(s, from, from + 1);
      var rest := HeadingParts(s, from, from + 1);
      assert parts == [s[start..from]] + rest;
      assert forall k :: 0 < k < |parts| ==> parts[k] == rest[k - 1];
    } else {
      assert parts == HeadingParts(s, start, from + 1);
      HeadingPartsAreHeaded(s, start, from + 1);
    }
  }

  /** What a cut at blank lines swallows. */
  predicate IsGap(gap: string) {
    |gap| >= 2 && gap[0] == '\n' && gap[|gap| - 1] == '\n' && Blank(gap)
  }

  /** The parts with the gaps between them. */
  function Woven(parts: seq<string>, gaps: seq<string>): string
    requires |parts| == |gaps| + 1
  {
    if gaps == [] then parts[0] else parts[0] + gaps[0] + Woven(parts[1..], gaps[1..])
  }

  lemma WovenCons(first: string, gap: string, parts: seq<string>, gaps: seq<string>)
    requires |parts| == |gaps| + 1
    ensures Woven([first] + parts, [gap] + gaps) == first + gap + Woven(parts, gaps)
  {
    assert ([first] + parts)[1..] == parts && ([gap] + gaps)[1..] == gaps;
  }

  lemma GapIsGap(s: string, from: nat, end: nat)
    requires from < end < |s| && BlankLines(s, from, end)
    ensures IsGap(s[from..end + 1])
  {
  }

  /** Cutting at blank lines takes away nothing but gaps. */
  lemma {:induction false} BlankPartsAreWoven(s: string, start: nat, from: nat) returns (gaps: seq<string>)
    requires start <= from <= |s|
    ensures |BlankParts(s, start, from)| == |gaps| + 1 && Woven(BlankParts(s, start, from), gaps) == s[start..]
    ensures forall k :: 0 <= k < |gaps| ==> IsGap(gaps[k])
    decreases |s| - from
  {
    var parts := BlankParts(s, start, from);
    if from == |s| {
      gaps := [];
    } else if s[from] == '\n' && LastBreak(s, from + 1) != -1 {
      var last := LastBreak(s, from + 1);
      var more := BlankPartsAreWoven(s, last + 1, last + 1);
      var rest := BlankParts(s, last + 1, last + 1);
      var gap := s[from..last + 1];
      gaps := [gap] + more;
      assert parts == [s[start..from]] + rest;
      WovenCons(s[start..from], gap, rest, more);
      GapIsGap(s, from, last);
      assert s[start..] == s[start..from] + gap + s[last + 1..];
    } else {
      gaps := BlankPartsAreWoven(s, start, from + 1);
    }
  }

  // ---------------------------------------------------------------------------
  // A block is one structural unit
  // ---------------------------------------------------------------------------

  /** `part` has no heading beyond its first character and no blank line. */
  predicate OneSection(part: string) {
    forall p :: 0 < p < |part| ==> !HeadingAt(part, p)
  }

  ghost predicate OneParagraph(part: string) {
    forall i, j :: !BlankLines(part, i, j)
  }

  lemma {:induction false} HashesInSlice(s: string, t: string)
    requires |t| <= |s| && t == s[..|t|] && Hashes(t) < |t|
    ensures Hashes(s) == Hashes(t)
  {
    if t != "" && t[0] == '#' {
      assert t[1..] == s[1..][..|t| - 1];
      HashesInSlice(s[1..], t[1..]);
    }
  }

  /** A heading inside a slice is a heading of the whole. */
  lemma HeadingInSlice(s: string, a: nat, b: nat, p: nat)
    requires a <= b <= |s| && p > 0 && HeadingAt(s[a..b], p)
    ensures HeadingAt(s, a + p)
  {
    var part := s[a..b];
    assert part[p..] == s[a + p..][..b - a - p];
    HashesInSlice(s[a + p..], part[p..]);
    assert part[p - 1] == s[a + p - 1];
    var n := Hashes(part[p..]);
    assert part[p + n] == s[a + p + n];
  }

  lemma {:induction false} HeadingPartsAreSections(s: string, start: nat, from: nat)
    requires start <= from <= |s|
    requires forall p :: start < p < from ==> !HeadingAt(s, p)
    ensures forall k :: 0 <= k < |HeadingParts(s, start, from)| ==> OneSection(HeadingParts(s, start, from)[k])
    decreases |s| - from
  {
    var parts := HeadingParts(s, start, from);
    if from == |s| || HeadingAt(s, from) {
      SliceIsSection(s, start, from);
      assert s[start..|s|] == s[start..];
      if from < |s| {
        HeadingPartsAreSections(s, from, from + 1);
        var rest := HeadingParts(s, from, from + 1);
        assert forall k :: 0 < k < |parts| ==> parts[k] == rest[k - 1];
      }
    } else {
      HeadingPartsAreSections(s, start, from + 1);
    }
  }

  lemma SliceIsSection(s: string, a: nat, b: nat)
    requires a <= b <= |s|
    requires forall p :: a < p < b ==> !HeadingAt(s, p)
    ensures OneSection(s[a..b])
  {
    forall p | 0 < p < b - a ensures !HeadingAt(s[a..b], p) {
      if HeadingAt(s[a..b], p) {
        HeadingInSlice(s, a, b, p);
        assert false;
      }
    }
  }

  /** A slice of a section that ends before a cut is a section. */
  lemma SliceOfSection(s: string, a: nat, b: nat)
    requires a <= b <= |s| && OneSection(s)
    ensures OneSection(s[a..b])
  {
    SliceIsSection(s, a, b);
  }

  lemma SliceIsParagraph(s: string, a: nat, b: nat)
    requires a <= b <= |s|
    requires forall i, j :: a <= i < b ==> !BlankLines(s, i, j)
    ensures OneParagraph(s[a..b])
  {
    var t := s[a..b];
    forall i: nat, j: nat ensures !BlankLines(t, i, j) {
      if BlankLines(t, i, j) {
        assert forall k :: i <= k <= j ==> s[a + k] == t[k];
        assert forall k :: a + i < k < a + j ==> s[k] == t[k - a];
        assert BlankLines(s, a + i, a + j);
        assert false;
      }
    }
  }

  lemma {:induction false} BlankPartsAreUnits(s: string, start: nat, from: nat)
    requires start <= from <= |s| && OneSection(s)
    requires forall i, j :: start <= i < from ==> !BlankLines(s, i, j)
    ensures forall k :: 0 <= k < |BlankParts(s, start, from)| ==>
              OneSection(BlankParts(s, start, from)[k]) && OneParagraph(BlankParts(s, start, from)[k])
    decreases |s| - from
  {
    var parts := BlankParts(s, start, from);
    if from == |s| {
      SliceIsParagraph(s, start, from);
      SliceOfSection(s, start, from);
      assert s[start..|s|] == s[start..];
    } else if s[from] == '\n' && LastBreak(s, from + 1) != -1 {
      var end := LastBreak(s, from + 1) + 1;
      SliceIsParagraph(s, start, from);
      SliceOfSection(s, start, from);
      BlankPartsAreUnits(s, end, end);
      var rest := BlankParts(s, end, end);
      assert forall k :: 0 < k < |parts| ==> parts[k] == rest[k - 1];
    } else {
      forall j: nat ensures !BlankLines(s, from, j) {
        if BlankLines(s, from, j) {
          LastBreakIsLast(s, from + 1, j);
        }
      }
      BlankPartsAreUnits(s, start, from + 1);
    }
  }

  ghost predicate Unit(block: string) {
    !Blank(block) && OneSection(block) && OneParagraph(block)
  }

  lemma {:induction false} InkedAreUnits(parts: seq<string>)
    requires forall k :: 0 <= k < |parts| ==> OneSection(parts[k]) && OneParagraph(parts[k])
    ensures forall k :: 0 <= k < |Inked(parts)| ==> Unit(Inked(parts)[k])
  {
    if parts != [] {
      InkedAreUnits(parts[..|parts| - 1]);
    }
  }

  lemma {:induction false} BlocksAreUnits(parts: seq<string>)
    requires forall k :: 0 <= k < |parts| ==> OneSection(parts[k])
    ensures forall k :: 0 <= k < |Blocks(parts)| ==> Unit(Blocks(parts)[k])
  {
    if parts != [] {
      var last := parts[|parts| - 1];
      BlocksAreUnits(parts[..|parts| - 1]);
      BlankPartsAreUnits(last, 0, 0);
      InkedAreUnits(BlankParts(last, 0, 0));
    }
  }

  /** No block is blank, has a heading after its first character, or a blank line. */
  lemma SemanticBlocksAreUnits(text: string)
    ensures forall k :: 0 <= k < |SemanticBlocks(text)| ==> Unit(SemanticBlocks(text)[k])
  {
    HeadingPartsAreSections(text, 0, 0);
    BlocksAreUnits(HeadingParts(text, 0, 0));
  }
}
