/** Texts as Python's `split`, `strip` and `join` see them. */
module Words {

  /** What Python calls whitespace. */
  predicate IsSpace(c: char) {
    || '\t' <= c <= '\r'
    || '\U{001C}' <= c <= ' '
    || c == '\U{0085}' || c == '\U{00A0}' || c == '\U{1680}'
    || '\U{2000}' <= c <= '\U{200A}'
    || c == '\U{2028}' || c == '\U{2029}' || c == '\U{202F}' || c == '\U{205F}' || c == '\U{3000}'
  }

  predicate Blank(s: string) {
    forall i :: 0 <= i < |s| ==> IsSpace(s[i])
  }

  predicate IsWord(w: string) {
    w != "" && forall i :: 0 <= i < |w| ==> !IsSpace(w[i])
  }

  predicate AllWords(ws: seq<string>) {
    forall i :: 0 <= i < |ws| ==> IsWord(ws[i])
  }

  /** Length of the leading run without whitespace. */
  function Run(s: string): (n: nat)
    ensures n <= |s|
    ensures forall i :: 0 <= i < n ==> !IsSpace(s[i])
    ensures n < |s| ==> IsSpace(s[n])
  {
    if s == "" || IsSpace(s[0]) then 0 else 1 + Run(s[1..])
  }

  /** `text.split()`. */
  function Split(s: string): (ws: seq<string>)
    ensures AllWords(ws)
    decreases |s|
  {
    if s == "" then []
    else if IsSpace(s[0]) then Split(s[1..])
    else
      var n := Run(s);
      assert n >= 1;
      [s[..n]] + Split(s[n..])
  }

  /** `" ".join(ws)`. */
  function Join(ws: seq<string>): string {
    if ws == [] then "" else if |ws| == 1 then ws[0] else ws[0] + " " + Join(ws[1..])
  }

  lemma {:induction false} SplitSpaces(gap: string, s: string)
    requires Blank(gap)
    ensures Split(gap + s) == Split(s)
  {
    if gap == "" {
      assert gap + s == s;
    } else {
      assert (gap + s)[1..] == gap[1..] + s;
      SplitSpaces(gap[1..], s);
    }
  }

  lemma RunOfWord(w: string, s: string)
    requires IsWord(w) && (s == "" || IsSpace(s[0]))
    ensures Run(w + s) == |w|
  {
    var t := w + s;
    var n := Run(t);
    assert forall i :: 0 <= i < |w| ==> t[i] == w[i];
    if s != "" {
      assert t[|w|] == s[0];
    }
  }

  lemma SplitWord(w: string, s: string)
    requires IsWord(w) && (s == "" || IsSpace(s[0]))
    ensures Split(w + s) == [w] + Split(s)
  {
    RunOfWord(w, s);
    assert (w + s)[0] == w[0];
    assert (w + s)[..|w|] == w && (w + s)[|w|..] == s;
  }

  lemma Prepend(w: string, x: seq<string>, y: seq<string>)
    ensures [w] + (x + y) == ([w] + x) + y
  {
  }

  /** Splitting distributes over a cut next to whitespace. */
  lemma {:induction false} SplitConcat(a: string, b: string)
    requires a == "" || b == "" || IsSpace(a[|a| - 1]) || IsSpace(b[0])
    ensures Split(a + b) == Split(a) + Split(b)
    decreases |a|
  {
    if a == "" {
      assert a + b == b;
    } else if b == "" {
      assert a + b == a;
    } else if IsSpace(a[0]) {
      assert (a + b)[0] == a[0] && (a + b)[1..] == a[1..] + b;
      SplitConcat(a[1..], b);
    } else {
      var n := Run(a);
      var w, rest := a[..n], a[n..];
      assert a == w + rest;
      if n == |a| {
        assert IsSpace(b[0]) && a == w;
        SplitWord(w, b);
        SplitWord(w, "");
        assert w + "" == w;
      } else {
        assert a + b == w + (rest + b);
        assert (rest + b)[0] == rest[0];
        SplitWord(w, rest + b);
        SplitWord(w, rest);
        SplitConcat(rest, b);
        Prepend(w, Split(rest), Split(b));
      }
    }
  }

  /** Splitting distributes over a gap of whitespace. */
  lemma SplitGap(a: string, gap: string, b: string)
    requires gap != "" && Blank(gap)
    ensures Split(a + gap + b) == Split(a) + Split(b)
  {
    assert a + gap + b == a + (gap + b);
    assert (gap + b)[0] == gap[0];
    SplitConcat(a, gap + b);
    SplitSpaces(gap, b);
  }

  /** Joining words and splitting again gives them back. */
  lemma {:induction false} SplitOfJoin(ws: seq<string>)
    requires AllWords(ws)
    ensures Split(Join(ws)) == ws
  {
    if |ws| == 1 {
      SplitWord(ws[0], "");
      assert ws[0] + "" == ws[0];
      assert ws == [ws[0]];
    } else if |ws| > 1 {
      var rest := Join(ws[1..]);
      assert ws[0] + " " + rest == ws[0] + (" " + rest);
      SplitWord(ws[0], " " + rest);
      SplitSpaces(" ", rest);
      SplitOfJoin(ws[1..]);
      assert ws == [ws[0]] + ws[1..];
    }
  }

  lemma {:induction false} SplitIsEmpty(s: string)
    ensures Split(s) == [] <==> Blank(s)
    decreases |s|
  {
    if s != "" && IsSpace(s[0]) {
      SplitIsEmpty(s[1..]);
      assert forall i :: 0 < i < |s| ==> s[i] == s[1..][i - 1];
    }
  }

  // ---------------------------------------------------------------------------
  // Strip
  // ---------------------------------------------------------------------------

  function StripLeft(s: string): string {
    if s != "" && IsSpace(s[0]) then StripLeft(s[1..]) else s
  }

  function StripRight(s: string): string {
    if s != "" && IsSpace(s[|s| - 1]) then StripRight(s[..|s| - 1]) else s
  }

  /** `text.strip()`. */
  function Strip(s: string): string {
    StripRight(StripLeft(s))
  }

  lemma {:induction false} StripLeftCuts(s: string) returns (gap: string)
    ensures Blank(gap) && s == gap + StripLeft(s)
  {
    gap := "";
    if s != "" && IsSpace(s[0]) {
      gap := StripLeftCuts(s[1..]);
      gap := [s[0]] + gap;
    }
  }

  lemma {:induction false} StripRightCuts(s: string) returns (gap: string)
    ensures Blank(gap) && s == StripRight(s) + gap
  {
    gap := "";
    if s != "" && IsSpace(s[|s| - 1]) {
      gap := StripRightCuts(s[..|s| - 1]);
      gap := gap + [s[|s| - 1]];
    }
  }

  /** A text is its strip between two runs of whitespace. */
  lemma StripCuts(s: string) returns (left: string, right: string)
    ensures Blank(left) && Blank(right) && s == left + Strip(s) + right
  {
    left := StripLeftCuts(s);
    right := StripRightCuts(StripLeft(s));
  }

  lemma {:induction false} StripLeftStartsDark(s: string)
    ensures StripLeft(s) == "" || !IsSpace(StripLeft(s)[0])
  {
    if s != "" && IsSpace(s[0]) {
      StripLeftStartsDark(s[1..]);
    }
  }

  /** Stripping leaves nothing of a blank text, and of no other. */
  lemma StripIsEmpty(s: string)
    ensures Strip(s) == "" <==> Blank(s)
  {
    var left, right := StripCuts(s);
    if Strip(s) == "" {
      assert forall i :: 0 <= i < |s| ==> IsSpace(s[i]);
    } else {
      StripLeftStartsDark(s);
      var gap := StripRightCuts(StripLeft(s));
      assert StripLeft(s)[0] == Strip(s)[0];
      assert s[|left|] == Strip(s)[0];
    }
  }

  lemma SplitOfStrip(s: string)
    ensures Split(Strip(s)) == Split(s)
  {
    var left, right := StripCuts(s);
    var t := Strip(s);
    assert s == left + (t + right);
    SplitSpaces(left, t + right);
    SplitConcat(t, right);
    SplitIsEmpty(right);
  }

  // ---------------------------------------------------------------------------
  // Ink: what is neither whitespace nor a full stop
  // ---------------------------------------------------------------------------

  predicate IsInk(c: char) {
    !IsSpace(c) && c != '.'
  }

  /** The ink of a text, in order. */
  function Ink(s: string): string {
    if s == "" then "" else (if IsInk(s[0]) then [s[0]] else []) + Ink(s[1..])
  }

  lemma {:induction false} InkConcat(a: string, b: string)
    ensures Ink(a + b) == Ink(a) + Ink(b)
  {
    if a == "" {
      assert a + b == b;
    } else {
      assert (a + b)[0] == a[0] && (a + b)[1..] == a[1..] + b;
      InkConcat(a[1..], b);
      var first := if IsInk(a[0]) then [a[0]] else [];
      assert first + (Ink(a[1..]) + Ink(b)) == (first + Ink(a[1..])) + Ink(b);
    }
  }

  lemma {:induction false} InkOfNone(s: string)
    requires forall i :: 0 <= i < |s| ==> !IsInk(s[i])
    ensures Ink(s) == ""
  {
    if s != "" {
      InkOfNone(s[1..]);
    }
  }

  lemma InkOfStrip(s: string)
    ensures Ink(Strip(s)) == Ink(s)
  {
    var left, right := StripCuts(s);
    InkConcat(left + Strip(s), right);
    InkConcat(left, Strip(s));
    InkOfNone(left);
    InkOfNone(right);
  }

  /** The ink of several texts, one after the other. */
  function InkOfAll(ts: seq<string>): string {
    if ts == [] then "" else Ink(ts[0]) + InkOfAll(ts[1..])
  }

  lemma {:induction false} InkOfAllConcat(a: seq<string>, b: seq<string>)
    ensures InkOfAll(a + b) == InkOfAll(a) + InkOfAll(b)
  {
    if a == [] {
      assert a + b == b;
    } else {
      assert (a + b)[1..] == a[1..] + b;
      InkOfAllConcat(a[1..], b);
    }
  }

  lemma {:induction false} InkOfJoin(ws: seq<string>)
    ensures Ink(Join(ws)) == InkOfAll(ws)
  {
    if |ws| == 1 {
      assert ws[1..] == [];
    } else if |ws| > 1 {
      InkConcat(ws[0] + " ", Join(ws[1..]));
      InkConcat(ws[0], " ");
      InkOfNone(" ");
      InkOfJoin(ws[1..]);
    }
  }

  lemma {:induction false} InkOfSplit(s: string)
    ensures InkOfAll(Split(s)) == Ink(s)
    decreases |s|
  {
    if s != "" {
      if IsSpace(s[0]) {
        InkOfSplit(s[1..]);
      } else {
        var n := Run(s);
        assert s == s[..n] + s[n..];
        InkConcat(s[..n], s[n..]);
        InkOfSplit(s[n..]);
      }
    }
  }
}
