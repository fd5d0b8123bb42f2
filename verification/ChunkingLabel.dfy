/** The Job label that carries a chunking configuration from the launch of an
    ingest Job to its write-back. */
module ChunkingLabel {
  import opened Common
  import opened Tuning

  /** What `%d` prints. */
  function IntText(i: int): (s: string)
    ensures |s| > 0 && '.' !in s
  {
    if i < 0 then ['-'] + Numeral(-i) else Numeral(i)
  }

  function Encode(c: Chunking): string {
    c.strategy + "." + IntText(c.maxTokens) + "." + IntText(c.overlap)
  }

  /** Length of the leading run of digits. */
  function DigitRun(s: string): (n: nat)
    ensures n <= |s|
    ensures forall i :: 0 <= i < n ==> IsDigit(s[i])
    ensures n < |s| ==> !IsDigit(s[n])
  {
    if |s| > 0 && IsDigit(s[0]) then 1 + DigitRun(s[1..]) else 0
  }

  /** What `%d` reads from the front of a text: an optional sign and a run of
      digits. Zero when there is no number, because the caller drops the error. */
  function ScanInt(s: string): int {
    var signed := |s| > 0 && (s[0] == '-' || s[0] == '+');
    var body := if signed then s[1..] else s;
    var n := DigitRun(body);
    if n == 0 then 0
    else if signed && s[0] == '-' then -(NumeralValue(body[..n]) as int)
    else NumeralValue(body[..n])
  }

  /** Index of the first '.', or the length when there is none. */
  function FirstDot(s: string): (n: nat)
    ensures n <= |s|
    ensures forall i :: 0 <= i < n ==> s[i] != '.'
    ensures n < |s| ==> s[n] == '.'
  {
    if |s| == 0 || s[0] == '.' then 0 else 1 + FirstDot(s[1..])
  }

  /** Reads a label back. An absent label (the empty string), one with fewer than
      three fields and one with an empty strategy all yield the fallback. */
  function Decode(text: string, fallback: Chunking): Chunking {
    var i := FirstDot(text);
    if i == |text| then fallback
    else
      var tail := text[i + 1..];
      var j := FirstDot(tail);
      if j == |tail| || i == 0 then fallback
      else Chunking(text[..i], ScanInt(tail[..j]), ScanInt(tail[j + 1..]))
  }

  /** What a label can carry: a non-empty strategy without the field separator. */
  predicate LabelSafe(c: Chunking) {
    c.strategy != "" && '.' !in c.strategy
  }

  // ---------------------------------------------------------------------------

  lemma ScanIntOfIntText(i: int)
    ensures ScanInt(IntText(i)) == i
  {
    var n := if i < 0 then -i else i;
    NumeralRoundTrip(n);
    assert IsDigit(Numeral(n)[0]);
    if i < 0 {
      assert IntText(i)[1..] == Numeral(n);
    }
    assert DigitRun(Numeral(n)) == |Numeral(n)|;
    assert Numeral(n)[..|Numeral(n)|] == Numeral(n);
  }

  lemma FirstDotAfter(a: string, b: string)
    requires '.' !in a
    ensures FirstDot(a + "." + b) == |a|
  {
    var s := a + "." + b;
    assert s[|a|] == '.';
    assert forall i :: 0 <= i < |a| ==> s[i] == a[i];
  }

  lemma DecodeThreeFields(a: string, t: string, o: string, fallback: Chunking)
    requires a != "" && '.' !in a && '.' !in t
    ensures Decode(a + "." + (t + "." + o), fallback) == Chunking(a, ScanInt(t), ScanInt(o))
  {
    var rest := t + "." + o;
    var text := a + "." + rest;
    FirstDotAfter(a, rest);
    FirstDotAfter(t, o);
    assert text[..|a|] == a && text[|a| + 1..] == rest;
    assert rest[..|t|] == t && rest[|t| + 1..] == o;
  }

  lemma DecodeOfEncode(c: Chunking, fallback: Chunking)
    requires LabelSafe(c)
    ensures Decode(Encode(c), fallback) == c
  {
    var t, o := IntText(c.maxTokens), IntText(c.overlap);
    assert Encode(c) == c.strategy + "." + (t + "." + o);
    DecodeThreeFields(c.strategy, t, o, fallback);
    ScanIntOfIntText(c.maxTokens);
    ScanIntOfIntText(c.overlap);
  }

  /** Writing the label and reading it back is the identity, whatever the
      fallback, precisely for the strategies a label can carry. */
  lemma LabelRoundTrip(c: Chunking)
    ensures LabelSafe(c) <==> forall fallback :: Decode(Encode(c), fallback) == c
  {
    if LabelSafe(c) {
      forall fallback ensures Decode(Encode(c), fallback) == c {
        DecodeOfEncode(c, fallback);
      }
    } else {
      var other := c.(overlap := c.overlap + 1);
      var text := Encode(c);
      if c.strategy == "" {
        assert text[0] == '.';
      } else {
        var k :| 0 <= k < |c.strategy| && c.strategy[k] == '.';
        assert text[k] == '.';
      }
      assert Decode(text, other) != c;
    }
  }

  /** A label names the strategy, the chunk size and the overlap, in this order. */
  lemma DefaultLabel()
    ensures Encode(Chunking(SEMANTIC, 800, 80)) == "semantic.800.80"
  {
    assert Numeral(8) == "8";
    assert Numeral(80) == Numeral(8) + [DigitChar(0)] == "80";
    assert Numeral(800) == Numeral(80) + [DigitChar(0)] == "800";
  }
}
