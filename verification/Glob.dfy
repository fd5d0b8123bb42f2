/** The glob compiler: gitignore-style globs to regular expressions, and the
    segment-by-segment meaning it should have. */
module Glob {
  import opened Common
  import opened Regex

  // ---------------------------------------------------------------------------
  // The compiler
  // ---------------------------------------------------------------------------

  /** What one step of the compiler consumes. */
  datatype Token = AnyDirs | Anything | StarInSegment | OneInSegment | Literal(c: char)

  function Head(glob: string): Token
    requires glob != ""
  {
    if "**/" <= glob then AnyDirs
    else if "**" <= glob then Anything
    else if glob[0] == '*' then StarInSegment
    else if glob[0] == '?' then OneInSegment
    else Literal(glob[0])
  }

  function Width(t: Token): nat {
    match t
    case AnyDirs => 3
    case Anything => 2
    case _ => 1
  }

  function Tokens(glob: string): seq<Token> {
    if glob == "" then [] else [Head(glob)] + Tokens(glob[Width(Head(glob))..])
  }

  function Text(t: Token): string {
    match t
    case AnyDirs => "(?:.*/)?"
    case Anything => ".*"
    case StarInSegment => "[^/]*"
    case OneInSegment => "[^/]"
    case Literal(c) => Escape(c)
  }

  function Texts(ts: seq<Token>): string {
    if ts == [] then "" else Text(ts[0]) + Texts(ts[1..])
  }

  lemma {:induction false} TextsSnoc(ts: seq<Token>, t: Token)
    ensures Texts(ts + [t]) == Texts(ts) + Text(t)
  {
    if ts == [] {
      assert ts + [t] == [t];
      assert Texts([t][1..]) == "";
    } else {
      assert (ts + [t])[1..] == ts[1..] + [t];
      TextsSnoc(ts[1..], t);
    }
  }

  lemma HeadFits(glob: string)
    requires glob != ""
    ensures Width(Head(glob)) <= |glob|
  {
  }

  lemma Regroup(a: seq<Token>, t: Token, b: seq<Token>)
    ensures a + ([t] + b) == (a + [t]) + b
  {
  }

  lemma TokensUnfold(glob: string)
    requires glob != ""
    ensures Width(Head(glob)) <= |glob| && Tokens(glob) == [Head(glob)] + Tokens(glob[Width(Head(glob))..])
  {
    HeadFits(glob);
  }

  lemma DropDrop(s: string, i: nat, w: nat)
    requires i + w <= |s|
    ensures s[i..][w..] == s[i + w..]
  {
  }

  lemma TokensStep(glob: string, i: nat, done: seq<Token>)
    requires i < |glob| && Tokens(glob) == done + Tokens(glob[i..])
    ensures var t := Head(glob[i..]);
            i + Width(t) <= |glob| && Tokens(glob) == (done + [t]) + Tokens(glob[i + Width(t)..])
  {
    var t := Head(glob[i..]);
    TokensUnfold(glob[i..]);
    DropDrop(glob, i, Width(t));
    Regroup(done, t, Tokens(glob[i + Width(t)..]));
  }

  /** The anchored pattern of a glob. */
  function PatternOf(glob: string): string {
    "^" + Texts(Tokens(glob)) + "$"
  }

  /** The loop over the glob, appending to `out`. */
  method GlobToRegex(glob: string) returns (pattern: string)
    ensures pattern == PatternOf(glob)
  {
    var i, n := 0, |glob|;
    var out := "";
    ghost var done: seq<Token> := [];
    assert glob[0..] == glob;
    while i < n
      invariant 0 <= i <= n
      invariant Tokens(glob) == done + Tokens(glob[i..])
      invariant out == Texts(done)
    {
      var c := glob[i];
      TokensStep(glob, i, done);
      TextsSnoc(done, Head(glob[i..]));
      done := done + [Head(glob[i..])];
      if "**/" <= glob[i..] {
        out := out + "(?:.*/)?";
        i := i + 3;
      } else if "**" <= glob[i..] {
        out := out + ".*";
        i := i + 2;
      } else if c == '*' {
        out := out + "[^/]*";
        i := i + 1;
      } else if c == '?' {
        out := out + "[^/]";
        i := i + 1;
      } else {
        out := out + Escape(c);
        i := i + 1;
      }
    }
    assert done + [] == done;
    pattern := "^" + out + "$";
  }

  // ---------------------------------------------------------------------------
  // What the generated text means
  // ---------------------------------------------------------------------------

  function Meaning(t: Token): Re {
    match t
    case AnyDirs => Opt([Star(Dot), Char('/')])
    case Anything => Star(Dot)
    case StarInSegment => Star(NotSlash)
    case OneInSegment => NotSlash
    case Literal(c) => Char(c)
  }

  function Meanings(ts: seq<Token>): seq<Re> {
    if ts == [] then [] else [Meaning(ts[0])] + Meanings(ts[1..])
  }

  /** No generated text starts with a quantifier, so each text ends where it should. */
  lemma TextsStart(ts: seq<Token>)
    ensures Texts(ts) == "" || Texts(ts)[0] != '*'
  {
    if ts != [] {
      assert Text(ts[0]) != "" && Text(ts[0])[0] != '*';
    }
  }

  lemma ParseStars(rest: string)
    requires rest == "" || rest[0] != '*'
    ensures Parse("(?:.*/)?" + rest) == Prepend([Opt([Star(Dot), Char('/')])], Parse(rest))
    ensures Parse(".*" + rest) == Prepend([Star(Dot)], Parse(rest))
  {
    assert ("(?:.*/)?" + rest)[8..] == rest;
    var s := ".*" + rest;
    assert s[0] == '.' && s[2..] == rest;
  }

  lemma ParseStarInSegment(rest: string)
    ensures Parse("[^/]*" + rest) == Prepend([Star(NotSlash)], Parse(rest))
  {
    var s := "[^/]*" + rest;
    assert s[0] == '[' && s[5..] == rest;
  }

  lemma ParseOneInSegment(rest: string)
    requires rest == "" || rest[0] != '*'
    ensures Parse("[^/]" + rest) == Prepend([NotSlash], Parse(rest))
  {
    var s := "[^/]" + rest;
    assert s[0] == '[' && s[4..] == rest;
    if rest != "" {
      assert s[4] == rest[0];
    }
  }

  lemma SpecialStarts()
    ensures '(' in SPECIAL && '[' in SPECIAL && '*' in SPECIAL && '\\' in SPECIAL && '.' in SPECIAL
  {
    assert SPECIAL[0] == '(' && SPECIAL[2] == '[' && SPECIAL[7] == '*' && SPECIAL[13] == '\\' && SPECIAL[14] == '.';
  }

  lemma ParsePlain(c: char, rest: string)
    requires c != '(' && c != '[' && c != '\\' && c != '.' && c !in SPECIAL
    ensures Parse([c] + rest) == Prepend([Char(c)], Parse(rest))
  {
    var s := [c] + rest;
    assert s[0] == c && s[1..] == rest;
  }

  lemma ParseEscaped(c: char, rest: string)
    ensures Parse(['\\', c] + rest) == Prepend([Char(c)], Parse(rest))
  {
    var s := ['\\', c] + rest;
    assert s[0] == '\\' && s[1] == c && s[2..] == rest;
  }

  lemma ParseLiteral(c: char, rest: string)
    ensures Parse(Escape(c) + rest) == Prepend([Char(c)], Parse(rest))
  {
    if c in SPECIAL {
      ParseEscaped(c, rest);
    } else {
      SpecialStarts();
      ParsePlain(c, rest);
    }
  }

  lemma ParseOne(t: Token, rest: string)
    requires rest == "" || rest[0] != '*'
    ensures Parse(Text(t) + rest) == Prepend([Meaning(t)], Parse(rest))
  {
    match t
    case AnyDirs => ParseStars(rest);
    case Anything => ParseStars(rest);
    case StarInSegment => ParseStarInSegment(rest);
    case OneInSegment => ParseOneInSegment(rest);
    case Literal(c) => ParseLiteral(c, rest);
  }

  /** Read back from the whole pattern, anchors included. */
  lemma PatternMeansTokens(glob: string)
    ensures ParsePattern(PatternOf(glob)) == Some(Meanings(Tokens(glob)))
  {
    var pattern := PatternOf(glob);
    assert pattern[1..|pattern| - 1] == Texts(Tokens(glob));
    TextMeansTokens(Tokens(glob));
  }

  /** The regular expression the compiler writes, read back from its text, is the one
      meant. */
  lemma {:induction false} TextMeansTokens(ts: seq<Token>)
    ensures Parse(Texts(ts)) == Some(Meanings(ts))
  {
    if ts != [] {
      TextsStart(ts[1..]);
      ParseOne(ts[0], Texts(ts[1..]));
      TextMeansTokens(ts[1..]);
    }
  }

  /** `re.match` with the generated pattern, for paths without line feeds. */
  ghost predicate Accepts(glob: string, path: string) {
    Matches(Meanings(Tokens(glob)), path)
  }
}
