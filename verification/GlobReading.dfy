/** Globs read character by character, and the proof that the compiled regular expression
    accepts the same paths, for every glob. */
module GlobReading {
  import opened Regex
  import opened Glob
  import opened GlobMeaning

  /** `**` and a slash stand for nothing or for anything up to some slash; any other `**`
      for anything; `*` for anything without a slash; `?` for any one character but a
      slash; every other character for itself. */
  predicate Reads(glob: string, path: string)
    decreases |glob|
  {
    if glob == "" then path == ""
    else if "**/" <= glob then
      Reads(glob[3..], path)
      || exists k | 0 <= k < |path| :: path[k] == '/' && Reads(glob[3..], path[k + 1..])
    else if "**" <= glob then exists k | 0 <= k <= |path| :: Reads(glob[2..], path[k..])
    else if glob[0] == '*' then exists k | 0 <= k <= |path| :: '/' !in path[..k] && Reads(glob[1..], path[k..])
    else
      path != "" && (if glob[0] == '?' then path[0] != '/' else path[0] == glob[0]) && Reads(glob[1..], path[1..])
  }

  lemma DotRun(path: string, k: nat)
    requires NoLineFeed(path) && k <= |path|
    ensures AllIn(Dot, path[..k]) && NoLineFeed(path[k..])
  {
    assert forall c :: c in path[..k] ==> c in path;
  }

  lemma SlashFree(s: string)
    ensures AllIn(NotSlash, s) <==> '/' !in s
  {
  }

  /** The rest of a glob accepts and reads the same ends of the path. */
  ghost predicate RestReads(rest: string, path: string) {
    forall k | 0 <= k <= |path| :: Accepts(rest, path[k..]) <==> Reads(rest, path[k..])
  }

  lemma DirsRead(glob: string, path: string)
    requires NoLineFeed(path) && "**/" <= glob && RestReads(glob[3..], path)
    ensures Accepts(glob, path) <==> Reads(glob, path)
  {
    assert glob == "**/" + glob[3..] && path[0..] == path;
    DirsPrefix(glob[3..], path);
  }

  lemma StarsRead(glob: string, path: string)
    requires NoLineFeed(path) && "**" <= glob && !("**/" <= glob) && RestReads(glob[2..], path)
    ensures Accepts(glob, path) <==> Reads(glob, path)
  {
    ConsTokens(Anything, glob);
    StarRuns(Dot, Meanings(Tokens(glob[2..])), path);
    if Reads(glob, path) {
      var k :| 0 <= k <= |path| && Reads(glob[2..], path[k..]);
      DotRun(path, k);
      assert Accepts(glob[2..], path[k..]);
    }
  }

  lemma StarReads(glob: string, path: string)
    requires glob != "" && glob[0] == '*' && !("**" <= glob) && RestReads(glob[1..], path)
    ensures Accepts(glob, path) <==> Reads(glob, path)
  {
    var ms := Meanings(Tokens(glob[1..]));
    ConsTokens(StarInSegment, glob);
    StarRuns(NotSlash, ms, path);
    if k :| 0 <= k <= |path| && AllIn(NotSlash, path[..k]) && Matches(ms, path[k..]) {
      SlashFree(path[..k]);
      assert Accepts(glob[1..], path[k..]);
    }
    if k :| 0 <= k <= |path| && '/' !in path[..k] && Reads(glob[1..], path[k..]) {
      SlashFree(path[..k]);
      assert Accepts(glob[1..], path[k..]);
    }
  }

  lemma OneReads(glob: string, path: string)
    requires glob != "" && glob[0] != '*' && RestReads(glob[1..], path)
    ensures Accepts(glob, path) <==> Reads(glob, path)
  {
    ConsTokens(Head(glob), glob);
    var ms := [Meaning(Head(glob))] + Meanings(Tokens(glob[1..]));
    assert ms[1..] == Meanings(Tokens(glob[1..]));
    if path != "" {
      assert Accepts(glob[1..], path[1..]) <==> Reads(glob[1..], path[1..]);
    }
  }

  /** The compiled pattern accepts a path exactly when the glob reads it. */
  lemma {:induction false} GlobReads(glob: string, path: string)
    requires NoLineFeed(path)
    ensures Accepts(glob, path) <==> Reads(glob, path)
    decreases |glob|
  {
    if glob != "" {
      var rest := glob[Width(Head(glob))..];
      forall k | 0 <= k <= |path| ensures Accepts(rest, path[k..]) <==> Reads(rest, path[k..]) {
        DotRun(path, k);
        GlobReads(rest, path[k..]);
      }
      if "**/" <= glob {
        DirsRead(glob, path);
      } else if "**" <= glob {
        StarsRead(glob, path);
      } else if glob[0] == '*' {
        StarReads(glob, path);
      } else {
        OneReads(glob, path);
      }
    }
  }

  /** The same for the pattern the compiler returns, for every glob. */
  lemma CompiledPatternReads(glob: string, path: string)
    requires NoLineFeed(path)
    ensures var rs := ParsePattern(PatternOf(glob)); rs.Some? && (Matches(rs.value, path) <==> Reads(glob, path))
  {
    PatternMeansTokens(glob);
    GlobReads(glob, path);
  }
}
