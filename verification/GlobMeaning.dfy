/** Globs read segment by segment, and the proof that the compiled regular
    expression accepts the same paths. */
module GlobMeaning {
  import opened Paths
  import opened Regex
  import opened Glob

  // ---------------------------------------------------------------------------
  // The meaning of a glob, without regular expressions
  // ---------------------------------------------------------------------------

  /** Inside one segment: a star is any run, a question mark any one character. */
  predicate SegmentMatches(pattern: string, segment: string)
    decreases |pattern| + |segment|
  {
    if pattern == "" then segment == ""
    else if pattern[0] == '*' then
      SegmentMatches(pattern[1..], segment) || (segment != "" && SegmentMatches(pattern, segment[1..]))
    else
      segment != "" && (pattern[0] == '?' || pattern[0] == segment[0]) && SegmentMatches(pattern[1..], segment[1..])
  }

  /** Segment by segment: a double star stands for zero or more segments, and at the
      end of the glob for everything below. */
  predicate PathMatches(globs: seq<string>, path: seq<string>)
    decreases |globs| + |path|
  {
    if globs == [] then path == []
    else if globs[0] == "**" then
      if |globs| == 1 then path != []
      else PathMatches(globs[1..], path) || (path != [] && PathMatches(globs, path[1..]))
    else path != [] && SegmentMatches(globs[0], path[0]) && PathMatches(globs[1..], path[1..])
  }

  predicate NoDouble(s: string) {
    forall i :: 0 <= i < |s| - 1 ==> !(s[i] == '*' && s[i + 1] == '*')
  }

  /** Double stars only as whole segments. */
  predicate WholeStars(glob: string) {
    forall i :: 0 <= i < |Split(glob)| ==> Split(glob)[i] == "**" || NoDouble(Split(glob)[i])
  }

  // ---------------------------------------------------------------------------
  // One segment
  // ---------------------------------------------------------------------------

  lemma {:induction false} StarSegment(p: string, u: string)
    ensures SegmentMatches(['*'] + p, u) <==> exists j :: 0 <= j <= |u| && SegmentMatches(p, u[j..])
    decreases |u|
  {
    assert (['*'] + p)[1..] == p;
    assert u[0..] == u;
    if u != "" {
      StarSegment(p, u[1..]);
      if j :| 0 <= j <= |u[1..]| && SegmentMatches(p, u[1..][j..]) {
        assert u[1..][j..] == u[j + 1..];
      }
      if j :| 1 <= j <= |u| && SegmentMatches(p, u[j..]) {
        assert u[1..][j - 1..] == u[j..];
      }
    }
  }

  /** The split of `s` into what a segment pattern matches and what follows. */
  ghost predicate SegmentThenAt(seg: string, tail: string, s: string, k: int) {
    0 <= k <= |s| && NoSlash(s[..k]) && SegmentMatches(seg, s[..k]) && Accepts(tail, s[k..])
  }

  ghost predicate SegmentThen(seg: string, tail: string, s: string) {
    exists k :: SegmentThenAt(seg, tail, s, k)
  }

  lemma ConsTokens(t: Token, glob: string)
    requires glob != "" && Head(glob) == t
    ensures Meanings(Tokens(glob)) == [Meaning(t)] + Meanings(Tokens(glob[Width(t)..]))
  {
    assert ([t] + Tokens(glob[Width(t)..]))[1..] == Tokens(glob[Width(t)..]);
  }

  lemma Slices(s: string, j: nat, k: nat)
    requires j <= k <= |s|
    ensures s[j..][..k - j] == s[..k][j..] && s[j..][k - j..] == s[k..]
    ensures s[..k][..j] == s[..j]
  {
  }

  lemma StarCaseTo(p: string, tail: string, s: string, j: nat)
    requires j <= |s| && AllIn(NotSlash, s[..j]) && SegmentThen(p, tail, s[j..])
    ensures SegmentThen(['*'] + p, tail, s)
  {
    var u := s[j..];
    var k :| SegmentThenAt(p, tail, u, k);
    Slices(s, j, j + k);
    NoSlashTogether(s, j, k);
    StarTakes(p, s[..j + k], j);
    assert SegmentThenAt(['*'] + p, tail, s, j + k);
  }

  lemma NoSlashTogether(s: string, j: nat, k: nat)
    requires j + k <= |s| && AllIn(NotSlash, s[..j]) && NoSlash(s[j..][..k])
    ensures NoSlash(s[..j + k])
  {
    NoSlashConcat(s[..j], s[j..][..k]);
    assert s[..j + k] == s[..j] + s[j..][..k];
  }

  lemma NoSlashConcat(a: string, b: string)
    requires AllIn(NotSlash, a) && NoSlash(b)
    ensures NoSlash(a + b)
  {
  }

  lemma StarTakes(p: string, u: string, j: nat)
    requires j <= |u| && SegmentMatches(p, u[j..])
    ensures SegmentMatches(['*'] + p, u)
  {
    StarSegment(p, u);
  }

  lemma NoSlashLater(s: string, j: nat)
    requires j <= |s| && NoSlash(s)
    ensures NoSlash(s[j..]) && AllIn(NotSlash, s[..j])
  {
  }

  lemma StarCaseFrom(p: string, tail: string, s: string) returns (j: nat)
    requires SegmentThen(['*'] + p, tail, s)
    ensures j <= |s| && AllIn(NotSlash, s[..j]) && SegmentThen(p, tail, s[j..])
  {
    var k :| SegmentThenAt(['*'] + p, tail, s, k);
    StarSegment(p, s[..k]);
    j :| 0 <= j <= k && SegmentMatches(p, s[..k][j..]);
    Slices(s, j, k);
    NoSlashLater(s[..k], j);
    assert SegmentThenAt(p, tail, s[j..], k - j);
  }

  lemma StarCase(p: string, tail: string, s: string)
    requires forall u | |u| <= |s| :: Accepts(p + tail, u) <==> SegmentThen(p, tail, u)
    ensures (exists j :: 0 <= j <= |s| && AllIn(NotSlash, s[..j]) && Accepts(p + tail, s[j..]))
            <==> SegmentThen(['*'] + p, tail, s)
  {
    if j :| 0 <= j <= |s| && AllIn(NotSlash, s[..j]) && Accepts(p + tail, s[j..]) {
      StarCaseTo(p, tail, s, j);
    }
    if SegmentThen(['*'] + p, tail, s) {
      var j := StarCaseFrom(p, tail, s);
    }
  }

  lemma CharCase(p: string, tail: string, s: string, first: string)
    requires |first| == 1 && first[0] != '*' && first[0] != '/'
    requires s != "" ==> (Accepts(p + tail, s[1..]) <==> SegmentThen(p, tail, s[1..]))
    ensures (s != "" && s[0] != '/' && (first[0] == '?' || s[0] == first[0]) && Accepts(p + tail, s[1..]))
            <==> SegmentThen(first + p, tail, s)
  {
    assert (first + p)[1..] == p;
    if s != "" && s[0] != '/' && (first[0] == '?' || s[0] == first[0]) && Accepts(p + tail, s[1..]) {
      var u := s[1..];
      var k :| SegmentThenAt(p, tail, u, k);
      assert s[..k + 1] == [s[0]] + u[..k] && s[k + 1..] == u[k..] && s[..k + 1][1..] == u[..k];
      assert SegmentThenAt(first + p, tail, s, k + 1);
    }
    if k :| SegmentThenAt(first + p, tail, s, k) {
      var u := s[1..];
      assert s[..k][0] == s[0] && s[..k][1..] == u[..k - 1] && u[k - 1..] == s[k..];
      assert NoSlash(s[..k][1..]) by {
        assert forall c :: c in s[..k][1..] ==> c in s[..k];
      }
      assert SegmentThenAt(p, tail, u, k - 1);
    }
  }

  lemma SegmentTail(seg: string, tail: string)
    requires seg != "" && NoSlash(seg) && NoDouble(seg) && (tail == "" || tail[0] == '/')
    ensures NoSlash(seg[1..]) && NoDouble(seg[1..])
    ensures !("**" <= seg + tail) && !("**/" <= seg + tail)
  {
    var p, glob := seg[1..], seg + tail;
    assert forall i :: 0 <= i < |p| ==> p[i] == seg[i + 1];
    assert |glob| >= 2 ==> !(glob[0] == '*' && glob[1] == '*') by {
      if |seg| >= 2 {
        assert glob[1] == seg[1];
      }
    }
  }

  lemma EmptyThen(tail: string, s: string)
    ensures "" + tail == tail && (Accepts(tail, s) <==> SegmentThen("", tail, s))
  {
    assert s[..0] == "" && s[0..] == s;
    if Accepts(tail, s) {
      assert SegmentThenAt("", tail, s, 0);
    }
    if k :| SegmentThenAt("", tail, s, k) {
      assert k == 0;
    }
  }

  /** A segment pattern followed by nothing or by a slash. */
  lemma {:induction false} SegmentAccepts(seg: string, tail: string, s: string)
    requires NoSlash(seg) && NoDouble(seg) && (tail == "" || tail[0] == '/')
    ensures Accepts(seg + tail, s) <==> SegmentThen(seg, tail, s)
    decreases |seg|
  {
    if seg == "" {
      EmptyThen(tail, s);
    } else {
      var p, glob := seg[1..], seg + tail;
      assert seg == [seg[0]] + p && glob[1..] == p + tail && glob[0] == seg[0];
      SegmentTail(seg, tail);
      var t := Head(glob);
      ConsTokens(t, glob);
      if seg[0] == '*' {
        forall u | |u| <= |s| ensures Accepts(p + tail, u) <==> SegmentThen(p, tail, u) {
          SegmentAccepts(p, tail, u);
        }
        StarRuns(NotSlash, Meanings(Tokens(p + tail)), s);
        StarCase(p, tail, s);
      } else {
        if s != "" {
          SegmentAccepts(p, tail, s[1..]);
        }
        CharCase(p, tail, s, [seg[0]]);
        assert seg[0] != '/';
      }
    }
  }

  // ---------------------------------------------------------------------------
  // Whole paths
  // ---------------------------------------------------------------------------

  lemma {:induction false} NothingMatchesNoPath(globs: seq<string>)
    requires globs != []
    ensures !PathMatches(globs, [])
  {
    if globs[0] == "**" && |globs| > 1 {
      NothingMatchesNoPath(globs[1..]);
    }
  }

  /** The last segment of a glob. */
  lemma LastSegment(seg: string, path: string)
    requires NoSlash(seg) && NoDouble(seg) && seg != "**"
    ensures Accepts(seg, path) <==> PathMatches([seg], Split(path))
  {
    SegmentAccepts(seg, "", path);
    assert seg + "" == seg;
    SplitAt(path);
    var i := FirstSlash(path);
    if SegmentThen(seg, "", path) {
      var k :| SegmentThenAt(seg, "", path, k);
      assert k == |path| && path[..k] == path;
    }
    if i == |path| {
      assert path[..|path|] == path && path[|path|..] == "";
      assert SegmentMatches(seg, path) ==> SegmentThenAt(seg, "", path, |path|);
    } else {
      assert path[..|path|][i] == '/';
    }
  }

  lemma SlashThen(rest: string, path: string, k: nat)
    requires k <= |path|
    ensures Accepts("/" + rest, path[k..]) <==> k < |path| && path[k] == '/' && Accepts(rest, path[k + 1..])
  {
    var tail := "/" + rest;
    assert tail[0] == '/' && tail[1..] == rest;
    assert "**/"[0] == '*' && "**"[0] == '*';
    assert Head(tail) == Literal('/');
    ConsTokens(Literal('/'), tail);
    if k < |path| {
      assert path[k..][0] == path[k] && path[k..][1..] == path[k + 1..];
    }
  }

  lemma NoSlashPrefix(path: string, k: nat)
    requires k <= |path| && NoSlash(path[..k])
    ensures k <= FirstSlash(path)
  {
    var front := path[..k];
    assert forall j :: 0 <= j < k ==> path[j] == front[j] && front[j] in front;
  }

  lemma PathStep(seg: string, globs: seq<string>, path: seq<string>)
    requires seg != "**"
    ensures PathMatches([seg] + globs, path) <==>
            path != [] && SegmentMatches(seg, path[0]) && PathMatches(globs, path[1..])
  {
    assert ([seg] + globs)[1..] == globs;
  }

  lemma SegmentThenSlash(seg: string, rest: string, path: string)
    ensures var i := FirstSlash(path);
            SegmentThen(seg, "/" + rest, path) <==>
            i < |path| && SegmentMatches(seg, path[..i]) && Accepts(rest, path[i + 1..])
  {
    var i := FirstSlash(path);
    if k :| SegmentThenAt(seg, "/" + rest, path, k) {
      SlashThen(rest, path, k);
      NoSlashPrefix(path, k);
    }
    if i < |path| && SegmentMatches(seg, path[..i]) && Accepts(rest, path[i + 1..]) {
      SlashThen(rest, path, i);
      assert SegmentThenAt(seg, "/" + rest, path, i);
    }
  }

  lemma InnerAccepts(seg: string, rest: string, path: string)
    requires NoSlash(seg) && NoDouble(seg)
    ensures var i := FirstSlash(path);
            Accepts(seg + "/" + rest, path) <==>
            i < |path| && SegmentMatches(seg, path[..i]) && Accepts(rest, path[i + 1..])
  {
    var tail := "/" + rest;
    assert seg + "/" + rest == seg + tail;
    SegmentAccepts(seg, tail, path);
    SegmentThenSlash(seg, rest, path);
  }

  lemma InnerMatches(seg: string, globs: seq<string>, path: string)
    requires seg != "**" && globs != []
    ensures var i := FirstSlash(path);
            PathMatches([seg] + globs, Split(path)) <==>
            i < |path| && SegmentMatches(seg, path[..i]) && PathMatches(globs, Split(path[i + 1..]))
  {
    SplitAt(path);
    PathStep(seg, globs, Split(path));
    NothingMatchesNoPath(globs);
  }

  predicate NoLineFeed(s: string) {
    '\n' !in s
  }

  /** `rest` accepts what follows some slash of the path. */
  ghost predicate AfterSlash(rest: string, path: string) {
    exists k :: 0 <= k < |path| && path[k] == '/' && Accepts(rest, path[k + 1..])
  }

  lemma AfterLaterSlash(rest: string, path: string, i: nat)
    requires i < |path| && AfterSlash(rest, path[i + 1..])
    ensures AfterSlash(rest, path)
  {
    var after := path[i + 1..];
    var k :| 0 <= k < |after| && after[k] == '/' && Accepts(rest, after[k + 1..]);
    assert path[i + 1 + k] == '/' && path[i + 1 + k + 1..] == after[k + 1..];
  }

  lemma DropTwice(s: string, i: nat, k: nat)
    requires i < k < |s|
    ensures s[i + 1..][k - i - 1] == s[k] && s[i + 1..][k - i - 1 + 1..] == s[k + 1..]
  {
  }

  /** `good` holds of what follows some slash of the path. */
  ghost predicate GoodAfterSlash(good: string -> bool, path: string) {
    exists k :: 0 <= k < |path| && path[k] == '/' && good(path[k + 1..])
  }

  lemma GoodAfterFirst(good: string -> bool, path: string)
    requires GoodAfterSlash(good, path)
    ensures var i := FirstSlash(path);
            i < |path| && (good(path[i + 1..]) || GoodAfterSlash(good, path[i + 1..]))
  {
    var i := FirstSlash(path);
    var k :| 0 <= k < |path| && path[k] == '/' && good(path[k + 1..]);
    if k != i {
      assert i < k;
      DropTwice(path, i, k);
      assert GoodAfterSlash(good, path[i + 1..]);
    }
  }

  lemma AfterSomeSlash(rest: string, path: string)
    requires AfterSlash(rest, path)
    ensures var i := FirstSlash(path);
            i < |path| && (Accepts(rest, path[i + 1..]) || AfterSlash(rest, path[i + 1..]))
  {
    var good: string -> bool := s => Accepts(rest, s);
    var k :| 0 <= k < |path| && path[k] == '/' && Accepts(rest, path[k + 1..]);
    assert good(path[k + 1..]);
    GoodAfterFirst(good, path);
    var after := path[FirstSlash(path) + 1..];
    if j :| 0 <= j < |after| && after[j] == '/' && good(after[j + 1..]) {
      assert Accepts(rest, after[j + 1..]);
    }
  }

  /** A double star before a slash, unrolled once. */
  lemma AnyDirsUnrolled(rest: string, path: string)
    requires NoLineFeed(path)
    ensures Accepts("**/" + rest, path) <==>
            Accepts(rest, path) || (FirstSlash(path) < |path| && Accepts("**/" + rest, path[FirstSlash(path) + 1..]))
  {
    DirsPrefix(rest, path);
    var i := FirstSlash(path);
    if i < |path| {
      var after := path[i + 1..];
      assert NoLineFeed(after);
      DirsPrefix(rest, after);
      if AfterSlash(rest, after) {
        AfterLaterSlash(rest, path, i);
      }
    }
    if AfterSlash(rest, path) {
      AfterSomeSlash(rest, path);
    }
  }

  lemma DirsPrefix(rest: string, path: string)
    requires NoLineFeed(path)
    ensures Accepts("**/" + rest, path) <==>
            Accepts(rest, path) || AfterSlash(rest, path)
  {
    var glob := "**/" + rest;
    ConsTokens(AnyDirs, glob);
    assert glob[3..] == rest;
    var ms := Meanings(Tokens(rest));
    var tail := [Char('/')] + ms;
    assert [Star(Dot), Char('/')] + ms == [Star(Dot)] + tail;
    assert ([Opt([Star(Dot), Char('/')])] + ms)[1..] == ms;
    StarRuns(Dot, tail, path);
    assert tail[1..] == ms;
    if k :| 0 <= k <= |path| && AllIn(Dot, path[..k]) && Matches(tail, path[k..]) {
      assert path[k..][0] == path[k] && path[k..][1..] == path[k + 1..];
    }
    if k :| 0 <= k < |path| && path[k] == '/' && Accepts(rest, path[k + 1..]) {
      assert AllIn(Dot, path[..k]) by {
        assert forall c :: c in path[..k] ==> c in path;
      }
      assert path[k..][0] == path[k] && path[k..][1..] == path[k + 1..];
    }
  }

  /** A plain segment before a slash, given the meaning of the rest. */
  lemma InnerSegmentMeans(seg: string, rest: string, path: string)
    requires NoSlash(seg) && NoDouble(seg) && seg != "**"
    requires var i := FirstSlash(path);
             i < |path| ==> (Accepts(rest, path[i + 1..]) <==> PathMatches(Split(rest), Split(path[i + 1..])))
    ensures Accepts(seg + "/" + rest, path) <==> PathMatches([seg] + Split(rest), Split(path))
  {
    InnerAccepts(seg, rest, path);
    InnerMatches(seg, Split(rest), path);
  }

  lemma StarsStep(globs: seq<string>, path: string)
    requires globs != []
    ensures var i := FirstSlash(path);
            PathMatches(["**"] + globs, Split(path)) <==>
            PathMatches(globs, Split(path)) || (i < |path| && PathMatches(["**"] + globs, Split(path[i + 1..])))
  {
    var ps := Split(path);
    SplitAt(path);
    StarsUnfold(globs, ps);
    if FirstSlash(path) == |path| {
      assert ps[1..] == [];
      NothingMatchesNoPath(["**"] + globs);
    }
  }

  lemma StarsUnfold(globs: seq<string>, path: seq<string>)
    requires globs != []
    ensures PathMatches(["**"] + globs, path) <==>
            PathMatches(globs, path) || (path != [] && PathMatches(["**"] + globs, path[1..]))
  {
    var all := ["**"] + globs;
    assert all[0] == "**" && all[1..] == globs && |all| > 1;
  }

  /** A double star before a slash, given the meaning of the rest and of itself on a
      shorter path. */
  lemma StarsMean(rest: string, path: string)
    requires NoLineFeed(path)
    requires Accepts(rest, path) <==> PathMatches(Split(rest), Split(path))
    requires var i := FirstSlash(path);
             i < |path| ==> (Accepts("**/" + rest, path[i + 1..]) <==>
                             PathMatches(["**"] + Split(rest), Split(path[i + 1..])))
    ensures Accepts("**/" + rest, path) <==> PathMatches(["**"] + Split(rest), Split(path))
  {
    AnyDirsUnrolled(rest, path);
    StarsStep(Split(rest), path);
  }

  lemma FinalStars(path: string)
    requires NoLineFeed(path)
    ensures Accepts("**", path) && PathMatches(["**"], Split(path))
  {
    ConsTokens(Anything, "**");
    StarRuns(Dot, [], path);
    assert AllIn(Dot, path[..|path|]) && Matches([], path[|path|..]);
  }

  /** Cutting a glob at its first slash. */
  lemma CutGlob(glob: string) returns (seg: string, rest: string)
    requires FirstSlash(glob) < |glob|
    ensures glob == seg + "/" + rest && |rest| < |glob| && NoSlash(seg)
    ensures seg == "**" ==> glob == "**/" + rest
    ensures Split(glob) == [seg] + Split(rest)
    ensures WholeStars(glob) ==> WholeStars(rest) && (seg == "**" || NoDouble(seg))
  {
    SplitAt(glob);
    var g := FirstSlash(glob);
    seg, rest := glob[..g], glob[g + 1..];
    SplitCut(glob, g);
    if WholeStars(glob) {
      WholeStarsAfter(glob, seg, rest);
    }
  }

  lemma WholeStarsAfter(glob: string, seg: string, rest: string)
    requires WholeStars(glob) && Split(glob) == [seg] + Split(rest)
    ensures WholeStars(rest) && (seg == "**" || NoDouble(seg))
  {
    var segments := Split(glob);
    assert segments[0] == seg;
    forall i | 0 <= i < |Split(rest)| ensures Split(rest)[i] == "**" || NoDouble(Split(rest)[i]) {
      assert segments[i + 1] == Split(rest)[i];
    }
  }

  lemma NoLineFeedAfter(s: string, k: nat)
    requires NoLineFeed(s) && k <= |s|
    ensures NoLineFeed(s[k..])
  {
  }

  /** A glob of one segment. */
  lemma OneSegmentMeans(glob: string, path: string)
    requires NoLineFeed(path) && WholeStars(glob) && FirstSlash(glob) == |glob|
    ensures Accepts(glob, path) <==> PathMatches(Split(glob), Split(path))
  {
    SplitAt(glob);
    assert Split(glob)[0] == glob;
    if glob == "**" {
      FinalStars(path);
    } else {
      LastSegment(glob, path);
    }
  }

  /** The compiled pattern accepts a path exactly when the glob matches it segment by
      segment. */
  lemma {:induction false} GlobMeans(glob: string, path: string)
    requires NoLineFeed(path) && WholeStars(glob)
    ensures Accepts(glob, path) <==> PathMatches(Split(glob), Split(path))
    decreases |glob|, |path|
  {
    if FirstSlash(glob) == |glob| {
      OneSegmentMeans(glob, path);
    } else {
      var seg, rest := CutGlob(glob);
      var i := FirstSlash(path);
      if seg == "**" {
        GlobMeans(rest, path);
        if i < |path| {
          NoLineFeedAfter(path, i + 1);
          GlobMeans(glob, path[i + 1..]);
        }
        StarsMean(rest, path);
      } else {
        if i < |path| {
          NoLineFeedAfter(path, i + 1);
          GlobMeans(rest, path[i + 1..]);
        }
        InnerSegmentMeans(seg, rest, path);
      }
    }
  }

  /** The same for the pattern the compiler returns, read as a regular expression. */
  lemma CompiledPatternMeans(glob: string, path: string)
    requires NoLineFeed(path) && WholeStars(glob)
    ensures var rs := ParsePattern(PatternOf(glob));
            rs.Some? && (Matches(rs.value, path) <==> PathMatches(Split(glob), Split(path)))
  {
    PatternMeansTokens(glob);
    GlobMeans(glob, path);
  }

  // ---------------------------------------------------------------------------
  // Without a double star
  // ---------------------------------------------------------------------------

  function Slashes(s: string): nat {
    if s == "" then 0 else (if s[0] == '/' then 1 else 0) + Slashes(s[1..])
  }

  lemma {:induction false} SlashesAt(s: string)
    ensures var i := FirstSlash(s); Slashes(s) == if i == |s| then 0 else 1 + Slashes(s[i + 1..])
  {
    if s != "" && s[0] != '/' {
      SlashesAt(s[1..]);
      var i := FirstSlash(s);
      if i < |s| {
        assert s[1..][i..] == s[i + 1..];
      }
    }
  }

  lemma {:induction false} SplitCounts(s: string)
    ensures |Split(s)| == Slashes(s) + 1
  {
    SlashesAt(s);
    if FirstSlash(s) < |s| {
      SplitCounts(s[FirstSlash(s) + 1..]);
    }
  }

  lemma {:induction false} PlainSegmentsAlign(globs: seq<string>, path: seq<string>)
    requires PathMatches(globs, path) && forall i :: 0 <= i < |globs| ==> globs[i] != "**"
    ensures |globs| == |path|
  {
    if globs != [] {
      PlainSegmentsAlign(globs[1..], path[1..]);
    }
  }

  lemma DoubleStarIsDouble()
    ensures !NoDouble("**")
  {
    var s := "**";
    assert s[0] == '*' && s[0 + 1] == '*';
  }

  /** Without a double star a match never crosses a directory boundary. */
  lemma PlainGlobKeepsDepth(glob: string, path: string)
    requires NoLineFeed(path) && forall i :: 0 <= i < |Split(glob)| ==> NoDouble(Split(glob)[i])
    requires Accepts(glob, path)
    ensures Slashes(path) == Slashes(glob)
  {
    GlobMeans(glob, path);
    forall i | 0 <= i < |Split(glob)| ensures Split(glob)[i] != "**" {
      assert NoDouble(Split(glob)[i]);
      DoubleStarIsDouble();
    }
    PlainSegmentsAlign(Split(glob), Split(path));
    SplitCounts(glob);
    SplitCounts(path);
  }
}
