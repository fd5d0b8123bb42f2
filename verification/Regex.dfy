/** The fragment of regular expressions the glob compiler generates: its meaning,
    its concrete syntax, and a reader for that syntax. */
module Regex {
  import opened Common

  datatype Re =
    | Char(c: char)
    | Dot
    | NotSlash
    | Star(body: Re)
    | Opt(items: seq<Re>)

  function Size(r: Re): (n: nat)
    ensures n >= 1
  {
    match r
    case Char(_) => 1
    case Dot => 1
    case NotSlash => 1
    case Star(body) => 1 + Size(body)
    case Opt(items) => 1 + Sizes(items)
  }

  function Sizes(rs: seq<Re>): nat {
    if rs == [] then 0 else Size(rs[0]) + Sizes(rs[1..])
  }

  lemma {:induction false} SizesConcat(a: seq<Re>, b: seq<Re>)
    ensures Sizes(a + b) == Sizes(a) + Sizes(b)
  {
    if a == [] {
      assert a + b == b;
    } else {
      assert (a + b)[1..] == a[1..] + b;
      SizesConcat(a[1..], b);
    }
  }

  /** `s` is in the language of the concatenation of `rs`. The dot does not match a
      line feed. */
  ghost predicate Matches(rs: seq<Re>, s: string)
    decreases |s|, Sizes(rs)
  {
    if rs == [] then s == ""
    else
      var rest := rs[1..];
      match rs[0]
      case Char(c) => s != "" && s[0] == c && Matches(rest, s[1..])
      case Dot => s != "" && s[0] != '\n' && Matches(rest, s[1..])
      case NotSlash => s != "" && s[0] != '/' && Matches(rest, s[1..])
      case Star(body) =>
        assert [body][1..] == [] && Sizes([body]) == Size(body);
        assert Size(rs[0]) == 1 + Size(body) && Sizes(rs) == Size(rs[0]) + Sizes(rest);
        || Matches(rest, s)
        || exists k :: 1 <= k <= |s| && Matches([body], s[..k]) && Matches(rs, s[k..])
      case Opt(items) =>
        SizesConcat(items, rest);
        assert Size(rs[0]) == 1 + Sizes(items) && Sizes(rs) == Size(rs[0]) + Sizes(rest);
        Matches(rest, s) || Matches(items + rest, s)
  }

  /** The two single-character classes. */
  predicate InClass(r: Re, c: char) {
    (r == Dot && c != '\n') || (r == NotSlash && c != '/')
  }

  predicate AllIn(r: Re, s: string) {
    forall i :: 0 <= i < |s| ==> InClass(r, s[i])
  }

  lemma ClassMatchesOne(r: Re, s: string)
    requires r == Dot || r == NotSlash
    ensures Matches([r], s) <==> |s| == 1 && InClass(r, s[0])
  {
  }

  /** A starred class consumes any run of its characters. */
  lemma {:induction false} StarRuns(r: Re, rest: seq<Re>, s: string)
    requires r == Dot || r == NotSlash
    ensures Matches([Star(r)] + rest, s) <==>
            exists k :: 0 <= k <= |s| && AllIn(r, s[..k]) && Matches(rest, s[k..])
    decreases |s|
  {
    var rs := [Star(r)] + rest;
    assert rs[1..] == rest;
    if Matches(rs, s) {
      if Matches(rest, s) {
        assert s[0..] == s && AllIn(r, s[..0]);
      } else {
        var k :| 1 <= k <= |s| && Matches([r], s[..k]) && Matches(rs, s[k..]);
        ClassMatchesOne(r, s[..k]);
        StarRuns(r, rest, s[1..]);
        var m :| 0 <= m <= |s[1..]| && AllIn(r, s[1..][..m]) && Matches(rest, s[1..][m..]);
        assert s[1..][m..] == s[m + 1..];
        assert s[..m + 1] == [s[0]] + s[1..][..m];
        assert AllIn(r, s[..m + 1]);
      }
    }
    if k :| 0 <= k <= |s| && AllIn(r, s[..k]) && Matches(rest, s[k..]) {
      if k == 0 {
        assert s[0..] == s;
      } else {
        var u := s[1..][..k - 1];
        forall i | 0 <= i < |u| ensures InClass(r, u[i]) {
          assert u[i] == s[..k][i + 1];
        }
        assert s[1..][k - 1..] == s[k..];
        StarRuns(r, rest, s[1..]);
        assert Matches(rs, s[1..]);
        assert s[..k][0] == s[0];
        ClassMatchesOne(r, s[..1]);
      }
    }
  }

  // ---------------------------------------------------------------------------
  // Concrete syntax
  // ---------------------------------------------------------------------------

  /** The characters `re.escape` puts a backslash in front of. */
  const SPECIAL := "()[]{}?*+-|^$\\.&~# \t\n\r\U{000B}\U{000C}"

  function Escape(c: char): string {
    if c in SPECIAL then ['\\', c] else [c]
  }

  // Reads a text of this fragment: escaped and plain characters, `.*`, `[^/]`,
  // `[^/]*` and `(?:.*/)?`.
  function Parse(t: string): Option<seq<Re>> {
    if t == "" then Some([])
    else if "(?:.*/)?" <= t then Prepend([Opt([Star(Dot), Char('/')])], Parse(t[8..]))
    else if ".*" <= t then Prepend([Star(Dot)], Parse(t[2..]))
    else if "[^/]*" <= t then Prepend([Star(NotSlash)], Parse(t[5..]))
    else if "[^/]" <= t then Prepend([NotSlash], Parse(t[4..]))
    else if t[0] == '\\' && |t| >= 2 then Prepend([Char(t[1])], Parse(t[2..]))
    else if t[0] in SPECIAL then None
    else Prepend([Char(t[0])], Parse(t[1..]))
  }

  /** Reads a whole pattern between its anchors. */
  function ParsePattern(pattern: string): Option<seq<Re>> {
    var last := |pattern| - 1;
    if last >= 1 && pattern[0] == '^' && pattern[last] == '$' then Parse(pattern[1..last]) else None
  }

  function Prepend(rs: seq<Re>, o: Option<seq<Re>>): Option<seq<Re>> {
    if o.Some? then Some(rs + o.value) else None
  }
}
