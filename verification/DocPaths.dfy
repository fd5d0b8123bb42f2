/** The document paths each kind of source produces. */
module DocPaths {
  import opened Paths

  predicate NoBar(s: string) {
    '|' !in s
  }

  /** Where the documents of a source come from. */
  datatype Origin = GitHub(repo: string) | S3(bucket: string) | Web

  /** Names the services accept: a repository `owner/name` and a bucket, without bars. */
  predicate OriginOk(o: Origin) {
    match o
    case GitHub(repo) => NoBar(repo) && ProperPath(repo)
    case S3(bucket) => NoBar(bucket)
    case Web => true
  }

  predicate ProperSegment(s: string) {
    s != "" && s != "." && s != ".."
  }

  predicate AllProper(segments: seq<string>) {
    forall i :: 0 <= i < |segments| ==> ProperSegment(segments[i])
  }

  /** The path of a file below a directory. */
  predicate ProperPath(path: string) {
    AllProper(Split(path))
  }

  /** The beginning of such a path, up to somewhere inside a segment. */
  predicate ProperStart(path: string) {
    AllProper(Split(path)[..|Split(path)| - 1])
  }

  /** An absolute URL with a host and a path. The HTTP client reports every bar in a URL
      percent-encoded. */
  predicate IsUrl(path: string) {
    NoBar(path) && (("http://" <= path && Hosted(path[7..])) || ("https://" <= path && Hosted(path[8..])))
  }

  predicate Hosted(rest: string) {
    0 < FirstSlash(rest) < |rest|
  }

  /** What the paths of a repository or a bucket begin with. */
  function RepoPrefix(repo: string): string {
    repo + "/"
  }

  function BucketPrefix(bucket: string): string {
    "s3://" + bucket + "/"
  }

  /** The paths the fetchers list: a file of the checked-out repository, an object whose
      key does not end in a slash, or the final URL of a page. */
  predicate Listed(o: Origin, path: string) {
    match o
    case GitHub(repo) => RepoPrefix(repo) <= path && ProperPath(path[|repo| + 1..])
    case S3(bucket) => BucketPrefix(bucket) <= path && path[|path| - 1] != '/'
    case Web => IsUrl(path)
  }

  // ---------------------------------------------------------------------------
  // A path of one source inside a path of another
  // ---------------------------------------------------------------------------

  /** Some path of `other` behind `start` and a bar is a path of `o`: in a bucket whenever
      `start` begins as its paths do; in a repository if moreover the segments of `start`
      are those of a path and the other is a repository, too. */
  predicate Takes(o: Origin, start: string, other: Origin) {
    match o
    case GitHub(repo) =>
      other.GitHub? && RepoPrefix(repo) <= start && ProperStart(start[|repo| + 1..])
    case S3(bucket) => BucketPrefix(bucket) <= start
    case Web => false
  }

  /** A path every source of the kind may list. */
  function Sample(o: Origin): string {
    match o
    case GitHub(repo) => RepoPrefix(repo) + "x"
    case S3(bucket) => BucketPrefix(bucket) + "x"
    case Web => "https://h/x"
  }

  lemma SampleIsListed(o: Origin)
    requires OriginOk(o)
    ensures Listed(o, Sample(o))
  {
    match o
    case GitHub(repo) =>
      assert Sample(o)[|repo| + 1..] == "x";
      SplitAt("x");
    case S3(bucket) =>
    case Web =>
      var rest := Sample(o)[8..];
      assert rest == "h/x" && rest[0] == 'h' && rest[1] == '/';
      assert "https://" == Sample(o)[..8];
      assert FirstSlash(rest) == 1;
  }

  lemma PrefixBeforeBar(prefix: string, start: string, rest: string)
    requires NoBar(prefix) && prefix <= start + "|" + rest
    ensures prefix <= start
  {
    var t := start + "|" + rest;
    assert t[|start|] == '|';
    assert forall k :: 0 <= k < |prefix| ==> prefix[k] == t[k];
    assert prefix == t[..|prefix|] == start[..|prefix|];
  }

  lemma NoBarConcat(a: string, b: string)
    requires NoBar(a) && NoBar(b)
    ensures NoBar(a + b)
  {
  }

  lemma ProperConcat(a: seq<string>, b: seq<string>)
    ensures AllProper(a + b) <==> AllProper(a) && AllProper(b)
  {
    if AllProper(a + b) {
      assert forall i :: 0 <= i < |a| ==> a[i] == (a + b)[i];
      assert forall i :: 0 <= i < |b| ==> b[i] == (a + b)[|a| + i];
    }
  }

  lemma SplitBar(path: string)
    ensures Split("|" + path)[0] == "|" + Split(path)[0] && Split("|" + path)[1..] == Split(path)[1..]
  {
    GlueOne("|", path);
  }

  lemma SameGlue(x: seq<string>, y: seq<string>, z: seq<string>, glued: seq<string>)
    requires x != [] && y != [] && z != [] && z[0] == "|" + y[0] && z[1..] == y[1..]
    requires glued == x[..|x| - 1] + [x[|x| - 1] + z[0]] + z[1..]
    ensures glued == x[..|x| - 1] + [x[|x| - 1] + ("|" + y[0])] + y[1..]
  {
  }

  lemma BarFirst(start: string, path: string)
    ensures start + "|" + path == start + ("|" + path)
  {
  }

  lemma SplitBehind(start: string, path: string, behind: string)
    requires behind == "|" + path
    ensures var x, y := Split(start), Split(path);
            Split(start + behind) == x[..|x| - 1] + [x[|x| - 1] + ("|" + y[0])] + y[1..]
  {
    SplitBar(path);
    SplitGlue(start, behind);
    SameGlue(Split(start), Split(path), Split(behind), Split(start + behind));
  }

  lemma SplitBehindBar(start: string, path: string)
    ensures var x, y := Split(start), Split(path);
            Split(start + "|" + path) == x[..|x| - 1] + [x[|x| - 1] + ("|" + y[0])] + y[1..]
  {
    BarFirst(start, path);
    SplitBehind(start, path, "|" + path);
  }

  lemma BarIsProper(a: string, b: string)
    ensures ProperSegment(a + ("|" + b))
  {
    assert (a + ("|" + b))[|a|] == '|';
  }

  lemma ProperAround(a: seq<string>, mid: string, b: seq<string>)
    requires ProperSegment(mid)
    ensures AllProper(a + [mid] + b) <==> AllProper(a) && AllProper(b)
  {
    ProperConcat(a + [mid], b);
    ProperConcat(a, [mid]);
  }

  /** What a path behind a bar needs to be a proper one. */
  lemma ProperBehindBar(start: string, path: string)
    ensures ProperPath(start + "|" + path) <==> ProperStart(start) && AllProper(Split(path)[1..])
  {
    var x, y := Split(start), Split(path);
    SplitBehindBar(start, path);
    BarIsProper(x[|x| - 1], y[0]);
    ProperAround(x[..|x| - 1], x[|x| - 1] + ("|" + y[0]), y[1..]);
  }

  lemma SplitAfterSlash(rest: string)
    ensures Split("/" + rest) == [""] + Split(rest)
  {
    var path := "/" + rest;
    assert path[0] == '/' && path[1..] == rest && path[..0] == "";
  }

  /** A second slash right after a first leaves an empty segment. */
  lemma DoubleSlash(head: string, rest: string)
    requires NoSlash(head)
    ensures !AllProper(Split(head + "//" + rest)[1..])
  {
    var once := "/" + rest;
    var twice := "/" + once;
    assert head + "//" + rest == head + twice;
    SplitAfterSlash(rest);
    SplitAfterSlash(once);
    GlueOne(head, twice);
    EmptySecond(Split(head + twice), Split(rest));
  }

  lemma EmptySecond(segments: seq<string>, rest: seq<string>)
    requires |segments| >= 2 && segments[1..] == [""] + rest
    ensures !AllProper(segments[1..])
  {
    assert segments[1..][0] == "";
  }

  lemma TailOfPath(path: string)
    requires ProperPath(path)
    ensures AllProper(Split(path)[1..])
  {
    var segments := Split(path);
    ProperConcat([segments[0]], segments[1..]);
    assert segments == [segments[0]] + segments[1..];
  }

  /** The segments of a repository's path: those of the repository and of the file. */
  lemma RepoPathIsProper(repo: string, path: string)
    requires ProperPath(repo) && RepoPrefix(repo) <= path && ProperPath(path[|repo| + 1..])
    ensures ProperPath(path)
  {
    var rel := path[|repo| + 1..];
    assert path == repo + ("/" + rel);
    SplitGlue(repo, "/" + rel);
    SplitAfterSlash(rel);
    var x := Split(repo);
    assert x[|x| - 1] + "" == x[|x| - 1];
    assert x[..|x| - 1] + [x[|x| - 1]] == x;
    ProperConcat(x, Split(rel));
  }

  lemma WebAndBucketPaths(o: Origin, path: string)
    requires Listed(o, path) && !o.GitHub?
    ensures !AllProper(Split(path)[1..])
  {
    match o
    case S3(bucket) =>
      assert path == "s3:" + "//" + path[5..];
      DoubleSlash("s3:", path[5..]);
    case Web =>
      if "http://" <= path {
        assert path == "http:" + "//" + path[7..];
        DoubleSlash("http:", path[7..]);
      } else {
        assert path == "https:" + "//" + path[8..];
        DoubleSlash("https:", path[8..]);
      }
  }

  lemma BucketTakes(bucket: string, start: string, path: string)
    requires NoBar(bucket) && path != ""
    ensures Listed(S3(bucket), start + "|" + path) <==> BucketPrefix(bucket) <= start && path[|path| - 1] != '/'
  {
    var whole := start + "|" + path;
    NoBarConcat("s3://", bucket);
    NoBarConcat("s3://" + bucket, "/");
    assert whole[|whole| - 1] == path[|path| - 1];
    if BucketPrefix(bucket) <= whole {
      PrefixBeforeBar(BucketPrefix(bucket), start, path);
    }
  }

  lemma RepoTakes(repo: string, start: string, path: string)
    requires NoBar(repo)
    ensures Listed(GitHub(repo), start + "|" + path) <==>
              && RepoPrefix(repo) <= start && ProperStart(start[|repo| + 1..])
              && AllProper(Split(path)[1..])
  {
    var whole := start + "|" + path;
    NoBarConcat(repo, "/");
    if RepoPrefix(repo) <= whole {
      PrefixBeforeBar(RepoPrefix(repo), start, path);
    }
    if RepoPrefix(repo) <= start {
      var rest := start[|repo| + 1..];
      assert whole[|repo| + 1..] == rest + "|" + path;
      ProperBehindBar(rest, path);
    }
  }

  lemma ListedNotEmpty(o: Origin, path: string)
    requires Listed(o, path)
    ensures path != ""
  {
  }

  lemma TakesListed(o: Origin, start: string, other: Origin, path: string)
    requires OriginOk(o) && OriginOk(other) && Listed(other, path)
    ensures Listed(o, start + "|" + path) ==> Takes(o, start, other)
    ensures path != "" && (Takes(o, start, other) && path[|path| - 1] != '/' ==> Listed(o, start + "|" + path))
  {
    ListedNotEmpty(other, path);
    match o
    case Web =>
      assert (start + "|" + path)[|start|] == '|';
    case S3(bucket) =>
      BucketTakes(bucket, start, path);
    case GitHub(repo) =>
      RepoTakes(repo, start, path);
      if other.GitHub? {
        RepoPathIsProper(other.repo, path);
        TailOfPath(path);
      } else {
        WebAndBucketPaths(other, path);
      }
  }

  /** A path of `other` behind `start` and a bar can be a path of `o` if and only if `o`
      takes it. */
  lemma TakesIff(o: Origin, start: string, other: Origin)
    requires OriginOk(o) && OriginOk(other)
    ensures Takes(o, start, other) <==> exists path :: Listed(other, path) && Listed(o, start + "|" + path)
  {
    SampleIsListed(other);
    TakesListed(o, start, other, Sample(other));
    assert Sample(other)[|Sample(other)| - 1] == 'x';
    if path :| Listed(other, path) && Listed(o, start + "|" + path) {
      TakesListed(o, start, other, path);
    }
  }
}
