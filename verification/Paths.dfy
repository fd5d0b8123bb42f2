/** Paths as segments between slashes. */
module Paths {

  /** Index of the first '/' at or after `from`, or the length. */
  function SlashFrom(s: string, from: nat): (n: nat)
    requires from <= |s|
    ensures from <= n <= |s|
    ensures forall i :: from <= i < n ==> s[i] != '/'
    ensures n < |s| ==> s[n] == '/'
    decreases |s| - from
  {
    if from == |s| || s[from] == '/' then from else SlashFrom(s, from + 1)
  }

  /** Index of the first '/', or the length. */
  function FirstSlash(s: string): (n: nat)
    ensures n <= |s|
    ensures forall i :: 0 <= i < n ==> s[i] != '/'
    ensures n < |s| ==> s[n] == '/'
  {
    SlashFrom(s, 0)
  }

  /** The segments of a path; at least one, possibly empty. */
  function Split(s: string): (segments: seq<string>)
    ensures segments != []
  {
    var i := FirstSlash(s);
    if i == |s| then [s] else [s[..i]] + Split(s[i + 1..])
  }

  predicate NoSlash(s: string) {
    '/' !in s
  }

  lemma SplitAt(s: string)
    ensures var i := FirstSlash(s);
            if i == |s| then NoSlash(s) && Split(s) == [s]
            else NoSlash(s[..i]) && Split(s)[0] == s[..i] && Split(s)[1..] == Split(s[i + 1..])
  {
    var i := FirstSlash(s);
    if i < |s| {
      assert Split(s) == [s[..i]] + Split(s[i + 1..]);
    }
  }

  /** Gluing two paths glues the last segment of the first to the first of the second. */
  lemma {:induction false} SplitGlue(a: string, b: string)
    ensures var x, y := Split(a), Split(b);
            Split(a + b) == x[..|x| - 1] + [x[|x| - 1] + y[0]] + y[1..]
    decreases |a|
  {
    SplitAt(a);
    var i := FirstSlash(a);
    if i == |a| {
      GlueOne(a, b);
    } else {
      var rest := a[i + 1..];
      SplitGlue(rest, b);
      SplitCut(a, i);
      CutGlued(a, b, i);
      GlueCons(a[..i], Split(rest), Split(b));
    }
  }

  lemma CutGlued(a: string, b: string, i: nat)
    requires i == FirstSlash(a) && i < |a|
    ensures Split(a + b) == [a[..i]] + Split(a[i + 1..] + b)
  {
    FirstSlashGlue(a, b);
    assert (a + b)[..i] == a[..i] && (a + b)[i + 1..] == a[i + 1..] + b;
    SplitCut(a + b, i);
  }

  lemma FirstSlashGlue(a: string, b: string)
    ensures FirstSlash(a) < |a| ==> FirstSlash(a + b) == FirstSlash(a)
    ensures FirstSlash(a) == |a| ==> FirstSlash(a + b) == |a| + FirstSlash(b)
  {
    var c, i, k := a + b, FirstSlash(a), FirstSlash(a + b);
    assert forall j :: 0 <= j < |a| ==> c[j] == a[j];
    assert forall j :: 0 <= j < |b| ==> c[|a| + j] == b[j];
  }

  lemma SplitCut(s: string, i: nat)
    requires i == FirstSlash(s) && i < |s|
    ensures Split(s) == [s[..i]] + Split(s[i + 1..])
  {
  }

  lemma GlueSlices(a: string, b: string, k: nat)
    requires k < |b|
    ensures (a + b)[..|a| + k] == a + b[..k] && (a + b)[|a| + k + 1..] == b[k + 1..]
  {
  }

  lemma GluedHead(a: string, first: string, rest: seq<string>, segments: seq<string>)
    requires segments == [first] + rest
    ensures [a + first] + rest == [a + segments[0]] + segments[1..]
  {
  }

  lemma GlueOneAt(a: string, b: string, k: nat)
    requires NoSlash(a) && k == FirstSlash(b) && k < |b|
    ensures Split(a + b) == [a + b[..k]] + Split(b[k + 1..])
  {
    FirstSlashGlue(a, b);
    GlueSlices(a, b, k);
    SplitCut(a + b, |a| + k);
  }

  lemma GlueOneEnd(a: string, b: string)
    requires NoSlash(a) && FirstSlash(b) == |b|
    ensures Split(a + b) == [a + b] && Split(b) == [b]
  {
    FirstSlashGlue(a, b);
  }

  lemma GlueOne(a: string, b: string)
    requires NoSlash(a)
    ensures Split(a + b) == [a + Split(b)[0]] + Split(b)[1..]
  {
    var k := FirstSlash(b);
    if k == |b| {
      GlueOneEnd(a, b);
      GluedHead(a, b, [], Split(b));
    } else {
      GlueOneAt(a, b, k);
      SplitCut(b, k);
      GluedHead(a, b[..k], Split(b[k + 1..]), Split(b));
    }
  }

  lemma GlueCons(first: string, x: seq<string>, y: seq<string>)
    requires x != [] && y != []
    ensures var more := [first] + x;
            more[..|more| - 1] + [more[|more| - 1] + y[0]] + y[1..]
            == [first] + (x[..|x| - 1] + [x[|x| - 1] + y[0]] + y[1..])
  {
    var more := [first] + x;
    assert more[..|more| - 1] == [first] + x[..|x| - 1] && more[|more| - 1] == x[|x| - 1];
  }
}
