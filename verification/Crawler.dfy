/** The web crawl: a breadth-first search with a page budget, a depth limit,
    redirects and deduplication by final URL. */
module Crawler {
  import opened Common

  type Url = string

  /** A request with its redirects followed. `Aborted` stands for everything that
      ends the crawl with an exception while fetching. */
  datatype Reply = Aborted | Http(status: int, html: bool, final: Option<Url>)

  /** The visible text and the normalised links of a page. */
  datatype Page = Page(text: string, links: seq<Url>)

  /** The web as the crawler sees it; a page's content depends on its final URL. */
  datatype Web = Web(
    request: Url -> Reply,
    content: Url -> Page,
    permitted: Url -> bool,
    inDomain: Url -> bool)

  datatype Crawl = CrawlFailed | Crawled(docs: seq<(Url, string)>)

  // ---------------------------------------------------------------------------
  // Reachability, independent of the search
  // ---------------------------------------------------------------------------

  /** The final URL of a page the crawler may index and expand. */
  function Expandable(web: Web, url: Url): Option<Url> {
    var reply := web.request(url);
    if reply.Http? && reply.status == 200 && reply.html && reply.final.Some?
       && web.inDomain(reply.final.value) && web.content(reply.final.value).text != ""
    then reply.final
    else None
  }

  /** `v` is a link the crawler may follow on the page with final URL `page`. */
  predicate LinksTo(web: Web, page: Url, v: Url) {
    v in web.content(page).links && web.inDomain(v)
  }

  /** `url` is at most `d` links from a seed, through expandable pages. */
  ghost predicate Reachable(web: Web, seeds: seq<Url>, url: Url, d: nat)
    decreases d
  {
    if d == 0 then url in seeds
    else
      || Reachable(web, seeds, url, d - 1)
      || exists u :: Reachable(web, seeds, u, d - 1) && Expandable(web, u).Some?
          && LinksTo(web, Expandable(web, u).value, url)
  }

  // ---------------------------------------------------------------------------
  // The state of the search
  // ---------------------------------------------------------------------------

  type Queue = seq<(Url, int)>

  /** `v` was fetched at depth at most `k`, or waits in the queue at such a depth. */
  predicate Covered(queue: Queue, dep: map<Url, int>, v: Url, k: int) {
    (v in dep && dep[v] <= k) || exists i :: 0 <= i < |queue| && queue[i].0 == v && queue[i].1 <= k
  }

  /** The queue holds at most two neighbouring levels, in order. */
  predicate Levelled(queue: Queue, level: int) {
    && (forall i :: 0 <= i < |queue| ==> level <= queue[i].1 <= level + 1)
    && (forall i, j :: 0 <= i < j < |queue| ==> queue[i].1 <= queue[j].1)
  }

  /** `dep` and `page` record at which depth each URL was fetched and each final URL
      expanded. */
  ghost predicate Explored(web: Web, seeds: seq<Url>, maxDepth: int, queue: Queue, queued: set<Url>,
                           dep: map<Url, int>, page: map<Url, int>, level: int)
  {
    && level >= 0 && Levelled(queue, level)
    && (forall i :: 0 <= i < |queue| ==>
          && (queue[i].0 in queued || queue[i].0 in dep)
          && (queue[i].1 <= maxDepth || queue[i].1 == 0)
          && Reachable(web, seeds, queue[i].0, queue[i].1))
    && (forall u :: u in queued ==> Covered(queue, dep, u, level + 1))
    && (forall u :: u in dep ==>
          && 0 <= dep[u] <= level && (dep[u] <= maxDepth || dep[u] == 0)
          && Reachable(web, seeds, u, dep[u]))
    && (forall f :: f in page ==> page[f] <= level)
  }

  /** Nothing reachable is forgotten: seeds are covered at depth 0, an expandable
      fetched URL was expanded no later, and an expanded page covers its links. The
      URL in `pending` is still being processed. */
  ghost predicate Remembered(web: Web, seeds: seq<Url>, maxDepth: int, queue: Queue, dep: map<Url, int>,
                             page: map<Url, int>, pending: set<Url>)
  {
    && (forall s :: s in seeds ==> Covered(queue, dep, s, 0))
    && (forall u :: u in dep && u !in pending && Expandable(web, u).Some? ==>
          Expandable(web, u).value in page && page[Expandable(web, u).value] <= dep[u])
    && (forall f, v :: f in page && page[f] < maxDepth && LinksTo(web, f, v) ==> Covered(queue, dep, v, page[f] + 1))
  }

  /** Nothing at depth `d` or less waits in the queue any more. */
  predicate Beyond(queue: Queue, d: int) {
    forall i :: 0 <= i < |queue| ==> queue[i].1 > d
  }

  /** Once nothing at depth `d` or less waits, every URL reachable within `d` links has
      been fetched at such a depth. */
  lemma {:induction false} ReachableIsCovered(web: Web, seeds: seq<Url>, maxDepth: int, queue: Queue,
                                              dep: map<Url, int>, page: map<Url, int>, url: Url, d: nat)
    requires Remembered(web, seeds, maxDepth, queue, dep, page, {}) && Beyond(queue, d)
    requires d <= maxDepth || d == 0
    requires Reachable(web, seeds, url, d)
    ensures url in dep && dep[url] <= d
    decreases d
  {
    if d == 0 {
      assert Covered(queue, dep, url, 0);
    } else if Reachable(web, seeds, url, d - 1) {
      ReachableIsCovered(web, seeds, maxDepth, queue, dep, page, url, d - 1);
    } else {
      var u :| Reachable(web, seeds, u, d - 1) && Expandable(web, u).Some?
          && LinksTo(web, Expandable(web, u).value, url);
      ReachableIsCovered(web, seeds, maxDepth, queue, dep, page, u, d - 1);
      var f := Expandable(web, u).value;
      assert Covered(queue, dep, url, page[f] + 1);
    }
  }

  // ---------------------------------------------------------------------------
  // Steps of the search
  // ---------------------------------------------------------------------------

  /** Taking the head of the queue and marking it fetched, unless it was. */
  function Fetched(queue: Queue, dep: map<Url, int>): map<Url, int>
    requires queue != []
  {
    if queue[0].0 in dep then dep else dep[queue[0].0 := queue[0].1]
  }

  lemma PopKeepsCovered(queue: Queue, dep: map<Url, int>, v: Url, k: int, level: int)
    requires queue != [] && Levelled(queue, level) && Covered(queue, dep, v, k)
    requires forall u :: u in dep ==> dep[u] <= level
    ensures Covered(queue[1..], Fetched(queue, dep), v, k)
  {
    if !(v in dep && dep[v] <= k) {
      var i :| 0 <= i < |queue| && queue[i].0 == v && queue[i].1 <= k;
      if i > 0 {
        assert queue[1..][i - 1] == queue[i];
      }
    }
  }

  lemma PopKeepsExplored(web: Web, seeds: seq<Url>, maxDepth: int, queue: Queue, queued: set<Url>,
                         dep: map<Url, int>, page: map<Url, int>, level: int)
    requires Explored(web, seeds, maxDepth, queue, queued, dep, page, level) && queue != []
    ensures Explored(web, seeds, maxDepth, queue[1..], queued - {queue[0].0}, Fetched(queue, dep), page, queue[0].1)
  {
    var rest := queue[1..];
    assert forall i :: 0 <= i < |rest| ==> rest[i] == queue[i + 1];
    forall u | u in queued - {queue[0].0} ensures Covered(rest, Fetched(queue, dep), u, queue[0].1 + 1) {
      PopKeepsCovered(queue, dep, u, level + 1, level);
      CoveredLater(rest, Fetched(queue, dep), u, level + 1, queue[0].1 + 1);
    }
  }

  lemma PopKeepsRemembered(web: Web, seeds: seq<Url>, maxDepth: int, queue: Queue, queued: set<Url>,
                           dep: map<Url, int>, page: map<Url, int>, level: int)
    requires Explored(web, seeds, maxDepth, queue, queued, dep, page, level) && queue != []
    requires Remembered(web, seeds, maxDepth, queue, dep, page, {})
    ensures Remembered(web, seeds, maxDepth, queue[1..], Fetched(queue, dep), page,
                       if queue[0].0 in dep then {} else {queue[0].0})
  {
    var rest, dep' := queue[1..], Fetched(queue, dep);
    forall s | s in seeds ensures Covered(rest, dep', s, 0) {
      PopKeepsCovered(queue, dep, s, 0, level);
    }
    forall f, v | f in page && page[f] < maxDepth && LinksTo(web, f, v) ensures Covered(rest, dep', v, page[f] + 1) {
      PopKeepsCovered(queue, dep, v, page[f] + 1, level);
    }
  }

  lemma CoveredLater(queue: Queue, dep: map<Url, int>, v: Url, k: int, k': int)
    requires Covered(queue, dep, v, k) && k <= k'
    ensures Covered(queue, dep, v, k')
  {
  }

  lemma PushKeepsCovered(queue: Queue, more: Queue, dep: map<Url, int>, v: Url, k: int)
    requires Covered(queue, dep, v, k) && queue <= more
    ensures Covered(more, dep, v, k)
  {
    if !(v in dep && dep[v] <= k) {
      var i :| 0 <= i < |queue| && queue[i].0 == v && queue[i].1 <= k;
      assert more[i] == queue[i];
    }
  }

  lemma PushKeepsRemembered(web: Web, seeds: seq<Url>, maxDepth: int, queue: Queue, more: Queue, dep: map<Url, int>,
                            page: map<Url, int>, pending: set<Url>)
    requires Remembered(web, seeds, maxDepth, queue, dep, page, pending) && queue <= more
    ensures Remembered(web, seeds, maxDepth, more, dep, page, pending)
  {
    forall s | s in seeds ensures Covered(more, dep, s, 0) {
      PushKeepsCovered(queue, more, dep, s, 0);
    }
    forall f, v | f in page && page[f] < maxDepth && LinksTo(web, f, v) ensures Covered(more, dep, v, page[f] + 1) {
      PushKeepsCovered(queue, more, dep, v, page[f] + 1);
    }
  }

  lemma PushKeepsExplored(web: Web, seeds: seq<Url>, maxDepth: int, queue: Queue, queued: set<Url>,
                          dep: map<Url, int>, page: map<Url, int>, level: int, v: Url)
    requires Explored(web, seeds, maxDepth, queue, queued, dep, page, level)
    requires level < maxDepth && Reachable(web, seeds, v, level + 1)
    ensures Explored(web, seeds, maxDepth, queue + [(v, level + 1)], queued + {v}, dep, page, level)
  {
    var more := queue + [(v, level + 1)];
    assert forall i :: 0 <= i < |queue| ==> more[i] == queue[i];
    assert more[|queue|] == (v, level + 1);
    forall u | u in queued + {v} ensures Covered(more, dep, u, level + 1) {
      if u in queued {
        PushKeepsCovered(queue, more, dep, u, level + 1);
      }
    }
  }

  /** Queues the links of a page that are new. */
  method ExpandLinks(web: Web, ghost seeds: seq<Url>, ghost maxDepth: int, ghost url: Url, final: Url, depth: int,
                     queue: Queue, queued: set<Url>, seen: set<Url>,
                     ghost dep: map<Url, int>, ghost page: map<Url, int>)
    returns (queue': Queue, queued': set<Url>)
    requires Explored(web, seeds, maxDepth, queue, queued, dep, page, depth) && dep.Keys == seen
    requires depth < maxDepth && Reachable(web, seeds, url, depth) && Expandable(web, url) == Some(final)
    ensures Explored(web, seeds, maxDepth, queue', queued', dep, page, depth) && queue <= queue'
    ensures forall v :: LinksTo(web, final, v) ==> Covered(queue', dep, v, depth + 1)
  {
    queue', queued' := queue, queued;
    var links := web.content(final).links;
    for i := 0 to |links|
      invariant Explored(web, seeds, maxDepth, queue', queued', dep, page, depth) && queue <= queue'
      invariant forall j :: 0 <= j < i && web.inDomain(links[j]) ==> Covered(queue', dep, links[j], depth + 1)
    {
      var next := links[i];
      if web.inDomain(next) {
        if next !in seen && next !in queued' {
          assert LinksTo(web, final, next);
          assert Reachable(web, seeds, next, depth + 1);
          PushKeepsExplored(web, seeds, maxDepth, queue', queued', dep, page, depth, next);
          ghost var before := queue';
          queue' := queue' + [(next, depth + 1)];
          queued' := queued' + {next};
          forall j | 0 <= j < i && web.inDomain(links[j]) ensures Covered(queue', dep, links[j], depth + 1) {
            PushKeepsCovered(before, queue', dep, links[j], depth + 1);
          }
        }
      }
    }
  }

  /** Pages that end the whole crawl: failures of seeds, throttling, server errors and
      redirects to forbidden addresses. */
  predicate Fatal(web: Web, seeds: seq<Url>, url: Url) {
    var reply := web.request(url);
    || reply.Aborted?
    || (reply.status != 200 && (url in seeds || reply.status == 429 || reply.status >= 500))
    || (reply.status == 200 && reply.html && reply.final.Some? && !web.permitted(reply.final.value))
    || (reply.status == 200 && url in seeds
        && (!reply.html || reply.final.None? || !web.inDomain(reply.final.value)
            || web.content(reply.final.value).text == ""))
  }

  predicate NoRepeats(urls: seq<Url>) {
    forall i, j :: 0 <= i < j < |urls| ==> urls[i] != urls[j]
  }

  /** The indexed documents: one per expanded page, with that page's text. */
  ghost predicate DocsMatch(web: Web, docs: seq<(Url, string)>, page: map<Url, int>) {
    && (forall i, j :: 0 <= i < j < |docs| ==> docs[i].0 != docs[j].0)
    && (forall i :: 0 <= i < |docs| ==> docs[i].0 in page && docs[i].1 == web.content(docs[i].0).text)
    && (forall f :: f in page ==> exists i :: 0 <= i < |docs| && docs[i].0 == f)
  }

  lemma DocAdded(web: Web, docs: seq<(Url, string)>, page: map<Url, int>, f: Url, depth: int)
    requires DocsMatch(web, docs, page) && f !in page
    ensures DocsMatch(web, docs + [(f, web.content(f).text)], page[f := depth])
  {
    var more, page' := docs + [(f, web.content(f).text)], page[f := depth];
    forall g | g in page' ensures exists i :: 0 <= i < |more| && more[i].0 == g {
      if g == f {
        assert more[|docs|].0 == f;
      } else {
        var i :| 0 <= i < |docs| && docs[i].0 == g;
        assert more[i].0 == g;
      }
    }
  }

  /** What the URLs fetched so far have in common with the search state. */
  ghost predicate FetchedSoFar(web: Web, seeds: seq<Url>, fetched: seq<Url>, dep: map<Url, int>) {
    && NoRepeats(fetched)
    && (forall u :: u in fetched <==> u in dep)
    && (forall i, j :: 0 <= i < j < |fetched| ==> dep[fetched[i]] <= dep[fetched[j]])
  }

  lemma FetchedMore(web: Web, seeds: seq<Url>, fetched: seq<Url>, dep: map<Url, int>, url: Url, depth: int)
    requires FetchedSoFar(web, seeds, fetched, dep) && url !in dep
    requires forall u :: u in dep ==> dep[u] <= depth
    ensures FetchedSoFar(web, seeds, fetched + [url], dep[url := depth])
  {
  }

  /** `f` is the final page of a fetched URL, and one the crawler may index. */
  ghost predicate FinalOfSome(web: Web, fetched: seq<Url>, f: Url) {
    exists u :: u in fetched && Expandable(web, u) == Some(f)
  }

  ghost predicate DocsFromFetched(web: Web, fetched: seq<Url>, docs: seq<(Url, string)>) {
    |docs| <= |fetched| && forall i :: 0 <= i < |docs| ==> FinalOfSome(web, fetched, docs[i].0)
  }

  lemma FetchedOneMore(web: Web, fetched: seq<Url>, url: Url, docs: seq<(Url, string)>, docs': seq<(Url, string)>)
    requires DocsFromFetched(web, fetched, docs)
    requires docs <= docs' && |docs'| <= |docs| + 1
    requires |docs'| > |docs| ==> Expandable(web, url) == Some(docs'[|docs|].0)
    ensures DocsFromFetched(web, fetched + [url], docs')
  {
    var more := fetched + [url];
    forall i | 0 <= i < |docs'| ensures FinalOfSome(web, more, docs'[i].0) {
      if i < |docs| {
        assert docs'[i] == docs[i];
        var u :| u in fetched && Expandable(web, u) == Some(docs[i].0);
        assert u in more;
      } else {
        assert more[|fetched|] == url;
      }
    }
  }

  datatype Verdict = Ends | Skips | Indexes(final: Url)

  /** What the crawler does with a page it requested. */
  method Classify(web: Web, seeds: seq<Url>, url: Url, indexed: set<Url>) returns (v: Verdict)
    requires forall f :: f in indexed ==> web.content(f).text != ""
    ensures v.Ends? <==> Fatal(web, seeds, url)
    ensures v.Indexes? <==>
              && !Fatal(web, seeds, url)
              && Expandable(web, url).Some? && Expandable(web, url).value !in indexed
    ensures v.Indexes? ==> Expandable(web, url) == Some(v.final)
  {
    var reply := web.request(url);
    if reply.Aborted? {
      return Ends;
    }
    if reply.status != 200 {
      return if url in seeds || reply.status == 429 || reply.status >= 500 then Ends else Skips;
    }
    if !reply.html {
      return if url in seeds then Ends else Skips;
    }
    if reply.final.None? {
      return if url in seeds then Ends else Skips;
    }
    var final := reply.final.value;
    if !web.permitted(final) {
      return Ends;
    }
    if !web.inDomain(final) {
      return if url in seeds then Ends else Skips;
    }
    if final in indexed {
      return Skips;
    }
    if web.content(final).text == "" {
      return if url in seeds then Ends else Skips;
    }
    return Indexes(final);
  }

  /** A processed URL that is not expandable, or whose final page was expanded before,
      is no longer pending. */
  lemma SkipSettles(web: Web, seeds: seq<Url>, maxDepth: int, queue: Queue, dep: map<Url, int>, page: map<Url, int>,
                    url: Url)
    requires Remembered(web, seeds, maxDepth, queue, dep, page, {url}) && url in dep
    requires Expandable(web, url).Some? ==>
               Expandable(web, url).value in page && page[Expandable(web, url).value] <= dep[url]
    ensures Remembered(web, seeds, maxDepth, queue, dep, page, {})
  {
  }

  /** Neither is one whose page has just been expanded. */
  lemma ExpansionSettles(web: Web, seeds: seq<Url>, maxDepth: int, queue: Queue, dep: map<Url, int>,
                         page: map<Url, int>,
                         url: Url, final: Url, depth: int)
    requires Remembered(web, seeds, maxDepth, queue, dep, page, {url})
    requires url in dep && dep[url] == depth && Expandable(web, url) == Some(final) && final !in page
    requires depth < maxDepth ==> forall v :: LinksTo(web, final, v) ==> Covered(queue, dep, v, depth + 1)
    ensures Remembered(web, seeds, maxDepth, queue, dep, page[final := depth], {})
  {
    var page' := page[final := depth];
    forall f, v | f in page' && page'[f] < maxDepth && LinksTo(web, f, v) ensures Covered(queue, dep, v, page'[f] + 1) {
      if f == final {
        assert Covered(queue, dep, v, depth + 1);
      } else {
        assert page'[f] == page[f];
      }
    }
  }

  /** The search state with the documents and the URLs fetched so far. */
  ghost predicate CrawlState(web: Web, seeds: seq<Url>, maxDepth: int, queue: Queue, queued: set<Url>, seen: set<Url>,
                             indexed: set<Url>, docs: seq<(Url, string)>, fetched: seq<Url>,
                             dep: map<Url, int>, page: map<Url, int>, level: int)
  {
    && Explored(web, seeds, maxDepth, queue, queued, dep, page, level)
    && dep.Keys == seen && page.Keys == indexed
    && DocsMatch(web, docs, page) && (forall f :: f in page ==> web.content(f).text != "")
    && FetchedSoFar(web, seeds, fetched, dep)
  }

  /** Taking the head of the queue: it was fetched before, or it is fetched now and its
      page is still pending. */
  lemma PopKeepsState(web: Web, seeds: seq<Url>, maxDepth: int, queue: Queue, queued: set<Url>, seen: set<Url>,
                      indexed: set<Url>, docs: seq<(Url, string)>, fetched: seq<Url>,
                      dep: map<Url, int>, page: map<Url, int>, level: int)
    requires CrawlState(web, seeds, maxDepth, queue, queued, seen, indexed, docs, fetched, dep, page, level)
    requires Remembered(web, seeds, maxDepth, queue, dep, page, {}) && queue != []
    ensures var (url, depth) := queue[0];
            if url in seen then
              && CrawlState(web, seeds, maxDepth, queue[1..], queued - {url}, seen, indexed, docs, fetched, dep,
                   page, depth)
              && Remembered(web, seeds, maxDepth, queue[1..], dep, page, {})
            else
              && CrawlState(web, seeds, maxDepth, queue[1..], queued - {url}, seen + {url}, indexed, docs,
                            fetched + [url], dep[url := depth], page, depth)
              && Remembered(web, seeds, maxDepth, queue[1..], dep[url := depth], page, {url})
  {
    var (url, depth) := queue[0];
    PopKeepsExplored(web, seeds, maxDepth, queue, queued, dep, page, level);
    PopKeepsRemembered(web, seeds, maxDepth, queue, queued, dep, page, level);
    if url !in seen {
      FetchedMore(web, seeds, fetched, dep, url, depth);
    }
  }

  /** What holds of the documents in every state between two requests. */
  lemma DocsAreComplete(web: Web, seeds: seq<Url>, maxDepth: int, queue: Queue, queued: set<Url>, seen: set<Url>,
                        indexed: set<Url>, docs: seq<(Url, string)>, fetched: seq<Url>,
                        dep: map<Url, int>, page: map<Url, int>, level: int)
    requires CrawlState(web, seeds, maxDepth, queue, queued, seen, indexed, docs, fetched, dep, page, level)
    requires Remembered(web, seeds, maxDepth, queue, dep, page, {})
    ensures forall i, j :: 0 <= i < j < |docs| ==> docs[i].0 != docs[j].0
    ensures forall i :: 0 <= i < |docs| ==> docs[i].1 == web.content(docs[i].0).text
    ensures forall u, i :: u in fetched && 0 <= i < |queue| ==> dep[u] <= queue[i].1
  {
  }

  /** Processes one URL that has just been taken from the queue for the first time. */
  method Visit(web: Web, seeds: seq<Url>, maxDepth: int, url: Url, depth: int, queue: Queue, queued: set<Url>,
               seen: set<Url>, indexed: set<Url>, docs: seq<(Url, string)>, ghost fetched: seq<Url>,
               ghost dep: map<Url, int>, ghost page: map<Url, int>)
    returns (ok: bool, queue': Queue, queued': set<Url>, indexed': set<Url>, docs': seq<(Url, string)>,
        ghost page': map<Url, int>)
    requires CrawlState(web, seeds, maxDepth, queue, queued, seen, indexed, docs, fetched, dep, page, depth)
    requires Remembered(web, seeds, maxDepth, queue, dep, page, {url})
    requires url in dep && dep[url] == depth
    ensures ok <==> !Fatal(web, seeds, url)
    ensures ok ==> CrawlState(web, seeds, maxDepth, queue', queued', seen, indexed', docs', fetched, dep, page', depth)
    ensures ok ==> Remembered(web, seeds, maxDepth, queue', dep, page', {})
    ensures docs <= docs' && |docs'| <= |docs| + 1
    ensures |docs'| > |docs| ==> Expandable(web, url) == Some(docs'[|docs|].0)
  {
    queue', queued', indexed', docs', page' := queue, queued, indexed, docs, page;
    var v := Classify(web, seeds, url, indexed);
    match v
    case Ends =>
      ok := false;
    case Skips =>
      SkipSettles(web, seeds, maxDepth, queue, dep, page, url);
      ok := true;
    case Indexes(final) =>
      docs' := docs + [(final, web.content(final).text)];
      indexed' := indexed + {final};
      DocAdded(web, docs, page, final, depth);
      if depth < maxDepth {
        queue', queued' := ExpandLinks(web, seeds, maxDepth, url, final, depth, queue, queued, seen, dep, page);
        PushKeepsRemembered(web, seeds, maxDepth, queue, queue', dep, page, {url});
      }
      ExpansionSettles(web, seeds, maxDepth, queue', dep, page, url, final, depth);
      page' := page[final := depth];
      ok := true;
  }

  lemma SeedsState(web: Web, seeds: seq<Url>, maxDepth: int, queue: Queue, queued: set<Url>)
    requires |queue| == |seeds| && forall i :: 0 <= i < |seeds| ==> queue[i] == (seeds[i], 0)
    requires queued == set s | s in seeds
    ensures CrawlState(web, seeds, maxDepth, queue, queued, {}, {}, [], [], map[], map[], 0)
    ensures Remembered(web, seeds, maxDepth, queue, map[], map[], {})
  {
    forall s | s in seeds ensures Covered(queue, map[], s, 0) && Covered(queue, map[], s, 1) {
      var i :| 0 <= i < |seeds| && seeds[i] == s;
      assert queue[i] == (s, 0);
    }
  }

  lemma LevelsAreComplete(web: Web, seeds: seq<Url>, maxDepth: int, queue: Queue, dep: map<Url, int>,
                          page: map<Url, int>)
    requires Remembered(web, seeds, maxDepth, queue, dep, page, {})
    ensures forall u, d: nat :: Reachable(web, seeds, u, d) && (d <= maxDepth || d == 0) && Beyond(queue, d) ==>
              u in dep && dep[u] <= d
  {
    forall u, d: nat | Reachable(web, seeds, u, d) && (d <= maxDepth || d == 0) && Beyond(queue, d)
      ensures u in dep && dep[u] <= d
    {
      ReachableIsCovered(web, seeds, maxDepth, queue, dep, page, u, d);
    }
  }

  /** The documents are the final pages of those fetched URLs that answer with an HTML
      page inside the domain, at an address allowed, and with text. */
  ghost predicate IndexesExactly(web: Web, fetched: seq<Url>, docs: seq<(Url, string)>) {
    forall f :: (exists i :: 0 <= i < |docs| && docs[i].0 == f) <==>
                (exists u :: u in fetched && web.request(u) == Http(200, true, Some(f))
                   && web.inDomain(f) && web.permitted(f) && web.content(f).text != "")
  }

  /** A fetched URL is a seed or a link, inside the domain, of a document. */
  ghost predicate OnlyLinks(web: Web, seeds: seq<Url>, fetched: seq<Url>, docs: seq<(Url, string)>) {
    forall v :: v in fetched ==>
      v in seeds || (web.inDomain(v) && exists i :: 0 <= i < |docs| && v in web.content(docs[i].0).links)
  }

  /** The links of a document fetched above the depth limit have been fetched, one level
      further at most. */
  ghost predicate AllLinks(web: Web, maxDepth: int, fetched: seq<Url>, dep: map<Url, int>, docs: seq<(Url, string)>)
    requires forall u :: u in fetched ==> u in dep
  {
    forall u, i, v :: (u in fetched && dep[u] < maxDepth && 0 <= i < |docs|
                       && web.request(u) == Http(200, true, Some(docs[i].0))
                       && v in web.content(docs[i].0).links && web.inDomain(v)) ==>
      v in fetched && dep[v] <= dep[u] + 1
  }

  lemma DocsAreIndexable(web: Web, seeds: seq<Url>, maxDepth: int, queue: Queue, queued: set<Url>, seen: set<Url>,
                         indexed: set<Url>, docs: seq<(Url, string)>, fetched: seq<Url>,
                         dep: map<Url, int>, page: map<Url, int>, level: int)
    requires CrawlState(web, seeds, maxDepth, queue, queued, seen, indexed, docs, fetched, dep, page, level)
    requires Remembered(web, seeds, maxDepth, queue, dep, page, {}) && DocsFromFetched(web, fetched, docs)
    requires forall u :: u in fetched ==> !Fatal(web, seeds, u)
    ensures IndexesExactly(web, fetched, docs)
  {
    forall f ensures (exists i :: 0 <= i < |docs| && docs[i].0 == f) <==>
                     (exists u :: u in fetched && web.request(u) == Http(200, true, Some(f))
                        && web.inDomain(f) && web.permitted(f) && web.content(f).text != "")
    {
      if i :| 0 <= i < |docs| && docs[i].0 == f {
        assert FinalOfSome(web, fetched, docs[i].0);
        var u :| u in fetched && Expandable(web, u) == Some(f);
        assert !Fatal(web, seeds, u) && web.request(u) == Http(200, true, Some(f));
      }
      if u :| u in fetched && web.request(u) == Http(200, true, Some(f)) && web.inDomain(f)
              && web.content(f).text != "" {
        assert u in dep && Expandable(web, u) == Some(f);
      }
    }
  }

  /** Someone reachable earlier links to a reachable URL that is no seed. */
  lemma {:induction false} ReachedByLink(web: Web, seeds: seq<Url>, v: Url, d: nat) returns (u: Url, e: nat)
    requires Reachable(web, seeds, v, d) && v !in seeds
    ensures e < d && Reachable(web, seeds, u, e) && Expandable(web, u).Some?
    ensures LinksTo(web, Expandable(web, u).value, v)
    decreases d
  {
    if Reachable(web, seeds, v, d - 1) {
      u, e := ReachedByLink(web, seeds, v, d - 1);
    } else {
      e := d - 1;
      u :| Reachable(web, seeds, u, e) && Expandable(web, u).Some? && LinksTo(web, Expandable(web, u).value, v);
    }
  }

  lemma FetchedAreLinked(web: Web, seeds: seq<Url>, maxDepth: int, queue: Queue, queued: set<Url>, seen: set<Url>,
                         indexed: set<Url>, docs: seq<(Url, string)>, fetched: seq<Url>,
                         dep: map<Url, int>, page: map<Url, int>, level: int)
    requires CrawlState(web, seeds, maxDepth, queue, queued, seen, indexed, docs, fetched, dep, page, level)
    requires Remembered(web, seeds, maxDepth, queue, dep, page, {})
    ensures OnlyLinks(web, seeds, fetched, docs)
  {
    forall v | v in fetched && v !in seeds
      ensures web.inDomain(v) && exists i :: 0 <= i < |docs| && v in web.content(docs[i].0).links
    {
      var u, e := ReachedByLink(web, seeds, v, dep[v]);
      assert Beyond(queue, e);
      ReachableIsCovered(web, seeds, maxDepth, queue, dep, page, u, e);
      var i :| 0 <= i < |docs| && docs[i].0 == Expandable(web, u).value;
    }
  }

  lemma CoveredByNone(dep: map<Url, int>, v: Url, k: int)
    requires Covered([], dep, v, k)
    ensures v in dep && dep[v] <= k
  {
  }

  lemma DrainedLink(web: Web, seeds: seq<Url>, maxDepth: int, dep: map<Url, int>, page: map<Url, int>, u: Url, f: Url,
                    v: Url)
    requires Remembered(web, seeds, maxDepth, [], dep, page, {}) && u in dep && dep[u] < maxDepth
    requires Expandable(web, u) == Some(f) && v in web.content(f).links && web.inDomain(v)
    ensures v in dep && dep[v] <= dep[u] + 1
  {
    assert f in page && page[f] <= dep[u];
    assert LinksTo(web, f, v);
    CoveredByNone(dep, v, page[f] + 1);
  }

  lemma DrainedLinks(web: Web, seeds: seq<Url>, maxDepth: int, docs: seq<(Url, string)>, fetched: seq<Url>,
                     dep: map<Url, int>, page: map<Url, int>)
    requires Remembered(web, seeds, maxDepth, [], dep, page, {}) && FetchedSoFar(web, seeds, fetched, dep)
    requires DocsFromFetched(web, fetched, docs)
    ensures AllLinks(web, maxDepth, fetched, dep, docs)
  {
    forall u, i, v | u in fetched && dep[u] < maxDepth && 0 <= i < |docs|
                     && web.request(u) == Http(200, true, Some(docs[i].0))
                     && v in web.content(docs[i].0).links && web.inDomain(v)
      ensures v in fetched && dep[v] <= dep[u] + 1
    {
      assert FinalOfSome(web, fetched, docs[i].0);
      DrainedLink(web, seeds, maxDepth, dep, page, u, docs[i].0, v);
    }
  }

  /** The crawl. `fetched` lists the URLs requested, in order; `dep` their depths.
      Whether it fails or not, no URL is taken from the queue twice, the budget holds, depths
      never decrease and no URL is further from the seeds than the limit. A crawl that
      returns with `waiting` still in its queue, because of the budget, has requested
      every URL of the levels before, at its least depth, and none of a deeper level
      than those that wait; with nothing waiting, every URL within the limit. It has
      indexed every page it could, and nothing but pages it requested and could index. */
  method FetchWeb(web: Web, seeds: seq<Url>, maxDepth: int, maxPages: int)
    returns (r: Crawl, fetched: seq<Url>, ghost dep: map<Url, int>, ghost waiting: Queue)
    ensures FetchedSoFar(web, seeds, fetched, dep)
    ensures |fetched| <= if maxPages > 0 then maxPages else 0
    ensures forall u :: u in fetched ==>
              0 <= dep[u] && (dep[u] <= maxDepth || dep[u] == 0) && Reachable(web, seeds, u, dep[u])
    ensures r.CrawlFailed? <==> exists u :: u in fetched && Fatal(web, seeds, u)
    ensures r.Crawled? && waiting != [] ==> |fetched| >= maxPages
    ensures r.Crawled? ==>
              forall u, d: nat :: Reachable(web, seeds, u, d) && (d <= maxDepth || d == 0) && Beyond(waiting, d) ==>
                u in fetched && dep[u] <= d
    ensures r.Crawled? ==>
              forall u, i :: u in fetched && 0 <= i < |waiting| ==> dep[u] <= waiting[i].1
    ensures r.Crawled? ==>
              && (forall i, j :: 0 <= i < j < |r.docs| ==> r.docs[i].0 != r.docs[j].0)
              && (forall i :: 0 <= i < |r.docs| ==> r.docs[i].1 == web.content(r.docs[i].0).text)
              && |r.docs| <= |fetched|
    ensures r.Crawled? ==> IndexesExactly(web, fetched, r.docs) && OnlyLinks(web, seeds, fetched, r.docs)
    ensures r.Crawled? && waiting == [] ==> AllLinks(web, maxDepth, fetched, dep, r.docs)
  {
    var seen: set<Url> := {};
    var queued := set s | s in seeds;
    var indexed: set<Url> := {};
    var queue: Queue := seq(|seeds|, i requires 0 <= i < |seeds| => (seeds[i], 0));
    var docs: seq<(Url, string)> := [];
    var fetchedPages := 0;
    fetched := [];
    dep, waiting := map[], [];
    ghost var page: map<Url, int> := map[];
    ghost var level := 0;
    SeedsState(web, seeds, maxDepth, queue, queued);
    while queue != [] && fetchedPages < maxPages
      invariant CrawlState(web, seeds, maxDepth, queue, queued, seen, indexed, docs, fetched, dep, page, level)
      invariant Remembered(web, seeds, maxDepth, queue, dep, page, {})
      invariant fetchedPages == |fetched| <= if maxPages > 0 then maxPages else 0
      invariant forall u :: u in fetched ==> !Fatal(web, seeds, u)
      invariant DocsFromFetched(web, fetched, docs)
      decreases maxPages - fetchedPages, |queue|
    {
      var (url, depth) := queue[0];
      PopKeepsState(web, seeds, maxDepth, queue, queued, seen, indexed, docs, fetched, dep, page, level);
      queue, queued := queue[1..], queued - {url};
      level := depth;
      if url in seen {
        continue;
      }
      dep := dep[url := depth];
      seen := seen + {url};
      ghost var before, had := fetched, docs;
      fetched := fetched + [url];
      fetchedPages := fetchedPages + 1;
      var ok;
      ok, queue, queued, indexed, docs, page :=
        Visit(web, seeds, maxDepth, url, depth, queue, queued, seen, indexed, docs, fetched, dep, page);
      if !ok {
        return CrawlFailed, fetched, dep, [];
      }
      FetchedOneMore(web, before, url, had, docs);
    }
    LevelsAreComplete(web, seeds, maxDepth, queue, dep, page);
    DocsAreComplete(web, seeds, maxDepth, queue, queued, seen, indexed, docs, fetched, dep, page, level);
    DocsAreIndexable(web, seeds, maxDepth, queue, queued, seen, indexed, docs, fetched, dep, page, level);
    FetchedAreLinked(web, seeds, maxDepth, queue, queued, seen, indexed, docs, fetched, dep, page, level);
    if queue == [] {
      DrainedLinks(web, seeds, maxDepth, docs, fetched, dep, page);
    }
    return Crawled(docs), fetched, dep, queue;
  }
}
