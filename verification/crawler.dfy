/**
  The crawl loop of `crawl` (app.py:3573-3749): a breadth-first walk of one
  site from a start URL, visiting at most `max_pages` pages, collecting the
  pages with contacts and queueing the links that stay on the site, with
  probable detail pages (app.py:3588-3596) put at the front of the queue.

  URL parsing (`urlparse`) and fetching a page with its contacts and links
  are parameters: `Web.parse` splits a URL, `Web.fetch` is `None` for a page
  that does not answer with a 2xx status and otherwise gives the emails,
  phones and links the page yields.
*/
module Crawler {
  import opened Wrappers
  import opened Text
  import opened Seqs
  import opened Hosts
  import opened ContactRows

  // ---------------------------------------------------------------------------
  // Paths

  /** The non-empty strings of `parts`, in order. */
  function NonEmptyParts(parts: seq<string>): seq<string> {
    if parts == [] then []
    else (if parts[0] == [] then [] else [parts[0]]) + NonEmptyParts(parts[1..])
  }

  lemma {:induction false} NonEmptyPartsAppend(a: seq<string>, b: seq<string>)
    ensures NonEmptyParts(a + b) == NonEmptyParts(a) + NonEmptyParts(b)
  {
    if a != [] {
      assert (a + b)[1..] == a[1..] + b;
      NonEmptyPartsAppend(a[1..], b);
    } else {
      assert a + b == b;
    }
  }

  lemma {:induction false} NonEmptyPartsKeeps(parts: seq<string>)
    requires forall i | 0 <= i < |parts| :: parts[i] != []
    ensures NonEmptyParts(parts) == parts
  {
    if parts != [] {
      NonEmptyPartsKeeps(parts[1..]);
    }
  }

  lemma {:induction false} NonEmptyPartsFrom(parts: seq<string>)
    ensures forall i | 0 <= i < |NonEmptyParts(parts)| ::
      NonEmptyParts(parts)[i] != [] && NonEmptyParts(parts)[i] in parts
  {
    if parts != [] {
      NonEmptyPartsFrom(parts[1..]);
    }
  }

  /** `[s for s in path.split("/") if s]`. */
  function Segments(path: string): seq<string> {
    NonEmptyParts(Split(path, '/'))
  }

  /** Segments are non-empty and free of slashes. */
  lemma {:induction false} SegmentsSpec(path: string)
    ensures forall i | 0 <= i < |Segments(path)| :: Segments(path)[i] != [] && '/' !in Segments(path)[i]
  {
    SplitJoin(path, '/');
    NonEmptyPartsFrom(Split(path, '/'));
  }

  /** A path written as "/" and its segments joined by slashes has exactly those segments. */
  lemma {:induction false} SegmentsOfJoin(segs: seq<string>)
    requires forall i | 0 <= i < |segs| :: segs[i] != [] && '/' !in segs[i]
    ensures Segments("/" + Join(segs, '/')) == segs
  {
    assert "/" + Join(segs, '/') == [] + ['/'] + Join(segs, '/');
    SplitAppend([], Join(segs, '/'), '/');
    if segs == [] {
      assert Split([], '/') == [[]];
    } else {
      JoinSplit(segs, '/');
    }
    NonEmptyPartsAppend([[]], Split(Join(segs, '/'), '/'));
    if segs != [] {
      NonEmptyPartsKeeps(segs);
    }
  }

  /** A trailing slash does not change the segments. */
  lemma {:induction false} SegmentsTrailingSlash(path: string)
    ensures Segments(path + "/") == Segments(path)
  {
    SplitAppend(path, [], '/');
    assert path + "/" == path + ['/'] + [];
    NonEmptyPartsAppend(Split(path, '/'), [[]]);
  }

  /** A single segment names a detail page: it holds "_" and is not an asset folder. */
  predicate IsDetailSegment(seg: string) {
    '_' in seg && !StartsWith(seg, "_assets")
  }

  /** `is_probable_detail_path`, on the segments of the path. */
  predicate IsDetailSegments(segs: seq<string>) {
    (|segs| == 1 && IsDetailSegment(segs[0])) || (|segs| > 2 && segs[0] == "firmen")
  }

  predicate IsProbableDetailPath(path: string) {
    IsDetailSegments(Segments(path))
  }

  /**
    "/name" is a detail page exactly when the name is a detail segment, and so
    is every path under "/firmen" two or more levels down; "/firmen/region"
    and the root are not.
  */
  lemma {:induction false} ProbableDetailPaths(seg: string, segs: seq<string>)
    requires seg != [] && '/' !in seg
    requires forall i | 0 <= i < |segs| :: segs[i] != [] && '/' !in segs[i]
    ensures IsProbableDetailPath("/" + seg) <==> IsDetailSegment(seg)
    ensures |segs| >= 2 ==> IsProbableDetailPath("/" + Join(["firmen"] + segs, '/'))
    ensures |segs| == 1 ==> !IsProbableDetailPath("/" + Join(["firmen"] + segs, '/'))
    ensures !IsProbableDetailPath("/")
  {
    SegmentsOfJoin([seg]);
    assert Join([seg], '/') == seg;
    var firmen := ["firmen"] + segs;
    assert forall i | 0 <= i < |firmen| :: firmen[i] != [] && '/' !in firmen[i];
    SegmentsOfJoin(firmen);
    SegmentsOfJoin([]);
    assert "/" + Join([], '/') == "/";
  }

  // ---------------------------------------------------------------------------
  // Links

  /** What `urlparse` gives for a URL. */
  datatype UrlParts = UrlParts(scheme: string, netloc: string, path: string)

  /** A link on a page: the stripped `href` and the absolute URL without fragment it resolves to. */
  datatype Anchor = Anchor(href: string, target: string)

  /** What a page that answered with a 2xx status yields. */
  datatype PageContent = PageContent(emails: seq<string>, phones: seq<string>, anchors: seq<Anchor>)

  datatype Web = Web(parse: string -> UrlParts, fetch: string -> Option<PageContent>)

  /** The start site's host without "www." and the start URL's path segments. */
  datatype Scope = Scope(baseDomain: string, startSegments: seq<string>)

  function ScopeOf(start: UrlParts): Scope {
    Scope(NormalizeNetloc(start.netloc), Segments(start.path))
  }

  datatype LinkAction = Skip | Front | Back

  const SKIPPED_EXTENSIONS: seq<string> := [".jpg", ".jpeg", ".png", ".gif", ".pdf", ".zip", ".svg", ".css", ".js"]

  predicate IsContactLink(href: string) {
    StartsWith(Lower(href), "mailto:") || StartsWith(Lower(href), "tel:")
  }

  predicate HasSkippedExtension(path: string) {
    exists ext | ext in SKIPPED_EXTENSIONS :: EndsWith(Lower(path), ext)
  }

  /** A link that is not a mail or phone link, is web, stays on the site and is no file download. */
  predicate Followable(href: string, target: UrlParts, scope: Scope) {
    && !IsContactLink(href)
    && (target.scheme == "http" || target.scheme == "https")
    && NormalizeNetloc(target.netloc) == scope.baseDomain
    && !HasSkippedExtension(target.path)
  }

  /** A region listing "/firmen/<region>" other than the one the crawl started from. */
  predicate IsOtherRegionIndex(segs: seq<string>, scope: Scope) {
    |segs| == 2 && segs[0] == "firmen" && segs != scope.startSegments
  }

  /** How the crawl treats one link (app.py:3716-3749). */
  function ClassifyLink(href: string, target: UrlParts, scope: Scope): LinkAction {
    if IsContactLink(href) then Skip
    else if target.scheme != "http" && target.scheme != "https" then Skip
    else if NormalizeNetloc(target.netloc) != scope.baseDomain then Skip
    else if HasSkippedExtension(target.path) then Skip
    else
      var segs := Segments(target.path);
      if |segs| == 1 && '_' in segs[0] && !StartsWith(segs[0], "_assets") then Front
      else if |segs| >= 1 && segs[0] == "firmen" && |segs| == 2 && segs != scope.startSegments then Skip
      else if |segs| > 2 && segs[0] == "firmen" then Front
      else Back
  }

  /**
    A link goes to the front of the queue exactly when it is followable and
    its path is a probable detail page, is dropped exactly when it is not
    followable or lists another region, and otherwise goes to the back.
  */
  lemma ClassifyLinkSpec(href: string, target: UrlParts, scope: Scope)
    ensures ClassifyLink(href, target, scope) == Front
        <==> Followable(href, target, scope) && IsProbableDetailPath(target.path)
    ensures ClassifyLink(href, target, scope) == Skip
        <==> !Followable(href, target, scope) || IsOtherRegionIndex(Segments(target.path), scope)
    ensures ClassifyLink(href, target, scope) != Skip ==> NormalizeNetloc(target.netloc) == scope.baseDomain
  {
  }

  // ---------------------------------------------------------------------------
  // The queue

  /** `enqueue(u, left)`: a URL already visited or queued is ignored. */
  function Enqueued(queue: seq<string>, visited: set<string>, u: string, front: bool): seq<string> {
    if u in visited || u in queue then queue
    else if front then [u] + queue
    else queue + [u]
  }

  /**
    Enqueuing keeps the queue free of repeats and of visited URLs, adds the
    URL exactly when it is new, at the front or the back as asked, and keeps
    the order of the others.
  */
  lemma EnqueuedSpec(queue: seq<string>, visited: set<string>, u: string, front: bool)
    requires NoDup(queue)
    ensures NoDup(Enqueued(queue, visited, u, front))
    ensures Elems(Enqueued(queue, visited, u, front))
         == if u in visited then Elems(queue) else Elems(queue) + {u}
    ensures u !in visited && u !in queue && front ==> Enqueued(queue, visited, u, front) == [u] + queue
    ensures u !in visited && u !in queue && !front ==> Enqueued(queue, visited, u, front) == queue + [u]
    ensures (forall v | v in queue :: v !in visited) ==>
      forall v | v in Enqueued(queue, visited, u, front) :: v !in visited
  {
    var q := Enqueued(queue, visited, u, front);
    if u !in visited && u !in queue {
      if front {
        assert forall i | 1 <= i < |q| :: q[i] == queue[i - 1];
      } else {
        assert forall i | 0 <= i < |queue| :: q[i] == queue[i];
      }
    }
  }

  /** A link the crawl follows. */
  predicate Follows(a: Anchor, web: Web, scope: Scope) {
    ClassifyLink(a.href, web.parse(a.target), scope) != Skip
  }

  /** The links of a visited page, each enqueued as `ClassifyLink` says. */
  function WithLinks(queue: seq<string>, visited: set<string>, anchors: seq<Anchor>, web: Web, scope: Scope): seq<string> {
    if anchors == [] then queue
    else
      var q := WithLinks(queue, visited, anchors[..|anchors| - 1], web, scope);
      var a := anchors[|anchors| - 1];
      var action := ClassifyLink(a.href, web.parse(a.target), scope);
      if action == Skip then q else Enqueued(q, visited, a.target, action == Front)
  }

  /** A URL is on the crawled site. */
  predicate OnSite(u: string, web: Web, scope: Scope) {
    NormalizeNetloc(web.parse(u).netloc) == scope.baseDomain
  }

  /** The queue has no repeats and holds no visited URL. */
  predicate QueueFresh(queue: seq<string>, visited: set<string>) {
    NoDup(queue) && forall v | v in queue :: v !in visited
  }

  /**
    Enqueuing the links of a page keeps the queue fresh, keeps what was
    queued, adds only URLs on the site, and leaves every followed link of the
    page visited or queued.
  */
  lemma {:induction false} WithLinksSpec(queue: seq<string>, visited: set<string>, anchors: seq<Anchor>, web: Web, scope: Scope)
    requires QueueFresh(queue, visited)
    ensures QueueFresh(WithLinks(queue, visited, anchors, web, scope), visited)
    ensures forall v | v in queue :: v in WithLinks(queue, visited, anchors, web, scope)
    ensures forall v | v in WithLinks(queue, visited, anchors, web, scope) :: v in queue || OnSite(v, web, scope)
    ensures forall a | a in anchors && Follows(a, web, scope) ::
      a.target in visited || a.target in WithLinks(queue, visited, anchors, web, scope)
  {
    if anchors != [] {
      var init := anchors[..|anchors| - 1];
      var q := WithLinks(queue, visited, init, web, scope);
      var a := anchors[|anchors| - 1];
      WithLinksSpec(queue, visited, init, web, scope);
      ClassifyLinkSpec(a.href, web.parse(a.target), scope);
      if Follows(a, web, scope) {
        EnqueuedSpec(q, visited, a.target, ClassifyLink(a.href, web.parse(a.target), scope) == Front);
      }
      assert anchors == init + [a];
    }
  }

  // ---------------------------------------------------------------------------
  // The crawl

  /** The queue, the visited URLs and the pages with contacts found so far. */
  datatype Crawl = Crawl(queue: seq<string>, visited: set<string>, pages: seq<PageFound>)

  function Start(startUrl: string): Crawl {
    Crawl([startUrl], {}, [])
  }

  /** The links of a page, none for a page that did not answer with a 2xx status. */
  function LinksOf(u: string, web: Web): seq<Anchor> {
    if web.fetch(u).Some? then web.fetch(u).value.anchors else []
  }

  /** Visiting a URL taken from the queue: it is recorded, its contacts kept and its links queued. */
  function AfterVisit(c: Crawl, url: string, web: Web, scope: Scope): Crawl {
    var visited := c.visited + {url};
    match web.fetch(url)
    case None => Crawl(c.queue, visited, c.pages)
    case Some(content) =>
      var pages := if content.emails != [] || content.phones != []
                   then c.pages + [PageFound(url, content.emails, content.phones)]
                   else c.pages;
      Crawl(WithLinks(c.queue, visited, content.anchors, web, scope), visited, pages)
  }

  /** The crawl loop, run until the queue is empty or `maxPages` pages were visited. */
  function Crawled(c: Crawl, maxPages: int, web: Web, scope: Scope): Crawl
    decreases maxPages - |c.visited|, |c.queue|
  {
    if c.queue == [] || |c.visited| >= maxPages then c
    else
      var url := c.queue[0];
      var rest := c.(queue := c.queue[1..]);
      if url in c.visited || !OnSite(url, web, scope) then Crawled(rest, maxPages, web, scope)
      else Crawled(AfterVisit(rest, url, web, scope), maxPages, web, scope)
  }

  /** A page found was fetched with a 2xx status and shows the contacts it yielded, at least one. */
  predicate FoundOn(p: PageFound, web: Web) {
    && web.fetch(p.url).Some?
    && web.fetch(p.url).value.emails == p.emails
    && web.fetch(p.url).value.phones == p.phones
    && (p.emails != [] || p.phones != [])
  }

  /** The fetch of `u` answered with a 2xx status and yielded an email or a phone. */
  predicate HasContacts(u: string, web: Web) {
    web.fetch(u).Some? && (web.fetch(u).value.emails != [] || web.fetch(u).value.phones != [])
  }

  /**
    Every page found was visited, is recorded once and shows what its fetch
    yielded, and every visited URL whose fetch yielded contacts was found.
  */
  predicate PagesWell(pages: seq<PageFound>, visited: set<string>, web: Web) {
    && (forall i | 0 <= i < |pages| :: pages[i].url in visited && FoundOn(pages[i], web))
    && (forall i, j | 0 <= i < j < |pages| :: pages[i].url != pages[j].url)
    && (forall u | u in visited && HasContacts(u, web) :: exists i | 0 <= i < |pages| :: pages[i].url == u)
  }

  /** Every followed link of a visited page is visited or queued. */
  predicate LinksCovered(c: Crawl, web: Web, scope: Scope) {
    forall u, a | u in c.visited && a in LinksOf(u, web) && Follows(a, web, scope) ::
      a.target in c.visited || a.target in c.queue
  }

  /** What holds throughout the crawl. */
  predicate CrawlInv(c: Crawl, web: Web, scope: Scope) {
    && QueueFresh(c.queue, c.visited)
    && (forall u | u in c.visited :: OnSite(u, web, scope))
    && PagesWell(c.pages, c.visited, web)
    && LinksCovered(c, web, scope)
  }

  lemma StartInv(startUrl: string, web: Web, scope: Scope)
    ensures CrawlInv(Start(startUrl), web, scope)
  {
  }

  /** Dropping the head of the queue that is off the site keeps the invariant. */
  lemma DropInv(c: Crawl, web: Web, scope: Scope)
    requires CrawlInv(c, web, scope) && c.queue != [] && !OnSite(c.queue[0], web, scope)
    ensures CrawlInv(c.(queue := c.queue[1..]), web, scope)
  {
    var rest := c.(queue := c.queue[1..]);
    forall u, a | u in rest.visited && a in LinksOf(u, web) && Follows(a, web, scope)
      ensures a.target in rest.visited || a.target in rest.queue
    {
      ClassifyLinkSpec(a.href, web.parse(a.target), scope);
      assert a.target != c.queue[0];
      assert a.target in c.visited || a.target in c.queue;
      if a.target in c.queue {
        var k :| 0 <= k < |c.queue| && c.queue[k] == a.target;
        assert rest.queue[k - 1] == a.target;
      }
    }
  }

  /** Visiting the head of the queue keeps the invariant and adds it to the visited URLs. */
  lemma VisitInv(c: Crawl, web: Web, scope: Scope)
    requires CrawlInv(c, web, scope) && c.queue != [] && OnSite(c.queue[0], web, scope)
    ensures CrawlInv(AfterVisit(c.(queue := c.queue[1..]), c.queue[0], web, scope), web, scope)
    ensures AfterVisit(c.(queue := c.queue[1..]), c.queue[0], web, scope).visited == c.visited + {c.queue[0]}
  {
    VisitQueue(c, web, scope);
    VisitPages(c, web, scope);
    VisitLinks(c, web, scope);
  }

  lemma VisitQueue(c: Crawl, web: Web, scope: Scope)
    requires CrawlInv(c, web, scope) && c.queue != []
    ensures var d := AfterVisit(c.(queue := c.queue[1..]), c.queue[0], web, scope);
      QueueFresh(d.queue, d.visited) && forall v | v in c.queue[1..] :: v in d.queue
  {
    var url := c.queue[0];
    var rest := c.queue[1..];
    var visited := c.visited + {url};
    assert forall i | 0 <= i < |rest| :: rest[i] == c.queue[i + 1];
    assert QueueFresh(rest, visited);
    if web.fetch(url).Some? {
      WithLinksSpec(rest, visited, web.fetch(url).value.anchors, web, scope);
    }
  }

  lemma VisitPages(c: Crawl, web: Web, scope: Scope)
    requires CrawlInv(c, web, scope) && c.queue != []
    ensures var d := AfterVisit(c.(queue := c.queue[1..]), c.queue[0], web, scope);
      PagesWell(d.pages, d.visited, web)
  {
    assert c.queue[0] !in c.visited;
    VisitPagesGrow(c, web, scope);
    VisitPagesComplete(c, web, scope);
  }

  /** A visit adds the visited URL, and adds its page exactly when its fetch yields contacts. */
  lemma VisitPagesGrow(c: Crawl, web: Web, scope: Scope)
    requires c.queue != []
    ensures var d := AfterVisit(c.(queue := c.queue[1..]), c.queue[0], web, scope);
      && d.visited == c.visited + {c.queue[0]}
      && d.pages == if HasContacts(c.queue[0], web)
                    then c.pages + [PageFound(c.queue[0], web.fetch(c.queue[0]).value.emails, web.fetch(c.queue[0]).value.phones)]
                    else c.pages
  {
  }

  /** After a visit, every visited URL whose fetch yields contacts has its page recorded. */
  lemma VisitPagesComplete(c: Crawl, web: Web, scope: Scope)
    requires PagesWell(c.pages, c.visited, web) && c.queue != []
    ensures var d := AfterVisit(c.(queue := c.queue[1..]), c.queue[0], web, scope);
      forall u | u in d.visited && HasContacts(u, web) :: exists i | 0 <= i < |d.pages| :: d.pages[i].url == u
  {
    var url := c.queue[0];
    var d := AfterVisit(c.(queue := c.queue[1..]), url, web, scope);
    VisitPagesGrow(c, web, scope);
    forall u | u in d.visited && HasContacts(u, web)
      ensures exists i | 0 <= i < |d.pages| :: d.pages[i].url == u
    {
      if u == url {
        assert d.pages[|c.pages|].url == url;
      } else {
        var i :| 0 <= i < |c.pages| && c.pages[i].url == u;
        assert d.pages[i] == c.pages[i];
      }
    }
  }

  lemma VisitLinks(c: Crawl, web: Web, scope: Scope)
    requires CrawlInv(c, web, scope) && c.queue != []
    ensures LinksCovered(AfterVisit(c.(queue := c.queue[1..]), c.queue[0], web, scope), web, scope)
  {
    var url := c.queue[0];
    var rest := c.queue[1..];
    var visited := c.visited + {url};
    var d := AfterVisit(c.(queue := rest), url, web, scope);
    VisitQueue(c, web, scope);
    if web.fetch(url).Some? {
      assert QueueFresh(rest, visited) by {
        assert forall i | 0 <= i < |rest| :: rest[i] == c.queue[i + 1];
      }
      WithLinksSpec(rest, visited, web.fetch(url).value.anchors, web, scope);
    }
    forall u, a | u in d.visited && a in LinksOf(u, web) && Follows(a, web, scope)
      ensures a.target in d.visited || a.target in d.queue
    {
      if u != url {
        assert a.target in c.visited || a.target in c.queue;
        if a.target in c.queue && a.target != url {
          var k :| 0 <= k < |c.queue| && c.queue[k] == a.target;
          assert rest[k - 1] == a.target;
        }
      }
    }
  }

  /**
    The crawl keeps its invariant, only ever adds visited URLs and pages, and
    stops with an empty queue or `maxPages` pages visited, never more.
  */
  lemma {:induction false} CrawledSpec(c: Crawl, maxPages: int, web: Web, scope: Scope)
    requires CrawlInv(c, web, scope)
    ensures CrawlInv(Crawled(c, maxPages, web, scope), web, scope)
    ensures c.visited <= Crawled(c, maxPages, web, scope).visited
    ensures c.pages <= Crawled(c, maxPages, web, scope).pages
    ensures Crawled(c, maxPages, web, scope).queue == [] || |Crawled(c, maxPages, web, scope).visited| >= maxPages
    ensures |c.visited| <= maxPages ==> |Crawled(c, maxPages, web, scope).visited| <= maxPages
    decreases maxPages - |c.visited|, |c.queue|
  {
    if c.queue != [] && |c.visited| < maxPages {
      var url := c.queue[0];
      var rest := c.(queue := c.queue[1..]);
      if !OnSite(url, web, scope) {
        DropInv(c, web, scope);
        CrawledSpec(rest, maxPages, web, scope);
      } else {
        VisitInv(c, web, scope);
        var d := AfterVisit(rest, url, web, scope);
        assert url !in c.visited;
        assert |d.visited| == |c.visited| + 1;
        CrawledSpec(d, maxPages, web, scope);
      }
    }
  }

  /** At most as many pages are found as there are visited URLs. */
  lemma PagesAtMostVisited(pages: seq<PageFound>, visited: set<string>, web: Web)
    requires PagesWell(pages, visited, web)
    ensures |pages| <= |visited|
  {
    var urls := seq(|pages|, i requires 0 <= i < |pages| => pages[i].url);
    NoDupCard(urls);
    assert Elems(urls) <= visited;
    assert visited == Elems(urls) + (visited - Elems(urls));
  }

  /**
    A crawl from a start URL visits at most `maxPages` pages, all on the start
    site, and the start page first of all; it finds each page with contacts
    once, as fetched; when it ends with an empty queue, every link it follows
    from a visited page was visited.
  */
  lemma CrawlFromStart(startUrl: string, maxPages: int, web: Web)
    ensures var scope := ScopeOf(web.parse(startUrl));
      var r := Crawled(Start(startUrl), maxPages, web, scope);
      && CrawlInv(r, web, scope)
      && (maxPages >= 0 ==> |r.visited| <= maxPages)
      && |r.pages| <= |r.visited|
      && (maxPages >= 1 ==> startUrl in r.visited)
      && (forall u | u in r.visited && HasContacts(u, web) :: exists i | 0 <= i < |r.pages| :: r.pages[i].url == u)
      && (r.queue == [] ==>
            forall u, a | u in r.visited && a in LinksOf(u, web) && Follows(a, web, scope) :: a.target in r.visited)
  {
    var scope := ScopeOf(web.parse(startUrl));
    var s := Start(startUrl);
    StartInv(startUrl, web, scope);
    CrawledSpec(s, maxPages, web, scope);
    var r := Crawled(s, maxPages, web, scope);
    PagesAtMostVisited(r.pages, r.visited, web);
    if maxPages >= 1 {
      VisitInv(s, web, scope);
      var d := AfterVisit(s.(queue := s.queue[1..]), s.queue[0], web, scope);
      CrawledSpec(d, maxPages, web, scope);
      assert r == Crawled(d, maxPages, web, scope);
    }
  }

  // ---------------------------------------------------------------------------
  // The crawler's state

  /** The state `crawl` keeps while it walks the site, with the `enqueue` helper. */
  class Crawler {
    var queue: seq<string>
    var visited: set<string>
    var pages: seq<PageFound>
    const web: Web
    const scope: Scope
    const maxPages: int

    function State(): Crawl
      reads this
    {
      Crawl(queue, visited, pages)
    }

    constructor(startUrl: string, maxPages: int, web: Web)
      ensures State() == Start(startUrl)
      ensures this.web == web && this.maxPages == maxPages && scope == ScopeOf(web.parse(startUrl))
    {
      queue := [startUrl];
      visited := {};
      pages := [];
      this.web := web;
      this.maxPages := maxPages;
      scope := ScopeOf(web.parse(startUrl));
    }

    /** `enqueue(u, left)`. */
    method Enqueue(u: string, front: bool)
      modifies this
      ensures queue == Enqueued(old(queue), visited, u, front)
      ensures visited == old(visited) && pages == old(pages)
    {
      if u in visited || u in queue {
        return;
      }
      if front {
        queue := [u] + queue;
      } else {
        queue := queue + [u];
      }
    }

    /** The link loop of a visited page. */
    method EnqueueLinks(anchors: seq<Anchor>)
      modifies this
      ensures queue == WithLinks(old(queue), visited, anchors, web, scope)
      ensures visited == old(visited) && pages == old(pages)
    {
      var i := 0;
      while i < |anchors|
        invariant 0 <= i <= |anchors|
        invariant queue == WithLinks(old(queue), visited, anchors[..i], web, scope)
        invariant visited == old(visited) && pages == old(pages)
      {
        assert anchors[..i + 1][..i] == anchors[..i];
        var a := anchors[i];
        var action := ClassifyLink(a.href, web.parse(a.target), scope);
        if action != Skip {
          Enqueue(a.target, action == Front);
        }
        i := i + 1;
      }
      assert anchors[..i] == anchors;
    }

    /** The `while queue and len(visited) < max_pages` loop. */
    method Run()
      modifies this
      ensures State() == Crawled(old(State()), maxPages, web, scope)
    {
      while queue != [] && |visited| < maxPages
        invariant Crawled(State(), maxPages, web, scope) == Crawled(old(State()), maxPages, web, scope)
        decreases maxPages - |visited|, |queue|
      {
        ghost var before := State();
        var url := queue[0];
        queue := queue[1..];
        if url in visited || NormalizeNetloc(web.parse(url).netloc) != scope.baseDomain {
          continue;
        }
        visited := visited + {url};
        var fetched := web.fetch(url);
        if fetched.Some? {
          var content := fetched.value;
          if content.emails != [] || content.phones != [] {
            pages := pages + [PageFound(url, content.emails, content.phones)];
          }
          EnqueueLinks(content.anchors);
        }
        assert State() == AfterVisit(before.(queue := before.queue[1..]), url, web, scope);
      }
    }
  }

  /** `crawl`: walks the site from the start URL and returns its contact rows. */
  method CrawlContacts(startUrl: string, maxPages: int, web: Web, isDate: Phone.DateTest) returns (rows: seq<ContactRow>)
    ensures rows == Aggregate(Crawled(Start(startUrl), maxPages, web, ScopeOf(web.parse(startUrl))).pages, isDate).rows
  {
    var crawler := new Crawler(startUrl, maxPages, web);
    crawler.Run();
    rows := AggregateRows(crawler.pages, isDate);
  }
}
