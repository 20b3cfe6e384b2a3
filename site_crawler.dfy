/** `SiteCrawler`: the per-domain robots.txt cache, link discovery on one page, and the
    breadth-first `crawl_site` that ties sitemap discovery and page links together under a page
    budget (`max_urls`) and a depth budget (`max_depth`). */
module Crawler {
  import opened Wrappers
  import opened PyText
  import opened Urls
  import opened Web
  import opened UrlNormalizer
  import opened Sitemap
  import opened Robots
  import opened Links
  import opened CrawlGraph

  /** The User-Agent header the session sends when the caller gives none. */
  const DefaultUserAgent: string := "Mozilla/5.0 (Windows NT 10.0; Win64; x64) AppleWebKit/537.36"

  /** `user_agent or DEFAULT`: an absent or empty user agent falls back to the default. */
  function AgentOf(userAgent: Option<string>): (r: string)
    ensures r != ""
    ensures userAgent.Some? && userAgent.value != "" ==> r == userAgent.value
    ensures userAgent.None? || userAgent.value == "" ==> r == DefaultUserAgent
  {
    if userAgent.Some? && userAgent.value != "" then userAgent.value else DefaultUserAgent
  }

  /** `list(s)[:n]`: at most `n` distinct members of `s`, in an order the model leaves open. */
  method FirstN<T>(s: set<T>, n: nat) returns (r: seq<T>)
    ensures |r| == if |s| < n then |s| else n
    ensures forall i, j :: 0 <= i < j < |r| ==> r[i] != r[j]
    ensures forall i :: 0 <= i < |r| ==> r[i] in s
  {
    r := [];
    var rest := s;
    while |r| < n && rest != {}
      invariant rest <= s
      invariant |r| + |rest| == |s|
      invariant |r| <= n
      invariant forall i, j :: 0 <= i < j < |r| ==> r[i] != r[j]
      invariant forall i :: 0 <= i < |r| ==> r[i] in s && r[i] !in rest
      decreases |rest|
    {
      var x :| x in rest;
      r := r + [x];
      rest := rest - {x};
    }
  }

  predicate Distinct(s: seq<string>)
  {
    forall i, j :: 0 <= i < j < |s| ==> s[i] != s[j]
  }

  class SiteCrawler {
    /** The HTTP session, the robots.txt reader, HTML and XML parsing and `urljoin`. */
    const world: World
    const respectRobots: bool
    /** The User-Agent header the session sends; robots.txt is consulted for it. */
    const userAgent: string
    var discoveredUrls: set<Option<string>>
    var crawledUrls: set<string>
    /** Domain ("scheme://netloc") to the policy its robots.txt left. */
    var robotsCache: map<string, RobotsPolicy>
    /** The domains whose robots.txt was read, in order. */
    ghost var robotsReads: seq<string>
    /** The pages fetched by link discovery, in order. */
    ghost var pageFetches: seq<string>

    /** The robots cache and the log of robots.txt reads are as `RobotsValid` requires. */
    ghost predicate Valid()
      reads this`robotsCache, this`robotsReads
    {
      RobotsValid(world, robotsCache, robotsReads)
    }

    /** `SiteCrawler(user_agent, timeout, respect_robots)`. */
    constructor (world: World, userAgent: Option<string>, respectRobots: bool)
      ensures this.world == world && this.respectRobots == respectRobots
      ensures this.userAgent == AgentOf(userAgent)
      ensures discoveredUrls == {} && crawledUrls == {} && robotsCache == map[]
      ensures robotsReads == [] && pageFetches == []
      ensures Valid()
    {
      this.world := world;
      this.respectRobots := respectRobots;
      this.userAgent := AgentOf(userAgent);
      discoveredUrls := {};
      crawledUrls := {};
      robotsCache := map[];
      robotsReads := [];
      pageFetches := [];
    }

    /** `check_robots_txt(url)`: the answer is the one a fresh read gives (the cache is
        transparent), a cached domain is not read again, and a read that raises leaves no entry.
        The reason message returned is `ReasonText(reason)`. */
    method CheckRobotsTxt(url: string) returns (allowed: bool, reason: RobotsReason)
      requires Valid()
      modifies this`robotsCache, this`robotsReads
      ensures Valid()
      ensures (allowed, reason) == RobotsCheck(world, respectRobots, userAgent, url)
      ensures robotsCache == CacheAfter(world, respectRobots, old(robotsCache), Origin(url))
      ensures robotsReads == ReadsAfter(respectRobots, old(robotsCache), old(robotsReads), Origin(url))
      ensures CacheExtends(robotsCache, old(robotsCache))
    {
      if !respectRobots {
        return true, CheckingDisabled;
      }
      var domain := Origin(url);
      if domain !in robotsCache {
        var read := ReadRobots(world, RobotsUrl(domain));
        RobotsValidAfterRead(world, robotsCache, robotsReads, domain);
        robotsReads := robotsReads + [domain];
        match read {
          case ReadRaised(m) =>
            return true, ReadFailed(m);
          case ReadOk(policy) =>
            robotsCache := robotsCache[domain := policy];
        }
      }
      var policy := robotsCache[domain];
      if CanFetch(world, policy, userAgent, url) {
        return true, AllowedByPolicy;
      } else {
        return false, BlockedByPolicy;
      }
    }

    /** `discover_urls_from_page(url)`: the links of the page, as `PageLinks` gives them; the page
        is fetched once exactly when robots.txt allows it. */
    method DiscoverUrlsFromPage(url: string) returns (links: set<string>)
      requires Valid()
      modifies this`robotsCache, this`robotsReads, this`pageFetches
      ensures Valid()
      ensures links == PageLinks(world, respectRobots, userAgent, url)
      ensures pageFetches == old(pageFetches) + (if RobotsCheck(world, respectRobots, userAgent, url).0 then [url] else [])
      ensures CacheExtends(robotsCache, old(robotsCache))
    {
      var allowed, _ := CheckRobotsTxt(url);
      if allowed {
        links := FetchLinks(url);
      } else {
        links := {};
        PageLinksEmpty(world, respectRobots, userAgent, url);
      }
    }

    /** The fetch of a page robots.txt allows: the fetch is logged, and the links are those of the
        anchors of a 200 answer, none otherwise. */
    method FetchLinks(url: string) returns (links: set<string>)
      requires RobotsCheck(world, respectRobots, userAgent, url).0
      modifies this`pageFetches
      ensures links == PageLinks(world, respectRobots, userAgent, url)
      ensures pageFetches == old(pageFetches) + [url]
    {
      pageFetches := pageFetches + [url];
      var response := world.get(url);
      if response.Reply? && response.status == 200 {
        links := LinksOfAnchors(world, world.anchors(response.body), url);
        PageLinksOfBody(world, respectRobots, userAgent, url);
      } else {
        links := {};
        PageLinksEmpty(world, respectRobots, userAgent, url);
      }
    }

    /** The pages fetched by link discovery are all crawled, and none was fetched twice. */
    ghost predicate FetchesCrawled()
      reads this`pageFetches, this`crawledUrls
    {
      Distinct(pageFetches) && forall i :: 0 <= i < |pageFetches| ==> pageFetches[i] in crawledUrls
    }

    /** The body of the `for url in current_level` loop for a page not yet crawled: its links
        are discovered and recorded, and the page is marked crawled. */
    method VisitPage(url: string) returns (found: set<string>)
      requires Valid() && FetchesCrawled()
      requires url !in crawledUrls
      modifies this`robotsCache, this`robotsReads, this`pageFetches, this`discoveredUrls, this`crawledUrls
      ensures Valid() && FetchesCrawled()
      ensures found == PageLinks(world, respectRobots, userAgent, url)
      ensures discoveredUrls == old(discoveredUrls) + Somes(found)
      ensures crawledUrls == old(crawledUrls) + {url} && |crawledUrls| == |old(crawledUrls)| + 1
      ensures CacheExtends(robotsCache, old(robotsCache))
    {
      found := DiscoverUrlsFromPage(url);
      assert pageFetches == old(pageFetches) || pageFetches == old(pageFetches) + [url];
      discoveredUrls := discoveredUrls + Somes(found);
      crawledUrls := crawledUrls + {url};
    }

    /** One pass of the `for url in current_level` loop of `crawl_site`, with the result
        `PassResult` describes; each newly crawled page is fetched at most once. */
    method CrawlLevel(current: set<string>, maxUrls: nat) returns (next: set<string>)
      requires Valid() && FetchesCrawled()
      modifies this
      ensures Valid() && FetchesCrawled()
      ensures PassResult(Linker(world, respectRobots, userAgent), old(crawledUrls), old(discoveredUrls),
                         current, maxUrls, crawledUrls, discoveredUrls, next)
      ensures CacheExtends(robotsCache, old(robotsCache))
    {
      ghost var links := Linker(world, respectRobots, userAgent);
      next := {};
      var todo := current;
      ghost var visited: set<string> := {};
      PassStart(links, crawledUrls, discoveredUrls, current);
      while todo != {} && |crawledUrls| < maxUrls
        invariant Valid() && FetchesCrawled()
        invariant PassState(links, old(crawledUrls), old(discoveredUrls), current, todo, visited, next, crawledUrls, discoveredUrls)
        invariant |old(crawledUrls)| <= maxUrls ==> |crawledUrls| <= maxUrls
        invariant CacheExtends(robotsCache, old(robotsCache))
        decreases todo
      {
        var url :| url in todo;
        if url !in crawledUrls {
          var crawled := crawledUrls;
          ghost var discovered := discoveredUrls;
          ghost var cache := robotsCache;
          var found := VisitPage(url);
          CacheExtendsTrans(robotsCache, cache, old(robotsCache));
          PassVisit(links, old(crawledUrls), old(discoveredUrls), current, todo, visited, next, crawled, discovered, url, found);
          next := next + (found - crawled);
          visited := visited + {url};
        } else {
          PassSkip(links, old(crawledUrls), old(discoveredUrls), current, todo, visited, next, crawledUrls, discoveredUrls, url);
        }
        todo := todo - {url};
      }
      PassEnd(links, old(crawledUrls), old(discoveredUrls), current, todo, visited, next, crawledUrls, discoveredUrls, maxUrls);
    }

    /** The `for depth in range(max_depth)` loop of `crawl_site`, from `start` with nothing
        crawled yet: afterwards the start page is crawled, every crawled page is within
        `max_depth - 1` links of it, all such pages are crawled unless the page budget was spent,
        every crawled page is the start page or a link of a crawled page, and `discovered_urls`
        gained exactly the links of the crawled pages, so it holds every crawled page when it
        held the start page. */
    method CrawlLevels(start: string, maxUrls: nat, maxDepth: nat)
      requires Valid() && FetchesCrawled()
      requires crawledUrls == {}
      requires 1 <= maxUrls && 1 <= maxDepth
      modifies this
      ensures Valid() && FetchesCrawled()
      ensures var links := Linker(world, respectRobots, userAgent);
        && start in crawledUrls && |crawledUrls| <= maxUrls
        && crawledUrls <= Reach(links, start, maxDepth - 1)
        && (|crawledUrls| < maxUrls ==> Reach(links, start, maxDepth - 1) <= crawledUrls)
        && discoveredUrls == old(discoveredUrls) + Somes(LinksFrom(links, crawledUrls))
        && crawledUrls <= {start} + LinksFrom(links, crawledUrls)
      ensures Some(start) in old(discoveredUrls) ==> Somes(crawledUrls) <= discoveredUrls
      ensures CacheExtends(robotsCache, old(robotsCache))
    {
      ghost var links := Linker(world, respectRobots, userAgent);
      var current := {start};
      var depth := 0;
      CrawlStart(links, start, discoveredUrls, maxUrls);
      // The crawler's invariants are compared with `true` so that each is checked as one fact,
      // the postcondition of `CrawlPass`, rather than quantifier by quantifier.
      while depth < maxDepth && |crawledUrls| < maxUrls
        invariant Valid() == true && FetchesCrawled() == true
        invariant depth <= maxDepth
        invariant CrawlState(links, start, old(discoveredUrls), depth, crawledUrls, discoveredUrls, current, maxUrls)
        invariant CacheExtends(robotsCache, old(robotsCache))
      {
        ghost var cache := robotsCache;
        current, depth := CrawlPass(links, start, old(discoveredUrls), depth, current, maxUrls);
        CacheExtendsTrans(robotsCache, cache, old(robotsCache));
      }
      CrawlEnd(links, start, old(discoveredUrls), depth, crawledUrls, discoveredUrls, current, maxUrls, maxDepth);
    }

    /** One pass of the `for depth` loop while the page budget is not spent: the crawl state
        moves on by one step, to the next depth. */
    method CrawlPass(ghost links: imap<string, set<string>>, start: string, ghost seed: set<Option<string>>,
                     depth: nat, current: set<string>, maxUrls: nat) returns (next: set<string>, nextDepth: nat)
      requires Valid() && FetchesCrawled()
      requires links == Linker(world, respectRobots, userAgent)
      requires CrawlState(links, start, seed, depth, crawledUrls, discoveredUrls, current, maxUrls)
      requires |crawledUrls| < maxUrls
      modifies this
      ensures Valid() && FetchesCrawled()
      ensures nextDepth == depth + 1
      ensures CrawlState(links, start, seed, nextDepth, crawledUrls, discoveredUrls, next, maxUrls)
      ensures CacheExtends(robotsCache, old(robotsCache))
    {
      var crawled := crawledUrls;
      ghost var discovered := discoveredUrls;
      next := CrawlLevel(current, maxUrls);
      nextDepth := depth + 1;
      CrawlStep(links, start, seed, depth, nextDepth, crawled, discovered, current, maxUrls,
                crawledUrls, discoveredUrls, next);
    }

    /** The crawl state a new crawl starts from: `seed` discovered, nothing crawled and nothing
        fetched yet; the robots cache is kept. */
    method Restart(seed: set<Option<string>>)
      requires Valid()
      modifies this`discoveredUrls, this`crawledUrls, this`pageFetches
      ensures Valid() && FetchesCrawled()
      ensures discoveredUrls == seed && crawledUrls == {} && pageFetches == []
      ensures robotsCache == old(robotsCache)
    {
      discoveredUrls := seed;
      crawledUrls := {};
      pageFetches := [];
    }

    /** The part of `crawl_site` after sitemap discovery, from the normalised base `start` and the
        sitemap locations `sitemapUrls`: the crawl state is reset, both are discovered, the levels
        are crawled, and the answer is `max_urls` of the discovered URLs, or all if fewer. */
    method Crawl(start: string, sitemapUrls: set<Option<string>>, maxUrls: nat, maxDepth: nat)
      returns (finalUrls: seq<Option<string>>)
      requires Valid()
      requires 1 <= maxUrls && 1 <= maxDepth
      modifies this
      ensures Valid() && FetchesCrawled()
      ensures var links := Linker(world, respectRobots, userAgent);
        && start in crawledUrls
        && crawledUrls <= Reach(links, start, maxDepth - 1)
        && (|crawledUrls| < maxUrls ==> Reach(links, start, maxDepth - 1) <= crawledUrls)
        && discoveredUrls == sitemapUrls + {Some(start)} + Somes(LinksFrom(links, crawledUrls))
      ensures Somes(crawledUrls) <= discoveredUrls
      ensures |crawledUrls| <= maxUrls
      ensures |finalUrls| == if |discoveredUrls| < maxUrls then |discoveredUrls| else maxUrls
      ensures forall i, j :: 0 <= i < j < |finalUrls| ==> finalUrls[i] != finalUrls[j]
      ensures forall i :: 0 <= i < |finalUrls| ==> finalUrls[i] in discoveredUrls
      ensures CacheExtends(robotsCache, old(robotsCache))
    {
      Restart(sitemapUrls + {Some(start)});
      CrawlLevels(start, maxUrls, maxDepth);
      finalUrls := FirstN(discoveredUrls, maxUrls);
    }

    /** `crawl_site(base_url, max_urls, max_depth)`: the base URL is normalised against itself,
        the sitemap locations of its origin are discovered, and the crawl proceeds from it as
        `Crawl` describes. */
    method CrawlSite(baseUrl: string, maxUrls: nat, maxDepth: nat) returns (finalUrls: seq<Option<string>>)
      requires Valid()
      requires baseUrl != ""
      requires 1 <= maxUrls && 1 <= maxDepth
      modifies this
      ensures Valid() && FetchesCrawled()
      ensures var b := NormalizeUrl(baseUrl, baseUrl, world.urljoin).value;
        var links := Linker(world, respectRobots, userAgent);
        && b in crawledUrls
        && crawledUrls <= Reach(links, b, maxDepth - 1)
        && (|crawledUrls| < maxUrls ==> Reach(links, b, maxDepth - 1) <= crawledUrls)
        && discoveredUrls == SitemapDiscovery(world, b) + {Some(b)} + Somes(LinksFrom(links, crawledUrls))
      ensures Somes(crawledUrls) <= discoveredUrls
      ensures |crawledUrls| <= maxUrls
      ensures |finalUrls| == if |discoveredUrls| < maxUrls then |discoveredUrls| else maxUrls
      ensures forall i, j :: 0 <= i < j < |finalUrls| ==> finalUrls[i] != finalUrls[j]
      ensures forall i :: 0 <= i < |finalUrls| ==> finalUrls[i] in discoveredUrls
      ensures CacheExtends(robotsCache, old(robotsCache))
    {
      var b := NormalizeUrl(baseUrl, baseUrl, world.urljoin).value;
      var sitemapUrls := DiscoverUrlsFromSitemap(world, b);
      finalUrls := Crawl(b, sitemapUrls, maxUrls, maxDepth);
    }
  }
}
