/** The breadth-first walk of `crawl_site` over the link graph of a site: the pages within `k`
    link steps of the start page, and the states one pass of the `for url in current_level` loop
    and one pass of the `for depth` loop go through. */
module CrawlGraph {
  import opened Wrappers

  /** The links found on all of `pages`, when `links` gives the links of one page. */
  function LinksFrom(links: imap<string, set<string>>, pages: set<string>): set<string>
  {
    set u, v | u in pages && u in links && v in links[u] :: v
  }

  /** The pages within `k` link steps of `start`. */
  function Reach(links: imap<string, set<string>>, start: string, k: nat): set<string>
  {
    if k == 0 then {start}
    else var r := Reach(links, start, k - 1); r + LinksFrom(links, r)
  }

  lemma LinksFromUnion(links: imap<string, set<string>>, a: set<string>, b: set<string>)
    ensures LinksFrom(links, a + b) == LinksFrom(links, a) + LinksFrom(links, b)
  {
  }

  lemma LinksFromMono(links: imap<string, set<string>>, a: set<string>, b: set<string>)
    requires a <= b
    ensures LinksFrom(links, a) <= LinksFrom(links, b)
  {
  }

  lemma LinksFromOne(links: imap<string, set<string>>, u: string)
    requires u in links
    ensures LinksFrom(links, {u}) == links[u]
  {
    var l := LinksFrom(links, {u});
    forall v | v in links[u] ensures v in l {
      assert u in {u};
    }
  }

  /** Crawling one more page adds exactly its links. */
  lemma LinksGrow(links: imap<string, set<string>>, pages: set<string>, url: string)
    requires url in links
    ensures LinksFrom(links, pages + {url}) == LinksFrom(links, pages) + links[url]
  {
    LinksFromUnion(links, pages, {url});
    LinksFromOne(links, url);
  }

  /** Allowing more steps never loses a page. */
  lemma {:induction false} ReachMono(links: imap<string, set<string>>, start: string, k: nat, m: nat)
    requires k <= m
    ensures Reach(links, start, k) <= Reach(links, start, m)
    decreases m
  {
    if k < m {
      ReachMono(links, start, k, m - 1);
    }
  }

  /** `Some(u)` for every `u`: the page links as members of `discovered_urls`, which may also hold
      the `None` of a sitemap `<loc>` without text. */
  function Somes(s: set<string>): set<Option<string>>
  {
    set u | u in s :: Some(u)
  }

  lemma SomesUnion(a: set<string>, b: set<string>)
    ensures Somes(a + b) == Somes(a) + Somes(b)
  {
  }

  lemma SomesMono(a: set<string>, b: set<string>)
    requires a <= b
    ensures Somes(a) <= Somes(b)
  {
  }

  /** The state of one pass of the `for url in current_level` loop, as a relation between the
      sets of crawl_site: `visited` are the pages crawled so far in the pass, from the level
      `current` less the pages `todo` still to look at; `crawled` and `discovered` grew from
      `crawled0` and `discovered0` by those pages and their links; `next` holds their links
      less the pages crawled before the pass, and at least those not crawled yet. */
  ghost predicate PassState(links: imap<string, set<string>>, crawled0: set<string>, discovered0: set<Option<string>>,
                            current: set<string>, todo: set<string>, visited: set<string>,
                            next: set<string>, crawled: set<string>, discovered: set<Option<string>>)
  {
    && todo <= current && current - todo <= crawled
    && crawled == crawled0 + visited && visited !! crawled0 && visited <= current - todo
    && discovered == discovered0 + Somes(LinksFrom(links, visited))
    && next <= LinksFrom(links, visited) && next !! crawled0
    && LinksFrom(links, visited) - crawled <= next
  }

  /** The pass begins with nothing visited and nothing found. */
  lemma PassStart(links: imap<string, set<string>>, crawled0: set<string>, discovered0: set<Option<string>>, current: set<string>)
    ensures PassState(links, crawled0, discovered0, current, current, {}, {}, crawled0, discovered0)
  {
    assert LinksFrom(links, {}) == {};
    assert Somes({}) == {};
  }

  /** A page already crawled is skipped. */
  lemma PassSkip(links: imap<string, set<string>>, crawled0: set<string>, discovered0: set<Option<string>>,
                 current: set<string>, todo: set<string>, visited: set<string>,
                 next: set<string>, crawled: set<string>, discovered: set<Option<string>>, url: string)
    requires PassState(links, crawled0, discovered0, current, todo, visited, next, crawled, discovered)
    requires url in todo && url in crawled
    ensures PassState(links, crawled0, discovered0, current, todo - {url}, visited, next, crawled, discovered)
  {
  }

  /** Crawling a page of the level: its links `found` are discovered, those not crawled before it
      go to the next level, and it is marked crawled. */
  lemma PassVisit(links: imap<string, set<string>>, crawled0: set<string>, discovered0: set<Option<string>>,
                  current: set<string>, todo: set<string>, visited: set<string>,
                  next: set<string>, crawled: set<string>, discovered: set<Option<string>>,
                  url: string, found: set<string>)
    requires PassState(links, crawled0, discovered0, current, todo, visited, next, crawled, discovered)
    requires url in todo && url !in crawled && url in links && found == links[url]
    ensures PassState(links, crawled0, discovered0, current, todo - {url}, visited + {url},
                      next + (found - crawled), crawled + {url}, discovered + Somes(found))
  {
    LinksGrow(links, visited, url);
    SomesUnion(LinksFrom(links, visited), found);
  }

  /** What one pass of the `for url in current_level` loop leaves, from `crawled0` and
      `discovered0`: the pages crawled are pages of the level, all of them unless `max_urls` is
      reached first (and never more than that budget); `discovered` gains exactly their links;
      and `next` holds their links less the pages crawled before the pass, and at least those
      not crawled by its end. */
  ghost predicate PassResult(links: imap<string, set<string>>, crawled0: set<string>, discovered0: set<Option<string>>,
                             current: set<string>, maxUrls: nat,
                             crawled: set<string>, discovered: set<Option<string>>, next: set<string>)
  {
    && crawled0 <= crawled <= crawled0 + current
    && (current <= crawled || |crawled| >= maxUrls)
    && (|crawled0| <= maxUrls ==> |crawled| <= maxUrls)
    && discovered == discovered0 + Somes(LinksFrom(links, crawled - crawled0))
    && next <= LinksFrom(links, crawled - crawled0) && next !! crawled0
    && LinksFrom(links, crawled - crawled0) - crawled <= next
  }

  /** When the pass ends, with every page of the level looked at or the budget spent, its
      result is as `PassResult` says. */
  lemma PassEnd(links: imap<string, set<string>>, crawled0: set<string>, discovered0: set<Option<string>>,
                current: set<string>, todo: set<string>, visited: set<string>,
                next: set<string>, crawled: set<string>, discovered: set<Option<string>>, maxUrls: nat)
    requires PassState(links, crawled0, discovered0, current, todo, visited, next, crawled, discovered)
    requires todo == {} || |crawled| >= maxUrls
    requires |crawled0| <= maxUrls ==> |crawled| <= maxUrls
    ensures PassResult(links, crawled0, discovered0, current, maxUrls, crawled, discovered, next)
  {
    assert crawled - crawled0 == visited;
  }

  /** The state of `crawl_site` before pass `k` of the `for depth` loop, over the link graph:
      `current` lies within `k` steps of `start`; once a pass has run, the start page is crawled
      and every crawled page lies within `k - 1` steps; while the page budget is not spent,
      every page within `k - 1` steps is crawled and the links of the crawled pages are crawled
      or waiting in `current`; every page crawled or waiting is the start page or a link of a
      crawled page; and `discovered` is `seed` and the links of the crawled pages. */
  ghost predicate CrawlState(links: imap<string, set<string>>, start: string, seed: set<Option<string>>, k: nat,
                             crawled: set<string>, discovered: set<Option<string>>,
                             current: set<string>, maxUrls: nat)
  {
    && (k == 0 ==> crawled == {} && current == {start})
    && (k > 0 ==> start in crawled && crawled <= Reach(links, start, k - 1))
    && current <= Reach(links, start, k)
    && |crawled| <= maxUrls
    && (|crawled| < maxUrls ==> LinksFrom(links, crawled) <= crawled + current)
    && (|crawled| < maxUrls && k > 0 ==> Reach(links, start, k - 1) <= crawled)
    && crawled + current <= {start} + LinksFrom(links, crawled)
    && discovered == seed + Somes(LinksFrom(links, crawled))
  }

  /** The crawl starts from the start page alone, with nothing crawled. */
  lemma CrawlStart(links: imap<string, set<string>>, start: string, seed: set<Option<string>>, maxUrls: nat)
    ensures CrawlState(links, start, seed, 0, {}, seed, {start}, maxUrls)
  {
    assert LinksFrom(links, {}) == {};
    assert Somes({}) == {};
  }

  /** The links of the pages crawled by a pass join those found before it. */
  lemma FoundStep(links: imap<string, set<string>>, seed: set<Option<string>>, crawled: set<string>, after: set<string>)
    requires crawled <= after
    ensures seed + Somes(LinksFrom(links, crawled)) + Somes(LinksFrom(links, after - crawled))
         == seed + Somes(LinksFrom(links, after))
  {
    assert crawled + (after - crawled) == after;
    LinksFromUnion(links, crawled, after - crawled);
    SomesUnion(LinksFrom(links, crawled), LinksFrom(links, after - crawled));
  }

  /** One pass over the level `current` moves the state on by one step, to the pages `after`
      crawled by its end and the next level `next`. */
  lemma CrawlStep(links: imap<string, set<string>>, start: string, seed: set<Option<string>>, k: nat, k': nat,
                  crawled: set<string>, discovered: set<Option<string>>, current: set<string>, maxUrls: nat,
                  after: set<string>, found: set<Option<string>>, next: set<string>)
    requires k' == k + 1
    requires CrawlState(links, start, seed, k, crawled, discovered, current, maxUrls) && |crawled| < maxUrls
    requires PassResult(links, crawled, discovered, current, maxUrls, after, found, next)
    ensures CrawlState(links, start, seed, k', after, found, next, maxUrls)
  {
    var added := after - crawled;
    assert after == crawled + added;
    LinksFromUnion(links, crawled, added);
    FoundStep(links, seed, crawled, after);
    var r := Reach(links, start, k);
    if k == 0 {
      if |after| >= maxUrls {
        var x :| x in after;
      }
    } else {
      ReachMono(links, start, k - 1, k);
    }
    assert after <= r;
    LinksFromMono(links, added, r);
    if |after| < maxUrls && k > 0 {
      LinksFromMono(links, Reach(links, start, k - 1), crawled);
    }
    PassOrigin(links, start, crawled, current, after, next);
  }

  /** The pages a pass crawls come from its level, and the next level from their links; so when
      every page crawled or waiting was the start page or a link of a crawled page, it still is. */
  lemma PassOrigin(links: imap<string, set<string>>, start: string, crawled: set<string>, current: set<string>,
                   after: set<string>, next: set<string>)
    requires crawled <= after <= crawled + current
    requires next <= LinksFrom(links, after - crawled)
    requires crawled + current <= {start} + LinksFrom(links, crawled)
    ensures after + next <= {start} + LinksFrom(links, after)
  {
    LinksFromMono(links, crawled, after);
    LinksFromMono(links, after - crawled, after);
  }

  /** Where the `for depth` loop stops (`max_depth` passes run, or the page budget spent after at
      least one), the start page is crawled, every crawled page lies within `max_depth - 1` steps
      of it, and unless the budget is spent every such page is crawled; every crawled page is the
      start page or a link of a crawled page, and so discovered when the start page was. */
  lemma CrawlEnd(links: imap<string, set<string>>, start: string, seed: set<Option<string>>, k: nat,
                 crawled: set<string>, discovered: set<Option<string>>, current: set<string>,
                 maxUrls: nat, maxDepth: nat)
    requires CrawlState(links, start, seed, k, crawled, discovered, current, maxUrls)
    requires 1 <= maxUrls && 1 <= maxDepth && k <= maxDepth
    requires k == maxDepth || |crawled| >= maxUrls
    ensures start in crawled && |crawled| <= maxUrls
    ensures crawled <= Reach(links, start, maxDepth - 1)
    ensures |crawled| < maxUrls ==> Reach(links, start, maxDepth - 1) <= crawled
    ensures discovered == seed + Somes(LinksFrom(links, crawled))
    ensures crawled <= {start} + LinksFrom(links, crawled)
    ensures Some(start) in seed ==> Somes(crawled) <= discovered
  {
    assert k > 0;
    ReachEnd(links, start, k - 1, crawled, maxUrls, maxDepth - 1);
    if Some(start) in seed {
      CrawledDiscovered(links, start, seed, crawled);
    }
  }

  /** When the start page is discovered from the outset and every crawled page is the start page
      or a link of a crawled page, every crawled page is discovered. */
  lemma CrawledDiscovered(links: imap<string, set<string>>, start: string, seed: set<Option<string>>,
                          crawled: set<string>)
    requires Some(start) in seed && crawled <= {start} + LinksFrom(links, crawled)
    ensures Somes(crawled) <= seed + Somes(LinksFrom(links, crawled))
  {
    SomesMono(crawled, {start} + LinksFrom(links, crawled));
    SomesUnion({start}, LinksFrom(links, crawled));
    assert Somes({start}) == {Some(start)};
  }

  /** The same, stated for the last pass run and the deepest one allowed. */
  lemma ReachEnd(links: imap<string, set<string>>, start: string, last: nat, crawled: set<string>,
                 maxUrls: nat, deepest: nat)
    requires last <= deepest
    requires last == deepest || |crawled| >= maxUrls
    requires crawled <= Reach(links, start, last)
    requires |crawled| < maxUrls ==> Reach(links, start, last) <= crawled
    ensures crawled <= Reach(links, start, deepest)
    ensures |crawled| < maxUrls ==> Reach(links, start, deepest) <= crawled
  {
    ReachWithin(links, start, crawled, last, deepest);
  }

  /** What lies within the pages reached in `i` steps lies within those reached in `j >= i`. */
  lemma ReachWithin(links: imap<string, set<string>>, start: string, pages: set<string>, i: nat, j: nat)
    requires i <= j && pages <= Reach(links, start, i)
    ensures pages <= Reach(links, start, j)
  {
    ReachMono(links, start, i, j);
  }
}
