/** `SiteCrawler.discover_urls_from_page`: the links of one page, and the link graph those
    links make of a site. */
module Links {
  import opened Wrappers
  import opened Urls
  import opened Web
  import opened UrlNormalizer
  import opened Robots

  /** What one `<a href>` contributes: its normalised form when that is non-empty and on the
      page's domain. */
  function LinkOf(w: World, href: string, url: string): (r: Option<string>)
    ensures r.Some? <==> var n := NormalizeUrl(href, url, w.urljoin); n.Some? && n.value != "" && IsSameDomain(n.value, url)
    ensures r.Some? ==> r == NormalizeUrl(href, url, w.urljoin)
  {
    var n := NormalizeUrl(href, url, w.urljoin);
    if n.Some? && n.value != "" && IsSameDomain(n.value, url) then n else None
  }

  /** `LinkOf` for the anchors of the page at `url`. */
  function PageLink(w: World, url: string): string -> Option<string>
  {
    href => LinkOf(w, href, url)
  }

  /** The set of the values `link` gives for `hrefs`. */
  function Collect(link: string -> Option<string>, hrefs: seq<string>): set<string>
  {
    set h | h in hrefs && link(h).Some? :: link(h).value
  }

  /** Looking at one more href adds its value, if it has one. */
  lemma CollectSnoc(link: string -> Option<string>, hrefs: seq<string>, h: string)
    ensures Collect(link, hrefs + [h]) == Collect(link, hrefs) + (match link(h) case None => {} case Some(u) => {u})
  {
    var both := Collect(link, hrefs + [h]);
    forall x | x in both ensures x in Collect(link, hrefs) || link(h) == Some(x) {
      var g :| g in hrefs + [h] && link(g) == Some(x);
      if g != h {
        assert g in hrefs;
      }
    }
    forall x | x in Collect(link, hrefs) ensures x in both {
      var g :| g in hrefs && link(g) == Some(x);
      assert g in hrefs + [h];
    }
    if link(h).Some? {
      assert h in hrefs + [h];
    }
  }

  /** The `for link in soup.find_all('a', href=True)` loop of `discover_urls_from_page`: the set
      it builds is the collection of the anchors' links. */
  method LinksOfAnchors(w: World, hrefs: seq<string>, url: string) returns (links: set<string>)
    ensures links == Collect(PageLink(w, url), hrefs)
  {
    links := {};
    var i := 0;
    while i < |hrefs|
      invariant 0 <= i <= |hrefs|
      invariant links == Collect(PageLink(w, url), hrefs[..i])
    {
      var href := hrefs[i];
      assert hrefs[..i + 1] == hrefs[..i] + [href];
      CollectSnoc(PageLink(w, url), hrefs[..i], href);
      assert PageLink(w, url)(href) == LinkOf(w, href, url);
      var normalized := NormalizeUrl(href, url, w.urljoin);
      if normalized.Some? && normalized.value != "" && IsSameDomain(normalized.value, url) {
        links := links + {normalized.value};
      }
      i := i + 1;
    }
    assert hrefs[..i] == hrefs;
  }

  /** The anchors `discover_urls_from_page(url)` looks at: none when robots.txt blocks the URL or
      the GET raises or answers other than 200, else those of the body. */
  function Anchors(w: World, respect: bool, agent: string, url: string): seq<string>
  {
    if !RobotsCheck(w, respect, agent, url).0 then []
    else match w.get(url)
      case Raised(_) => []
      case Reply(status, body) => if status != 200 then [] else w.anchors(body)
  }

  /** The set `discover_urls_from_page(url)` returns: the links of its anchors. */
  function PageLinks(w: World, respect: bool, agent: string, url: string): set<string>
  {
    set h | h in Anchors(w, respect, agent, url) && LinkOf(w, h, url).Some? :: LinkOf(w, h, url).value
  }

  /** `PageLinks` is the collection of the anchors' links. */
  lemma PageLinksCollect(w: World, respect: bool, agent: string, url: string)
    ensures PageLinks(w, respect, agent, url) == Collect(PageLink(w, url), Anchors(w, respect, agent, url))
  {
  }

  /** Every link found on a page is a non-empty URL on the page's domain, without a fragment, and
      already in normal form: dropping its fragment again changes nothing. */
  lemma PageLinksAreCanonical(w: World, respect: bool, agent: string, url: string, u: string)
    requires u in PageLinks(w, respect, agent, url)
    ensures u != "" && IsSameDomain(u, url)
    ensures UrlParse(u).fragment == "" && WithoutFragment(u) == u
  {
    var h :| h in Anchors(w, respect, agent, url) && LinkOf(w, h, url) == Some(u);
    NormalizeKeepsParts(h, url, w.urljoin);
    WithoutFragmentIdempotent(Absolute(h, url, w.urljoin));
  }

  /** A page robots.txt allows and that answers 200 yields the links of the anchors of its body. */
  lemma PageLinksOfBody(w: World, respect: bool, agent: string, url: string)
    requires RobotsCheck(w, respect, agent, url).0 && w.get(url).Reply? && w.get(url).status == 200
    ensures PageLinks(w, respect, agent, url) == Collect(PageLink(w, url), w.anchors(w.get(url).body))
  {
    PageLinksCollect(w, respect, agent, url);
  }

  /** A page robots.txt blocks, or whose GET raises or answers other than 200, yields nothing. */
  lemma PageLinksEmpty(w: World, respect: bool, agent: string, url: string)
    requires !RobotsCheck(w, respect, agent, url).0 || w.get(url).Raised? || w.get(url).status != 200
    ensures PageLinks(w, respect, agent, url) == {}
  {
  }

  /** `PageLinks` as a function of the page alone: the graph the crawl walks. */
  ghost function Linker(w: World, respect: bool, agent: string): (links: imap<string, set<string>>)
    ensures forall u {:trigger PageLinks(w, respect, agent, u)} :: u in links && links[u] == PageLinks(w, respect, agent, u)
  {
    imap u | true :: PageLinks(w, respect, agent, u)
  }
}
