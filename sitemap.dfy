/** Sitemap discovery (`SiteCrawler.discover_urls_from_sitemap` and `SiteCrawler._parse_sitemap`):
    the crawler tries `/sitemap.xml`, `/sitemap_index.xml` and `/robots.txt` under the base URL's
    origin, parses sitemap documents (following sitemap indexes), falls back to a `<loc>` pattern
    scan on XML it cannot parse, and follows the `Sitemap:` lines of robots.txt. */
module Sitemap {
  import opened Wrappers
  import opened PyText
  import opened Web
  import opened UrlNormalizer

  const Open: string := "<loc>"
  const Close: string := "</loc>"

  /** Where the lazy group of `<loc>(.*?)</loc>` stops in `s` (the text after "<loc>"): the first
      `k` at which "</loc>" starts with no newline in front of it (`.` does not match '\n'), or
      `None` when a newline or the end of the text comes first. */
  function CloseAt(s: string): (r: Option<nat>)
    ensures r.Some? ==> r.value + |Close| <= |s| && StartsWith(s[r.value..], Close) && '\n' !in s[..r.value]
    ensures r.Some? ==> forall j :: 0 <= j < r.value ==> !StartsWith(s[j..], Close)
    ensures r.None? ==> forall k :: 0 <= k <= |s| && '\n' !in s[..k] ==> !StartsWith(s[k..], Close)
    decreases |s|
  {
    if StartsWith(s, Close) then Some(0)
    else if s == [] || s[0] == '\n' then None
    else
      var r := CloseAt(s[1..]);
      assert forall k :: 1 <= k <= |s| ==> s[k..] == s[1..][k - 1..] && s[1..k] == s[1..][..k - 1];
      if r.None? then None else Some(r.value + 1)
  }

  /** `re.findall(r'<loc>(.*?)</loc>', text)`: the scan tries each position from left to right,
      a match starts at "<loc>" only if its group can close, and the scan resumes after the match. */
  function LocSpans(t: string): (r: seq<string>)
    ensures forall i :: 0 <= i < |r| ==> '\n' !in r[i]
    decreases |t|
  {
    if t == [] then []
    else if StartsWith(t, Open) && CloseAt(t[|Open|..]).Some? then
      var k := CloseAt(t[|Open|..]).value;
      assert t[|Open|..][..k] == t[|Open|..|Open| + k];
      [t[|Open|..|Open| + k]] + LocSpans(t[|Open| + k + |Close|..])
    else LocSpans(t[1..])
  }

  /** Text without '<' and '\n' followed by "</loc>" closes exactly at its end. */
  lemma {:induction false} CloseAtElement(x: string, rest: string)
    requires '<' !in x && '\n' !in x
    ensures CloseAt(x + Close + rest) == Some(|x|)
    decreases |x|
  {
    var s := x + Close + rest;
    if x == [] {
      assert s == Close + rest;
      assert s[..|Close|] == Close;
    } else {
      assert s[0] == x[0] && s[0] != '<';
      assert s[..|Close|][0] == s[0];
      assert !StartsWith(s, Close);
      assert s[1..] == x[1..] + Close + rest;
      assert forall c :: c in x[1..] ==> c in x;
      CloseAtElement(x[1..], rest);
    }
  }

  /** One `<loc>x</loc>` element at the front is matched, with `x` as its group. */
  lemma LocSpansElement(x: string, rest: string)
    requires '<' !in x && '\n' !in x
    ensures LocSpans(Open + x + Close + rest) == [x] + LocSpans(rest)
  {
    var t := Open + x + Close + rest;
    assert t[..|Open|] == Open;
    assert t[|Open|..] == x + Close + rest;
    CloseAtElement(x, rest);
    assert t[|Open|..|Open| + |x|] == x;
    assert t[|Open| + |x| + |Close|..] == rest;
  }

  /** Text without '<' in front of the elements is skipped by the scan. */
  lemma {:induction false} LocSpansSkip(pad: string, t: string)
    requires '<' !in pad
    ensures LocSpans(pad + t) == LocSpans(t)
    decreases |pad|
  {
    if pad != [] {
      var s := pad + t;
      assert s[0] == pad[0] && s[0] != '<';
      assert !StartsWith(s, Open) by {
        if |Open| <= |s| {
          assert s[..|Open|][0] == s[0];
        }
      }
      assert s[1..] == pad[1..] + t;
      assert forall c :: c in pad[1..] ==> c in pad;
      LocSpansSkip(pad[1..], t);
    } else {
      assert pad + t == t;
    }
  }

  /** A sitemap body written as a list of `<loc>` elements, each after the same separator. */
  function LocList(xs: seq<string>, sep: string): string
  {
    if xs == [] then "" else sep + Open + xs[0] + Close + LocList(xs[1..], sep)
  }

  /** The pattern scan recovers every location of such a list, in order, provided no location
      holds '<' (XML escapes it) or a newline and the separator holds no '<'. */
  lemma {:induction false} LocSpansOfList(xs: seq<string>, sep: string)
    requires '<' !in sep
    requires forall i :: 0 <= i < |xs| ==> '<' !in xs[i] && '\n' !in xs[i]
    ensures LocSpans(LocList(xs, sep)) == xs
  {
    if xs != [] {
      var rest := LocList(xs[1..], sep);
      assert LocList(xs, sep) == sep + (Open + xs[0] + Close + rest);
      LocSpansSkip(sep, Open + xs[0] + Close + rest);
      LocSpansElement(xs[0], rest);
      LocSpansOfList(xs[1..], sep);
      assert [xs[0]] + xs[1..] == xs;
    }
  }

  /** The value `_parse_sitemap` adds for the `<loc>` of a `<url>` element: its text, or `None`. */
  function LocValue(l: Loc): Option<string>
  {
    if l.LocText? then Some(l.text) else None
  }

  /** The values the `<url>` elements add: one per element that has a `<loc>`. */
  function UrlEntries(entries: seq<Loc>): set<Option<string>>
  {
    if entries == [] then {}
    else
      var loc := entries[|entries| - 1];
      UrlEntries(entries[..|entries| - 1]) + (if loc.NoLoc? then {} else {LocValue(loc)})
  }

  /** The set `_parse_sitemap(content)` returns when `fuel` more sitemap indexes may be followed. */
  function SitemapUrls(w: World, content: string, fuel: nat): set<Option<string>>
    decreases fuel, 2
  {
    match w.parseXml(content)
    case Malformed => set s | s in LocSpans(content) :: Some(s)
    case Document(sitemaps, entries) => IndexUrls(w, sitemaps, fuel) + UrlEntries(entries)
  }

  /** What the `<sitemap>` elements of an index add, the children being parsed in turn. */
  function IndexUrls(w: World, sitemaps: seq<Loc>, fuel: nat): set<Option<string>>
    decreases fuel, 1, |sitemaps|
  {
    if sitemaps == [] then {}
    else IndexUrls(w, sitemaps[..|sitemaps| - 1], fuel) + ChildUrls(w, sitemaps[|sitemaps| - 1], fuel)
  }

  /** What one `<sitemap>` element adds: its child sitemap's URLs when the `<loc>` has text, the
      fetch answers 200 and the recursion limit is not reached; otherwise nothing (a missing
      `<loc>` is skipped, and a GET of `None`, a failed GET or the recursion limit raise inside
      the `try` whose handler moves on). */
  function ChildUrls(w: World, loc: Loc, fuel: nat): set<Option<string>>
    decreases fuel, 0
  {
    if loc.LocText? && fuel > 0 then
      match w.get(loc.text)
      case Raised(_) => {}
      case Reply(status, body) => if status == 200 then SitemapUrls(w, body, fuel - 1) else {}
    else {}
  }

  /** `_parse_sitemap(xml_content)`. */
  method ParseSitemap(w: World, content: string, fuel: nat) returns (urls: set<Option<string>>)
    ensures urls == SitemapUrls(w, content, fuel)
    decreases fuel
  {
    urls := {};
    match w.parseXml(content) {
      case Malformed =>
        var matches := LocSpans(content);
        urls := set s | s in matches :: Some(s);
      case Document(sitemaps, entries) =>
        var i := 0;
        while i < |sitemaps|
          invariant 0 <= i <= |sitemaps|
          invariant urls == IndexUrls(w, sitemaps[..i], fuel)
        {
          assert sitemaps[..i + 1][..i] == sitemaps[..i];
          var loc := sitemaps[i];
          if loc.LocText? && fuel > 0 {
            var response := w.get(loc.text);
            if response.Reply? && response.status == 200 {
              var child := ParseSitemap(w, response.body, fuel - 1);
              urls := urls + child;
            }
          }
          i := i + 1;
        }
        assert sitemaps[..i] == sitemaps;
        var j := 0;
        while j < |entries|
          invariant 0 <= j <= |entries|
          invariant urls == IndexUrls(w, sitemaps, fuel) + UrlEntries(entries[..j])
        {
          assert entries[..j + 1][..j] == entries[..j];
          var loc := entries[j];
          if !loc.NoLoc? {
            urls := urls + {LocValue(loc)};
          }
          j := j + 1;
        }
        assert entries[..j] == entries;
    }
  }

  /** More room for recursion never loses URLs: each budget finds at least what a smaller one does. */
  lemma {:induction false} SitemapUrlsMonotone(w: World, content: string, fuel: nat)
    ensures SitemapUrls(w, content, fuel) <= SitemapUrls(w, content, fuel + 1)
    decreases fuel, 2
  {
    match w.parseXml(content) {
      case Malformed =>
      case Document(sitemaps, entries) => IndexUrlsMonotone(w, sitemaps, fuel);
    }
  }

  lemma {:induction false} IndexUrlsMonotone(w: World, sitemaps: seq<Loc>, fuel: nat)
    ensures IndexUrls(w, sitemaps, fuel) <= IndexUrls(w, sitemaps, fuel + 1)
    decreases fuel, 1, |sitemaps|
  {
    if sitemaps != [] {
      IndexUrlsMonotone(w, sitemaps[..|sitemaps| - 1], fuel);
      ChildUrlsMonotone(w, sitemaps[|sitemaps| - 1], fuel);
    }
  }

  lemma {:induction false} ChildUrlsMonotone(w: World, loc: Loc, fuel: nat)
    ensures ChildUrls(w, loc, fuel) <= ChildUrls(w, loc, fuel + 1)
    decreases fuel, 0
  {
    if loc.LocText? && fuel > 0 {
      var response := w.get(loc.text);
      if response.Reply? && response.status == 200 {
        SitemapUrlsMonotone(w, response.body, fuel - 1);
      }
    }
  }

  /** The sitemap a `Sitemap:` line of robots.txt declares: for a line whose lower-cased form starts
      with "sitemap:", the text after the first ':' with surrounding whitespace removed. */
  function SitemapRef(line: string): (r: Option<string>)
    ensures r.Some? <==> StartsWith(Lower(line), "sitemap:")
    ensures r.Some? ==> r.value == Strip(line[|"sitemap:"|..])
  {
    if StartsWith(Lower(line), "sitemap:") then
      assert Lower(line)[..8] == "sitemap:";
      assert forall j :: 0 <= j < 8 ==> Lower(line)[j] == "sitemap:"[j];
      assert line[7] == ':';
      assert forall j :: 0 <= j < 7 ==> line[j] != ':';
      assert IndexOf(line, ':') == 7;
      Some(Strip(line[IndexOf(line, ':') + 1..]))
    else None
  }

  /** What one line of robots.txt adds: the URLs of the sitemap it declares, when that answers 200. */
  function RefUrls(w: World, line: string, fuel: nat): set<Option<string>>
  {
    match SitemapRef(line)
    case None => {}
    case Some(ref) =>
      match w.get(ref)
      case Raised(_) => {}
      case Reply(status, body) => if status == 200 then SitemapUrls(w, body, fuel) else {}
  }

  /** What the lines of robots.txt add. */
  function RobotsUrls(w: World, lines: seq<string>, fuel: nat): set<Option<string>>
  {
    if lines == [] then {} else RobotsUrls(w, lines[..|lines| - 1], fuel) + RefUrls(w, lines[|lines| - 1], fuel)
  }

  /** What one candidate location adds: a 200 body is parsed as a sitemap when the location's text
      contains "sitemap.xml", else scanned for `Sitemap:` lines when it contains "robots.txt". */
  function CandidateUrls(w: World, location: string, fuel: nat): set<Option<string>>
  {
    match w.get(location)
    case Raised(_) => {}
    case Reply(status, body) =>
      if status != 200 then {}
      else if Contains(location, "sitemap.xml") then SitemapUrls(w, body, fuel)
      else if Contains(location, "robots.txt") then RobotsUrls(w, Split(body, '\n'), fuel)
      else {}
  }

  /** The three locations tried, in order. */
  function Candidates(base: string): seq<string>
  {
    var o := Origin(base);
    [o + "/sitemap.xml", o + "/sitemap_index.xml", o + "/robots.txt"]
  }

  function CandidatesUrls(w: World, locations: seq<string>, fuel: nat): set<Option<string>>
  {
    if locations == [] then {}
    else CandidatesUrls(w, locations[..|locations| - 1], fuel) + CandidateUrls(w, locations[|locations| - 1], fuel)
  }

  /** The set `discover_urls_from_sitemap(base_url)` returns. */
  function SitemapDiscovery(w: World, base: string): set<Option<string>>
  {
    CandidatesUrls(w, Candidates(base), w.stackDepth)
  }

  /** The loop of `discover_urls_from_sitemap` over the lines of robots.txt: each `Sitemap:` line
      names a sitemap that is fetched and, on a 200 answer, parsed. */
  method SitemapsOfRobotsTxt(w: World, lines: seq<string>, fuel: nat) returns (urls: set<Option<string>>)
    ensures urls == RobotsUrls(w, lines, fuel)
  {
    urls := {};
    var k := 0;
    while k < |lines|
      invariant 0 <= k <= |lines|
      invariant urls == RobotsUrls(w, lines[..k], fuel)
    {
      assert lines[..k + 1][..k] == lines[..k];
      var found := FetchRef(w, lines[k], fuel);
      urls := urls + found;
      k := k + 1;
    }
    assert lines[..k] == lines;
  }

  /** One pass of that loop: a `Sitemap:` line's URL is fetched and, on a 200 answer, parsed. */
  method FetchRef(w: World, line: string, fuel: nat) returns (found: set<Option<string>>)
    ensures found == RefUrls(w, line, fuel)
  {
    found := {};
    var declared := SitemapRef(line);
    if declared.Some? {
      var response := w.get(declared.value);
      if response.Reply? && response.status == 200 {
        found := ParseSitemap(w, response.body, fuel);
      }
    }
  }

  /** One pass of the loop of `discover_urls_from_sitemap`: fetch a candidate location and, on a
      200 answer, parse it as a sitemap if its text contains "sitemap.xml", or else scan it for
      `Sitemap:` lines if it contains "robots.txt"; a GET that raises adds nothing. */
  method FetchCandidate(w: World, location: string, fuel: nat) returns (urls: set<Option<string>>)
    ensures urls == CandidateUrls(w, location, fuel)
  {
    urls := {};
    var response := w.get(location);
    match response {
      case Raised(_) =>
      case Reply(status, body) =>
        if status == 200 {
          if Contains(location, "sitemap.xml") {
            urls := ParseSitemap(w, body, fuel);
          } else if Contains(location, "robots.txt") {
            urls := SitemapsOfRobotsTxt(w, Split(body, '\n'), fuel);
          }
        }
    }
  }

  /** The loop of `discover_urls_from_sitemap` over the candidate locations, in order. */
  method FetchCandidates(w: World, locations: seq<string>) returns (discovered: set<Option<string>>)
    ensures discovered == CandidatesUrls(w, locations, w.stackDepth)
  {
    discovered := {};
    var i := 0;
    while i < |locations|
      invariant 0 <= i <= |locations|
      invariant discovered == CandidatesUrls(w, locations[..i], w.stackDepth)
    {
      assert locations[..i + 1][..i] == locations[..i];
      var urls := FetchCandidate(w, locations[i], w.stackDepth);
      discovered := discovered + urls;
      i := i + 1;
    }
    assert locations[..i] == locations;
  }

  /** `discover_urls_from_sitemap(base_url)`: never raises, returns a set. */
  method DiscoverUrlsFromSitemap(w: World, base: string) returns (discovered: set<Option<string>>)
    ensures discovered == SitemapDiscovery(w, base)
  {
    discovered := FetchCandidates(w, Candidates(base));
  }

  /** Text ending in `k` contains `k`. */
  lemma ContainsSuffix(a: string, k: string)
    ensures Contains(a + k, k)
  {
    ContainsAt(a + k, k);
    assert (a + k)[|a|..|a| + |k|] == k;
    assert OccursAt(a + k, k, |a|);
  }

  /** The `/sitemap.xml` location is always parsed as a sitemap. */
  lemma SitemapXmlIsParsed(w: World, origin: string, fuel: nat)
    ensures var location := origin + "/sitemap.xml";
      var response := w.get(location);
      CandidateUrls(w, location, fuel)
        == if response.Reply? && response.status == 200 then SitemapUrls(w, response.body, fuel) else {}
  {
    var location := origin + "/sitemap.xml";
    SitemapXmlLocation(origin);
    match w.get(location) {
      case Raised(_) =>
      case Reply(status, body) =>
        if status == 200 {
          assert CandidateUrls(w, location, fuel) == SitemapUrls(w, body, fuel);
        }
    }
  }

  lemma SitemapXmlLocation(origin: string)
    ensures Contains(origin + "/sitemap.xml", "sitemap.xml")
  {
    assert origin + "/sitemap.xml" == (origin + "/") + "sitemap.xml";
    ContainsSuffix(origin + "/", "sitemap.xml");
  }

  /** Text that never holds the first character of `k` does not contain `k`. */
  lemma NotContainsFirst(s: string, k: string)
    requires k != [] && k[0] !in s
    ensures !Contains(s, k)
  {
    ContainsAt(s, k);
    forall i | 0 <= i <= |s| - |k| ensures !OccursAt(s, k, i) {
      assert s[i..i + |k|][0] == s[i];
      assert s[i] in s;
    }
  }

  /** Text shorter than `k` does not contain it. */
  lemma NotContainsLonger(s: string, k: string)
    requires |s| < |k|
    ensures !Contains(s, k)
  {
    ContainsAt(s, k);
  }

  /** "sitemap_index.xml" does not contain "sitemap.xml": the only '.' is too far right. */
  lemma IndexNameLacksSitemapXml()
    ensures !Contains("sitemap_index.xml", "sitemap.xml")
  {
    var s := "sitemap_index.xml";
    var k := "sitemap.xml";
    ContainsAt(s, k);
    forall i | 0 <= i <= |s| - |k| ensures !OccursAt(s, k, i) {
      assert s[i..i + |k|][7] == s[i + 7];
      assert s[i..i + |k|][0] == s[i];
      assert s[i + 7] != '.' || s[i] != 's';
    }
  }

  /** "sitemap_index.xml" does not contain "robots.txt": it has no 'r'. */
  lemma IndexNameLacksRobotsTxt()
    ensures !Contains("sitemap_index.xml", "robots.txt")
  {
    var s := "sitemap_index.xml";
    assert forall i :: 0 <= i < |s| ==> s[i] != 'r';
    NotContainsFirst(s, "robots.txt");
  }

  /** The `/sitemap_index.xml` location is fetched but contributes nothing: its text does not
      contain "sitemap.xml" (nor "robots.txt") unless the origin does. */
  lemma SitemapIndexIsNotParsed(w: World, origin: string, fuel: nat)
    requires !Contains(origin, "sitemap.xml") && !Contains(origin, "robots.txt")
    ensures CandidateUrls(w, origin + "/sitemap_index.xml", fuel) == {}
  {
    SitemapIndexLocation(origin);
  }

  lemma SitemapIndexLocation(origin: string)
    requires !Contains(origin, "sitemap.xml") && !Contains(origin, "robots.txt")
    ensures var location := origin + "/sitemap_index.xml";
      !Contains(location, "sitemap.xml") && !Contains(location, "robots.txt")
  {
    var location := origin + "/sitemap_index.xml";
    assert location == origin + ['/'] + "sitemap_index.xml";
    ContainsAcross(origin, '/', "sitemap_index.xml", "sitemap.xml");
    ContainsAcross(origin, '/', "sitemap_index.xml", "robots.txt");
    IndexNameLacksSitemapXml();
    IndexNameLacksRobotsTxt();
  }

  /** The `/robots.txt` location is scanned for `Sitemap:` lines (unless the origin itself
      contains "sitemap.xml", in which case it is parsed as a sitemap). */
  lemma RobotsTxtIsScanned(w: World, origin: string, fuel: nat)
    requires !Contains(origin, "sitemap.xml")
    ensures var location := origin + "/robots.txt";
      var response := w.get(location);
      CandidateUrls(w, location, fuel)
        == if response.Reply? && response.status == 200 then RobotsUrls(w, Split(response.body, '\n'), fuel) else {}
  {
    var location := origin + "/robots.txt";
    RobotsTxtLocation(origin);
    match w.get(location) {
      case Raised(_) =>
      case Reply(status, body) =>
        if status == 200 {
          assert CandidateUrls(w, location, fuel) == RobotsUrls(w, Split(body, '\n'), fuel);
        }
    }
  }

  lemma RobotsTxtLocation(origin: string)
    requires !Contains(origin, "sitemap.xml")
    ensures !Contains(origin + "/robots.txt", "sitemap.xml")
    ensures Contains(origin + "/robots.txt", "robots.txt")
  {
    var location := origin + "/robots.txt";
    assert location == origin + ['/'] + "robots.txt";
    ContainsAcross(origin, '/', "robots.txt", "sitemap.xml");
    NotContainsLonger("robots.txt", "sitemap.xml");
    assert location == (origin + "/") + "robots.txt";
    ContainsSuffix(origin + "/", "robots.txt");
  }

  /** Every sitemap a `Sitemap:` line declares, when it answers 200, has all its URLs found. */
  lemma {:induction false} DeclaredSitemapFound(w: World, lines: seq<string>, fuel: nat, k: nat, ref: string)
    requires k < |lines| && SitemapRef(lines[k]) == Some(ref)
    requires w.get(ref).Reply? && w.get(ref).status == 200
    ensures SitemapUrls(w, w.get(ref).body, fuel) <= RobotsUrls(w, lines, fuel)
    decreases |lines|
  {
    if k < |lines| - 1 {
      assert lines[..|lines| - 1][k] == lines[k];
      DeclaredSitemapFound(w, lines[..|lines| - 1], fuel, k, ref);
    }
  }
}
