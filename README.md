# SEO site crawler and issue analyzer, modelled in Dafny

This project models the core of an SEO auditing web application. The application crawls a web
site, analyses the SEO data of each page, and summarises the problems it finds. Three parts are
modelled:

- **The site crawler.** `SiteCrawler` in `scrapers/site_crawler.py`:
  - makes links absolute and drops their fragments (`normalize_url`);
  - keeps a crawl on one domain (`is_same_domain`);
  - consults robots.txt through a per-domain cache (`check_robots_txt`);
  - discovers URLs from sitemaps (`discover_urls_from_sitemap`, `_parse_sitemap`);
  - discovers URLs from the anchors of a page (`discover_urls_from_page`);
  - crawls a site breadth-first, level by level, under a page budget and a depth limit
    (`crawl_site`).
- **The issue analyzer.** `SeoIssueAnalyzer` in `utils/seo_analyzer.py`:
  - the rules that turn a page's SEO data into issue messages;
  - the keyword classifiers that give each message a category and a severity;
  - the summary over all crawled pages.
- **The helpers.** From `utils/helpers.py`: `clean_url`, `truncate_text`,
  `calculate_seo_score` and `format_price`.

Modules, one per file:

- `wrappers.dfy`: `Option`.
- `py_text.dfy`: the Python string operations the code relies on (`lower`, `strip`, `in`, `find`,
  `split`, `str` of an integer).
- `urls.dfy`: `urllib.parse.urlparse`/`urlunparse` as a six-field record, following CPython's
  algorithm.
- `url_normalizer.dfy`: `normalize_url`, `is_same_domain`.
- `web.dfy`: the outside world as fixed functions. These are HTTP GETs, the robots.txt reader and
  matcher, `urljoin`, anchor extraction by BeautifulSoup, XML parsing by ElementTree, and the
  recursion depth available.
- `robots.dfy`: robots.txt answers and the robots cache.
- `sitemap.dfy`: sitemap discovery, including the `<loc>` regex fallback.
- `links.dfy`: the links of one page, and the link graph they form.
- `crawl_graph.dfy`: the breadth-first walk over that graph.
- `site_crawler.dfy`: the `SiteCrawler` class. Its methods update `discoveredUrls`,
  `crawledUrls` and `robotsCache` in place.
- `seo_analyzer.dfy`: the issue rules and classifiers. Each issue is a `Finding` value, and
  `Text` renders it as the exact message the source writes.
- `seo_summary.dfy`: `generate_summary`, with its counter loop.
- `helpers.dfy`: the four helpers.

## Model

| member | source | states |
|---|---|---|
| Crawler.AgentOf | scrapers/site_crawler.py:18-20 | the User-Agent is the caller's when given and non-empty, else the built-in default; never empty |
| Crawler.SiteCrawler.constructor | scrapers/site_crawler.py:13-24 | a new crawler has no discovered or crawled URLs, an empty robots cache, and the caller's robots setting and user agent |
| Crawler.SiteCrawler.CheckRobotsTxt | scrapers/site_crawler.py:30-56 | the answer is the one a fresh robots.txt read of the URL's origin gives; because the modelled web does not change during a run, the cache never changes an answer (a real cache would hide a robots.txt edited mid-run); the origin's robots.txt is read exactly when robots are respected and the origin is not cached; cached entries are never replaced |
| Robots.ReasonTextInjective | scrapers/site_crawler.py:33-56 | the four reason messages tell the reasons apart: equal messages mean equal reasons, and a read failure's message carries its error |
| Web.ReadRobots | scrapers/site_crawler.py:40-43 | defines what reading robots.txt gives: a raised error, or a policy that is the parsed rules on a 2xx answer, disallow-all on 401/403, allow-all on other 4xx, and unparsed otherwise; `RobotsCheckAnswers` states how the check uses it |
| Web.CanFetch | scrapers/site_crawler.py:48 | defines `can_fetch` on a policy: disallow-all and unparsed refuse, allow-all admits, parsed rules decide; `RobotsCheckAnswers` states that a URL is refused exactly when this answers false |
| Robots.RobotsCheck | scrapers/site_crawler.py:30-56 | defines the (allowed, reason) pair of one fresh check; its properties are stated by `RobotsCheckAnswers`, and `CheckRobotsTxt` is proved to answer it |
| Robots.RobotsCheckAnswers | scrapers/site_crawler.py:30-56 | with robots disabled every URL is allowed; a read that raises allows with the "Could not read" reason; otherwise the parsed policy decides; a URL is refused exactly when the reason is "Blocked by robots.txt" |
| Robots.CacheAfterEntries | scrapers/site_crawler.py:39-46 | only a successful read of an uncached domain adds an entry, holding the policy that read produced; nothing is removed or replaced |
| Robots.ReadsAfter | scrapers/site_crawler.py:39-44 | a check reads robots.txt at most once, and does so exactly when robots are respected and the domain is not cached |
| Robots.RobotsValidAfterRead | scrapers/site_crawler.py:39-46 | reading an uncached domain keeps the invariant that every cached policy is what reading that domain gives, and that only a raising read is ever repeated |
| UrlNormalizer.Absolute | scrapers/site_crawler.py:63-70 | defines the absolute form of an href; `NormalizeProtocolRelative`, `NormalizeRootRelative`, `NormalizeRelative` and `NormalizeAbsolute` state each of its four cases |
| UrlNormalizer.NormalizeUrl | scrapers/site_crawler.py:58-61 | normalisation gives `None` exactly for an empty href |
| UrlNormalizer.NormalizeKeepsParts | scrapers/site_crawler.py:72-85 | a normalised URL parses to the absolute form's parse with the fragment cleared, and has no fragment |
| UrlNormalizer.NormalizeAbsolute | scrapers/site_crawler.py:69-85 | an absolute http(s) href does not depend on the base or on `urljoin` |
| UrlNormalizer.NormalizeIdempotent | scrapers/site_crawler.py:58-85 | normalising an already normalised http(s) URL against any base gives it back unchanged |
| UrlNormalizer.NormalizeRootRelative | scrapers/site_crawler.py:66-68 | a root-relative href keeps the base's scheme and authority, so it is on the base's domain |
| UrlNormalizer.NormalizeProtocolRelative | scrapers/site_crawler.py:64-65 | a protocol-relative href takes the base's scheme and keeps its own authority |
| UrlNormalizer.NormalizeRelative | scrapers/site_crawler.py:69-70 | any other relative href is resolved by `urljoin` and then loses its fragment |
| UrlNormalizer.WithoutFragmentKeepsParts | scrapers/site_crawler.py:73-83 | rebuilding a URL without its fragment keeps scheme, authority, path, parameters and query exactly |
| UrlNormalizer.WithoutFragmentIdempotent | scrapers/site_crawler.py:73-83 | dropping the fragment twice is the same as dropping it once |
| UrlNormalizer.IsSameDomain | scrapers/site_crawler.py:87-89 | defines same-domain as equal parsed authorities; `SameDomainOfRecords` and `SameDomainEquivalence` state its properties |
| UrlNormalizer.SameDomainOfRecords | scrapers/site_crawler.py:87-89 | two written-out URL records are on the same domain exactly when their authorities are equal, whatever their other parts |
| UrlNormalizer.SameDomainEquivalence | scrapers/site_crawler.py:87-89 | same-domain is reflexive, symmetric and transitive |
| Urls.UrlParse | scrapers/site_crawler.py:73 | defines `urlparse` on a string; `ParseIsWellFormed` states that its records are well-formed and `ParseUnparse` that it inverts `UrlUnparse` |
| Urls.UrlUnparse | scrapers/site_crawler.py:76-83 | defines `urlunparse` on a record; `ParseUnparse` states that `UrlParse` inverts it on every well-formed record |
| Urls.ParseUnparse | scrapers/site_crawler.py:73-83 | `urlparse` inverts `urlunparse` on every well-formed record |
| Urls.ParseIsWellFormed | scrapers/site_crawler.py:73 | every record `urlparse` returns is well-formed |
| Urls.SplitOfUnsplit | scrapers/site_crawler.py:73-83 | `urlsplit` inverts `urlunsplit` on components of the shapes `urlsplit` produces |
| Urls.ReparseWithoutFragment | scrapers/site_crawler.py:73-83 | parsing the URL rebuilt without its fragment gives the original parse with the fragment cleared |
| Urls.ParamsStable | scrapers/site_crawler.py:73-83 | path parameters split off a path re-join to that path, or to it less a final ';', and split again identically |
| Urls.SplitSchemeAuthority | scrapers/site_crawler.py:37 | "scheme://netloc/path" splits back into that scheme and that authority |
| Sitemap.CloseAt | scrapers/site_crawler.py:157 | the lazy group of `<loc>(.*?)</loc>` closes at the first "</loc>" with no newline before it, or not at all |
| Sitemap.LocSpans | scrapers/site_crawler.py:157-158 | no location the pattern scan returns holds a newline |
| Sitemap.LocSpansOfList | scrapers/site_crawler.py:155-159 | the pattern scan recovers every location of a list of `<loc>` elements, in order |
| Sitemap.LocSpansElement | scrapers/site_crawler.py:157-158 | one `<loc>x</loc>` at the front is matched with `x` as its group, and the scan resumes after it |
| Sitemap.LocSpansSkip | scrapers/site_crawler.py:157-158 | text without '<' before the elements contributes nothing |
| Sitemap.ParseSitemap | scrapers/site_crawler.py:130-163 | the set built is that of the sitemap document: the `<url>` locations, and the URLs of child sitemaps that answer 200 while recursion depth remains; the pattern scan on XML that does not parse |
| Sitemap.SitemapUrls | scrapers/site_crawler.py:130-163 | defines the set `_parse_sitemap` returns with a bound on index recursion; `ParseSitemap` is proved to build it, `SitemapUrlsMonotone` states that more depth never loses a URL, and `LocSpansOfList` what the pattern fallback recovers |
| Sitemap.SitemapUrlsMonotone | scrapers/site_crawler.py:138-147 | more recursion depth never loses a URL |
| Sitemap.SitemapRef | scrapers/site_crawler.py:113-114 | a robots.txt line declares a sitemap exactly when its lower-cased form starts with "sitemap:"; the sitemap is the stripped text after the first ':' |
| Sitemap.SitemapsOfRobotsTxt | scrapers/site_crawler.py:112-121 | the loop over robots.txt lines collects the URLs of every declared sitemap that answers 200 |
| Sitemap.FetchRef | scrapers/site_crawler.py:113-121 | one robots.txt line adds its declared sitemap's URLs when the sitemap answers 200, else nothing |
| Sitemap.FetchCandidate | scrapers/site_crawler.py:104-123 | one candidate location adds what its 200 answer holds, parsed or scanned according to its name; a raising GET adds nothing |
| Sitemap.FetchCandidates | scrapers/site_crawler.py:103-123 | the loop over the candidate locations unions what each adds |
| Sitemap.DiscoverUrlsFromSitemap | scrapers/site_crawler.py:91-128 | the result is the URLs of the three candidate locations under the base URL's origin, and the call never raises |
| Sitemap.SitemapDiscovery | scrapers/site_crawler.py:91-128 | defines the set `discover_urls_from_sitemap` returns as the union over the three candidate locations; `DiscoverUrlsFromSitemap` is proved to return it and the next four rows state what each location adds |
| Sitemap.SitemapXmlIsParsed | scrapers/site_crawler.py:98-109 | the `/sitemap.xml` location is always parsed as a sitemap |
| Sitemap.SitemapIndexIsNotParsed | scrapers/site_crawler.py:99-110 | the `/sitemap_index.xml` location is fetched but contributes nothing, because its name contains neither "sitemap.xml" nor "robots.txt" |
| Sitemap.RobotsTxtIsScanned | scrapers/site_crawler.py:100-121 | the `/robots.txt` location is scanned line by line for `Sitemap:` declarations |
| Sitemap.DeclaredSitemapFound | scrapers/site_crawler.py:112-119 | every URL of every declared sitemap that answers 200 is found |
| Links.LinkOf | scrapers/site_crawler.py:181-186 | defines what one anchor contributes: its normalised form when non-empty and on the page's domain; `LinksOfAnchors` states that the anchor loop collects exactly these, and `PageLinksAreCanonical` what every such link is |
| Links.LinksOfAnchors | scrapers/site_crawler.py:181-186 | the loop over the anchors collects exactly their links |
| Links.PageLinks | scrapers/site_crawler.py:165-191 | defines the links of a page as the links of its anchors; `PageLinksAreCanonical`, `PageLinksOfBody` and `PageLinksEmpty` state its properties and `DiscoverUrlsFromPage` is proved to return it |
| Links.PageLinksAreCanonical | scrapers/site_crawler.py:181-186 | every link found on a page is non-empty, on the page's domain, has no fragment, and is already normalised |
| Links.PageLinksOfBody | scrapers/site_crawler.py:170-186 | a page that robots.txt allows and that answers 200 yields the links of the anchors of its body |
| Links.PageLinksEmpty | scrapers/site_crawler.py:170-176 | a page that robots.txt blocks, or whose GET raises or answers other than 200, yields no links |
| Links.Linker | scrapers/site_crawler.py:165-191 | defines the link graph the crawl walks, mapping every page to its `PageLinks`; `CrawlLevels`, `CrawlEnd` and `ReachMono` state the crawl's properties over it |
| Crawler.SiteCrawler.FetchLinks | scrapers/site_crawler.py:174-186 | the fetch of an allowed page is logged once, and yields exactly the page's links |
| Crawler.SiteCrawler.DiscoverUrlsFromPage | scrapers/site_crawler.py:165-191 | the links returned are the page's links; the page is fetched exactly when robots.txt allows it; cached robots entries are kept |
| Crawler.SiteCrawler.VisitPage | scrapers/site_crawler.py:242-246 | a page not yet crawled adds its links to the discovered URLs and becomes crawled, so the crawled count grows by one |
| CrawlGraph.PassVisit | scrapers/site_crawler.py:238-246 | visiting a page of the level discovers its links, queues those not crawled for the next level, and marks it crawled |
| CrawlGraph.PassSkip | scrapers/site_crawler.py:238-239 | a page already crawled is skipped without changing anything |
| CrawlGraph.PassEnd | scrapers/site_crawler.py:234-236 | when the level is exhausted or the budget is spent, the crawled pages are pages of the level (all of them unless the budget ran out), the budget is never exceeded, and exactly their links were discovered |
| Crawler.SiteCrawler.CrawlLevel | scrapers/site_crawler.py:231-246 | one pass of the per-URL loop ends in the state `PassEnd` describes |
| CrawlGraph.CrawlStep | scrapers/site_crawler.py:226-255 | one pass of the depth loop moves the crawl one link step further from the start page |
| CrawlGraph.CrawlEnd | scrapers/site_crawler.py:226-228 | when the depth loop stops, the start page is crawled, every crawled page lies within `max_depth - 1` link steps of it, and every such page is crawled unless the budget was spent; every crawled page is the start page or a link of a crawled page, so all of them are discovered when the start page was |
| CrawlGraph.PassOrigin | scrapers/site_crawler.py:230-255 | after one depth pass, every crawled or queued page is still the start page or a link of a crawled page |
| CrawlGraph.CrawledDiscovered | scrapers/site_crawler.py:221-246 | when the seed holds the start page and every crawled page is the start or a crawled page's link, the crawled pages are all among the seed and the crawled pages' links |
| CrawlGraph.LinksGrow | scrapers/site_crawler.py:243 | crawling one more page adds exactly its links to those found |
| CrawlGraph.ReachMono | scrapers/site_crawler.py:226 | allowing more link steps never loses a page |
| Crawler.SiteCrawler.CrawlPass | scrapers/site_crawler.py:230-255 | while the budget is not spent, one depth pass preserves the crawl-state invariant one level further |
| Crawler.SiteCrawler.Restart | scrapers/site_crawler.py:210-221 | a new crawl starts with the seed discovered, nothing crawled, and the robots cache kept |
| Crawler.SiteCrawler.CrawlLevels | scrapers/site_crawler.py:224-255 | the depth loop crawls the start page; it crawls at most `max_urls` pages, all within `max_depth - 1` link steps; it crawls all such pages unless the budget is spent; it discovers exactly the links of the crawled pages; every crawled page is the start page or a link of a crawled page, so every crawled page is discovered when the start page was |
| Crawler.FirstN | scrapers/site_crawler.py:258 | `list(s)[:n]` holds `min(|s|, n)` distinct members of `s` |
| Crawler.SiteCrawler.Crawl | scrapers/site_crawler.py:210-261 | from a normalised start, the crawl meets the `CrawlLevels` guarantees; the discovered URLs are the sitemap URLs, the start and the crawled pages' links; the answer holds `min(|discovered|, max_urls)` distinct discovered URLs; every crawled page is discovered |
| Crawler.SiteCrawler.CrawlSite | scrapers/site_crawler.py:193-261 | `Crawl`'s guarantees hold for the base URL normalised against itself, with the sitemap URLs of its origin as the seed; every crawled page is discovered |
| SeoAnalyzer.RoundHalfEven | utils/seo_analyzer.py:143-145 | the rounding used by `.1f` is within one half of its argument and breaks ties to even |
| SeoAnalyzer.Seconds | utils/seo_analyzer.py:143-145 | a load time is written with one decimal, with a '-' in front of a negative value |
| SeoAnalyzer.AnalyzeIssues | utils/seo_analyzer.py:13-56 | the issue list is the rules' findings in rule order, each rendered as its message; there are at most nine |
| SeoAnalyzer.AnalyzeTitle | utils/seo_analyzer.py:59-82 | a title raises at most two issues; `TitleRule` and `CleanTitle` state which and when |
| SeoAnalyzer.AnalyzeMetaDescription | utils/seo_analyzer.py:85-105 | a meta description raises at most one issue; `MetaRule` states which and when |
| SeoAnalyzer.AnalyzeHeaders | utils/seo_analyzer.py:108-132 | the headers raise at most two issues, at most one H1 and one H2; `HeadersRule`, `H1Rule` and `H2Rule` state which and when |
| SeoAnalyzer.AnalyzePerformance | utils/seo_analyzer.py:135-147 | a load time raises at most one issue; `OtherRules` states which and when: "slow" over 3 s, "could be improved" over 2 s up to 3 s, none otherwise |
| SeoAnalyzer.AnalyzeMobile | utils/seo_analyzer.py:150-157 | the mobile flag raises at most one issue; `OtherRules` states when |
| SeoAnalyzer.AnalyzeContent | utils/seo_analyzer.py:160-172 | a word count raises at most one issue; `OtherRules` states which and when: "low" below 300, "very long" above 3000, none otherwise |
| SeoAnalyzer.AnalyzeImages | utils/seo_analyzer.py:175-186 | images without alt text raise at most one issue; `OtherRules` states which and when: none for no image, the singular message for one, the message with the count for more |
| SeoAnalyzer.TitleRule | utils/seo_analyzer.py:59-82 | a missing or empty title gives only "Missing title"; a blank one only "Empty title"; otherwise each length and wording issue is reported exactly when its condition holds |
| SeoAnalyzer.CleanTitle | utils/seo_analyzer.py:59-82 | a title raises no issue exactly when it is present, 30 to 60 characters long, not blank, neither "untitled" nor starting with "welcome to", and holds a separator |
| SeoAnalyzer.MetaRule | utils/seo_analyzer.py:85-105 | a missing, blank, short or long meta description gives its one issue exactly when that condition holds; a description of 120 to 160 characters, counted before stripping, gives none |
| SeoAnalyzer.HeadersRule | utils/seo_analyzer.py:108-132 | missing or multiple H1 and missing or too many H2 are reported exactly when their conditions hold; a page has no header issue exactly when it has one H1 of 20 to 70 stripped characters and 1 to 10 H2s |
| SeoAnalyzer.SingleH1Rule | utils/seo_analyzer.py:116-124 | a single H1 is reported as empty, too short or too long exactly by its stripped length |
| SeoAnalyzer.H1Rule | utils/seo_analyzer.py:112-124 | the H1 rule reports only H1 issues, each exactly when its condition holds |
| SeoAnalyzer.H2Rule | utils/seo_analyzer.py:126-130 | the H2 rule reports only H2 issues, each exactly when its condition holds |
| SeoAnalyzer.OtherRules | utils/seo_analyzer.py:135-186 | load time over 2 s is reported, over 3 s as slow and otherwise as could-be-improved; a page that is not `True` mobile-friendly is reported; a word count below 300 is reported as low and above 3000 as very long, and nothing is reported in between; missing alt text is reported exactly when some image lacks it, singular for one image and with the count for more |
| SeoAnalyzer.NoIssuesExactlyWhenClean | utils/seo_analyzer.py:13-56 | a page has no issues exactly when it meets every rule's condition |
| SeoAnalyzer.FirstMatch | utils/seo_analyzer.py:189-229 | a keyword classifier answers either its fallback or one of its class names |
| SeoAnalyzer.FirstMatchWins | utils/seo_analyzer.py:193-206 | a classifier answers a class exactly when some of that class's keywords occur in the text and no earlier class's do |
| SeoAnalyzer.FallbackWhenNoMatch | utils/seo_analyzer.py:207-208 | a classifier answers its fallback exactly when no keyword occurs |
| SeoAnalyzer.CategorizeIssue | utils/seo_analyzer.py:189-208 | defines `categorize_issue`; `CategorizeByTable`, `CategoryIsFirstMatch` and `CategorizeIgnoresCase` state its properties |
| SeoAnalyzer.CategorizeByTable | utils/seo_analyzer.py:189-208 | `categorize_issue` is the first-match classifier over the category table on the lower-cased text, with fallback "other" |
| SeoAnalyzer.CategoryIsFirstMatch | utils/seo_analyzer.py:189-208 | an issue's category is one of the seven categories or "other"; it is a category exactly when that category's keywords occur and no earlier one's do |
| SeoAnalyzer.CategorizeIgnoresCase | utils/seo_analyzer.py:191 | the category does not depend on letter case |
| SeoAnalyzer.IssueSeverity | utils/seo_analyzer.py:211-229 | defines `get_issue_severity`; `SeverityByTable`, `SeverityIsFirstMatch` and `SeverityIgnoresCase` state its properties |
| SeoAnalyzer.SeverityByTable | utils/seo_analyzer.py:211-229 | `get_issue_severity` is the first-match classifier over the severity table on the lower-cased text, with fallback "low" |
| SeoAnalyzer.SeverityIsFirstMatch | utils/seo_analyzer.py:211-229 | an issue's severity is critical, high, medium or low; it is a level exactly when that level's keywords occur and no higher level's do |
| SeoAnalyzer.SeverityIgnoresCase | utils/seo_analyzer.py:213 | the severity does not depend on letter case |
| SeoSummary.GenerateSummary | utils/seo_analyzer.py:232-268 | the page count, issue total, pages with issues, percentage and average are those of all results; the category, severity and message counters are the tallies of all issues |
| SeoSummary.CountPage | utils/seo_analyzer.py:242-246 | counting one page's issues extends the category and severity tallies by exactly that page's issues |
| SeoSummary.IncCount | utils/seo_analyzer.py:245-246 | incrementing a counter adds one to that key's count and changes no other |
| SeoSummary.TallyCounts | utils/seo_analyzer.py:237-246 | each counter entry is the number of issues with that key |
| SeoSummary.TallyTotal | utils/seo_analyzer.py:237-246 | a counter's counts add up to the number of issues |
| SeoSummary.TallyKeys | utils/seo_analyzer.py:237-246 | a counter has an entry exactly for the keys of the issues |
| SeoSummary.PagesWithIssuesBounds | utils/seo_analyzer.py:256 | pages with issues are at most the pages and at most the issues, and none exactly when there are no issues |
| SeoSummary.SummaryConsistent | utils/seo_analyzer.py:232-268 | in a summary, each counter adds up to the issue total; the category and severity counts count the issues; pages with issues are at most the pages, and none exactly when there are no issues; the percentage lies in 0 to 100; the average is non-negative; both are zero without pages |
| SeoSummary.RoundTenth | utils/seo_analyzer.py:263-264 | rounding to one decimal moves a value by at most 0.05 |
| Helpers.CleanUrl | utils/helpers.py:15-19 | the cleaned URL always starts with "http://" or "https://" |
| Helpers.CleanUrlCases | utils/helpers.py:15-19 | a URL with a web scheme is only stripped; one without, and without trailing whitespace, gets "https://" in front |
| Helpers.CleanUrlIdempotent | utils/helpers.py:15-19 | cleaning a cleaned URL changes nothing |
| Helpers.TruncateText | utils/helpers.py:62-70 | no text gives ""; text within the limit is returned unchanged; with a limit of at least 3 the result fits the limit; a shortened result is a prefix of the text followed by "..." |
| Helpers.TruncateLong | utils/helpers.py:67-70 | text over a limit of at least 3 becomes exactly its first `limit - 3` characters and "...", filling the limit; below 3 the result is longer than the limit |
| Helpers.CalculateSeoScore | utils/helpers.py:89-144 | the score is the sum of the title, meta, H1, H2, word, load-time and mobile points, and lies in 0 to 100 |
| Helpers.ScoreExtremes | utils/helpers.py:89-144 | the score reaches 100 exactly when every criterion earns full points |
| Helpers.CleanPageScoresFull | utils/helpers.py:89-144 | a page with no analyzer issues, a word count and at least two H2s scores 100 |
| Helpers.KeepPriceChars | utils/helpers.py:27 | the filter keeps exactly the digits, '.', ',', and the four currency symbols |
| Helpers.SearchAmount | utils/helpers.py:30 | the amount found starts with a digit or ',' and holds only digits, ',' and '.' |
| Helpers.KeepPriceCharsAppend | utils/helpers.py:27 | the filter works character by character and keeps their order: it distributes over concatenation |
| Helpers.SearchAmountAt | utils/helpers.py:30 | the search finds nothing exactly when there is no digit or comma; otherwise its match is the piece of the text that starts at the first digit or comma |
| Helpers.FormatPrice | utils/helpers.py:21-34 | no price or an empty one gives `None`; any other gives text of digits, '.' and currency symbols, with no ',' |
| Helpers.FormatPriceOfDigits | utils/helpers.py:27-32 | a price with a digit gives text of digits and '.' only |

## Left out

- Printing, `time.sleep`, the progress callback, the unused thread pool (`max_workers`) and the
  request timeout have no effect on the modelled results and are left out.
- HTTP, robots.txt reading and matching, `urljoin`, HTML anchor extraction and XML parsing are
  parameters of the model (the `World` value). They are fixed functions, so a URL answers the same
  way every time it is fetched.
- `urlparse`: the IPv6 bracket check and the NFKC authority check, which raise `ValueError`, are
  not modelled.
- `_parse_sitemap`: the recursion into child sitemaps is bounded by `World.stackDepth`, which
  stands for the interpreter's recursion limit. A `RecursionError` at that depth is swallowed by
  the surrounding `except`, so that child contributes nothing.
- `_parse_sitemap`: every failure of `ET.fromstring` is taken to be a `ParseError`, so the
  `except Exception` branch (lines 160-161) is not modelled. The body is modelled as text, so
  the UTF-8 decoding before the pattern scan is not modelled either.
- Crawler.SiteCrawler.DiscoverUrlsFromPage: states only that cached robots entries are kept, not
  the exact cache it leaves.
- Crawler.SiteCrawler.CrawlSite: requires a non-empty base URL and `max_urls`, `max_depth` of at
  least 1. Its only caller rejects an empty URL and clamps both limits to at least 1
  (`app.py:205-214`). With an empty base URL the source would crawl `None`.
- Crawler.FirstN: the order of `list(set)` is Python's hash order, which is left open; only the
  count, distinctness and membership are stated.
- String case folding and `\d` are ASCII-only. Python's Unicode `lower()` and Unicode digits are
  not modelled.
- Load times and percentages are exact reals. Floating-point rounding of `/`, `round` and `.1f`
  is not modelled. Rounding is half-to-even on the exact value.
- Inputs the source would fail on with a `TypeError` are excluded by the types. These are `None`
  for the header or image lists and a `None` word count or load time in `calculate_seo_score`,
  where a missing entry takes its default instead.
- SeoSummary.GenerateSummary: `common_issues` (`Counter.most_common(10)`) is modelled by its
  counter `issueCounts`. The top-ten selection and its tie order are not modelled.
- SeoAnalyzer.CategoryIsFirstMatch: does not prove which category each specific message of the
  rules falls into. It states the classifier for any text.
- `generate_summary` reads `result.get('issues', [])`; a page's result is modelled by its issue
  list alone.
