/** `SiteCrawler.normalize_url` and `SiteCrawler.is_same_domain`: a link found on a page is made
    absolute against the page's URL and its fragment is dropped, and two URLs are on the same
    domain when their authorities ("netloc") are the same text. */
module UrlNormalizer {
  import opened Wrappers
  import opened PyText
  import opened Urls

  /** `urljoin(base, url)` (relative resolution): code outside this model, passed in. */
  type Joiner = (string, string) -> string

  /** The first step of `normalize_url`: a protocol-relative href takes the base's scheme, a
      root-relative href the base's scheme and authority, an href without an `http://` or
      `https://` prefix goes through `urljoin`, and an absolute http(s) href is kept. */
  function Absolute(href: string, base: string, urljoin: Joiner): string
  {
    if StartsWith(href, "//") then UrlParse(base).scheme + ":" + href
    else if StartsWith(href, "/") then
      var b := UrlParse(base);
      b.scheme + "://" + b.netloc + href
    else if !StartsWith(href, "http://") && !StartsWith(href, "https://") then urljoin(base, href)
    else href
  }

  /** The second step of `normalize_url`: parse, clear the fragment, write the record back. */
  function WithoutFragment(url: string): string
  {
    UrlUnparse(UrlParse(url).(fragment := ""))
  }

  /** `normalize_url(href, base)`: `None` exactly for an empty href. */
  function NormalizeUrl(href: string, base: string, urljoin: Joiner): (r: Option<string>)
    ensures r.None? <==> href == ""
  {
    if href == "" then None else Some(WithoutFragment(Absolute(href, base, urljoin)))
  }

  /** `f"{p.scheme}://{p.netloc}"` for `p = urlparse(url)`: the key of the robots cache and the
      prefix the sitemap locations are built on. */
  function Origin(url: string): string
  {
    var p := UrlParse(url);
    p.scheme + "://" + p.netloc
  }

  /** `is_same_domain(url, base)`. */
  predicate IsSameDomain(url: string, base: string)
  {
    UrlParse(url).netloc == UrlParse(base).netloc
  }

  /** Dropping the fragment keeps scheme, authority, path, parameters and query exactly as
      `urlparse` found them, and leaves no fragment. */
  lemma WithoutFragmentKeepsParts(url: string)
    ensures UrlParse(WithoutFragment(url)) == UrlParse(url).(fragment := "")
  {
    ReparseWithoutFragment(url);
  }

  /** Dropping the fragment twice is dropping it once. */
  lemma WithoutFragmentIdempotent(url: string)
    ensures WithoutFragment(WithoutFragment(url)) == WithoutFragment(url)
  {
    WithoutFragmentKeepsParts(url);
  }

  /** A non-empty href normalises to a URL whose parse is the parse of the absolute form with the
      fragment cleared. */
  lemma NormalizeKeepsParts(href: string, base: string, urljoin: Joiner)
    requires href != ""
    ensures var r := NormalizeUrl(href, base, urljoin);
      r.Some? && UrlParse(r.value) == UrlParse(Absolute(href, base, urljoin)).(fragment := "")
      && UrlParse(r.value).fragment == ""
  {
    WithoutFragmentKeepsParts(Absolute(href, base, urljoin));
  }

  /** An absolute http(s) href is normalised on its own: neither the base nor `urljoin` matter. */
  lemma NormalizeAbsolute(href: string, base: string, urljoin: Joiner)
    requires StartsWith(href, "http://") || StartsWith(href, "https://")
    ensures NormalizeUrl(href, base, urljoin) == Some(WithoutFragment(href))
  {
    assert href[..|"/"|][0] == 'h';
    assert !StartsWith(href, "/");
    assert !StartsWith(href, "//") by { assert href[..|"//"|][0] == 'h'; }
    assert Absolute(href, base, urljoin) == href;
  }

  /** Normalising a normalised http(s) URL again, against any base, changes nothing. */
  lemma NormalizeIdempotent(href: string, base: string, urljoin: Joiner, base2: string, urljoin2: Joiner)
    requires var r := NormalizeUrl(href, base, urljoin);
      r.Some? && (StartsWith(r.value, "http://") || StartsWith(r.value, "https://"))
    ensures var r := NormalizeUrl(href, base, urljoin); NormalizeUrl(r.value, base2, urljoin2) == r
  {
    var u := NormalizeUrl(href, base, urljoin).value;
    NormalizeAbsolute(u, base2, urljoin2);
    WithoutFragmentIdempotent(Absolute(href, base, urljoin));
  }

  /** A root-relative href ("/path") stays on the base's scheme and authority, so it is on the
      same domain as the base, provided the base has a scheme. */
  lemma NormalizeRootRelative(href: string, base: string, urljoin: Joiner)
    requires StartsWith(href, "/") && !StartsWith(href, "//")
    requires UrlParse(base).scheme != ""
    ensures var r := NormalizeUrl(href, base, urljoin);
      r.Some? && UrlParse(r.value).scheme == UrlParse(base).scheme
      && UrlParse(r.value).netloc == UrlParse(base).netloc && IsSameDomain(r.value, base)
  {
    var b := UrlParse(base);
    ParsedSchemeNetloc(base);
    var u := Absolute(href, base, urljoin);
    assert u == b.scheme + "://" + b.netloc + href;
    assert href[0] == href[..|"/"|][0] == '/';
    SplitSchemeAuthority(b.scheme, b.netloc, href);
    ParseOfSplit(u);
    NormalizeKeepsParts(href, base, urljoin);
  }

  /** A protocol-relative href ("//host/path") takes the base's scheme and keeps its own
      authority, provided the base has a scheme. */
  lemma NormalizeProtocolRelative(href: string, base: string, urljoin: Joiner)
    requires StartsWith(href, "//")
    requires UrlParse(base).scheme != ""
    ensures var r := NormalizeUrl(href, base, urljoin);
      r.Some? && UrlParse(r.value).scheme == UrlParse(base).scheme
      && UrlParse(r.value).netloc == SplitAuthority(RemoveUnsafe(href)).0
  {
    var b := UrlParse(base);
    ParsedSchemeNetloc(base);
    var u := Absolute(href, base, urljoin);
    assert u == b.scheme + ":" + href;
    SplitBehindScheme(b.scheme, href);
    assert UrlSplit(u).0 == b.scheme && UrlSplit(u).1 == SplitAuthority(RemoveUnsafe(href)).0;
    ParseOfSplit(u);
    NormalizeKeepsParts(href, base, urljoin);
  }

  /** Any other href without an http(s) prefix is resolved by `urljoin`, whose result is then
      cleaned like any other. */
  lemma NormalizeRelative(href: string, base: string, urljoin: Joiner)
    requires href != "" && !StartsWith(href, "/")
    requires !StartsWith(href, "http://") && !StartsWith(href, "https://")
    ensures var r := NormalizeUrl(href, base, urljoin);
      r.Some? && UrlParse(r.value) == UrlParse(urljoin(base, href)).(fragment := "")
  {
    assert !StartsWith(href, "//");
    NormalizeKeepsParts(href, base, urljoin);
  }

  /** Same-domain only looks at the authority of the two URLs: for any two records `urlparse`
      can produce, the written-out URLs are on the same domain exactly when the authorities are
      equal, whatever the scheme, path, parameters, query and fragment. */
  lemma SameDomainOfRecords(p: ParsedUrl, q: ParsedUrl)
    requires WellFormed(p) && WellFormed(q)
    ensures IsSameDomain(UrlUnparse(p), UrlUnparse(q)) <==> p.netloc == q.netloc
  {
    ParseUnparse(p);
    ParseUnparse(q);
  }

  /** Same-domain is reflexive, symmetric and transitive. */
  lemma SameDomainEquivalence(a: string, b: string, c: string)
    ensures IsSameDomain(a, a)
    ensures IsSameDomain(a, b) ==> IsSameDomain(b, a)
    ensures IsSameDomain(a, b) && IsSameDomain(b, c) ==> IsSameDomain(a, c)
  {
  }
}
