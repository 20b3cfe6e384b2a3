/** The world the crawler talks to, as fixed functions: HTTP GETs through the crawler's session,
    the fetch `RobotFileParser.read` makes, robots.txt rule matching, `urljoin`, anchor extraction
    from HTML and sitemap XML parsing.  Reading one of them twice gives the same answer. */
module Web {
  /** The outcome of a GET: the call raised (timeout, connection error, bad URL), or a reply with
      its status code and its body as text. */
  datatype Response = Raised(message: string) | Reply(status: int, body: string)

  /** The `<loc>` child of a `<sitemap>` or `<url>` element: absent, present with no text
      (ElementTree's `.text` is `None`), or present with text. */
  datatype Loc = NoLoc | EmptyLoc | LocText(text: string)

  /** What `ElementTree.fromstring` makes of a sitemap body: a `ParseError`, or a document with its
      `.//{ns}sitemap` and `.//{ns}url` elements in document order (sitemaps.org 0.9 namespace). */
  datatype XmlDoc = Malformed | Document(sitemaps: seq<Loc>, urls: seq<Loc>)

  /** The state a `RobotFileParser` is left in by `read()`: everything disallowed (401/403),
      everything allowed (another 4xx), never parsed (any other error status), or parsed rules. */
  datatype RobotsPolicy = DisallowAll | AllowAll | Unparsed | Rules(text: string)

  /** `read()` either raises (the crawler reports the message) or leaves a policy. */
  datatype RobotsRead = ReadRaised(message: string) | ReadOk(policy: RobotsPolicy)

  datatype World = World(
    /** `session.get(url)` with the crawler's headers. */
    get: string -> Response,
    /** `urllib.request.urlopen(url)`, as `RobotFileParser.read` calls it, after redirects. */
    urlopen: string -> Response,
    /** `RobotFileParser` rule matching: rules text, user agent, URL. */
    rulesAllow: (string, string, string) -> bool,
    /** `urljoin(base, url)`. */
    urljoin: (string, string) -> string,
    /** The `href` of every `<a href=...>` that BeautifulSoup finds in an HTML body, in order. */
    anchors: string -> seq<string>,
    /** `ElementTree.fromstring`. */
    parseXml: string -> XmlDoc,
    /** How many sitemap indexes deep `_parse_sitemap` can recurse before the interpreter's
        recursion limit stops it. */
    stackDepth: nat)

  /** `RobotFileParser.read()` on `robotsUrl`. */
  function ReadRobots(w: World, robotsUrl: string): RobotsRead
  {
    match w.urlopen(robotsUrl)
    case Raised(m) => ReadRaised(m)
    case Reply(status, body) =>
      if 200 <= status < 300 then ReadOk(Rules(body))
      else if status == 401 || status == 403 then ReadOk(DisallowAll)
      else if 400 <= status < 500 then ReadOk(AllowAll)
      else ReadOk(Unparsed)
  }

  /** `RobotFileParser.can_fetch(agent, url)` on a policy. */
  predicate CanFetch(w: World, policy: RobotsPolicy, agent: string, url: string)
  {
    match policy
    case DisallowAll => false
    case AllowAll => true
    case Unparsed => false
    case Rules(text) => w.rulesAllow(text, agent, url)
  }
}
