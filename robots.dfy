/** `SiteCrawler.check_robots_txt`: the answer robots.txt gives for a URL, and the per-domain
    cache of parsed robots.txt files that spares a second read of the same domain. */
module Robots {
  import opened Web
  import opened UrlNormalizer

  /** `cache` keeps every entry of `before`, unchanged. */
  predicate CacheExtends(cache: map<string, RobotsPolicy>, before: map<string, RobotsPolicy>)
  {
    forall d :: d in before ==> d in cache && cache[d] == before[d]
  }

  /** A cache that extends one that extends `before` extends `before`. */
  lemma CacheExtendsTrans(cache: map<string, RobotsPolicy>, middle: map<string, RobotsPolicy>,
                          before: map<string, RobotsPolicy>)
    requires CacheExtends(cache, middle) && CacheExtends(middle, before)
    ensures CacheExtends(cache, before)
  {
  }

  /** `f"{domain}/robots.txt"`. */
  function RobotsUrl(domain: string): string
  {
    domain + "/robots.txt"
  }

  /** Why `check_robots_txt` answers as it does; `ReasonText` is the message it returns. */
  datatype RobotsReason = CheckingDisabled | ReadFailed(error: string) | AllowedByPolicy | BlockedByPolicy

  /** The reason message of `check_robots_txt`. */
  function ReasonText(r: RobotsReason): string
  {
    match r
    case CheckingDisabled => "Robots.txt checking disabled"
    case ReadFailed(e) => "Could not read robots.txt: " + e
    case AllowedByPolicy => "Allowed by robots.txt"
    case BlockedByPolicy => "Blocked by robots.txt"
  }

  /** The message tells the reasons apart: two reasons with the same message are the same. */
  lemma ReasonTextInjective(r: RobotsReason, r': RobotsReason)
    ensures ReasonText(r) == ReasonText(r') ==> r == r'
  {
    if ReasonText(r) == ReasonText(r') {
      var t := ReasonText(r);
      match r
      case ReadFailed(e) =>
        var prefix := "Could not read robots.txt: ";
        assert t[0] == 'C' && |t| >= |prefix|;
        if r'.ReadFailed? {
          assert e == t[|prefix|..] == r'.error;
        }
      case CheckingDisabled =>
        assert t[0] == 'R' && |t| == 28;
      case AllowedByPolicy =>
        assert t[0] == 'A' && |t| == 21;
      case BlockedByPolicy =>
        assert t[0] == 'B' && |t| == 21;
    }
  }

  /** The (allowed, reason) pair `check_robots_txt(url)` answers, as one fresh read of the
      robots.txt of the URL's origin would give it. */
  function RobotsCheck(w: World, respect: bool, agent: string, url: string): (bool, RobotsReason)
  {
    if !respect then (true, CheckingDisabled)
    else match ReadRobots(w, RobotsUrl(Origin(url)))
      case ReadRaised(m) => (true, ReadFailed(m))
      case ReadOk(p) => if CanFetch(w, p, agent, url) then (true, AllowedByPolicy) else (false, BlockedByPolicy)
  }

  /** Only a policy that forbids the URL blocks it: robots.txt checking switched off, or a read
      that raises, allows everything; and a URL is refused exactly with the "blocked" message. */
  lemma RobotsCheckAnswers(w: World, respect: bool, agent: string, url: string)
    ensures var r := RobotsCheck(w, respect, agent, url);
      && (!respect ==> r == (true, CheckingDisabled))
      && (respect ==> match ReadRobots(w, RobotsUrl(Origin(url)))
            case ReadRaised(m) => r == (true, ReadFailed(m))
            case ReadOk(p) => r.0 == CanFetch(w, p, agent, url))
      && (!r.0 <==> ReasonText(r.1) == ReasonText(BlockedByPolicy))
  {
    var r := RobotsCheck(w, respect, agent, url);
    ReasonTextInjective(r.1, BlockedByPolicy);
  }

  /** The robots cache after `check_robots_txt` on a URL of origin `domain`. */
  function CacheAfter(w: World, respect: bool, cache: map<string, RobotsPolicy>, domain: string): map<string, RobotsPolicy>
  {
    if !respect || domain in cache then cache
    else match ReadRobots(w, RobotsUrl(domain))
      case ReadRaised(_) => cache
      case ReadOk(p) => cache[domain := p]
  }

  /** Only a successful read of a domain not yet cached adds an entry, the policy that read left;
      nothing is ever removed or replaced. */
  lemma CacheAfterEntries(w: World, respect: bool, cache: map<string, RobotsPolicy>, domain: string)
    ensures var r := CacheAfter(w, respect, cache, domain);
      && CacheExtends(r, cache)
      && (forall d :: d in r ==> d in cache || d == domain)
      && (domain in r && domain !in cache ==> respect && ReadRobots(w, RobotsUrl(domain)) == ReadOk(r[domain]))
      && (respect && ReadRobots(w, RobotsUrl(domain)).ReadOk? ==> domain in r)
  {
  }

  /** The domains whose robots.txt has been read, after `check_robots_txt` on a URL of origin
      `domain`: the domain is read exactly when robots are respected and it is not cached. */
  function ReadsAfter(respect: bool, cache: map<string, RobotsPolicy>, log: seq<string>, domain: string): (r: seq<string>)
    ensures r == log || r == log + [domain]
    ensures r != log <==> respect && domain !in cache
  {
    if !respect || domain in cache then log else log + [domain]
  }

  /** Every cached policy is what reading that domain's robots.txt gives; every domain read is
      cached unless its read raised; and a domain is read more than once only if its read raises. */
  ghost predicate RobotsValid(w: World, cache: map<string, RobotsPolicy>, log: seq<string>)
  {
    && (forall d :: d in cache ==> ReadRobots(w, RobotsUrl(d)) == ReadOk(cache[d]))
    && (forall i :: 0 <= i < |log| ==> log[i] in cache || ReadRobots(w, RobotsUrl(log[i])).ReadRaised?)
    && (forall i, j :: 0 <= i < j < |log| && log[i] == log[j] ==> ReadRobots(w, RobotsUrl(log[i])).ReadRaised?)
  }

  /** Reading the robots.txt of a domain not yet cached keeps the cache and the log valid. */
  lemma RobotsValidAfterRead(w: World, cache: map<string, RobotsPolicy>, log: seq<string>, domain: string)
    requires RobotsValid(w, cache, log) && domain !in cache
    ensures RobotsValid(w, CacheAfter(w, true, cache, domain), ReadsAfter(true, cache, log, domain))
  {
    var cache' := CacheAfter(w, true, cache, domain);
    CacheAfterEntries(w, true, cache, domain);
    var log' := log + [domain];
    forall i, j | 0 <= i < j < |log'| && log'[i] == log'[j]
      ensures ReadRobots(w, RobotsUrl(log'[i])).ReadRaised?
    {
      if j < |log| {
        assert log[i] == log'[i] && log[j] == log'[j];
      } else {
        assert log[i] == domain;
      }
    }
    forall i | 0 <= i < |log'|
      ensures log'[i] in cache' || ReadRobots(w, RobotsUrl(log'[i])).ReadRaised?
    {
      if i < |log| {
        assert log'[i] == log[i];
      }
    }
  }
}
