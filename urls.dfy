/** `urllib.parse.urlparse` / `urlunparse` as the crawler uses them: a URL string is split into a
    six-field record and re-assembled from one.  The algorithm is CPython's (3.12 line): strip
    leading C0 controls and spaces, drop tab/CR/LF, take off a scheme, an authority ("netloc"),
    a fragment, a query and, for the schemes that use them, `;` parameters. */
module Urls {
  import opened PyText

  /** The 6-tuple `urlparse` returns. */
  datatype ParsedUrl = ParsedUrl(scheme: string, netloc: string, path: string,
                                 params: string, query: string, fragment: string)

  /** `urllib.parse.uses_netloc`: schemes whose URLs are written with `//` even when the authority is empty. */
  const UsesNetloc: set<string> :=
    {"", "ftp", "http", "gopher", "nntp", "telnet", "imap", "wais", "file", "mms", "https", "shttp",
     "snews", "prospero", "rtsp", "rtsps", "rtspu", "rsync", "svn", "svn+ssh", "sftp", "nfs", "git",
     "git+ssh", "ws", "wss", "itms-services"}

  /** `urllib.parse.uses_params`: schemes whose last path segment may carry `;` parameters. */
  const UsesParams: set<string> :=
    {"", "ftp", "hdl", "prospero", "http", "imap", "https", "shttp", "rtsp", "rtsps", "rtspu",
     "sip", "sips", "mms", "sftp", "tel"}

  /** The characters `urlsplit` strips from the front of a URL (C0 controls and space). */
  predicate IsC0OrSpace(c: char) { c <= ' ' }

  /** Tab, CR and LF, which `urlsplit` deletes wherever they occur. */
  predicate IsUnsafe(c: char) { c == '\t' || c == '\r' || c == '\n' }

  predicate IsAsciiAlpha(c: char) { 'a' <= c <= 'z' || 'A' <= c <= 'Z' }

  /** `urllib.parse.scheme_chars`. */
  predicate IsSchemeChar(c: char) { IsAsciiAlpha(c) || '0' <= c <= '9' || c == '+' || c == '-' || c == '.' }

  /** The characters that end an authority. */
  predicate IsNetlocDelim(c: char) { c == '/' || c == '?' || c == '#' }

  predicate Safe(s: string) { forall i :: 0 <= i < |s| ==> !IsUnsafe(s[i]) }

  function LStripC0(s: string): (r: string)
    ensures |r| <= |s| && r == s[|s| - |r|..]
    ensures r == [] || !IsC0OrSpace(r[0])
    ensures (s == [] || !IsC0OrSpace(s[0])) ==> r == s
  {
    if s != [] && IsC0OrSpace(s[0]) then LStripC0(s[1..]) else s
  }

  function RemoveUnsafe(s: string): (r: string)
    ensures Safe(r)
    ensures s != [] && !IsUnsafe(s[0]) ==> r != [] && r[0] == s[0]
  {
    if s == [] then [] else (if IsUnsafe(s[0]) then [] else [s[0]]) + RemoveUnsafe(s[1..])
  }

  /** A string without tab, CR or LF is left as it is. */
  lemma {:induction false} RemoveUnsafeOfSafe(s: string)
    requires Safe(s)
    ensures RemoveUnsafe(s) == s
    decreases |s|
  {
    if s != [] {
      assert Safe(s[1..]) by { forall i | 0 <= i < |s| - 1 ensures !IsUnsafe(s[1..][i]) { assert s[1..][i] == s[i + 1]; } }
      RemoveUnsafeOfSafe(s[1..]);
      assert [s[0]] + s[1..] == s;
    }
  }

  /** The test `urlsplit` applies before it takes a scheme off: the first ':' is at some i > 0,
      the first character is an ASCII letter and all characters before the ':' are scheme characters. */
  predicate HasScheme(u: string)
  {
    var i := IndexOf(u, ':');
    0 < i < |u| && IsAsciiAlpha(u[0]) && forall j :: 0 <= j < i ==> IsSchemeChar(u[j])
  }

  /** First step of `urlsplit`: the lower-cased scheme and what follows its ':'. */
  function SplitScheme(u: string): (string, string)
  {
    if HasScheme(u) then
      var i := IndexOf(u, ':');
      (Lower(u[..i]), u[i + 1..])
    else ("", u)
  }

  /** Index of the first '/', '?' or '#' (the `min` of the three `find`s of `_splitnetloc`), or |s|. */
  function NetlocEnd(s: string): (i: nat)
    ensures i <= |s| && (i < |s| ==> IsNetlocDelim(s[i]))
    ensures forall j :: 0 <= j < i ==> !IsNetlocDelim(s[j])
  {
    if s == [] || IsNetlocDelim(s[0]) then 0 else 1 + NetlocEnd(s[1..])
  }

  /** Second step of `urlsplit`: after a leading "//", the authority runs up to the next delimiter. */
  function SplitAuthority(rest: string): (string, string)
  {
    if StartsWith(rest, "//") then
      var e := NetlocEnd(rest[2..]);
      (rest[2..2 + e], rest[2 + e..])
    else ("", rest)
  }

  /** `a.split(c, 1)` read as a pair: the text before the first `c`, and the text after it (empty
      when there is no `c`). */
  function CutAt(a: string, c: char): (string, string)
  {
    var i := IndexOf(a, c);
    (a[..i], if i < |a| then a[i + 1..] else "")
  }

  /** Last steps of `urlsplit`: `split('#', 1)`, then `split('?', 1)`; gives path, query, fragment. */
  function SplitTail(a: string): (string, string, string)
  {
    var (b, fragment) := CutAt(a, '#');
    var (path, query) := CutAt(b, '?');
    (path, query, fragment)
  }

  /** `urllib.parse.urlsplit(url)`. */
  function UrlSplit(url: string): (string, string, string, string, string)
  {
    var u := RemoveUnsafe(LStripC0(url));
    var (scheme, rest) := SplitScheme(u);
    var (netloc, after) := SplitAuthority(rest);
    var (path, query, fragment) := SplitTail(after);
    (scheme, netloc, path, query, fragment)
  }

  function LastIndexOf(s: string, c: char): (i: nat)
    requires c in s
    ensures i < |s| && s[i] == c && c !in s[i + 1..]
  {
    if s[|s| - 1] == c then |s| - 1 else LastIndexOf(s[..|s| - 1], c)
  }

  /** `_splitparams`: parameters start at the first ';' after the last '/' (or the first ';' when there is no '/'). */
  function SplitParams(url: string): (string, string)
    requires ';' in url
  {
    if '/' in url then
      var j := LastIndexOf(url, '/');
      var k := IndexOf(url[j..], ';');
      if k == |url| - j then (url, "") else (url[..j + k], url[j + k + 1..])
    else
      var i := IndexOf(url, ';');
      (url[..i], url[i + 1..])
  }

  /** `urllib.parse.urlparse(url)`. */
  function UrlParse(url: string): (p: ParsedUrl)
  {
    var (scheme, netloc, path, query, fragment) := UrlSplit(url);
    WithParams(scheme, netloc, path, query, fragment)
  }

  /** The step `urlparse` adds to `urlsplit`: for the schemes that use them, ";params" leave the path. */
  function WithParams(scheme: string, netloc: string, path: string, query: string, fragment: string): ParsedUrl
  {
    if scheme in UsesParams && ';' in path then
      var (path', params) := SplitParams(path);
      ParsedUrl(scheme, netloc, path', params, query, fragment)
    else
      ParsedUrl(scheme, netloc, path, "", query, fragment)
  }

  /** The path with its parameters put back, as `urlunparse` does before calling `urlunsplit`. */
  function JoinParams(path: string, params: string): string
  {
    if params != "" then path + ";" + params else path
  }

  /** The "//authority" part `urlunsplit` writes in front of the path. */
  function Authority(scheme: string, netloc: string, url: string): string
  {
    if netloc != "" then "//" + netloc + (if url != "" && url[0] != '/' then "/" + url else url)
    else if StartsWith(url, "//") then "//" + url
    else if scheme != "" && scheme in UsesNetloc && (url == "" || url[0] == '/') then "//" + url
    else url
  }

  /** `?query` and `#fragment`, each written only when non-empty. */
  function Tail(query: string, fragment: string): string
  {
    (if query != "" then "?" + query else "") + (if fragment != "" then "#" + fragment else "")
  }

  /** `urllib.parse.urlunsplit`. */
  function UrlUnsplit(scheme: string, netloc: string, url: string, query: string, fragment: string): string
  {
    (if scheme != "" then scheme + ":" else "") + Authority(scheme, netloc, url) + Tail(query, fragment)
  }

  /** `urllib.parse.urlunparse`. */
  function UrlUnparse(p: ParsedUrl): string
  {
    UrlUnsplit(p.scheme, p.netloc, JoinParams(p.path, p.params), p.query, p.fragment)
  }

  /** What every record `urlparse` produces satisfies; `urlparse` inverts `urlunparse` on exactly these. */
  predicate WellFormed(p: ParsedUrl)
  {
    var pp := JoinParams(p.path, p.params);
    && Safe(p.scheme) && Safe(p.netloc) && Safe(pp) && Safe(p.query) && Safe(p.fragment)
    && (forall i :: 0 <= i < |p.scheme| ==> IsSchemeChar(p.scheme[i]) && !('A' <= p.scheme[i] <= 'Z'))
    && (p.scheme != "" ==> IsAsciiAlpha(p.scheme[0]))
    && (forall i :: 0 <= i < |p.netloc| ==> !IsNetlocDelim(p.netloc[i]))
    && '?' !in pp && '#' !in pp && '#' !in p.query
    && (p.netloc != "" ==> pp == "" || pp[0] == '/')
    && (if p.scheme in UsesParams && ';' in pp then SplitParams(pp) == (p.path, p.params) else p.params == "")
    && (p.scheme == "" && p.netloc == "" ==> !HasScheme(pp) && (pp == "" || !IsC0OrSpace(pp[0])))
  }

  // ---- urlparse inverts urlunparse on well-formed records ----

  lemma {:induction false} IndexOfAppend(x: string, y: string, c: char)
    ensures IndexOf(x + y, c) == if c in x then IndexOf(x, c) else |x| + IndexOf(y, c)
    decreases |x|
  {
    if x != [] {
      assert (x + y)[1..] == x[1..] + y;
      IndexOfAppend(x[1..], y, c);
    } else {
      assert x + y == y;
    }
  }

  /** Appending text that starts with neither a scheme character nor ':' cannot create or destroy a scheme. */
  lemma HasSchemeExtend(x: string, y: string)
    requires y == [] || (!IsSchemeChar(y[0]) && y[0] != ':')
    ensures HasScheme(x + y) == HasScheme(x)
  {
    IndexOfAppend(x, y, ':');
    var s := x + y;
    if ':' in x {
      var i := IndexOf(x, ':');
      assert IndexOf(s, ':') == i < |x|;
      assert forall j :: 0 <= j <= i ==> s[j] == x[j];
    } else if y == [] {
      assert s == x;
    } else {
      assert IndexOf(y, ':') > 0;
      assert IndexOf(s, ':') > |x|;
      assert s[|x|] == y[0];
      assert !HasScheme(s);
    }
  }

  lemma LowerOfLower(s: string)
    requires forall i :: 0 <= i < |s| ==> !('A' <= s[i] <= 'Z')
    ensures Lower(s) == s
  {
  }

  lemma SafeConcat(a: string, b: string)
    requires Safe(a) && Safe(b)
    ensures Safe(a + b)
  {
    forall i | 0 <= i < |a + b|
      ensures !IsUnsafe((a + b)[i])
    {
      if i >= |a| { assert (a + b)[i] == b[i - |a|]; }
    }
  }

  /** Cutting at `c` finds the `c` written after a text without one, if any. */
  lemma CutAtOf(x: string, c: char, y: string)
    requires c !in x
    ensures CutAt(x + (if y != "" then [c] + y else ""), c) == (x, y)
  {
    var ys := if y != "" then [c] + y else "";
    IndexOfAppend(x, ys, c);
    var a := x + ys;
    assert a[..|x|] == x;
    if y != "" {
      assert a[|x|] == c;
      assert a[|x| + 1..] == y;
    } else {
      assert a == x;
    }
  }

  lemma SplitTailOf(pp: string, q: string, f: string)
    requires '?' !in pp && '#' !in pp && '#' !in q
    ensures SplitTail(pp + Tail(q, f)) == (pp, q, f)
  {
    var qs := if q != "" then ['?'] + q else "";
    var fs := if f != "" then ['#'] + f else "";
    var b := pp + qs;
    assert Tail(q, f) == qs + fs;
    assert pp + Tail(q, f) == b + fs;
    assert '#' !in qs;
    assert '#' !in b by {
      forall i | 0 <= i < |b| ensures b[i] != '#' {
        if i >= |pp| {
          assert b[i] == qs[i - |pp|];
        }
      }
    }
    CutAtOf(b, '#', f);
    CutAtOf(pp, '?', q);
  }

  /** What may follow the path: nothing, a query or a fragment. */
  predicate StartsTail(t: string) { t == [] || t[0] == '?' || t[0] == '#' }

  lemma SplitAuthorityOf(scheme: string, netloc: string, pp: string, t: string)
    requires forall i :: 0 <= i < |netloc| ==> !IsNetlocDelim(netloc[i])
    requires netloc != "" ==> pp == "" || pp[0] == '/'
    requires StartsTail(t)
    ensures SplitAuthority(Authority(scheme, netloc, pp) + t) == (netloc, pp + t)
  {
    var auth := Authority(scheme, netloc, pp);
    if netloc != "" {
      assert auth == "//" + netloc + pp;
      DelimStart(pp, t);
      SplitGivenAuthority(netloc, pp + t);
      Assoc("//", netloc, pp, t);
    } else if StartsWith(pp, "//") || (scheme != "" && scheme in UsesNetloc && (pp == "" || pp[0] == '/')) {
      assert auth == "//" + pp;
      DelimStart(pp, t);
      SplitGivenAuthority("", pp + t);
      Assoc("//", "", pp, t);
      assert "//" + "" == "//";
    } else {
      assert auth == pp;
      SplitNoAuthority(pp, t);
    }
  }

  /** A path that is empty or starts with '/', followed by a query or fragment, starts with a delimiter. */
  lemma DelimStart(pp: string, t: string)
    requires pp == "" || pp[0] == '/'
    requires StartsTail(t)
    ensures pp + t == [] || IsNetlocDelim((pp + t)[0])
  {
    if pp != "" {
      assert (pp + t)[0] == pp[0];
    } else {
      assert pp + t == t;
    }
  }

  lemma Assoc(a: string, b: string, c: string, d: string)
    ensures a + b + c + d == a + b + (c + d)
  {
  }

  lemma SplitGivenAuthority(netloc: string, r: string)
    requires forall i :: 0 <= i < |netloc| ==> !IsNetlocDelim(netloc[i])
    requires r == [] || IsNetlocDelim(r[0])
    ensures SplitAuthority("//" + netloc + r) == (netloc, r)
  {
    var rest := "//" + netloc + r;
    assert StartsWith(rest, "//");
    assert rest[2..] == netloc + r;
    NetlocEndAt(netloc, r);
    assert rest[2..2 + |netloc|] == netloc;
    assert rest[2 + |netloc|..] == r;
  }

  lemma SplitNoAuthority(pp: string, t: string)
    requires !StartsWith(pp, "//") && StartsTail(t)
    ensures SplitAuthority(pp + t) == ("", pp + t)
  {
    var rest := pp + t;
    if |pp| >= 2 {
      assert rest[..2] == pp[..2];
    } else if |pp| == 1 && t != [] {
      assert rest[1] == t[0];
    } else if t != [] {
      assert rest[0] == t[0];
    }
    assert !StartsWith(rest, "//");
  }

  lemma {:induction false} NetlocEndAt(n: string, r: string)
    requires forall i :: 0 <= i < |n| ==> !IsNetlocDelim(n[i])
    requires r == [] || IsNetlocDelim(r[0])
    ensures NetlocEnd(n + r) == |n|
    decreases |n|
  {
    if n != [] {
      assert (n + r)[1..] == n[1..] + r;
      NetlocEndAt(n[1..], r);
    } else {
      assert n + r == r;
    }
  }

  lemma SplitSchemeOf(scheme: string, x: string)
    requires forall i :: 0 <= i < |scheme| ==> IsSchemeChar(scheme[i]) && !('A' <= scheme[i] <= 'Z')
    requires scheme != "" ==> IsAsciiAlpha(scheme[0])
    requires scheme == "" ==> !HasScheme(x)
    ensures SplitScheme((if scheme != "" then scheme + ":" else "") + x) == (scheme, x)
  {
    if scheme != "" {
      var u := scheme + ":" + x;
      assert u == scheme + (":" + x);
      IndexOfAppend(scheme, ":" + x, ':');
      assert IndexOf(u, ':') == |scheme|;
      assert u[..|scheme|] == scheme;
      assert HasScheme(u);
      LowerOfLower(scheme);
      assert u[|scheme| + 1..] == x;
    } else {
      assert "" + x == x;
    }
  }

  /** The pieces `urlunsplit` writes are free of tab, CR and LF when its arguments are. */
  lemma SafeUnsplit(scheme: string, netloc: string, pp: string, q: string, f: string)
    requires Safe(scheme) && Safe(netloc) && Safe(pp) && Safe(q) && Safe(f)
    ensures Safe(Authority(scheme, netloc, pp)) && Safe(Tail(q, f))
    ensures Safe(UrlUnsplit(scheme, netloc, pp, q, f))
  {
    var auth := Authority(scheme, netloc, pp);
    var t := Tail(q, f);
    SafeConcat("/", pp);
    SafeConcat("//", netloc);
    SafeConcat("//" + netloc, if pp != "" && pp[0] != '/' then "/" + pp else pp);
    SafeConcat("//", pp);
    assert Safe(auth);
    SafeConcat("?", q);
    SafeConcat("#", f);
    SafeConcat(if q != "" then "?" + q else "", if f != "" then "#" + f else "");
    assert Safe(t);
    SafeConcat(scheme, ":");
    var head := if scheme != "" then scheme + ":" else "";
    SafeConcat(head, auth);
    SafeConcat(head + auth, t);
  }

  /** The text `urlunsplit` writes is left alone by the cleaning `urlsplit` starts with. */
  lemma UnsplitIsClean(scheme: string, netloc: string, pp: string, q: string, f: string)
    requires Safe(scheme) && Safe(netloc) && Safe(pp) && Safe(q) && Safe(f)
    requires scheme != "" ==> IsAsciiAlpha(scheme[0])
    requires scheme == "" && netloc == "" ==> pp == "" || !IsC0OrSpace(pp[0])
    ensures var s := UrlUnsplit(scheme, netloc, pp, q, f); RemoveUnsafe(LStripC0(s)) == s
  {
    var s := UrlUnsplit(scheme, netloc, pp, q, f);
    var auth := Authority(scheme, netloc, pp);
    var t := Tail(q, f);
    var head := if scheme != "" then scheme + ":" else "";
    assert s == head + auth + t;
    SafeUnsplit(scheme, netloc, pp, q, f);
    if scheme != "" {
      assert s[0] == scheme[0];
    } else if auth != pp {
      assert auth[0] == '/';
      assert s[0] == '/';
    } else if pp != "" {
      assert s[0] == pp[0];
    } else if s != "" {
      assert s == t;
      assert s[0] == '?' || s[0] == '#';
    }
    RemoveUnsafeOfSafe(s);
  }

  /** Without a scheme, what `urlunsplit` writes does not look as if it started with one. */
  lemma NoSchemeWritten(netloc: string, pp: string, q: string, f: string)
    requires netloc == "" ==> !HasScheme(pp)
    ensures !HasScheme(Authority("", netloc, pp) + Tail(q, f))
  {
    var auth := Authority("", netloc, pp);
    var t := Tail(q, f);
    if auth != pp {
      assert auth[0] == '/';
      assert (auth + t)[0] == '/';
    } else {
      assert t == [] || t[0] == '?' || t[0] == '#';
      HasSchemeExtend(pp, t);
    }
  }

  /** `urlsplit` inverts `urlunsplit` on components of the shapes `urlsplit` produces. */
  lemma SplitOfUnsplit(scheme: string, netloc: string, pp: string, q: string, f: string)
    requires Safe(scheme) && Safe(netloc) && Safe(pp) && Safe(q) && Safe(f)
    requires forall i :: 0 <= i < |scheme| ==> IsSchemeChar(scheme[i]) && !('A' <= scheme[i] <= 'Z')
    requires scheme != "" ==> IsAsciiAlpha(scheme[0])
    requires forall i :: 0 <= i < |netloc| ==> !IsNetlocDelim(netloc[i])
    requires '?' !in pp && '#' !in pp && '#' !in q
    requires netloc != "" ==> pp == "" || pp[0] == '/'
    requires scheme == "" && netloc == "" ==> !HasScheme(pp) && (pp == "" || !IsC0OrSpace(pp[0]))
    ensures UrlSplit(UrlUnsplit(scheme, netloc, pp, q, f)) == (scheme, netloc, pp, q, f)
  {
    var auth := Authority(scheme, netloc, pp);
    var t := Tail(q, f);
    var s := UrlUnsplit(scheme, netloc, pp, q, f);
    assert s == (if scheme != "" then scheme + ":" else "") + (auth + t);
    UnsplitIsClean(scheme, netloc, pp, q, f);
    if scheme == "" {
      NoSchemeWritten(netloc, pp, q, f);
    }
    SplitSchemeOf(scheme, auth + t);
    assert SplitScheme(s) == (scheme, auth + t);
    assert StartsTail(t);
    SplitAuthorityOf(scheme, netloc, pp, t);
    assert SplitAuthority(auth + t) == (netloc, pp + t);
    SplitTailOf(pp, q, f);
  }

  /** `urlparse` inverts `urlunparse` on every well-formed record. */
  lemma ParseUnparse(p: ParsedUrl)
    requires WellFormed(p)
    ensures UrlParse(UrlUnparse(p)) == p
  {
    SplitOfUnsplit(p.scheme, p.netloc, JoinParams(p.path, p.params), p.query, p.fragment);
  }

  // ---- every record urlparse produces is well-formed ----

  lemma CleanedText(url: string)
    ensures var u := RemoveUnsafe(LStripC0(url)); Safe(u) && (u == [] || !IsC0OrSpace(u[0]))
  {
    var l := LStripC0(url);
    if l != [] {
      assert !IsUnsafe(l[0]);
    }
  }

  lemma SchemeParts(u: string)
    requires Safe(u)
    ensures var (scheme, rest) := SplitScheme(u);
      && Safe(scheme) && Safe(rest)
      && (forall i :: 0 <= i < |scheme| ==> IsSchemeChar(scheme[i]) && !('A' <= scheme[i] <= 'Z'))
      && (scheme != "" ==> IsAsciiAlpha(scheme[0]))
      && (scheme == "" ==> rest == u && !HasScheme(u))
  {
    if HasScheme(u) {
      var i := IndexOf(u, ':');
      var scheme := Lower(u[..i]);
      assert forall j :: 0 <= j < |scheme| ==> scheme[j] == LowerChar(u[j]);
    }
  }

  lemma AuthorityParts(rest: string)
    requires Safe(rest)
    ensures var (netloc, after) := SplitAuthority(rest);
      && Safe(netloc) && Safe(after)
      && (forall i :: 0 <= i < |netloc| ==> !IsNetlocDelim(netloc[i]))
      && (StartsWith(rest, "//") ==> after == [] || IsNetlocDelim(after[0]))
      && (!StartsWith(rest, "//") ==> netloc == "" && after == rest)
  {
    if StartsWith(rest, "//") {
      var e := NetlocEnd(rest[2..]);
      assert rest[2..][..e] == rest[2..2 + e];
      assert rest[2 + e..] == rest[2..][e..];
    }
  }

  lemma TailParts(a: string)
    requires Safe(a)
    ensures var (path, query, fragment) := SplitTail(a);
      && Safe(path) && Safe(query) && Safe(fragment)
      && '?' !in path && '#' !in path && '#' !in query
      && |path| <= |a| && path == a[..|path|] && StartsTail(a[|path|..])
  {
    var h := IndexOf(a, '#');
    var b := a[..h];
    assert CutAt(a, '#').0 == b;
    var q := IndexOf(b, '?');
    assert SplitTail(a).0 == b[..q];
    assert b[..q] == a[..q];
    if q < |b| {
      assert a[q] == '?';
    } else if h < |a| {
      assert a[q] == '#';
    }
  }

  lemma {:induction false} LastIndexOfIs(s: string, c: char, i: nat)
    requires i < |s| && s[i] == c && c !in s[i + 1..]
    ensures LastIndexOf(s, c) == i
    decreases |s|
  {
    if s[|s| - 1] != c {
      assert i < |s| - 1;
      assert s[..|s| - 1][i + 1..] == s[i + 1..|s| - 1];
      LastIndexOfIs(s[..|s| - 1], c, i);
    }
  }

  /** When the parameters found after the last '/' are empty, the path before the final ';' holds no
      further parameters of its own. */
  lemma ParamsAfterSlashStable(url: string)
    requires ';' in url && '/' in url
    ensures var (path, params) := SplitParams(url);
      params == "" && path != url ==> path + ";" == url && (';' in path ==> SplitParams(path) == (path, ""))
  {
    var (path, params) := SplitParams(url);
    var j := LastIndexOf(url, '/');
    var k := IndexOf(url[j..], ';');
    if params == "" && path != url {
      assert k < |url| - j && path == url[..j + k];
      assert j + k + 1 == |url|;
      SlashThenSemicolon(url, j, k);
      if ';' in path {
        NoParamsAfterSlash(path, j);
      }
    }
  }

  /** A URL that ends in ';' right after its last path segment re-joins from the part before it. */
  lemma SlashThenSemicolon(url: string, j: nat, k: nat)
    requires j < |url| && url[j] == '/' && '/' !in url[j + 1..]
    requires j + k + 1 == |url| && url[j + k] == ';' && ';' !in url[j..][..k]
    ensures var path := url[..j + k];
      path + ";" == url && j < |path| && path[j] == '/' && '/' !in path[j + 1..] && ';' !in path[j..]
  {
    var path := url[..j + k];
    assert k > 0;
    assert path[j + 1..] == url[j + 1..j + k];
    assert path[j..] == url[j..][..k];
  }

  /** A path whose last '/' has no ';' after it carries no parameters. */
  lemma NoParamsAfterSlash(path: string, j: nat)
    requires j < |path| && path[j] == '/' && '/' !in path[j + 1..] && ';' !in path[j..] && ';' in path
    ensures SplitParams(path) == (path, "")
  {
    LastIndexOfIs(path, '/', j);
    assert IndexOf(path[j..], ';') == |path| - j;
  }

  /** The parameters `_splitparams` takes off a path re-join to that path, or to that path less a
      final ';', and splitting them again gives the same pair. */
  lemma ParamsStable(url: string)
    requires ';' in url
    ensures var (path, params) := SplitParams(url);
      var pp := JoinParams(path, params);
      && (pp == url || pp + ";" == url)
      && (if ';' in pp then SplitParams(pp) == (path, params) else params == "")
  {
    if '/' in url {
      ParamsStableAfterSlash(url);
    } else {
      ParamsStableNoSlash(url);
    }
  }

  lemma ParamsStableAfterSlash(url: string)
    requires ';' in url && '/' in url
    ensures var (path, params) := SplitParams(url);
      var pp := JoinParams(path, params);
      && (pp == url || pp + ";" == url)
      && (if ';' in pp then SplitParams(pp) == (path, params) else params == "")
  {
    var (path, params) := SplitParams(url);
    ParamsAfterSlashStable(url);
    var j := LastIndexOf(url, '/');
    var k := IndexOf(url[j..], ';');
    if params != "" {
      assert k < |url| - j && url[j + k] == ';';
      assert path + ";" + params == url;
    }
  }

  lemma ParamsStableNoSlash(url: string)
    requires ';' in url && '/' !in url
    ensures var (path, params) := SplitParams(url);
      var pp := JoinParams(path, params);
      && (pp == url || pp + ";" == url)
      && (if ';' in pp then SplitParams(pp) == (path, params) else params == "")
  {
    var (path, params) := SplitParams(url);
    var i := IndexOf(url, ';');
    assert path == url[..i] && params == url[i + 1..];
    if params != "" {
      assert path + ";" + params == url;
    } else {
      assert path + ";" == url;
    }
  }

  /** What `_splitparams` leaves behind: the path and parameters re-join to the path it was given,
      or to that path less a final ';', and splitting them again gives the same pair. */
  lemma ParamsParts(url: string)
    requires ';' in url && Safe(url) && '?' !in url && '#' !in url
    ensures var (path, params) := SplitParams(url);
      var pp := JoinParams(path, params);
      && Safe(pp) && '?' !in pp && '#' !in pp
      && (pp == url || pp + ";" == url)
      && (url[0] == '/' ==> pp != [] && pp[0] == '/')
      && (if ';' in pp then SplitParams(pp) == (path, params) else params == "")
  {
    ParamsStable(url);
    var (path, params) := SplitParams(url);
    var pp := JoinParams(path, params);
    if pp + ";" == url {
      PrefixFacts(pp, url);
    }
  }

  lemma PrefixFacts(pp: string, url: string)
    requires pp + ";" == url && Safe(url) && '?' !in url && '#' !in url
    ensures Safe(pp) && '?' !in pp && '#' !in pp
    ensures url[0] == '/' ==> pp != [] && pp[0] == '/'
  {
    assert pp == url[..|pp|];
    assert forall i :: 0 <= i < |pp| ==> pp[i] == url[i];
    if url[0] == '/' {
      assert url[|pp|] == ';';
      assert pp != [];
    }
  }

  /** The record built from split components that have the shapes `urlsplit` guarantees is well-formed. */
  lemma PartsWellFormed(scheme: string, netloc: string, path0: string, query: string, fragment: string, p: ParsedUrl)
    requires Safe(scheme) && Safe(netloc) && Safe(path0) && Safe(query) && Safe(fragment)
    requires forall i :: 0 <= i < |scheme| ==> IsSchemeChar(scheme[i]) && !('A' <= scheme[i] <= 'Z')
    requires scheme != "" ==> IsAsciiAlpha(scheme[0])
    requires forall i :: 0 <= i < |netloc| ==> !IsNetlocDelim(netloc[i])
    requires '?' !in path0 && '#' !in path0 && '#' !in query
    requires netloc != "" ==> path0 == "" || path0[0] == '/'
    requires scheme == "" && netloc == "" ==> !HasScheme(path0) && (path0 == "" || !IsC0OrSpace(path0[0]))
    requires p == WithParams(scheme, netloc, path0, query, fragment)
    ensures WellFormed(p)
  {
    if scheme in UsesParams && ';' in path0 {
      var (path, params) := SplitParams(path0);
      assert p == ParsedUrl(scheme, netloc, path, params, query, fragment);
      ParamsKeepShape(scheme, netloc, path0);
    } else {
      assert p == ParsedUrl(scheme, netloc, path0, "", query, fragment);
      assert JoinParams(p.path, p.params) == path0;
    }
  }

  /** Taking the parameters off a path keeps the facts about it that `urlunparse` relies on. */
  lemma ParamsKeepShape(scheme: string, netloc: string, path0: string)
    requires Safe(path0) && '?' !in path0 && '#' !in path0 && ';' in path0
    requires netloc != "" ==> path0 == "" || path0[0] == '/'
    requires scheme == "" && netloc == "" ==> !HasScheme(path0) && (path0 == "" || !IsC0OrSpace(path0[0]))
    ensures var (path, params) := SplitParams(path0);
      var pp := JoinParams(path, params);
      && Safe(pp) && '?' !in pp && '#' !in pp
      && (netloc != "" ==> pp == "" || pp[0] == '/')
      && (if ';' in pp then SplitParams(pp) == (path, params) else params == "")
      && (scheme == "" && netloc == "" ==> !HasScheme(pp) && (pp == "" || !IsC0OrSpace(pp[0])))
  {
    var (path, params) := SplitParams(path0);
    var pp := JoinParams(path, params);
    ParamsParts(path0);
    if pp != path0 {
      DropSemicolonShape(pp, path0);
    }
  }

  /** Dropping a final ';' changes neither the first character nor whether there is a scheme. */
  lemma DropSemicolonShape(pp: string, path0: string)
    requires pp + ";" == path0
    ensures HasScheme(pp) == HasScheme(path0)
    ensures pp != "" ==> pp[0] == path0[0]
  {
    HasSchemeExtend(pp, ";");
  }

  /** A path that starts with '/' has no scheme in front of it. */
  lemma SlashPathNoScheme(path: string)
    requires path != [] && path[0] == '/'
    ensures !HasScheme(path)
  {
    assert !IsAsciiAlpha(path[0]);
  }

  /** The path `urlsplit` returns after an authority is empty or starts with '/'. */
  lemma PathAfterAuthority(rest: string)
    requires Safe(rest) && StartsWith(rest, "//")
    ensures var (netloc, after) := SplitAuthority(rest);
      var path0 := SplitTail(after).0;
      path0 == "" || path0[0] == '/'
  {
    var (netloc, after) := SplitAuthority(rest);
    AuthorityParts(rest);
    TailParts(after);
    var path0 := SplitTail(after).0;
    if path0 != "" {
      assert path0[0] == after[0];
    }
  }

  /** Without a scheme or an authority, the path `urlsplit` returns neither looks like it starts
      with a scheme nor starts with a control character or a space. */
  lemma BarePath(u: string)
    requires Safe(u) && (u == [] || !IsC0OrSpace(u[0]))
    ensures var (scheme, rest) := SplitScheme(u);
      var (netloc, after) := SplitAuthority(rest);
      var path0 := SplitTail(after).0;
      scheme == "" && netloc == "" ==> !HasScheme(path0) && (path0 == "" || !IsC0OrSpace(path0[0]))
  {
    var (scheme, rest) := SplitScheme(u);
    SchemeParts(u);
    if scheme == "" {
      if StartsWith(rest, "//") {
        PathAfterAuthority(rest);
        var path0 := SplitTail(SplitAuthority(rest).1).0;
        if path0 != "" {
          SlashPathNoScheme(path0);
        }
      } else {
        assert SplitAuthority(rest) == ("", u);
        BarePathTail(u);
      }
    }
  }

  lemma BarePathTail(u: string)
    requires Safe(u) && (u == [] || !IsC0OrSpace(u[0])) && !HasScheme(u)
    ensures var path0 := SplitTail(u).0;
      !HasScheme(path0) && (path0 == "" || !IsC0OrSpace(path0[0]))
  {
    TailParts(u);
    var path0 := SplitTail(u).0;
    var t := u[|path0|..];
    assert u == path0 + t;
    assert t == [] || t[0] == '?' || t[0] == '#';
    HasSchemeExtend(path0, t);
    if path0 != "" {
      assert path0[0] == u[0];
    }
  }

  /** Every record `urlparse` returns is well-formed, so `urlunparse` followed by `urlparse` gives it back. */
  lemma ParseIsWellFormed(url: string)
    ensures WellFormed(UrlParse(url))
  {
    var u := RemoveUnsafe(LStripC0(url));
    CleanedText(url);
    var (scheme, rest) := SplitScheme(u);
    SchemeParts(u);
    var (netloc, after) := SplitAuthority(rest);
    AuthorityParts(rest);
    var (path0, query, fragment) := SplitTail(after);
    TailParts(after);
    BarePath(u);
    if StartsWith(rest, "//") {
      PathAfterAuthority(rest);
    }
    PartsWellFormed(scheme, netloc, path0, query, fragment, UrlParse(url));
  }

  /** Removing the fragment keeps a record well-formed. */
  lemma WithoutFragmentWellFormed(p: ParsedUrl)
    requires WellFormed(p)
    ensures WellFormed(p.(fragment := ""))
  {
  }

  /** Removing tab/CR/LF distributes over concatenation. */
  lemma {:induction false} RemoveUnsafeConcat(a: string, b: string)
    ensures RemoveUnsafe(a + b) == RemoveUnsafe(a) + RemoveUnsafe(b)
    decreases |a|
  {
    if a != [] {
      var h := if IsUnsafe(a[0]) then [] else [a[0]];
      assert (a + b)[0] == a[0];
      assert (a + b)[1..] == a[1..] + b;
      assert RemoveUnsafe(a + b) == h + RemoveUnsafe(a[1..] + b);
      RemoveUnsafeConcat(a[1..], b);
      assert RemoveUnsafe(a) == h + RemoveUnsafe(a[1..]);
      assert h + (RemoveUnsafe(a[1..]) + RemoveUnsafe(b)) == (h + RemoveUnsafe(a[1..])) + RemoveUnsafe(b);
    } else {
      assert a + b == b;
    }
  }

  /** Text that is already clean passes through the tab/CR/LF removal unchanged in front of the rest. */
  lemma RemoveUnsafeAppend(a: string, b: string)
    requires Safe(a)
    ensures RemoveUnsafe(a + b) == a + RemoveUnsafe(b)
  {
    RemoveUnsafeConcat(a, b);
    RemoveUnsafeOfSafe(a);
  }

  /** Behind a valid lower-case scheme and its ':', `urlsplit` splits what follows on its own. */
  lemma SplitBehindScheme(scheme: string, y: string)
    requires scheme != "" && IsAsciiAlpha(scheme[0])
    requires forall i :: 0 <= i < |scheme| ==> IsSchemeChar(scheme[i]) && !('A' <= scheme[i] <= 'Z')
    ensures var (netloc, after) := SplitAuthority(RemoveUnsafe(y));
      var (path, query, fragment) := SplitTail(after);
      UrlSplit(scheme + ":" + y) == (scheme, netloc, path, query, fragment)
  {
    var x := scheme + ":" + y;
    assert x[0] == scheme[0];
    assert LStripC0(x) == x;
    assert Safe(scheme + ":") by {
      forall i | 0 <= i < |scheme| + 1 ensures !IsUnsafe((scheme + ":")[i]) {
        if i < |scheme| {
          assert (scheme + ":")[i] == scheme[i];
        }
      }
    }
    RemoveUnsafeAppend(scheme + ":", y);
    var y' := RemoveUnsafe(y);
    SplitSchemeOf(scheme, y');
    assert (if scheme != "" then scheme + ":" else "") + y' == scheme + ":" + y';
  }

  /** Removing the fragment of a parse and writing the record back out is idempotent: parsing the
      written text gives the same record. */
  lemma ReparseWithoutFragment(url: string)
    ensures UrlParse(UrlUnparse(UrlParse(url).(fragment := ""))) == UrlParse(url).(fragment := "")
  {
    ParseIsWellFormed(url);
    WithoutFragmentWellFormed(UrlParse(url));
    ParseUnparse(UrlParse(url).(fragment := ""));
  }

  /** `urlparse` takes scheme, authority, query and fragment from `urlsplit` unchanged. */
  lemma ParseOfSplit(url: string)
    ensures var (scheme, netloc, _, query, fragment) := UrlSplit(url);
      var p := UrlParse(url);
      p.scheme == scheme && p.netloc == netloc && p.query == query && p.fragment == fragment
  {
  }

  /** "scheme://netloc" followed by a path that starts with '/' splits back into that scheme and
      that authority. */
  lemma SplitSchemeAuthority(scheme: string, netloc: string, path: string)
    requires scheme != "" && IsAsciiAlpha(scheme[0])
    requires forall i :: 0 <= i < |scheme| ==> IsSchemeChar(scheme[i]) && !('A' <= scheme[i] <= 'Z')
    requires Safe(netloc) && forall i :: 0 <= i < |netloc| ==> !IsNetlocDelim(netloc[i])
    requires path != [] && path[0] == '/'
    ensures UrlSplit(scheme + "://" + netloc + path).0 == scheme
    ensures UrlSplit(scheme + "://" + netloc + path).1 == netloc
  {
    Reassociate(scheme, netloc, path);
    SplitBehindScheme(scheme, "//" + netloc + path);
    AuthorityBeforePath(netloc, path);
  }

  /** Behind "//", a safe authority free of delimiters ends where a path starting with '/' begins. */
  lemma AuthorityBeforePath(netloc: string, path: string)
    requires Safe(netloc) && forall i :: 0 <= i < |netloc| ==> !IsNetlocDelim(netloc[i])
    requires path != [] && path[0] == '/'
    ensures SplitAuthority(RemoveUnsafe("//" + netloc + path)).0 == netloc
  {
    assert Safe("//" + netloc) by { SafeConcat("//", netloc); }
    RemoveUnsafeAppend("//" + netloc, path);
    var h := RemoveUnsafe(path);
    assert h != [] && h[0] == '/';
    SplitGivenAuthority(netloc, h);
  }

  lemma Reassociate(scheme: string, netloc: string, path: string)
    ensures scheme + "://" + netloc + path == scheme + ":" + ("//" + netloc + path)
  {
    assert "://" == ":" + "//";
  }

  /** The scheme and the authority `urlparse` returns have the shapes `urlunparse` relies on. */
  lemma ParsedSchemeNetloc(url: string)
    ensures var p := UrlParse(url);
      && (forall i :: 0 <= i < |p.scheme| ==> IsSchemeChar(p.scheme[i]) && !('A' <= p.scheme[i] <= 'Z'))
      && (p.scheme != "" ==> IsAsciiAlpha(p.scheme[0]))
      && Safe(p.netloc) && (forall i :: 0 <= i < |p.netloc| ==> !IsNetlocDelim(p.netloc[i]))
  {
    ParseIsWellFormed(url);
  }
}
