/** The handful of Python `str` operations the crawler, the SEO rules and the helpers rely on,
    written out over `string` (a sequence of Unicode scalar values, as Python's `str` is). */
module PyText {

  /** `str.lower()` restricted to ASCII: 'A'..'Z' become 'a'..'z', every other character is kept. */
  function LowerChar(c: char): (r: char)
    ensures ('A' <= c <= 'Z') == (r != c)
    ensures 'A' <= r <= 'Z' ==> false
  {
    if 'A' <= c <= 'Z' then (c as int + 32) as char else c
  }

  function Lower(s: string): (r: string)
    ensures |r| == |s|
    ensures forall i :: 0 <= i < |s| ==> r[i] == LowerChar(s[i])
  {
    seq(|s|, i requires 0 <= i < |s| => LowerChar(s[i]))
  }

  /** The characters for which Python's `str.isspace()` holds, i.e. those `str.strip()` removes. */
  predicate IsSpace(c: char)
  {
    || ('\t' <= c <= '\r')          // tab, line feed, vertical tab, form feed, carriage return
    || ('\U{1C}' <= c <= '\U{1F}')  // file, group, record and unit separators
    || c == ' ' || c == '\U{85}' || c == '\U{A0}' || c == '\U{1680}'
    || ('\U{2000}' <= c <= '\U{200A}')
    || c == '\U{2028}' || c == '\U{2029}' || c == '\U{202F}' || c == '\U{205F}' || c == '\U{3000}'
  }

  /** `s.lstrip()`: drops the leading whitespace, nothing else. */
  function LStrip(s: string): (r: string)
    ensures |r| <= |s| && r == s[|s| - |r|..]
    ensures r == [] || !IsSpace(r[0])
    ensures forall i :: 0 <= i < |s| - |r| ==> IsSpace(s[i])
  {
    if s != [] && IsSpace(s[0]) then LStrip(s[1..]) else s
  }

  /** `s.rstrip()`: drops the trailing whitespace, nothing else. */
  function RStrip(s: string): (r: string)
    ensures |r| <= |s| && r == s[..|r|]
    ensures r == [] || !IsSpace(r[|r| - 1])
    ensures forall i :: |r| <= i < |s| ==> IsSpace(s[i])
  {
    if s != [] && IsSpace(s[|s| - 1]) then RStrip(s[..|s| - 1]) else s
  }

  /** `s.strip()`. */
  function Strip(s: string): (r: string)
    ensures r == [] || (!IsSpace(r[0]) && !IsSpace(r[|r| - 1]))
    ensures exists i :: OccursAt(s, r, i)
  {
    var l := LStrip(s);
    var r := RStrip(l);
    assert OccursAt(s, r, |s| - |l|);
    r
  }

  /** A string with no whitespace at either end is its own `strip()`. */
  lemma StripOfStripped(s: string)
    requires s == [] || (!IsSpace(s[0]) && !IsSpace(s[|s| - 1]))
    ensures Strip(s) == s
  {
  }

  /** `strip()` is idempotent. */
  lemma StripIdempotent(s: string)
    ensures Strip(Strip(s)) == Strip(s)
  {
    StripOfStripped(Strip(s));
  }

  /** `s.startswith(p)`. */
  predicate StartsWith(s: string, p: string)
  {
    |p| <= |s| && s[..|p|] == p
  }

  /** `k in s` for strings: `k` occurs in `s` as a contiguous substring. */
  predicate Contains(s: string, k: string)
    decreases |s|
  {
    StartsWith(s, k) || (s != [] && Contains(s[1..], k))
  }

  /** `k` occurs in `s` starting at index `i`. */
  predicate OccursAt(s: string, k: string, i: int)
  {
    0 <= i <= |s| - |k| && s[i..i + |k|] == k
  }

  /** `Contains` agrees with the positional reading of substring search. */
  lemma {:induction false} ContainsAt(s: string, k: string)
    ensures Contains(s, k) <==> exists i :: OccursAt(s, k, i)
    decreases |s|
  {
    if StartsWith(s, k) {
      assert OccursAt(s, k, 0);
    } else if s != [] {
      ContainsAt(s[1..], k);
      if Contains(s[1..], k) {
        var i :| OccursAt(s[1..], k, i);
        OccursInTail(s, k, i + 1);
      }
      if exists i :: OccursAt(s, k, i) {
        var i :| OccursAt(s, k, i);
        assert i != 0;
        OccursInTail(s, k, i);
      }
    }
  }

  /** An occurrence behind the first character is one in the tail, one index earlier. */
  lemma OccursInTail(s: string, k: string, i: int)
    requires s != [] && 0 < i
    ensures OccursAt(s, k, i) <==> OccursAt(s[1..], k, i - 1)
  {
    if i <= |s| - |k| {
      assert s[1..][i - 1..i - 1 + |k|] == s[i..i + |k|];
    }
  }

  /** An occurrence of `k` covers only characters of `k`. */
  lemma OccurrenceAvoids(s: string, k: string, i: int, c: char)
    requires OccursAt(s, k, i) && c !in k
    ensures forall j :: i <= j < i + |k| ==> s[j] != c
  {
    forall j | i <= j < i + |k|
      ensures s[j] != c
    {
      assert s[j] == s[i..i + |k|][j - i];
    }
  }

  /** A substring that avoids some character `c` cannot straddle an occurrence of `c`. */
  lemma ContainsAcross(a: string, c: char, b: string, k: string)
    requires c !in k
    ensures Contains(a + [c] + b, k) <==> Contains(a, k) || Contains(b, k)
  {
    var s := a + [c] + b;
    if Contains(s, k) {
      ContainsSplit(a, c, b, k);
    }
    if Contains(a, k) {
      ContainsInLeft(a, [c] + b, k);
      assert a + ([c] + b) == s;
    }
    if Contains(b, k) {
      ContainsInRight(a + [c], b, k);
    }
  }

  /** An occurrence in `a + [c] + b` of a string without `c` lies in `a` or in `b`. */
  lemma ContainsSplit(a: string, c: char, b: string, k: string)
    requires c !in k && Contains(a + [c] + b, k)
    ensures Contains(a, k) || Contains(b, k)
  {
    var s := a + [c] + b;
    ContainsAt(s, k);
    var i :| OccursAt(s, k, i);
    OccurrenceAvoids(s, k, i, c);
    assert s[|a|] == c;
    if i + |k| <= |a| {
      assert s[i..i + |k|] == a[i..i + |k|];
      assert OccursAt(a, k, i);
      ContainsAt(a, k);
    } else {
      assert s[i..i + |k|] == b[i - |a| - 1..i - |a| - 1 + |k|];
      assert OccursAt(b, k, i - |a| - 1);
      ContainsAt(b, k);
    }
  }

  /** What `x` contains, `x + y` contains. */
  lemma ContainsInLeft(x: string, y: string, k: string)
    requires Contains(x, k)
    ensures Contains(x + y, k)
  {
    ContainsAt(x, k);
    var i :| OccursAt(x, k, i);
    assert (x + y)[i..i + |k|] == x[i..i + |k|];
    assert OccursAt(x + y, k, i);
    ContainsAt(x + y, k);
  }

  /** What `y` contains, `x + y` contains. */
  lemma ContainsInRight(x: string, y: string, k: string)
    requires Contains(y, k)
    ensures Contains(x + y, k)
  {
    ContainsAt(y, k);
    var i :| OccursAt(y, k, i);
    assert (x + y)[|x| + i..|x| + i + |k|] == y[i..i + |k|];
    assert OccursAt(x + y, k, |x| + i);
    ContainsAt(x + y, k);
  }

  /** `s.find(c)` for one character, except that "not found" is `|s|` rather than -1. */
  function IndexOf(s: string, c: char): (i: nat)
    ensures i <= |s|
    ensures i < |s| ==> s[i] == c
    ensures c !in s[..i]
    ensures i == |s| <==> c !in s
  {
    if s == [] then 0
    else if s[0] == c then 0
    else 1 + IndexOf(s[1..], c)
  }

  /** `s.split(sep)` for a one-character separator. */
  function Split(s: string, sep: char): (parts: seq<string>)
    ensures |parts| >= 1
    ensures forall i :: 0 <= i < |parts| ==> sep !in parts[i]
    decreases |s|
  {
    var i := IndexOf(s, sep);
    if i == |s| then [s] else [s[..i]] + Split(s[i + 1..], sep)
  }

  /** The decimal digits of `n`, as `str(n)` writes a non-negative int. */
  function NatToString(n: nat): (r: string)
    ensures |r| >= 1
    ensures forall i :: 0 <= i < |r| ==> '0' <= r[i] <= '9'
  {
    var d := ['0' + (n % 10) as char];
    if n < 10 then d else NatToString(n / 10) + d
  }

  /** `str(i)` for an int: a leading '-' for negatives. */
  function IntToString(i: int): (r: string)
    ensures |r| >= 1
    ensures forall j :: 0 <= j < |r| ==> r[j] == '-' || '0' <= r[j] <= '9'
  {
    if i < 0 then "-" + NatToString(-i) else NatToString(i)
  }
}
