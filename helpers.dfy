/** The small helpers of `utils/helpers.py`: URL cleaning, text truncation, the SEO score and price
    extraction. */
module Helpers {
  import opened Wrappers
  import opened PyText
  import opened SeoAnalyzer

  // ---- `clean_url` ----

  /** The URL has one of the two schemes `clean_url` accepts. */
  predicate HasWebScheme(url: string)
  {
    StartsWith(url, "http://") || StartsWith(url, "https://")
  }

  /** Stripping a string keeps a prefix that starts and ends with a non-space character. */
  lemma StripKeepsPrefix(s: string, p: string)
    requires StartsWith(s, p) && p != [] && !IsSpace(p[0]) && !IsSpace(p[|p| - 1])
    ensures StartsWith(Strip(s), p)
  {
    assert s[0] == p[0];
    assert LStrip(s) == s;
    var r := RStrip(s);
    assert s[|p| - 1] == p[|p| - 1];
    assert |p| <= |r|;
    assert r[..|p|] == s[..|p|];
  }

  /** `clean_url(url)`: `https://` is put in front of a URL without a web scheme, and the result is
      stripped. The result always has a web scheme. */
  function CleanUrl(url: string): (r: string)
    ensures HasWebScheme(r)
  {
    var prefixed := if HasWebScheme(url) then url else "https://" + url;
    assert HasWebScheme(prefixed) by {
      if !HasWebScheme(url) {
        assert prefixed[..8] == "https://";
      }
    }
    assert HasWebScheme(Strip(prefixed)) by {
      if StartsWith(prefixed, "http://") {
        StripKeepsPrefix(prefixed, "http://");
      } else {
        StripKeepsPrefix(prefixed, "https://");
      }
    }
    Strip(prefixed)
  }

  /** Cleaning a clean URL changes nothing. */
  lemma CleanUrlIdempotent(url: string)
    ensures CleanUrl(CleanUrl(url)) == CleanUrl(url)
  {
    var prefixed := if HasWebScheme(url) then url else "https://" + url;
    StripIdempotent(prefixed);
  }

  /** A URL with a web scheme is only stripped; any other gets `https://` in front. */
  lemma CleanUrlCases(url: string)
    ensures HasWebScheme(url) ==> CleanUrl(url) == Strip(url)
    ensures !HasWebScheme(url) && (url == [] || !IsSpace(url[|url| - 1])) ==> CleanUrl(url) == "https://" + url
  {
    if !HasWebScheme(url) && (url == [] || !IsSpace(url[|url| - 1])) {
      var p := "https://" + url;
      assert p[0] == 'h';
      assert p[|p| - 1] == if url == [] then '/' else url[|url| - 1];
      StripOfStripped(p);
    }
  }

  // ---- `truncate_text` ----

  /** `s[:k]` for any int `k`: a negative `k` counts from the end, and both ends are clamped. */
  function PyPrefix(s: string, k: int): (r: string)
    ensures StartsWith(s, r)
    ensures 0 <= k <= |s| ==> |r| == k
  {
    if k >= 0 then (if k <= |s| then s[..k] else s)
    else if |s| + k >= 0 then s[..|s| + k] else []
  }

  /** `truncate_text(text, max_length)`; callers that leave out `max_length` get 100. */
  function TruncateText(text: Option<string>, maxLength: int): (r: string)
    ensures text.None? || text.value == [] ==> r == ""
    ensures text.Some? && |text.value| <= maxLength ==> r == text.value
    ensures maxLength >= 3 ==> |r| <= maxLength
    ensures r == [] || (text.Some? && r == text.value) || (|r| >= 3 && r[|r| - 3..] == "..." && text.Some? && StartsWith(text.value, r[..|r| - 3]))
  {
    if text.None? || text.value == [] then ""
    else if |text.value| <= maxLength then text.value
    else
      var head := PyPrefix(text.value, maxLength - 3);
      assert (head + "...")[..|head|] == head;
      head + "..."
  }

  /** A text longer than `max_length` (at least 3) is cut to exactly `max_length` characters: its
      first `max_length - 3` characters and an ellipsis. Below 3, a negative slice bound counts
      from the end, and the result is longer than `max_length`. */
  lemma TruncateLong(text: string, maxLength: int)
    requires |text| > maxLength
    ensures maxLength >= 3 ==> TruncateText(Some(text), maxLength) == text[..maxLength - 3] + "..."
    ensures maxLength >= 3 ==> |TruncateText(Some(text), maxLength)| == maxLength
    ensures maxLength < 3 ==> |TruncateText(Some(text), maxLength)| > maxLength
  {
  }

  // ---- `calculate_seo_score` ----

  /** Points for a text whose length should lie in `low..high`: full marks inside, half outside,
      none for a missing or empty one. */
  function LengthPoints(text: Option<string>, low: nat, high: nat, full: nat, half: nat): nat
  {
    if text.None? || text.value == [] then 0
    else if low <= |text.value| <= high then full
    else half
  }

  function H1Points(count: nat): nat
  {
    if count == 1 then 15 else if count > 0 then 8 else 0
  }

  function H2Points(count: nat): nat
  {
    if count >= 2 then 10 else if count > 0 then 5 else 0
  }

  /** A missing word count counts as 0. */
  function WordPoints(wordCount: Option<int>): nat
  {
    var words := if wordCount.Some? then wordCount.value else 0;
    if words >= 300 then 10 else if words >= 100 then 5 else 0
  }

  /** A missing load time counts as 0 seconds. */
  function LoadPoints(loadTime: Option<real>): nat
  {
    var seconds := if loadTime.Some? then loadTime.value else 0.0;
    if seconds <= 2.0 then 15 else if seconds <= 4.0 then 10 else if seconds <= 6.0 then 5 else 0
  }

  /** The points of the seven components, added up. */
  function Points(analysis: SeoData): nat
  {
    LengthPoints(analysis.title, 30, 60, 20, 10) + LengthPoints(analysis.metaDescription, 120, 160, 20, 10)
    + H1Points(|analysis.h1Tags|) + H2Points(|analysis.h2Tags|) + WordPoints(analysis.wordCount)
    + LoadPoints(analysis.loadTime) + (if analysis.mobileFriendly == Some(true) then 10 else 0)
  }

  /** `calculate_seo_score(analysis)`: the score is the sum of the component points and lies in
      0..100, so the final `min(score, max_score)` never lowers it. */
  method CalculateSeoScore(analysis: SeoData) returns (score: int)
    ensures score == Points(analysis)
    ensures 0 <= score <= 100
  {
    score := 0;
    var maxScore := 100;

    if analysis.title.Some? && analysis.title.value != [] {
      var titleLen := |analysis.title.value|;
      if 30 <= titleLen <= 60 {
        score := score + 20;
      } else if titleLen > 0 {
        score := score + 10;
      }
    }

    assert score == LengthPoints(analysis.title, 30, 60, 20, 10);

    if analysis.metaDescription.Some? && analysis.metaDescription.value != [] {
      var descLen := |analysis.metaDescription.value|;
      if 120 <= descLen <= 160 {
        score := score + 20;
      } else if descLen > 0 {
        score := score + 10;
      }
    }

    assert score == LengthPoints(analysis.title, 30, 60, 20, 10) + LengthPoints(analysis.metaDescription, 120, 160, 20, 10);

    if |analysis.h1Tags| == 1 {
      score := score + 15;
    } else if |analysis.h1Tags| > 0 {
      score := score + 8;
    }

    assert score == LengthPoints(analysis.title, 30, 60, 20, 10) + LengthPoints(analysis.metaDescription, 120, 160, 20, 10)
      + H1Points(|analysis.h1Tags|);

    if |analysis.h2Tags| >= 2 {
      score := score + 10;
    } else if |analysis.h2Tags| > 0 {
      score := score + 5;
    }

    assert score == LengthPoints(analysis.title, 30, 60, 20, 10) + LengthPoints(analysis.metaDescription, 120, 160, 20, 10)
      + H1Points(|analysis.h1Tags|) + H2Points(|analysis.h2Tags|);

    var wordCount := if analysis.wordCount.Some? then analysis.wordCount.value else 0;
    if wordCount >= 300 {
      score := score + 10;
    } else if wordCount >= 100 {
      score := score + 5;
    }

    assert score == LengthPoints(analysis.title, 30, 60, 20, 10) + LengthPoints(analysis.metaDescription, 120, 160, 20, 10)
      + H1Points(|analysis.h1Tags|) + H2Points(|analysis.h2Tags|) + WordPoints(analysis.wordCount);

    var loadTime := if analysis.loadTime.Some? then analysis.loadTime.value else 0.0;
    if loadTime <= 2.0 {
      score := score + 15;
    } else if loadTime <= 4.0 {
      score := score + 10;
    } else if loadTime <= 6.0 {
      score := score + 5;
    }

    assert score == LengthPoints(analysis.title, 30, 60, 20, 10) + LengthPoints(analysis.metaDescription, 120, 160, 20, 10)
      + H1Points(|analysis.h1Tags|) + H2Points(|analysis.h2Tags|) + WordPoints(analysis.wordCount)
      + LoadPoints(analysis.loadTime);

    if analysis.mobileFriendly == Some(true) {
      score := score + 10;
    }

    assert score == Points(analysis) <= 100;

    score := if score < maxScore then score else maxScore;
  }

  /** The component maxima add up to exactly 100: a page that earns full marks everywhere scores
      100, a page with nothing scores 0. */
  lemma ScoreExtremes(analysis: SeoData)
    ensures Points(analysis) <= 100
    ensures Points(analysis) == 100 <==>
      && analysis.title.Some? && 30 <= |analysis.title.value| <= 60
      && analysis.metaDescription.Some? && 120 <= |analysis.metaDescription.value| <= 160
      && |analysis.h1Tags| == 1 && |analysis.h2Tags| >= 2
      && analysis.wordCount.Some? && analysis.wordCount.value >= 300
      && (analysis.loadTime.None? || analysis.loadTime.value <= 2.0)
      && analysis.mobileFriendly == Some(true)
  {
  }

  /** A page the SEO rules find nothing wrong with, with a word count and at least two H2s,
      scores the full 100. */
  lemma CleanPageScoresFull(analysis: SeoData)
    requires Clean(analysis) && analysis.wordCount.Some? && |analysis.h2Tags| >= 2
    ensures Points(analysis) == 100
  {
    ScoreExtremes(analysis);
  }

  // ---- `format_price` ----

  /** A decimal digit, as `\d` matches it on ASCII text. */
  predicate IsDigit(c: char)
  {
    '0' <= c <= '9'
  }

  /** The characters `[\d.,\$£€¥]` that survive the first substitution. */
  predicate PriceChar(c: char)
  {
    IsDigit(c) || c == '.' || c == ',' || c == '$' || c == '£' || c == '€' || c == '¥'
  }

  /** `re.sub(r'[^\d.,\$£€¥]', '', s)`. */
  function KeepPriceChars(s: string): (r: string)
    ensures forall c :: c in r <==> c in s && PriceChar(c)
  {
    if s == [] then []
    else (if PriceChar(s[0]) then [s[0]] else []) + KeepPriceChars(s[1..])
  }

  /** The length of the longest run at the start of `s` of characters satisfying the class
      `[\d,]` (when `commas`) or `\d`. */
  function RunLength(s: string, commas: bool): (n: nat)
    ensures n <= |s|
    ensures forall i :: 0 <= i < n ==> IsDigit(s[i]) || (commas && s[i] == ',')
    ensures n < |s| ==> !(IsDigit(s[n]) || (commas && s[n] == ','))
  {
    if s != [] && (IsDigit(s[0]) || (commas && s[0] == ',')) then 1 + RunLength(s[1..], commas) else 0
  }

  /** The index of the first character of `s` in `[\d,]`, or `|s|` when there is none. */
  function FirstDigitOrComma(s: string): (i: nat)
    ensures i <= |s|
    ensures i < |s| ==> IsDigit(s[i]) || s[i] == ','
    ensures forall j :: 0 <= j < i ==> !(IsDigit(s[j]) || s[j] == ',')
  {
    if s == [] then 0
    else if IsDigit(s[0]) || s[0] == ',' then 0
    else 1 + FirstDigitOrComma(s[1..])
  }

  /** `re.search(r'[\d,]+\.?\d*', s)`: the leftmost match, each part as long as it can be. */
  function SearchAmount(s: string): (m: Option<string>)
    ensures m.Some? ==> m.value != [] && (IsDigit(m.value[0]) || m.value[0] == ',')
    ensures m.Some? ==> forall c :: c in m.value ==> IsDigit(c) || c == ',' || c == '.'
  {
    var start := FirstDigitOrComma(s);
    if start == |s| then None
    else
      var rest := s[start..];
      var run := RunLength(rest, true);
      var dot := if run < |rest| && rest[run] == '.' then 1 else 0;
      var digits := RunLength(rest[run + dot..], false);
      Some(rest[..run + dot + digits])
  }

  /** The filter works character by character, keeping their order: filtering two pieces and
      joining the results is filtering their concatenation. */
  lemma {:induction false} KeepPriceCharsAppend(a: string, b: string)
    ensures KeepPriceChars(a + b) == KeepPriceChars(a) + KeepPriceChars(b)
  {
    if a == [] {
      assert a + b == b;
    } else {
      assert (a + b)[0] == a[0] && (a + b)[1..] == a[1..] + b;
      KeepPriceCharsAppend(a[1..], b);
    }
  }

  /** The search finds nothing exactly when `s` holds no digit or comma; otherwise its match is
      the piece of `s` that starts at the first digit or comma. */
  lemma SearchAmountAt(s: string)
    ensures SearchAmount(s).None? <==> forall j :: 0 <= j < |s| ==> !(IsDigit(s[j]) || s[j] == ',')
    ensures SearchAmount(s).Some? ==>
      var i := FirstDigitOrComma(s);
      i + |SearchAmount(s).value| <= |s| && SearchAmount(s).value == s[i..i + |SearchAmount(s).value|]
  {
  }

  /** `s.replace(',', '')`. */
  function RemoveCommas(s: string): (r: string)
    ensures forall c :: c in r <==> c in s && c != ','
  {
    if s == [] then [] else (if s[0] == ',' then [] else [s[0]]) + RemoveCommas(s[1..])
  }

  /** `format_price(price_str)`: `None` for a missing or empty string; otherwise the first run of
      digits and commas, with an optional point and digits after it, without its commas; and
      when there is no digit or comma at all, what is left after dropping every character that
      cannot be part of a price. */
  function FormatPrice(priceStr: Option<string>): (r: Option<string>)
    ensures r.None? <==> priceStr.None? || priceStr.value == []
    ensures r.Some? ==> forall c :: c in r.value ==> PriceChar(c) && c != ','
  {
    if priceStr.None? || priceStr.value == [] then None
    else
      var kept := KeepPriceChars(priceStr.value);
      match SearchAmount(kept)
      case Some(amount) => Some(RemoveCommas(amount))
      case None => Some(kept)
  }

  /** A price string with a digit in it yields only digits and points: the amount, without the
      currency signs. */
  lemma FormatPriceOfDigits(priceStr: string, i: int)
    requires 0 <= i < |priceStr| && IsDigit(priceStr[i])
    ensures FormatPrice(Some(priceStr)).Some?
    ensures forall c :: c in FormatPrice(Some(priceStr)).value ==> IsDigit(c) || c == '.'
  {
    var kept := KeepPriceChars(priceStr);
    assert priceStr[i] in kept;
    var j :| 0 <= j < |kept| && kept[j] == priceStr[i];
    assert FirstDigitOrComma(kept) <= j;
  }
}
