/** `SeoIssueAnalyzer`: the rules that turn the data scraped from one page into a list of issue
    texts, and the keyword classifiers that give an issue text a category and a severity. */
module SeoAnalyzer {
  import opened Wrappers
  import opened PyText

  /** The fields of the `seo_data` dictionary the rules read. A missing key and a `None` value are
      both `None`; a missing or `None` list of tags or images reads as the empty list, which the
      rules treat alike. */
  datatype SeoData = SeoData(
    title: Option<string>,
    metaDescription: Option<string>,
    h1Tags: seq<string>,
    h2Tags: seq<string>,
    loadTime: Option<real>,
    mobileFriendly: Option<bool>,
    wordCount: Option<int>,
    imagesWithoutAlt: seq<string>)

  /** One issue a rule raises, with the number its text quotes; `Text` renders it. */
  datatype Finding =
    | TitleMissing | TitleEmpty | TitleTooShort(titleLength: nat) | TitleTooLong(titleLength: nat)
    | TitleUntitled | TitleWelcome | TitleNoSeparator
    | MetaMissing | MetaEmpty | MetaTooShort(metaLength: nat) | MetaTooLong(metaLength: nat)
    | H1Missing | H1Multiple(h1Count: nat) | H1Empty | H1TooShort(h1Length: nat) | H1TooLong(h1Length: nat)
    | H2Missing | H2TooMany(h2Count: nat)
    | LoadSlow(seconds: real) | LoadSlowish(seconds: real)
    | NotMobileFriendly
    | ContentLow(words: int) | ContentLong(words: int)
    | ImageWithoutAlt | ImagesWithoutAlt(images: nat)

  // ---- `{t:.1f}` ----

  /** The integer nearest to `x`, the even one of two equally near. */
  function RoundHalfEven(x: real): (r: int)
    ensures -0.5 <= r as real - x <= 0.5
    ensures (r as real - x == 0.5 || x - r as real == 0.5) ==> r % 2 == 0
  {
    var f := x.Floor;
    var d := x - f as real;
    if d > 0.5 || (d == 0.5 && f % 2 == 1) then f + 1 else f
  }

  /** `f"{t:.1f}"` for a non-negative `t`, the value taken exactly: the tenths nearest to `t`,
      as whole part, a point and one digit. */
  function OneDecimal(t: real): (r: string)
    requires t >= 0.0
    ensures |r| >= 3 && r[|r| - 2] == '.'
    ensures forall i :: 0 <= i < |r| && i != |r| - 2 ==> '0' <= r[i] <= '9'
  {
    var tenths := RoundHalfEven(t * 10.0);
    assert tenths >= 0;
    NatToString(tenths / 10) + "." + [('0' as int + tenths % 10) as char]
  }

  /** `f"{t:.1f}"` for any `t`: a negative value is its magnitude after a minus sign. */
  function Seconds(t: real): (r: string)
    ensures t >= 0.0 ==> r == OneDecimal(t)
    ensures t < 0.0 ==> r == "-" + OneDecimal(-t)
  {
    if t < 0.0 then "-" + OneDecimal(-t) else OneDecimal(t)
  }

  /** The text `analyze_issues` reports for a finding. */
  function Text(f: Finding): string
  {
    match f
    case TitleMissing => "Missing title tag"
    case TitleEmpty => "Empty title tag"
    case TitleTooShort(n) => "Title too short (" + NatToString(n) + " chars) - should be 30-60 characters"
    case TitleTooLong(n) => "Title too long (" + NatToString(n) + " chars) - should be 30-60 characters"
    case TitleUntitled => "Generic 'Untitled' title"
    case TitleWelcome => "Generic 'Welcome to' title"
    case TitleNoSeparator => "Title lacks brand/site name separator"
    case MetaMissing => "Missing meta description"
    case MetaEmpty => "Empty meta description"
    case MetaTooShort(n) => "Meta description too short (" + NatToString(n) + " chars) - should be 120-160 characters"
    case MetaTooLong(n) => "Meta description too long (" + NatToString(n) + " chars) - should be 120-160 characters"
    case H1Missing => "Missing H1 tag"
    case H1Multiple(n) => "Multiple H1 tags (" + NatToString(n) + ") - should have only one"
    case H1Empty => "Empty H1 tag"
    case H1TooShort(n) => "H1 too short (" + NatToString(n) + " chars)"
    case H1TooLong(n) => "H1 too long (" + NatToString(n) + " chars)"
    case H2Missing => "No H2 tags found - consider adding subheadings"
    case H2TooMany(n) => "Too many H2 tags (" + NatToString(n) + ") - consider restructuring content"
    case LoadSlow(t) => "Slow page load time (" + Seconds(t) + "s) - should be under 3 seconds"
    case LoadSlowish(t) => "Page load time could be improved (" + Seconds(t) + "s)"
    case NotMobileFriendly => "Not mobile-friendly - missing viewport meta tag"
    case ContentLow(n) => "Low content volume (" + IntToString(n) + " words) - consider adding more content"
    case ContentLong(n) => "Very long content (" + IntToString(n) + " words) - consider breaking into multiple pages"
    case ImageWithoutAlt => "1 image missing alt text"
    case ImagesWithoutAlt(n) => NatToString(n) + " images missing alt text"
  }

  /** The texts of a list of findings, in order. */
  function Texts(fs: seq<Finding>): (texts: seq<string>)
    ensures |texts| == |fs|
  {
    seq(|fs|, i requires 0 <= i < |fs| => Text(fs[i]))
  }

  // ---- the rules ----

  /** A present, non-empty text that `strip()` leaves empty. */
  predicate Blank(text: string)
  {
    text != [] && Strip(text) == []
  }

  /** `_analyze_title(title)`. */
  function AnalyzeTitle(title: Option<string>): (issues: seq<Finding>)
    ensures |issues| <= 2
  {
    if title.None? || title.value == [] then [TitleMissing]
    else if Strip(title.value) == [] then [TitleEmpty]
    else TitleLengthIssues(|title.value|) + TitleGenericIssues(title.value)
  }

  /** The length check of `_analyze_title` on a title that is not blank. */
  function TitleLengthIssues(n: nat): (issues: seq<Finding>)
    ensures |issues| <= 1
  {
    if n < 30 then [TitleTooShort(n)] else if n > 60 then [TitleTooLong(n)] else []
  }

  /** The generic-title checks of `_analyze_title`, the first that applies. */
  function TitleGenericIssues(t: string): (issues: seq<Finding>)
    ensures |issues| <= 1
  {
    if Lower(t) == "untitled" then [TitleUntitled]
    else if StartsWith(Lower(t), "welcome to") then [TitleWelcome]
    else if '|' !in t && '-' !in t && ':' !in t then [TitleNoSeparator]
    else []
  }

  /** `_analyze_meta_description(meta_description)`; the duplicate-content check compares the
      description with itself and adds nothing. */
  function AnalyzeMetaDescription(meta: Option<string>): (issues: seq<Finding>)
    ensures |issues| <= 1
  {
    if meta.None? || meta.value == [] then [MetaMissing]
    else if Strip(meta.value) == [] then [MetaEmpty]
    else if |meta.value| < 120 then [MetaTooShort(|meta.value|)]
    else if |meta.value| > 160 then [MetaTooLong(|meta.value|)]
    else []
  }

  /** `_analyze_headers(h1_tags, h2_tags)`: the H1 issue, if any, then the H2 issue, if any. */
  function AnalyzeHeaders(h1Tags: seq<string>, h2Tags: seq<string>): (issues: seq<Finding>)
    ensures |issues| <= 2
  {
    H1Issues(h1Tags) + H2Issues(h2Tags)
  }

  /** The H1 half of `_analyze_headers`. */
  function H1Issues(h1Tags: seq<string>): (issues: seq<Finding>)
    ensures |issues| <= 1
  {
    if h1Tags == [] then [H1Missing]
    else if |h1Tags| > 1 then [H1Multiple(|h1Tags|)]
    else
      var text := Strip(h1Tags[0]);
      if text == [] then [H1Empty]
      else if |text| < 20 then [H1TooShort(|text|)]
      else if |text| > 70 then [H1TooLong(|text|)]
      else []
  }

  /** The H2 half of `_analyze_headers`. */
  function H2Issues(h2Tags: seq<string>): (issues: seq<Finding>)
    ensures |issues| <= 1
  {
    if h2Tags == [] then [H2Missing]
    else if |h2Tags| > 10 then [H2TooMany(|h2Tags|)]
    else []
  }

  /** `_analyze_performance(load_time)`. */
  function AnalyzePerformance(loadTime: Option<real>): (issues: seq<Finding>)
    ensures |issues| <= 1
  {
    if loadTime.None? then []
    else if loadTime.value > 3.0 then [LoadSlow(loadTime.value)]
    else if loadTime.value > 2.0 then [LoadSlowish(loadTime.value)]
    else []
  }

  /** `_analyze_mobile(mobile_friendly)`: anything but a true flag is an issue. */
  function AnalyzeMobile(mobileFriendly: Option<bool>): (issues: seq<Finding>)
    ensures |issues| <= 1
  {
    if mobileFriendly != Some(true) then [NotMobileFriendly] else []
  }

  /** `_analyze_content(word_count)`. */
  function AnalyzeContent(wordCount: Option<int>): (issues: seq<Finding>)
    ensures |issues| <= 1
  {
    if wordCount.None? then []
    else if wordCount.value < 300 then [ContentLow(wordCount.value)]
    else if wordCount.value > 3000 then [ContentLong(wordCount.value)]
    else []
  }

  /** `_analyze_images(images_without_alt)`. */
  function AnalyzeImages(imagesWithoutAlt: seq<string>): (issues: seq<Finding>)
    ensures |issues| <= 1
  {
    if imagesWithoutAlt == [] then []
    else if |imagesWithoutAlt| == 1 then [ImageWithoutAlt]
    else [ImagesWithoutAlt(|imagesWithoutAlt|)]
  }

  /** The findings of the seven rules, rule after rule. */
  function Findings(d: SeoData): (issues: seq<Finding>)
    ensures |issues| <= 9
  {
    AnalyzeTitle(d.title) + AnalyzeMetaDescription(d.metaDescription) + AnalyzeHeaders(d.h1Tags, d.h2Tags)
    + AnalyzePerformance(d.loadTime) + AnalyzeMobile(d.mobileFriendly) + AnalyzeContent(d.wordCount)
    + AnalyzeImages(d.imagesWithoutAlt)
  }

  /** `analyze_issues(seo_data)`: the texts of the findings, rule after rule. */
  function AnalyzeIssues(d: SeoData): (issues: seq<string>)
    ensures |issues| == |Findings(d)| <= 9
    ensures forall i :: 0 <= i < |issues| ==> issues[i] == Text(Findings(d)[i])
  {
    Texts(Findings(d))
  }

  // ---- what the rules report ----

  /** The title rule: "missing" exactly for a missing or empty title and "empty" exactly for a
      blank one; otherwise a length issue exactly when the length is outside 30..60, and at most
      one generic issue, the first of "Untitled", "Welcome to" and "no separator" that applies. */
  lemma TitleRule(title: Option<string>)
    ensures AnalyzeTitle(title) == [TitleMissing] <==> title.None? || title.value == []
    ensures AnalyzeTitle(title) == [TitleEmpty] <==> title.Some? && Blank(title.value)
    ensures title.Some? && Strip(title.value) != [] ==>
      var t, issues := title.value, AnalyzeTitle(title);
      && (TitleTooShort(|t|) in issues <==> |t| < 30)
      && (TitleTooLong(|t|) in issues <==> |t| > 60)
      && (TitleUntitled in issues <==> Lower(t) == "untitled")
      && (TitleWelcome in issues <==> Lower(t) != "untitled" && StartsWith(Lower(t), "welcome to"))
      && (TitleNoSeparator in issues <==>
            Lower(t) != "untitled" && !StartsWith(Lower(t), "welcome to") && '|' !in t && '-' !in t && ':' !in t)
  {
    if title.Some? && Strip(title.value) != [] {
      var t := title.value;
      assert t != [];
      TitleParts(t);
    }
  }

  /** What the two checks on a title that is not blank raise. */
  lemma TitleParts(t: string)
    ensures var issues := TitleLengthIssues(|t|) + TitleGenericIssues(t);
      && (TitleTooShort(|t|) in issues <==> |t| < 30)
      && (TitleTooLong(|t|) in issues <==> |t| > 60)
      && (TitleUntitled in issues <==> Lower(t) == "untitled")
      && (TitleWelcome in issues <==> Lower(t) != "untitled" && StartsWith(Lower(t), "welcome to"))
      && (TitleNoSeparator in issues <==>
            Lower(t) != "untitled" && !StartsWith(Lower(t), "welcome to") && '|' !in t && '-' !in t && ':' !in t)
  {
  }

  /** A title raises no issue exactly when it is 30 to 60 characters long, not blank, does not
      start with "welcome to" in any case, and has a `|`, `-` or `:` separator. */
  lemma CleanTitle(title: Option<string>)
    ensures AnalyzeTitle(title) == [] <==>
      title.Some? && 30 <= |title.value| <= 60 && Strip(title.value) != []
      && !StartsWith(Lower(title.value), "welcome to")
      && ('|' in title.value || '-' in title.value || ':' in title.value)
  {
    if title.Some? && title.value != [] && Strip(title.value) != [] {
      CleanTitleText(title.value);
    }
  }

  /** `CleanTitle` for a title that is present and not blank. */
  lemma CleanTitleText(t: string)
    requires t != [] && Strip(t) != []
    ensures AnalyzeTitle(Some(t)) == [] <==>
      30 <= |t| <= 60 && !StartsWith(Lower(t), "welcome to") && ('|' in t || '-' in t || ':' in t)
  {
    var length, generic := TitleLengthIssues(|t|), TitleGenericIssues(t);
    assert AnalyzeTitle(Some(t)) == length + generic;
    if 30 <= |t| <= 60 {
      assert length == [];
      GenericOfLongTitle(t);
    } else {
      assert |length| == 1;
    }
  }

  /** A title of 30 characters or more is not "untitled", so only the "welcome to" and
      separator checks can apply to it. */
  lemma GenericOfLongTitle(t: string)
    requires |t| >= 30
    ensures TitleGenericIssues(t) == [] <==>
      !StartsWith(Lower(t), "welcome to") && ('|' in t || '-' in t || ':' in t)
  {
    assert |Lower(t)| != |"untitled"|;
  }

  /** The meta description rule: "missing" exactly for a missing or empty description, "empty"
      exactly for a blank one, and otherwise an issue exactly when the length is outside
      120..160. */
  lemma MetaRule(meta: Option<string>)
    ensures AnalyzeMetaDescription(meta) == [MetaMissing] <==> meta.None? || meta.value == []
    ensures AnalyzeMetaDescription(meta) == [MetaEmpty] <==> meta.Some? && Blank(meta.value)
    ensures meta.Some? && Strip(meta.value) != [] ==>
      var n := |meta.value|;
      && (AnalyzeMetaDescription(meta) == [MetaTooShort(n)] <==> n < 120)
      && (AnalyzeMetaDescription(meta) == [MetaTooLong(n)] <==> n > 160)
      && (AnalyzeMetaDescription(meta) == [] <==> 120 <= n <= 160)
  {
  }

  /** The header rule: one H1 issue for no H1 or several, then one H2 issue for no H2 or more
      than 10; no issue at all exactly for a single H1 of 20 to 70 characters once stripped and
      1 to 10 H2s. */
  lemma HeadersRule(h1Tags: seq<string>, h2Tags: seq<string>)
    ensures var issues := AnalyzeHeaders(h1Tags, h2Tags);
      && (H1Missing in issues <==> h1Tags == [])
      && (H1Multiple(|h1Tags|) in issues <==> |h1Tags| > 1)
      && (H2Missing in issues <==> h2Tags == [])
      && (H2TooMany(|h2Tags|) in issues <==> |h2Tags| > 10)
    ensures AnalyzeHeaders(h1Tags, h2Tags) == [] <==>
      |h1Tags| == 1 && 20 <= |Strip(h1Tags[0])| <= 70 && 1 <= |h2Tags| <= 10
  {
    var h1, h2 := H1Issues(h1Tags), H2Issues(h2Tags);
    assert AnalyzeHeaders(h1Tags, h2Tags) == h1 + h2;
    H1Rule(h1Tags);
    H2Rule(h2Tags);
  }

  /** A single H1 is judged on its stripped text: empty, under 20 or over 70 characters. */
  lemma SingleH1Rule(h1: string, h2Tags: seq<string>)
    ensures var issues, text := AnalyzeHeaders([h1], h2Tags), Strip(h1);
      && (H1Empty in issues <==> text == [])
      && (H1TooShort(|text|) in issues <==> 0 < |text| < 20)
      && (H1TooLong(|text|) in issues <==> |text| > 70)
  {
    var a, b := H1Issues([h1]), H2Issues(h2Tags);
    assert AnalyzeHeaders([h1], h2Tags) == a + b;
    H1Rule([h1]);
    H2Rule(h2Tags);
  }

  /** The H1 half raises only H1 findings, and each exactly in its case. */
  lemma H1Rule(h1Tags: seq<string>)
    ensures forall f :: f in H1Issues(h1Tags) ==> f.H1Missing? || f.H1Multiple? || f.H1Empty? || f.H1TooShort? || f.H1TooLong?
    ensures H1Issues(h1Tags) == [H1Missing] <==> h1Tags == []
    ensures H1Issues(h1Tags) == [H1Multiple(|h1Tags|)] <==> |h1Tags| > 1
    ensures H1Issues(h1Tags) == [] <==> |h1Tags| == 1 && 20 <= |Strip(h1Tags[0])| <= 70
    ensures |h1Tags| == 1 ==>
      var text := Strip(h1Tags[0]);
      && (H1Issues(h1Tags) == [H1Empty] <==> text == [])
      && (H1Issues(h1Tags) == [H1TooShort(|text|)] <==> 0 < |text| < 20)
      && (H1Issues(h1Tags) == [H1TooLong(|text|)] <==> |text| > 70)
  {
  }

  /** The H2 half raises only H2 findings, and each exactly in its case. */
  lemma H2Rule(h2Tags: seq<string>)
    ensures forall f :: f in H2Issues(h2Tags) ==> f.H2Missing? || f.H2TooMany?
    ensures H2Issues(h2Tags) == [H2Missing] <==> h2Tags == []
    ensures H2Issues(h2Tags) == [H2TooMany(|h2Tags|)] <==> |h2Tags| > 10
    ensures H2Issues(h2Tags) == [] <==> 1 <= |h2Tags| <= 10
  {
  }

  /** The performance, mobile, content and image rules: no load time and no word count raise
      nothing; a load time raises an issue exactly when over 2 seconds, the "slow" one exactly
      when over 3 and the "could be improved" one in between; anything but a true mobile flag
      raises one; a word count raises one exactly outside 300..3000, the "low" one below and the
      "very long" one above; and images without alt text raise one issue, singular for one image
      and carrying the count for more. */
  lemma OtherRules(d: SeoData)
    ensures AnalyzePerformance(d.loadTime) != [] <==> d.loadTime.Some? && d.loadTime.value > 2.0
    ensures d.loadTime.Some? ==> (AnalyzePerformance(d.loadTime) == [LoadSlow(d.loadTime.value)] <==> d.loadTime.value > 3.0)
    ensures AnalyzeMobile(d.mobileFriendly) == [] <==> d.mobileFriendly == Some(true)
    ensures AnalyzeContent(d.wordCount) != [] <==> d.wordCount.Some? && !(300 <= d.wordCount.value <= 3000)
    ensures AnalyzeImages(d.imagesWithoutAlt) == [] <==> d.imagesWithoutAlt == []
    ensures AnalyzeImages(d.imagesWithoutAlt) == [ImageWithoutAlt] <==> |d.imagesWithoutAlt| == 1
    ensures d.loadTime.Some? && 2.0 < d.loadTime.value <= 3.0 ==> AnalyzePerformance(d.loadTime) == [LoadSlowish(d.loadTime.value)]
    ensures d.wordCount.Some? && d.wordCount.value < 300 ==> AnalyzeContent(d.wordCount) == [ContentLow(d.wordCount.value)]
    ensures d.wordCount.Some? && d.wordCount.value > 3000 ==> AnalyzeContent(d.wordCount) == [ContentLong(d.wordCount.value)]
    ensures |d.imagesWithoutAlt| > 1 ==> AnalyzeImages(d.imagesWithoutAlt) == [ImagesWithoutAlt(|d.imagesWithoutAlt|)]
  {
  }

  /** A page the rules have nothing to say about, stated requirement by requirement. */
  predicate Clean(d: SeoData)
  {
    && d.title.Some? && 30 <= |d.title.value| <= 60 && Strip(d.title.value) != []
    && !StartsWith(Lower(d.title.value), "welcome to")
    && ('|' in d.title.value || '-' in d.title.value || ':' in d.title.value)
    && d.metaDescription.Some? && 120 <= |d.metaDescription.value| <= 160 && Strip(d.metaDescription.value) != []
    && |d.h1Tags| == 1 && 20 <= |Strip(d.h1Tags[0])| <= 70
    && 1 <= |d.h2Tags| <= 10
    && (d.loadTime.None? || d.loadTime.value <= 2.0)
    && d.mobileFriendly == Some(true)
    && (d.wordCount.None? || 300 <= d.wordCount.value <= 3000)
    && d.imagesWithoutAlt == []
  }

  /** `analyze_issues` reports nothing exactly on a clean page. */
  lemma NoIssuesExactlyWhenClean(d: SeoData)
    ensures AnalyzeIssues(d) == [] <==> Clean(d)
  {
    CleanTitle(d.title);
    MetaRule(d.metaDescription);
    H1Rule(d.h1Tags);
    H2Rule(d.h2Tags);
    OtherRules(d);
  }

  // ---- the classifiers ----

  /** A label and the keywords that earn it. */
  datatype Class = Class(name: string, keywords: seq<string>)

  /** `any(keyword in text for keyword in keywords)`. */
  predicate AnyIn(keywords: seq<string>, text: string)
  {
    exists i :: 0 <= i < |keywords| && Contains(text, keywords[i])
  }

  /** The label of the first class with a keyword in `text`, or `fallback` when there is none. */
  function FirstMatch(classes: seq<Class>, text: string, fallback: string): (r: string)
    ensures r == fallback || exists j :: 0 <= j < |classes| && r == classes[j].name
  {
    if classes == [] then fallback
    else if AnyIn(classes[0].keywords, text) then classes[0].name
    else FirstMatch(classes[1..], text, fallback)
  }

  /** No two classes share a label, and none is labelled with the fallback. */
  predicate DistinctLabels(classes: seq<Class>, fallback: string)
  {
    && (forall i, j :: 0 <= i < j < |classes| ==> classes[i].name != classes[j].name)
    && (forall i :: 0 <= i < |classes| ==> classes[i].name != fallback)
  }

  /** With distinct labels, the first match wins: a text gets the label of class `j` exactly when
      a keyword of `j` occurs in it and no keyword of an earlier class does. */
  lemma {:induction false} FirstMatchWins(classes: seq<Class>, text: string, fallback: string, j: int)
    requires DistinctLabels(classes, fallback) && 0 <= j < |classes|
    ensures FirstMatch(classes, text, fallback) == classes[j].name <==>
      AnyIn(classes[j].keywords, text) && forall i :: 0 <= i < j ==> !AnyIn(classes[i].keywords, text)
  {
    if j > 0 && !AnyIn(classes[0].keywords, text) {
      var rest := classes[1..];
      assert DistinctLabels(rest, fallback) by {
        forall i, k | 0 <= i < k < |rest| ensures rest[i].name != rest[k].name {
          assert rest[i] == classes[i + 1] && rest[k] == classes[k + 1];
        }
      }
      FirstMatchWins(rest, text, fallback, j - 1);
      assert rest[j - 1] == classes[j];
      if AnyIn(classes[j].keywords, text) && !(forall i :: 0 <= i < j ==> !AnyIn(classes[i].keywords, text)) {
        var i :| 0 <= i < j && AnyIn(classes[i].keywords, text);
        assert i != 0;
        assert rest[i - 1] == classes[i];
      }
    }
  }

  /** With distinct labels, a text gets the fallback exactly when no keyword of any class occurs
      in it. */
  lemma {:induction false} FallbackWhenNoMatch(classes: seq<Class>, text: string, fallback: string)
    requires DistinctLabels(classes, fallback)
    ensures FirstMatch(classes, text, fallback) == fallback <==>
      forall i :: 0 <= i < |classes| ==> !AnyIn(classes[i].keywords, text)
  {
    if classes != [] && !AnyIn(classes[0].keywords, text) {
      var rest := classes[1..];
      assert DistinctLabels(rest, fallback) by {
        forall i, k | 0 <= i < k < |rest| ensures rest[i].name != rest[k].name {
          assert rest[i] == classes[i + 1] && rest[k] == classes[k + 1];
        }
      }
      FallbackWhenNoMatch(rest, text, fallback);
      assert forall i :: 1 <= i < |classes| ==> classes[i] == rest[i - 1];
    }
  }

  /** The categories of `categorize_issue`, in the order they are tried. */
  const Categories: seq<Class> := [
    Class("title", ["title"]),
    Class("meta_description", ["meta description"]),
    Class("headers", ["h1", "h2", "heading"]),
    Class("performance", ["load time", "slow"]),
    Class("mobile", ["mobile"]),
    Class("content", ["content", "word"]),
    Class("images", ["image", "alt"])]

  /** `categorize_issue(issue_text)`. */
  function CategorizeIssue(issueText: string): (category: string)
  {
    var low := Lower(issueText);
    if Contains(low, "title") then "title"
    else if Contains(low, "meta description") then "meta_description"
    else if Contains(low, "h1") || Contains(low, "h2") || Contains(low, "heading") then "headers"
    else if Contains(low, "load time") || Contains(low, "slow") then "performance"
    else if Contains(low, "mobile") then "mobile"
    else if Contains(low, "content") || Contains(low, "word") then "content"
    else if Contains(low, "image") || Contains(low, "alt") then "images"
    else "other"
  }

  /** `categorize_issue` is the first match over the category table, falling back to "other";
      so its answer is one of the eight names, decided by the first category with a keyword in
      the lower-cased text. */
  lemma CategorizeByTable(issueText: string)
    ensures CategorizeIssue(issueText) == FirstMatch(Categories, Lower(issueText), "other")
  {
    var low, c := Lower(issueText), Categories;
    assert c[7..] == [];
    AnyInOne("image", "alt", low);
    FirstMatchAt(c, 6, low, "other");
    AnyInOne("content", "word", low);
    FirstMatchAt(c, 5, low, "other");
    AnyInOne("mobile", "mobile", low);
    FirstMatchAt(c, 4, low, "other");
    AnyInOne("load time", "slow", low);
    FirstMatchAt(c, 3, low, "other");
    AnyInThree("h1", "h2", "heading", low);
    FirstMatchAt(c, 2, low, "other");
    AnyInOne("meta description", "meta description", low);
    FirstMatchAt(c, 1, low, "other");
    AnyInOne("title", "title", low);
    FirstMatchAt(c, 0, low, "other");
    assert c[0..] == c;
  }

  /** The category names are distinct and none is "other". */
  lemma CategoryNamesDistinct()
    ensures DistinctLabels(Categories, "other")
  {
    var names := ["title", "meta_description", "headers", "performance", "mobile", "content", "images"];
    assert forall i :: 0 <= i < 7 ==> Categories[i].name == names[i];
  }

  /** The severity levels are distinct and none is "low". */
  lemma SeverityNamesDistinct()
    ensures DistinctLabels(Severities, "low")
  {
  }

  /** One step of `FirstMatch` down a table. */
  lemma FirstMatchAt(classes: seq<Class>, k: int, text: string, fallback: string)
    requires 0 <= k < |classes|
    ensures FirstMatch(classes[k..], text, fallback) ==
      if AnyIn(classes[k].keywords, text) then classes[k].name else FirstMatch(classes[k + 1..], text, fallback)
  {
    assert classes[k..][1..] == classes[k + 1..];
  }

  /** `any` over one keyword, or over two. */
  lemma AnyInOne(k0: string, k1: string, text: string)
    ensures AnyIn([k0], text) <==> Contains(text, k0)
    ensures AnyIn([k0, k1], text) <==> Contains(text, k0) || Contains(text, k1)
  {
    assert [k0][0] == k0;
    var ks := [k0, k1];
    assert ks[0] == k0 && ks[1] == k1;
  }

  /** `any` over three keywords. */
  lemma AnyInThree(k0: string, k1: string, k2: string, text: string)
    ensures AnyIn([k0, k1, k2], text) <==> Contains(text, k0) || Contains(text, k1) || Contains(text, k2)
  {
    var ks := [k0, k1, k2];
    assert ks[0] == k0 && ks[1] == k1 && ks[2] == k2;
  }

  /** `categorize_issue` answers one of the eight names: category `j` exactly when a keyword of
      `j` occurs in the lower-cased text and no keyword of an earlier category does, and "other"
      exactly when no keyword occurs at all. */
  lemma CategoryIsFirstMatch(issueText: string, j: int)
    requires 0 <= j < |Categories|
    ensures CategorizeIssue(issueText) == "other" || exists k :: 0 <= k < |Categories| && CategorizeIssue(issueText) == Categories[k].name
    ensures CategorizeIssue(issueText) == Categories[j].name <==>
      AnyIn(Categories[j].keywords, Lower(issueText)) && forall i :: 0 <= i < j ==> !AnyIn(Categories[i].keywords, Lower(issueText))
    ensures CategorizeIssue(issueText) == "other" <==>
      forall i :: 0 <= i < |Categories| ==> !AnyIn(Categories[i].keywords, Lower(issueText))
  {
    CategorizeByTable(issueText);
    CategoryNamesDistinct();
    FirstMatchWins(Categories, Lower(issueText), "other", j);
    FallbackWhenNoMatch(Categories, Lower(issueText), "other");
  }

  /** `categorize_issue` decides by the lower-cased text, so the case of the issue does not
      matter. */
  lemma CategorizeIgnoresCase(issueText: string)
    ensures CategorizeIssue(Lower(issueText)) == CategorizeIssue(issueText)
  {
    assert Lower(Lower(issueText)) == Lower(issueText);
  }

  /** The severity levels of `get_issue_severity`, in the order they are tried. */
  const Severities: seq<Class> := [
    Class("critical", ["missing title", "missing h1", "empty title"]),
    Class("high", ["missing meta description", "not mobile-friendly", "slow page load"]),
    Class("medium", ["too short", "too long", "multiple h1"])]

  /** `get_issue_severity(issue_text)`. */
  function IssueSeverity(issueText: string): (severity: string)
  {
    var low := Lower(issueText);
    if AnyIn(["missing title", "missing h1", "empty title"], low) then "critical"
    else if AnyIn(["missing meta description", "not mobile-friendly", "slow page load"], low) then "high"
    else if AnyIn(["too short", "too long", "multiple h1"], low) then "medium"
    else "low"
  }

  /** `get_issue_severity` is the first match over the severity table, falling back to "low". */
  lemma SeverityByTable(issueText: string)
    ensures IssueSeverity(issueText) == FirstMatch(Severities, Lower(issueText), "low")
  {
    var low, c := Lower(issueText), Severities;
    assert c[3..] == [];
    FirstMatchAt(c, 2, low, "low");
    FirstMatchAt(c, 1, low, "low");
    FirstMatchAt(c, 0, low, "low");
    assert c[0..] == c;
  }

  /** `get_issue_severity` answers one of critical, high, medium and low: level `j` exactly when
      a keyword of `j` occurs in the lower-cased text and no keyword of a graver level does, and
      "low" exactly when no keyword occurs at all. */
  lemma SeverityIsFirstMatch(issueText: string, j: int)
    requires 0 <= j < |Severities|
    ensures IssueSeverity(issueText) in {"critical", "high", "medium", "low"}
    ensures IssueSeverity(issueText) == Severities[j].name <==>
      AnyIn(Severities[j].keywords, Lower(issueText)) && forall i :: 0 <= i < j ==> !AnyIn(Severities[i].keywords, Lower(issueText))
    ensures IssueSeverity(issueText) == "low" <==>
      forall i :: 0 <= i < |Severities| ==> !AnyIn(Severities[i].keywords, Lower(issueText))
  {
    SeverityByTable(issueText);
    SeverityNamesDistinct();
    FirstMatchWins(Severities, Lower(issueText), "low", j);
    FallbackWhenNoMatch(Severities, Lower(issueText), "low");
  }

  /** `get_issue_severity` decides by the lower-cased text, so the case of the issue does not
      matter. */
  lemma SeverityIgnoresCase(issueText: string)
    ensures IssueSeverity(Lower(issueText)) == IssueSeverity(issueText)
  {
    assert Lower(Lower(issueText)) == Lower(issueText);
  }
}
