/** `SeoIssueAnalyzer.generate_summary`: counts over the issue lists of many crawled pages. */
module SeoSummary {
  import opened SeoAnalyzer

  /** The summary dictionary. `issueCounts` is the `Counter` of all issue texts that
      `common_issues` is taken from. */
  datatype Summary = Summary(
    totalPages: nat,
    totalIssues: nat,
    pagesWithIssues: nat,
    issuePercentage: real,
    avgIssuesPerPage: real,
    issueCategories: map<string, nat>,
    issueSeverities: map<string, nat>,
    issueCounts: map<string, nat>)

  // ---- counters ----

  /** `counter[key]`: zero for a key never counted. */
  function Count(counter: map<string, nat>, key: string): nat
  {
    if key in counter then counter[key] else 0
  }

  /** `counter[key] += 1`. */
  function Inc(counter: map<string, nat>, key: string): map<string, nat>
  {
    counter[key := Count(counter, key) + 1]
  }

  /** Incrementing adds the key and one to its count, and leaves every other count alone. */
  lemma IncCount(counter: map<string, nat>, key: string, k: string)
    ensures k in Inc(counter, key) <==> k in counter || k == key
    ensures Count(Inc(counter, key), k) == Count(counter, k) + (if k == key then 1 else 0)
  {
  }

  /** Some key of a non-empty map. */
  ghost function Pick(m: map<string, nat>): (k: string)
    requires m != map[]
    ensures k in m
  {
    var k :| k in m; k
  }

  /** The sum of the values of a map: `sum(d.values())`. */
  ghost function Total(m: map<string, nat>): nat
    decreases |m|
  {
    if m == map[] then 0
    else
      var k := Pick(m);
      assert |m - {k}| < |m| by { assert m.Keys - {k} < m.Keys; }
      m[k] + Total(m - {k})
  }

  /** The total is the value at any one key plus the total of the rest. */
  lemma {:induction false} TotalWithout(m: map<string, nat>, k: string)
    requires k in m
    ensures Total(m) == m[k] + Total(m - {k})
    decreases |m|
  {
    var j := Pick(m);
    if j != k {
      assert m.Keys - {j} < m.Keys && m.Keys - {k} < m.Keys;
      TotalWithout(m - {j}, k);
      TotalWithout(m - {k}, j);
      assert m - {j} - {k} == m - {k} - {j};
    }
  }

  /** Counting one more key adds one to the total. */
  lemma TotalInc(m: map<string, nat>, key: string)
    ensures Total(Inc(m, key)) == Total(m) + 1
  {
    var r := Inc(m, key);
    TotalWithout(r, key);
    if key in m {
      TotalWithout(m, key);
      assert r - {key} == m - {key};
    } else {
      assert r - {key} == m;
    }
  }

  // ---- what is counted ----

  /** What an issue is counted by: its category, its severity, or its own text. */
  datatype Facet = ByCategory | BySeverity | ByText

  function KeyOf(facet: Facet, issue: string): string
  {
    match facet
    case ByCategory => CategorizeIssue(issue)
    case BySeverity => IssueSeverity(issue)
    case ByText => issue
  }

  /** The keys of a list of issues under a facet, in order. */
  function Keys(facet: Facet, issues: seq<string>): (keys: seq<string>)
    ensures |keys| == |issues|
  {
    if issues == [] then [] else Keys(facet, issues[..|issues| - 1]) + [KeyOf(facet, issues[|issues| - 1])]
  }

  /** The counter built by counting the issues one after another. */
  function Tally(facet: Facet, issues: seq<string>): map<string, nat>
  {
    if issues == [] then map[]
    else Inc(Tally(facet, issues[..|issues| - 1]), KeyOf(facet, issues[|issues| - 1]))
  }

  /** All issue lists one after another: the `all_issues` list. */
  function Flatten(results: seq<seq<string>>): seq<string>
  {
    if results == [] then [] else Flatten(results[..|results| - 1]) + results[|results| - 1]
  }

  /** `sum(len(result.get('issues', [])) for result in all_results)`. */
  function SumLengths(results: seq<seq<string>>): nat
  {
    if results == [] then 0 else SumLengths(results[..|results| - 1]) + |results[|results| - 1]|
  }

  /** `len([r for r in all_results if r.get('issues')])`. */
  function PagesWithIssues(results: seq<seq<string>>): nat
  {
    if results == [] then 0
    else PagesWithIssues(results[..|results| - 1]) + (if results[|results| - 1] != [] then 1 else 0)
  }

  /** `round(x, 1)`, the value taken exactly: the nearest tenth, the even one of two equally
      near. */
  function RoundTenth(x: real): (r: real)
    ensures -0.05 <= r - x <= 0.05
  {
    RoundHalfEven(x * 10.0) as real / 10.0
  }

  /** `issue_percentage` after rounding: zero without pages. */
  function IssuePercentage(pagesWithIssues: nat, totalPages: nat): real
  {
    if totalPages > 0 then RoundTenth(pagesWithIssues as real / totalPages as real * 100.0) else 0.0
  }

  /** `avg_issues_per_page` after rounding: zero without pages. */
  function AverageIssues(totalIssues: nat, totalPages: nat): real
  {
    if totalPages > 0 then RoundTenth(totalIssues as real / totalPages as real) else 0.0
  }

  // ---- `generate_summary` ----

  /** Counting one more issue. */
  lemma TallySnoc(facet: Facet, issues: seq<string>, issue: string)
    ensures Tally(facet, issues + [issue]) == Inc(Tally(facet, issues), KeyOf(facet, issue))
  {
    assert (issues + [issue])[..|issues|] == issues;
  }

  /** Adding one more page's issues to the flattened list. */
  lemma FlattenSnoc(results: seq<seq<string>>, i: int)
    requires 0 <= i < |results|
    ensures Flatten(results[..i + 1]) == Flatten(results[..i]) + results[i]
  {
    assert results[..i + 1][..i] == results[..i];
  }

  /** The inner loop of the counting in `generate_summary`: the category and severity counters,
      which have counted the issues `seen` so far, go on to count the issues of one more page. */
  method CountPage(categories: map<string, nat>, severities: map<string, nat>, ghost seen: seq<string>,
                   page: seq<string>) returns (categories': map<string, nat>, severities': map<string, nat>)
    requires categories == Tally(ByCategory, seen) && severities == Tally(BySeverity, seen)
    ensures categories' == Tally(ByCategory, seen + page) && severities' == Tally(BySeverity, seen + page)
  {
    categories', severities' := categories, severities;
    PrefixStep(seen, page, -1);
    for j := 0 to |page|
      invariant categories' == Tally(ByCategory, seen + page[..j])
      invariant severities' == Tally(BySeverity, seen + page[..j])
    {
      ghost var before := seen + page[..j];
      PrefixStep(seen, page, j);
      TallySnoc(ByCategory, before, page[j]);
      TallySnoc(BySeverity, before, page[j]);
      categories' := Inc(categories', CategorizeIssue(page[j]));
      severities' := Inc(severities', IssueSeverity(page[j]));
    }
    PrefixStep(seen, page, |page| - 1);
  }

  /** One more element of `b` after `a`, and the two ends of the walk along `b`. */
  lemma PrefixStep<T>(a: seq<T>, b: seq<T>, j: int)
    requires -1 <= j < |b|
    ensures j == -1 ==> a + b[..0] == a
    ensures 0 <= j ==> a + b[..j + 1] == (a + b[..j]) + [b[j]]
    ensures j == |b| - 1 ==> a + b[..j + 1] == a + b
  {
    if j == -1 {
      assert b[..0] == [];
    } else {
      assert b[..j + 1] == b[..j] + [b[j]];
    }
  }

  /** `generate_summary(all_results)`, with each result given by its issue list (an absent
      `issues` key is the empty list). */
  method GenerateSummary(results: seq<seq<string>>) returns (summary: Summary)
    ensures summary.totalPages == |results|
    ensures summary.totalIssues == SumLengths(results)
    ensures summary.issueCategories == Tally(ByCategory, Flatten(results))
    ensures summary.issueSeverities == Tally(BySeverity, Flatten(results))
    ensures summary.issueCounts == Tally(ByText, Flatten(results))
    ensures summary.pagesWithIssues == PagesWithIssues(results)
    ensures summary.issuePercentage == IssuePercentage(summary.pagesWithIssues, |results|)
    ensures summary.avgIssuesPerPage == AverageIssues(summary.totalIssues, |results|)
  {
    var totalPages := |results|;
    var totalIssues := SumLengths(results);
    var categories: map<string, nat> := map[];
    var severities: map<string, nat> := map[];
    for i := 0 to |results|
      invariant categories == Tally(ByCategory, Flatten(results[..i]))
      invariant severities == Tally(BySeverity, Flatten(results[..i]))
    {
      categories, severities := CountPage(categories, severities, Flatten(results[..i]), results[i]);
      FlattenSnoc(results, i);
    }
    var allIssues: seq<string> := [];
    for i := 0 to |results|
      invariant allIssues == Flatten(results[..i])
    {
      FlattenSnoc(results, i);
      allIssues := allIssues + results[i];
    }
    assert results[..|results|] == results;
    var pagesWithIssues := PagesWithIssues(results);
    summary := Summary(totalPages, totalIssues, pagesWithIssues,
      IssuePercentage(pagesWithIssues, totalPages), AverageIssues(totalIssues, totalPages),
      categories, severities, Tally(ByText, allIssues));
  }

  // ---- what the summary promises ----

  /** A counter holds exactly the keys of the counted issues. */
  lemma {:induction false} TallyKeys(facet: Facet, issues: seq<string>)
    ensures forall k :: k in Tally(facet, issues) <==> k in Keys(facet, issues)
  {
    if issues != [] {
      var init := issues[..|issues| - 1];
      TallyKeys(facet, init);
      forall k | true
        ensures k in Tally(facet, issues) <==> k in Tally(facet, init) || k == KeyOf(facet, issues[|issues| - 1])
      {
        IncCount(Tally(facet, init), KeyOf(facet, issues[|issues| - 1]), k);
      }
    }
  }

  /** A counter counts each key as often as it occurs among the keys of the issues. */
  lemma {:induction false} TallyCounts(facet: Facet, issues: seq<string>, k: string)
    ensures Count(Tally(facet, issues), k) == multiset(Keys(facet, issues))[k]
  {
    if issues != [] {
      var init, last := issues[..|issues| - 1], KeyOf(facet, issues[|issues| - 1]);
      TallyCounts(facet, init, k);
      IncCount(Tally(facet, init), last, k);
      assert multiset(Keys(facet, issues)) == multiset(Keys(facet, init)) + multiset{last};
    }
  }

  /** The counts of a counter add up to the number of issues counted. */
  lemma {:induction false} TallyTotal(facet: Facet, issues: seq<string>)
    ensures Total(Tally(facet, issues)) == |issues|
  {
    if issues != [] {
      var init := issues[..|issues| - 1];
      TallyTotal(facet, init);
      TotalInc(Tally(facet, init), KeyOf(facet, issues[|issues| - 1]));
    }
  }

  /** The issues of all pages, counted one by one, are as many as the pages' issue lists are
      long together. */
  lemma {:induction false} FlattenLength(results: seq<seq<string>>)
    ensures |Flatten(results)| == SumLengths(results)
  {
    if results != [] {
      FlattenLength(results[..|results| - 1]);
    }
  }

  /** The pages with issues are at most all pages and at most all issues, and there are none
      exactly when there are no issues at all. */
  lemma {:induction false} PagesWithIssuesBounds(results: seq<seq<string>>)
    ensures PagesWithIssues(results) <= |results|
    ensures PagesWithIssues(results) <= SumLengths(results)
    ensures PagesWithIssues(results) == 0 <==> SumLengths(results) == 0
  {
    if results != [] {
      PagesWithIssuesBounds(results[..|results| - 1]);
    }
  }

  /** What `generate_summary` promises: the category counts, the severity counts and the counts of
      the issue texts each add up to the total number of issues, which is the length of all issue
      lists together; each count is how often its key occurs; the pages with issues are at most
      all pages; the percentage lies in 0..100 and, like the average, is zero without pages. */
  lemma SummaryConsistent(results: seq<seq<string>>, summary: Summary)
    requires summary.totalPages == |results| && summary.totalIssues == SumLengths(results)
    requires summary.issueCategories == Tally(ByCategory, Flatten(results))
    requires summary.issueSeverities == Tally(BySeverity, Flatten(results))
    requires summary.issueCounts == Tally(ByText, Flatten(results))
    requires summary.pagesWithIssues == PagesWithIssues(results)
    requires summary.issuePercentage == IssuePercentage(summary.pagesWithIssues, |results|)
    requires summary.avgIssuesPerPage == AverageIssues(summary.totalIssues, |results|)
    ensures Total(summary.issueCategories) == summary.totalIssues
    ensures Total(summary.issueSeverities) == summary.totalIssues
    ensures Total(summary.issueCounts) == summary.totalIssues
    ensures forall k :: Count(summary.issueCategories, k) == multiset(Keys(ByCategory, Flatten(results)))[k]
    ensures forall k :: Count(summary.issueSeverities, k) == multiset(Keys(BySeverity, Flatten(results)))[k]
    ensures summary.pagesWithIssues <= summary.totalPages
    ensures summary.pagesWithIssues == 0 <==> summary.totalIssues == 0
    ensures 0.0 <= summary.issuePercentage <= 100.0
    ensures summary.avgIssuesPerPage >= 0.0
    ensures summary.totalPages == 0 ==> summary.issuePercentage == 0.0 && summary.avgIssuesPerPage == 0.0
  {
    FlattenLength(results);
    TallyTotal(ByCategory, Flatten(results));
    TallyTotal(BySeverity, Flatten(results));
    TallyTotal(ByText, Flatten(results));
    forall k | true
      ensures Count(summary.issueCategories, k) == multiset(Keys(ByCategory, Flatten(results)))[k]
      ensures Count(summary.issueSeverities, k) == multiset(Keys(BySeverity, Flatten(results)))[k]
    {
      TallyCounts(ByCategory, Flatten(results), k);
      TallyCounts(BySeverity, Flatten(results), k);
    }
    PagesWithIssuesBounds(results);
    if |results| > 0 {
      PercentageBounds(summary.pagesWithIssues, |results|);
    }
    AverageNonNegative(summary.totalIssues, |results|);
  }

  /** A share of pages, as a rounded percentage, lies in 0..100. */
  lemma PercentageBounds(part: nat, whole: nat)
    requires 0 < whole && part <= whole
    ensures 0.0 <= IssuePercentage(part, whole) <= 100.0
  {
    var x := part as real / whole as real * 100.0;
    ShareBounds(part as real, whole as real);
    var r := RoundHalfEven(x * 10.0);
    assert 0 <= r <= 1000;
  }

  /** A part of a positive whole is a share between 0 and 1. */
  lemma ShareBounds(part: real, whole: real)
    requires 0.0 < whole && 0.0 <= part <= whole
    ensures 0.0 <= part / whole <= 1.0
  {
    var q := part / whole;
    assert q * whole == part;
  }

  /** The average number of issues per page is never negative. */
  lemma AverageNonNegative(totalIssues: nat, totalPages: nat)
    ensures AverageIssues(totalIssues, totalPages) >= 0.0
  {
    if totalPages > 0 {
      var q := totalIssues as real / totalPages as real;
      assert q * totalPages as real == totalIssues as real;
      RoundTenthNonNegative(q);
    }
  }

  /** Rounding keeps a non-negative value non-negative. */
  lemma RoundTenthNonNegative(x: real)
    requires x >= 0.0
    ensures RoundTenth(x) >= 0.0
  {
    assert RoundHalfEven(x * 10.0) >= 0;
  }
}
