# Cucumber failure-report aggregation, modelled in Dafny

This project models the failure-report pipeline of the QA reporting
scripts. It has two halves.

- `scripts/parse_cucumber_reports.py` reads decoded Cucumber messages or,
  when a report has none, scraped DOM nodes. It counts step statuses and
  builds one failure record per failed step or node. It merges the files
  into one aggregate and lists that aggregate as a markdown summary.
- The live part of `scripts/dashboard_generator.py` (lines 335-522)
  normalises failure records and ranks reasons and tests. It finds tests
  that fail in several files and suggests remedies. It computes the
  values the HTML dashboard shows.

Each imperative loop of the source is a Dafny `method` with a `while`
loop. The method is proved equal to a prefix-recursive specification
function, and the lemmas state what the source promises about those
functions.

Modules, in pipeline order:

- `PyText`: Python's `strip`, `splitlines`, ASCII `upper`/`lower`,
  slicing, the `in` substring test and `"sep".join`.
- `Counters`: `collections.Counter` as an insertion-ordered association
  list. `most_common(n)` is a stable sort by descending count followed by
  taking `n` entries.
- `ExcPattern`: the two exception-token regexes. They are modelled
  concretely, following the backtracking order of Python's regex engine:
  leftmost start, a greedy name run shortened from its end, alternatives
  tried in order, ASCII case ignored.
- `Messages`: Cucumber message records with optional fields. A field
  value is `Option<string>`, with `None` for a missing key or `null`. The
  module also holds the truthiness rules of `or` chains.
- `ReasonExtraction`, `MessageAggregation`, `DomFallback`,
  `ReportAggregation`, `MarkdownSummary`: the parser script.
- `DashboardMetrics`, `DashboardAnalysis`, `DashboardRecommendations`,
  `DashboardView`: the dashboard script.
- `ReportToDashboard`: what the dashboard makes of the parser's own
  output. The parser writes the keys `files_parsed`, `counts`,
  `total_failures`, `failures` and `top_failure_reasons`. The dashboard
  reads `total`, `passed`, `failed`, `skipped` and `failures`, and it
  reads each failure's `error`, which the parser never writes. Fed the
  parser's JSON, the dashboard therefore shows 0 tests and a 0 % pass
  rate, and it normalises each failure's trace instead of its reason.
- `TimeoutReasonScan`, `DashboardScenario`: a worked example. Ten tests
  (7 passed, 2 failed, 1 skipped) whose two failures are
  `TimeoutError: slow` in test `t1`, once in `a.html` and once in
  `b.html`, yield this page:
  - a pass rate of 70;
  - one chart bar "TimeoutError";
  - `t1` recurring in 2 files;
  - the timeout remedy.

The model follows the code in these points:

- A started test case maps to one id. That id is looked up among the
  test-case names and then among the pickle names. There is no
  testCase → pickle chain.
- The aggregate carries no `total`/`passed`/`failed`/`skipped` keys.
- The DOM fallback has no whole-document keyword counting.
- A test's example trace is its first failure with a non-empty error.
  It is not simply its first failure.

## Model

| member | source | states |
|---|---|---|
| PyText.StripEmptyIffBlank | scripts/parse_cucumber_reports.py:33 | `line.strip()` is empty exactly when every character of the line is Python whitespace |
| PyText.BlankIffLinesBlank | scripts/parse_cucumber_reports.py:32-35 | a text is blank exactly when every line `splitlines` cuts it into is blank |
| PyText.SplitLines | scripts/parse_cucumber_reports.py:32 | `splitlines` yields no lines exactly for the empty text, and no line it yields contains a line-break character |
| PyText.Take | scripts/parse_cucumber_reports.py:30 | a slice `[:n]` is a prefix of length `min(n, len)` |
| Counters.Add | scripts/parse_cucumber_reports.py:103 | `c[k] += n` adds `n` to `k` and to the total, changes no other count, appends `k` only when it is new, and keeps keys distinct |
| Counters.CountOfCounts | scripts/parse_cucumber_reports.py:137 | counting a list gives every element its number of occurrences, distinct keys and a total equal to the list's length |
| Counters.CountOfOrder | scripts/parse_cucumber_reports.py:137 | the counter's keys are exactly the list's elements, in order of first occurrence |
| Counters.SortByCountSpec | scripts/parse_cucumber_reports.py:138 | sorting by count gives non-increasing counts and a permutation, keeps the total, and keeps the first-seen order among equal counts |
| Counters.MostCommonSpec | scripts/parse_cucumber_reports.py:138 | `most_common(n)` has `min(n, len)` entries with non-increasing counts, drawn from the counter; ties keep first-seen order; no left-out entry outranks a kept one |
| Counters.MostCommonBounds | scripts/parse_cucumber_reports.py:138 | `most_common(n)` has at most `n` entries, in non-increasing count order |
| ExcPattern.MatchAtSpec | scripts/parse_cucumber_reports.py:21 | from a start position, the match found is the longest name run ending in a suffix, with the earliest suffix alternative at that end; no match means no such token starts there |
| ExcPattern.SearchSpec | scripts/parse_cucumber_reports.py:21-26 | `EXC_RE.search` finds nothing exactly when no token occurs anywhere; otherwise it finds the leftmost start and, from it, the longest token |
| ExcPattern.TokenShape | scripts/parse_cucumber_reports.py:28 | the matched group is a non-empty run of `[A-Za-z0-9_.]` followed by one of the suffixes, case ignored |
| ExcPattern.RestOfLine | scripts/parse_cucumber_reports.py:29 | the optional second group is non-empty and stays on one line |
| Messages.Or | scripts/parse_cucumber_reports.py:72 | `a or b` is `a` when `a` is truthy and `b` otherwise, so it is truthy exactly when one of them is |
| Messages.OrElse | scripts/parse_cucumber_reports.py:119 | a trailing `or default` yields the value when it is truthy, the default otherwise |
| ReasonExtraction.FirstNonBlankNone | scripts/parse_cucumber_reports.py:32-35 | the line scan finds nothing exactly when every line is blank |
| ReasonExtraction.FirstNonBlankAt | scripts/parse_cucumber_reports.py:32-34 | the line scan returns the first non-blank line, stripped and cut to 1000 characters, and it is non-empty |
| ReasonExtraction.ExtractReasonSpec | scripts/parse_cucumber_reports.py:23-35 | the reason is None exactly for empty or blank text; otherwise it is non-empty and at most 1000 characters; it starts with the exception token when there is one, and is otherwise the first non-blank line |
| MessageAggregation.Pair | scripts/parse_cucumber_reports.py:73-74 | a name is recorded exactly when both the id and the name are truthy |
| MessageAggregation.CollectKeys | scripts/parse_cucumber_reports.py:65-91 | an id is in a first-pass map exactly when some message declares it |
| MessageAggregation.LastDeclarationWins | scripts/parse_cucumber_reports.py:65-91 | the value stored for an id is the one from its last declaring message |
| MessageAggregation.FirstPass | scripts/parse_cucumber_reports.py:65-91 | the first loop builds the three id maps of the whole message list |
| MessageAggregation.CollectNamesValid | scripts/parse_cucumber_reports.py:69-91 | every stored name or target is non-empty |
| MessageAggregation.ResolveNameSpec | scripts/parse_cucumber_reports.py:115-119 | no started id gives "Unknown test"; otherwise the mapped id, or the started id itself when unmapped, is looked up in test-case names, then pickle names, then falls back to "Unknown test" |
| MessageAggregation.ResolvedNameIsDeclared | scripts/parse_cucumber_reports.py:115-119 | a resolved name is never empty and is either "Unknown test" or a name some message declared |
| MessageAggregation.StatusCountsSpec | scripts/parse_cucumber_reports.py:98-103 | every step event adds exactly one to its upper-cased status; keys are distinct; the total is the number of step events |
| MessageAggregation.StatusCountsKeys | scripts/parse_cucumber_reports.py:98-131 | a status is a key exactly when a step event or a test-case-finished event carries it, so the latter add zero-valued keys only |
| MessageAggregation.FailedStepsCount | scripts/parse_cucumber_reports.py:105 | the failed steps are exactly the step events counted under "FAILED" |
| MessageAggregation.ExceptionReason | scripts/parse_cucumber_reports.py:110-111 | a structured exception reason is non-empty |
| MessageAggregation.FailureOfSpec | scripts/parse_cucumber_reports.py:105-125 | a failure's reason comes from the exception type, then from the message text, then is "Unknown failure", so it is never empty; its trace is the message cut to 5000 characters |
| MessageAggregation.FailuresFollowFailedSteps | scripts/parse_cucumber_reports.py:105-125 | there is exactly one failure per FAILED step, in message order |
| MessageAggregation.SecondPass | scripts/parse_cucumber_reports.py:94-131 | the second loop produces the status counter and the failure list of the whole message list |
| MessageAggregation.ParseMessages | scripts/parse_cucumber_reports.py:55-145 | `parse_messages` returns the step total, the counts, the failures and the ten top reasons of its messages |
| MessageAggregation.NonObjectIgnored | scripts/parse_cucumber_reports.py:66-96 | inserting a non-object message anywhere changes nothing in the result |
| MessageAggregation.FailuresWellFormed | scripts/parse_cucumber_reports.py:115-125 | every failure has a non-empty name and reason and a trace of at most 5000 characters |
| MessageAggregation.ParseSpecTotals | scripts/parse_cucumber_reports.py:133-138 | the step total is None exactly when no status was recorded and otherwise counts the step events; failures equal the FAILED count; reason counts sum to the failures; at most 10 top reasons, non-increasing |
| DomFallback.ClassifyPrecedence | scripts/parse_cucumber_reports.py:157-164 | a status is PASS if it contains "PASS", else SKIP if it contains "SKIP", else FAIL if it contains "FAIL" |
| DomFallback.TraceParts | scripts/parse_cucumber_reports.py:167-171 | every trace part is non-empty, and there are no more parts than trace elements |
| DomFallback.CollectTraceParts | scripts/parse_cucumber_reports.py:167-171 | the loop over a failed node's `pre`/`code`/`div` texts builds its trace parts |
| DomFallback.TracePartsStep | scripts/parse_cucumber_reports.py:167-171 | each element in document order appends its stripped text when that is non-empty and nothing otherwise |
| DomFallback.TracePartsMembers | scripts/parse_cucumber_reports.py:167-171 | every trace part is the stripped text of some element, and every element with a non-empty stripped text gives a part |
| DomFallback.NodeFailureSpec | scripts/parse_cucumber_reports.py:165-174 | a failed node's failure has a non-empty name and reason, a trace of at most 5000 characters, "Unknown failure" for a blank trace, and otherwise the reason extracted from the trace |
| DomFallback.FallbackDomParse | scripts/parse_cucumber_reports.py:153-177 | the node loop yields the DOM summary of its nodes |
| DomFallback.ClassesPartition | scripts/parse_cucumber_reports.py:156-164 | every node falls in exactly one class |
| DomFallback.OneFailurePerFailedNode | scripts/parse_cucumber_reports.py:163-175 | there is one failure record per failed node |
| DomFallback.DomSpecTotals | scripts/parse_cucumber_reports.py:154-177 | total is the node count; passed + skipped + failed ≤ total; failures equal failed; at most 10 top reasons, non-increasing |
| ReportAggregation.MergeCounts | scripts/parse_cucumber_reports.py:195-196 | the count-merging loop adds every count of the file to the running counter |
| ReportAggregation.AppendFailures | scripts/parse_cucumber_reports.py:197-199 | the file's failures are appended, tagged with its name, and the reason counter counts every appended reason |
| ReportAggregation.AggregateReports | scripts/parse_cucumber_reports.py:180-217 | `aggregate_reports` returns the aggregate of its files |
| ReportAggregation.FailuresMatchFailedCount | scripts/parse_cucumber_reports.py:186-208 | the aggregated failures are exactly as many as the aggregated FAILED count |
| ReportAggregation.CountsAreSummed | scripts/parse_cucumber_reports.py:194-205 | the aggregated count of a status is the sum of what each file contributes, with DOM files contributing under PASSED, FAILED and SKIPPED |
| ReportAggregation.FailuresInPathOrder | scripts/parse_cucumber_reports.py:186-208 | each file's tagged failures follow those of the files before it |
| ReportAggregation.AggregateTotals | scripts/parse_cucumber_reports.py:210-216 | files parsed is the number of paths; total failures is the length of the failure list and the FAILED count; at most 10 top reasons, non-increasing |
| MarkdownSummary.BuildSummary | scripts/parse_cucumber_reports.py:224-234 | the loop builds the summary's line list |
| MarkdownSummary.SummaryLinesShape | scripts/parse_cucumber_reports.py:224-234 | the summary has the title, the files-parsed line, the counts line, the reasons heading, the first (at most 5) ranked reasons, the failures heading and the first (at most 10) failures, in that order |
| MarkdownSummary.MissingCountsShowZero | scripts/parse_cucumber_reports.py:227-228 | each of PASSED, FAILED and SKIPPED that the counter lacks is shown as 0, whatever the other two hold |
| MarkdownSummary.SummaryTextHasLines | scripts/parse_cucumber_reports.py:236 | every line appears in the text joined with blank lines |
| DashboardMetrics.NormalizeReasonSpec | scripts/dashboard_generator.py:337-342 | the reason is never empty; empty text gives "Unknown"; a found token is the matched slice of the text, a name run ending in a suffix; otherwise it is the stripped first line cut to 120 characters, or "Unknown" when that line is blank |
| DashboardMetrics.NormalizeFailureSpec | scripts/dashboard_generator.py:351-355 | name falls back name → file → "Unnamed Test"; error falls back error → trace → ""; a missing file becomes "" |
| DashboardMetrics.GatherMetrics | scripts/dashboard_generator.py:344-356 | totals are the input values or 0; the failures keep their number and order and are each normalised |
| DashboardAnalysis.CollectFailureStats | scripts/dashboard_generator.py:363-369 | the loop counts reasons and tests, records each test's distinct files in first-seen order, and keeps the first 3 stripped errors of each reason |
| DashboardAnalysis.TopReasonsWithExamples | scripts/dashboard_generator.py:370 | the ten top reasons each carry the first 2 of their kept examples |
| DashboardAnalysis.CollectRecurring | scripts/dashboard_generator.py:372 | the recurring list is built from the tests with more than one file |
| DashboardAnalysis.AnalyzeFailures | scripts/dashboard_generator.py:358-373 | `analyze_failures` returns the analysis of its failures |
| DashboardAnalysis.CountsSumToFailures | scripts/dashboard_generator.py:366-367 | the reason counts and the test counts each sum to the number of failures |
| DashboardAnalysis.RankingBounds | scripts/dashboard_generator.py:370-371 | at most 10 reasons and 15 tests are ranked, each by non-increasing count |
| DashboardAnalysis.ErrorsWithReasonCount | scripts/dashboard_generator.py:365-369 | each failure with a reason contributes one stripped error, so a reason has as many recorded errors as its count |
| DashboardAnalysis.WithExamplesSpec | scripts/dashboard_generator.py:369-370 | a ranked reason keeps its count, which is its number of failures, and carries exactly `min(2, count)` examples: the stripped errors of its earliest failures |
| DashboardAnalysis.AnalysisTotals | scripts/dashboard_generator.py:363-371 | the counting identities, the ranking bounds and the `min(2, count)` examples per reason together |
| DashboardAnalysis.ExamplesFromEarliest | scripts/dashboard_generator.py:369 | the examples seen after any prefix of the failures are a prefix of all of them |
| DashboardAnalysis.ExamplesHaveTheirReason | scripts/dashboard_generator.py:365-369 | every example is the stripped error of a failure whose reason it illustrates |
| DashboardAnalysis.RecurringMembers | scripts/dashboard_generator.py:361-372 | a test is recurring exactly when its failures carry more than one distinct file value |
| DashboardAnalysis.RecurringCounts | scripts/dashboard_generator.py:372 | each entry's occurrences is its number of distinct files |
| DashboardAnalysis.RecurringOrder | scripts/dashboard_generator.py:361-372 | entries follow the order of the tests' first failures |
| DashboardAnalysis.RecurringSpec | scripts/dashboard_generator.py:361-372 | recurring lists exactly the tests failing in several distinct files (the empty string counting as a file), with that number, in first-failure order |
| DashboardRecommendations.FirstMatch | scripts/dashboard_generator.py:379-380 | the rule found is the first one whose pattern occurs in the reason, case ignored; none means no rule matches |
| DashboardRecommendations.TryRules | scripts/dashboard_generator.py:379-382 | the rule loop adds the first matching rule's hint once, unless the reason was already suggested |
| DashboardRecommendations.GenerateRecommendations | scripts/dashboard_generator.py:375-385 | `generate_recommendations` returns the rules' suggestions, or the generic one when there are none |
| DashboardRecommendations.MatchedSpec | scripts/dashboard_generator.py:378-382 | suggestions name each reason at most once, only input reasons, each with its first matching rule's hint |
| DashboardRecommendations.MatchedComplete | scripts/dashboard_generator.py:378-382 | every reason some rule matches is suggested |
| DashboardRecommendations.NothingMatched | scripts/dashboard_generator.py:378-383 | when no reason matches any rule, the rules suggest nothing |
| DashboardRecommendations.MatchedOrder | scripts/dashboard_generator.py:378-382 | suggestions follow the order of their reasons' first appearance |
| DashboardRecommendations.RecommendationsSpecProps | scripts/dashboard_generator.py:375-385 | the output is empty exactly for empty input; no reason twice; each matched reason gets its first rule's hint; with no match at all, the single generic suggestion for the first reason |
| DashboardRecommendations.RecommendationsOrder | scripts/dashboard_generator.py:378-381 | suggestions are in the order of the ranked reasons |
| DashboardView.PassRate | scripts/dashboard_generator.py:392 | the pass rate is 0 when total is 0 and otherwise passed/total × 100 |
| DashboardView.PassRateBounds | scripts/dashboard_generator.py:392-393 | with 0 ≤ passed ≤ total the rate is a percentage: 100 when all pass, 0 when none does |
| DashboardView.BuildExampleMap | scripts/dashboard_generator.py:398-401 | the loop builds the example map of the failures |
| DashboardView.ExampleMapSpec | scripts/dashboard_generator.py:398-401 | a test has an example exactly when one of its failures has a non-empty error, and the example is the first such error |
| DashboardView.MakePage | scripts/dashboard_generator.py:387-522 | `make_html` shows the page values of its metrics and analysis |
| DashboardView.PageShows | scripts/dashboard_generator.py:392-468 | the chart has one labelled bar per ranked reason; health equals pass rate; each top test gets a row whose trace is its first non-empty error or "No trace available" |
| ReportToDashboard.DashboardReadsParserSummary | scripts/dashboard_generator.py:344-356 | fed the parser's aggregate, the dashboard reads every total as 0 and the pass rate as 0; it keeps each failure's file and name and uses its trace as the error |
| TimeoutReasonScan.TimeoutReason | scripts/dashboard_generator.py:337-340 | the reason of "TimeoutError: slow" is "TimeoutError" |
| DashboardScenario.TwoFailuresAnalysis | scripts/dashboard_generator.py:358-373 | two failures of one test with the same error in two files give one ranked reason with both examples, the test counted twice and recurring in 2 files |
| DashboardScenario.FirstRuleOnly | scripts/dashboard_generator.py:378-382 | a single ranked reason matched by the timeout rule gets exactly the timeout hint |
| DashboardScenario.TwoFailuresPage | scripts/dashboard_generator.py:387-403 | such two failures with a timeout reason give one chart bar of height 2, one test row with its error, one recurring entry and the timeout suggestion |
| DashboardScenario.TimeoutDashboard | scripts/dashboard_generator.py:387-403 | the 10/7/2/1 report with two "TimeoutError: slow" failures shows a pass rate of 70, bar "TimeoutError", `t1` recurring in 2 files and the timeout suggestion |

## Left out

- scripts/send_email_smtp.py: environment reads, a file read and SMTP delivery; it is I/O only.
- `parse_cucumber_messages_from_html`: a regex over raw HTML followed by `json.loads`. The model takes the decoded message list, or its absence, as input.
- BeautifulSoup loading and traversal, and the `RuntimeError` raised when it is missing. A node is given by its `data-status`, `data-name`, text and the `get_text` results of its `pre`/`code`/`div` descendants.
- File reading, `argparse`, directory globbing, `main`, `json.dump` and the file write of `write_outputs`. A file's base name is an input.
- HTML, CSS and JavaScript templating, `html.escape` and `json.dumps` in `make_html`. The page is modelled as the values it shows.
- Floating point and the `:.1f` formatting of the pass rate. `DashboardView.PassRate` uses exact real arithmetic.
- Unicode case mapping. `upper`, `lower` and the `re.I` matching are ASCII-only in the model: non-ASCII letters are left unchanged, so statuses such as "é" and "É", one counter key in Python, are two keys in the model.
- JSON values of unexpected types, such as a non-string status, a non-dict `testStepResult`, or non-integer totals. Every field is a string or absent, and a totals field is an integer or absent.
- Lines 1-310 and 525-1303 of scripts/dashboard_generator.py. They are a commented-out older version and unreachable text after `return html`.
- ReasonExtraction.ExtractReasonSpec: states that a found token starts the reason; the exact `token + ": " + message` shape is defined in `ReasonExtraction.ExtractReasonFromText` but not restated as a lemma.
- DashboardView.PageShows: the cut of the top tests at 20 is modelled, but since at most 15 tests are ranked it never drops a row, and the lemma states only that no row is lost.
