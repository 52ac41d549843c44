/**
 * The markdown summary of `write_outputs` (parse_cucumber_reports.py): a
 * list of lines built from the aggregate (a heading, the number of files,
 * the PASSED / FAILED / SKIPPED counts, up to five top reasons and up to
 * ten failures), joined with blank lines. Writing the file is not modelled.
 */
module MarkdownSummary {
  import opened PyText
  import opened Counters
  import opened Messages
  import opened ReportAggregation

  const Title := "# QA Automated Summary\n"
  const ReasonsHeading := "## Top failure reasons"
  const FailuresHeading := "\n## Top failing tests (first 10)"
  const ShownReasons := 5
  const ShownFailures := 10
  const Separator := "\n\n"

  function FilesLine(agg: Aggregate): string {
    "- Files parsed: " + IntToString(agg.filesParsed)
  }

  /** The counts line showing the texts `passed`, `failed` and `skipped`. */
  function CountsText(passed: string, failed: string, skipped: string): string {
    "- Passed: " + passed + "  •  Failed: " + failed + "  •  Skipped: " + skipped + "\n"
  }

  /** `c.get(k, 0)` for the three status keys: a missing key shows as 0. */
  function CountsLine(c: Counter): string {
    CountsText(IntToString(Get(c, PassedKey)), IntToString(Get(c, FailedKey)), IntToString(Get(c, SkippedKey)))
  }

  function ReasonLine(e: (string, int)): string {
    "- " + e.0 + " (count: " + IntToString(e.1) + ")"
  }

  function FailureLine(ff: FileFailure): string {
    "- " + ff.file + ": " + ff.failure.name + " — " + ff.failure.reason
  }

  /** One line per listed reason. */
  function ReasonLines(reasons: Counter): (ls: seq<string>)
    ensures |ls| == |reasons| && forall j :: 0 <= j < |reasons| ==> ls[j] == ReasonLine(reasons[j])
  {
    seq(|reasons|, j requires 0 <= j < |reasons| => ReasonLine(reasons[j]))
  }

  /** One line per listed failure. */
  function FailureLines(failures: seq<FileFailure>): (ls: seq<string>)
    ensures |ls| == |failures| && forall j :: 0 <= j < |failures| ==> ls[j] == FailureLine(failures[j])
  {
    seq(|failures|, j requires 0 <= j < |failures| => FailureLine(failures[j]))
  }

  /** The four lines before the reasons: title, files, counts, heading. */
  function Header(agg: Aggregate): (h: seq<string>)
    ensures |h| == 4 && h[0] == Title && h[3] == ReasonsHeading
    ensures h[1] == "- Files parsed: " + IntToString(agg.filesParsed) && h[2] == CountsLine(agg.counts)
  {
    [Title, FilesLine(agg), CountsLine(agg.counts), ReasonsHeading]
  }

  /** The lines of the summary, before joining. */
  function SummaryLines(agg: Aggregate): seq<string> {
    Header(agg)
    + ReasonLines(Take(agg.topFailureReasons, ShownReasons))
    + [FailuresHeading]
    + FailureLines(Take(agg.failures, ShownFailures))
  }

  /** The reason lines of `write_outputs`, appended one by one. */
  method AppendReasonLines(reasons: Counter) returns (rl: seq<string>)
    ensures rl == ReasonLines(reasons)
  {
    rl := [];
    var i := 0;
    while i < |reasons|
      invariant 0 <= i <= |reasons|
      invariant |rl| == i && forall j :: 0 <= j < i ==> rl[j] == ReasonLine(reasons[j])
    {
      rl := rl + [ReasonLine(reasons[i])];
      i := i + 1;
    }
  }

  /** The failure lines of `write_outputs`, appended one by one. */
  method AppendFailureLines(failures: seq<FileFailure>) returns (fl: seq<string>)
    ensures fl == FailureLines(failures)
  {
    fl := [];
    var i := 0;
    while i < |failures|
      invariant 0 <= i <= |failures|
      invariant |fl| == i && forall j :: 0 <= j < i ==> fl[j] == FailureLine(failures[j])
    {
      fl := fl + [FailureLine(failures[i])];
      i := i + 1;
    }
  }

  /** The markdown line list of `write_outputs`, built by appending. */
  method BuildSummary(agg: Aggregate) returns (md: seq<string>)
    ensures md == SummaryLines(agg)
  {
    var rl := AppendReasonLines(Take(agg.topFailureReasons, ShownReasons));
    var fl := AppendFailureLines(Take(agg.failures, ShownFailures));
    md := Header(agg) + rl + [FailuresHeading] + fl;
  }

  /** The text written to the summary file. */
  function SummaryText(agg: Aggregate): string {
    Join(SummaryLines(agg), Separator)
  }

  /** How many of `n` entries a section shows when it lists at most `limit`. */
  function Shown(n: nat, limit: nat): (k: nat)
    ensures k <= n && k <= limit && (k == n || k == limit)
  {
    if n < limit then n else limit
  }

  /** Where each part of `head + body + [mid] + tail` lands. */
  lemma SectionLayout<T>(head: seq<T>, body: seq<T>, mid: T, tail: seq<T>)
    ensures |head + body + [mid] + tail| == |head| + |body| + 1 + |tail|
    ensures (head + body + [mid] + tail)[|head| + |body|] == mid
    ensures forall j :: 0 <= j < |body| ==> (head + body + [mid] + tail)[|head| + j] == body[j]
    ensures forall j :: 0 <= j < |tail| ==> (head + body + [mid] + tail)[|head| + |body| + 1 + j] == tail[j]
  {
  }

  /** The summary is the four fixed lines, the shown reasons, the
      failures heading and the shown failures. */
  lemma SummaryLength(agg: Aggregate)
    ensures |SummaryLines(agg)| == 5 + Shown(|agg.topFailureReasons|, ShownReasons) + Shown(|agg.failures|, ShownFailures)
    ensures SummaryLines(agg)[0] == Title && SummaryLines(agg)[3] == ReasonsHeading
    ensures SummaryLines(agg)[4 + Shown(|agg.topFailureReasons|, ShownReasons)] == FailuresHeading
  {
    var head := Header(agg);
    SectionLayout(head, ReasonLines(Take(agg.topFailureReasons, ShownReasons)), FailuresHeading,
                  FailureLines(Take(agg.failures, ShownFailures)));
  }

  /** The shown reason lines follow the head, one per entry of the ranking. */
  lemma ReasonLinesAfter(head: seq<string>, top: Counter, mid: string, tail: seq<string>)
    ensures forall j :: 0 <= j < Shown(|top|, ShownReasons) ==>
              (head + ReasonLines(Take(top, ShownReasons)) + [mid] + tail)[|head| + j] == ReasonLine(top[j])
  {
    var reasons := Take(top, ShownReasons);
    var rl := ReasonLines(reasons);
    SectionLayout(head, rl, mid, tail);
    forall j | 0 <= j < |reasons|
      ensures (head + rl + [mid] + tail)[|head| + j] == ReasonLine(top[j])
    {
      assert reasons[j] == top[j];
    }
  }

  /** The shown failure lines follow the middle line, one per failure. */
  lemma FailureLinesAfter(head: seq<string>, failures: seq<FileFailure>, mid: string)
    ensures forall j :: 0 <= j < Shown(|failures|, ShownFailures) ==>
              (head + [mid] + FailureLines(Take(failures, ShownFailures)))[|head| + 1 + j] == FailureLine(failures[j])
  {
    var shown := Take(failures, ShownFailures);
    var fl := FailureLines(shown);
    SectionLayout(head, [], mid, fl);
    assert head + [] + [mid] + fl == head + [mid] + fl;
    forall j | 0 <= j < |shown|
      ensures (head + [mid] + fl)[|head| + 1 + j] == FailureLine(failures[j])
    {
      assert shown[j] == failures[j];
    }
  }

  /** Line `4 + j` is the `j`-th reason of the ranking, for each shown `j`. */
  lemma SummaryReasons(agg: Aggregate)
    ensures forall j :: 0 <= j < Shown(|agg.topFailureReasons|, ShownReasons) ==>
              SummaryLines(agg)[4 + j] == ReasonLine(agg.topFailureReasons[j])
  {
    var head := Header(agg);
    var tail := FailureLines(Take(agg.failures, ShownFailures));
    assert |head| == 4;
    assert SummaryLines(agg) == head + ReasonLines(Take(agg.topFailureReasons, ShownReasons)) + [FailuresHeading] + tail;
    ReasonLinesAfter(head, agg.topFailureReasons, FailuresHeading, tail);
    var md := head + ReasonLines(Take(agg.topFailureReasons, ShownReasons)) + [FailuresHeading] + tail;
    forall j | 0 <= j < Shown(|agg.topFailureReasons|, ShownReasons)
      ensures md[4 + j] == ReasonLine(agg.topFailureReasons[j])
    {
      assert md[|head| + j] == ReasonLine(agg.topFailureReasons[j]);
    }
  }

  /** Line `5 + r + j` (with `r` shown reasons) is the `j`-th failure, for
      each shown `j`. */
  lemma SummaryFailures(agg: Aggregate)
    ensures forall j :: 0 <= j < Shown(|agg.failures|, ShownFailures) ==>
              SummaryLines(agg)[5 + Shown(|agg.topFailureReasons|, ShownReasons) + j] == FailureLine(agg.failures[j])
  {
    var head := Header(agg)
                + ReasonLines(Take(agg.topFailureReasons, ShownReasons));
    assert |head| == 4 + Shown(|agg.topFailureReasons|, ShownReasons);
    FailureLinesAfter(head, agg.failures, FailuresHeading);
  }

  /** The summary is the title, the files line and the counts line, the
      reasons heading, at most 5 reasons (the first ones of the ranking),
      the failures heading and at most 10 failures (the first ones of the
      failure list). */
  lemma SummaryLinesShape(agg: Aggregate)
    ensures |SummaryLines(agg)| == 5 + Shown(|agg.topFailureReasons|, ShownReasons) + Shown(|agg.failures|, ShownFailures)
    ensures SummaryLines(agg)[0] == Title && SummaryLines(agg)[3] == ReasonsHeading
    ensures SummaryLines(agg)[1] == "- Files parsed: " + IntToString(agg.filesParsed)
    ensures SummaryLines(agg)[2] == CountsLine(agg.counts)
    ensures SummaryLines(agg)[4 + Shown(|agg.topFailureReasons|, ShownReasons)] == FailuresHeading
    ensures forall j :: 0 <= j < Shown(|agg.topFailureReasons|, ShownReasons) ==>
              SummaryLines(agg)[4 + j] == ReasonLine(agg.topFailureReasons[j])
    ensures forall j :: 0 <= j < Shown(|agg.failures|, ShownFailures) ==>
              SummaryLines(agg)[5 + Shown(|agg.topFailureReasons|, ShownReasons) + j] == FailureLine(agg.failures[j])
  {
    SummaryLength(agg);
    SummaryReasons(agg);
    SummaryFailures(agg);
  }

  /** Each status key the counter lacks is shown with count 0, whatever
      the other two keys hold. */
  lemma MissingCountsShowZero(c: Counter)
    ensures PassedKey !in Keys(c) ==>
              CountsLine(c) == CountsText("0", IntToString(Get(c, FailedKey)), IntToString(Get(c, SkippedKey)))
    ensures FailedKey !in Keys(c) ==>
              CountsLine(c) == CountsText(IntToString(Get(c, PassedKey)), "0", IntToString(Get(c, SkippedKey)))
    ensures SkippedKey !in Keys(c) ==>
              CountsLine(c) == CountsText(IntToString(Get(c, PassedKey)), IntToString(Get(c, FailedKey)), "0")
  {
    assert IntToString(0) == "0";
    if PassedKey !in Keys(c) {
      GetAbsent(c, PassedKey);
    }
    if FailedKey !in Keys(c) {
      GetAbsent(c, FailedKey);
    }
    if SkippedKey !in Keys(c) {
      GetAbsent(c, SkippedKey);
    }
  }

  /** Every line of the summary occurs in the written text. */
  lemma SummaryTextHasLines(agg: Aggregate, j: nat)
    requires j < |SummaryLines(agg)|
    ensures Contains(SummaryText(agg), SummaryLines(agg)[j])
  {
    JoinContainsParts(SummaryLines(agg), Separator, j);
  }
}
