/**
 * `aggregate_reports` (parse_cucumber_reports.py): every report file is
 * read either through its embedded Cucumber messages or, when it has none,
 * through the DOM fallback; status counts are summed across files, every
 * failure is tagged with the base name of its file, and the reasons of all
 * failures are ranked.
 *
 * The extraction of the message list from the HTML text is not modelled: a
 * report file carries its decoded message list (`None` when the text holds
 * none) and its status-carrying nodes.
 */
module ReportAggregation {
  import opened Wrappers
  import opened Counters
  import opened Messages
  import opened MessageAggregation
  import opened DomFallback

  const PassedKey := "PASSED"
  const FailedKey := "FAILED"
  const SkippedKey := "SKIPPED"
  const TopAggregateReasons := 10

  /** A report file: its base name, its decoded message list, and its nodes. */
  datatype ReportFile = ReportFile(name: string, messages: Option<seq<Message>>, nodes: seq<Node>)

  /** `if messages:` — a missing or empty message list takes the DOM path. */
  predicate UsesMessages(f: ReportFile) {
    f.messages.Some? && f.messages.value != []
  }

  /** The failure records one file contributes, untagged. */
  function FileFailures(f: ReportFile): seq<Failure> {
    if UsesMessages(f) then ParseSpec(f.messages.value).failures else DomSpec(f.nodes).failures
  }

  /** The running status counts after one more file: the message path adds
      every status count of the file; the DOM path adds its passed, failed
      and skipped totals under PASSED, FAILED and SKIPPED, in that order. */
  function MergeFile(acc: Counter, f: ReportFile): Counter {
    if UsesMessages(f) then AddAll(acc, ParseSpec(f.messages.value).counts)
    else
      var d := DomSpec(f.nodes);
      Add(Add(Add(acc, PassedKey, d.passed), FailedKey, d.failed), SkippedKey, d.skipped)
  }

  function AggCounts(files: seq<ReportFile>): Counter {
    if files == [] then [] else MergeFile(AggCounts(files[..|files| - 1]), files[|files| - 1])
  }

  /** `{'file': name, **f}` for each failure of a file. */
  function Tag(name: string, fs: seq<Failure>): (r: seq<FileFailure>)
    ensures |r| == |fs| && forall j :: 0 <= j < |fs| ==> r[j] == FileFailure(name, fs[j])
  {
    seq(|fs|, j requires 0 <= j < |fs| => FileFailure(name, fs[j]))
  }

  /** The failures of all files, in path order, each tagged with its file. */
  function AggFailures(files: seq<ReportFile>): seq<FileFailure> {
    if files == [] then []
    else AggFailures(files[..|files| - 1]) + Tag(files[|files| - 1].name, FileFailures(files[|files| - 1]))
  }

  /** The reasons of a list of tagged failures, in order. */
  function FileReasons(ffs: seq<FileFailure>): (rs: seq<string>)
    ensures |rs| == |ffs| && forall j :: 0 <= j < |ffs| ==> rs[j] == ffs[j].failure.reason
  {
    seq(|ffs|, j requires 0 <= j < |ffs| => ffs[j].failure.reason)
  }

  datatype Aggregate = Aggregate(filesParsed: int, counts: Counter, totalFailures: int,
                                 failures: seq<FileFailure>, topFailureReasons: Counter)

  /** What `aggregate_reports(files)` returns. */
  function AggregateSpec(files: seq<ReportFile>): Aggregate {
    var failures := AggFailures(files);
    Aggregate(|files|, AggCounts(files), |failures|, failures,
              MostCommon(CountOf(FileReasons(failures)), TopAggregateReasons))
  }

  /** `for k, v in counts.items(): agg_counts[k] += v`. */
  method MergeCounts(acc: Counter, c: Counter) returns (r: Counter)
    ensures r == AddAll(acc, c)
  {
    r := acc;
    var i := 0;
    while i < |c|
      invariant 0 <= i <= |c|
      invariant r == AddAll(acc, c[..i])
    {
      assert c[..i + 1][..i] == c[..i];
      r := Add(r, c[i].0, c[i].1);
      i := i + 1;
    }
    assert c[..|c|] == c;
  }

  /** Tagging one more failure adds its reason to the reason list. */
  lemma FileReasonsAppend(ffs: seq<FileFailure>, ff: FileFailure)
    ensures FileReasons(ffs + [ff]) == FileReasons(ffs) + [ff.failure.reason]
  {
  }

  lemma TagStep(name: string, fs: seq<Failure>, j: nat)
    requires j < |fs|
    ensures Tag(name, fs[..j + 1]) == Tag(name, fs[..j]) + [FileFailure(name, fs[j])]
  {
  }

  /** The loop over one file's failures: each is appended with its file's
      name, and its reason is counted. */
  method AppendFailures(failures: seq<FileFailure>, reasons: Counter, name: string, fs: seq<Failure>)
    returns (failures': seq<FileFailure>, reasons': Counter)
    requires reasons == CountOf(FileReasons(failures))
    ensures failures' == failures + Tag(name, fs)
    ensures reasons' == CountOf(FileReasons(failures'))
  {
    failures', reasons' := failures, reasons;
    var j := 0;
    while j < |fs|
      invariant 0 <= j <= |fs|
      invariant failures' == failures + Tag(name, fs[..j])
      invariant reasons' == CountOf(FileReasons(failures'))
    {
      var ff := FileFailure(name, fs[j]);
      TagStep(name, fs, j);
      assert failures + Tag(name, fs[..j + 1]) == failures' + [ff];
      FileReasonsAppend(failures', ff);
      CountOfAppend(FileReasons(failures'), ff.failure.reason);
      failures' := failures' + [ff];
      reasons' := Add(reasons', ff.failure.reason, 1);
      j := j + 1;
    }
    assert fs[..|fs|] == fs;
  }

  /** What one more file adds to the running totals. */
  lemma FileStep(files: seq<ReportFile>, i: nat)
    requires i < |files|
    ensures AggCounts(files[..i + 1]) == MergeFile(AggCounts(files[..i]), files[i])
    ensures AggFailures(files[..i + 1]) == AggFailures(files[..i]) + Tag(files[i].name, FileFailures(files[i]))
  {
    assert files[..i + 1][..i] == files[..i];
  }

  /** `aggregate_reports`. */
  method AggregateReports(files: seq<ReportFile>) returns (agg: Aggregate)
    ensures agg == AggregateSpec(files)
  {
    var failures: seq<FileFailure> := [];
    var counts: Counter := [];
    var reasons: Counter := [];
    var filesParsed := 0;
    var i := 0;
    while i < |files|
      invariant 0 <= i <= |files|
      invariant filesParsed == i
      invariant counts == AggCounts(files[..i])
      invariant failures == AggFailures(files[..i])
      invariant reasons == CountOf(FileReasons(failures))
    {
      FileStep(files, i);
      var f := files[i];
      filesParsed := filesParsed + 1;
      if f.messages.Some? && f.messages.value != [] {
        var res := ParseMessages(f.messages.value);
        counts := MergeCounts(counts, res.counts);
        failures, reasons := AppendFailures(failures, reasons, f.name, res.failures);
      } else {
        var res := FallbackDomParse(f.nodes);
        counts := Add(counts, PassedKey, res.passed);
        counts := Add(counts, FailedKey, res.failed);
        counts := Add(counts, SkippedKey, res.skipped);
        failures, reasons := AppendFailures(failures, reasons, f.name, res.failures);
      }
      i := i + 1;
    }
    assert files[..|files|] == files;
    agg := Aggregate(filesParsed, counts, |failures|, failures, MostCommon(reasons, TopAggregateReasons));
  }

  /** A file contributes as many failures as the FAILED count it adds. */
  lemma FileFailedCount(acc: Counter, f: ReportFile)
    ensures Get(MergeFile(acc, f), FailedKey) == Get(acc, FailedKey) + |FileFailures(f)|
  {
    if UsesMessages(f) {
      var msgs := f.messages.value;
      StatusCountsSpec(msgs);
      ParseSpecTotals(msgs);
      AddAllDistinct(acc, ParseSpec(msgs).counts, FailedKey);
    } else {
      DomSpecTotals(f.nodes);
    }
  }

  /** Over all files, the number of failure records equals the aggregated
      FAILED count: each message-path file has one record per FAILED step,
      and each DOM-path file one per failed node. */
  lemma {:induction false} FailuresMatchFailedCount(files: seq<ReportFile>)
    ensures |AggFailures(files)| == Get(AggCounts(files), FailedKey)
  {
    if files != [] {
      FailuresMatchFailedCount(files[..|files| - 1]);
      FileFailedCount(AggCounts(files[..|files| - 1]), files[|files| - 1]);
    }
  }

  /** What one file adds to the status count `k`. */
  function FileContribution(f: ReportFile, k: string): int {
    if UsesMessages(f) then Get(ParseSpec(f.messages.value).counts, k)
    else
      var d := DomSpec(f.nodes);
      if k == PassedKey then d.passed else if k == FailedKey then d.failed
      else if k == SkippedKey then d.skipped else 0
  }

  function SumContributions(files: seq<ReportFile>, k: string): int {
    if files == [] then 0
    else SumContributions(files[..|files| - 1], k) + FileContribution(files[|files| - 1], k)
  }

  /** Status counts are summed across files: the aggregated count of a key
      is the sum of what each file adds under it. */
  lemma {:induction false} CountsAreSummed(files: seq<ReportFile>, k: string)
    ensures Get(AggCounts(files), k) == SumContributions(files, k)
  {
    if files != [] {
      var f := files[|files| - 1];
      CountsAreSummed(files[..|files| - 1], k);
      if UsesMessages(f) {
        StatusCountsSpec(f.messages.value);
        AddAllDistinct(AggCounts(files[..|files| - 1]), ParseSpec(f.messages.value).counts, k);
      }
    }
  }

  /** The failures are the files' failures in path order: the records of
      file `i` follow those of the files before it, each tagged with file
      `i`'s name. */
  lemma {:induction false} FailuresInPathOrder(files: seq<ReportFile>, i: nat)
    requires i < |files|
    ensures AggFailures(files[..i]) + Tag(files[i].name, FileFailures(files[i])) <= AggFailures(files)
  {
    if i + 1 < |files| {
      FailuresInPathOrder(files[..|files| - 1], i);
      assert files[..|files| - 1][..i] == files[..i];
    } else {
      assert files[..|files| - 1] == files[..i];
    }
  }

  /** `files_parsed` counts every file, `total_failures` is the length of
      the failure list, the reason counts sum to that length, and at most
      10 reasons are reported, by non-increasing count. */
  lemma AggregateTotals(files: seq<ReportFile>)
    ensures var agg := AggregateSpec(files);
            && agg.filesParsed == |files|
            && agg.totalFailures == |agg.failures| == Get(agg.counts, FailedKey)
            && Total(CountOf(FileReasons(agg.failures))) == agg.totalFailures
            && |agg.topFailureReasons| <= TopAggregateReasons
            && SortedDesc(agg.topFailureReasons)
  {
    FailuresMatchFailedCount(files);
    CountOfCounts(FileReasons(AggFailures(files)));
    MostCommonSpec(CountOf(FileReasons(AggFailures(files))), TopAggregateReasons);
  }
}
