/**
 * `analyze_failures` (dashboard_generator.py): one pass over the normalised
 * failures that counts normalised reasons and test names, collects the set
 * of files each test failed in, and keeps up to three stripped errors per
 * reason; then the ten most common reasons (with two examples each), the
 * fifteen most common tests, and the tests that failed in more than one
 * distinct file.
 */
module DashboardAnalysis {
  import opened Wrappers
  import opened PyText
  import opened Counters
  import opened Messages
  import opened DashboardMetrics

  const TopReasonCount := 10
  const TopTestCount := 15
  const KeptExamples := 3
  const ShownExamples := 2

  /** The normalised reasons of the failures, in order. */
  function NormReasons(fs: seq<NormFailure>): (rs: seq<string>)
    ensures |rs| == |fs| && forall j :: 0 <= j < |fs| ==> rs[j] == NormalizeReason(fs[j].error)
  {
    seq(|fs|, j requires 0 <= j < |fs| => NormalizeReason(fs[j].error))
  }

  /** The test names of the failures, in order. */
  function Names(fs: seq<NormFailure>): (ns: seq<string>)
    ensures |ns| == |fs| && forall j :: 0 <= j < |fs| ==> ns[j] == fs[j].name
  {
    seq(|fs|, j requires 0 <= j < |fs| => fs[j].name)
  }

  /** The distinct `file` values of the failures of test `name` (a null
      file and the empty string are values like any other). */
  function FilesOf(fs: seq<NormFailure>, name: string): set<Field> {
    if fs == [] then {}
    else FilesOf(fs[..|fs| - 1], name) + (if fs[|fs| - 1].name == name then {fs[|fs| - 1].file} else {})
  }

  /** The stripped errors of the failures whose normalised reason is `r`,
      in order. */
  function ErrorsWithReason(fs: seq<NormFailure>, r: string): seq<string> {
    if fs == [] then []
    else
      var f := fs[|fs| - 1];
      ErrorsWithReason(fs[..|fs| - 1], r) + (if NormalizeReason(f.error) == r then [Strip(f.error)] else [])
  }

  /** `reason_examples[r]` of a `defaultdict(list)`. */
  function ExamplesAt(examples: map<string, seq<string>>, r: string): seq<string> {
    if r in examples then examples[r] else []
  }

  /** The entries of `recurring_failures` for the tests of `order`: those
      with more than one distinct file, with that number. */
  function RecurringIn(order: seq<string>, fs: seq<NormFailure>): seq<(string, int)> {
    if order == [] then []
    else
      var t := order[|order| - 1];
      RecurringIn(order[..|order| - 1], fs) + (if |FilesOf(fs, t)| > 1 then [(t, |FilesOf(fs, t)|)] else [])
  }

  datatype TopReason = TopReason(reason: string, count: int, examples: seq<string>)

  datatype Analysis = Analysis(topReasons: seq<TopReason>, topTests: Counter, recurring: seq<(string, int)>)

  /** The ranked reasons with their examples. */
  function WithExamples(top: Counter, fs: seq<NormFailure>): (r: seq<TopReason>)
    ensures |r| == |top|
  {
    seq(|top|, j requires 0 <= j < |top| => TopReason(top[j].0, top[j].1, Take(ErrorsWithReason(fs, top[j].0), ShownExamples)))
  }

  /** What `analyze_failures(fs)` returns. The tests of `test_files` are
      in first-failure order, the order of the test counter's keys. */
  function AnalysisSpec(fs: seq<NormFailure>): Analysis {
    Analysis(WithExamples(MostCommon(CountOf(NormReasons(fs)), TopReasonCount), fs),
             MostCommon(CountOf(Names(fs)), TopTestCount),
             Recurring(fs))
  }

  /** `recurring_failures`: the tests, in first-failure order, failing with
      more than one distinct file. */
  function Recurring(fs: seq<NormFailure>): seq<(string, int)> {
    RecurringIn(Keys(CountOf(Names(fs))), fs)
  }

  /** What one more failure adds to the reason and name lists. */
  lemma ListsStep(fs: seq<NormFailure>, i: nat)
    requires i < |fs|
    ensures NormReasons(fs[..i + 1]) == NormReasons(fs[..i]) + [NormalizeReason(fs[i].error)]
    ensures Names(fs[..i + 1]) == Names(fs[..i]) + [fs[i].name]
  {
    assert fs[..i + 1][..i] == fs[..i];
  }

  /** What one more failure adds to the file set of test `k`. */
  lemma FilesOfStep(fs: seq<NormFailure>, i: nat, k: string)
    requires i < |fs|
    ensures FilesOf(fs[..i + 1], k) == FilesOf(fs[..i], k) + (if fs[i].name == k then {fs[i].file} else {})
  {
    assert fs[..i + 1][..i] == fs[..i];
  }

  /** What one more failure adds to the errors of reason `r`. */
  lemma ErrorsStep(fs: seq<NormFailure>, i: nat, r: string)
    requires i < |fs|
    ensures ErrorsWithReason(fs[..i + 1], r) ==
              ErrorsWithReason(fs[..i], r) + (if NormalizeReason(fs[i].error) == r then [Strip(fs[i].error)] else [])
  {
    assert fs[..i + 1][..i] == fs[..i];
  }

  /** Appending to a list only while it is shorter than `n` keeps its
      first `n` elements. */
  lemma TakeAppend(xs: seq<string>, x: string, n: nat)
    ensures Take(xs + [x], n) == if |Take(xs, n)| < n then Take(xs, n) + [x] else Take(xs, n)
  {
    if |xs| >= n {
      assert (xs + [x])[..n] == xs[..n];
    }
  }

  /** `examples` keeps, per reason, the first three stripped errors of
      `fs` with that reason. */
  ghost predicate ExamplesKept(fs: seq<NormFailure>, examples: map<string, seq<string>>) {
    forall r :: ExamplesAt(examples, r) == Take(ErrorsWithReason(fs, r), KeptExamples)
  }

  /** `testFiles` maps exactly the tests of `testOrder` to their sets of
      files in `fs`; no other test has a failure in `fs`. */
  ghost predicate FilesRecorded(fs: seq<NormFailure>, testOrder: seq<string>, testFiles: map<string, set<Field>>) {
    && (forall k :: k in testFiles <==> k in testOrder)
    && (forall k :: k in testFiles ==> testFiles[k] == FilesOf(fs, k))
    && (forall k :: k !in testFiles ==> FilesOf(fs, k) == {})
  }

  /** Recording error `err` under reason `norm` keeps the first three
      errors of reason `r`. */
  lemma ExampleStepAt(before: seq<string>, after: seq<string>, ex: seq<string>, ex': seq<string>,
                      norm: string, err: string, r: string)
    requires ex == Take(before, KeptExamples)
    requires after == before + (if norm == r then [err] else [])
    requires ex' == if r == norm then (if |ex| < KeptExamples then ex + [err] else ex) else ex
    ensures ex' == Take(after, KeptExamples)
  {
    if r == norm {
      TakeAppend(before, err, KeptExamples);
    } else {
      assert after == before;
    }
  }

  /** Recording one more failure in the examples map keeps, per reason,
      the first three stripped errors with that reason. */
  lemma ExamplesStep(examples: map<string, seq<string>>, examples': map<string, seq<string>>,
                     fs: seq<NormFailure>, i: nat)
    requires i < |fs|
    requires ExamplesKept(fs[..i], examples)
    requires var norm := NormalizeReason(fs[i].error);
             var ex := ExamplesAt(examples, norm);
             examples' == examples[norm := if |ex| < KeptExamples then ex + [Strip(fs[i].error)] else ex]
    ensures ExamplesKept(fs[..i + 1], examples')
  {
    var norm, err := NormalizeReason(fs[i].error), Strip(fs[i].error);
    var ex := ExamplesAt(examples, norm);
    var kept := if |ex| < KeptExamples then ex + [err] else ex;
    assert examples' == examples[norm := kept];
    forall r ensures ExamplesAt(examples', r) == Take(ErrorsWithReason(fs[..i + 1], r), KeptExamples) {
      ErrorsStep(fs, i, r);
      assert ExamplesAt(examples, r) == Take(ErrorsWithReason(fs[..i], r), KeptExamples);
      ExamplesAtUpdate(examples, norm, kept, r);
      ExampleStepAt(ErrorsWithReason(fs[..i], r), ErrorsWithReason(fs[..i + 1], r),
                    ExamplesAt(examples, r), ExamplesAt(examples', r), norm, err, r);
    }
  }

  /** Setting the list of reason `k` changes no other reason's list. */
  lemma ExamplesAtUpdate(examples: map<string, seq<string>>, k: string, v: seq<string>, r: string)
    ensures ExamplesAt(examples[k := v], r) == if r == k then v else ExamplesAt(examples, r)
  {
  }


  /** Recording one more failure in the file sets adds its file to its
      test's set, creating the set (and extending the order) on the test's
      first failure. */
  lemma FilesStep(testOrder: seq<string>, testFiles: map<string, set<Field>>,
                  testOrder': seq<string>, testFiles': map<string, set<Field>>, fs: seq<NormFailure>, i: nat)
    requires i < |fs|
    requires FilesRecorded(fs[..i], testOrder, testFiles)
    requires testOrder' == if fs[i].name in testFiles then testOrder else testOrder + [fs[i].name]
    requires testFiles' == testFiles[fs[i].name := (if fs[i].name in testFiles then testFiles[fs[i].name] else {}) + {fs[i].file}]
    ensures FilesRecorded(fs[..i + 1], testOrder', testFiles')
  {
    forall k ensures FilesOf(fs[..i + 1], k) == FilesOf(fs[..i], k) + (if fs[i].name == k then {fs[i].file} else {}) {
      FilesOfStep(fs, i, k);
    }
  }

  /** `test_files[name].add(file)`, where `test_files` is a
      `defaultdict(set)`; `order` records the keys in creation order. */
  method RecordFile(order: seq<string>, files: map<string, set<Field>>, name: string, file: Field)
    returns (order': seq<string>, files': map<string, set<Field>>)
    ensures order' == if name in files then order else order + [name]
    ensures files' == files[name := (if name in files then files[name] else {}) + {file}]
  {
    order', files' := order, files;
    if name !in files' {
      order' := order' + [name];
      files' := files'[name := {}];
    }
    files' := files'[name := files'[name] + {file}];
  }

  /** `if len(reason_examples[r]) < 3: reason_examples[r].append(e)`. */
  method RecordExample(examples: map<string, seq<string>>, r: string, e: string)
    returns (examples': map<string, seq<string>>)
    ensures var ex := ExamplesAt(examples, r);
            examples' == examples[r := if |ex| < KeptExamples then ex + [e] else ex]
  {
    var ex := ExamplesAt(examples, r);
    if |ex| < KeptExamples {
      ex := ex + [e];
    }
    examples' := examples[r := ex];
  }

  /** `reason_counter[norm] += 1` and `test_counter[name] += 1` for one
      more failure. */
  method CountFailure(fs: seq<NormFailure>, i: nat, reasonCounter: Counter, testCounter: Counter)
    returns (reasonCounter': Counter, testCounter': Counter)
    requires i < |fs|
    requires reasonCounter == CountOf(NormReasons(fs[..i]))
    requires testCounter == CountOf(Names(fs[..i]))
    ensures reasonCounter' == CountOf(NormReasons(fs[..i + 1]))
    ensures testCounter' == CountOf(Names(fs[..i + 1]))
    ensures Keys(testCounter') == if fs[i].name in Keys(testCounter) then Keys(testCounter) else Keys(testCounter) + [fs[i].name]
  {
    ListsStep(fs, i);
    CountOfAppend(NormReasons(fs[..i]), NormalizeReason(fs[i].error));
    CountOfAppend(Names(fs[..i]), fs[i].name);
    reasonCounter' := Add(reasonCounter, NormalizeReason(fs[i].error), 1);
    testCounter' := Add(testCounter, fs[i].name, 1);
  }

  /** What the loop of `analyze_failures` holds after reading the
      failures `fs`: both counters, the test file sets (with their
      creation order) and the kept examples per reason. */
  ghost predicate Collected(fs: seq<NormFailure>, reasonCounter: Counter, testCounter: Counter, testOrder: seq<string>,
                            testFiles: map<string, set<Field>>, examples: map<string, seq<string>>)
  {
    && reasonCounter == CountOf(NormReasons(fs))
    && testCounter == CountOf(Names(fs))
    && testOrder == Keys(testCounter)
    && FilesRecorded(fs, testOrder, testFiles)
    && ExamplesKept(fs, examples)
  }

  /** One iteration of the loop of `analyze_failures`. */
  method CollectOne(fs: seq<NormFailure>, i: nat, reasonCounter: Counter, testCounter: Counter, testOrder: seq<string>,
                    testFiles: map<string, set<Field>>, examples: map<string, seq<string>>)
    returns (reasonCounter': Counter, testCounter': Counter, testOrder': seq<string>,
             testFiles': map<string, set<Field>>, examples': map<string, seq<string>>)
    requires i < |fs|
    requires Collected(fs[..i], reasonCounter, testCounter, testOrder, testFiles, examples)
    ensures Collected(fs[..i + 1], reasonCounter', testCounter', testOrder', testFiles', examples')
  {
    reasonCounter', testCounter' := CountFailure(fs, i, reasonCounter, testCounter);
    testOrder', testFiles' := RecordFile(testOrder, testFiles, fs[i].name, fs[i].file);
    FilesStep(testOrder, testFiles, testOrder', testFiles', fs, i);
    examples' := RecordExample(examples, NormalizeReason(fs[i].error), Strip(fs[i].error));
    ExamplesStep(examples, examples', fs, i);
  }

  /** The loop over the failures of `analyze_failures`. */
  method CollectFailureStats(fs: seq<NormFailure>)
    returns (reasonCounter: Counter, testCounter: Counter, testOrder: seq<string>,
             testFiles: map<string, set<Field>>, examples: map<string, seq<string>>)
    ensures reasonCounter == CountOf(NormReasons(fs))
    ensures testCounter == CountOf(Names(fs))
    ensures testOrder == Keys(testCounter)
    ensures forall k :: k in testFiles <==> k in testOrder
    ensures forall k :: k in testFiles ==> testFiles[k] == FilesOf(fs, k)
    ensures forall r :: ExamplesAt(examples, r) == Take(ErrorsWithReason(fs, r), KeptExamples)
  {
    reasonCounter, testCounter, testOrder, testFiles, examples := [], [], [], map[], map[];
    var i := 0;
    while i < |fs|
      invariant 0 <= i <= |fs|
      invariant Collected(fs[..i], reasonCounter, testCounter, testOrder, testFiles, examples)
    {
      reasonCounter, testCounter, testOrder, testFiles, examples :=
        CollectOne(fs, i, reasonCounter, testCounter, testOrder, testFiles, examples);
      i := i + 1;
    }
    assert fs[..|fs|] == fs;
  }

  /** The ten most common reasons, each with the first two of its kept
      examples. */
  method TopReasonsWithExamples(fs: seq<NormFailure>, reasonCounter: Counter, examples: map<string, seq<string>>)
    returns (top: seq<TopReason>)
    requires forall r :: ExamplesAt(examples, r) == Take(ErrorsWithReason(fs, r), KeptExamples)
    ensures top == WithExamples(MostCommon(reasonCounter, TopReasonCount), fs)
  {
    var ranked := MostCommon(reasonCounter, TopReasonCount);
    top := [];
    var j := 0;
    while j < |ranked|
      invariant 0 <= j <= |ranked|
      invariant top == WithExamples(ranked[..j], fs)
    {
      var r := ranked[j].0;
      var xs := ErrorsWithReason(fs, r);
      if |xs| >= KeptExamples {
        assert xs[..KeptExamples][..ShownExamples] == xs[..ShownExamples];
      }
      assert ranked[..j + 1] == ranked[..j] + [ranked[j]];
      top := top + [TopReason(r, ranked[j].1, Take(ExamplesAt(examples, r), ShownExamples))];
      j := j + 1;
    }
    assert ranked[..|ranked|] == ranked;
  }

  /** What one more test of `order` adds to the entries. */
  lemma RecurringInStep(order: seq<string>, i: nat, fs: seq<NormFailure>)
    requires i < |order|
    ensures RecurringIn(order[..i + 1], fs) ==
              RecurringIn(order[..i], fs) + (if |FilesOf(fs, order[i])| > 1 then [(order[i], |FilesOf(fs, order[i])|)] else [])
  {
    assert order[..i + 1][..i] == order[..i];
  }

  /** The loop over `test_files` that keeps the tests with more than one
      distinct file. */
  method CollectRecurring(fs: seq<NormFailure>, testOrder: seq<string>, testFiles: map<string, set<Field>>)
    returns (recurring: seq<(string, int)>)
    requires forall k :: k in testFiles <==> k in testOrder
    requires forall k :: k in testFiles ==> testFiles[k] == FilesOf(fs, k)
    ensures recurring == RecurringIn(testOrder, fs)
  {
    recurring := [];
    var i := 0;
    while i < |testOrder|
      invariant 0 <= i <= |testOrder|
      invariant recurring == RecurringIn(testOrder[..i], fs)
    {
      RecurringInStep(testOrder, i, fs);
      var t := testOrder[i];
      assert testFiles[t] == FilesOf(fs, t);
      if |testFiles[t]| > 1 {
        recurring := recurring + [(t, |testFiles[t]|)];
      }
      i := i + 1;
    }
    assert testOrder[..|testOrder|] == testOrder;
  }

  /** `analyze_failures`. */
  method AnalyzeFailures(fs: seq<NormFailure>) returns (a: Analysis)
    ensures a == AnalysisSpec(fs)
  {
    var reasonCounter, testCounter, testOrder, testFiles, examples := CollectFailureStats(fs);
    var topReasons := TopReasonsWithExamples(fs, reasonCounter, examples);
    var recurring := CollectRecurring(fs, testOrder, testFiles);
    a := Analysis(topReasons, MostCommon(testCounter, TopTestCount), recurring);
  }

  /** The reason counts and the test counts each sum to the number of
      failures. */
  lemma CountsSumToFailures(fs: seq<NormFailure>)
    ensures Total(CountOf(NormReasons(fs))) == |fs| && Total(CountOf(Names(fs))) == |fs|
  {
    CountOfCounts(NormReasons(fs));
    CountOfCounts(Names(fs));
  }

  /** At most 10 reasons and 15 tests are ranked, each ranking by
      non-increasing count. */
  lemma RankingBounds(fs: seq<NormFailure>)
    ensures var a := AnalysisSpec(fs);
            && |a.topReasons| <= TopReasonCount && |a.topTests| <= TopTestCount
            && SortedDesc(MostCommon(CountOf(NormReasons(fs)), TopReasonCount))
            && SortedDesc(a.topTests)
  {
    MostCommonBounds(CountOf(NormReasons(fs)), TopReasonCount);
    MostCommonBounds(CountOf(Names(fs)), TopTestCount);
  }

  /** One error is recorded per occurrence of `r` among the reasons. */
  lemma {:induction false} ErrorsWithReasonOccurrences(fs: seq<NormFailure>, r: string)
    ensures |ErrorsWithReason(fs, r)| == multiset(NormReasons(fs))[r]
  {
    if fs != [] {
      ErrorsWithReasonOccurrences(fs[..|fs| - 1], r);
      ListsStep(fs, |fs| - 1);
      assert fs[..|fs|] == fs;
    }
  }

  /** There is one recorded error per failure with reason `r`. */
  lemma ErrorsWithReasonCount(fs: seq<NormFailure>, r: string)
    ensures |ErrorsWithReason(fs, r)| == Get(CountOf(NormReasons(fs)), r)
  {
    ErrorsWithReasonOccurrences(fs, r);
    CountOfCounts(NormReasons(fs));
  }

  /** Each ranked reason keeps its count and carries the first
      `min(2, count)` stripped errors of the failures with that reason. */
  lemma WithExamplesSpec(fs: seq<NormFailure>)
    ensures var top := MostCommon(CountOf(NormReasons(fs)), TopReasonCount);
            forall j :: 0 <= j < |AnalysisSpec(fs).topReasons| ==>
              var t := AnalysisSpec(fs).topReasons[j];
              && t.reason == top[j].0 && t.count == top[j].1
              && t.count == Get(CountOf(NormReasons(fs)), t.reason)
              && |t.examples| == (if t.count < ShownExamples then t.count else ShownExamples)
              && t.examples <= ErrorsWithReason(fs, t.reason)
  {
    var c := CountOf(NormReasons(fs));
    var top := MostCommon(c, TopReasonCount);
    CountOfCounts(NormReasons(fs));
    forall j | 0 <= j < |AnalysisSpec(fs).topReasons|
      ensures var t := AnalysisSpec(fs).topReasons[j];
              && t.reason == top[j].0 && t.count == top[j].1
              && t.count == Get(c, t.reason)
              && |t.examples| == (if t.count < ShownExamples then t.count else ShownExamples)
              && t.examples <= ErrorsWithReason(fs, t.reason)
    {
      MostCommonGet(c, TopReasonCount, j);
      ErrorsWithReasonCount(fs, top[j].0);
    }
  }

  /** The reason counts and the test counts each sum to the number of
      failures; at most 10 reasons and 15 tests are ranked, each ranking by
      non-increasing count; every top reason carries `min(2, count)` examples. */
  lemma AnalysisTotals(fs: seq<NormFailure>)
    ensures Total(CountOf(NormReasons(fs))) == |fs| && Total(CountOf(Names(fs))) == |fs|
    ensures var a := AnalysisSpec(fs);
            && |a.topReasons| <= TopReasonCount && |a.topTests| <= TopTestCount
            && SortedDesc(MostCommon(CountOf(NormReasons(fs)), TopReasonCount))
            && SortedDesc(a.topTests)
            && forall j :: 0 <= j < |a.topReasons| ==>
                 |a.topReasons[j].examples| == (if a.topReasons[j].count < ShownExamples then a.topReasons[j].count else ShownExamples)
  {
    CountsSumToFailures(fs);
    RankingBounds(fs);
    WithExamplesSpec(fs);
  }

  /** The examples of a reason come from the earliest failures: the list
      seen after any prefix of the failures is a prefix of the whole list. */
  lemma {:induction false} ExamplesFromEarliest(fs: seq<NormFailure>, r: string, i: nat)
    requires i <= |fs|
    ensures ErrorsWithReason(fs[..i], r) <= ErrorsWithReason(fs, r)
    decreases |fs|
  {
    if i < |fs| {
      var init := fs[..|fs| - 1];
      assert init[..i] == fs[..i];
      ExamplesFromEarliest(init, r, i);
    } else {
      assert fs[..i] == fs;
    }
  }

  /** An error listed for `r` but not for the earlier failures comes from
      the last failure. */
  lemma ErrorSourceLast(fs: seq<NormFailure>, r: string, e: string)
    requires fs != [] && e in ErrorsWithReason(fs, r) && e !in ErrorsWithReason(fs[..|fs| - 1], r)
    ensures NormalizeReason(fs[|fs| - 1].error) == r && e == Strip(fs[|fs| - 1].error)
  {
  }

  /** The failure an error listed for reason `r` comes from. */
  lemma {:induction false} ErrorSource(fs: seq<NormFailure>, r: string, e: string) returns (j: nat)
    requires e in ErrorsWithReason(fs, r)
    ensures j < |fs| && fs[j] in fs && NormalizeReason(fs[j].error) == r && e == Strip(fs[j].error)
  {
    var init := fs[..|fs| - 1];
    if e in ErrorsWithReason(init, r) {
      var k := ErrorSource(init, r, e);
      var f := init[k];
      assert f == fs[k];
      j := k;
    } else {
      ErrorSourceLast(fs, r, e);
      j := |fs| - 1;
    }
  }


  /** Each error kept for a reason is the stripped error of a failure with
      that reason. */
  lemma ExamplesHaveTheirReason(fs: seq<NormFailure>, r: string)
    ensures forall e :: e in ErrorsWithReason(fs, r) ==>
              exists j :: 0 <= j < |fs| && NormalizeReason(fs[j].error) == r && e == Strip(fs[j].error)
  {
    forall e | e in ErrorsWithReason(fs, r)
      ensures exists j :: 0 <= j < |fs| && NormalizeReason(fs[j].error) == r && e == Strip(fs[j].error)
    {
      var j := ErrorSource(fs, r, e);
    }
  }

  /** The tests named by the entries for `order` followed by `t`. */
  lemma RecurringKeysStep(order: seq<string>, t: string, fs: seq<NormFailure>)
    ensures Keys(RecurringIn(order + [t], fs)) ==
              Keys(RecurringIn(order, fs)) + (if |FilesOf(fs, t)| > 1 then [t] else [])
  {
    assert (order + [t])[..|order|] == order;
    var prev := RecurringIn(order, fs);
    if |FilesOf(fs, t)| > 1 {
      assert Keys(prev + [(t, |FilesOf(fs, t)|)]) == Keys(prev) + [t];
    }
  }

  /** A test has an entry exactly when it is in `order` and failed in more
      than one distinct file. */
  lemma {:induction false} RecurringMembers(order: seq<string>, fs: seq<NormFailure>)
    ensures forall t :: t in Keys(RecurringIn(order, fs)) <==> t in order && |FilesOf(fs, t)| > 1
  {
    if order != [] {
      var init, t := order[..|order| - 1], order[|order| - 1];
      assert order == init + [t];
      RecurringMembers(init, fs);
      RecurringKeysStep(init, t, fs);
    }
  }

  /** Each entry carries its test's number of distinct files. */
  lemma {:induction false} RecurringCounts(order: seq<string>, fs: seq<NormFailure>)
    ensures forall j :: 0 <= j < |RecurringIn(order, fs)| ==>
              RecurringIn(order, fs)[j].1 == |FilesOf(fs, RecurringIn(order, fs)[j].0)|
  {
    if order != [] {
      RecurringCounts(order[..|order| - 1], fs);
    }
  }

  /** Appending at most one entry, for a key `t` new to `init`, to entries
      that follow the order of `init` gives entries that follow the order
      of `init + [t]`. */
  lemma InOrderAppend(init: seq<string>, t: string, order: seq<string>,
                      prev: seq<(string, int)>, extra: seq<(string, int)>, rec: seq<(string, int)>)
    requires order == init + [t] && t !in init
    requires forall a :: 0 <= a < |prev| ==> prev[a].0 in init
    requires forall a, b :: 0 <= a < b < |prev| ==>
               prev[a].0 in init && prev[b].0 in init && FirstIndex(init, prev[a].0) < FirstIndex(init, prev[b].0)
    requires |extra| <= 1 && forall a :: 0 <= a < |extra| ==> extra[a].0 == t
    requires rec == prev + extra
    ensures forall a, b :: 0 <= a < b < |rec| ==>
              rec[a].0 in order && rec[b].0 in order && FirstIndex(order, rec[a].0) < FirstIndex(order, rec[b].0)
  {
    forall k | k in init ensures FirstIndex(order, k) == FirstIndex(init, k) {
      FirstIndexAppend(init, t, k);
    }
    FirstIndexAppend(init, t, t);
    forall a, b | 0 <= a < b < |rec|
      ensures rec[a].0 in order && rec[b].0 in order && FirstIndex(order, rec[a].0) < FirstIndex(order, rec[b].0)
    {
      assert rec[a] == prev[a] && rec[a].0 in init;
      if b < |prev| {
        assert rec[b] == prev[b] && rec[b].0 in init;
      } else {
        assert rec[b] == extra[b - |prev|] && rec[b].0 == t;
      }
    }
  }

  /** The entries follow the order of `order`, which names each test once. */
  lemma {:induction false} RecurringOrder(order: seq<string>, fs: seq<NormFailure>)
    requires forall a, b :: 0 <= a < b < |order| ==> order[a] != order[b]
    ensures forall a, b :: 0 <= a < b < |RecurringIn(order, fs)| ==>
              RecurringIn(order, fs)[a].0 in order && RecurringIn(order, fs)[b].0 in order &&
              FirstIndex(order, RecurringIn(order, fs)[a].0) < FirstIndex(order, RecurringIn(order, fs)[b].0)
  {
    if order != [] {
      var init, t := order[..|order| - 1], order[|order| - 1];
      assert order == init + [t];
      RecurringOrder(init, fs);
      RecurringMembers(init, fs);
      var prev := RecurringIn(init, fs);
      assert t !in init;
      forall a | 0 <= a < |prev| ensures prev[a].0 in init {
        assert prev[a].0 in Keys(prev);
      }
      var extra := if |FilesOf(fs, t)| > 1 then [(t, |FilesOf(fs, t)|)] else [];
      InOrderAppend(init, t, order, prev, extra, RecurringIn(order, fs));
    } else {
      assert RecurringIn(order, fs) == [];
    }
  }

  /** The tests of `recurring_failures` are those failing with at least
      two distinct files. */
  lemma RecurringSpecMembers(fs: seq<NormFailure>)
    ensures forall t :: t in Keys(Recurring(fs)) <==> t in Names(fs) && |FilesOf(fs, t)| >= 2
  {
    CountOfOrder(Names(fs));
    RecurringMembers(Keys(CountOf(Names(fs))), fs);
  }

  /** Entries built from keys in first-seen order follow the first
      occurrences of their tests. */
  lemma RecurringFirstSeen(ks: seq<string>, xs: seq<string>, fs: seq<NormFailure>)
    requires FirstSeenOrder(ks, xs)
    ensures forall j :: 0 <= j < |RecurringIn(ks, fs)| ==> RecurringIn(ks, fs)[j].0 in xs
    ensures forall a, b :: 0 <= a < b < |RecurringIn(ks, fs)| ==>
              FirstIndex(xs, RecurringIn(ks, fs)[a].0) < FirstIndex(xs, RecurringIn(ks, fs)[b].0)
  {
    FirstSeenDistinct(ks, xs);
    RecurringOrder(ks, fs);
    RecurringMembers(ks, fs);
    var rec := RecurringIn(ks, fs);
    forall j | 0 <= j < |rec| ensures rec[j].0 in xs {
      assert rec[j].0 in Keys(rec);
    }
    forall a, b | 0 <= a < b < |rec|
      ensures FirstIndex(xs, rec[a].0) < FirstIndex(xs, rec[b].0)
    {
      assert rec[a].0 in Keys(rec) && rec[b].0 in Keys(rec);
      var ia, ib := FirstIndex(ks, rec[a].0), FirstIndex(ks, rec[b].0);
      FirstSeenBefore(ks, xs, rec[a].0, rec[b].0);
    }
  }

  /** The same for the keys of the counter of `xs`. */
  lemma RecurringCountedOrder(xs: seq<string>, fs: seq<NormFailure>)
    ensures forall j :: 0 <= j < |RecurringIn(Keys(CountOf(xs)), fs)| ==> RecurringIn(Keys(CountOf(xs)), fs)[j].0 in xs
    ensures forall a, b :: 0 <= a < b < |RecurringIn(Keys(CountOf(xs)), fs)| ==>
              FirstIndex(xs, RecurringIn(Keys(CountOf(xs)), fs)[a].0) < FirstIndex(xs, RecurringIn(Keys(CountOf(xs)), fs)[b].0)
  {
    CountOfOrder(xs);
    RecurringFirstSeen(Keys(CountOf(xs)), xs, fs);
  }

  /** The tests of `recurring_failures` come in the order of their first
      failures. */
  lemma RecurringSpecOrder(fs: seq<NormFailure>)
    ensures forall j :: 0 <= j < |Recurring(fs)| ==> Recurring(fs)[j].0 in Names(fs)
    ensures forall a, b :: 0 <= a < b < |Recurring(fs)| ==>
              FirstIndex(Names(fs), Recurring(fs)[a].0) < FirstIndex(Names(fs), Recurring(fs)[b].0)
  {
    RecurringCountedOrder(Names(fs), fs);
  }

  /** `recurring_failures` lists exactly the tests whose failures carry at
      least two distinct files, each with its number of distinct files, in
      the order of the tests' first failures. */
  lemma RecurringSpec(fs: seq<NormFailure>)
    ensures forall t :: t in Keys(Recurring(fs)) <==> t in Names(fs) && |FilesOf(fs, t)| >= 2
    ensures forall j :: 0 <= j < |Recurring(fs)| ==>
              Recurring(fs)[j].1 == |FilesOf(fs, Recurring(fs)[j].0)|
    ensures forall j :: 0 <= j < |Recurring(fs)| ==> Recurring(fs)[j].0 in Names(fs)
    ensures forall a, b :: 0 <= a < b < |Recurring(fs)| ==>
              FirstIndex(Names(fs), Recurring(fs)[a].0) < FirstIndex(Names(fs), Recurring(fs)[b].0)
  {
    RecurringSpecMembers(fs);
    RecurringCounts(Keys(CountOf(Names(fs))), fs);
    RecurringSpecOrder(fs);
  }
}
