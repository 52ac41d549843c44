/**
 * How the reason pattern of dashboard_generator.py reads the error
 * "TimeoutError: slow": the longest run of name characters is
 * "TimeoutError", backtracking from its end finds the suffix "Error" at
 * position 7, so the whole match, and the normalised reason, is
 * "TimeoutError".
 */
module TimeoutReasonScan {
  import opened Wrappers
  import opened PyText
  import opened ExcPattern
  import opened DashboardMetrics

  const SlowTimeout := "TimeoutError: slow"

  /** A suffix that matches at `p` starts with the character at `p`. */
  lemma MatchFirstChar(s: string, p: nat, t: string)
    requires MatchesAt(s, p, t) && t != []
    ensures LowerChar(s[p]) == LowerChar(t[0])
  {
    assert Lower(s[p..p + |t|])[0] == Lower(t)[0];
  }

  /** No suffix of the dashboard pattern starts at the positions 8 to 12. */
  lemma NoSuffixAt(p: nat)
    requires 8 <= p <= 12
    ensures FirstSuffixAt(SlowTimeout, p, DashboardSuffixes) == None
  {
    assert LowerChar(SlowTimeout[p]) in {'r', 'o', ':'};
    forall k | 0 <= k < |DashboardSuffixes| ensures !MatchesAt(SlowTimeout, p, DashboardSuffixes[k]) {
      assert LowerChar(DashboardSuffixes[k][0]) in {'e', 'f', 't', 'a'};
      if MatchesAt(SlowTimeout, p, DashboardSuffixes[k]) {
        MatchFirstChar(SlowTimeout, p, DashboardSuffixes[k]);
      }
    }
    FirstSuffixAtSpec(SlowTimeout, p, DashboardSuffixes);
  }

  /** At position 7 "Exception" fails and "Error" matches. */
  lemma ErrorAtSeven()
    ensures FirstSuffixAt(SlowTimeout, 7, DashboardSuffixes) == Some(1)
  {
    assert SlowTimeout[7..12] == "Error";
    assert MatchesAt(SlowTimeout, 7, "Error");
    assert !MatchesAt(SlowTimeout, 7, "Exception") by {
      assert Lower(SlowTimeout[7..16])[1] != Lower("Exception")[1];
    }
    FirstSuffixAtSpec(SlowTimeout, 7, DashboardSuffixes);
  }

  /** The run of name characters from the start ends before the colon. */
  lemma RunEndsAtColon()
    ensures RunEnd(SlowTimeout, 0) == 12
  {
    var r := RunEnd(SlowTimeout, 0);
    assert !IsTokenChar(SlowTimeout[12]);
    assert forall j :: 0 <= j < 12 ==> IsTokenChar(SlowTimeout[j]);
  }

  /** Backtracking from the end of the run stops at "Error". */
  lemma BacktrackFindsError()
    ensures Backtrack(SlowTimeout, 0, 12, DashboardSuffixes) == Some((7, 1))
  {
    NoSuffixAt(12); NoSuffixAt(11); NoSuffixAt(10); NoSuffixAt(9); NoSuffixAt(8);
    ErrorAtSeven();
  }

  lemma MatchAtStart()
    ensures MatchAt(SlowTimeout, 0, DashboardSuffixes) == Some((7, 1))
  {
    BacktrackFindsError();
    RunEndsAtColon();
  }

  /** The leftmost match is the first twelve characters. */
  lemma SearchFindsTimeoutError()
    ensures Search(SlowTimeout, DashboardSuffixes) == Some(Match(0, 12))
  {
    MatchAtStart();
    assert SearchFrom(SlowTimeout, 0, DashboardSuffixes) == Some(Match(0, 7 + |DashboardSuffixes[1]|));
  }

  /** `normalize_reason("TimeoutError: slow")` is "TimeoutError". */
  lemma TimeoutReason()
    ensures NormalizeReason(SlowTimeout) == "TimeoutError"
  {
    SearchFindsTimeoutError();
    assert NormalizeReason(SlowTimeout) == Token(SlowTimeout, Match(0, 12)) == SlowTimeout[0..12];
    assert SlowTimeout[0..12] == "TimeoutError";
  }
}

/**
 * The dashboard of a report whose only failures are two failures of one
 * test, with the same error, in two different files.
 */
module DashboardScenario {
  import opened Wrappers
  import opened PyText
  import opened Counters
  import opened DashboardMetrics
  import opened DashboardAnalysis
  import opened DashboardRecommendations
  import opened DashboardView
  import opened Messages
  import opened TimeoutReasonScan

  lemma CountTwice(x: string)
    ensures CountOf([x, x]) == [(x, 2)]
  {
    assert [x, x][..1] == [x];
    assert [x][..0] == [];
    assert CountOf([x]) == [(x, 1)];
    assert [(x, 1)][1..] == [];
  }

  lemma MostCommonSingle(e: (string, int), n: nat)
    requires n >= 1
    ensures MostCommon([e], n) == [e]
  {
    assert [e][..0] == [];
    assert SortByCount([e]) == InsertByCount(e, []) == [e];
  }

  lemma TwoLists(fs: seq<NormFailure>, n: string, e: string, a: Field, b: Field)
    requires fs == [NormFailure(n, e, a), NormFailure(n, e, b)]
    ensures CountOf(NormReasons(fs)) == [(NormalizeReason(e), 2)]
    ensures CountOf(Names(fs)) == [(n, 2)]
  {
    var r := NormalizeReason(e);
    assert NormReasons(fs) == [r, r];
    assert Names(fs) == [n, n];
    CountTwice(r);
    CountTwice(n);
  }

  lemma TwoErrors(fs: seq<NormFailure>, n: string, e: string, a: Field, b: Field)
    requires fs == [NormFailure(n, e, a), NormFailure(n, e, b)]
    ensures ErrorsWithReason(fs, NormalizeReason(e)) == [Strip(e), Strip(e)]
  {
    var r := NormalizeReason(e);
    assert fs[..0] == [];
    ErrorsStep(fs, 0, r);
    ErrorsStep(fs, 1, r);
    assert fs[..2] == fs;
  }

  lemma TwoFiles(fs: seq<NormFailure>, n: string, e: string, a: Field, b: Field)
    requires fs == [NormFailure(n, e, a), NormFailure(n, e, b)]
    ensures FilesOf(fs, n) == {a, b}
  {
    assert fs[..0] == [];
    FilesOfStep(fs, 0, n);
    FilesOfStep(fs, 1, n);
    assert fs[..2] == fs;
  }

  lemma RecurringOne(fs: seq<NormFailure>, n: string, a: Field, b: Field)
    requires FilesOf(fs, n) == {a, b} && a != b
    ensures RecurringIn([n], fs) == [(n, 2)]
  {
    assert [n][..0] == [];
    assert |FilesOf(fs, n)| == 2;
  }

  lemma WithExamplesOne(fs: seq<NormFailure>, r: string, x: string)
    requires ErrorsWithReason(fs, r) == [x, x]
    ensures WithExamples([(r, 2)], fs) == [TopReason(r, 2, [x, x])]
  {
    assert Take([x, x], ShownExamples) == [x, x];
  }

  lemma TwoTopReasons(fs: seq<NormFailure>, n: string, e: string, a: Field, b: Field)
    requires fs == [NormFailure(n, e, a), NormFailure(n, e, b)]
    ensures WithExamples(MostCommon(CountOf(NormReasons(fs)), TopReasonCount), fs)
              == [TopReason(NormalizeReason(e), 2, [Strip(e), Strip(e)])]
  {
    TwoLists(fs, n, e, a, b);
    MostCommonSingle((NormalizeReason(e), 2), TopReasonCount);
    TwoErrors(fs, n, e, a, b);
    WithExamplesOne(fs, NormalizeReason(e), Strip(e));
  }

  lemma TwoTopTests(fs: seq<NormFailure>, n: string, e: string, a: Field, b: Field)
    requires fs == [NormFailure(n, e, a), NormFailure(n, e, b)]
    ensures MostCommon(CountOf(Names(fs)), TopTestCount) == [(n, 2)]
  {
    TwoLists(fs, n, e, a, b);
    MostCommonSingle((n, 2), TopTestCount);
  }

  lemma TwoRecurring(fs: seq<NormFailure>, n: string, e: string, a: Field, b: Field)
    requires fs == [NormFailure(n, e, a), NormFailure(n, e, b)] && a != b
    ensures Recurring(fs) == [(n, 2)]
  {
    TwoLists(fs, n, e, a, b);
    TwoFiles(fs, n, e, a, b);
    RecurringOne(fs, n, a, b);
    assert Keys(CountOf(Names(fs))) == [n];
  }

  /** The analysis: one ranked reason with both errors as examples, the
      test counted twice, and the test recurring in two files. */
  lemma TwoFailuresAnalysis(fs: seq<NormFailure>, n: string, e: string, a: Field, b: Field)
    requires fs == [NormFailure(n, e, a), NormFailure(n, e, b)] && a != b
    ensures AnalysisSpec(fs) == Analysis([TopReason(NormalizeReason(e), 2, [Strip(e), Strip(e)])], [(n, 2)], [(n, 2)])
  {
    TwoTopReasons(fs, n, e, a, b);
    TwoTopTests(fs, n, e, a, b);
    TwoRecurring(fs, n, e, a, b);
  }

  /** A reason containing "timeout" gets the timeout hint. */
  lemma TimeoutRule(r: string)
    requires "timeout" <= Lower(r)
    ensures RuleMatches(RemedyHints[0], r)
  {
    assert RemedyHints[0].alternatives[0] == "timeout";
    assert Contains(Lower(r), "timeout");
  }

  /** A single ranked reason matched by the first rule gets its hint. */
  lemma FirstRuleOnly(t: TopReason)
    requires RuleMatches(RemedyHints[0], t.reason)
    ensures RecommendationsSpec([t]) == [Recommendation(t.reason, RemedyHints[0].hint)]
  {
    assert FirstMatch(t.reason, RemedyHints, |RemedyHints|) == Some(0);
    assert ReasonNames([t]) == [t.reason];
    assert [t.reason][..0] == [];
    assert Matched([], RemedyHints) == [];
    assert t.reason !in Seen([]);
    assert Suggest([], t.reason, RemedyHints) == [Recommendation(t.reason, RemedyHints[0].hint)];
    assert Matched([t.reason], RemedyHints) == Suggest(Matched([], RemedyHints), t.reason, RemedyHints);
  }

  /** The example map of two failures of one test with the same error. */
  lemma ExampleMapTwo(fs: seq<NormFailure>, n: string, e: string, a: Field, b: Field)
    requires fs == [NormFailure(n, e, a), NormFailure(n, e, b)] && e != []
    ensures ExampleMap(fs) == map[n := e]
  {
    assert fs[..1] == [fs[0]];
    assert fs[..1][..0] == [];
    assert ExampleMap(fs[..1]) == map[n := e];
    assert fs[..|fs| - 1] == fs[..1];
  }

  /** 7 passed tests of 10 is a pass rate of 70. */
  lemma PassRateSeventy()
    ensures PassRate(7, 10) == 70.0
  {
  }

  /** The page of an analysis with one ranked reason and one test. */
  lemma OneReasonPage(m: Metrics, an: Analysis, n: string, e: string, r: string, x: string,
                      recs: seq<Recommendation>)
    requires an == Analysis([TopReason(r, 2, [x, x])], [(n, 2)], [(n, 2)])
    requires ExampleMap(m.failures) == map[n := e]
    requires RecommendationsSpec(an.topReasons) == recs
    ensures PageSpec(m, an)
         == Page(m.total, m.passed, m.failed, m.skipped,
                 PassRate(m.passed, m.total), PassRate(m.passed, m.total),
                 [r], [2], [TestRow(n, 2, e)], [(n, 2)], recs)
  {
    assert Take([(n, 2)], ShownTests) == [(n, 2)];
  }

  /** The page of two failures of test `n` with the error `e` in two
      different files, when the reason of `e` mentions a timeout: one chart
      bar of height 2 for that reason, `n` listed twice with `e` as its
      trace, `n` recurring in two files, and the timeout suggestion. */
  lemma TwoFailuresPage(m: Metrics, n: string, e: string, a: Field, b: Field)
    requires m.failures == [NormFailure(n, e, a), NormFailure(n, e, b)] && a != b && e != []
    requires "timeout" <= Lower(NormalizeReason(e))
    ensures PageSpec(m, AnalysisSpec(m.failures))
         == Page(m.total, m.passed, m.failed, m.skipped,
                 PassRate(m.passed, m.total), PassRate(m.passed, m.total),
                 [NormalizeReason(e)], [2], [TestRow(n, 2, e)], [(n, 2)],
                 [Recommendation(NormalizeReason(e), RemedyHints[0].hint)])
  {
    var fs := m.failures;
    var r := NormalizeReason(e);
    TwoFailuresAnalysis(fs, n, e, a, b);
    var t := TopReason(r, 2, [Strip(e), Strip(e)]);
    TimeoutRule(r);
    FirstRuleOnly(t);
    ExampleMapTwo(fs, n, e, a, b);
    OneReasonPage(m, AnalysisSpec(fs), n, e, r, Strip(e), [Recommendation(r, RemedyHints[0].hint)]);
  }

  /** The reason of "TimeoutError: slow" mentions a timeout. */
  lemma TimeoutMentioned()
    ensures "timeout" <= Lower(NormalizeReason(SlowTimeout))
  {
    TimeoutReason();
    LowerTimeoutError(NormalizeReason(SlowTimeout));
  }

  lemma LowerTimeoutError(s: string)
    requires s == "TimeoutError"
    ensures "timeout" <= Lower(s)
  {
    assert Lower(s)[..7] == "timeout";
  }

  /** The page for 10 tests (7 passed, 2 failed, 1 skipped) whose failures
      are "TimeoutError: slow" in test t1, once in a.html and once in
      b.html: a pass rate of 70, one chart bar "TimeoutError" of height 2,
      t1 listed twice with its error as trace, t1 recurring in two files,
      and the timeout suggestion for "TimeoutError". */
  lemma TimeoutDashboard(m: Metrics)
    requires m == Metrics(10, 7, 2, 1, [NormFailure("t1", SlowTimeout, Some("a.html")),
                                       NormFailure("t1", SlowTimeout, Some("b.html"))])
    ensures PageSpec(m, AnalysisSpec(m.failures))
         == Page(10, 7, 2, 1, 70.0, 70.0, ["TimeoutError"], [2],
                 [TestRow("t1", 2, SlowTimeout)], [("t1", 2)],
                 [Recommendation("TimeoutError", RemedyHints[0].hint)])
  {
    TimeoutReason();
    TimeoutMentioned();
    PassRateSeventy();
    TwoFailuresPage(m, "t1", SlowTimeout, Some("a.html"), Some("b.html"));
  }
}
