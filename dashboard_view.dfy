/**
 * The data `make_html` (dashboard_generator.py) puts on the page: the
 * totals and the pass rate, the chart of the ranked reasons, one row per
 * top failing test with the first recorded error of that test, the
 * recurring failures and the suggestions. The HTML text itself is not
 * modelled: the page is given by the values it shows.
 */
module DashboardView {
  import opened PyText
  import opened Counters
  import opened DashboardMetrics
  import opened DashboardAnalysis
  import opened DashboardRecommendations

  const NoTrace := "No trace available"
  const ShownTests := 20

  /** `(passed / total * 100) if total else 0`, in exact arithmetic. */
  function PassRate(passed: int, total: int): (rate: real)
    ensures total == 0 ==> rate == 0.0
    ensures total != 0 ==> rate * (total as real) == (passed as real) * 100.0
  {
    if total != 0 then (passed as real) / (total as real) * 100.0 else 0.0
  }

  /** The pass rate is a percentage whenever the passed count lies between
      0 and the total; all tests passing gives 100 and none gives 0. */
  lemma PassRateBounds(passed: int, total: int)
    requires 0 <= passed <= total
    ensures 0.0 <= PassRate(passed, total) <= 100.0
    ensures total > 0 && passed == total ==> PassRate(passed, total) == 100.0
    ensures passed == 0 ==> PassRate(passed, total) == 0.0
  {
    if total > 0 {
      var r := PassRate(passed, total);
      assert r * (total as real) <= 100.0 * (total as real);
    }
  }

  /** `example_map` after the failures `fs`: the first non-empty error of
      each test name. */
  function ExampleMap(fs: seq<NormFailure>): map<string, string> {
    if fs == [] then map[]
    else
      var m := ExampleMap(fs[..|fs| - 1]);
      var f := fs[|fs| - 1];
      if f.name !in m && f.error != [] then m[f.name := f.error] else m
  }

  /** The loop of `make_html` that builds `example_map`. */
  method BuildExampleMap(fs: seq<NormFailure>) returns (m: map<string, string>)
    ensures m == ExampleMap(fs)
  {
    m := map[];
    var i := 0;
    while i < |fs|
      invariant 0 <= i <= |fs|
      invariant m == ExampleMap(fs[..i])
    {
      assert fs[..i + 1][..i] == fs[..i];
      if fs[i].name !in m && fs[i].error != [] {
        m := m[fs[i].name := fs[i].error];
      }
      i := i + 1;
    }
    assert fs[..|fs|] == fs;
  }

  /** The failure at `j` is the first of its test with a non-empty error. */
  ghost predicate FirstErrorOf(fs: seq<NormFailure>, name: string, j: int) {
    && 0 <= j < |fs| && fs[j].name == name && fs[j].error != []
    && forall i :: 0 <= i < j ==> !(fs[i].name == name && fs[i].error != [])
  }

  /** A test has an entry exactly when one of its failures has a non-empty
      error, and the entry is the error of the first such failure. */
  lemma {:induction false} ExampleMapSpec(fs: seq<NormFailure>, name: string)
    ensures name in ExampleMap(fs) <==> exists j :: 0 <= j < |fs| && fs[j].name == name && fs[j].error != []
    ensures name in ExampleMap(fs) ==> exists j :: FirstErrorOf(fs, name, j) && ExampleMap(fs)[name] == fs[j].error
  {
    if fs != [] {
      var init, f := fs[..|fs| - 1], fs[|fs| - 1];
      ExampleMapSpec(init, name);
      assert forall j :: 0 <= j < |init| ==> init[j] == fs[j];
      if name in ExampleMap(init) {
        var j :| FirstErrorOf(init, name, j) && ExampleMap(init)[name] == init[j].error;
        assert FirstErrorOf(fs, name, j);
      } else if f.name == name && f.error != [] {
        assert FirstErrorOf(fs, name, |fs| - 1);
      }
    }
  }

  /** One row of "Top Failing Tests": the name, the count, and the first
      recorded error or "No trace available". */
  datatype TestRow = TestRow(name: string, count: int, trace: string)

  /** The values the page shows. */
  datatype Page = Page(total: int, passed: int, failed: int, skipped: int,
                       passRate: real, systemHealth: real,
                       chartLabels: seq<string>, chartCounts: seq<int>,
                       tests: seq<TestRow>, recurring: seq<(string, int)>,
                       suggestions: seq<Recommendation>)

  function Row(examples: map<string, string>, t: (string, int)): TestRow {
    TestRow(t.0, t.1, if t.0 in examples then examples[t.0] else NoTrace)
  }

  /** What `make_html(metrics, analysis)` shows. */
  function PageSpec(m: Metrics, a: Analysis): Page {
    var examples := ExampleMap(m.failures);
    var shown := Take(a.topTests, ShownTests);
    var rate := PassRate(m.passed, m.total);
    Page(m.total, m.passed, m.failed, m.skipped, rate, rate,
         seq(|a.topReasons|, j requires 0 <= j < |a.topReasons| => a.topReasons[j].reason),
         seq(|a.topReasons|, j requires 0 <= j < |a.topReasons| => a.topReasons[j].count),
         seq(|shown|, j requires 0 <= j < |shown| => Row(examples, shown[j])),
         a.recurring, RecommendationsSpec(a.topReasons))
  }

  /** `make_html`, without the HTML text. */
  method MakePage(m: Metrics, a: Analysis) returns (p: Page)
    ensures p == PageSpec(m, a)
  {
    var rate := PassRate(m.passed, m.total);
    var examples := BuildExampleMap(m.failures);
    var recs := GenerateRecommendations(a.topReasons);
    var shown := Take(a.topTests, ShownTests);
    var rows: seq<TestRow> := [];
    var i := 0;
    while i < |shown|
      invariant 0 <= i <= |shown|
      invariant rows == seq(i, j requires 0 <= j < i => Row(examples, shown[j]))
    {
      rows := rows + [Row(examples, shown[i])];
      i := i + 1;
    }
    p := Page(m.total, m.passed, m.failed, m.skipped, rate, rate,
              seq(|a.topReasons|, j requires 0 <= j < |a.topReasons| => a.topReasons[j].reason),
              seq(|a.topReasons|, j requires 0 <= j < |a.topReasons| => a.topReasons[j].count),
              rows, a.recurring, recs);
  }

  /** A row shows the first recorded error of its test, or "No trace
      available" when no failure of that test has a non-empty error. */
  lemma RowTrace(fs: seq<NormFailure>, t: (string, int))
    ensures Row(ExampleMap(fs), t).name == t.0 && Row(ExampleMap(fs), t).count == t.1
    ensures (exists i :: FirstErrorOf(fs, t.0, i) && Row(ExampleMap(fs), t).trace == fs[i].error)
            || ((forall i :: 0 <= i < |fs| ==> !(fs[i].name == t.0 && fs[i].error != []))
                && Row(ExampleMap(fs), t).trace == NoTrace)
  {
    ExampleMapSpec(fs, t.0);
  }

  /** For the analysis of the page's own failures: the chart has one bar
      per ranked reason (at most 10), labelled in ranking order with its
      count; the system health is the pass rate; every top failing test
      (at most 15, so the cut at 20 drops none) gets a row whose trace is
      its first non-empty error, or "No trace available" when it has
      none. */
  lemma PageShows(m: Metrics)
    ensures var a := AnalysisSpec(m.failures);
            var p := PageSpec(m, a);
            && |p.chartLabels| == |p.chartCounts| == |a.topReasons| <= TopReasonCount
            && (forall j :: 0 <= j < |a.topReasons| ==>
                  p.chartLabels[j] == a.topReasons[j].reason && p.chartCounts[j] == a.topReasons[j].count)
            && p.systemHealth == p.passRate == PassRate(m.passed, m.total)
            && |p.tests| == |a.topTests|
            && (forall j :: 0 <= j < |p.tests| ==>
                  && p.tests[j].name == a.topTests[j].0 && p.tests[j].count == a.topTests[j].1
                  && ((exists i :: FirstErrorOf(m.failures, a.topTests[j].0, i) && p.tests[j].trace == m.failures[i].error)
                      || ((forall i :: 0 <= i < |m.failures| ==> !(m.failures[i].name == a.topTests[j].0 && m.failures[i].error != []))
                          && p.tests[j].trace == NoTrace)))
  {
    var a := AnalysisSpec(m.failures);
    RankingBounds(m.failures);
    var p := PageSpec(m, a);
    assert Take(a.topTests, ShownTests) == a.topTests;
    forall j | 0 <= j < |p.tests|
      ensures p.tests[j].name == a.topTests[j].0 && p.tests[j].count == a.topTests[j].1
      ensures (exists i :: FirstErrorOf(m.failures, a.topTests[j].0, i) && p.tests[j].trace == m.failures[i].error)
              || ((forall i :: 0 <= i < |m.failures| ==> !(m.failures[i].name == a.topTests[j].0 && m.failures[i].error != []))
                  && p.tests[j].trace == NoTrace)
    {
      assert p.tests[j] == Row(ExampleMap(m.failures), a.topTests[j]);
      RowTrace(m.failures, a.topTests[j]);
    }
  }
}
