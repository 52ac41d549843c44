/**
 * The hand-over between the two scripts: the aggregate that
 * parse_cucumber_reports.py writes as JSON is the input that
 * dashboard_generator.py reads. The aggregate's keys are `files_parsed`,
 * `counts`, `total_failures`, `failures` and `top_failure_reasons`, while
 * the dashboard reads `total`, `passed`, `failed`, `skipped` and
 * `failures`; each failure record carries `file`, `name`, `reason` and
 * `trace` but no `error`.
 */
module ReportToDashboard {
  import opened Wrappers
  import opened Messages
  import opened ReportAggregation
  import opened DashboardMetrics
  import opened DashboardView

  /** One tagged failure record as the dashboard reads it: no `error` key. */
  function AsInputFailure(ff: FileFailure): InputFailure {
    InputFailure(Some(ff.failure.name), Some(Some(ff.file)), None, Some(ff.failure.trace))
  }

  /** The written aggregate as the dashboard reads it: the four total keys
      are absent. */
  function SummaryAsReportData(agg: Aggregate): ReportData {
    ReportData(None, None, None, None,
               Some(seq(|agg.failures|, j requires 0 <= j < |agg.failures| => AsInputFailure(agg.failures[j]))))
  }

  /** Read by the dashboard, a parser aggregate shows 0 tests and a pass
      rate of 0, whatever its status counts are; its failures keep their
      order, their file and (when non-empty) their name, and the error the
      dashboard normalises is the failure's trace. */
  lemma DashboardReadsParserSummary(agg: Aggregate)
    ensures var d := SummaryAsReportData(agg);
            && IntOrZero(d.total) == 0 && IntOrZero(d.passed) == 0
            && IntOrZero(d.failed) == 0 && IntOrZero(d.skipped) == 0
            && PassRate(IntOrZero(d.passed), IntOrZero(d.total)) == 0.0
            && |d.failures.GetOr([])| == |agg.failures|
            && forall j :: 0 <= j < |agg.failures| ==>
                 var n := NormalizeFailure(d.failures.GetOr([])[j]);
                 && n.error == agg.failures[j].failure.trace
                 && n.file == Some(agg.failures[j].file)
                 && (agg.failures[j].failure.name != [] ==> n.name == agg.failures[j].failure.name)
  {
    var d := SummaryAsReportData(agg);
    forall j | 0 <= j < |agg.failures|
      ensures var n := NormalizeFailure(d.failures.GetOr([])[j]);
              && n.error == agg.failures[j].failure.trace
              && n.file == Some(agg.failures[j].file)
              && (agg.failures[j].failure.name != [] ==> n.name == agg.failures[j].failure.name)
    {
      NormalizeFailureSpec(AsInputFailure(agg.failures[j]));
    }
  }
}
