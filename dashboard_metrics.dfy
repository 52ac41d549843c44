/**
 * The input side of the dashboard generator (dashboard_generator.py):
 * `normalize_reason`, which reduces an error text to a short reason, and
 * `gather_metrics`, which reads the totals and the failure list of the
 * report JSON with defaults for what is missing.
 */
module DashboardMetrics {
  import opened Wrappers
  import opened PyText
  import opened Messages
  import opened ExcPattern

  const Unknown := "Unknown"
  const MaxFirstLine := 120
  const UnnamedTest := "Unnamed Test"

  /** `normalize_reason(text)`: the exception token of the dashboard's
      pattern, else the first line stripped and cut to 120 characters,
      else "Unknown". */
  function NormalizeReason(text: string): string {
    if text == [] then Unknown
    else match Search(text, DashboardSuffixes)
      case Some(m) => Token(text, m)
      case None =>
        var first := Strip(SplitLines(text)[0]);
        if first != [] then Take(first, MaxFirstLine) else Unknown
  }

  /** A normalised reason is never empty. It is "Unknown" for the empty
      text. When the text holds an exception token, it is that token, a slice of the text: a run
      of token characters ending, without regard to case, in one of the
      dashboard's suffixes. Otherwise it is the stripped first line, cut to
      120 characters, or "Unknown" when that line is blank. */
  lemma NormalizeReasonSpec(text: string)
    ensures NormalizeReason(text) != []
    ensures text == [] ==> NormalizeReason(text) == Unknown
    ensures text != [] && Search(text, DashboardSuffixes).Some? ==>
              && NormalizeReason(text) == text[Search(text, DashboardSuffixes).value.start..Search(text, DashboardSuffixes).value.end]
              && exists k: nat :: k < |DashboardSuffixes| && TokenShaped(NormalizeReason(text), DashboardSuffixes[k])
    ensures text != [] && Search(text, DashboardSuffixes).None? ==>
              var first := SplitLines(text)[0];
              && (Blank(first) ==> NormalizeReason(text) == Unknown)
              && (!Blank(first) ==> NormalizeReason(text) == Take(Strip(first), MaxFirstLine))
              && |NormalizeReason(text)| <= MaxFirstLine
  {
    if text != [] {
      if Search(text, DashboardSuffixes).Some? {
        TokenShape(text, DashboardSuffixes);
      } else {
        StripEmptyIffBlank(SplitLines(text)[0]);
      }
    }
  }

  /** A failure record as the dashboard reads it. `file` distinguishes a
      missing key (`None`) from a key whose value is null (`Some(None)`),
      because `f.get('file', '')` defaults only the former. */
  datatype InputFailure = InputFailure(name: Field, file: Option<Field>, error: Field, trace: Field)

  /** The report JSON as the dashboard reads it: totals that may be missing
      or null, and a failure list that may be missing or null. */
  datatype ReportData = ReportData(total: Option<int>, passed: Option<int>, failed: Option<int>,
                                   skipped: Option<int>, failures: Option<seq<InputFailure>>)

  /** A normalised failure: `file` stays null when the input had null. */
  datatype NormFailure = NormFailure(name: string, error: string, file: Field)

  datatype Metrics = Metrics(total: int, passed: int, failed: int, skipped: int, failures: seq<NormFailure>)

  /** `data.get(key) or 0`. */
  function IntOrZero(v: Option<int>): (r: int)
    ensures v.Some? ==> r == v.value
    ensures v.None? ==> r == 0
  {
    if v.Some? && v.value != 0 then v.value else 0
  }

  /** The normalisation of one failure record. */
  function NormalizeFailure(f: InputFailure): NormFailure {
    var file := f.file.GetOr(None);
    NormFailure(OrElse(Or(f.name, file), UnnamedTest), OrElse(Or(f.error, f.trace), ""), f.file.GetOr(Some("")))
  }

  /** The name falls back from `name` to `file` to "Unnamed Test" and is
      never empty; the error falls back from `error` to `trace` to ""; a
      missing file becomes "" and a null file stays null. */
  lemma NormalizeFailureSpec(f: InputFailure)
    ensures var n := NormalizeFailure(f);
            && n.name != []
            && (Truthy(f.name) ==> n.name == f.name.value)
            && (!Truthy(f.name) && f.file.Some? && Truthy(f.file.value) ==> n.name == f.file.value.value)
            && (!Truthy(f.name) && !(f.file.Some? && Truthy(f.file.value)) ==> n.name == UnnamedTest)
            && (Truthy(f.error) ==> n.error == f.error.value)
            && (!Truthy(f.error) && Truthy(f.trace) ==> n.error == f.trace.value)
            && (!Truthy(f.error) && !Truthy(f.trace) ==> n.error == [])
            && (f.file.None? ==> n.file == Some(""))
            && (f.file.Some? ==> n.file == f.file.value)
  {
  }

  /** `gather_metrics(data)`: totals default to 0, and the failure list is
      normalised one record at a time, keeping its length and order. */
  method GatherMetrics(data: ReportData) returns (m: Metrics)
    ensures m.total == data.total.GetOr(0) && m.passed == data.passed.GetOr(0)
    ensures m.failed == data.failed.GetOr(0) && m.skipped == data.skipped.GetOr(0)
    ensures var fs := data.failures.GetOr([]);
            |m.failures| == |fs| && forall j :: 0 <= j < |fs| ==> m.failures[j] == NormalizeFailure(fs[j])
  {
    var failures := if data.failures.Some? && data.failures.value != [] then data.failures.value else [];
    var norm: seq<NormFailure> := [];
    var i := 0;
    while i < |failures|
      invariant 0 <= i <= |failures|
      invariant |norm| == i && forall j :: 0 <= j < i ==> norm[j] == NormalizeFailure(failures[j])
    {
      norm := norm + [NormalizeFailure(failures[i])];
      i := i + 1;
    }
    m := Metrics(IntOrZero(data.total), IntOrZero(data.passed), IntOrZero(data.failed), IntOrZero(data.skipped), norm);
  }
}
