/**
 * The decoded Cucumber message list and the failure records built from it
 * (parse_cucumber_reports.py). A message is a JSON object that may carry
 * any of several keys at once; only the keys the aggregator reads are
 * modelled, and each JSON scalar it reads is a string field.
 */
module Messages {
  import opened Wrappers

  /** A string-valued JSON field; `None` when the key is missing or null. */
  type Field = Option<string>

  /** Python truthiness of a field: present and not the empty string. */
  predicate Truthy(f: Field) {
    f.Some? && f.value != []
  }

  /** Python's `a or b` on two fields. */
  function Or(a: Field, b: Field): (r: Field)
    ensures Truthy(r) <==> Truthy(a) || Truthy(b)
    ensures Truthy(a) ==> r == a
    ensures !Truthy(a) ==> r == b
  {
    if Truthy(a) then a else b
  }

  /** `(f or default)` for a string default. */
  function OrElse(f: Field, default: string): (r: string)
    ensures Truthy(f) ==> r == f.value
    ensures !Truthy(f) ==> r == default
  {
    if Truthy(f) then f.value else default
  }

  datatype Pickle = Pickle(id: Field, name: Field, uri: Field)

  datatype TestCase = TestCase(id: Field, name: Field, keyword: Field)

  /** `testCaseStarted`: its own id and whichever of the three target ids it embeds. */
  datatype TestCaseStarted = TestCaseStarted(id: Field, testCaseId: Field, testCase: Field, pickleId: Field)

  /** The structured `exception` of a step result (`type` and `message`). */
  datatype ExceptionInfo = ExceptionInfo(excType: Field, message: Field)

  /** `testStepResult`; `exception` is `None` when it is missing, empty or not an object. */
  datatype StepResult = StepResult(status: Field, message: Field, exception: Option<ExceptionInfo>)

  /** What `tsf.get('testStepResult') or {}` gives when the result is missing or empty. */
  const EmptyStepResult := StepResult(None, None, None)

  /** `testStepFinished`; `testStepResult` is `None` when missing or empty. */
  datatype TestStepFinished = TestStepFinished(testCaseStartedId: Field, testStepResult: Option<StepResult>)

  datatype CaseResult = CaseResult(status: Field)

  /** `testCaseFinished`; `testCaseResult` is `None` when missing or empty. */
  datatype TestCaseFinished = TestCaseFinished(testCaseResult: Option<CaseResult>)

  /** One element of the decoded message list: a value that is not a JSON
      object, or an object with any of the five keys the aggregator reads
      (each `None` when the key is missing or its value is not an object). */
  datatype Message =
    | NotAnObject
    | Envelope(pickle: Option<Pickle>, testCase: Option<TestCase>,
               testCaseStarted: Option<TestCaseStarted>,
               testStepFinished: Option<TestStepFinished>,
               testCaseFinished: Option<TestCaseFinished>)

  /** Where a failure record came from: a failed step event (which records
      its `testCaseStartedId`, possibly null) or a failed DOM node (which
      has no such key). */
  datatype Origin = StepEvent(testCaseStartedId: Field) | DomNode

  /** A failure record of one report file. */
  datatype Failure = Failure(origin: Origin, name: string, reason: string, trace: string)

  /** A failure record of the aggregate: tagged with the base name of its file. */
  datatype FileFailure = FileFailure(file: string, failure: Failure)

  /** The reasons of a failure list, in order. */
  function ReasonList(failures: seq<Failure>): (rs: seq<string>)
    ensures |rs| == |failures| && forall j :: 0 <= j < |failures| ==> rs[j] == failures[j].reason
  {
    seq(|failures|, j requires 0 <= j < |failures| => failures[j].reason)
  }

  lemma ReasonListAppend(failures: seq<Failure>, f: Failure)
    ensures ReasonList(failures + [f]) == ReasonList(failures) + [f.reason]
  {
  }

  const MaxTrace := 5000
}
