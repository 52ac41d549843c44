/**
 * `parse_messages` (parse_cucumber_reports.py): two passes over the decoded
 * Cucumber message list. The first pass fills three id maps (pickle names,
 * test-case names, and the target id of each started test case); the second
 * counts step statuses and builds one failure record per FAILED step,
 * naming it through the id maps and giving it a reason.
 *
 * Each pass is a method with a loop, proved equal to a specification
 * function defined on the message prefix seen so far; the properties of
 * the result are lemmas about those functions.
 */
module MessageAggregation {
  import opened Wrappers
  import opened PyText
  import opened Counters
  import opened Messages
  import opened ReasonExtraction

  const UnknownTest := "Unknown test"
  const UnknownFailure := "Unknown failure"
  const FailedStatus := "FAILED"
  const TopReasons := 10

  // ---------------------------------------------------------------------
  // First pass: the id maps
  // ---------------------------------------------------------------------

  /** The three maps of the first pass. */
  datatype Kind = PickleNames | TestCaseNames | StartedTargets

  /** `if id and value: m[id] = value`: a pair is recorded only when both
      sides are truthy. */
  function Pair(id: Field, value: Field): (d: Option<(string, string)>)
    ensures d.Some? <==> Truthy(id) && Truthy(value)
    ensures d.Some? ==> d.value.0 != [] && d.value.1 != []
  {
    if Truthy(id) && Truthy(value) then Some((id.value, value.value)) else None
  }

  /** The entry a message contributes to the map of `kind`, if any: a
      pickle's name or else its uri; a test case's name or else its
      keyword; a started test case's `testCaseId`, else `testCase`, else
      `pickleId`. Each key of a message is looked at independently. */
  function Declaration(m: Message, kind: Kind): (d: Option<(string, string)>)
    ensures d.Some? ==> d.value.0 != [] && d.value.1 != []
  {
    match m
    case NotAnObject => None
    case Envelope(p, tc, tcs, _, _) =>
      match kind
      case PickleNames =>
        if p.Some? then Pair(p.value.id, Or(p.value.name, p.value.uri)) else None
      case TestCaseNames =>
        if tc.Some? then Pair(tc.value.id, Or(tc.value.name, tc.value.keyword)) else None
      case StartedTargets =>
        if tcs.Some? then Pair(tcs.value.id, Or(Or(tcs.value.testCaseId, tcs.value.testCase), tcs.value.pickleId))
        else None
  }

  /** The map of `kind` after the first pass has seen `msgs`. */
  function Collect(msgs: seq<Message>, kind: Kind): (m: map<string, string>)
    ensures forall id :: id in m ==> id != [] && m[id] != []
  {
    if msgs == [] then map[]
    else
      var m := Collect(msgs[..|msgs| - 1], kind);
      match Declaration(msgs[|msgs| - 1], kind)
      case Some(d) => m[d.0 := d.1]
      case None => m
  }

  /** Message `m` declares an entry for `id` in the map of `kind`. */
  predicate Declares(m: Message, kind: Kind, id: string) {
    Declaration(m, kind).Some? && Declaration(m, kind).value.0 == id
  }

  /** Message `i` is the last one of `msgs` that declares `id`. */
  predicate IsLastDeclaration(msgs: seq<Message>, kind: Kind, id: string, i: nat) {
    && i < |msgs| && Declares(msgs[i], kind, id)
    && forall j :: i < j < |msgs| ==> !Declares(msgs[j], kind, id)
  }

  /** An id is in the map exactly when some message declares it. */
  lemma {:induction false} CollectKeys(msgs: seq<Message>, kind: Kind, id: string)
    ensures id in Collect(msgs, kind) <==> exists i :: 0 <= i < |msgs| && Declares(msgs[i], kind, id)
  {
    if msgs != [] {
      var init := msgs[..|msgs| - 1];
      CollectKeys(init, kind, id);
      assert forall i :: 0 <= i < |init| ==> init[i] == msgs[i];
    }
  }

  /** Later declarations overwrite earlier ones: the value recorded for an
      id is the one of its last declaration. */
  lemma {:induction false} LastDeclarationWins(msgs: seq<Message>, kind: Kind, id: string) returns (i: nat)
    requires id in Collect(msgs, kind)
    ensures IsLastDeclaration(msgs, kind, id, i)
    ensures Declaration(msgs[i], kind) == Some((id, Collect(msgs, kind)[id]))
  {
    var init := msgs[..|msgs| - 1];
    var last := |msgs| - 1;
    if Declares(msgs[last], kind, id) {
      i := last;
    } else {
      i := LastDeclarationWins(init, kind, id);
      assert init[i] == msgs[i];
      assert forall j :: i < j < |init| ==> init[j] == msgs[j];
    }
  }

  /** The maps of the first pass. */
  datatype NameMaps = NameMaps(pickleNames: map<string, string>,
                               testCaseNames: map<string, string>,
                               startedTargets: map<string, string>)

  function CollectNames(msgs: seq<Message>): NameMaps {
    NameMaps(Collect(msgs, PickleNames), Collect(msgs, TestCaseNames), Collect(msgs, StartedTargets))
  }

  /** What one more message adds to the map of `kind`. */
  lemma CollectStep(msgs: seq<Message>, i: nat, kind: Kind)
    requires i < |msgs|
    ensures var d := Declaration(msgs[i], kind);
            Collect(msgs[..i + 1], kind) == if d.Some? then Collect(msgs[..i], kind)[d.value.0 := d.value.1] else Collect(msgs[..i], kind)
  {
    assert msgs[..i + 1][..i] == msgs[..i];
  }

  /** The first loop of `parse_messages`. Non-objects are skipped; the
      three keys of one message are examined independently. */
  method FirstPass(msgs: seq<Message>) returns (maps: NameMaps)
    ensures maps == CollectNames(msgs)
  {
    var pickles: map<string, string> := map[];
    var testCases: map<string, string> := map[];
    var started: map<string, string> := map[];
    var i := 0;
    while i < |msgs|
      invariant 0 <= i <= |msgs|
      invariant pickles == Collect(msgs[..i], PickleNames)
      invariant testCases == Collect(msgs[..i], TestCaseNames)
      invariant started == Collect(msgs[..i], StartedTargets)
    {
      CollectStep(msgs, i, PickleNames);
      CollectStep(msgs, i, TestCaseNames);
      CollectStep(msgs, i, StartedTargets);
      ghost var next := msgs[..i + 1];
      var m := msgs[i];
      if m.Envelope? {
        if m.pickle.Some? {
          var p := m.pickle.value;
          var name := Or(p.name, p.uri);
          if Truthy(p.id) && Truthy(name) {
            pickles := pickles[p.id.value := name.value];
          }
        }
        if m.testCase.Some? {
          var tc := m.testCase.value;
          var name := Or(tc.name, tc.keyword);
          if Truthy(tc.id) && Truthy(name) {
            testCases := testCases[tc.id.value := name.value];
          }
        }
        if m.testCaseStarted.Some? {
          var tcs := m.testCaseStarted.value;
          var target := Or(Or(tcs.testCaseId, tcs.testCase), tcs.pickleId);
          if Truthy(tcs.id) && Truthy(target) {
            started := started[tcs.id.value := target.value];
          }
        }
      }
      assert pickles == Collect(next, PickleNames);
      assert testCases == Collect(next, TestCaseNames);
      i := i + 1;
    }
    assert msgs[..|msgs|] == msgs;
    maps := NameMaps(pickles, testCases, started);
  }

  // ---------------------------------------------------------------------
  // Name resolution
  // ---------------------------------------------------------------------

  /** `d.get(k)`. */
  function Lookup(d: map<string, string>, k: string): (r: Field)
    ensures r.Some? <==> k in d
  {
    if k in d then Some(d[k]) else None
  }

  /** Every value of every map is a non-empty string, as the first pass
      guarantees; Python's `or` then never skips a value that is present. */
  predicate ValidMaps(maps: NameMaps) {
    && (forall k :: k in maps.pickleNames ==> maps.pickleNames[k] != [])
    && (forall k :: k in maps.testCaseNames ==> maps.testCaseNames[k] != [])
    && (forall k :: k in maps.startedTargets ==> maps.startedTargets[k] != [])
  }

  lemma CollectNamesValid(msgs: seq<Message>)
    ensures ValidMaps(CollectNames(msgs))
  {
  }

  /** The display name of a failed step with `testCaseStartedId` `tcsId`. */
  function ResolveName(maps: NameMaps, tcsId: Field): string {
    if !Truthy(tcsId) then UnknownTest
    else
      var mapped := OrElse(Lookup(maps.startedTargets, tcsId.value), tcsId.value);
      OrElse(Or(Lookup(maps.testCaseNames, mapped), Lookup(maps.pickleNames, mapped)), UnknownTest)
  }

  /** The id a started id leads to: its recorded target, or itself. */
  function Target(maps: NameMaps, startedId: string): string {
    if startedId in maps.startedTargets then maps.startedTargets[startedId] else startedId
  }

  /** Name resolution: "Unknown test" without a started id; otherwise the
      target id (or the raw started id when it has none) is looked up among
      the test-case names first, then among the pickle names, and
      "Unknown test" when it is in neither. */
  lemma ResolveNameSpec(maps: NameMaps, tcsId: Field)
    requires ValidMaps(maps)
    ensures !Truthy(tcsId) ==> ResolveName(maps, tcsId) == UnknownTest
    ensures Truthy(tcsId) ==>
              var t := Target(maps, tcsId.value);
              && (t in maps.testCaseNames ==> ResolveName(maps, tcsId) == maps.testCaseNames[t])
              && (t !in maps.testCaseNames && t in maps.pickleNames ==>
                    ResolveName(maps, tcsId) == maps.pickleNames[t])
              && (t !in maps.testCaseNames && t !in maps.pickleNames ==>
                    ResolveName(maps, tcsId) == UnknownTest)
  {
  }

  /** Message `m` declares the name `name` for some test case or pickle. */
  predicate DeclaresName(m: Message, name: string) {
    || (Declaration(m, TestCaseNames).Some? && Declaration(m, TestCaseNames).value.1 == name)
    || (Declaration(m, PickleNames).Some? && Declaration(m, PickleNames).value.1 == name)
  }

  /** A resolved name is "Unknown test" or a name that some message of the
      list declares; it is never empty. */
  lemma ResolvedNameIsDeclared(msgs: seq<Message>, tcsId: Field)
    ensures ResolveName(CollectNames(msgs), tcsId) != []
    ensures var name := ResolveName(CollectNames(msgs), tcsId);
            name == UnknownTest || exists i :: 0 <= i < |msgs| && DeclaresName(msgs[i], name)
  {
    var maps := CollectNames(msgs);
    var name := ResolveName(maps, tcsId);
    if Truthy(tcsId) {
      var t := Target(maps, tcsId.value);
      if t in maps.testCaseNames {
        var i := LastDeclarationWins(msgs, TestCaseNames, t);
        assert DeclaresName(msgs[i], name);
      } else if t in maps.pickleNames {
        var i := LastDeclarationWins(msgs, PickleNames, t);
        assert DeclaresName(msgs[i], name);
      }
    }
  }

  // ---------------------------------------------------------------------
  // Second pass: statuses and failures
  // ---------------------------------------------------------------------

  /** `(result.get('status') or '').upper()` of a step event. */
  function StepStatus(tsf: TestStepFinished): string {
    Upper(OrElse(tsf.testStepResult.GetOr(EmptyStepResult).status, ""))
  }

  /** The same for a `testCaseFinished` event. */
  function FinishedStatus(tcf: TestCaseFinished): string {
    Upper(OrElse(tcf.testCaseResult.GetOr(CaseResult(None)).status, ""))
  }

  /** What the second pass sees in a message: a `testStepFinished` object
      takes precedence over a `testCaseFinished` object (`if` / `elif`). */
  datatype Event = StepFinished(tsf: TestStepFinished) | CaseFinished(status: string) | NoEvent

  function EventOf(m: Message): Event {
    match m
    case NotAnObject => NoEvent
    case Envelope(_, _, _, tsf, tcf) =>
      if tsf.Some? then StepFinished(tsf.value)
      else if tcf.Some? then CaseFinished(FinishedStatus(tcf.value))
      else NoEvent
  }

  /** The counter update of one event: a step event adds 1 under its
      status, a `testCaseFinished` event adds 0 under its own. */
  function CountEvent(c: Counter, e: Event): Counter {
    match e
    case StepFinished(tsf) => Add(c, StepStatus(tsf), 1)
    case CaseFinished(s) => Add(c, s, 0)
    case NoEvent => c
  }

  /** The status counter after the second pass has seen `msgs`. */
  function StatusCounts(msgs: seq<Message>): Counter {
    if msgs == [] then [] else CountEvent(StatusCounts(msgs[..|msgs| - 1]), EventOf(msgs[|msgs| - 1]))
  }

  /** The statuses of the step events, in message order. */
  function StepStatuses(msgs: seq<Message>): seq<string> {
    if msgs == [] then []
    else
      StepStatuses(msgs[..|msgs| - 1]) +
      match EventOf(msgs[|msgs| - 1])
      case StepFinished(tsf) => [StepStatus(tsf)]
      case _ => []
  }

  /** The statuses of the `testCaseFinished` events, in message order. */
  function FinishedStatuses(msgs: seq<Message>): seq<string> {
    if msgs == [] then []
    else
      FinishedStatuses(msgs[..|msgs| - 1]) +
      match EventOf(msgs[|msgs| - 1])
      case CaseFinished(s) => [s]
      case _ => []
  }

  /** Each step event adds exactly one to the count of its status and
      `testCaseFinished` events change no count, so every count is the
      number of step events with that status and the counts sum to the
      number of step events; the keys are the statuses of both kinds of
      event, each once. */
  lemma {:induction false} StatusCountsSpec(msgs: seq<Message>)
    ensures DistinctKeys(StatusCounts(msgs))
    ensures forall k :: Get(StatusCounts(msgs), k) == multiset(StepStatuses(msgs))[k]
    ensures Total(StatusCounts(msgs)) == |StepStatuses(msgs)|
  {
    if msgs != [] {
      var init := msgs[..|msgs| - 1];
      StatusCountsSpec(init);
      match EventOf(msgs[|msgs| - 1])
      case StepFinished(tsf) =>
        assert StepStatuses(msgs) == StepStatuses(init) + [StepStatus(tsf)];
        AddTotal(StatusCounts(init), StepStatus(tsf), 1);
        AddDistinct(StatusCounts(init), StepStatus(tsf), 1);
      case CaseFinished(st) =>
        AddTotal(StatusCounts(init), st, 0);
        AddDistinct(StatusCounts(init), st, 0);
      case NoEvent =>
    }
  }

  /** The keys of the status counter are the statuses of both kinds of
      event: a `testCaseFinished` event may add a key with count 0. */
  lemma {:induction false} StatusCountsKeys(msgs: seq<Message>)
    ensures forall k :: k in Keys(StatusCounts(msgs)) <==> k in StepStatuses(msgs) || k in FinishedStatuses(msgs)
  {
    if msgs != [] {
      var init := msgs[..|msgs| - 1];
      StatusCountsKeys(init);
      match EventOf(msgs[|msgs| - 1])
      case StepFinished(tsf) =>
        assert StepStatuses(msgs) == StepStatuses(init) + [StepStatus(tsf)];
        assert FinishedStatuses(msgs) == FinishedStatuses(init);
      case CaseFinished(st) =>
        assert StepStatuses(msgs) == StepStatuses(init);
        assert FinishedStatuses(msgs) == FinishedStatuses(init) + [st];
      case NoEvent =>
        assert StepStatuses(msgs) == StepStatuses(init);
        assert FinishedStatuses(msgs) == FinishedStatuses(init);
    }
  }

  /** The step events whose status is FAILED, in message order. */
  function FailedSteps(msgs: seq<Message>): seq<TestStepFinished> {
    if msgs == [] then []
    else
      FailedSteps(msgs[..|msgs| - 1]) +
      match EventOf(msgs[|msgs| - 1])
      case StepFinished(tsf) => if StepStatus(tsf) == FailedStatus then [tsf] else []
      case _ => []
  }

  /** There is one failed step per FAILED status counted. */
  lemma {:induction false} FailedStepsCount(msgs: seq<Message>)
    ensures |FailedSteps(msgs)| == multiset(StepStatuses(msgs))[FailedStatus]
    ensures forall j :: 0 <= j < |FailedSteps(msgs)| ==> StepStatus(FailedSteps(msgs)[j]) == FailedStatus
  {
    if msgs != [] {
      var init := msgs[..|msgs| - 1];
      FailedStepsCount(init);
      match EventOf(msgs[|msgs| - 1])
      case StepFinished(tsf) =>
        assert StepStatuses(msgs) == StepStatuses(init) + [StepStatus(tsf)];
        assert FailedSteps(msgs) == FailedSteps(init) + if StepStatus(tsf) == FailedStatus then [tsf] else [];
      case CaseFinished(st) =>
        assert StepStatuses(msgs) == StepStatuses(init) && FailedSteps(msgs) == FailedSteps(init);
      case NoEvent =>
        assert StepStatuses(msgs) == StepStatuses(init) && FailedSteps(msgs) == FailedSteps(init);
    }
  }

  /** The reason from the structured exception: its type, followed by
      `": "` and its message when it has one. */
  function ExceptionReason(result: StepResult): (r: Option<string>)
    ensures r.Some? ==> r.value != []
  {
    match result.exception
    case Some(e) =>
      if Truthy(e.excType) then
        Some(e.excType.value + (if Truthy(e.message) then ": " + e.message.value else ""))
      else None
    case None => None
  }

  /** The failure record of a FAILED step. */
  function FailureOf(maps: NameMaps, tsf: TestStepFinished): Failure {
    var result := tsf.testStepResult.GetOr(EmptyStepResult);
    var message := OrElse(result.message, "");
    var reason := if ExceptionReason(result).Some? then ExceptionReason(result)
                  else ExtractReasonFromText(message);
    Failure(StepEvent(tsf.testCaseStartedId), ResolveName(maps, tsf.testCaseStartedId),
            reason.GetOr(UnknownFailure), Take(message, MaxTrace))
  }

  /** The reason of a failed step is the exception's type (with its message)
      when the step result carries an exception type; else the reason found
      in the message text; and "Unknown failure" when there is
      neither an exception type nor a non-blank message. It is never empty.
      The trace is the message (empty when missing) cut to 5000
      characters, and the record keeps the step's `testCaseStartedId`. */
  lemma FailureOfSpec(maps: NameMaps, tsf: TestStepFinished)
    ensures var f := FailureOf(maps, tsf);
            var result := tsf.testStepResult.GetOr(EmptyStepResult);
            var message := OrElse(result.message, "");
            && f.reason != []
            && f.origin == StepEvent(tsf.testCaseStartedId)
            && f.trace <= message && |f.trace| == (if |message| < MaxTrace then |message| else MaxTrace)
            && (ExceptionReason(result).Some? ==> f.reason == ExceptionReason(result).value)
            && (ExceptionReason(result).None? && !Blank(message) ==>
                  ExtractReasonFromText(message) == Some(f.reason))
            && (ExceptionReason(result).None? && Blank(message) ==> f.reason == UnknownFailure)
            && (ExceptionReason(result).Some? ==> result.exception.value.excType.value <= f.reason)
  {
    var result := tsf.testStepResult.GetOr(EmptyStepResult);
    ExtractReasonSpec(OrElse(result.message, ""));
  }

  /** The failure records one event adds: one for a FAILED step. */
  function EventFailures(maps: NameMaps, e: Event): seq<Failure> {
    match e
    case StepFinished(tsf) => if StepStatus(tsf) == FailedStatus then [FailureOf(maps, tsf)] else []
    case _ => []
  }

  /** The failure records of the second pass over `msgs`, names resolved
      with `maps`. */
  function Failures(maps: NameMaps, msgs: seq<Message>): seq<Failure> {
    if msgs == [] then [] else Failures(maps, msgs[..|msgs| - 1]) + EventFailures(maps, EventOf(msgs[|msgs| - 1]))
  }

  /** One failure record per FAILED step, in message order. */
  lemma {:induction false} FailuresFollowFailedSteps(maps: NameMaps, msgs: seq<Message>)
    ensures |Failures(maps, msgs)| == |FailedSteps(msgs)|
    ensures forall j :: 0 <= j < |FailedSteps(msgs)| ==> Failures(maps, msgs)[j] == FailureOf(maps, FailedSteps(msgs)[j])
  {
    if msgs != [] {
      FailuresFollowFailedSteps(maps, msgs[..|msgs| - 1]);
    }
  }

  /** What one more message adds to the status counter and the failures. */
  lemma PassStep(maps: NameMaps, msgs: seq<Message>, i: nat)
    requires i < |msgs|
    ensures StatusCounts(msgs[..i + 1]) == CountEvent(StatusCounts(msgs[..i]), EventOf(msgs[i]))
    ensures Failures(maps, msgs[..i + 1]) == Failures(maps, msgs[..i]) + EventFailures(maps, EventOf(msgs[i]))
  {
    assert msgs[..i + 1][..i] == msgs[..i];
  }

  /** The second loop of `parse_messages`. */
  method SecondPass(maps: NameMaps, msgs: seq<Message>) returns (counts: Counter, failures: seq<Failure>)
    ensures counts == StatusCounts(msgs)
    ensures failures == Failures(maps, msgs)
  {
    counts := [];
    failures := [];
    var i := 0;
    while i < |msgs|
      invariant 0 <= i <= |msgs|
      invariant counts == StatusCounts(msgs[..i])
      invariant failures == Failures(maps, msgs[..i])
    {
      PassStep(maps, msgs, i);
      var m := msgs[i];
      if m.Envelope? {
        if m.testStepFinished.Some? {
          var tsf := m.testStepFinished.value;
          var status := StepStatus(tsf);
          counts := Add(counts, status, 1);
          if status == FailedStatus {
            failures := failures + [FailureOf(maps, tsf)];
          }
        } else if m.testCaseFinished.Some? {
          counts := Add(counts, FinishedStatus(m.testCaseFinished.value), 0);
        }
      }
      i := i + 1;
    }
    assert msgs[..|msgs|] == msgs;
  }

  // ---------------------------------------------------------------------
  // The result
  // ---------------------------------------------------------------------

  /** The reasons of the failure records that have a non-empty reason
      (`[f['reason'] for f in failures if f.get('reason')]`). */
  function ReasonsOf(failures: seq<Failure>): seq<string> {
    if failures == [] then []
    else (if failures[0].reason != [] then [failures[0].reason] else []) + ReasonsOf(failures[1..])
  }

  /** When no reason is empty, the filter keeps every reason. */
  lemma {:induction false} ReasonsOfAll(failures: seq<Failure>)
    requires forall j :: 0 <= j < |failures| ==> failures[j].reason != []
    ensures |ReasonsOf(failures)| == |failures|
    ensures forall j :: 0 <= j < |failures| ==> ReasonsOf(failures)[j] == failures[j].reason
  {
    if failures != [] {
      ReasonsOfAll(failures[1..]);
    }
  }

  datatype ParseResult = ParseResult(totalStepsRecorded: Option<int>, counts: Counter,
                                     failures: seq<Failure>, topFailureReasons: Counter)

  /** What `parse_messages(msgs)` returns. The names of the second pass are
      resolved with the maps of the whole list. */
  function ParseSpec(msgs: seq<Message>): ParseResult {
    var counts := StatusCounts(msgs);
    var failures := Failures(CollectNames(msgs), msgs);
    ParseResult(if counts == [] then None else Some(Total(counts)), counts, failures,
                MostCommon(CountOf(ReasonsOf(failures)), TopReasons))
  }

  /** `parse_messages`. */
  method ParseMessages(msgs: seq<Message>) returns (r: ParseResult)
    ensures r == ParseSpec(msgs)
  {
    var maps := FirstPass(msgs);
    var counts, failures := SecondPass(maps, msgs);
    var total := if counts == [] then None else Some(Total(counts));
    var reasonCounter := CountOf(ReasonsOf(failures));
    r := ParseResult(total, counts, failures, MostCommon(reasonCounter, TopReasons));
  }

  /** Dropping the last element of `a + [m] + b`, for `b` non-empty. */
  lemma DropLastAround<T>(a: seq<T>, m: T, b: seq<T>)
    requires b != []
    ensures (a + [m] + b)[..|a + [m] + b| - 1] == a + [m] + b[..|b| - 1]
    ensures (a + b)[..|a + b| - 1] == a + b[..|b| - 1]
    ensures (a + [m] + b)[|a + [m] + b| - 1] == b[|b| - 1] == (a + b)[|a + b| - 1]
  {
    assert (a + [m] + b)[..|a + [m] + b| - 1] == a + [m] + b[..|b| - 1];
    assert (a + b)[..|a + b| - 1] == a + b[..|b| - 1];
  }

  /** Dropping the last element of `a + [m]`. */
  lemma DropLastMiddle<T>(a: seq<T>, m: T, b: seq<T>)
    requires b == []
    ensures a + [m] + b != [] && (a + [m] + b)[..|a + [m] + b| - 1] == a + b
    ensures (a + [m] + b)[|a + [m] + b| - 1] == m
  {
    assert (a + [m] + b)[..|a + [m] + b| - 1] == a + b;
  }

  /** `a + [m] + b` and `a + b` both end with the last element of `b`. */
  lemma SplitLast<T>(a: seq<T>, m: T, b: seq<T>)
    requires b != []
    ensures a + [m] + b == (a + [m] + b[..|b| - 1]) + [b[|b| - 1]]
    ensures a + b == (a + b[..|b| - 1]) + [b[|b| - 1]]
  {
    assert b == b[..|b| - 1] + [b[|b| - 1]];
  }

  /** The counter after one more message. */
  lemma CountsAppend(x: seq<Message>, e: Message)
    ensures StatusCounts(x + [e]) == CountEvent(StatusCounts(x), EventOf(e))
  {
    assert (x + [e])[..|x + [e]| - 1] == x;
  }

  /** The failure list after one more message. */
  lemma FailuresAppend(maps: NameMaps, x: seq<Message>, e: Message)
    ensures Failures(maps, x + [e]) == Failures(maps, x) + EventFailures(maps, EventOf(e))
  {
    assert (x + [e])[..|x + [e]| - 1] == x;
  }

  /** A message that is not a JSON object leaves each map of the first
      pass, the status counter and the failure list as they were. */
  lemma {:induction false} NonObjectSkippedByCollect(a: seq<Message>, b: seq<Message>, kind: Kind)
    ensures Collect(a + [NotAnObject] + b, kind) == Collect(a + b, kind)
    decreases |b|
  {
    if b == [] {
      DropLastMiddle(a, NotAnObject, b);
    } else {
      NonObjectSkippedByCollect(a, b[..|b| - 1], kind);
      DropLastAround(a, NotAnObject, b);
    }
  }

  lemma {:induction false} NonObjectSkippedByCounts(a: seq<Message>, b: seq<Message>)
    ensures StatusCounts(a + [NotAnObject] + b) == StatusCounts(a + b)
    decreases |b|
  {
    if b == [] {
      assert a + [NotAnObject] + b == a + [NotAnObject] && a + b == a;
      CountsAppend(a, NotAnObject);
    } else {
      var b', e := b[..|b| - 1], b[|b| - 1];
      NonObjectSkippedByCounts(a, b');
      SplitLast(a, NotAnObject, b);
      CountsAppend(a + [NotAnObject] + b', e);
      CountsAppend(a + b', e);
    }
  }

  lemma {:induction false} NonObjectSkippedByFailures(a: seq<Message>, b: seq<Message>, maps: NameMaps)
    ensures Failures(maps, a + [NotAnObject] + b) == Failures(maps, a + b)
    decreases |b|
  {
    if b == [] {
      assert a + [NotAnObject] + b == a + [NotAnObject] && a + b == a;
      FailuresAppend(maps, a, NotAnObject);
      assert EventFailures(maps, EventOf(NotAnObject)) == [];
    } else {
      var b', e := b[..|b| - 1], b[|b| - 1];
      NonObjectSkippedByFailures(a, b', maps);
      SplitLast(a, NotAnObject, b);
      FailuresAppend(maps, a + [NotAnObject] + b', e);
      FailuresAppend(maps, a + b', e);
    }
  }

  /** Messages that are not JSON objects are ignored: dropping one anywhere
      in the list leaves the result of `parse_messages` unchanged. */
  lemma NonObjectIgnored(a: seq<Message>, b: seq<Message>)
    ensures ParseSpec(a + [NotAnObject] + b) == ParseSpec(a + b)
  {
    var maps := CollectNames(a + b);
    NonObjectSkippedByCollect(a, b, PickleNames);
    NonObjectSkippedByCollect(a, b, TestCaseNames);
    NonObjectSkippedByCollect(a, b, StartedTargets);
    NonObjectSkippedByCounts(a, b);
    NonObjectSkippedByFailures(a, b, maps);
    assert CollectNames(a + [NotAnObject] + b) == maps;
  }

  /** Every failure record has a non-empty reason, a trace of at most 5000
      characters and a non-empty name. */
  lemma FailuresWellFormed(msgs: seq<Message>)
    ensures forall f :: f in ParseSpec(msgs).failures ==>
              f.reason != [] && |f.trace| <= MaxTrace && f.name != [] && f.origin.StepEvent?
  {
    var maps := CollectNames(msgs);
    FailuresFollowFailedSteps(maps, msgs);
    forall f | f in ParseSpec(msgs).failures
      ensures f.reason != [] && |f.trace| <= MaxTrace && f.name != [] && f.origin.StepEvent?
    {
      var j :| 0 <= j < |Failures(maps, msgs)| && Failures(maps, msgs)[j] == f;
      FailureOfSpec(maps, FailedSteps(msgs)[j]);
      ResolvedNameIsDeclared(msgs, FailedSteps(msgs)[j].testCaseStartedId);
    }
  }

  /** `total_steps_recorded` is None exactly when no step or
      `testCaseFinished` event was seen, and otherwise the number of step
      events. */
  lemma StepsRecorded(msgs: seq<Message>)
    ensures ParseSpec(msgs).totalStepsRecorded.None? <==> StepStatuses(msgs) == [] && FinishedStatuses(msgs) == []
    ensures ParseSpec(msgs).totalStepsRecorded.Some? ==> ParseSpec(msgs).totalStepsRecorded.value == |StepStatuses(msgs)|
  {
    StatusCountsSpec(msgs);
    StatusCountsKeys(msgs);
    var c := StatusCounts(msgs);
    if c == [] {
      assert Keys(c) == [];
    } else {
      assert c[0].0 in Keys(c);
    }
    if StepStatuses(msgs) != [] {
      assert StepStatuses(msgs)[0] in Keys(c);
    }
    if FinishedStatuses(msgs) != [] {
      assert FinishedStatuses(msgs)[0] in Keys(c);
    }
  }

  /** There are as many failure records as FAILED steps counted. */
  lemma FailuresCounted(msgs: seq<Message>)
    ensures |ParseSpec(msgs).failures| == Get(ParseSpec(msgs).counts, FailedStatus)
  {
    StatusCountsSpec(msgs);
    FailedStepsCount(msgs);
    FailuresFollowFailedSteps(CollectNames(msgs), msgs);
  }

  /** The reason counts sum to the number of failures, and at most 10 of
      them are reported, by non-increasing count. */
  lemma ReasonsCounted(msgs: seq<Message>)
    ensures Total(CountOf(ReasonsOf(ParseSpec(msgs).failures))) == |ParseSpec(msgs).failures|
    ensures |ParseSpec(msgs).topFailureReasons| <= TopReasons
    ensures SortedDesc(ParseSpec(msgs).topFailureReasons)
  {
    var failures := ParseSpec(msgs).failures;
    FailuresWellFormed(msgs);
    ReasonsOfAll(failures);
    CountOfCounts(ReasonsOf(failures));
    MostCommonSpec(CountOf(ReasonsOf(failures)), TopReasons);
  }

  /** The totals of `parse_messages`: `total_steps_recorded` is None exactly
      when no step or `testCaseFinished` event was seen, and otherwise the
      number of step events; there are as many failure records as FAILED
      steps counted; the reason counts sum to the number of failures, and
      at most 10 of them are reported, by non-increasing count. */
  lemma ParseSpecTotals(msgs: seq<Message>)
    ensures ParseSpec(msgs).totalStepsRecorded.None? <==> StepStatuses(msgs) == [] && FinishedStatuses(msgs) == []
    ensures ParseSpec(msgs).totalStepsRecorded.Some? ==> ParseSpec(msgs).totalStepsRecorded.value == |StepStatuses(msgs)|
    ensures |ParseSpec(msgs).failures| == Get(ParseSpec(msgs).counts, FailedStatus)
    ensures Total(CountOf(ReasonsOf(ParseSpec(msgs).failures))) == |ParseSpec(msgs).failures|
    ensures |ParseSpec(msgs).topFailureReasons| <= TopReasons
    ensures SortedDesc(ParseSpec(msgs).topFailureReasons)
  {
    StepsRecorded(msgs);
    FailuresCounted(msgs);
    ReasonsCounted(msgs);
  }

}
