/**
 * The classification loop of `fallback_dom_parse`
 * (parse_cucumber_reports.py): every element of the report that carries a
 * `data-status` attribute is a node; nodes are counted as passed, skipped
 * or failed by their upper-cased status, and each failed node becomes a
 * failure record with a name, a trace and a reason. The HTML parser
 * itself is not modelled: a node is given by the attributes and texts
 * the loop reads.
 */
module DomFallback {
  import opened Wrappers
  import opened PyText
  import opened Counters
  import opened Messages
  import opened ReasonExtraction

  const MaxNodeName := 120
  const Unnamed := "Unnamed"
  const UnknownFailure := "Unknown failure"
  const TopReasons := 10

  /** A node with a `data-status` attribute: the attribute values (`None`
      when empty-valued or missing), the node's whole text, and the texts
      of its `pre`, `code` and `div` descendants in document order. */
  datatype Node = Node(status: Field, dataName: Field, text: string, traceTexts: seq<string>)

  /** The first of PASS, SKIP and FAIL that occurs in the status wins. */
  datatype Class = Passed | Skipped | Failed | Unclassified

  function Classify(status: string): Class {
    if Contains(status, "PASS") then Passed
    else if Contains(status, "SKIP") then Skipped
    else if Contains(status, "FAIL") then Failed
    else Unclassified
  }

  function NodeStatus(n: Node): string {
    Upper(OrElse(n.status, ""))
  }

  function ClassOf(n: Node): Class {
    Classify(NodeStatus(n))
  }

  /** A node whose status mentions more than one keyword counts once, for
      the earliest keyword of PASS, SKIP, FAIL. */
  lemma ClassifyPrecedence(status: string)
    ensures Classify(status) == Passed <==> Contains(status, "PASS")
    ensures Classify(status) == Skipped <==> !Contains(status, "PASS") && Contains(status, "SKIP")
    ensures Classify(status) == Failed <==>
              !Contains(status, "PASS") && !Contains(status, "SKIP") && Contains(status, "FAIL")
  {
  }

  /** The non-empty stripped texts of the trace elements. */
  function TraceParts(texts: seq<string>): (parts: seq<string>)
    ensures forall j :: 0 <= j < |parts| ==> parts[j] != []
    ensures |parts| <= |texts|
  {
    if texts == [] then [] else NonEmpty(Strip(texts[0])) + TraceParts(texts[1..])
  }

  /** The trace parts of two runs of elements, one after the other. */
  lemma {:induction false} TracePartsAppend(a: seq<string>, b: seq<string>)
    ensures TraceParts(a + b) == TraceParts(a) + TraceParts(b)
  {
    if a == [] {
      assert a + b == b;
    } else {
      assert (a + b)[0] == a[0] && (a + b)[1..] == a[1..] + b;
      TracePartsAppend(a[1..], b);
    }
  }

  /** The loop over the trace elements: one more element adds its stripped
      text when that is non-empty, and nothing otherwise. */
  lemma TracePartsStep(texts: seq<string>, i: nat)
    requires i < |texts|
    ensures TraceParts(texts[..i + 1]) == TraceParts(texts[..i]) + NonEmpty(Strip(texts[i]))
  {
    assert texts[..i + 1] == texts[..i] + [texts[i]];
    TracePartsAppend(texts[..i], [texts[i]]);
    assert [texts[i]][1..] == [];
  }

  /** The loop of `fallback_dom_parse` over a failed node's `pre`, `code`
      and `div` elements, keeping each non-empty stripped text. */
  method CollectTraceParts(texts: seq<string>) returns (parts: seq<string>)
    ensures parts == TraceParts(texts)
  {
    parts := [];
    var i := 0;
    while i < |texts|
      invariant 0 <= i <= |texts|
      invariant parts == TraceParts(texts[..i])
    {
      TracePartsStep(texts, i);
      var txt := Strip(texts[i]);
      if txt != [] {
        parts := parts + [txt];
      }
      assert parts == TraceParts(texts[..i + 1]);
      i := i + 1;
    }
    assert texts[..i] == texts;
  }

  /** `t` is the stripped text of one of the elements. */
  predicate StrippedFrom(t: string, texts: seq<string>) {
    exists i :: 0 <= i < |texts| && t == Strip(texts[i])
  }

  /** Every trace part is the stripped text of some element. */
  lemma {:induction false} TracePartsFrom(texts: seq<string>)
    ensures forall j :: 0 <= j < |TraceParts(texts)| ==> StrippedFrom(TraceParts(texts)[j], texts)
  {
    if texts != [] {
      var head, rest := NonEmpty(Strip(texts[0])), texts[1..];
      TracePartsFrom(rest);
      var parts := TraceParts(texts);
      assert parts == head + TraceParts(rest);
      forall j | 0 <= j < |parts|
        ensures StrippedFrom(parts[j], texts)
      {
        if j < |head| {
          assert parts[j] == head[j] == Strip(texts[0]);
        } else {
          assert parts[j] == TraceParts(rest)[j - |head|];
          assert StrippedFrom(TraceParts(rest)[j - |head|], rest);
          var i :| 0 <= i < |rest| && TraceParts(rest)[j - |head|] == Strip(rest[i]);
          assert rest[i] == texts[i + 1];
        }
      }
    }
  }

  /** Every element whose stripped text is non-empty gives a trace part. */
  lemma {:induction false} TracePartsComplete(texts: seq<string>)
    ensures forall i :: 0 <= i < |texts| && Strip(texts[i]) != [] ==> Strip(texts[i]) in TraceParts(texts)
  {
    if texts != [] {
      var head, rest := NonEmpty(Strip(texts[0])), texts[1..];
      TracePartsComplete(rest);
      var parts := TraceParts(texts);
      assert parts == head + TraceParts(rest);
      forall i | 0 <= i < |texts| && Strip(texts[i]) != []
        ensures Strip(texts[i]) in parts
      {
        if i == 0 {
          assert head == [Strip(texts[0])];
        } else {
          assert rest[i - 1] == texts[i];
        }
      }
    }
  }

  /** Every trace part is the stripped text of some element, and every
      element whose stripped text is non-empty gives a part. */
  lemma TracePartsMembers(texts: seq<string>)
    ensures forall j :: 0 <= j < |TraceParts(texts)| ==> StrippedFrom(TraceParts(texts)[j], texts)
    ensures forall i :: 0 <= i < |texts| && Strip(texts[i]) != [] ==> Strip(texts[i]) in TraceParts(texts)
  {
    TracePartsFrom(texts);
    TracePartsComplete(texts);
  }

  /** `[t]` when `t` is non-empty, else nothing. */
  function NonEmpty(t: string): (ts: seq<string>)
    ensures |ts| <= 1 && forall j :: 0 <= j < |ts| ==> ts[j] == t != []
  {
    if t != [] then [t] else []
  }

  /** The name of a failed node: its `data-name`, else its first 120
      characters of text stripped, else "Unnamed". */
  function NodeName(n: Node): string {
    if Truthy(n.dataName) then n.dataName.value
    else if Strip(Take(n.text, MaxNodeName)) != [] then Strip(Take(n.text, MaxNodeName))
    else Unnamed
  }

  /** The failure record of a failed node. */
  function NodeFailure(n: Node): Failure {
    var trace := Take(Join(TraceParts(n.traceTexts), "\n"), MaxTrace);
    Failure(DomNode, NodeName(n), ExtractReasonFromText(trace).GetOr(UnknownFailure), trace)
  }

  /** A failed node's record has a non-empty name and reason and a trace of
      at most 5000 characters; the reason is "Unknown failure" when
      the trace is blank, and otherwise the reason found in the trace. */
  lemma NodeFailureSpec(n: Node)
    ensures var f := NodeFailure(n);
            && f.origin == DomNode
            && f.name != [] && f.reason != [] && |f.trace| <= MaxTrace
            && (Blank(f.trace) ==> f.reason == UnknownFailure)
            && (!Blank(f.trace) ==> ExtractReasonFromText(f.trace) == Some(f.reason))
            && (!Truthy(n.dataName) && NodeName(n) != Unnamed ==> |NodeName(n)| <= MaxNodeName)
  {
    var f := NodeFailure(n);
    ExtractReasonSpec(f.trace);
    var t := Take(n.text, MaxNodeName);
    assert |Strip(t)| <= |t|;
  }

  /** The number of nodes of class `c`. */
  function CountClass(nodes: seq<Node>, c: Class): nat {
    if nodes == [] then 0
    else CountClass(nodes[..|nodes| - 1], c) + (if ClassOf(nodes[|nodes| - 1]) == c then 1 else 0)
  }

  /** The failure records of the failed nodes, in document order. */
  function NodeFailures(nodes: seq<Node>): seq<Failure> {
    if nodes == [] then []
    else
      var n := nodes[|nodes| - 1];
      NodeFailures(nodes[..|nodes| - 1]) + (if ClassOf(n) == Failed then [NodeFailure(n)] else [])
  }

  /** What one more node adds to the counts and the failure list. */
  lemma NodeStep(nodes: seq<Node>, i: nat)
    requires i < |nodes|
    ensures CountClass(nodes[..i + 1], Passed) == CountClass(nodes[..i], Passed) + (if ClassOf(nodes[i]) == Passed then 1 else 0)
    ensures CountClass(nodes[..i + 1], Failed) == CountClass(nodes[..i], Failed) + (if ClassOf(nodes[i]) == Failed then 1 else 0)
    ensures CountClass(nodes[..i + 1], Skipped) == CountClass(nodes[..i], Skipped) + (if ClassOf(nodes[i]) == Skipped then 1 else 0)
    ensures NodeFailures(nodes[..i + 1]) ==
              NodeFailures(nodes[..i]) + (if ClassOf(nodes[i]) == Failed then [NodeFailure(nodes[i])] else [])
  {
    assert nodes[..i + 1][..i] == nodes[..i];
  }

  datatype DomSummary = DomSummary(total: int, passed: int, failed: int, skipped: int,
                                   failures: seq<Failure>, topFailureReasons: Counter)

  /** What `fallback_dom_parse` returns for `nodes`. */
  function DomSpec(nodes: seq<Node>): DomSummary {
    DomSummary(|nodes|, CountClass(nodes, Passed), CountClass(nodes, Failed), CountClass(nodes, Skipped),
               NodeFailures(nodes), MostCommon(CountOf(ReasonList(NodeFailures(nodes))), TopReasons))
  }

  /** The loop of `fallback_dom_parse` over the status-carrying nodes. */
  method FallbackDomParse(nodes: seq<Node>) returns (s: DomSummary)
    ensures s == DomSpec(nodes)
  {
    var total, passed, failed, skipped := 0, 0, 0, 0;
    var failures: seq<Failure> := [];
    var failCounter: Counter := [];
    var i := 0;
    while i < |nodes|
      invariant 0 <= i <= |nodes|
      invariant total == i
      invariant passed == CountClass(nodes[..i], Passed)
      invariant failed == CountClass(nodes[..i], Failed)
      invariant skipped == CountClass(nodes[..i], Skipped)
      invariant failures == NodeFailures(nodes[..i])
      invariant failCounter == CountOf(ReasonList(failures))
    {
      NodeStep(nodes, i);
      var n := nodes[i];
      total := total + 1;
      match ClassOf(n) {
      case Passed =>
        passed := passed + 1;
      case Skipped =>
        skipped := skipped + 1;
      case Unclassified =>
      case Failed =>
        failed := failed + 1;
        var parts := CollectTraceParts(n.traceTexts);
        var trace := Take(Join(parts, "\n"), MaxTrace);
        var f := Failure(DomNode, NodeName(n), ExtractReasonFromText(trace).GetOr(UnknownFailure), trace);
        assert f == NodeFailure(n);
        ReasonListAppend(failures, f);
        CountOfAppend(ReasonList(failures), f.reason);
        failures := failures + [f];
        failCounter := Add(failCounter, f.reason, 1);
      }
      i := i + 1;
    }
    assert nodes[..|nodes|] == nodes;
    s := DomSummary(total, passed, failed, skipped, failures, MostCommon(failCounter, TopReasons));
  }

  /** Every node is of exactly one class. */
  lemma {:induction false} ClassesPartition(nodes: seq<Node>)
    ensures CountClass(nodes, Passed) + CountClass(nodes, Skipped) + CountClass(nodes, Failed)
            + CountClass(nodes, Unclassified) == |nodes|
  {
    if nodes != [] {
      ClassesPartition(nodes[..|nodes| - 1]);
    }
  }

  /** One failure record per failed node. */
  lemma {:induction false} OneFailurePerFailedNode(nodes: seq<Node>)
    ensures |NodeFailures(nodes)| == CountClass(nodes, Failed)
    ensures forall f :: f in NodeFailures(nodes) ==> f.origin == DomNode
  {
    if nodes != [] {
      OneFailurePerFailedNode(nodes[..|nodes| - 1]);
    }
  }

  /** The summary counts every node once; a node matching none of the
      keywords counts only towards the total, so passed, skipped and failed
      add up to at most the total; there is one failure record per failed
      node; the reason counts sum to the number of failures and at most 10
      of them are reported, by non-increasing count. */
  lemma DomSpecTotals(nodes: seq<Node>)
    ensures var s := DomSpec(nodes);
            && s.total == |nodes|
            && s.passed + s.skipped + s.failed <= s.total
            && |s.failures| == s.failed
            && Total(CountOf(ReasonList(s.failures))) == |s.failures|
            && |s.topFailureReasons| <= TopReasons
            && SortedDesc(s.topFailureReasons)
  {
    ClassesPartition(nodes);
    OneFailurePerFailedNode(nodes);
    CountOfCounts(ReasonList(NodeFailures(nodes)));
    MostCommonSpec(CountOf(ReasonList(NodeFailures(nodes))), TopReasons);
  }
}
