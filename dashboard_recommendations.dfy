/**
 * `generate_recommendations` (dashboard_generator.py): each ranked reason
 * is tried against an ordered list of remedy rules; the first rule whose
 * pattern occurs in the reason, without regard to case, contributes one
 * suggestion for that reason, and a reason is never suggested twice. When
 * no reason matches any rule but there are ranked reasons, the first one
 * gets a generic suggestion.
 */
module DashboardRecommendations {
  import opened Wrappers
  import opened PyText
  import opened Counters
  import opened DashboardAnalysis

  /** A remedy rule: the pattern is an alternation of lower-case literals,
      searched for with the IGNORECASE flag; the hint is the suggestion. */
  datatype Rule = Rule(alternatives: seq<string>, hint: string)

  const RemedyHints: seq<Rule> := [
    Rule(["timeout"],
         "Increase timeouts or add retry logic; investigate slowness of dependent services."),
    Rule(["nullpointer", "null pointer", "none type"],
         "Check input/setup for missing objects; add defensive null checks or fixtures."),
    Rule(["assert", "assertionerror"],
         "Verify expected values and test data; add clearer assertions and tolerance for timing."),
    Rule(["no such element", "element not found", "selector"],
         "Stabilize selectors, add waits for element visibility, ensure test data/setup."),
    Rule(["connection refused", "connectionreset", "refused"],
         "Check service availability, network issues, and retries/backoff."),
    Rule(["database", "sql", "db"],
         "Verify DB connectivity, migrations and test fixtures; isolate DB tests.")
  ]

  const FallbackHint := "Inspect top failure traces and prioritize tests by business impact."

  datatype Recommendation = Recommendation(reason: string, suggestion: string)

  /** `pat.search(reason)`: some alternative occurs in the reason, ASCII
      case ignored (every alternative is lower case). */
  predicate RuleMatches(rule: Rule, reason: string) {
    exists j :: 0 <= j < |rule.alternatives| && Contains(Lower(reason), rule.alternatives[j])
  }

  /** The index of the first of the first `n` rules that matches. */
  function FirstMatch(reason: string, rules: seq<Rule>, n: nat): (k: Option<nat>)
    requires n <= |rules|
    ensures k.Some? ==> k.value < n && RuleMatches(rules[k.value], reason)
                        && forall j :: 0 <= j < k.value ==> !RuleMatches(rules[j], reason)
    ensures k.None? ==> forall j :: 0 <= j < n ==> !RuleMatches(rules[j], reason)
  {
    if n == 0 then None
    else match FirstMatch(reason, rules, n - 1)
      case Some(k) => Some(k)
      case None => if RuleMatches(rules[n - 1], reason) then Some(n - 1) else None
  }

  /** The reasons already given a suggestion. */
  function Seen(recs: seq<Recommendation>): set<string> {
    set j | 0 <= j < |recs| :: recs[j].reason
  }

  /** The suggestions after one more reason: the hint of its first
      matching rule, unless it has one already or no rule matches. */
  function Suggest(recs: seq<Recommendation>, reason: string, rules: seq<Rule>): seq<Recommendation> {
    if reason in Seen(recs) then recs
    else match FirstMatch(reason, rules, |rules|)
      case Some(k) => recs + [Recommendation(reason, rules[k].hint)]
      case None => recs
  }

  /** The suggestions of the rules for `reasons`, in order. */
  function Matched(reasons: seq<string>, rules: seq<Rule>): seq<Recommendation> {
    if reasons == [] then []
    else Suggest(Matched(reasons[..|reasons| - 1], rules), reasons[|reasons| - 1], rules)
  }

  /** The reasons of the ranked reasons. */
  function ReasonNames(top: seq<TopReason>): (rs: seq<string>)
    ensures |rs| == |top| && forall j :: 0 <= j < |top| ==> rs[j] == top[j].reason
  {
    seq(|top|, j requires 0 <= j < |top| => top[j].reason)
  }

  /** What `generate_recommendations(top)` returns. */
  function RecommendationsSpec(top: seq<TopReason>): seq<Recommendation> {
    var recs := Matched(ReasonNames(top), RemedyHints);
    if recs == [] && top != [] then [Recommendation(top[0].reason, FallbackHint)] else recs
  }

  /** The inner loop over the rules for one reason. */
  method TryRules(recs: seq<Recommendation>, seen: set<string>, reason: string, rules: seq<Rule>)
    returns (recs': seq<Recommendation>, seen': set<string>)
    requires seen == Seen(recs)
    ensures recs' == Suggest(recs, reason, rules)
    ensures seen' == Seen(recs')
  {
    recs', seen' := recs, seen;
    var k := 0;
    while k < |rules|
      invariant 0 <= k <= |rules|
      invariant recs' == (if reason in seen then recs
                          else match FirstMatch(reason, rules, k)
                            case Some(j) => recs + [Recommendation(reason, rules[j].hint)]
                            case None => recs)
      invariant seen' == Seen(recs')
    {
      var matches := false;
      var a := 0;
      while a < |rules[k].alternatives|
        invariant 0 <= a <= |rules[k].alternatives|
        invariant matches <==> exists j :: 0 <= j < a && Contains(Lower(reason), rules[k].alternatives[j])
      {
        matches := matches || Contains(Lower(reason), rules[k].alternatives[a]);
        a := a + 1;
      }
      assert matches <==> RuleMatches(rules[k], reason);
      if reason !in seen && FirstMatch(reason, rules, k).Some? {
        SeenAppend(recs, Recommendation(reason, rules[FirstMatch(reason, rules, k).value].hint));
      }
      if matches && reason !in seen' {
        SeenAppend(recs', Recommendation(reason, rules[k].hint));
        recs' := recs' + [Recommendation(reason, rules[k].hint)];
        seen' := seen' + {reason};
      }
      k := k + 1;
    }
  }

  lemma SeenAppend(recs: seq<Recommendation>, r: Recommendation)
    ensures Seen(recs + [r]) == Seen(recs) + {r.reason}
  {
    var s := recs + [r];
    forall x | x in Seen(s) ensures x in Seen(recs) + {r.reason} {
      var j :| 0 <= j < |s| && s[j].reason == x;
      if j < |recs| {
        assert recs[j].reason == x;
      }
    }
    forall x | x in Seen(recs) ensures x in Seen(s) {
      var j :| 0 <= j < |recs| && recs[j].reason == x;
      assert s[j].reason == x;
    }
    assert s[|recs|].reason == r.reason;
  }

  /** What one more reason adds to the suggestions. */
  lemma MatchedStep(reasons: seq<string>, i: nat, rules: seq<Rule>)
    requires i < |reasons|
    ensures Matched(reasons[..i + 1], rules) == Suggest(Matched(reasons[..i], rules), reasons[i], rules)
  {
    assert reasons[..i + 1][..i] == reasons[..i];
  }

  /** `generate_recommendations`. */
  method GenerateRecommendations(top: seq<TopReason>) returns (recs: seq<Recommendation>)
    ensures recs == RecommendationsSpec(top)
  {
    recs := [];
    var seen: set<string> := {};
    var reasons := ReasonNames(top);
    var i := 0;
    while i < |top|
      invariant 0 <= i <= |top|
      invariant recs == Matched(reasons[..i], RemedyHints)
      invariant seen == Seen(recs)
    {
      MatchedStep(reasons, i, RemedyHints);
      recs, seen := TryRules(recs, seen, top[i].reason, RemedyHints);
      i := i + 1;
    }
    assert reasons[..|top|] == reasons;
    if recs == [] && top != [] {
      recs := [Recommendation(top[0].reason, FallbackHint)];
    }
  }

  /** The rules' suggestions name each reason at most once, only reasons
      of the input, each with the hint of its first matching rule. */
  lemma {:induction false} MatchedSpec(reasons: seq<string>, rules: seq<Rule>)
    ensures forall a, b :: 0 <= a < b < |Matched(reasons, rules)| ==>
              Matched(reasons, rules)[a].reason != Matched(reasons, rules)[b].reason
    ensures forall j :: 0 <= j < |Matched(reasons, rules)| ==> Matched(reasons, rules)[j].reason in reasons
    ensures forall j :: 0 <= j < |Matched(reasons, rules)| ==>
              FirstMatch(Matched(reasons, rules)[j].reason, rules, |rules|).Some? &&
              Matched(reasons, rules)[j].suggestion == rules[FirstMatch(Matched(reasons, rules)[j].reason, rules, |rules|).value].hint
  {
    if reasons != [] {
      var init, r := reasons[..|reasons| - 1], reasons[|reasons| - 1];
      MatchedSpec(init, rules);
      var prev := Matched(init, rules);
      var recs := Matched(reasons, rules);
      assert recs == Suggest(prev, r, rules);
      forall x | x in init ensures x in reasons {
        var j :| 0 <= j < |init| && init[j] == x;
        assert reasons[j] == x;
      }
      if r !in Seen(prev) && FirstMatch(r, rules, |rules|).Some? {
        assert recs == prev + [Recommendation(r, rules[FirstMatch(r, rules, |rules|).value].hint)];
        forall a | 0 <= a < |prev| ensures prev[a].reason != r {
          assert prev[a].reason in Seen(prev);
        }
        forall a, b | 0 <= a < b < |recs| ensures recs[a].reason != recs[b].reason {
          assert recs[a] == prev[a];
          if b < |prev| {
            assert recs[b] == prev[b];
          }
        }
        forall j | 0 <= j < |recs|
          ensures var k := FirstMatch(recs[j].reason, rules, |rules|);
                  k.Some? && recs[j].suggestion == rules[k.value].hint
        {
          if j < |prev| {
            assert recs[j] == prev[j];
          }
        }
      } else {
        assert recs == prev;
      }
    }
  }

  /** Every reason that some rule matches gets a suggestion. */
  lemma {:induction false} MatchedComplete(reasons: seq<string>, rules: seq<Rule>, i: nat)
    requires i < |reasons| && FirstMatch(reasons[i], rules, |rules|).Some?
    ensures reasons[i] in Seen(Matched(reasons, rules))
  {
    var init := reasons[..|reasons| - 1];
    var prev := Matched(init, rules);
    if i < |init| {
      assert init[i] == reasons[i];
      MatchedComplete(init, rules, i);
    }
    var r := reasons[|reasons| - 1];
    if r !in Seen(prev) && FirstMatch(r, rules, |rules|).Some? {
      SeenAppend(prev, Recommendation(r, rules[FirstMatch(r, rules, |rules|).value].hint));
    }
  }

  /** Without any matching reason, the rules suggest nothing. */
  lemma {:induction false} NothingMatched(reasons: seq<string>, rules: seq<Rule>)
    requires forall j :: 0 <= j < |reasons| ==> FirstMatch(reasons[j], rules, |rules|).None?
    ensures Matched(reasons, rules) == []
  {
    if reasons != [] {
      var init := reasons[..|reasons| - 1];
      assert forall j :: 0 <= j < |init| ==> init[j] == reasons[j];
      NothingMatched(init, rules);
    }
  }

  /** The suggestions follow the order in which their reasons first
      appear among the reasons. */
  lemma {:induction false} MatchedOrder(reasons: seq<string>, rules: seq<Rule>)
    ensures forall a, b :: 0 <= a < b < |Matched(reasons, rules)| ==>
              && Matched(reasons, rules)[a].reason in reasons && Matched(reasons, rules)[b].reason in reasons
              && FirstIndex(reasons, Matched(reasons, rules)[a].reason) < FirstIndex(reasons, Matched(reasons, rules)[b].reason)
  {
    if reasons != [] {
      var init, r := reasons[..|reasons| - 1], reasons[|reasons| - 1];
      MatchedOrder(init, rules);
      MatchedSpec(init, rules);
      var prev := Matched(init, rules);
      var recs := Matched(reasons, rules);
      assert reasons == init + [r];
      forall k | k in init ensures FirstIndex(reasons, k) == FirstIndex(init, k) {
        FirstIndexAppend(init, r, k);
      }
      if r !in Seen(prev) && FirstMatch(r, rules, |rules|).Some? {
        assert r !in init by {
          if r in init {
            var i :| 0 <= i < |init| && init[i] == r;
            MatchedComplete(init, rules, i);
          }
        }
        FirstIndexAppend(init, r, r);
        assert recs == prev + [Recommendation(r, rules[FirstMatch(r, rules, |rules|).value].hint)];
        forall a, b | 0 <= a < b < |recs|
          ensures && recs[a].reason in reasons && recs[b].reason in reasons
                  && FirstIndex(reasons, recs[a].reason) < FirstIndex(reasons, recs[b].reason)
        {
          assert recs[a] == prev[a];
          if b < |prev| {
            assert recs[b] == prev[b];
          }
        }
      } else {
        assert recs == prev;
        forall a, b | 0 <= a < b < |recs|
          ensures && recs[a].reason in reasons && recs[b].reason in reasons
                  && FirstIndex(reasons, recs[a].reason) < FirstIndex(reasons, recs[b].reason)
        {
          assert prev[a].reason in init && prev[b].reason in init;
        }
      }
    } else {
      assert Matched(reasons, rules) == [];
    }
  }

  /** Each suggested reason is a ranked reason, suggested once. */
  lemma RecommendationsDistinct(top: seq<TopReason>)
    ensures forall a, b :: 0 <= a < b < |RecommendationsSpec(top)| ==>
              RecommendationsSpec(top)[a].reason != RecommendationsSpec(top)[b].reason
    ensures forall j :: 0 <= j < |RecommendationsSpec(top)| ==> RecommendationsSpec(top)[j].reason in ReasonNames(top)
  {
    var reasons := ReasonNames(top);
    MatchedSpec(reasons, RemedyHints);
    if Matched(reasons, RemedyHints) == [] && top != [] {
      assert RecommendationsSpec(top) == [Recommendation(reasons[0], FallbackHint)];
    } else {
      assert RecommendationsSpec(top) == Matched(reasons, RemedyHints);
    }
  }

  /** A ranked reason that some rule matches gets its first rule's hint. */
  lemma RecommendationsHints(top: seq<TopReason>, j: nat)
    requires j < |top| && FirstMatch(top[j].reason, RemedyHints, |RemedyHints|).Some?
    ensures exists m :: 0 <= m < |RecommendationsSpec(top)| && RecommendationsSpec(top)[m].reason == top[j].reason
                        && RecommendationsSpec(top)[m].suggestion
                           == RemedyHints[FirstMatch(top[j].reason, RemedyHints, |RemedyHints|).value].hint
  {
    var reasons := ReasonNames(top);
    var recs := Matched(reasons, RemedyHints);
    MatchedSpec(reasons, RemedyHints);
    MatchedComplete(reasons, RemedyHints, j);
    var m :| 0 <= m < |recs| && recs[m].reason == reasons[j];
    assert RecommendationsSpec(top) == recs;
    assert RecommendationsSpec(top)[m].reason == top[j].reason;
  }

  /** When no ranked reason matches any rule, the only suggestion is the
      generic one for the first reason. */
  lemma RecommendationsFallback(top: seq<TopReason>)
    requires top != []
    requires forall j :: 0 <= j < |top| ==> FirstMatch(top[j].reason, RemedyHints, |RemedyHints|).None?
    ensures RecommendationsSpec(top) == [Recommendation(top[0].reason, FallbackHint)]
  {
    NothingMatched(ReasonNames(top), RemedyHints);
  }

  /** There is at least one suggestion exactly when there is a ranked
      reason; each suggested reason is suggested once; a reason that some
      rule matches gets its first rule's hint; and when no reason matches
      any rule, the only suggestion is the generic one for the first
      reason. */
  lemma RecommendationsSpecProps(top: seq<TopReason>)
    ensures RecommendationsSpec(top) == [] <==> top == []
    ensures forall a, b :: 0 <= a < b < |RecommendationsSpec(top)| ==>
              RecommendationsSpec(top)[a].reason != RecommendationsSpec(top)[b].reason
    ensures forall j :: 0 <= j < |RecommendationsSpec(top)| ==> RecommendationsSpec(top)[j].reason in ReasonNames(top)
    ensures forall j :: 0 <= j < |top| && FirstMatch(top[j].reason, RemedyHints, |RemedyHints|).Some? ==>
              exists m :: 0 <= m < |RecommendationsSpec(top)| && RecommendationsSpec(top)[m].reason == top[j].reason
                          && RecommendationsSpec(top)[m].suggestion
                             == RemedyHints[FirstMatch(top[j].reason, RemedyHints, |RemedyHints|).value].hint
    ensures (forall j :: 0 <= j < |top| ==> FirstMatch(top[j].reason, RemedyHints, |RemedyHints|).None?) && top != [] ==>
              RecommendationsSpec(top) == [Recommendation(top[0].reason, FallbackHint)]
  {
    RecommendationsDistinct(top);
    if top == [] {
      assert ReasonNames(top) == [];
      assert Matched(ReasonNames(top), RemedyHints) == [];
    }
    forall j | 0 <= j < |top| && FirstMatch(top[j].reason, RemedyHints, |RemedyHints|).Some?
      ensures exists m :: 0 <= m < |RecommendationsSpec(top)| && RecommendationsSpec(top)[m].reason == top[j].reason
                          && RecommendationsSpec(top)[m].suggestion
                             == RemedyHints[FirstMatch(top[j].reason, RemedyHints, |RemedyHints|).value].hint
    {
      RecommendationsHints(top, j);
    }
    if top != [] && forall j :: 0 <= j < |top| ==> FirstMatch(top[j].reason, RemedyHints, |RemedyHints|).None? {
      RecommendationsFallback(top);
    }
  }

  /** The suggestions follow the ranking of their reasons. */
  lemma RecommendationsOrder(top: seq<TopReason>)
    ensures forall a, b :: 0 <= a < b < |RecommendationsSpec(top)| ==>
              && RecommendationsSpec(top)[a].reason in ReasonNames(top)
              && RecommendationsSpec(top)[b].reason in ReasonNames(top)
              && FirstIndex(ReasonNames(top), RecommendationsSpec(top)[a].reason)
                 < FirstIndex(ReasonNames(top), RecommendationsSpec(top)[b].reason)
  {
    var reasons := ReasonNames(top);
    MatchedSpec(reasons, RemedyHints);
    MatchedOrder(reasons, RemedyHints);
    if Matched(reasons, RemedyHints) == [] && top != [] {
      assert |RecommendationsSpec(top)| == 1;
    } else {
      var recs := Matched(reasons, RemedyHints);
      assert RecommendationsSpec(top) == recs;
      forall a, b | 0 <= a < b < |recs|
        ensures && recs[a].reason in reasons && recs[b].reason in reasons
                && FirstIndex(reasons, recs[a].reason) < FirstIndex(reasons, recs[b].reason)
      {
      }
    }
  }
}
