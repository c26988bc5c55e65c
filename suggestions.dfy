/**
 * `generateSuggestions` (app/api/upload/route.ts): one piece of advice per
 * reported issue, at most three.
 */
module Suggestions {
  import opened Feedback
  import opened Ranking
  import opened Issues

  /** `suggestionMap`. */
  const Advice: map<string, string> := map[
    "Customer Service" := "Invest in comprehensive customer service training and expand support team capacity to reduce response times",
    "Product Quality" := "Implement rigorous quality control processes and conduct regular product testing before release",
    "Delivery & Shipping" := "Partner with reliable logistics providers and implement real-time tracking systems for transparency",
    "Pricing" := "Review pricing strategy to ensure competitive positioning and communicate value proposition more clearly",
    "User Experience" := "Conduct usability testing with real users and redesign interface based on feedback for intuitive navigation",
    "Performance" := "Optimize code and infrastructure for faster performance and establish regular maintenance schedules",
    "Features" := "Prioritize feature development based on user requests and communicate product roadmap transparently"]

  /** How many suggestions are reported. */
  const SuggestionLimit: nat := 3

  /** `map(({ issue }) => suggestionMap[issue]).filter(Boolean)`: the advice
      for each issue in order, dropping issues without advice (an undefined
      lookup) and empty advice (the falsy string). */
  function Advised(top: seq<IssueTally>): (r: seq<string>)
    ensures |r| <= |top|
    ensures forall i :: 0 <= i < |r| ==> r[i] != "" && r[i] in Advice.Values
  {
    if top == [] then []
    else
      var issue := top[0].issue;
      (if issue in Advice && Advice[issue] != "" then [Advice[issue]] else []) + Advised(top[1..])
  }

  /** `generateSuggestions`: the first three pieces of advice. */
  function GenerateSuggestions(top: seq<IssueTally>): (r: seq<string>)
    ensures |r| <= SuggestionLimit
    ensures forall i :: 0 <= i < |r| ==> r[i] != "" && r[i] in Advice.Values
  {
    var advised := Advised(top);
    if |advised| <= SuggestionLimit then advised else advised[..SuggestionLimit]
  }

  /** Every category has advice, and only categories do. */
  lemma AdviceCoversCategories()
    ensures Advice.Keys == CategoryNames()
  {
    assert Categories[0].name == "Customer Service";
    assert Categories[1].name == "Product Quality";
    assert Categories[2].name == "Delivery & Shipping";
    assert Categories[3].name == "Pricing";
    assert Categories[4].name == "User Experience";
    assert Categories[5].name == "Performance";
    assert Categories[6].name == "Features";
  }

  /** No piece of advice is empty, so `filter(Boolean)` only drops unknown issues. */
  lemma AdviceNonEmpty(issue: string)
    requires issue in Advice
    ensures Advice[issue] != ""
  {
  }

  /** When every issue has advice, the advice lines up with the issues. */
  lemma {:induction false} AdvisedKnown(top: seq<IssueTally>)
    requires forall i :: 0 <= i < |top| ==> top[i].issue in Advice
    ensures |Advised(top)| == |top|
    ensures forall i :: 0 <= i < |top| ==> Advised(top)[i] == Advice[top[i].issue]
  {
    if top != [] {
      AdviceNonEmpty(top[0].issue);
      AdvisedKnown(top[1..]);
    }
  }

  /** Issues without advice contribute nothing. */
  lemma {:induction false} AdvisedUnknown(top: seq<IssueTally>)
    requires forall i :: 0 <= i < |top| ==> top[i].issue !in Advice
    ensures Advised(top) == []
  {
    if top != [] {
      AdvisedUnknown(top[1..]);
    }
  }

  /** On the report of `extractIssues`, the suggestions are the advice for
      the first three reported issues, in rank order. */
  lemma SuggestionsForReport(fs: seq<FeedbackRecord>)
    ensures var top := TopIssues(fs);
      var r := GenerateSuggestions(top);
      |r| == (if |top| < SuggestionLimit then |top| else SuggestionLimit) &&
      forall i :: 0 <= i < |r| ==> top[i].issue in Advice && r[i] == Advice[top[i].issue]
  {
    ReportedAreCategories(fs);
    AdviceCoversCategories();
    AdvisedKnown(TopIssues(fs));
  }
}
