/**
 * The pure helpers of the Python NLP service (python/nlpService.py): the
 * normalisation of the labels its two pipelines return, the keyword fallback
 * used when no category label is available, and the short issue phrase cut
 * from a feedback text. The pipelines themselves are not modelled: their
 * answers are parameters.
 */
module NlpService {
  import opened Text
  import opened Feedback
  import opened Wrappers
  import Classifier

  /** The categories the service reports (its "category" strings). */
  datatype Topic = Ui | Performance | Feature | Support | Delivery | Pricing | ProductQuality | Other

  /** The string the service prints for each category. */
  function TopicName(t: Topic): string {
    match t
    case Ui => "ui"
    case Performance => "performance"
    case Feature => "feature"
    case Support => "support"
    case Delivery => "delivery"
    case Pricing => "pricing"
    case ProductQuality => "product_quality"
    case Other => "other"
  }

  // ---------------------------------------------------------------------------
  // Sentiment labels
  // ---------------------------------------------------------------------------

  /** The label mapping of `safe_sentiment`: "pos"/"positive", then
      "neg"/"negative", then "neu"/"neutral" in the lower-cased label;
      anything else is neutral. */
  function LabelToSentiment(name: string): (s: Sentiment)
    ensures s == Positive <==> Contains(ToLower(name), "pos")
    ensures s == Negative <==> !Contains(ToLower(name), "pos") && Contains(ToLower(name), "neg")
  {
    var lower := ToLower(name);
    PrefixContained(lower, "positive", 3);
    PrefixContained(lower, "negative", 3);
    assert "positive"[..3] == "pos" && "negative"[..3] == "neg";
    if Contains(lower, "pos") || Contains(lower, "positive") then Positive
    else if Contains(lower, "neg") || Contains(lower, "negative") then Negative
    else if Contains(lower, "neu") || Contains(lower, "neutral") then Neutral
    else Neutral
  }

  /** A string containing `w` contains `w`'s first `n` characters. */
  lemma PrefixContained(s: string, w: string, n: nat)
    requires n <= |w|
    ensures Contains(s, w) ==> Contains(s, w[..n])
  {
    if Contains(s, w) {
      ContainsSliceOf(s, w, 0, n);
      assert w[0..n] == w[..n];
    }
  }

  /** `safe_sentiment`: `answer` is the label of the pipeline's first answer
      ("" when it has none), or `None` when the pipeline raised. */
  function SafeSentiment(answer: Option<string>): (s: Sentiment)
    ensures answer.None? ==> s == Neutral
    ensures answer.Some? ==> (s == Positive <==> Contains(ToLower(answer.value), "pos"))
    ensures answer.Some? ==>
      (s == Negative <==> !Contains(ToLower(answer.value), "pos") && Contains(ToLower(answer.value), "neg"))
    ensures answer == Some("") ==> s == Neutral
  {
    match answer
    case None => Neutral
    case Some(name) => LabelToSentiment(name)
  }

  /** The service and the upload route read a sentiment label the same way. */
  lemma SameLabelReading(name: string)
    ensures LabelToSentiment(name) == Classifier.LabelSentiment(name)
  {
  }

  // ---------------------------------------------------------------------------
  // Category labels and the keyword fallback
  // ---------------------------------------------------------------------------

  /** A category and the substrings that select it. */
  datatype Rule = Rule(keys: seq<string>, topic: Topic)

  /** The checks on a normalised classifier label, in priority order. */
  const LabelRules: seq<Rule> := [
    Rule(["ui"], Ui), Rule(["performance"], Performance), Rule(["feature"], Feature),
    Rule(["support"], Support), Rule(["delivery"], Delivery), Rule(["pricing"], Pricing),
    Rule(["product"], ProductQuality)]

  /** The keyword groups of the fallback, in priority order. */
  const FallbackRules: seq<Rule> := [
    Rule(["ui", "ux", "button", "layout", "design"], Ui),
    Rule(["slow", "lag", "performance", "crash", "loading"], Performance),
    Rule(["feature", "missing", "add", "would like"], Feature),
    Rule(["support", "agent", "customer service", "helpful"], Support),
    Rule(["deliver", "delivery", "late", "tracking"], Delivery),
    Rule(["price", "pricing", "cost", "expensive", "refund"], Pricing)]

  /** Rule `k` is the first rule with a key in `s`. */
  predicate FirstHit(rules: seq<Rule>, s: string, k: nat) {
    k < |rules| && ContainsAny(s, rules[k].keys)
    && forall j :: 0 <= j < k ==> !ContainsAny(s, rules[j].keys)
  }

  /** No rule has a key in `s`. */
  predicate NoHit(rules: seq<Rule>, s: string) {
    forall k :: 0 <= k < |rules| ==> !ContainsAny(s, rules[k].keys)
  }

  /** An ordered rule list read as a chain of `if`s: the first rule with a
      key in `s` decides; without one the category is "other". */
  function FirstRule(rules: seq<Rule>, s: string): (t: Topic)
    ensures (exists k: nat :: FirstHit(rules, s, k) && t == rules[k].topic) || (NoHit(rules, s) && t == Other)
  {
    FirstRuleFromHit(rules, s, 0);
    FirstRuleFrom(rules, s, 0)
  }

  /** The first rule at index `i` or later with a key in `s`. */
  function FirstRuleFrom(rules: seq<Rule>, s: string, i: nat): Topic
    decreases |rules| - i
  {
    if i >= |rules| then Other
    else if ContainsAny(s, rules[i].keys) then rules[i].topic
    else FirstRuleFrom(rules, s, i + 1)
  }

  /** Scanning from `i` past rules without hits finds the first hit, or "other". */
  lemma {:induction false} FirstRuleFromHit(rules: seq<Rule>, s: string, i: nat)
    requires i <= |rules|
    requires forall j :: 0 <= j < i ==> !ContainsAny(s, rules[j].keys)
    ensures (exists k: nat :: FirstHit(rules, s, k) && FirstRuleFrom(rules, s, i) == rules[k].topic)
            || (NoHit(rules, s) && FirstRuleFrom(rules, s, i) == Other)
    decreases |rules| - i
  {
    if i < |rules| {
      if ContainsAny(s, rules[i].keys) {
        assert FirstHit(rules, s, i);
      } else {
        FirstRuleFromHit(rules, s, i + 1);
      }
    }
  }

  /** The label normalisation of `safe_category`: lower-case, spaces to
      underscores, then the first of "ui", "performance", "feature",
      "support", "delivery", "pricing", "product" it contains, else "other".
      A label containing "ui" is always UI. */
  function NormalizeCategory(name: string): (t: Topic)
    ensures var s := SpacesToUnderscores(ToLower(name));
      (exists k: nat :: FirstHit(LabelRules, s, k) && t == LabelRules[k].topic) || (NoHit(LabelRules, s) && t == Other)
    ensures Contains(SpacesToUnderscores(ToLower(name)), "ui") ==> t == Ui
  {
    FirstRule(LabelRules, SpacesToUnderscores(ToLower(name)))
  }

  /** The keyword fallback of `safe_category` on the lower-cased text: the
      first keyword group with a hit, else "other". It never yields the
      product-quality category, and any UI keyword wins. */
  function KeywordCategory(text: string): (t: Topic)
    ensures (exists k: nat :: FirstHit(FallbackRules, ToLower(text), k) && t == FallbackRules[k].topic)
            || (NoHit(FallbackRules, ToLower(text)) && t == Other)
    ensures t != ProductQuality
    ensures ContainsAny(ToLower(text), ["ui", "ux", "button", "layout", "design"]) ==> t == Ui
  {
    FirstRule(FallbackRules, ToLower(text))
  }

  /** `safe_category`: a non-empty top label from the classifier is
      normalised; with no classifier, no label, an empty one, or an
      exception, the keyword fallback decides. */
  function SafeCategory(text: string, topLabel: Option<string>): (t: Topic)
    ensures topLabel.Some? && topLabel.value != "" ==>
      var s := SpacesToUnderscores(ToLower(topLabel.value));
      (exists k: nat :: FirstHit(LabelRules, s, k) && t == LabelRules[k].topic) || (NoHit(LabelRules, s) && t == Other)
    ensures !(topLabel.Some? && topLabel.value != "") ==>
      (exists k: nat :: FirstHit(FallbackRules, ToLower(text), k) && t == FallbackRules[k].topic)
      || (NoHit(FallbackRules, ToLower(text)) && t == Other)
    ensures t == ProductQuality ==> topLabel.Some? && topLabel.value != ""
    ensures topLabel.Some? && Contains(SpacesToUnderscores(ToLower(topLabel.value)), "ui") ==> t == Ui
    ensures !(topLabel.Some? && topLabel.value != "") && ContainsAny(ToLower(text), ["ui", "ux", "button", "layout", "design"]) ==> t == Ui
  {
    if topLabel.Some? && topLabel.value != "" then NormalizeCategory(topLabel.value)
    else KeywordCategory(text)
  }

  /** The keyword "ui" is matched as a substring, so any text containing
      "quite" (or "build", "guide", "suit") is filed under UI, whatever else
      it mentions. */
  lemma QuiteMeansUi(text: string)
    requires Contains(ToLower(text), "quite")
    ensures KeywordCategory(text) == Ui
  {
    ContainsSliceOf(ToLower(text), "quite", 1, 3);
    assert "quite"[1..3] == "ui";
  }

  // ---------------------------------------------------------------------------
  // The issue phrase
  // ---------------------------------------------------------------------------

  /** How many words the phrase keeps, and how many characters. */
  const IssueWordLimit: nat := 6
  const IssueLengthLimit: nat := 120

  /** `[w for w in words if len(w) > 2]`. */
  function LongWords(ws: seq<string>): (r: seq<string>)
    ensures |r| <= |ws|
  {
    if ws == [] then []
    else (if |ws[0]| > 2 then [ws[0]] else []) + LongWords(ws[1..])
  }

  /** The filter keeps exactly the words longer than two characters. */
  lemma {:induction false} LongWordsMembers(ws: seq<string>)
    ensures forall w :: w in LongWords(ws) <==> w in ws && |w| > 2
  {
    if ws != [] {
      LongWordsMembers(ws[1..]);
      assert ws == [ws[0]] + ws[1..];
    }
  }

  /** `words[:6]` of the long words: what the phrase is made of. */
  function IssueWords(words: seq<string>): (ws: seq<string>)
    ensures |ws| <= IssueWordLimit
  {
    var long := LongWords(words);
    if |long| <= IssueWordLimit then long else long[..IssueWordLimit]
  }

  /** The phrase built from the split words of a text. */
  function Phrase(words: seq<string>): (r: string)
    ensures |r| <= IssueLengthLimit
  {
    var issue := JoinSpace(IssueWords(words));
    if issue != "" then (if |issue| <= IssueLengthLimit then issue else issue[..IssueLengthLimit]) else ""
  }

  /** `extract_issue`: the first six words longer than two characters,
      joined by single spaces and cut to 120 characters. */
  function ExtractIssue(text: string): (r: string)
    ensures |r| <= IssueLengthLimit
  {
    Phrase(SplitPy(text))
  }

  /** The phrase is empty exactly when no word is longer than two characters. */
  lemma PhraseEmpty(words: seq<string>)
    ensures Phrase(words) == "" <==> forall w :: w in words ==> |w| <= 2
  {
    var long := LongWords(words);
    var ws := IssueWords(words);
    LongWordsMembers(words);
    if long != [] {
      assert long[0] in long;
    }
    forall k | 0 <= k < |ws| ensures |ws[k]| > 2 {
      assert ws[k] in long;
    }
    JoinSpaceEmpty(ws);
  }

  /** Joining non-empty words is empty exactly when there are none. */
  lemma JoinSpaceEmpty(ws: seq<string>)
    requires forall k :: 0 <= k < |ws| ==> |ws[k]| > 2
    ensures JoinSpace(ws) == "" <==> ws == []
  {
    if |ws| > 0 {
      JoinSpaceHead(ws);
    }
  }

  /** The guard at the call site: empty feedback gets no issue. The guard
      changes nothing, since the phrase of empty feedback is empty anyway. */
  function IssueFor(feedback: string): (r: string)
    ensures r == ExtractIssue(feedback)
  {
    if feedback != "" then ExtractIssue(feedback)
    else
      assert SplitPy(feedback) == [];
      ""
  }

  /** When the phrase fits in 120 characters, splitting it again gives back
      exactly the words it was made of, in their original order. */
  lemma ExtractIssueWords(text: string)
    requires |JoinSpace(IssueWords(SplitPy(text)))| <= IssueLengthLimit
    ensures SplitPy(ExtractIssue(text)) == IssueWords(SplitPy(text))
  {
    var all := SplitPy(text);
    SplitPyWords(text);
    PhraseWords(all);
  }

  /** The same on any sequence of whitespace-free words. */
  lemma PhraseWords(all: seq<string>)
    requires AllPyWords(all)
    requires |JoinSpace(IssueWords(all))| <= IssueLengthLimit
    ensures SplitPy(Phrase(all)) == IssueWords(all)
  {
    var ws := IssueWords(all);
    LongWordsMembers(all);
    forall k | 0 <= k < |ws| ensures IsPyWord(ws[k]) {
      assert ws[k] in LongWords(all);
      var m :| 0 <= m < |all| && all[m] == ws[k];
    }
    SplitPyJoin(ws);
    if JoinSpace(ws) == "" {
      assert SplitPy("") == [];
    }
  }
}
