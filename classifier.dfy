/**
 * The decision logic of `analyzeSentiment` (app/api/upload/route.ts): a reply
 * from the remote sentiment model is used when it is well shaped, and the
 * lexicon scorer is used otherwise. The request itself is not modelled: its
 * outcome is a `Remote` value supplied by the caller.
 */
module Classifier {
  import opened Text
  import opened Feedback
  import opened Lexicon
  import opened Wrappers

  /** One `{label, score}` pair of the remote model's answer (`name` is the `label` field). */
  datatype LabelScore = LabelScore(name: string, score: real)

  /** The decoded JSON body, as far as the shape check looks at it: either a
      result whose first element is an array of pairs, or anything else. */
  datatype Body = Candidates(items: seq<LabelScore>) | Malformed

  /** The outcome of the request: it threw (network error, invalid JSON), or it
      produced a response with an `ok` status flag and a body. */
  datatype Remote = Failed | Reply(ok: bool, body: Body)

  /** Number of leading characters of the text sent to the remote model. */
  const InputLimit: nat := 500

  /** `text.substring(0, 500)`: what the request carries. */
  function RequestInput(text: string): (r: string)
    ensures |r| == if |text| < InputLimit then |text| else InputLimit
    ensures r == text[..|r|]
  {
    if |text| <= InputLimit then text else text[..InputLimit]
  }

  /** The index `reduce` settles on over the first `n` pairs: it keeps the
      earlier pair unless the later one has a strictly greater score. */
  function TopIndex(items: seq<LabelScore>, n: nat): (k: nat)
    requires 1 <= n <= |items|
    ensures k < n
    ensures forall i :: 0 <= i < n ==> items[i].score <= items[k].score
    ensures forall i :: 0 <= i < k ==> items[i].score < items[k].score
  {
    if n == 1 then 0
    else
      var k := TopIndex(items, n - 1);
      if items[n - 1].score > items[k].score then n - 1 else k
  }

  /** Label text to sentiment: "pos" is looked for first, then "neg", in the
      lower-cased label; anything else is neutral. */
  function LabelSentiment(name: string): (s: Sentiment)
    ensures s == Positive <==> Contains(ToLower(name), "pos")
    ensures s == Negative <==> !Contains(ToLower(name), "pos") && Contains(ToLower(name), "neg")
  {
    var lower := ToLower(name);
    if Contains(lower, "pos") then Positive
    else if Contains(lower, "neg") then Negative
    else Neutral
  }

  /** The reply passes the shape check: status ok, a result whose first element
      is an array, and that array non-empty (an empty one makes `reduce` throw,
      which the surrounding `catch` turns into the fallback). */
  predicate Accepted(reply: Remote) {
    reply.Reply? && reply.ok && reply.body.Candidates? && |reply.body.items| > 0
  }

  /** What the remote branch returns, if it returns at all. */
  function RemoteVerdict(reply: Remote): (r: Option<Analysis>)
    ensures r.Some? <==> Accepted(reply)
    ensures r.Some? ==>
      var items := reply.body.items;
      exists k :: 0 <= k < |items|
        && r.value == Analysis(LabelSentiment(items[k].name), items[k].score)
        && (forall i :: 0 <= i < k ==> items[i].score < items[k].score)
        && (forall i :: 0 <= i < |items| ==> items[i].score <= items[k].score)
  {
    if Accepted(reply) then
      var items := reply.body.items;
      var k := TopIndex(items, |items|);
      Some(Analysis(LabelSentiment(items[k].name), items[k].score))
    else None
  }

  /** `analyzeSentiment(text)` when the request's outcome is `reply`. */
  function SentimentOf(text: string, reply: Remote): Analysis {
    match RemoteVerdict(reply)
    case Some(a) => a
    case None => KeywordAnalysis(text)
  }

  /** `analyzeSentiment`: the remote verdict when the reply is accepted,
      otherwise exactly the lexicon scorer's result. */
  method AnalyzeSentiment(text: string, reply: Remote) returns (r: Analysis)
    ensures r == SentimentOf(text, reply)
    ensures !Accepted(reply) ==> r == KeywordAnalysis(text)
    ensures Accepted(reply) ==>
      var items := reply.body.items;
      var k := TopIndex(items, |items|);
      r == Analysis(LabelSentiment(items[k].name), items[k].score)
  {
    if reply.Reply? && reply.ok && reply.body.Candidates? && |reply.body.items| > 0 {
      var sentiments := reply.body.items;
      var top := sentiments[TopIndex(sentiments, |sentiments|)];
      r := Analysis(LabelSentiment(top.name), top.score);
    } else {
      r := AdvancedKeywordAnalysis(text);
    }
  }

  /** A fallback result always has a score in [0.5, 0.95]; a remote one carries
      the model's own score, unchanged. */
  lemma FallbackScoreBounded(text: string, reply: Remote)
    requires !Accepted(reply)
    ensures 0.5 <= SentimentOf(text, reply).score <= 0.95
  {
  }

  /** The remote model's "positive" label, in any case, is positive. */
  lemma PositiveLabel(name: string)
    requires ToLower(name) == "positive"
    ensures LabelSentiment(name) == Positive
  {
    assert "positive"[..3] == "pos";
  }

  /** The remote model's "negative" label, in any case, is negative. */
  lemma NegativeLabel(name: string)
    requires ToLower(name) == "negative"
    ensures LabelSentiment(name) == Negative
  {
    NotContainedForLackOf("negative", "pos", 'p');
    assert "negative"[..3] == "neg";
  }

  /** The remote model's "neutral" label, in any case, is neutral. */
  lemma NeutralLabel(name: string)
    requires ToLower(name) == "neutral"
    ensures LabelSentiment(name) == Neutral
  {
    NotContainedForLackOf("neutral", "pos", 'p');
    NotContainedForLackOf("neutral", "neg", 'g');
  }

  /** A text lacking a character of `sub` does not contain `sub`. */
  lemma NotContainedForLackOf(s: string, sub: string, c: char)
    requires c in sub && c !in s
    ensures !Contains(s, sub)
  {
    if Contains(s, sub) { CharOfContained(s, sub, c); }
  }
}
