/**
 * `performAnalysis` (app/api/upload/route.ts): classify every non-blank
 * feedback text, tally the sentiments, and derive the top issues and the
 * suggestions.
 *
 * The remote model is an oracle: `replies(i, input)` is the outcome of the
 * `i`-th request, made with request text `input`. Requests are numbered from
 * zero in the order the texts are classified.
 */
module Analysis {
  import opened Text
  import opened Feedback
  import opened Lexicon
  import opened Classifier
  import opened Issues
  import opened Suggestions

  /** Every input, trimmed. */
  function TrimAll(inputs: seq<string>): (ts: seq<string>)
    ensures |ts| == |inputs|
    ensures forall i :: 0 <= i < |inputs| ==> ts[i] == Trim(inputs[i])
  {
    seq(|inputs|, i requires 0 <= i < |inputs| => Trim(inputs[i]))
  }

  /** The non-empty strings of `ts`, in order. */
  function NonBlank(ts: seq<string>): (r: seq<string>)
    ensures |r| <= |ts|
  {
    if ts == [] then []
    else
      var last := ts[|ts| - 1];
      NonBlank(ts[..|ts| - 1]) + (if last == "" then [] else [last])
  }

  /** The texts that get classified: each input trimmed, blank ones skipped,
      in input order. */
  function Kept(inputs: seq<string>): (r: seq<string>)
    ensures |r| <= |inputs|
  {
    NonBlank(TrimAll(inputs))
  }

  /** `{...result, text}` for one classified text. */
  function Record(text: string, reply: Remote): (f: FeedbackRecord)
    ensures f.text == text
    ensures Accepted(reply) ==>
      RemoteVerdict(reply).Some? && Analysis(f.sentiment, f.score) == RemoteVerdict(reply).value
    ensures !Accepted(reply) ==> Analysis(f.sentiment, f.score) == KeywordAnalysis(text)
  {
    var a := SentimentOf(text, reply);
    FeedbackRecord(text, a.sentiment, a.score)
  }

  /** The classified records, the `i`-th answered by the `i`-th request. */
  function Records(texts: seq<string>, replies: (nat, string) -> Remote): (fs: seq<FeedbackRecord>)
    ensures |fs| == |texts|
  {
    seq(|texts|, i requires 0 <= i < |texts| => Record(texts[i], replies(i, RequestInput(texts[i]))))
  }

  /** `filter(f => f.sentiment === s).length`. */
  function CountSentiment(fs: seq<FeedbackRecord>, s: Sentiment): (n: nat)
    ensures n <= |fs|
  {
    if fs == [] then 0
    else (if fs[0].sentiment == s then 1 else 0) + CountSentiment(fs[1..], s)
  }

  /** The summary of the classified texts `texts`. */
  function SummaryOf(texts: seq<string>, replies: (nat, string) -> Remote): Summary {
    var fs := Records(texts, replies);
    var top := TopIssues(fs);
    Summary(|fs|, CountSentiment(fs, Positive), CountSentiment(fs, Neutral), CountSentiment(fs, Negative),
            top, GenerateSuggestions(top), fs)
  }

  /** What `performAnalysis(inputs)` resolves to. */
  function Summarize(inputs: seq<string>, replies: (nat, string) -> Remote): Summary {
    SummaryOf(Kept(inputs), replies)
  }

  /** `performAnalysis`: records are pushed onto `analyzedFeedbacks` one text at a time. */
  method PerformAnalysis(feedbacks: seq<string>, replies: (nat, string) -> Remote) returns (result: Summary)
    ensures result == Summarize(feedbacks, replies)
  {
    var analyzedFeedbacks: seq<FeedbackRecord> := [];
    for i := 0 to |feedbacks|
      invariant analyzedFeedbacks == Records(Kept(feedbacks[..i]), replies)
    {
      KeptStep(feedbacks, i);
      var text := feedbacks[i];
      var trimmed := Trim(text);
      if text == "" || |trimmed| == 0 {
        continue;
      }
      var reply := replies(|analyzedFeedbacks|, RequestInput(trimmed));
      var a := AnalyzeSentiment(trimmed, reply);
      RecordsSnoc(Kept(feedbacks[..i]), trimmed, replies);
      analyzedFeedbacks := analyzedFeedbacks + [FeedbackRecord(trimmed, a.sentiment, a.score)];
    }
    assert feedbacks[..|feedbacks|] == feedbacks;
    var positive := CountSentiment(analyzedFeedbacks, Positive);
    var negative := CountSentiment(analyzedFeedbacks, Negative);
    var neutral := CountSentiment(analyzedFeedbacks, Neutral);
    var topIssues := ExtractIssues(analyzedFeedbacks);
    var suggestions := GenerateSuggestions(topIssues);
    result := Summary(|analyzedFeedbacks|, positive, neutral, negative, topIssues, suggestions, analyzedFeedbacks);
  }

  /** One more input adds its trimmed text, unless that is blank. */
  lemma KeptStep(inputs: seq<string>, i: nat)
    requires i < |inputs|
    ensures Kept(inputs[..i + 1]) == Kept(inputs[..i]) + (if Trim(inputs[i]) == "" then [] else [Trim(inputs[i])])
  {
    assert TrimAll(inputs[..i + 1])[..i] == TrimAll(inputs[..i]);
  }

  /** One more text adds one record, answered by the next request. */
  lemma RecordsSnoc(texts: seq<string>, t: string, replies: (nat, string) -> Remote)
    ensures Records(texts + [t], replies) == Records(texts, replies) + [Record(t, replies(|texts|, RequestInput(t)))]
  {
  }

  /** Every record has one of the three sentiments. */
  lemma {:induction false} CountsPartition(fs: seq<FeedbackRecord>)
    ensures CountSentiment(fs, Positive) + CountSentiment(fs, Neutral) + CountSentiment(fs, Negative) == |fs|
  {
    if fs != [] {
      CountsPartition(fs[1..]);
    }
  }

  /** The three tallies add up to the total, which is the number of records. */
  lemma TalliesAddUp(inputs: seq<string>, replies: (nat, string) -> Remote)
    ensures var r := Summarize(inputs, replies);
      r.total == |r.feedbacks| == |Kept(inputs)| && r.positive + r.neutral + r.negative == r.total
  {
    CountsPartition(Records(Kept(inputs), replies));
  }

  /** A string is kept exactly when it is non-empty and occurs in `ts`. */
  lemma {:induction false} NonBlankMembers(ts: seq<string>, t: string)
    ensures t in NonBlank(ts) <==> t != "" && t in ts
  {
    if ts != [] {
      var init := ts[..|ts| - 1];
      NonBlankMembers(init, t);
      assert ts == init + [ts[|ts| - 1]];
    }
  }

  /** A text is classified exactly when it is the trimmed form of a non-blank input. */
  lemma KeptMembers(inputs: seq<string>, t: string)
    ensures t in Kept(inputs) <==> t != "" && exists i :: 0 <= i < |inputs| && Trim(inputs[i]) == t
  {
    NonBlankMembers(TrimAll(inputs), t);
  }

  /** Each classified text is non-blank and already trimmed. */
  lemma KeptTrimmed(inputs: seq<string>)
    ensures forall t :: t in Kept(inputs) ==> t != "" && Trim(t) == t
  {
    forall t | t in Kept(inputs) ensures t != "" && Trim(t) == t {
      KeptMembers(inputs, t);
      var i :| 0 <= i < |inputs| && Trim(inputs[i]) == t;
      TrimmedEnds(inputs[i]);
    }
  }

  /** A blank (or whitespace-only) input anywhere changes nothing: it is not
      classified and does not use up a request number. */
  lemma BlankInputIgnored(before: seq<string>, blank: string, after: seq<string>, replies: (nat, string) -> Remote)
    requires Trim(blank) == ""
    ensures Summarize(before + [blank] + after, replies) == Summarize(before + after, replies)
  {
    KeptBlank(before, blank, after);
  }

  /** A blank input adds no text to classify. */
  lemma KeptBlank(before: seq<string>, blank: string, after: seq<string>)
    requires Trim(blank) == ""
    ensures Kept(before + [blank] + after) == Kept(before + after)
  {
    KeptBlankLast(before, blank);
    TrimAllAppend(before + [blank], after);
    TrimAllAppend(before, after);
    NonBlankAppend(TrimAll(before + [blank]), TrimAll(after));
    NonBlankAppend(TrimAll(before), TrimAll(after));
  }

  /** A blank last input adds no text to classify. */
  lemma KeptBlankLast(inputs: seq<string>, blank: string)
    requires Trim(blank) == ""
    ensures Kept(inputs + [blank]) == Kept(inputs)
  {
    var ts := TrimAll(inputs + [blank]);
    assert ts[..|inputs|] == TrimAll(inputs);
    assert ts == ts[..|inputs|] + [""];
  }

  /** Trimming the trimmed inputs again changes nothing. */
  lemma TrimAllIdempotent(inputs: seq<string>)
    ensures TrimAll(TrimAll(inputs)) == TrimAll(inputs)
  {
    var ts := TrimAll(inputs);
    forall i | 0 <= i < |ts| ensures TrimAll(ts)[i] == ts[i] {
      TrimmedEnds(inputs[i]);
    }
  }

  /** Trimming works element by element. */
  lemma TrimAllAppend(a: seq<string>, b: seq<string>)
    ensures TrimAll(a + b) == TrimAll(a) + TrimAll(b)
  {
  }

  /** Skipping blanks works element by element. */
  lemma {:induction false} NonBlankAppend(a: seq<string>, b: seq<string>)
    ensures NonBlank(a + b) == NonBlank(a) + NonBlank(b)
    decreases |b|
  {
    if b != [] {
      assert (a + b)[..|a + b| - 1] == a + b[..|b| - 1];
      NonBlankAppend(a, b[..|b| - 1]);
    } else {
      assert a + b == a;
    }
  }

  /** Record `i` holds the `i`-th kept text and the verdict of the `i`-th
      request, which carried that text: the remote verdict when its reply is
      accepted, the lexicon scorer's otherwise. */
  lemma RecordsFollowRequests(inputs: seq<string>, replies: (nat, string) -> Remote)
    ensures var fs := Summarize(inputs, replies).feedbacks;
      var texts := Kept(inputs);
      |fs| == |texts| &&
      forall i :: 0 <= i < |fs| ==>
        var reply := replies(i, RequestInput(texts[i]));
        fs[i].text == texts[i] &&
        (Accepted(reply) ==> RemoteVerdict(reply).Some? && Analysis(fs[i].sentiment, fs[i].score) == RemoteVerdict(reply).value) &&
        (!Accepted(reply) ==> Analysis(fs[i].sentiment, fs[i].score) == KeywordAnalysis(texts[i]))
  {
    var texts := Kept(inputs);
    var fs := Records(texts, replies);
    forall i | 0 <= i < |fs|
      ensures var reply := replies(i, RequestInput(texts[i]));
        fs[i].text == texts[i] &&
        (Accepted(reply) ==> RemoteVerdict(reply).Some? && Analysis(fs[i].sentiment, fs[i].score) == RemoteVerdict(reply).value) &&
        (!Accepted(reply) ==> Analysis(fs[i].sentiment, fs[i].score) == KeywordAnalysis(texts[i]))
    {
      var reply := replies(i, RequestInput(texts[i]));
      assert fs[i] == Record(texts[i], reply);
    }
  }

  /** When no reply passes the shape check, every record carries the lexicon
      scorer's verdict on its text, with a score in [0.5, 0.95]. */
  lemma OfflineUsesLexicon(inputs: seq<string>, replies: (nat, string) -> Remote)
    requires forall i: nat, s: string :: !Accepted(replies(i, s))
    ensures var fs := Summarize(inputs, replies).feedbacks;
      forall i :: 0 <= i < |fs| ==>
        fs[i].text == Kept(inputs)[i] &&
        Analysis(fs[i].sentiment, fs[i].score) == KeywordAnalysis(fs[i].text) &&
        0.5 <= fs[i].score <= 0.95
  {
    var texts := Kept(inputs);
    var fs := Records(texts, replies);
    forall i | 0 <= i < |fs|
      ensures fs[i].text == texts[i]
      ensures Analysis(fs[i].sentiment, fs[i].score) == KeywordAnalysis(fs[i].text)
      ensures 0.5 <= fs[i].score <= 0.95
    {
      var reply := replies(i, RequestInput(texts[i]));
      assert fs[i] == Record(texts[i], reply);
      FallbackScoreBounded(texts[i], reply);
    }
  }

  /** The filter of `extractIssues` keeps as many records as the negative tally. */
  lemma {:induction false} NegativesCounted(fs: seq<FeedbackRecord>)
    ensures |Negatives(fs)| == CountSentiment(fs, Negative)
  {
    if fs != [] {
      NegativesCounted(fs[1..]);
    }
  }

  /** No issue is reported more often than there are negative records. */
  lemma IssueCountsBounded(inputs: seq<string>, replies: (nat, string) -> Remote)
    ensures var r := Summarize(inputs, replies);
      forall i :: 0 <= i < |r.topIssues| ==> 1 <= r.topIssues[i].count <= r.negative
  {
    var fs := Records(Kept(inputs), replies);
    var negs := Negatives(fs);
    TopIssuesSound(fs);
    NegativesCounted(fs);
    forall i | 0 <= i < |TopIssues(fs)| ensures 1 <= TopIssues(fs)[i].count <= |negs| {
      assert CountsCategory(TopIssues(fs)[i], negs);
    }
  }
}
