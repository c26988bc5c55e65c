/**
 * The values the analysis pipeline passes around (app/api/upload/route.ts,
 * interfaces `FeedbackAnalysis` and `AnalysisResult`, and the anonymous
 * `{sentiment, score}` and `{issue, count}` objects).
 */
module Feedback {

  datatype Sentiment = Positive | Neutral | Negative

  /** What a classifier returns for one text: `{sentiment, score}`. */
  datatype Analysis = Analysis(sentiment: Sentiment, score: real)

  /** One classified feedback text (`FeedbackAnalysis`). */
  datatype FeedbackRecord = FeedbackRecord(text: string, sentiment: Sentiment, score: real)

  /** One ranked issue category with the number of negative records naming it. */
  datatype IssueTally = IssueTally(issue: string, count: nat)

  /** The summary of one analysis run (`AnalysisResult`). */
  datatype Summary = Summary(
    total: nat,
    positive: nat,
    neutral: nat,
    negative: nat,
    topIssues: seq<IssueTally>,
    suggestions: seq<string>,
    feedbacks: seq<FeedbackRecord>)
}
