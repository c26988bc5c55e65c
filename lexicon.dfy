/**
 * The lexicon sentiment scorer `advancedKeywordAnalysis`
 * (app/api/upload/route.ts). Scores are exact rationals (`real`) rather than
 * IEEE doubles.
 */
module Lexicon {
  import opened Text
  import opened Feedback

  const PositiveWords: set<string> := {
    "excellent", "amazing", "wonderful", "fantastic", "great", "good", "best",
    "outstanding", "superb", "brilliant", "awesome", "perfect", "love",
    "incredible", "exceptional", "fabulous", "terrific", "marvelous",
    "satisfied", "happy", "pleased", "delighted", "impressed", "recommended",
    "quality", "efficient", "helpful", "friendly", "fast", "easy", "smooth"}

  const NegativeWords: set<string> := {
    "terrible", "horrible", "awful", "bad", "worst", "poor", "disappointing",
    "disappointed", "hate", "useless", "broken", "defective", "failure",
    "pathetic", "disgusting", "frustrating", "annoying", "waste", "never",
    "angry", "upset", "unhappy", "dissatisfied", "uncomfortable", "rude",
    "slow", "expensive", "complicated", "difficult", "confusing", "problem"}

  const NeutralWords: set<string> := {
    "okay", "ok", "average", "decent", "fine", "acceptable", "moderate"}

  /** Tokens that flip the polarity of the token after them. */
  const Negations: set<string> := {
    "not", "no", "never", "neither", "nobody", "nothing", "dont", "don't"}

  const Intensifiers: seq<string> := [
    "very", "extremely", "really", "absolutely", "completely", "totally"]

  /** The three accumulators `positiveScore`, `negativeScore`, `neutralScore`. */
  datatype Scores = Scores(positive: real, negative: real, neutral: real)

  predicate NonNegative(s: Scores) {
    s.positive >= 0.0 && s.negative >= 0.0 && s.neutral >= 0.0
  }

  function Add(a: Scores, b: Scores): Scores {
    Scores(a.positive + b.positive, a.negative + b.negative, a.neutral + b.neutral)
  }

  function Total(s: Scores): real {
    s.positive + s.negative + s.neutral
  }

  /** What one stripped token adds, given the stripped token before it: a
      positive-list word adds 2 to positive, or 1.5 to negative when negated; a
      negative-list word adds 2 to negative, or 1 to positive when negated; a
      neutral-list word adds 1 to neutral, negated or not. */
  function Contribution(prevWord: string, word: string): (c: Scores)
    ensures NonNegative(c)
  {
    var negated := prevWord in Negations;
    var positive := word in PositiveWords;
    var negative := word in NegativeWords;
    Scores(
      (if positive && !negated then 2.0 else 0.0) + (if negative && negated then 1.0 else 0.0),
      (if positive && negated then 1.5 else 0.0) + (if negative && !negated then 2.0 else 0.0),
      if word in NeutralWords then 1.0 else 0.0)
  }

  /** The i-th token of `words` with its non-word characters removed. */
  function Token(words: seq<string>, i: nat): string
    requires i < |words|
  {
    StripNonWord(words[i])
  }

  /** The stripped token before the i-th one, or "" for the first. */
  function PrevToken(words: seq<string>, i: nat): string
    requires i < |words|
  {
    if i > 0 then StripNonWord(words[i - 1]) else ""
  }

  /** The accumulators after the first `n` tokens. */
  function Tally(words: seq<string>, n: nat): (t: Scores)
    requires n <= |words|
    ensures NonNegative(t)
  {
    if n == 0 then Scores(0.0, 0.0, 0.0)
    else Add(Tally(words, n - 1), Contribution(PrevToken(words, n - 1), Token(words, n - 1)))
  }

  /** The intensifier loop on one accumulator: `x` multiplied by 1.2 once for
      each of the first `n` intensifiers that occurs in `lowerText`. */
  function Intensify(x: real, lowerText: string, n: nat): real
    requires n <= |Intensifiers|
  {
    if n == 0 then x
    else if Contains(lowerText, Intensifiers[n - 1]) then Intensify(x, lowerText, n - 1) * 1.2
    else Intensify(x, lowerText, n - 1)
  }

  /** The exclamation step on one accumulator: `x × (1 + 0.1 × count)` when the
      text holds at least one '!'. */
  function Exclaim(x: real, text: string): real {
    if CountChar(text, '!') > 0 then x * ExclamationFactor(text) else x
  }

  /** The intensifier step never lowers a non-negative accumulator. */
  lemma {:induction false} IntensifyGrows(x: real, lowerText: string, n: nat)
    requires n <= |Intensifiers| && x >= 0.0
    ensures Intensify(x, lowerText, n) >= x
  {
    if n > 0 { IntensifyGrows(x, lowerText, n - 1); }
  }

  /** The exclamation step never lowers a non-negative accumulator. */
  lemma ExclaimGrows(x: real, text: string)
    requires x >= 0.0
    ensures Exclaim(x, text) >= x
  {
    var f := ExclamationFactor(text);
    assert x * f - x == x * (f - 1.0);
  }

  /** The accumulators after the intensifier and exclamation multipliers. */
  function Amplified(t: Scores, lowerText: string, text: string): (a: Scores)
    requires NonNegative(t)
    ensures NonNegative(a) && a.neutral == t.neutral
  {
    IntensifyGrows(t.positive, lowerText, |Intensifiers|);
    IntensifyGrows(t.negative, lowerText, |Intensifiers|);
    ExclaimGrows(Intensify(t.positive, lowerText, |Intensifiers|), text);
    ExclaimGrows(Intensify(t.negative, lowerText, |Intensifiers|), text);
    Scores(
      Exclaim(Intensify(t.positive, lowerText, |Intensifiers|), text),
      Exclaim(Intensify(t.negative, lowerText, |Intensifiers|), text),
      t.neutral)
  }

  /** The number of the first `n` intensifiers that occur in `lowerText`. */
  function IntensifiersFound(lowerText: string, n: nat): (k: nat)
    requires n <= |Intensifiers|
    ensures k <= n
  {
    if n == 0 then 0
    else IntensifiersFound(lowerText, n - 1) + (if Contains(lowerText, Intensifiers[n - 1]) then 1 else 0)
  }

  function Pow(x: real, k: nat): real {
    if k == 0 then 1.0 else x * Pow(x, k - 1)
  }

  /** `1 + 0.1 × (number of '!')`: the factor of the exclamation step. */
  function ExclamationFactor(text: string): (f: real)
    ensures f >= 1.0
  {
    1.0 + CountChar(text, '!') as real * 0.1
  }

  function Min(a: real, b: real): real {
    if a <= b then a else b
  }

  /** The final decision on the accumulators. */
  function Decide(s: Scores): (r: Analysis)
    requires NonNegative(s)
    ensures 0.5 <= r.score <= 0.95
    ensures r.sentiment != Neutral ==> r.score > 0.66
    ensures Total(s) == 0.0 ==> r == Analysis(Neutral, 0.5)
    ensures Total(s) > 0.0 && r.sentiment == Neutral ==> r.score == 0.6
    ensures r.sentiment == Positive <==> s.positive > s.negative + 0.15 * Total(s)
    ensures r.sentiment == Negative <==> s.negative > s.positive + 0.15 * Total(s)
  {
    var total := Total(s);
    if total == 0.0 then Analysis(Neutral, 0.5)
    else
      var posRatio := s.positive / total;
      var negRatio := s.negative / total;
      RatioBounds(s.positive, total);
      RatioBounds(s.negative, total);
      RatioGreater(s.positive, s.negative, total);
      RatioGreater(s.negative, s.positive, total);
      if posRatio > negRatio + 0.15 then Analysis(Positive, Min(0.95, 0.6 + posRatio * 0.4))
      else if negRatio > posRatio + 0.15 then Analysis(Negative, Min(0.95, 0.6 + negRatio * 0.4))
      else Analysis(Neutral, 0.6)
  }

  lemma RatioBounds(x: real, t: real)
    requires 0.0 <= x <= t && t > 0.0
    ensures 0.0 <= x / t <= 1.0
  {
    assert (x / t) * t == x;
  }

  /** Comparing ratios of a common positive total is comparing the numerators. */
  lemma RatioGreater(a: real, b: real, t: real)
    requires t > 0.0
    ensures a / t > b / t + 0.15 <==> a > b + 0.15 * t
  {
    var x := a / t - b / t - 0.15;
    assert (a / t) * t == a;
    assert (b / t) * t == b;
    assert x * t == a - b - 0.15 * t;
    if x > 0.0 { assert x * t > 0.0; }
    if x <= 0.0 { assert x * t <= 0.0; }
  }

  /** `advancedKeywordAnalysis` as a function of the text. */
  function KeywordAnalysis(text: string): (r: Analysis)
    ensures 0.5 <= r.score <= 0.95
    ensures r.sentiment != Neutral ==> r.score > 0.66
  {
    var lowerText := ToLower(text);
    var words := SplitJs(lowerText);
    Decide(Amplified(Tally(words, |words|), lowerText, text))
  }

  /** The token loop of `advancedKeywordAnalysis`: walks the tokens once, adding
      each token's contribution to the three accumulators. */
  method TallyTokens(words: seq<string>) returns (s: Scores)
    ensures s == Tally(words, |words|)
  {
    var positiveScore, negativeScore, neutralScore := 0.0, 0.0, 0.0;
    for i := 0 to |words|
      invariant Scores(positiveScore, negativeScore, neutralScore) == Tally(words, i)
    {
      var word := StripNonWord(words[i]);
      var prevWord := if i > 0 then StripNonWord(words[i - 1]) else "";
      var c := Contribution(prevWord, word);
      positiveScore, negativeScore, neutralScore := positiveScore + c.positive, negativeScore + c.negative, neutralScore + c.neutral;
    }
    s := Scores(positiveScore, negativeScore, neutralScore);
  }

  /** The multiplier steps of `advancedKeywordAnalysis`: ×1.2 on the positive
      and negative accumulators for each intensifier found in `lowerText`, then
      ×(1 + 0.1 × count) when `text` holds `count` > 0 exclamation marks. */
  method ApplyMultipliers(tally: Scores, lowerText: string, text: string) returns (s: Scores)
    requires NonNegative(tally)
    ensures s == Amplified(tally, lowerText, text)
  {
    var positiveScore, negativeScore := tally.positive, tally.negative;
    for k := 0 to |Intensifiers|
      invariant positiveScore == Intensify(tally.positive, lowerText, k)
      invariant negativeScore == Intensify(tally.negative, lowerText, k)
    {
      if Contains(lowerText, Intensifiers[k]) {
        positiveScore := positiveScore * 1.2;
        negativeScore := negativeScore * 1.2;
      }
    }
    var exclamationCount := CountChar(text, '!');
    if exclamationCount > 0 {
      var factor := 1.0 + exclamationCount as real * 0.1;
      positiveScore := positiveScore * factor;
      negativeScore := negativeScore * factor;
    }
    s := Scores(positiveScore, negativeScore, tally.neutral);
  }

  /** `advancedKeywordAnalysis`: the token loop, then the multipliers, then the
      decision. */
  method AdvancedKeywordAnalysis(text: string) returns (r: Analysis)
    ensures r == KeywordAnalysis(text)
  {
    var lowerText := ToLower(text);
    var words := SplitJs(lowerText);
    var tally := TallyTokens(words);
    var scores := ApplyMultipliers(tally, lowerText, text);
    r := Decide(scores);
  }
}
