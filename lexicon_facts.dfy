/**
 * Properties of the lexicon sentiment scorer: what the multipliers do, when
 * they matter, what the negation rule yields on small inputs, and which
 * entries of the word lists can never fire.
 */
module LexiconFacts {
  import opened Text
  import opened Feedback
  import opened Lexicon

  // ---------------------------------------------------------------------------
  // The multipliers are one common factor
  // ---------------------------------------------------------------------------

  /** The factor the multiplier steps apply to both polar accumulators. */
  function Multiplier(lowerText: string, text: string): (m: real)
    ensures m >= 1.0
  {
    PowAtLeastOne(IntensifiersFound(lowerText, |Intensifiers|));
    ProductAtLeastOne(Pow(1.2, IntensifiersFound(lowerText, |Intensifiers|)), ExclamationFactor(text));
    Pow(1.2, IntensifiersFound(lowerText, |Intensifiers|)) * ExclamationFactor(text)
  }

  lemma {:induction false} PowAtLeastOne(k: nat)
    ensures Pow(1.2, k) >= 1.0
  {
    if k > 0 {
      PowAtLeastOne(k - 1);
      assert Pow(1.2, k) == 1.2 * Pow(1.2, k - 1);
    }
  }

  lemma ProductAtLeastOne(a: real, b: real)
    requires a >= 1.0 && b >= 1.0
    ensures a * b >= 1.0
  {
    assert a * b - 1.0 == (a - 1.0) * b + (b - 1.0);
    assert (a - 1.0) * b >= 0.0;
  }

  /** The intensifier loop multiplies by 1.2 once per intensifier present. */
  lemma {:induction false} IntensifyIsPower(x: real, lowerText: string, n: nat)
    requires n <= |Intensifiers|
    ensures Intensify(x, lowerText, n) == x * Pow(1.2, IntensifiersFound(lowerText, n))
  {
    if n > 0 {
      IntensifyIsPower(x, lowerText, n - 1);
      var k := IntensifiersFound(lowerText, n - 1);
      var p := Pow(1.2, k);
      if Contains(lowerText, Intensifiers[n - 1]) {
        assert Pow(1.2, k + 1) == 1.2 * p;
        ScaleStep(x, p, Intensify(x, lowerText, n - 1));
      }
    }
  }

  /** Scaling a product by 1.2 scales its second factor. */
  lemma ScaleStep(x: real, p: real, y: real)
    requires y == x * p
    ensures y * 1.2 == x * (1.2 * p)
  {
  }

  /** The exclamation step multiplies by `1 + 0.1 × count`, which is 1 without '!'. */
  lemma ExclaimIsFactor(x: real, text: string)
    ensures Exclaim(x, text) == x * ExclamationFactor(text)
  {
  }

  /** Both polar accumulators are scaled by the same factor; neutral is untouched. */
  lemma AmplifiedScales(t: Scores, lowerText: string, text: string)
    requires NonNegative(t)
    ensures Amplified(t, lowerText, text)
         == Scores(t.positive * Multiplier(lowerText, text), t.negative * Multiplier(lowerText, text), t.neutral)
  {
    var p := Pow(1.2, IntensifiersFound(lowerText, |Intensifiers|));
    var e := ExclamationFactor(text);
    IntensifyIsPower(t.positive, lowerText, |Intensifiers|);
    IntensifyIsPower(t.negative, lowerText, |Intensifiers|);
    ExclaimIsFactor(t.positive * p, text);
    ExclaimIsFactor(t.negative * p, text);
    assert (t.positive * p) * e == t.positive * (p * e);
    assert (t.negative * p) * e == t.negative * (p * e);
  }

  lemma CancelFactor(a: real, t: real, m: real)
    requires t != 0.0 && m != 0.0
    ensures (a * m) / (t * m) == a / t
  {
    assert (a / t) * (t * m) == a * m;
  }

  /** Scaling both polar accumulators alike does not change the decision when
      nothing neutral was seen. */
  lemma ScaleInvariant(t: Scores, m: real)
    requires NonNegative(t) && t.neutral == 0.0 && m > 0.0
    ensures Decide(Scores(t.positive * m, t.negative * m, 0.0)) == Decide(t)
  {
    var s := Scores(t.positive * m, t.negative * m, 0.0);
    assert Total(s) == Total(t) * m;
    if Total(t) != 0.0 {
      assert Total(s) != 0.0;
      CancelFactor(t.positive, Total(t), m);
      CancelFactor(t.negative, Total(t), m);
      assert s.positive / Total(s) == t.positive / Total(t);
      assert s.negative / Total(s) == t.negative / Total(t);
    }
  }

  /** Amplifying a tally with no neutral part leaves its decision unchanged. */
  lemma AmplifiedDecision(t: Scores, lowerText: string, text: string)
    requires NonNegative(t) && t.neutral == 0.0
    ensures Decide(Amplified(t, lowerText, text)) == Decide(t)
  {
    var m := Multiplier(lowerText, text);
    var scaled := Scores(t.positive * m, t.negative * m, 0.0);
    AmplifiedScales(t, lowerText, text);
    assert Amplified(t, lowerText, text) == scaled;
    ScaleInvariant(t, m);
  }

  /** Without a neutral-list hit, intensifiers and exclamation marks never
      change the outcome: the result depends on the token tally alone. */
  lemma MultipliersIrrelevantWithoutNeutral(text: string)
    requires Tally(SplitJs(ToLower(text)), |SplitJs(ToLower(text))|).neutral == 0.0
    ensures KeywordAnalysis(text) == Decide(Tally(SplitJs(ToLower(text)), |SplitJs(ToLower(text))|))
  {
    var words := SplitJs(ToLower(text));
    AmplifiedDecision(Tally(words, |words|), ToLower(text), text);
  }

  // ---------------------------------------------------------------------------
  // The negation rule on small inputs
  // ---------------------------------------------------------------------------

  /** A positive-list token adds 2 to positive, or 1.5 to negative after a negation. */
  lemma PositiveTokenAdds(prevWord: string, word: string)
    requires word in PositiveWords && word !in NegativeWords && word !in NeutralWords
    ensures Contribution(prevWord, word)
         == if prevWord in Negations then Scores(0.0, 1.5, 0.0) else Scores(2.0, 0.0, 0.0)
  {
  }

  /** A negative-list token adds 2 to negative, or 1 to positive after a negation. */
  lemma NegativeTokenAdds(prevWord: string, word: string)
    requires word in NegativeWords && word !in PositiveWords && word !in NeutralWords
    ensures Contribution(prevWord, word)
         == if prevWord in Negations then Scores(1.0, 0.0, 0.0) else Scores(0.0, 2.0, 0.0)
  {
  }

  /** The tally of two tokens. */
  lemma TallyOfTwo(a: string, b: string)
    ensures Tally([a, b], 2)
         == Add(Add(Scores(0.0, 0.0, 0.0), Contribution("", StripNonWord(a))),
                Contribution(StripNonWord(a), StripNonWord(b)))
  {
    assert Tally([a, b], 1) == Add(Scores(0.0, 0.0, 0.0), Contribution("", StripNonWord(a)));
  }

  /** A lower-case text of space-separated tokens with no neutral-list hit is
      decided on its token tally alone. */
  lemma DecidedOnTally(text: string, words: seq<string>)
    requires ToLower(text) == JoinSpace(words)
    requires |words| >= 1 && forall k :: 0 <= k < |words| ==> IsJsWord(words[k])
    requires Tally(words, |words|).neutral == 0.0
    ensures KeywordAnalysis(text) == Decide(Tally(words, |words|))
  {
    SplitJsJoin(words);
    MultipliersIrrelevantWithoutNeutral(text);
  }

  /** A token on none of the three lists adds nothing, negated or not. */
  lemma UnlistedAddsNothing(prevWord: string, word: string)
    requires word !in PositiveWords && word !in NegativeWords && word !in NeutralWords
    ensures Contribution(prevWord, word) == Scores(0.0, 0.0, 0.0)
  {
  }

  /** A two-token text with no neutral-list hit is decided on the tally of its
      two tokens. */
  lemma TwoTokenDecision(text: string, a: string, b: string)
    requires ToLower(text) == a + (" " + b) && IsJsWord(a) && IsJsWord(b)
    requires Tally([a, b], 2).neutral == 0.0
    ensures KeywordAnalysis(text) == Decide(Tally([a, b], 2))
  {
    var words := [a, b];
    assert JoinSpace(words) == a + (" " + b);
    DecidedOnTally(text, words);
  }

  /** A negation on no list, then a positive-only word: 1.5 to negative. */
  lemma NegatedPositiveTally(a: string, b: string)
    requires StripNonWord(a) in Negations
    requires StripNonWord(a) !in PositiveWords && StripNonWord(a) !in NegativeWords && StripNonWord(a) !in NeutralWords
    requires StripNonWord(b) in PositiveWords && StripNonWord(b) !in NegativeWords && StripNonWord(b) !in NeutralWords
    ensures Tally([a, b], 2) == Scores(0.0, 1.5, 0.0)
  {
    UnlistedAddsNothing("", StripNonWord(a));
    PositiveTokenAdds(StripNonWord(a), StripNonWord(b));
    TallyOfTwo(a, b);
  }

  /** A negation on no list, then a negative-only word: 1 to positive. */
  lemma NegatedNegativeTally(a: string, b: string)
    requires StripNonWord(a) in Negations
    requires StripNonWord(a) !in PositiveWords && StripNonWord(a) !in NegativeWords && StripNonWord(a) !in NeutralWords
    requires StripNonWord(b) in NegativeWords && StripNonWord(b) !in PositiveWords && StripNonWord(b) !in NeutralWords
    ensures Tally([a, b], 2) == Scores(1.0, 0.0, 0.0)
  {
    UnlistedAddsNothing("", StripNonWord(a));
    NegativeTokenAdds(StripNonWord(a), StripNonWord(b));
    TallyOfTwo(a, b);
  }

  /** "never" scores 2 to negative and then negates a negative-only word,
      which gives 1 to positive. */
  lemma NeverThenNegativeTally(b: string)
    requires StripNonWord(b) in NegativeWords && StripNonWord(b) !in PositiveWords && StripNonWord(b) !in NeutralWords
    ensures Tally(["never", b], 2) == Scores(1.0, 2.0, 0.0)
  {
    NeverIsListed();
    var first := Contribution("", "never");
    var second := Contribution("never", StripNonWord(b));
    NegativeTokenAdds("", "never");
    NegativeTokenAdds("never", StripNonWord(b));
    assert first.positive == 0.0 && first.negative == 2.0 && first.neutral == 0.0;
    assert second.positive == 1.0 && second.negative == 0.0 && second.neutral == 0.0;
    TallyOfTwo("never", b);
  }

  /** A two-token text whose first token strips to a negation on no list
      ("not", "no", "dont", "don't", ...) and whose second strips to a
      positive-only word is negative at 0.95 ("not good", "Don't love!"). */
  lemma NegatedPositiveIsNegative(text: string, a: string, b: string)
    requires ToLower(text) == a + (" " + b) && IsJsWord(a) && IsJsWord(b)
    requires StripNonWord(a) in Negations
    requires StripNonWord(a) !in PositiveWords && StripNonWord(a) !in NegativeWords && StripNonWord(a) !in NeutralWords
    requires StripNonWord(b) in PositiveWords && StripNonWord(b) !in NegativeWords && StripNonWord(b) !in NeutralWords
    ensures KeywordAnalysis(text) == Analysis(Negative, 0.95)
  {
    NegatedPositiveTally(a, b);
    TwoTokenDecision(text, a, b);
    DecideOnly(Scores(0.0, 1.5, 0.0));
  }

  /** A two-token text whose first token strips to a negation on no list and
      whose second strips to a negative-only word is positive at 0.95
      ("not bad"). */
  lemma NegatedNegativeIsPositive(text: string, a: string, b: string)
    requires ToLower(text) == a + (" " + b) && IsJsWord(a) && IsJsWord(b)
    requires StripNonWord(a) in Negations
    requires StripNonWord(a) !in PositiveWords && StripNonWord(a) !in NegativeWords && StripNonWord(a) !in NeutralWords
    requires StripNonWord(b) in NegativeWords && StripNonWord(b) !in PositiveWords && StripNonWord(b) !in NeutralWords
    ensures KeywordAnalysis(text) == Analysis(Positive, 0.95)
  {
    NegatedNegativeTally(a, b);
    TwoTokenDecision(text, a, b);
    DecideOnly(Scores(1.0, 0.0, 0.0));
  }

  /** "never" is a negative word as well as a negation, so "never" followed by
      a negative-only word stays negative ("never slow"): its own 2 outweighs
      the 1 the negated word gives to positive. */
  lemma NeverThenNegativeIsNegative(text: string, b: string)
    requires ToLower(text) == "never" + (" " + b) && IsJsWord(b)
    requires StripNonWord(b) in NegativeWords && StripNonWord(b) !in PositiveWords && StripNonWord(b) !in NeutralWords
    ensures KeywordAnalysis(text).sentiment == Negative
  {
    assert IsJsWord("never");
    NeverThenNegativeTally(b);
    TwoTokenDecision(text, "never", b);
    DecideTwoToOne();
  }

  /** Evidence on one side only is decided for that side at the 0.95 cap. */
  lemma DecideOnly(s: Scores)
    requires NonNegative(s) && s.neutral == 0.0
    requires (s.positive == 0.0) != (s.negative == 0.0)
    ensures Decide(s) == Analysis(if s.positive > 0.0 then Positive else Negative, 0.95)
  {
  }

  /** Negative evidence twice the positive is decided negative. */
  lemma DecideTwoToOne()
    ensures Decide(Scores(1.0, 2.0, 0.0)).sentiment == Negative
  {
  }

  /** "never" is on the negative list and is a negation; "" is not a negation. */
  lemma NeverIsListed()
    ensures StripNonWord("never") == "never"
    ensures "never" in NegativeWords && "never" !in PositiveWords && "never" !in NeutralWords
    ensures "never" in Negations && "" !in Negations
  {
  }

  // ---------------------------------------------------------------------------
  // Texts without polar evidence, case, and substring intensifiers
  // ---------------------------------------------------------------------------

  /** A token on neither polar list adds only to neutral, and only when it is
      on the neutral list. */
  lemma NonPolarToken(prevWord: string, word: string)
    requires word !in PositiveWords && word !in NegativeWords
    ensures Contribution(prevWord, word).positive == 0.0
    ensures Contribution(prevWord, word).negative == 0.0
    ensures Contribution(prevWord, word).neutral > 0.0 <==> word in NeutralWords
    ensures Contribution(prevWord, word).neutral == if word in NeutralWords then 1.0 else 0.0
  {
  }

  /** A neutral-list word adds exactly 1 to neutral, whatever precedes it, and
      any other word adds nothing to neutral. */
  lemma NeutralTokenAdds(prevWord: string, word: string)
    ensures Contribution(prevWord, word).neutral == if word in NeutralWords then 1.0 else 0.0
    ensures word in NeutralWords ==> Contribution(prevWord, word).neutral == Contribution("", word).neutral
  {
  }

  /** The number of the first `n` tokens that strip to a neutral-list word. */
  function NeutralTokens(words: seq<string>, n: nat): (k: nat)
    requires n <= |words|
    ensures k <= n
  {
    if n == 0 then 0
    else NeutralTokens(words, n - 1) + (if Token(words, n - 1) in NeutralWords then 1 else 0)
  }

  /** The neutral accumulator counts the neutral-list tokens, one each, whether
      negated or not. */
  lemma {:induction false} TallyNeutralCounts(words: seq<string>, n: nat)
    requires n <= |words|
    ensures Tally(words, n).neutral == NeutralTokens(words, n) as real
  {
    if n > 0 {
      TallyNeutralCounts(words, n - 1);
      NeutralTokenAdds(PrevToken(words, n - 1), Token(words, n - 1));
    }
  }

  /** A tally over tokens none of which is on the positive or negative list has
      no polar evidence, and its neutral part counts the neutral-list tokens. */
  lemma {:induction false} TallyWithoutPolarWords(words: seq<string>, n: nat)
    requires n <= |words|
    requires forall i :: 0 <= i < n ==> Token(words, i) !in PositiveWords && Token(words, i) !in NegativeWords
    ensures Tally(words, n).positive == 0.0 && Tally(words, n).negative == 0.0
    ensures Tally(words, n).neutral > 0.0 <==> exists i :: 0 <= i < n && Token(words, i) in NeutralWords
  {
    if n > 0 {
      TallyWithoutPolarWords(words, n - 1);
      var before := Tally(words, n - 1);
      var c := Contribution(PrevToken(words, n - 1), Token(words, n - 1));
      NonPolarToken(PrevToken(words, n - 1), Token(words, n - 1));
      assert Tally(words, n) == Add(before, c);
      if Token(words, n - 1) in NeutralWords {
        assert Tally(words, n).neutral > 0.0;
      } else {
        assert c.neutral == 0.0;
        assert Tally(words, n).neutral == before.neutral;
        assert (exists i :: 0 <= i < n && Token(words, i) in NeutralWords)
           <==> (exists i :: 0 <= i < n - 1 && Token(words, i) in NeutralWords);
      }
    }
  }

  /** Some token of `words` strips to a neutral-list word. */
  predicate NeutralTokenIn(words: seq<string>) {
    exists i :: 0 <= i < |words| && Token(words, i) in NeutralWords
  }

  /** A text none of whose tokens is on the positive or negative list is neutral:
      0.6 when some token is on the neutral list, else 0.5. */
  lemma NoPolarWordsIsNeutral(text: string)
    requires forall i :: 0 <= i < |SplitJs(ToLower(text))| ==>
      Token(SplitJs(ToLower(text)), i) !in PositiveWords && Token(SplitJs(ToLower(text)), i) !in NegativeWords
    ensures KeywordAnalysis(text)
         == Analysis(Neutral,
                     if NeutralTokenIn(SplitJs(ToLower(text))) then 0.6 else 0.5)
  {
    var lowerText := ToLower(text);
    var words := SplitJs(lowerText);
    var t := Tally(words, |words|);
    assert KeywordAnalysis(text) == Decide(Amplified(t, lowerText, text));
    TallyWithoutPolarWords(words, |words|);
    NeutralTallyDecision(t, lowerText, text);
    assert t.neutral > 0.0 <==> NeutralTokenIn(words);
  }

  /** A tally with no polar evidence stays so under the multipliers and is
      decided neutral. */
  lemma NeutralTallyDecision(t: Scores, lowerText: string, text: string)
    requires NonNegative(t) && t.positive == 0.0 && t.negative == 0.0
    ensures Decide(Amplified(t, lowerText, text)) == Analysis(Neutral, if t.neutral > 0.0 then 0.6 else 0.5)
  {
    AmplifiedScales(t, lowerText, text);
    assert Amplified(t, lowerText, text) == Scores(0.0, 0.0, t.neutral);
    DecideNeutralOnly(t.neutral);
  }

  /** Neutral evidence alone is decided neutral: 0.6, or 0.5 when there is none. */
  lemma DecideNeutralOnly(n: real)
    requires n >= 0.0
    ensures Decide(Scores(0.0, 0.0, n)) == Analysis(Neutral, if n > 0.0 then 0.6 else 0.5)
  {
  }

  /** Lower-casing is idempotent. */
  lemma ToLowerTwice(s: string)
    ensures ToLower(ToLower(s)) == ToLower(s)
  {
    forall i | 0 <= i < |ToLower(s)| ensures !('A' <= ToLower(s)[i] <= 'Z') {
      ToLowerAt(s, i);
    }
    ToLowerNoUpper(ToLower(s));
  }

  /** The multiplier steps see the original text only through its count of '!'. */
  lemma AmplifiedByBangs(t: Scores, lowerText: string, text1: string, text2: string)
    requires NonNegative(t) && CountChar(text1, '!') == CountChar(text2, '!')
    ensures Amplified(t, lowerText, text1) == Amplified(t, lowerText, text2)
  {
  }

  /** The analysis depends on the text only through its lower-case form. */
  lemma CaseInsensitive(text: string)
    ensures KeywordAnalysis(ToLower(text)) == KeywordAnalysis(text)
  {
    var lowerText := ToLower(text);
    ToLowerTwice(text);
    CountCharToLower(text, '!');
    var words := SplitJs(lowerText);
    AmplifiedByBangs(Tally(words, |words|), lowerText, lowerText, text);
  }

  /** Intensifiers are found as substrings, not as tokens: a text containing
      "every" (as in "everything") counts the intensifier "very". */
  lemma IntensifierInsideWord(lowerText: string)
    requires Contains(lowerText, "every")
    ensures IntensifiersFound(lowerText, |Intensifiers|) >= 1
  {
    ContainsSliceOf(lowerText, "every", 1, 5);
    assert "every"[1..5] == Intensifiers[0];
    FoundAtLeastFirst(lowerText, |Intensifiers|);
  }

  lemma {:induction false} FoundAtLeastFirst(lowerText: string, n: nat)
    requires 1 <= n <= |Intensifiers|
    requires Contains(lowerText, Intensifiers[0])
    ensures IntensifiersFound(lowerText, n) >= 1
  {
    if n > 1 { FoundAtLeastFirst(lowerText, n - 1); }
  }

  /** Tokens are stripped of non-word characters before the negation lookup,
      so the "don't" entry of the negation list is never matched; "dont" does
      the work instead. */
  lemma ApostropheEntryUnreachable(token: string)
    ensures StripNonWord(token) != "don't"
    ensures StripNonWord("don't") == "dont" && "dont" in Negations
  {
    StripNonWordChars(token);
    assert !IsWordChar("don't"[3]);
  }
}
