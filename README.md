# Feedback analyzer: a verified model of the analysis pipeline

The feedback analyzer takes free-text customer feedback, either one text at a
time or a batch read from a spreadsheet. It turns the texts into a summary:

- a sentiment per text;
- counts of positive, neutral and negative texts;
- up to five recurring issue categories, ranked;
- up to three suggestions.

This project models the decision logic of that pipeline in Dafny and proves
properties about it.

- `columns.dfy` (`Columns`) models `detectFeedbackColumn`. It first looks for
  a column whose lower-cased name contains a keyword. Failing that, it picks
  the column with the longest average value length, where a value's length
  is JavaScript's `length` in UTF-16 code units (`Text.Utf16Length`).
- `classifier.dfy` (`Classifier`) models the decision in `analyzeSentiment`.
  - The outcome of the HTTP request is a parameter: it failed, or it gave a
    status flag and a body.
  - A reply that passes the shape check gives the top-scoring label, mapped
    to a sentiment by "pos", then "neg".
  - Any other reply falls back to the lexicon scorer.
- `lexicon.dfy` (`Lexicon`) models `advancedKeywordAnalysis`: word lists,
  negation, intensifiers, exclamation marks and the ratio decision.
  `lexicon_facts.dfy` (`LexiconFacts`) holds the facts proved about it.
- `issues.dfy` (`Issues`) models `extractIssues`. It keeps the negative
  records and counts, per record, each of the seven keyword categories. The
  counts object is an insertion-ordered association list. The ranking and
  the cut to five live in `ranking.dfy` (`Ranking`), a stable descending
  sort. `issue_order.dfy` (`IssueOrder`) proves the order that the insertion
  order and the stable sort give to tied counts.
- `suggestions.dfy` (`Suggestions`) models `generateSuggestions`: advice per
  ranked issue, unknown issues dropped, at most three.
- `analysis.dfy` (`Analysis`) models `performAnalysis`. It trims the inputs,
  skips blank ones, classifies the rest and builds the summary.
- `nlp_service.dfy` (`NlpService`) models the pure helpers of the Python
  service:
  - the sentiment label normalisation of `safe_sentiment`;
  - the category label normalisation and the keyword fallback of
    `safe_category`;
  - `extract_issue` and its guard.
- `text.dfy` (`Text`) models the string primitives these rely on. JavaScript
  and Python each get their own whitespace classes: `\s`/`trim` for
  JavaScript and `str.split` for Python. It also provides `\w` stripping,
  lower-casing, substring search, splitting and joining.
- `feedback.dfy` and `wrappers.dfy` hold the shared value types.

The remote sentiment service answers through a function
`replies: (nat, string) -> Remote`. It receives the index of the call and
the text actually sent, which is the first 500 characters. So the model
covers every sequence of network outcomes.

Two behaviours of the code are easy to miss:

- **Tied issue counts.** `issueCounts` is a plain object, so
  `Object.entries` lists the categories in the order they were first
  counted: by the first negative record that hits each one, and within that
  record in the order of `issueKeywords` (app/api/upload/route.ts:211-222).
  The sort at app/api/upload/route.ts:224 is stable, so ties in the ranking
  keep that order (`IssueOrder.TiesKeepCountingOrder`), not the declaration
  order of the categories. If one record hits only Pricing and a later one
  only Customer Service, a tie between the two ranks Pricing first
  (`IssueOrder.PricingBeforeService`).
- **Column keywords.** Every keyword in app/api/upload/route.ts:29-32 ends
  with a space, so a column name without a space never matches one
  (`Columns.NameWithoutSpaceNeverMatches`). The upload page asks for a
  column named `feedback_text` (app/upload/page.tsx:213). Such a column can
  still be chosen, but only by the length fallback.

The source's constant tables are modelled as constants with the same
entries, in the same order: `Columns.FeedbackKeywords`
(app/api/upload/route.ts:29-32), `Lexicon.PositiveWords`, `NegativeWords`,
`NeutralWords` and `Negations` (app/api/upload/route.ts:107-128),
`Lexicon.Intensifiers` (app/api/upload/route.ts:164), `Issues.Categories`
(app/api/upload/route.ts:201-209), `Suggestions.Advice`
(app/api/upload/route.ts:230-238), and `NlpService.LabelRules` and
`FallbackRules` (python/nlpService.py:72-86 and 91-102). The word lists are
only tested for membership, so `Lexicon` keeps them as sets.

## Model

| member | source | states |
|---|---|---|
| Columns.FirstFeedbackName | app/api/upload/route.ts:35-40 | the index found is the first column whose lower-cased name contains a keyword; None means no column matches |
| Columns.FirstFeedbackNameAt | app/api/upload/route.ts:35-40 | a matching column with no match before it is the one the keyword pass returns |
| Columns.Longest | app/api/upload/route.ts:43-56 | the fallback's choice has a maximal total value length, and every earlier column is strictly shorter (first maximum wins) |
| Columns.AverageGreater | app/api/upload/route.ts:47-55 | comparing averages over the same row count is comparing totals, in both directions |
| Columns.DetectedColumn | app/api/upload/route.ts:22-59 | no column (None) for no rows, and for a first row without columns; the first keyword-matching column when there is one; the first keyword-matching column when there is one; otherwise a column of maximal average length, the first such |
| Columns.DetectFeedbackColumn | app/api/upload/route.ts:22-59 | the two-pass method returns exactly DetectedColumn |
| Columns.KeywordPass | app/api/upload/route.ts:35-40 | the early-returning loop yields the first matching column index |
| Columns.LengthPass | app/api/upload/route.ts:43-56 | the strict-greater scan starting from 0 and the first column settles on Longest |
| Columns.ColumnLength | app/api/upload/route.ts:47-50 | the reduce sums the UTF-16 lengths (`length`) of `String(row[col] \|\| '')` over all rows |
| Columns.IsFeedbackName | app/api/upload/route.ts:36-37 | the ASCII-lower-cased column name contains one of the ten keywords |
| Columns.AverageLength | app/api/upload/route.ts:47-50 | the column's total UTF-16 length over all rows divided by the number of rows |
| Columns.Cell | app/api/upload/route.ts:48 | a row's value in a column, the empty string when the row has none |
| Columns.TotalLength | app/api/upload/route.ts:47-50 | the sum of the first n rows' UTF-16 cell lengths, the numerator of the average |
| Columns.AstralCharactersCountTwice | app/api/upload/route.ts:47-55 | two emoji (four UTF-16 code units) outweigh three ASCII letters, so a one-row table picks the emoji column |
| Columns.NameWithoutSpaceNeverMatches | app/api/upload/route.ts:29-37 | a column name without a space never matches a keyword, because every keyword ends with a space |
| Columns.FeedbackNotesMatches | app/api/upload/route.ts:29-37 | "Feedback Notes" in any case matches the keyword pass |
| Classifier.RequestInput | app/api/upload/route.ts:73 | the request carries the first min(500, length) characters of the text |
| Classifier.TopIndex | app/api/upload/route.ts:83-85 | reduce picks a pair of maximal score, the first one when scores tie |
| Classifier.LabelSentiment | app/api/upload/route.ts:87-89 | positive iff the lower-cased label contains "pos"; negative iff it does not but contains "neg"; neutral otherwise |
| Classifier.RemoteVerdict | app/api/upload/route.ts:79-92 | a verdict exists iff the reply is ok and its first element is a non-empty array; it is the label and score of the first top-scoring pair |
| Classifier.Accepted | app/api/upload/route.ts:79-81 | the remote branch is taken iff the call succeeded with an ok status and a first element that is a non-empty array |
| Classifier.SentimentOf | app/api/upload/route.ts:62-100 | the remote verdict when there is one, otherwise the lexicon verdict on the text |
| Classifier.AnalyzeSentiment | app/api/upload/route.ts:62-100 | an accepted reply gives the top pair's label sentiment and score; any failure, bad status or malformed body gives the lexicon result |
| Classifier.FallbackScoreBounded | app/api/upload/route.ts:94-99 | whenever the remote tier is not used, the score lies in [0.5, 0.95] |
| Classifier.PositiveLabel | app/api/upload/route.ts:87-89 | the model label "positive", in any case, maps to positive |
| Classifier.NegativeLabel | app/api/upload/route.ts:87-89 | the model label "negative", in any case, maps to negative |
| Classifier.NeutralLabel | app/api/upload/route.ts:87-89 | the model label "neutral", in any case, maps to neutral |
| Lexicon.Token | app/api/upload/route.ts:137 | word i of the split text with every non-word character removed |
| Lexicon.PrevToken | app/api/upload/route.ts:138 | the previous word with its non-word characters removed, or "" for the first word |
| Lexicon.Contribution | app/api/upload/route.ts:136-160 | one token's addition to the three scores is never negative |
| Lexicon.Tally | app/api/upload/route.ts:134-161 | the token loop's scores are never negative |
| Lexicon.TallyTokens | app/api/upload/route.ts:134-161 | the token loop computes Tally over all tokens |
| Lexicon.Intensify | app/api/upload/route.ts:164-170 | a score multiplied by 1.2 once for each of the first n intensifiers the lower-cased text contains |
| Lexicon.Exclaim | app/api/upload/route.ts:173-177 | a score multiplied by 1 + 0.1 per '!' when the text has any, unchanged otherwise |
| Lexicon.IntensifyGrows | app/api/upload/route.ts:164-170 | the intensifier loop never lowers a non-negative score |
| Lexicon.ExclaimGrows | app/api/upload/route.ts:173-177 | the exclamation step never lowers a non-negative score |
| Lexicon.Amplified | app/api/upload/route.ts:163-177 | the multipliers keep the scores non-negative and leave the neutral score unchanged |
| Lexicon.ApplyMultipliers | app/api/upload/route.ts:163-177 | the in-place multiplier loop computes Amplified |
| Lexicon.ExclamationFactor | app/api/upload/route.ts:173-176 | the exclamation factor is at least 1 |
| Lexicon.Decide | app/api/upload/route.ts:179-195 | zero total gives neutral 0.5; positive iff positive exceeds negative by 15% of the total, negative symmetrically; a polar score lies in (0.66, 0.95]; a neutral verdict on a non-zero total scores 0.6 |
| Lexicon.KeywordAnalysis | app/api/upload/route.ts:103-196 | the score is always in [0.5, 0.95], and above 0.66 for a polar verdict |
| Lexicon.AdvancedKeywordAnalysis | app/api/upload/route.ts:103-196 | the imperative scorer computes KeywordAnalysis |
| LexiconFacts.Multiplier | app/api/upload/route.ts:163-177 | the combined multiplier is at least 1 |
| LexiconFacts.IntensifyIsPower | app/api/upload/route.ts:164-170 | the intensifier loop multiplies by 1.2 to the number of distinct intensifiers present |
| LexiconFacts.ExclaimIsFactor | app/api/upload/route.ts:173-177 | the exclamation step multiplies by 1 + 0.1 × the number of '!' (by 1 when there is none) |
| LexiconFacts.AmplifiedScales | app/api/upload/route.ts:163-177 | both polar scores are scaled by the same multiplier; neutral is untouched |
| LexiconFacts.ScaleInvariant | app/api/upload/route.ts:179-195 | with no neutral score, scaling both polar scores by a positive factor does not change the decision |
| LexiconFacts.AmplifiedDecision | app/api/upload/route.ts:163-195 | with no neutral score, intensifiers and exclamation marks never change the verdict or the score |
| LexiconFacts.MultipliersIrrelevantWithoutNeutral | app/api/upload/route.ts:103-196 | a text with no neutral word is decided on its token tally alone |
| LexiconFacts.PositiveTokenAdds | app/api/upload/route.ts:142-148 | a positive word adds 2 to positive, or 1.5 to negative after a negation |
| LexiconFacts.NegativeTokenAdds | app/api/upload/route.ts:150-156 | a negative word adds 2 to negative, or 1 to positive after a negation |
| LexiconFacts.UnlistedAddsNothing | app/api/upload/route.ts:142-160 | a word in no list adds nothing, whatever precedes it |
| LexiconFacts.TallyOfTwo | app/api/upload/route.ts:134-161 | two tokens: the first is scored with an empty previous word, the second with the stripped first |
| LexiconFacts.DecidedOnTally | app/api/upload/route.ts:103-196 | a text that is words joined by spaces, with no neutral word, is decided on the tally of exactly those words |
| LexiconFacts.TwoTokenDecision | app/api/upload/route.ts:134-195 | a two-word text is decided on the tally of its two words |
| LexiconFacts.NegatedPositiveTally | app/api/upload/route.ts:140-148 | "negation + positive word" scores 1.5 negative and nothing else |
| LexiconFacts.NegatedNegativeTally | app/api/upload/route.ts:150-156 | "negation + negative word" scores 1 positive and nothing else |
| LexiconFacts.NeverThenNegativeTally | app/api/upload/route.ts:115-156 | "never + negative word" scores 2 negative (never itself) and 1 positive (the flipped word) |
| LexiconFacts.NegatedPositiveIsNegative | app/api/upload/route.ts:103-196 | "not good" and the like are negative with score 0.95 |
| LexiconFacts.NegatedNegativeIsPositive | app/api/upload/route.ts:103-196 | "not bad" and the like are positive with score 0.95 |
| LexiconFacts.NeverThenNegativeIsNegative | app/api/upload/route.ts:103-196 | "never bad" and the like stay negative, because "never" is itself a negative word |
| LexiconFacts.DecideOnly | app/api/upload/route.ts:186-192 | a single polar score decides its own polarity at the 0.95 cap |
| LexiconFacts.DecideTwoToOne | app/api/upload/route.ts:186-192 | negative 2 against positive 1 is a negative verdict |
| LexiconFacts.NeverIsListed | app/api/upload/route.ts:115-128 | "never" is both a negative word and a negation; the empty previous word is not a negation |
| LexiconFacts.NonPolarToken | app/api/upload/route.ts:142-160 | a token in neither polar list adds only to neutral, and adds exactly 1 there iff it is a neutral word, else 0 |
| LexiconFacts.NeutralTokenAdds | app/api/upload/route.ts:158-160 | every neutral-list word adds exactly 1 to neutral, negated or not; any other word adds 0 there |
| LexiconFacts.NeutralTokens | app/api/upload/route.ts:136-160 | the number of the first n stripped tokens on the neutral list, at most n |
| LexiconFacts.TallyNeutralCounts | app/api/upload/route.ts:132-160 | the neutral accumulator equals the number of neutral-list tokens, the amount that enters the total and both ratios |
| LexiconFacts.TallyWithoutPolarWords | app/api/upload/route.ts:134-161 | with no polar token the polar scores stay 0, and neutral is positive iff some token is a neutral word |
| LexiconFacts.NoPolarWordsIsNeutral | app/api/upload/route.ts:103-196 | a text with no polar word is neutral: 0.6 if it has a neutral word, 0.5 otherwise |
| LexiconFacts.NeutralTallyDecision | app/api/upload/route.ts:163-195 | with no polar score, the multipliers are irrelevant and the verdict is neutral 0.6 or 0.5 |
| LexiconFacts.DecideNeutralOnly | app/api/upload/route.ts:180-194 | a neutral-only score gives neutral 0.6, and zero gives 0.5 |
| LexiconFacts.AmplifiedByBangs | app/api/upload/route.ts:173-177 | the multipliers depend on the original text only through its '!' count |
| LexiconFacts.CaseInsensitive | app/api/upload/route.ts:103-196 | the scorer gives the same result on a text and on its lower-cased form |
| LexiconFacts.IntensifierInsideWord | app/api/upload/route.ts:164-166 | intensifiers match inside words: any text containing "every" counts "very" |
| LexiconFacts.ApostropheEntryUnreachable | app/api/upload/route.ts:128-140 | no stripped token is "don't"; "don't" strips to "dont", which is a negation |
| Issues.Negatives | app/api/upload/route.ts:200 | the filter keeps only negative records |
| Issues.NegativesMembers | app/api/upload/route.ts:200 | a record is kept iff it is in the input and negative |
| Issues.NegativesIdempotent | app/api/upload/route.ts:200 | filtering twice is filtering once |
| Issues.NegativesAppend | app/api/upload/route.ts:200 | the filter distributes over concatenation |
| Issues.Bump | app/api/upload/route.ts:217 | incrementing keeps the length or adds one entry |
| Issues.BumpCount | app/api/upload/route.ts:217 | incrementing a key adds 1 to its count (0 when absent) and leaves every other count alone |
| Issues.BumpKeys | app/api/upload/route.ts:211-217 | an existing key keeps its place; a new key goes last (insertion order) |
| Issues.BumpShape | app/api/upload/route.ts:217 | incrementing keeps keys distinct and counts at least 1 |
| Issues.HitCount | app/api/upload/route.ts:213-219 | the number of records hitting a category is at most the number of records |
| Issues.CategoryNamesDistinct | app/api/upload/route.ts:201-209 | the seven category names are distinct |
| Issues.TallyTextCount | app/api/upload/route.ts:215-219 | one record adds 1 to each category it hits and 0 to the others, whatever else it hits |
| Issues.TallyTextShape | app/api/upload/route.ts:213-219 | the per-record pass keeps keys distinct, counts positive and keys within the categories |
| Issues.TallyAllCount | app/api/upload/route.ts:213-220 | after the loops each category's count is the number of negative records hitting it |
| Issues.TallyAllShape | app/api/upload/route.ts:213-220 | the counts object holds distinct category keys with counts at least 1 |
| Issues.Hits | app/api/upload/route.ts:216 | the lower-cased text contains one of the category's keywords |
| Issues.TallyText | app/api/upload/route.ts:215-219 | the counts after the category loop over one record's lower-cased text |
| Issues.TallyAll | app/api/upload/route.ts:213-220 | the counts after the first n negative records |
| Issues.TopIssues | app/api/upload/route.ts:199-226 | the report: the negative records' counts, sorted by descending count and cut to five |
| Issues.ExtractIssues | app/api/upload/route.ts:199-226 | the nested loops, sort and slice compute TopIssues |
| Issues.TopIssuesSound | app/api/upload/route.ts:199-226 | at most five entries, descending by count, each a category with its exact number of hitting negative records, at least 1 |
| Issues.TopIssuesComplete | app/api/upload/route.ts:222-225 | a hit category left out of the report means five entries were reported, each counted at least as often |
| Issues.OnlyNegativesCount | app/api/upload/route.ts:199-220 | positive and neutral records have no effect on the report |
| Issues.ReportedAreCategories | app/api/upload/route.ts:201-222 | every reported issue is one of the seven categories |
| Ranking.Insert | app/api/upload/route.ts:224 | insertion adds exactly one entry |
| Ranking.SortDesc | app/api/upload/route.ts:224 | the sort keeps the length |
| Ranking.InsertMultiset | app/api/upload/route.ts:224 | insertion adds exactly the inserted entry (multisets) |
| Ranking.SortDescMultiset | app/api/upload/route.ts:224 | the sort is a permutation |
| Ranking.InsertSorted | app/api/upload/route.ts:224 | inserting into a descending sequence keeps it descending |
| Ranking.SortDescSorted | app/api/upload/route.ts:224 | the sort yields counts in descending order |
| Ranking.InsertStable | app/api/upload/route.ts:224 | an inserted entry goes after every entry of equal count already there |
| Ranking.SortDescStable | app/api/upload/route.ts:224 | entries of equal count keep their relative order (stability) |
| Ranking.WithCountAppend | app/api/upload/route.ts:224 | keeping the entries of one count distributes over concatenation |
| Ranking.SortDescKeepsTieOrder | app/api/upload/route.ts:224 | two entries with the same count and distinct keys come out of the sort in their input order |
| Ranking.Take | app/api/upload/route.ts:225 | slice(0, n) is the prefix of length min(n, length) |
| Ranking.TakeOutranks | app/api/upload/route.ts:222-225 | an entry of a descending sequence absent from the first n means n entries were taken, none with a lower count |
| IssueOrder.FirstCounted | app/api/upload/route.ts:213-219 | the position of the first negative record that hits a category, no earlier record hitting it; n when none of the first n does |
| IssueOrder.TallyTextKeys | app/api/upload/route.ts:215-219 | one record's pass keeps the old keys in place and appends the categories it is first to hit |
| IssueOrder.NewKeysFresh | app/api/upload/route.ts:215-217 | a key one record appends was not a key before |
| IssueOrder.NewKeysOrder | app/api/upload/route.ts:215-217 | the keys one record appends come in declaration order |
| IssueOrder.KeyWhenCounted | app/api/upload/route.ts:213-220 | a category is a key of the counts iff some negative record so far hits it |
| IssueOrder.TallyAllOrder | app/api/upload/route.ts:213-220 | the keys are in the order the categories were first counted: by first hitting record, then by declaration order within that record |
| IssueOrder.TiesKeepCountingOrder | app/api/upload/route.ts:211-225 | of two reported issues with equal counts, the one counted first is reported first |
| IssueOrder.PricingBeforeService | app/api/upload/route.ts:211-225 | when the first negative record hits Pricing but not Customer Service, a tie between them ranks Pricing first |
| Suggestions.Advised | app/api/upload/route.ts:240-242 | map plus filter(Boolean) yields non-empty advice texts only, no more than there are issues |
| Suggestions.GenerateSuggestions | app/api/upload/route.ts:229-244 | at most three suggestions, each a non-empty advice text |
| Suggestions.AdviceCoversCategories | app/api/upload/route.ts:201-238 | the advice table has exactly the seven issue categories as keys |
| Suggestions.AdviceNonEmpty | app/api/upload/route.ts:230-238 | no advice text is empty, so filter(Boolean) drops only unknown issues |
| Suggestions.AdvisedKnown | app/api/upload/route.ts:240-242 | when every issue has advice, the advice comes one-to-one, in rank order |
| Suggestions.AdvisedUnknown | app/api/upload/route.ts:240-242 | issues without advice yield nothing |
| Suggestions.SuggestionsForReport | app/api/upload/route.ts:240-243 | on a report of extractIssues the suggestions are the advice for the first min(3, n) issues, in order |
| Analysis.TrimAllIdempotent | app/api/upload/route.ts:253 | trimming the trimmed inputs again changes none of them |
| Analysis.TrimAllAppend | app/api/upload/route.ts:252-253 | trimming works input by input, so it distributes over concatenation |
| Analysis.NonBlank | app/api/upload/route.ts:253 | dropping empty texts never lengthens the sequence |
| Analysis.Kept | app/api/upload/route.ts:252-253 | at most as many texts are analysed as were given |
| Analysis.KeptMembers | app/api/upload/route.ts:252-253 | a text is analysed iff it is non-empty and is the trimmed form of some input |
| Analysis.KeptTrimmed | app/api/upload/route.ts:253-259 | every analysed text is non-empty and already trimmed |
| Analysis.Record | app/api/upload/route.ts:256-260 | the record carries the trimmed text; its sentiment and score are the remote verdict when the reply is accepted, the lexicon verdict on the text otherwise |
| Analysis.Records | app/api/upload/route.ts:252-260 | one record per analysed text |
| Analysis.CountSentiment | app/api/upload/route.ts:265-267 | a sentiment count is at most the number of records |
| Analysis.CountsPartition | app/api/upload/route.ts:265-267 | the positive, neutral and negative counts add up to the number of records |
| Analysis.SummaryOf | app/api/upload/route.ts:264-280 | the summary of the analysed texts: their records, the three sentiment counts, the top issues and their suggestions |
| Analysis.Summarize | app/api/upload/route.ts:247-281 | the summary of the inputs kept after trimming and dropping blanks |
| Analysis.PerformAnalysis | app/api/upload/route.ts:247-281 | the loop and the summary computation give Summarize |
| Analysis.TalliesAddUp | app/api/upload/route.ts:265-276 | total equals the number of records and of kept texts, and the three counts add up to it |
| Analysis.BlankInputIgnored | app/api/upload/route.ts:252-253 | a blank or whitespace-only input, at any position among the inputs, changes nothing in the summary |
| Analysis.KeptBlank | app/api/upload/route.ts:252-253 | a blank input at any position adds nothing to the analysed texts |
| Analysis.RecordsFollowRequests | app/api/upload/route.ts:252-260 | for every oracle, record i carries the i-th kept text, and the verdict of the i-th request's reply when it is accepted, the lexicon verdict on that text otherwise |
| Analysis.OfflineUsesLexicon | app/api/upload/route.ts:252-260 | when the remote tier never answers acceptably, each record is the lexicon verdict on its kept text, with a score in [0.5, 0.95] |
| Analysis.NegativesCounted | app/api/upload/route.ts:265-269 | the records extractIssues considers are exactly the negative count |
| Analysis.IssueCountsBounded | app/api/upload/route.ts:266-269 | every reported issue count is between 1 and the negative count |
| NlpService.TopicName | python/nlpService.py:73-103 | the category string the service returns for each topic |
| NlpService.LabelToSentiment | python/nlpService.py:50-57 | positive iff the lower-cased label contains "pos"; negative iff not and it contains "neg"; neutral otherwise |
| NlpService.SafeSentiment | python/nlpService.py:47-60 | a missing label or a failure gives neutral; otherwise positive iff the lower-cased label contains "pos", negative iff it does not but contains "neg", and an empty label gives neutral |
| NlpService.SameLabelReading | python/nlpService.py:52-57 | the service reads a sentiment label exactly as the web route does |
| NlpService.FirstRule | python/nlpService.py:72-86 | the category of the first rule with a keyword contained in the text, or "other" when no rule matches |
| NlpService.NormalizeCategory | python/nlpService.py:69-86 | lower-cased, spaces to underscores, then the first matching rule; a label containing "ui" always gives ui |
| NlpService.KeywordCategory | python/nlpService.py:90-103 | the first matching fallback rule; product quality is never chosen; any UI keyword gives ui |
| NlpService.SafeCategory | python/nlpService.py:62-103 | with a non-empty top label, the first label rule hit by the lower-cased, underscored label, else other; without one, the first keyword rule hit by the lower-cased text, else other; product_quality only ever comes from a label; a label containing "ui" gives ui, and so does a UI keyword when there is no label |
| NlpService.QuiteMeansUi | python/nlpService.py:90-92 | "ui" matches inside words: any text containing "quite" is classed as ui |
| NlpService.LongWords | python/nlpService.py:107 | the filter keeps at most all the words |
| NlpService.LongWordsMembers | python/nlpService.py:107 | a word is kept iff it is a word of the text longer than two characters |
| NlpService.IssueWords | python/nlpService.py:107-108 | at most six words are used |
| NlpService.Phrase | python/nlpService.py:108-109 | the phrase is at most 120 characters |
| NlpService.ExtractIssue | python/nlpService.py:105-109 | the issue phrase is at most 120 characters |
| NlpService.PhraseEmpty | python/nlpService.py:107-109 | the phrase is empty iff no word is longer than two characters |
| NlpService.IssueFor | python/nlpService.py:114 | the guarded call always equals extract_issue: empty feedback yields the empty phrase either way |
| NlpService.PhraseWords | python/nlpService.py:107-109 | when not truncated, splitting the phrase gives back the chosen words |
| NlpService.ExtractIssueWords | python/nlpService.py:105-109 | when not truncated, the issue phrase splits into the first six long words of the text |
| Text.ToLower | app/api/upload/route.ts:104 | lower-casing keeps the length |
| Text.IsJsSpace | app/api/upload/route.ts:134 | JavaScript's `\s`, the set `trim` also removes: the ECMAScript WhiteSpace and LineTerminator characters |
| Text.IsPySpace | python/nlpService.py:107 | the characters `str.split()` separates on |
| Text.IsWordChar | app/api/upload/route.ts:137 | `\w` without the `u` flag: ASCII letters, digits and the underscore |
| Text.ContainsAny | app/api/upload/route.ts:216 | `some(k => s.includes(k))`: one of the substrings occurs in the text |
| Text.SpacesToUnderscores | python/nlpService.py:70 | `replace(" ", "_")`: every space becomes an underscore, nothing else changes |
| Text.Trim | app/api/upload/route.ts:253 | `trim()`: leading and trailing JavaScript whitespace removed |
| Text.Contains | app/api/upload/route.ts:166 | `includes`: some position of the text starts with the substring |
| Text.CountChar | app/api/upload/route.ts:173 | the number of occurrences of a character, the length of `match(/!/g)` for '!' |
| Text.Utf16Length | app/api/upload/route.ts:48-49 | JavaScript's `length`: one code unit per character, two for characters outside the BMP |
| Text.Utf16LengthBmp | app/api/upload/route.ts:48-49 | for text without characters outside the BMP, `length` is the number of characters |
| Text.TrimmedEnds | app/api/upload/route.ts:253 | a trimmed text neither starts nor ends with whitespace, and trimming is idempotent |
| Text.TrimEmpty | app/api/upload/route.ts:253 | a text trims to empty iff it is all whitespace |
| Text.SplitJs | app/api/upload/route.ts:134 | split(/\s+/) always yields at least one token |
| Text.SplitJsJoin | app/api/upload/route.ts:134 | splitting words joined by single spaces gives the words back |
| Text.StripNonWord | app/api/upload/route.ts:137 | `replace(/[^\w]/g, '')`: the token's word characters, in order |
| Text.StripNonWordChars | app/api/upload/route.ts:137 | stripping leaves only word characters |
| Text.StripNonWordOfWord | app/api/upload/route.ts:137 | a token of word characters is unchanged by stripping |
| Text.CountCharToLower | app/api/upload/route.ts:173 | lower-casing does not change the number of '!' or any other non-letter |
| Text.SplitPy | python/nlpService.py:107 | `str.split()`: the maximal runs of non-whitespace, in order |
| Text.JoinSpace | python/nlpService.py:108 | `" ".join`: the words separated by single spaces |
| Text.SplitPyWords | python/nlpService.py:107 | str.split yields non-empty words free of whitespace |
| Text.SplitPyJoin | python/nlpService.py:107-108 | str.split undoes " ".join on such words |

## Left out

- The HTTP layer and I/O are not modelled: `POST`, file upload, spreadsheet parsing, JSON responses and logging.
- The `fetch` call is not modelled. Its outcome is a parameter of the model.
- The 100 ms pause between requests is not modelled, because timing has no effect on the result.
- The Python service's script body is left out: reading stdin or argv, printing JSON, and the catch-all error output. So are the loading of the transformers pipelines and the model inference. The pipelines' answers are parameters: a label or nothing.
- The `candidate_labels` list passed to the zero-shot pipeline is left out, because it only steers the external model.
- `Text.ToLower`: maps only ASCII A-Z. JavaScript's `toLowerCase` and Python's `lower` use full Unicode case mapping.
- `Lexicon.KeywordAnalysis`: scores are exact reals, not IEEE doubles. Rounding in the 1.2 and 0.1 multipliers, in the ratios and in the 0.15 margin is not modelled.
- `Classifier.RequestInput`: counts characters, not UTF-16 code units. For characters outside the BMP, `substring(0, 500)` can differ.
- `Classifier.AnalyzeSentiment`: the pairs in a reply are modelled with a string label and a numeric score. A reply with a pair that lacks a label or a score cannot be represented, so it is left out. In JavaScript such a reply does not always fail. `undefined > x` is false, and reduce never calls its comparator on a one-element array, so `[[{label: "POSITIVE"}]]` yields positive with an undefined score. A missing label throws only if that pair is chosen, and the throw falls back to the lexicon scorer.
- `Columns.DetectedColumn`: `None` stands for both of the source's empty answers. With no rows the function returns `null`. With a first row that has no keys, `columns[0]` is `undefined` and so is the result, although the declared type is `string | null`. The caller only tests `!feedbackColumn`, which treats both alike, so the model does not tell them apart.
- `Columns.DetectedColumn`: cells are strings. `String(row[col] || '')` on numbers, booleans and dates is not modelled. A row's column order is a given sequence, so the JavaScript rule that integer-like keys come first in `Object.keys` is not modelled.
- `Suggestions.Advised`: looks up the seven advice keys only. JavaScript would also find inherited properties of a plain object, such as `constructor`. Issue names come only from the seven categories (`Issues.ReportedAreCategories`), so this never matters in the pipeline.
- `Issues.ExtractIssues`: the counts object is an insertion-ordered list. The category names are not integer-like, so this matches the order of `Object.entries`.
