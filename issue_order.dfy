/**
 * The order in which `extractIssues` (app/api/upload/route.ts) reports
 * categories with equal counts. The tally is a plain object, so its keys come
 * out in insertion order: a category enters when the first negative record
 * that hits it is counted, and the categories one record enters come in
 * declaration order. The stable sort then keeps that order among equal counts.
 */
module IssueOrder {
  import opened Text
  import opened Feedback
  import opened Ranking
  import opened Issues

  /** The position of the first of the first `n` negative records that hits
      category `c`, or `n` when none of them does. */
  function FirstCounted(negs: seq<FeedbackRecord>, n: nat, c: nat): (f: nat)
    requires n <= |negs| && c < |Categories|
    ensures f <= n
    ensures f < n ==> Hits(ToLower(negs[f].text), c)
    ensures forall k :: 0 <= k < f ==> !Hits(ToLower(negs[k].text), c)
  {
    if n == 0 then 0
    else
      var f := FirstCounted(negs, n - 1, c);
      if f < n - 1 then f
      else if Hits(ToLower(negs[n - 1].text), c) then n - 1
      else n
  }

  /** Category `c` entered the tally of the first `n` negative records before
      category `d`: through an earlier record, or through the same record and
      an earlier place in `issueKeywords`. */
  predicate CountedBefore(negs: seq<FeedbackRecord>, n: nat, c: nat, d: nat)
    requires n <= |negs| && c < |Categories| && d < |Categories|
  {
    FirstCounted(negs, n, c) < FirstCounted(negs, n, d)
    || (FirstCounted(negs, n, c) == FirstCounted(negs, n, d) && c < d)
  }

  /** The category names that the category loop over one text appends to the
      keys `seen`, after the first `m` categories. */
  function NewKeys(seen: seq<string>, lowerText: string, m: nat): seq<string>
    requires m <= |Categories|
  {
    if m == 0 then []
    else
      var prev := NewKeys(seen, lowerText, m - 1);
      var name := Categories[m - 1].name;
      if Hits(lowerText, m - 1) && name !in seen && name !in prev then prev + [name] else prev
  }

  /** Equal category names are the same category. */
  lemma NameInjective(c: nat, d: nat)
    requires c < |Categories| && d < |Categories|
    requires Categories[c].name == Categories[d].name
    ensures c == d
  {
    if c < d { CategoryNamesDistinct(c, d); }
    if d < c { CategoryNamesDistinct(d, c); }
  }

  /** The loop over one text keeps the old keys in place and appends the
      categories it hits for the first time, in declaration order. */
  lemma {:induction false} TallyTextKeys(counts: seq<IssueTally>, lowerText: string, m: nat)
    requires m <= |Categories|
    ensures Keys(TallyText(counts, lowerText, m)) == Keys(counts) + NewKeys(Keys(counts), lowerText, m)
  {
    if m > 0 {
      var before := TallyText(counts, lowerText, m - 1);
      var prev := NewKeys(Keys(counts), lowerText, m - 1);
      var name := Categories[m - 1].name;
      TallyTextKeys(counts, lowerText, m - 1);
      assert Keys(before) == Keys(counts) + prev;
      if Hits(lowerText, m - 1) {
        BumpKeys(before, name);
        assert name in Keys(before) <==> name in Keys(counts) || name in prev;
      }
    }
  }

  /** A newly appended key is not among the old keys. */
  lemma {:induction false} NewKeysFresh(seen: seq<string>, lowerText: string, m: nat, x: string)
    requires m <= |Categories|
    requires x in NewKeys(seen, lowerText, m)
    ensures x !in seen
  {
    if m > 0 && x in NewKeys(seen, lowerText, m - 1) {
      NewKeysFresh(seen, lowerText, m - 1, x);
    }
  }

  /** A newly appended key names one of the first `m` categories. */
  lemma {:induction false} NewKeysBelow(seen: seq<string>, lowerText: string, m: nat, c: nat)
    requires m <= |Categories| && c < |Categories|
    requires Categories[c].name in NewKeys(seen, lowerText, m)
    ensures c < m
  {
    if Categories[c].name in NewKeys(seen, lowerText, m - 1) {
      NewKeysBelow(seen, lowerText, m - 1, c);
    } else {
      NameInjective(c, m - 1);
    }
  }

  /** The keys one text appends come in declaration order. */
  lemma {:induction false} NewKeysOrder(seen: seq<string>, lowerText: string, m: nat, c: nat, d: nat, p: nat, q: nat)
    requires m <= |Categories| && c < d < |Categories|
    requires p < |NewKeys(seen, lowerText, m)| && q < |NewKeys(seen, lowerText, m)|
    requires NewKeys(seen, lowerText, m)[p] == Categories[c].name
    requires NewKeys(seen, lowerText, m)[q] == Categories[d].name
    ensures p < q
  {
    var prev := NewKeys(seen, lowerText, m - 1);
    var len := |prev|;
    if p < len && q < len {
      NewKeysOrder(seen, lowerText, m - 1, c, d, p, q);
    } else if p >= len {
      assert Categories[c].name == Categories[m - 1].name;
      NameInjective(c, m - 1);
      if q < len {
        assert prev[q] == Categories[d].name;
        NewKeysBelow(seen, lowerText, m - 1, d);
      } else {
        CategoryNamesDistinct(c, d);
      }
    }
  }

  /** A category is a key of the tally exactly when some counted record hits it. */
  lemma {:induction false} FirstCountedHits(negs: seq<FeedbackRecord>, n: nat, c: nat)
    requires n <= |negs| && c < |Categories|
    ensures FirstCounted(negs, n, c) < n <==> HitCount(negs, n, c) >= 1
  {
    if n > 0 { FirstCountedHits(negs, n - 1, c); }
  }

  /** Category `c` is a key of the tally of the first `n` negative records
      exactly when one of them hits it. */
  lemma KeyWhenCounted(negs: seq<FeedbackRecord>, n: nat, c: nat)
    requires n <= |negs| && c < |Categories|
    ensures Categories[c].name in Keys(TallyAll(negs, n)) <==> FirstCounted(negs, n, c) < n
  {
    var r := TallyAll(negs, n);
    TallyAllCount(negs, n, c);
    TallyAllShape(negs, n);
    FirstCountedHits(negs, n, c);
    if Categories[c].name in Keys(r) {
      var i :| 0 <= i < |r| && Keys(r)[i] == Categories[c].name;
      CountOfEntry(r, i);
    }
    if HitCount(negs, n, c) >= 1 {
      CountedIsKey(r, Categories[c].name);
    }
  }

  /** The tally after `n` records keeps the keys after `n - 1` records and
      appends the ones the `n`-th record enters. */
  lemma TallyAllKeys(negs: seq<FeedbackRecord>, n: nat)
    requires 0 < n <= |negs|
    ensures var prev := TallyAll(negs, n - 1);
      Keys(TallyAll(negs, n)) == Keys(prev) + NewKeys(Keys(prev), ToLower(negs[n - 1].text), |Categories|)
  {
    TallyTextKeys(TallyAll(negs, n - 1), ToLower(negs[n - 1].text), |Categories|);
  }

  /** A key already present after `n - 1` records stays where it was. */
  lemma OldKey(negs: seq<FeedbackRecord>, n: nat, c: nat, i: nat)
    requires 0 < n <= |negs| && c < |Categories|
    requires i < |TallyAll(negs, n - 1)| && i < |TallyAll(negs, n)|
    requires TallyAll(negs, n)[i].issue == Categories[c].name
    ensures TallyAll(negs, n - 1)[i].issue == Categories[c].name
    ensures FirstCounted(negs, n, c) == FirstCounted(negs, n - 1, c) < n - 1
  {
    var prev := TallyAll(negs, n - 1);
    TallyAllKeys(negs, n);
    assert Keys(prev)[i] == Keys(TallyAll(negs, n))[i];
    KeyWhenCounted(negs, n - 1, c);
  }

  /** A key past the old keys is one of the appended ones. */
  lemma AppendedKey(kept: seq<string>, added: seq<string>, keys: seq<string>, i: nat)
    requires keys == kept + added && |kept| <= i < |keys|
    ensures i - |kept| < |added| && added[i - |kept|] == keys[i]
  {
  }

  /** A key that the loop over one text appends sits among the new keys. */
  lemma NewKeyInText(counts: seq<IssueTally>, lowerText: string, m: nat, c: nat, i: nat)
    requires m <= |Categories| && c < |Categories|
    requires |counts| <= i < |TallyText(counts, lowerText, m)|
    requires TallyText(counts, lowerText, m)[i].issue == Categories[c].name
    ensures var added := NewKeys(Keys(counts), lowerText, m);
      i - |counts| < |added| && added[i - |counts|] == Categories[c].name
  {
    var keys := Keys(TallyText(counts, lowerText, m));
    TallyTextKeys(counts, lowerText, m);
    AppendedKey(Keys(counts), NewKeys(Keys(counts), lowerText, m), keys, i);
  }

  /** A key appended by the `n`-th record sits among the appended keys. */
  lemma NewKey(negs: seq<FeedbackRecord>, n: nat, c: nat, i: nat)
    requires 0 < n <= |negs| && c < |Categories|
    requires |TallyAll(negs, n - 1)| <= i < |TallyAll(negs, n)|
    requires TallyAll(negs, n)[i].issue == Categories[c].name
    ensures var prev := TallyAll(negs, n - 1);
      var added := NewKeys(Keys(prev), ToLower(negs[n - 1].text), |Categories|);
      i - |prev| < |added| && added[i - |prev|] == Categories[c].name
  {
    NewKeyInText(TallyAll(negs, n - 1), ToLower(negs[n - 1].text), |Categories|, c, i);
  }

  /** A key appended by the `n`-th record names a category that record is
      the first to hit. */
  lemma NewKeyFirst(negs: seq<FeedbackRecord>, n: nat, c: nat, i: nat)
    requires 0 < n <= |negs| && c < |Categories|
    requires |TallyAll(negs, n - 1)| <= i < |TallyAll(negs, n)|
    requires TallyAll(negs, n)[i].issue == Categories[c].name
    ensures FirstCounted(negs, n, c) == n - 1
  {
    var kept := Keys(TallyAll(negs, n - 1));
    NewKey(negs, n, c, i);
    NewKeysFresh(kept, ToLower(negs[n - 1].text), |Categories|, Categories[c].name);
    UncountedNotKey(negs, n - 1, c);
    KeyCounted(negs, n, c, i);
  }

  /** A category that is not a key has not been counted. */
  lemma UncountedNotKey(negs: seq<FeedbackRecord>, n: nat, c: nat)
    requires n <= |negs| && c < |Categories|
    requires Categories[c].name !in Keys(TallyAll(negs, n))
    ensures FirstCounted(negs, n, c) == n
  {
    KeyWhenCounted(negs, n, c);
  }

  /** The category at a key has been counted. */
  lemma KeyCounted(negs: seq<FeedbackRecord>, n: nat, c: nat, i: nat)
    requires n <= |negs| && c < |Categories|
    requires i < |TallyAll(negs, n)| && TallyAll(negs, n)[i].issue == Categories[c].name
    ensures FirstCounted(negs, n, c) < n
  {
    assert Keys(TallyAll(negs, n))[i] == Categories[c].name;
    KeyWhenCounted(negs, n, c);
  }

  /** The tally's keys follow the order in which the categories were first
      counted: of two keys, the one whose category entered first comes first. */
  lemma {:induction false} TallyAllOrder(negs: seq<FeedbackRecord>, n: nat, c: nat, d: nat, i: nat, j: nat)
    requires n <= |negs| && c < |Categories| && d < |Categories|
    requires i < |TallyAll(negs, n)| && j < |TallyAll(negs, n)|
    requires TallyAll(negs, n)[i].issue == Categories[c].name
    requires TallyAll(negs, n)[j].issue == Categories[d].name
    requires CountedBefore(negs, n, c, d)
    ensures i < j
  {
    var len := |TallyAll(negs, n - 1)|;
    if i < len && j < len {
      OldKey(negs, n, c, i);
      OldKey(negs, n, d, j);
      TallyAllOrder(negs, n - 1, c, d, i, j);
    } else if i >= len {
      NewKey(negs, n, c, i);
      NewKeyFirst(negs, n, c, i);
      if j < len {
        OldKey(negs, n, d, j);
        assert false;
      }
      NewKey(negs, n, d, j);
      NewKeyFirst(negs, n, d, j);
      NewKeysOrder(Keys(TallyAll(negs, n - 1)), ToLower(negs[n - 1].text), |Categories|, c, d, i - len, j - len);
    }
  }

  /** Of two reported issues with equal counts, the one whose category entered
      the tally first is reported first. */
  lemma TiesKeepCountingOrder(fs: seq<FeedbackRecord>, c: nat, d: nat, i: nat, j: nat)
    requires c < |Categories| && d < |Categories|
    requires i < |TopIssues(fs)| && j < |TopIssues(fs)|
    requires TopIssues(fs)[i].issue == Categories[c].name
    requires TopIssues(fs)[j].issue == Categories[d].name
    requires TopIssues(fs)[i].count == TopIssues(fs)[j].count
    requires CountedBefore(Negatives(fs), |Negatives(fs)|, c, d)
    ensures i < j
  {
    var negs := Negatives(fs);
    var t := TallyAll(negs, |negs|);
    var s := SortDesc(t);
    TakeAt(s, TopLimit, i);
    TakeAt(s, TopLimit, j);
    SortDescMultiset(t);
    assert s[i] in multiset(t) && s[j] in multiset(t);
    var a :| 0 <= a < |t| && t[a] == s[i];
    var b :| 0 <= b < |t| && t[b] == s[j];
    TallyAllOrder(negs, |negs|, c, d, a, b);
    TallyAllShape(negs, |negs|);
    SortDescKeepsTieOrder(t, a, b, i, j);
  }

  /** When the first negative record hits Pricing but not Customer Service,
      a tie between the two ranks Pricing first, although Customer Service is
      declared first. */
  lemma PricingBeforeService(fs: seq<FeedbackRecord>, i: nat, j: nat)
    requires Negatives(fs) != []
    requires Hits(ToLower(Negatives(fs)[0].text), 3) && !Hits(ToLower(Negatives(fs)[0].text), 0)
    requires i < |TopIssues(fs)| && j < |TopIssues(fs)|
    requires TopIssues(fs)[i].issue == "Pricing" && TopIssues(fs)[j].issue == "Customer Service"
    requires TopIssues(fs)[i].count == TopIssues(fs)[j].count
    ensures i < j
  {
    var negs := Negatives(fs);
    assert FirstCounted(negs, |negs|, 3) == 0;
    assert FirstCounted(negs, |negs|, 0) > 0;
    TiesKeepCountingOrder(fs, 3, 0, i, j);
  }
}
