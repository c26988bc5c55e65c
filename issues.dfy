/**
 * `extractIssues` (app/api/upload/route.ts): counting negative records per
 * issue category, then ranking the categories.
 */
module Issues {
  import opened Text
  import opened Feedback
  import opened Ranking

  /** One entry of `issueKeywords`: a category and the substrings that signal it. */
  datatype Category = Category(name: string, keywords: seq<string>)

  /** `issueKeywords`, in declaration order. */
  const Categories: seq<Category> := [
    Category("Customer Service", ["service", "staff", "support", "employee", "representative", "help", "rude", "unhelpful", "customer", "agent"]),
    Category("Product Quality", ["quality", "broken", "defective", "damaged", "poor", "cheap", "faulty", "durability", "materials"]),
    Category("Delivery & Shipping", ["delivery", "shipping", "late", "delayed", "arrive", "received", "package", "tracking", "carrier"]),
    Category("Pricing", ["price", "expensive", "cost", "overpriced", "value", "money", "refund", "charge"]),
    Category("User Experience", ["difficult", "confusing", "complicated", "hard", "interface", "use", "navigate", "unintuitive"]),
    Category("Performance", ["slow", "crash", "bug", "error", "freeze", "lag", "glitch", "loading", "speed"]),
    Category("Features", ["missing", "lack", "limited", "feature", "functionality", "options", "capability"])]

  /** How many ranked categories are reported. */
  const TopLimit: nat := 5

  /** `feedbacks.filter(f => f.sentiment === 'negative')`. */
  function Negatives(fs: seq<FeedbackRecord>): (r: seq<FeedbackRecord>)
    ensures |r| <= |fs|
    ensures forall i :: 0 <= i < |r| ==> r[i].sentiment == Negative
  {
    if fs == [] then []
    else (if fs[0].sentiment == Negative then [fs[0]] else []) + Negatives(fs[1..])
  }

  /** The lower-cased text contains one of category `c`'s keywords. */
  predicate Hits(lowerText: string, c: nat)
    requires c < |Categories|
  {
    ContainsAny(lowerText, Categories[c].keywords)
  }

  /** `issueCounts[issue] = (issueCounts[issue] || 0) + 1` on the object's
      entries in insertion order: an existing key is incremented in place, a
      new key is appended with count 1. */
  function Bump(counts: seq<IssueTally>, issue: string): (r: seq<IssueTally>)
    ensures |r| == |counts| || |r| == |counts| + 1
  {
    if counts == [] then [IssueTally(issue, 1)]
    else if counts[0].issue == issue then [IssueTally(issue, counts[0].count + 1)] + counts[1..]
    else [counts[0]] + Bump(counts[1..], issue)
  }

  /** The value stored under `issue`, or 0 when absent. */
  function CountOf(counts: seq<IssueTally>, issue: string): nat {
    if counts == [] then 0
    else if counts[0].issue == issue then counts[0].count
    else CountOf(counts[1..], issue)
  }

  /** The keys in insertion order. */
  function Keys(counts: seq<IssueTally>): (ks: seq<string>)
    ensures |ks| == |counts|
    ensures forall i :: 0 <= i < |counts| ==> ks[i] == counts[i].issue
  {
    if counts == [] then [] else [counts[0].issue] + Keys(counts[1..])
  }

  /** The counts after the category loop has seen the first `n` categories
      for one lower-cased text. */
  function TallyText(counts: seq<IssueTally>, lowerText: string, n: nat): seq<IssueTally>
    requires n <= |Categories|
  {
    if n == 0 then counts
    else
      var before := TallyText(counts, lowerText, n - 1);
      if Hits(lowerText, n - 1) then Bump(before, Categories[n - 1].name) else before
  }

  /** The counts after the first `n` negative records. */
  function TallyAll(negs: seq<FeedbackRecord>, n: nat): seq<IssueTally>
    requires n <= |negs|
  {
    if n == 0 then [] else TallyText(TallyAll(negs, n - 1), ToLower(negs[n - 1].text), |Categories|)
  }

  /** What `extractIssues` returns. */
  function TopIssues(fs: seq<FeedbackRecord>): seq<IssueTally> {
    var negs := Negatives(fs);
    Take(SortDesc(TallyAll(negs, |negs|)), TopLimit)
  }

  /** `extractIssues`: the counting loops update `issueCounts` in place; the
      entries are then sorted by descending count and cut to five. */
  method ExtractIssues(feedbacks: seq<FeedbackRecord>) returns (top: seq<IssueTally>)
    ensures top == TopIssues(feedbacks)
  {
    var negativeFeedbacks := Negatives(feedbacks);
    var issueCounts: seq<IssueTally> := [];
    for i := 0 to |negativeFeedbacks|
      invariant issueCounts == TallyAll(negativeFeedbacks, i)
    {
      var lowerText := ToLower(negativeFeedbacks[i].text);
      for c := 0 to |Categories|
        invariant issueCounts == TallyText(TallyAll(negativeFeedbacks, i), lowerText, c)
      {
        if ContainsAny(lowerText, Categories[c].keywords) {
          issueCounts := Bump(issueCounts, Categories[c].name);
        }
      }
    }
    top := Take(SortDesc(issueCounts), TopLimit);
  }

  /** Every stored count is at least one. */
  predicate AllCounted(counts: seq<IssueTally>) {
    forall i :: 0 <= i < |counts| ==> counts[i].count >= 1
  }

  /** The number of the first `n` negative records that hit category `c`. */
  function HitCount(negs: seq<FeedbackRecord>, n: nat, c: nat): (k: nat)
    requires n <= |negs| && c < |Categories|
    ensures k <= n
  {
    if n == 0 then 0
    else HitCount(negs, n - 1, c) + (if Hits(ToLower(negs[n - 1].text), c) then 1 else 0)
  }

  /** Bumping a key adds one to its value and leaves every other value alone. */
  lemma {:induction false} BumpCount(counts: seq<IssueTally>, issue: string, other: string)
    ensures CountOf(Bump(counts, issue), other) == CountOf(counts, other) + (if issue == other then 1 else 0)
  {
    if counts != [] && counts[0].issue != issue {
      BumpCount(counts[1..], issue, other);
    }
  }

  /** A key keeps its place; a new key goes to the end. */
  lemma {:induction false} BumpKeys(counts: seq<IssueTally>, issue: string)
    ensures Keys(Bump(counts, issue)) == if issue in Keys(counts) then Keys(counts) else Keys(counts) + [issue]
  {
    if counts != [] && counts[0].issue != issue {
      BumpKeys(counts[1..], issue);
      assert Keys(counts) == [counts[0].issue] + Keys(counts[1..]);
      assert issue in Keys(counts) <==> issue in Keys(counts[1..]);
    }
  }

  /** Bumping keeps the keys distinct and every count at least one. */
  lemma BumpShape(counts: seq<IssueTally>, issue: string)
    requires DistinctKeys(counts) && AllCounted(counts)
    ensures DistinctKeys(Bump(counts, issue)) && AllCounted(Bump(counts, issue))
  {
    var r := Bump(counts, issue);
    BumpKeys(counts, issue);
    assert Keys(r) == Keys(counts) || Keys(r) == Keys(counts) + [issue];
    forall i | 0 <= i < |r| ensures r[i].count >= 1 {
      BumpEntry(counts, issue, i);
    }
    forall i, j | 0 <= i < j < |r| ensures r[i].issue != r[j].issue {
      assert Keys(r)[i] == r[i].issue && Keys(r)[j] == r[j].issue;
      if j == |counts| {
        assert issue !in Keys(counts);
        assert Keys(counts)[i] == counts[i].issue;
      } else {
        assert Keys(counts)[i] == counts[i].issue && Keys(counts)[j] == counts[j].issue;
      }
    }
  }

  /** Each entry after a bump is an old entry or a count of at least one. */
  lemma {:induction false} BumpEntry(counts: seq<IssueTally>, issue: string, i: nat)
    requires AllCounted(counts)
    requires i < |Bump(counts, issue)|
    ensures Bump(counts, issue)[i].count >= 1
  {
    if counts != [] && counts[0].issue != issue && i > 0 {
      BumpEntry(counts[1..], issue, i - 1);
    }
  }

  /** With distinct keys, the value stored under an entry's key is its count. */
  lemma {:induction false} CountOfEntry(counts: seq<IssueTally>, i: nat)
    requires DistinctKeys(counts) && i < |counts|
    ensures CountOf(counts, counts[i].issue) == counts[i].count
  {
    if i > 0 {
      assert counts[0].issue != counts[i].issue;
      CountOfEntry(counts[1..], i - 1);
    }
  }

  /** A key with a nonzero value is present. */
  lemma {:induction false} CountedIsKey(counts: seq<IssueTally>, issue: string)
    requires CountOf(counts, issue) > 0
    ensures exists i :: 0 <= i < |counts| && counts[i].issue == issue
  {
    if counts[0].issue != issue {
      CountedIsKey(counts[1..], issue);
      var i :| 0 <= i < |counts[1..]| && counts[1..][i].issue == issue;
      assert counts[i + 1].issue == issue;
    }
  }

  /** The seven category names differ. */
  lemma CategoryNamesDistinct(c: nat, d: nat)
    requires c < d < |Categories|
    ensures Categories[c].name != Categories[d].name
  {
    assert Categories[c].name[0] != Categories[d].name[0] || |Categories[c].name| != |Categories[d].name|;
  }

  /** One text adds one to the count of each category it hits. */
  lemma {:induction false} TallyTextCount(counts: seq<IssueTally>, lowerText: string, n: nat, c: nat)
    requires n <= |Categories| && c < |Categories|
    ensures CountOf(TallyText(counts, lowerText, n), Categories[c].name)
            == CountOf(counts, Categories[c].name) + (if c < n && Hits(lowerText, c) then 1 else 0)
  {
    if n > 0 {
      TallyTextCount(counts, lowerText, n - 1, c);
      if Hits(lowerText, n - 1) {
        BumpCount(TallyText(counts, lowerText, n - 1), Categories[n - 1].name, Categories[c].name);
        if c < n - 1 {
          CategoryNamesDistinct(c, n - 1);
        }
      }
    }
  }

  /** Every key the category loop adds is a category name. */
  lemma {:induction false} TallyTextShape(counts: seq<IssueTally>, lowerText: string, n: nat)
    requires n <= |Categories|
    requires DistinctKeys(counts) && AllCounted(counts)
    requires forall i :: 0 <= i < |counts| ==> counts[i].issue in CategoryNames()
    ensures var r := TallyText(counts, lowerText, n);
      DistinctKeys(r) && AllCounted(r) && forall i :: 0 <= i < |r| ==> r[i].issue in CategoryNames()
  {
    if n > 0 {
      TallyTextShape(counts, lowerText, n - 1);
      var before := TallyText(counts, lowerText, n - 1);
      if Hits(lowerText, n - 1) {
        BumpShape(before, Categories[n - 1].name);
        var r := Bump(before, Categories[n - 1].name);
        BumpKeys(before, Categories[n - 1].name);
        forall i | 0 <= i < |r| ensures r[i].issue in CategoryNames() {
          assert Keys(r)[i] == r[i].issue;
          if i < |before| {
            assert Keys(before)[i] == before[i].issue;
          }
        }
      }
    }
  }

  /** The names of the categories. */
  function CategoryNames(): (ns: set<string>)
    ensures forall c :: 0 <= c < |Categories| ==> Categories[c].name in ns
  {
    set c | 0 <= c < |Categories| :: Categories[c].name
  }

  /** The count stored for each category is the number of negative records
      whose lower-cased text contains one of its keywords. */
  lemma {:induction false} TallyAllCount(negs: seq<FeedbackRecord>, n: nat, c: nat)
    requires n <= |negs| && c < |Categories|
    ensures CountOf(TallyAll(negs, n), Categories[c].name) == HitCount(negs, n, c)
  {
    if n > 0 {
      TallyAllCount(negs, n - 1, c);
      TallyTextCount(TallyAll(negs, n - 1), ToLower(negs[n - 1].text), |Categories|, c);
    }
  }

  /** The counted entries have distinct category names and positive counts. */
  lemma {:induction false} TallyAllShape(negs: seq<FeedbackRecord>, n: nat)
    requires n <= |negs|
    ensures var r := TallyAll(negs, n);
      DistinctKeys(r) && AllCounted(r) && forall i :: 0 <= i < |r| ==> r[i].issue in CategoryNames()
  {
    if n > 0 {
      TallyAllShape(negs, n - 1);
      TallyTextShape(TallyAll(negs, n - 1), ToLower(negs[n - 1].text), |Categories|);
    }
  }

  /** `e` names a category and holds the number of `negs` that hit it, at
      least one. */
  predicate CountsCategory(e: IssueTally, negs: seq<FeedbackRecord>) {
    exists c :: 0 <= c < |Categories| && e.issue == Categories[c].name && e.count == HitCount(negs, |negs|, c) && e.count >= 1
  }

  /** Each reported entry is a category with its number of hitting negative
      records, at least one; the report is descending and has at most five
      entries. */
  lemma TopIssuesSound(fs: seq<FeedbackRecord>)
    ensures var r := TopIssues(fs);
      var negs := Negatives(fs);
      |r| <= TopLimit && SortedDesc(r) && forall i :: 0 <= i < |r| ==> CountsCategory(r[i], negs)
  {
    var negs := Negatives(fs);
    var t := TallyAll(negs, |negs|);
    var sorted := SortDesc(t);
    var r := TopIssues(fs);
    SortDescSorted(t);
    TallyAllShape(negs, |negs|);
    forall i | 0 <= i < |r| ensures CountsCategory(r[i], negs) {
      assert r[i] == sorted[i];
      SortDescMultiset(t);
      assert sorted[i] in multiset(t);
      var j :| 0 <= j < |t| && t[j] == sorted[i];
      var c :| 0 <= c < |Categories| && Categories[c].name == t[j].issue;
      CountOfEntry(t, j);
      TallyAllCount(negs, |negs|, c);
    }
  }

  /** A category hit by some negative record but not reported is outranked:
      five entries are reported, each with at least as many hits. */
  lemma TopIssuesComplete(fs: seq<FeedbackRecord>, c: nat)
    requires c < |Categories|
    requires HitCount(Negatives(fs), |Negatives(fs)|, c) >= 1
    requires forall i :: 0 <= i < |TopIssues(fs)| ==> TopIssues(fs)[i].issue != Categories[c].name
    ensures |TopIssues(fs)| == TopLimit
    ensures forall i :: 0 <= i < TopLimit ==> TopIssues(fs)[i].count >= HitCount(Negatives(fs), |Negatives(fs)|, c)
  {
    var negs := Negatives(fs);
    var t := TallyAll(negs, |negs|);
    var sorted := SortDesc(t);
    var j := CategoryEntry(negs, c);
    SortDescMultiset(t);
    assert t[j] in multiset(sorted);
    var k :| 0 <= k < |sorted| && sorted[k] == t[j];
    SortDescSorted(t);
    assert TopIssues(fs) == Take(sorted, TopLimit);
    assert sorted[k].issue == Categories[c].name;
    TakeOutranks(sorted, TopLimit, k);
  }

  /** A category hit by some negative record has an entry holding its count. */
  lemma CategoryEntry(negs: seq<FeedbackRecord>, c: nat) returns (j: nat)
    requires c < |Categories|
    requires HitCount(negs, |negs|, c) >= 1
    ensures j < |TallyAll(negs, |negs|)|
    ensures TallyAll(negs, |negs|)[j] == IssueTally(Categories[c].name, HitCount(negs, |negs|, c))
  {
    var t := TallyAll(negs, |negs|);
    TallyAllCount(negs, |negs|, c);
    TallyAllShape(negs, |negs|);
    CountedIsKey(t, Categories[c].name);
    j :| 0 <= j < |t| && t[j].issue == Categories[c].name;
    CountOfEntry(t, j);
  }

  /** A record is kept by the filter exactly when it is negative. */
  lemma {:induction false} NegativesMembers(fs: seq<FeedbackRecord>, x: FeedbackRecord)
    ensures x in Negatives(fs) <==> x in fs && x.sentiment == Negative
  {
    if fs != [] {
      NegativesMembers(fs[1..], x);
      assert fs == [fs[0]] + fs[1..];
    }
  }

  /** Filtering twice is filtering once. */
  lemma {:induction false} NegativesIdempotent(fs: seq<FeedbackRecord>)
    ensures Negatives(Negatives(fs)) == Negatives(fs)
  {
    if fs != [] {
      NegativesIdempotent(fs[1..]);
      var head: seq<FeedbackRecord> := if fs[0].sentiment == Negative then [fs[0]] else [];
      NegativesAppend(head, Negatives(fs[1..]));
      if head != [] {
        assert Negatives(head) == head by {
          assert head[1..] == [];
        }
      }
    }
  }

  /** The filter distributes over concatenation. */
  lemma {:induction false} NegativesAppend(a: seq<FeedbackRecord>, b: seq<FeedbackRecord>)
    ensures Negatives(a + b) == Negatives(a) + Negatives(b)
  {
    if a != [] {
      assert (a + b)[0] == a[0];
      assert (a + b)[1..] == a[1..] + b;
      NegativesAppend(a[1..], b);
    } else {
      assert a + b == b;
    }
  }

  /** Only negative records matter: the report on the negative records alone
      is the report on all of them. */
  lemma OnlyNegativesCount(fs: seq<FeedbackRecord>)
    ensures TopIssues(Negatives(fs)) == TopIssues(fs)
  {
    NegativesIdempotent(fs);
  }

  /** Every reported issue is a category name. */
  lemma ReportedAreCategories(fs: seq<FeedbackRecord>)
    ensures forall i :: 0 <= i < |TopIssues(fs)| ==> TopIssues(fs)[i].issue in CategoryNames()
  {
    TopIssuesSound(fs);
    forall i | 0 <= i < |TopIssues(fs)| ensures TopIssues(fs)[i].issue in CategoryNames() {
      assert CountsCategory(TopIssues(fs)[i], Negatives(fs));
    }
  }
}
