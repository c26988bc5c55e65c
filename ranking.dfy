/**
 * The ranking step at the end of `extractIssues` (app/api/upload/route.ts):
 * `sort((a, b) => b.count - a.count)`, a stable sort by descending count, then
 * `slice(0, 5)`.
 */
module Ranking {
  import opened Feedback

  /** Counts never increase along `s`. */
  predicate SortedDesc(s: seq<IssueTally>) {
    forall i, j :: 0 <= i < j < |s| ==> s[i].count >= s[j].count
  }

  /** Every key occurs once. */
  predicate DistinctKeys(counts: seq<IssueTally>) {
    forall i, j :: 0 <= i < j < |counts| ==> counts[i].issue != counts[j].issue
  }

  /** The entries of `s` with count `c`, in their order in `s`. */
  function WithCount(s: seq<IssueTally>, c: nat): seq<IssueTally> {
    if s == [] then []
    else (if s[0].count == c then [s[0]] else []) + WithCount(s[1..], c)
  }

  /** Places `x` in the descending sequence `s` after every entry whose count
      is at least `x.count`. */
  function Insert(x: IssueTally, s: seq<IssueTally>): (r: seq<IssueTally>)
    ensures |r| == |s| + 1
  {
    if s == [] then [x]
    else if s[0].count < x.count then [x] + s
    else [s[0]] + Insert(x, s[1..])
  }

  /** The stable descending sort: each entry is inserted after the entries
      before it that have the same count. */
  function SortDesc(s: seq<IssueTally>): (r: seq<IssueTally>)
    ensures |r| == |s|
  {
    if s == [] then [] else Insert(s[|s| - 1], SortDesc(s[..|s| - 1]))
  }

  /** Inserting adds exactly `x`. */
  lemma {:induction false} InsertMultiset(x: IssueTally, s: seq<IssueTally>)
    ensures multiset(Insert(x, s)) == multiset(s) + multiset{x}
  {
    if s != [] && s[0].count >= x.count {
      InsertMultiset(x, s[1..]);
      assert s == [s[0]] + s[1..];
    }
  }

  /** The sort is a permutation. */
  lemma {:induction false} SortDescMultiset(s: seq<IssueTally>)
    ensures multiset(SortDesc(s)) == multiset(s)
  {
    if s != [] {
      var init := s[..|s| - 1];
      var x := s[|s| - 1];
      assert SortDesc(s) == Insert(x, SortDesc(init));
      SortDescMultiset(init);
      InsertMultiset(x, SortDesc(init));
      assert s == init + [x];
      assert multiset(s) == multiset(init) + multiset{x};
    }
  }

  /** `slice(0, n)`. */
  function Take(s: seq<IssueTally>, n: nat): (r: seq<IssueTally>)
    ensures |r| == if |s| < n then |s| else n
    ensures r == s[..|r|]
  {
    if |s| <= n then s else s[..n]
  }

  /** Inserting into a descending sequence keeps it descending. */
  lemma {:induction false} InsertSorted(x: IssueTally, s: seq<IssueTally>)
    requires SortedDesc(s)
    ensures SortedDesc(Insert(x, s))
  {
    if s != [] && s[0].count >= x.count {
      InsertSorted(x, s[1..]);
      var t := Insert(x, s[1..]);
      InsertMultiset(x, s[1..]);
      assert multiset(t) == multiset(s[1..]) + multiset{x};
      forall j | 0 <= j < |t| ensures s[0].count >= t[j].count {
        assert t[j] in multiset(t);
        if t[j] != x {
          assert t[j] in multiset(s[1..]);
          var m :| 0 <= m < |s[1..]| && s[1..][m] == t[j];
          assert s[m + 1] == t[j];
        }
      }
    }
  }

  /** The sort yields a descending sequence. */
  lemma {:induction false} SortDescSorted(s: seq<IssueTally>)
    ensures SortedDesc(SortDesc(s))
  {
    if s != [] {
      SortDescSorted(s[..|s| - 1]);
      InsertSorted(s[|s| - 1], SortDesc(s[..|s| - 1]));
    }
  }

  /** Filtering by count distributes over an appended entry. */
  lemma {:induction false} WithCountSnoc(s: seq<IssueTally>, x: IssueTally, c: nat)
    ensures WithCount(s + [x], c) == WithCount(s, c) + (if x.count == c then [x] else [])
  {
    if s != [] {
      assert (s + [x])[1..] == s[1..] + [x];
      WithCountSnoc(s[1..], x, c);
    } else {
      assert [x][1..] == [];
    }
  }

  /** Nothing in a sequence whose counts are all below `c` has count `c`. */
  lemma {:induction false} WithCountBelow(s: seq<IssueTally>, c: nat)
    requires forall i :: 0 <= i < |s| ==> s[i].count < c
    ensures WithCount(s, c) == []
  {
    if s != [] { WithCountBelow(s[1..], c); }
  }

  /** Filtering by count on an entry followed by a sequence. */
  lemma WithCountCons(a: IssueTally, t: seq<IssueTally>, c: nat)
    ensures WithCount([a] + t, c) == (if a.count == c then [a] else []) + WithCount(t, c)
  {
    assert ([a] + t)[0] == a;
    assert ([a] + t)[1..] == t;
  }

  /** In a descending sequence, `x` lands after every entry with its count. */
  lemma {:induction false} InsertStable(x: IssueTally, s: seq<IssueTally>, c: nat)
    requires SortedDesc(s)
    ensures WithCount(Insert(x, s), c) == WithCount(s, c) + (if x.count == c then [x] else [])
    decreases |s|, 1
  {
    if s == [] {
      WithCountCons(x, [], c);
      assert [x] + [] == [x];
    } else if s[0].count < x.count {
      InsertAhead(x, s, c);
    } else {
      InsertBehind(x, s, c);
    }
  }

  /** `x` outranks the whole descending sequence. */
  lemma InsertAhead(x: IssueTally, s: seq<IssueTally>, c: nat)
    requires SortedDesc(s) && s != [] && s[0].count < x.count
    ensures WithCount([x] + s, c) == WithCount(s, c) + (if x.count == c then [x] else [])
  {
    WithCountCons(x, s, c);
    if x.count == c {
      forall i | 0 <= i < |s| ensures s[i].count < c {
        if i > 0 {
          assert s[0].count >= s[i].count;
        }
      }
      WithCountBelow(s, c);
    }
  }

  /** The tail of a descending sequence is descending. */
  lemma SortedTail(s: seq<IssueTally>)
    requires SortedDesc(s) && s != []
    ensures SortedDesc(s[1..])
  {
    forall i, j | 0 <= i < j < |s[1..]| ensures s[1..][i].count >= s[1..][j].count {
      assert s[1..][i] == s[i + 1] && s[1..][j] == s[j + 1];
    }
  }

  /** `x` goes behind the head of the descending sequence. */
  lemma {:induction false} InsertBehind(x: IssueTally, s: seq<IssueTally>, c: nat)
    requires SortedDesc(s) && s != [] && s[0].count >= x.count
    ensures WithCount(Insert(x, s), c) == WithCount(s, c) + (if x.count == c then [x] else [])
    decreases |s|, 0
  {
    var tail: seq<IssueTally> := if x.count == c then [x] else [];
    var head: seq<IssueTally> := if s[0].count == c then [s[0]] else [];
    var rest := Insert(x, s[1..]);
    assert Insert(x, s) == [s[0]] + rest;
    SortedTail(s);
    InsertStable(x, s[1..], c);
    WithCountCons(s[0], rest, c);
    WithCountCons(s[0], s[1..], c);
    assert [s[0]] + s[1..] == s;
  }

  /** The sort is stable: the entries with any given count keep their order. */
  lemma {:induction false} SortDescStable(s: seq<IssueTally>, c: nat)
    ensures WithCount(SortDesc(s), c) == WithCount(s, c)
  {
    if s != [] {
      var init := s[..|s| - 1];
      var x := s[|s| - 1];
      var tail: seq<IssueTally> := if x.count == c then [x] else [];
      var sorted := SortDesc(init);
      assert SortDesc(s) == Insert(x, sorted);
      assert WithCount(Insert(x, sorted), c) == WithCount(sorted, c) + tail by {
        SortDescSorted(init);
        InsertStable(x, sorted, c);
      }
      assert WithCount(sorted, c) == WithCount(init, c) by {
        SortDescStable(init, c);
      }
      assert WithCount(s, c) == WithCount(init, c) + tail by {
        assert init + [x] == s;
        WithCountSnoc(init, x, c);
      }
    }
  }

  /** An entry of a descending sequence that the cut leaves out is outranked
      by everything the cut keeps, and the cut is full. */
  lemma TakeOutranks(s: seq<IssueTally>, n: nat, k: nat)
    requires SortedDesc(s) && k < |s|
    requires forall i :: 0 <= i < |Take(s, n)| ==> Take(s, n)[i].issue != s[k].issue
    ensures |Take(s, n)| == n
    ensures forall i :: 0 <= i < n ==> Take(s, n)[i].count >= s[k].count
  {
    if k < n {
      TakeAt(s, n, k);
      assert false;
    }
  }

  /** The cut keeps the entries at the front. */
  lemma TakeAt(s: seq<IssueTally>, n: nat, i: nat)
    requires i < |Take(s, n)|
    ensures i < |s| && Take(s, n)[i] == s[i]
  {
  }

  /** Filtering by count distributes over concatenation. */
  lemma {:induction false} WithCountAppend(a: seq<IssueTally>, b: seq<IssueTally>, c: nat)
    ensures WithCount(a + b, c) == WithCount(a, c) + WithCount(b, c)
  {
    if a != [] {
      assert (a + b)[0] == a[0];
      assert (a + b)[1..] == a[1..] + b;
      WithCountAppend(a[1..], b, c);
    } else {
      assert a + b == b;
    }
  }

  /** How many entries before position `i` of `s` have count `c`. */
  function Rank(s: seq<IssueTally>, c: nat, i: nat): nat
    requires i <= |s|
  {
    |WithCount(s[..i], c)|
  }

  /** An entry with count `c` sits in the filtered sequence at its rank. */
  lemma WithCountAt(s: seq<IssueTally>, c: nat, i: nat)
    requires i < |s| && s[i].count == c
    ensures Rank(s, c, i) < |WithCount(s, c)| && WithCount(s, c)[Rank(s, c, i)] == s[i]
  {
    assert s == s[..i] + ([s[i]] + s[i + 1..]);
    WithCountAppend(s[..i], [s[i]] + s[i + 1..], c);
    WithCountCons(s[i], s[i + 1..], c);
  }

  /** An entry with count `c` comes before every later position in rank. */
  lemma RankBefore(s: seq<IssueTally>, c: nat, i: nat, j: nat)
    requires i < j <= |s| && s[i].count == c
    ensures Rank(s, c, i) < Rank(s, c, j)
  {
    assert s[..j] == s[..i] + ([s[i]] + s[i + 1..j]);
    WithCountAppend(s[..i], [s[i]] + s[i + 1..j], c);
    WithCountCons(s[i], s[i + 1..j], c);
  }

  /** Every entry kept by the filter comes from `s`. */
  lemma {:induction false} WithCountFrom(s: seq<IssueTally>, c: nat, k: nat)
    requires k < |WithCount(s, c)|
    ensures exists i :: 0 <= i < |s| && s[i] == WithCount(s, c)[k] && Rank(s, c, i) == k
  {
    assert s == [s[0]] + s[1..];
    WithCountCons(s[0], s[1..], c);
    if s[0].count == c && k == 0 {
      assert s[..0] == [];
      assert s[0] == WithCount(s, c)[k] && Rank(s, c, 0) == k;
    } else {
      var k' := if s[0].count == c then k - 1 else k;
      WithCountFrom(s[1..], c, k');
      var i :| 0 <= i < |s[1..]| && s[1..][i] == WithCount(s[1..], c)[k'] && Rank(s[1..], c, i) == k';
      assert s[..i + 1] == [s[0]] + s[1..][..i];
      WithCountCons(s[0], s[1..][..i], c);
      assert s[i + 1] == WithCount(s, c)[k] && Rank(s, c, i + 1) == k;
    }
  }

  /** Two entries of `s` with the same count, the first at `i` and the second
      at `j`, keep that order after the sort, when no key occurs twice. */
  lemma SortDescKeepsTieOrder(s: seq<IssueTally>, i: nat, j: nat, p: nat, q: nat)
    requires DistinctKeys(s) && i < j < |s| && s[i].count == s[j].count
    requires p < |SortDesc(s)| && q < |SortDesc(s)|
    requires SortDesc(s)[p] == s[i] && SortDesc(s)[q] == s[j]
    ensures p < q
  {
    var c := s[i].count;
    var r := SortDesc(s);
    SortDescStable(s, c);
    WithCountAt(s, c, i);
    WithCountAt(s, c, j);
    RankBefore(s, c, i, j);
    WithCountAt(r, c, p);
    WithCountAt(r, c, q);
    RanksMatch(s, r, c, i, p);
    RanksMatch(s, r, c, j, q);
    if q <= p {
      if q < p { RankBefore(r, c, q, p); }
      assert false;
    }
  }

  /** Positions in two sequences that filter to the same distinct-key sequence
      and hold the same entry have the same rank. */
  lemma RanksMatch(s: seq<IssueTally>, r: seq<IssueTally>, c: nat, i: nat, p: nat)
    requires DistinctKeys(s) && WithCount(r, c) == WithCount(s, c)
    requires i < |s| && p < |r| && r[p] == s[i] && s[i].count == c
    ensures Rank(r, c, p) == Rank(s, c, i)
  {
    WithCountAt(s, c, i);
    WithCountAt(r, c, p);
    var a := Rank(s, c, i);
    var b := Rank(r, c, p);
    if a != b {
      WithCountFrom(s, c, b);
      assert false;
    }
  }
}
