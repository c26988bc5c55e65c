/**
 * `detectFeedbackColumn` (app/api/upload/route.ts): choosing which column of
 * the uploaded sheet holds the feedback text.
 */
module Columns {
  import opened Text
  import opened Wrappers

  /** One parsed sheet row: its column names in `Object.keys` order and its
      cells. A column missing from `cells` reads as "". */
  datatype Row = Row(columns: seq<string>, cells: map<string, string>)

  /** The keywords looked for in lower-cased column names; each one ends with
      a space. */
  const FeedbackKeywords: seq<string> := [
    "feedback ", "comment ", "review ", "opinion ", "message ",
    "text ", "description ", "note ", "remarks ", "response "]

  /** `String(row[col] || '')`. */
  function Cell(row: Row, col: string): string {
    if col in row.cells then row.cells[col] else ""
  }

  /** The column name contains one of the keywords once lower-cased. */
  predicate IsFeedbackName(col: string) {
    ContainsAny(ToLower(col), FeedbackKeywords)
  }

  /** Sum of the lengths of column `col` over the first `n` rows, in UTF-16
      code units as JavaScript's `length` counts them. */
  function TotalLength(data: seq<Row>, col: string, n: nat): nat
    requires n <= |data|
  {
    if n == 0 then 0 else TotalLength(data, col, n - 1) + Utf16Length(Cell(data[n - 1], col))
  }

  /** The average value length of a column: the quantity the fallback compares. */
  function AverageLength(data: seq<Row>, col: string): real
    requires |data| > 0
  {
    TotalLength(data, col, |data|) as real / |data| as real
  }

  /** Index of the first keyword-matching name among `cols`, if any. */
  function FirstFeedbackName(cols: seq<string>): (r: Option<nat>)
    ensures r.Some? ==> r.value < |cols| && IsFeedbackName(cols[r.value])
    ensures r.Some? ==> forall j :: 0 <= j < r.value ==> !IsFeedbackName(cols[j])
    ensures r.None? ==> forall j :: 0 <= j < |cols| ==> !IsFeedbackName(cols[j])
  {
    if |cols| == 0 then None
    else if IsFeedbackName(cols[0]) then Some(0)
    else match FirstFeedbackName(cols[1..])
      case None => None
      case Some(k) => Some(k + 1)
  }

  /** The index the length fallback settles on among the first `n` columns: a
      later column replaces the current choice only when its average is
      strictly greater. */
  function Longest(data: seq<Row>, cols: seq<string>, n: nat): (k: nat)
    requires |data| > 0 && 1 <= n <= |cols|
    ensures k < n
    ensures forall j :: 0 <= j < n ==> TotalLength(data, cols[j], |data|) <= TotalLength(data, cols[k], |data|)
    ensures forall j :: 0 <= j < k ==> TotalLength(data, cols[j], |data|) < TotalLength(data, cols[k], |data|)
  {
    if n == 1 then 0
    else
      var k := Longest(data, cols, n - 1);
      if TotalLength(data, cols[n - 1], |data|) > TotalLength(data, cols[k], |data|) then n - 1 else k
  }

  /** What `detectFeedbackColumn` returns: nothing for an empty sheet or a
      first row without columns, else the first keyword-matching column of the
      first row, else the first column with the greatest total (and so
      average) length. */
  function DetectedColumn(data: seq<Row>): (r: Option<string>)
    ensures |data| == 0 ==> r.None?
    ensures |data| > 0 && |data[0].columns| == 0 ==> r.None?
    ensures |data| > 0 && (exists i :: 0 <= i < |data[0].columns| && IsFeedbackName(data[0].columns[i])) ==>
      exists i :: 0 <= i < |data[0].columns| && r == Some(data[0].columns[i]) && IsFeedbackName(data[0].columns[i])
        && forall j :: 0 <= j < i ==> !IsFeedbackName(data[0].columns[j])
    ensures |data| > 0 && |data[0].columns| > 0 && (forall i :: 0 <= i < |data[0].columns| ==> !IsFeedbackName(data[0].columns[i])) ==>
      var cols := data[0].columns;
      exists k :: 0 <= k < |cols| && r == Some(cols[k])
        && (forall j :: 0 <= j < |cols| ==> TotalLength(data, cols[j], |data|) <= TotalLength(data, cols[k], |data|))
        && (forall j :: 0 <= j < k ==> TotalLength(data, cols[j], |data|) < TotalLength(data, cols[k], |data|))
  {
    if |data| == 0 then None
    else
      var cols := data[0].columns;
      match FirstFeedbackName(cols)
      case Some(i) => Some(cols[i])
      case None => if |cols| == 0 then None else Some(cols[Longest(data, cols, |cols|)])
  }

  /** Averages over the same positive row count compare as the totals do. */
  lemma AverageGreater(a: nat, b: nat, n: nat)
    requires n > 0
    ensures a as real / n as real > b as real / n as real <==> a > b
  {
    var x := a as real / n as real;
    var y := b as real / n as real;
    assert x * n as real == a as real;
    assert y * n as real == b as real;
    assert (x - y) * n as real == a as real - b as real;
    if x > y { assert (x - y) * n as real > 0.0; }
    if a > b { assert (x - y) * n as real > 0.0; }
  }

  /** `detectFeedbackColumn`: a keyword pass over the first row's columns,
      then, if nothing matched, a pass keeping the column with the greatest
      average value length. */
  method DetectFeedbackColumn(data: seq<Row>) returns (r: Option<string>)
    ensures r == DetectedColumn(data)
  {
    if |data| == 0 {
      return None;
    }
    var columns := data[0].columns;
    var matched := KeywordPass(columns);
    if matched.Some? {
      return Some(columns[matched.value]);
    }
    if |columns| == 0 {
      return None;
    }
    var selected := LengthPass(data, columns);
    r := Some(columns[selected]);
  }

  /** The keyword pass: the first column whose lower-cased name contains a
      keyword. */
  method KeywordPass(columns: seq<string>) returns (r: Option<nat>)
    ensures r == FirstFeedbackName(columns)
  {
    for i := 0 to |columns|
      invariant forall j :: 0 <= j < i ==> !IsFeedbackName(columns[j])
    {
      if ContainsAny(ToLower(columns[i]), FeedbackKeywords) {
        FirstFeedbackNameAt(columns, i);
        return Some(i);
      }
    }
    return None;
  }

  /** The length pass: `maxAvgLength` starts at 0 and the choice at the first
      column; a column replaces the choice when its average is strictly
      greater. */
  method LengthPass(data: seq<Row>, columns: seq<string>) returns (selected: nat)
    requires |data| > 0 && |columns| > 0
    ensures selected == Longest(data, columns, |columns|)
  {
    var maxAvgLength := 0.0;
    selected := 0;
    for i := 0 to |columns|
      invariant selected < |columns|
      invariant i == 0 ==> selected == 0 && maxAvgLength == 0.0
      invariant i > 0 ==> selected == Longest(data, columns, i) && maxAvgLength == AverageLength(data, columns[selected])
    {
      var sum := ColumnLength(data, columns[i]);
      var avgLength := sum as real / |data| as real;
      AverageGreater(sum, TotalLength(data, columns[selected], |data|), |data|);
      if avgLength > maxAvgLength {
        maxAvgLength := avgLength;
        selected := i;
      }
    }
  }

  /** The first match is the one at `i` when nothing before `i` matches. */
  lemma {:induction false} FirstFeedbackNameAt(cols: seq<string>, i: nat)
    requires i < |cols| && IsFeedbackName(cols[i])
    requires forall j :: 0 <= j < i ==> !IsFeedbackName(cols[j])
    ensures FirstFeedbackName(cols) == Some(i)
  {
    if i > 0 {
      FirstFeedbackNameAt(cols[1..], i - 1);
    }
  }

  /** The `reduce` summing one column's value lengths over all rows. */
  method ColumnLength(data: seq<Row>, col: string) returns (sum: nat)
    ensures sum == TotalLength(data, col, |data|)
  {
    sum := 0;
    for j := 0 to |data|
      invariant sum == TotalLength(data, col, j)
    {
      sum := sum + Utf16Length(Cell(data[j], col));
    }
  }

  /** Every keyword ends with a space, so a column name without a space (such
      as "feedback" or "feedback_text") never keyword-matches: it can only be
      chosen by the length fallback. */
  lemma NameWithoutSpaceNeverMatches(col: string)
    requires ' ' !in col
    ensures !IsFeedbackName(col)
  {
    var lower := ToLower(col);
    forall i | 0 <= i < |lower| ensures lower[i] != ' ' {
      ToLowerAt(col, i);
    }
    ContainsAnyAt(lower, FeedbackKeywords);
    forall k | 0 <= k < |FeedbackKeywords| ensures !Contains(lower, FeedbackKeywords[k]) {
      var kw := FeedbackKeywords[k];
      assert kw[|kw| - 1] == ' ';
      if Contains(lower, kw) { CharOfContained(lower, kw, ' '); }
    }
  }

  /** A name with a keyword followed by more text does match, whatever its case. */
  lemma FeedbackNotesMatches(col: string)
    requires ToLower(col) == "feedback notes"
    ensures IsFeedbackName(col)
  {
    assert "feedback notes"[..9] == FeedbackKeywords[0];
  }

  /** Lengths are UTF-16 lengths: two emoji (four code units) outweigh three
      ASCII letters, so the first column is chosen. */
  lemma AstralCharactersCountTwice()
    ensures DetectedColumn([Row(["a", "b"], map["a" := "\U{1F600}\U{1F600}", "b" := "abc"])]) == Some("a")
  {
    NameWithoutSpaceNeverMatches("a");
    NameWithoutSpaceNeverMatches("b");
    AstralTotals();
  }

  /** The column totals of the one-row table above, in UTF-16 code units. */
  lemma AstralTotals()
    ensures var data := [Row(["a", "b"], map["a" := "\U{1F600}\U{1F600}", "b" := "abc"])];
      TotalLength(data, "a", 1) == 4 && TotalLength(data, "b", 1) == 3
  {
    assert Utf16Length("\U{1F600}\U{1F600}") == 4;
    assert Utf16Length("abc") == 3;
  }
}
