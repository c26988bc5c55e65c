/**
 * String primitives that the analysis code takes from its JavaScript and Python
 * runtimes: lower-casing, substring search, the whitespace classes of
 * JavaScript's `\s` (also the set `trim` removes) and of Python's `str.split`,
 * JavaScript's `\w`, and the splitting, trimming and counting built on them.
 */
module Text {

  /** JavaScript's `\s`: WhiteSpace and LineTerminator; `trim` removes the same set. */
  predicate IsJsSpace(c: char) {
    c == ' ' || ('\t' <= c <= '\r') || c == '\U{A0}' || c == '\U{1680}'
    || ('\U{2000}' <= c <= '\U{200A}') || c == '\U{2028}' || c == '\U{2029}'
    || c == '\U{202F}' || c == '\U{205F}' || c == '\U{3000}' || c == '\U{FEFF}'
  }

  /** The characters Python's `str.split()` (no argument) separates on. */
  predicate IsPySpace(c: char) {
    c == ' ' || ('\t' <= c <= '\r') || ('\U{1C}' <= c <= '\U{1F}') || c == '\U{85}'
    || c == '\U{A0}' || c == '\U{1680}' || ('\U{2000}' <= c <= '\U{200A}')
    || c == '\U{2028}' || c == '\U{2029}' || c == '\U{202F}' || c == '\U{205F}'
    || c == '\U{3000}'
  }

  /** JavaScript's `\w` (no `u` flag): ASCII letters, digits and the underscore. */
  predicate IsWordChar(c: char) {
    ('a' <= c <= 'z') || ('A' <= c <= 'Z') || ('0' <= c <= '9') || c == '_'
  }

  function LowerChar(c: char): char {
    if 'A' <= c <= 'Z' then (c as int + 32) as char else c
  }

  /** `toLowerCase()` / `lower()`, restricted to the ASCII letters. */
  function ToLower(s: string): (r: string)
    ensures |r| == |s|
  {
    if s == [] then [] else [LowerChar(s[0])] + ToLower(s[1..])
  }

  /** `s.includes(sub)` in JavaScript, `sub in s` in Python. */
  predicate Contains(s: string, sub: string)
    decreases |s|
  {
    |sub| <= |s| && (s[..|sub|] == sub || (|s| > 0 && Contains(s[1..], sub)))
  }

  /** `subs.some(k => s.includes(k))` / `any(k in s for k in subs)`. */
  predicate ContainsAny(s: string, subs: seq<string>) {
    |subs| > 0 && (Contains(s, subs[0]) || ContainsAny(s, subs[1..]))
  }

  /** The number of occurrences of `c` in `s` (`s.match(/c/g).length`). */
  function CountChar(s: string, c: char): nat {
    if s == [] then 0 else (if s[0] == c then 1 else 0) + CountChar(s[1..], c)
  }

  /** JavaScript's `length`: the number of UTF-16 code units, two for each
      character above U+FFFF (a surrogate pair). */
  function Utf16Length(s: string): (n: nat)
    ensures |s| <= n <= 2 * |s|
  {
    if s == [] then 0 else (if s[0] as int > 0xFFFF then 2 else 1) + Utf16Length(s[1..])
  }

  /** Within the Basic Multilingual Plane, `length` counts characters. */
  lemma {:induction false} Utf16LengthBmp(s: string)
    requires forall i :: 0 <= i < |s| ==> s[i] as int <= 0xFFFF
    ensures Utf16Length(s) == |s|
  {
    if s != [] {
      Utf16LengthBmp(s[1..]);
    }
  }

  /** Drops the longest prefix whose characters all satisfy `p`. */
  function DropWhile(p: char -> bool, s: string): (r: string)
    ensures |r| <= |s| && r == s[|s| - |r|..]
    ensures r == [] || !p(r[0])
  {
    if s != [] && p(s[0]) then DropWhile(p, s[1..]) else s
  }

  /** Drops the longest suffix whose characters all satisfy `p`. */
  function DropWhileEnd(p: char -> bool, s: string): (r: string)
    ensures |r| <= |s| && r == s[..|r|]
    ensures r == [] || !p(r[|r| - 1])
  {
    if s != [] && p(s[|s| - 1]) then DropWhileEnd(p, s[..|s| - 1]) else s
  }

  /** The longest prefix of `s` none of whose characters satisfies `p`. */
  function TakeUntil(p: char -> bool, s: string): (w: string)
    ensures |w| <= |s| && w == s[..|w|]
    ensures |w| == |s| || p(s[|w|])
  {
    if s == [] || p(s[0]) then [] else [s[0]] + TakeUntil(p, s[1..])
  }

  /** Every character `DropWhile` drops satisfies `p`. */
  lemma {:induction false} DropWhileDropped(p: char -> bool, s: string)
    ensures forall i :: 0 <= i < |s| - |DropWhile(p, s)| ==> p(s[i])
  {
    if s != [] && p(s[0]) {
      DropWhileDropped(p, s[1..]);
      forall i | 0 < i < |s| - |DropWhile(p, s)| ensures p(s[i]) {
        assert s[i] == s[1..][i - 1];
      }
    }
  }

  /** Every character `DropWhileEnd` drops satisfies `p`. */
  lemma {:induction false} DropWhileEndDropped(p: char -> bool, s: string)
    ensures forall i :: |DropWhileEnd(p, s)| <= i < |s| ==> p(s[i])
  {
    if s != [] && p(s[|s| - 1]) {
      DropWhileEndDropped(p, s[..|s| - 1]);
      forall i | |DropWhileEnd(p, s)| <= i < |s| - 1 ensures p(s[i]) {
        assert s[i] == s[..|s| - 1][i];
      }
    }
  }

  /** No character `TakeUntil` takes satisfies `p`. */
  lemma {:induction false} TakeUntilTaken(p: char -> bool, s: string)
    ensures forall i :: 0 <= i < |TakeUntil(p, s)| ==> !p(TakeUntil(p, s)[i])
  {
    if s != [] && !p(s[0]) {
      TakeUntilTaken(p, s[1..]);
      var w := TakeUntil(p, s);
      forall i | 0 < i < |w| ensures !p(w[i]) {
        assert w[i] == TakeUntil(p, s[1..])[i - 1];
      }
    }
  }

  /** `String.prototype.trim`. */
  function Trim(s: string): (r: string) {
    DropWhileEnd(IsJsSpace, DropWhile(IsJsSpace, s))
  }

  /** `s.split(/\s+/)`: the pieces between maximal runs of `\s`, with an empty
      first (last) piece when `s` starts (ends) with whitespace. */
  function SplitJs(s: string): (ws: seq<string>)
    ensures |ws| >= 1
    decreases |s|
  {
    var token := TakeUntil(IsJsSpace, s);
    if |token| == |s| then [token]
    else [token] + SplitJs(DropWhile(IsJsSpace, s[|token|..]))
  }

  /** Python's `s.split()`: the maximal runs of non-whitespace characters. */
  function SplitPy(s: string): (ws: seq<string>)
    decreases |s|
  {
    var t := DropWhile(IsPySpace, s);
    if t == [] then []
    else
      var w := TakeUntil(IsPySpace, t);
      [w] + SplitPy(t[|w|..])
  }

  /** `" ".join(ws)` in Python. */
  function JoinSpace(ws: seq<string>): string {
    if |ws| == 0 then ""
    else if |ws| == 1 then ws[0]
    else ws[0] + (" " + JoinSpace(ws[1..]))
  }

  /** `s.replace(/[^\w]/g, '')`: keeps exactly the `\w` characters. */
  function StripNonWord(s: string): (r: string)
    ensures |r| <= |s|
  {
    if s == [] then []
    else (if IsWordChar(s[0]) then [s[0]] else []) + StripNonWord(s[1..])
  }

  /** `s.replace(" ", "_")` in Python: every space becomes an underscore. */
  function SpacesToUnderscores(s: string): (r: string)
    ensures |r| == |s|
  {
    if s == [] then [] else [if s[0] == ' ' then '_' else s[0]] + SpacesToUnderscores(s[1..])
  }

  // ---------------------------------------------------------------------------
  // Facts about the primitives
  // ---------------------------------------------------------------------------

  /** `sub` occurs in `s` starting at offset `i`. */
  predicate OccursAt(s: string, sub: string, i: nat) {
    i + |sub| <= |s| && s[i..i + |sub|] == sub
  }

  /** `Contains` is the usual "occurs at some offset" relation. */
  lemma {:induction false} ContainsAt(s: string, sub: string)
    ensures Contains(s, sub) <==> exists i: nat :: OccursAt(s, sub, i)
    decreases |s|
  {
    if |sub| <= |s| && s[..|sub|] != sub && |s| > 0 {
      ContainsAt(s[1..], sub);
      if exists i: nat :: OccursAt(s, sub, i) {
        var i: nat :| OccursAt(s, sub, i);
        assert i > 0;
        assert OccursAt(s[1..], sub, i - 1);
      }
      if Contains(s[1..], sub) {
        var i: nat :| OccursAt(s[1..], sub, i);
        assert OccursAt(s, sub, i + 1);
      }
    } else if |sub| <= |s| && s[..|sub|] == sub {
      assert OccursAt(s, sub, 0);
    }
  }

  /** Every character of a contained string occurs in the containing one. */
  lemma CharOfContained(s: string, sub: string, c: char)
    requires Contains(s, sub) && c in sub
    ensures c in s
  {
    ContainsAt(s, sub);
    var i: nat :| OccursAt(s, sub, i);
    var j :| 0 <= j < |sub| && sub[j] == c;
    assert s[i..i + |sub|][j] == c;
  }

  /** A string contains every piece of every string it contains. */
  lemma ContainsSliceOf(s: string, sub: string, i: nat, j: nat)
    requires Contains(s, sub) && i <= j <= |sub|
    ensures Contains(s, sub[i..j])
  {
    ContainsAt(s, sub);
    var k: nat :| OccursAt(s, sub, k);
    forall m | 0 <= m < j - i ensures s[k + i..k + j][m] == sub[i..j][m] {
      assert s[k..k + |sub|][i + m] == sub[i + m];
    }
    assert s[k + i..k + j] == sub[i..j];
    assert OccursAt(s, sub[i..j], k + i);
    ContainsAt(s, sub[i..j]);
  }

  /** `ContainsAny` is `some`: one of the candidates is contained. */
  lemma {:induction false} ContainsAnyAt(s: string, subs: seq<string>)
    ensures ContainsAny(s, subs) <==> exists i :: 0 <= i < |subs| && Contains(s, subs[i])
  {
    if |subs| > 0 {
      ContainsAnyAt(s, subs[1..]);
      if exists i :: 0 <= i < |subs| && Contains(s, subs[i]) {
        var i :| 0 <= i < |subs| && Contains(s, subs[i]);
        if i > 0 { assert Contains(s, subs[1..][i - 1]); }
      }
    }
  }

  /** Lower-casing acts character by character. */
  lemma {:induction false} ToLowerAt(s: string, i: nat)
    requires i < |s|
    ensures ToLower(s)[i] == LowerChar(s[i])
  {
    if i > 0 { ToLowerAt(s[1..], i - 1); }
  }

  /** Lower-casing leaves a string without upper-case ASCII letters unchanged. */
  lemma {:induction false} ToLowerNoUpper(s: string)
    requires forall i :: 0 <= i < |s| ==> !('A' <= s[i] <= 'Z')
    ensures ToLower(s) == s
  {
    if s != [] { ToLowerNoUpper(s[1..]); }
  }

  /** Lower-casing never creates or removes a character that is not an ASCII letter. */
  lemma {:induction false} CountCharToLower(s: string, c: char)
    requires !('A' <= c <= 'Z') && !('a' <= c <= 'z')
    ensures CountChar(ToLower(s), c) == CountChar(s, c)
  {
    if s != [] {
      CountCharToLower(s[1..], c);
      assert ToLower(s)[1..] == ToLower(s[1..]);
    }
  }

  /** `StripNonWord` keeps only `\w` characters. */
  lemma {:induction false} StripNonWordChars(s: string)
    ensures forall c :: c in StripNonWord(s) ==> IsWordChar(c)
  {
    if s != [] { StripNonWordChars(s[1..]); }
  }

  /** A string of `\w` characters is left unchanged by `StripNonWord`. */
  lemma {:induction false} StripNonWordOfWord(s: string)
    requires forall i :: 0 <= i < |s| ==> IsWordChar(s[i])
    ensures StripNonWord(s) == s
  {
    if s != [] { StripNonWordOfWord(s[1..]); }
  }

  /** Trimming yields a string with no `\s` at either end, and is idempotent. */
  lemma TrimmedEnds(s: string)
    ensures Trim(s) == [] || (!IsJsSpace(Trim(s)[0]) && !IsJsSpace(Trim(s)[|Trim(s)| - 1]))
    ensures Trim(Trim(s)) == Trim(s)
  {
    var d := DropWhile(IsJsSpace, s);
    var r := Trim(s);
    assert r == d[..|r|];
    if r != [] {
      assert r[0] == d[0];
    }
  }

  /** A string trims to "" exactly when it is made only of `\s` characters. */
  lemma TrimEmpty(s: string)
    ensures Trim(s) == [] <==> forall i :: 0 <= i < |s| ==> IsJsSpace(s[i])
  {
    var d := DropWhile(IsJsSpace, s);
    if Trim(s) == [] {
      DropWhileDropped(IsJsSpace, s);
      DropWhileEndDropped(IsJsSpace, d);
      forall i | 0 <= i < |s| ensures IsJsSpace(s[i]) {
        if i >= |s| - |d| { assert s[i] == d[i - (|s| - |d|)]; }
      }
    }
  }

  /** Splitting on Python whitespace ignores leading whitespace. */
  lemma SplitPyDrop(s: string)
    ensures SplitPy(DropWhile(IsPySpace, s)) == SplitPy(s)
  {
  }

  /** Python's `split` and `" ".join` are inverse on words that are non-empty and
      free of whitespace. */
  lemma {:induction false} SplitPyJoin(ws: seq<string>)
    requires AllPyWords(ws)
    ensures SplitPy(JoinSpace(ws)) == ws
  {
    if |ws| == 1 {
      SplitPyAlone(ws[0]);
    } else if |ws| > 1 {
      AllPyWordsTail(ws);
      SplitPyJoin(ws[1..]);
      SplitPyJoinStep(ws);
    }
  }

  /** The words after the first are words too. */
  lemma AllPyWordsTail(ws: seq<string>)
    requires |ws| >= 1 && AllPyWords(ws)
    ensures AllPyWords(ws[1..])
  {
    forall k | 0 <= k < |ws[1..]| ensures IsPyWord(ws[1..][k]) {
      assert ws[1..][k] == ws[k + 1];
    }
  }

  /** One word more in front of a joined sequence that splits back. */
  lemma SplitPyJoinStep(ws: seq<string>)
    requires |ws| >= 2 && IsPyWord(ws[0])
    requires SplitPy(JoinSpace(ws[1..])) == ws[1..]
    ensures SplitPy(JoinSpace(ws)) == ws
  {
    var j := JoinSpace(ws[1..]);
    assert JoinSpace(ws) == ws[0] + (" " + j);
    SplitPyCons(ws[0], j);
    assert [ws[0]] + ws[1..] == ws;
  }

  /** A word followed by a space and more text splits into that word and the rest. */
  lemma SplitPyCons(w: string, j: string)
    requires IsPyWord(w)
    ensures SplitPy(w + (" " + j)) == [w] + SplitPy(j)
  {
    var s := w + (" " + j);
    assert SplitPy(s) == [w] + SplitPy(" " + j) by {
      assert DropWhile(IsPySpace, s) == s;
      TakeUntilPrefix(IsPySpace, w, " " + j);
      assert s[|w|..] == " " + j;
    }
    calc {
      SplitPy(" " + j);
      == { SplitPyDrop(" " + j); }
      SplitPy(DropWhile(IsPySpace, " " + j));
      == { assert (" " + j)[1..] == j; }
      SplitPy(DropWhile(IsPySpace, j));
      == { SplitPyDrop(j); }
      SplitPy(j);
    }
  }

  /** A word alone splits into itself. */
  lemma SplitPyAlone(w: string)
    requires IsPyWord(w)
    ensures SplitPy(w) == [w]
  {
    assert DropWhile(IsPySpace, w) == w;
    assert TakeUntil(IsPySpace, w) == w;
    assert w[|w|..] == [];
    assert SplitPy([]) == [];
  }

  /** The run up to the first `p`-character of `a + b` is `a` when `a` has none and `b` starts with one. */
  lemma {:induction false} TakeUntilPrefix(p: char -> bool, a: string, b: string)
    requires forall i :: 0 <= i < |a| ==> !p(a[i])
    requires b != [] && p(b[0])
    ensures TakeUntil(p, a + b) == a
  {
    if a == [] {
      assert a + b == b;
    } else {
      assert (a + b)[0] == a[0];
      assert (a + b)[1..] == a[1..] + b;
      TakeUntilPrefix(p, a[1..], b);
    }
  }

  /** A word in the sense of Python's `split`: non-empty and whitespace-free. */
  predicate IsPyWord(w: string) {
    w != [] && forall i :: 0 <= i < |w| ==> !IsPySpace(w[i])
  }

  /** Every element of `ws` is a word in the sense of Python's `split`. */
  predicate AllPyWords(ws: seq<string>) {
    forall k :: 0 <= k < |ws| ==> IsPyWord(ws[k])
  }

  /** Every word `SplitPy` yields is non-empty and free of whitespace. */
  lemma {:induction false} SplitPyWords(s: string)
    ensures AllPyWords(SplitPy(s))
    decreases |s|
  {
    var t := DropWhile(IsPySpace, s);
    if t != [] {
      var w := TakeUntil(IsPySpace, t);
      TakeUntilTaken(IsPySpace, t);
      assert w != [] by {
        assert !IsPySpace(t[0]);
      }
      SplitPyWords(t[|w|..]);
      AllPyWordsCons(w, SplitPy(t[|w|..]));
    }
  }

  /** A word in front of words gives words. */
  lemma AllPyWordsCons(w: string, rest: seq<string>)
    requires IsPyWord(w) && AllPyWords(rest)
    ensures AllPyWords([w] + rest)
  {
    forall k | 0 <= k < |[w] + rest| ensures IsPyWord(([w] + rest)[k]) {
      if k > 0 {
        assert ([w] + rest)[k] == rest[k - 1];
      }
    }
  }

  /** A token in the sense of JavaScript's `split(/\s+/)` between two separators. */
  predicate IsJsWord(w: string) {
    w != [] && forall i :: 0 <= i < |w| ==> !IsJsSpace(w[i])
  }

  /** Splitting words joined by single spaces gives the words back. */
  lemma {:induction false} SplitJsJoin(ws: seq<string>)
    requires |ws| >= 1
    requires forall k :: 0 <= k < |ws| ==> IsJsWord(ws[k])
    ensures SplitJs(JoinSpace(ws)) == ws
  {
    if |ws| == 1 {
      SplitJsAlone(ws[0]);
    } else {
      var rest := ws[1..];
      var j := JoinSpace(rest);
      assert forall k :: 0 <= k < |rest| ==> IsJsWord(rest[k]) by {
        forall k | 0 <= k < |rest| ensures IsJsWord(rest[k]) {
          assert rest[k] == ws[k + 1];
        }
      }
      assert j != [] && !IsJsSpace(j[0]) by {
        assert IsJsWord(rest[0]);
        JoinSpaceHead(rest);
      }
      calc {
        SplitJs(JoinSpace(ws));
        == { assert JoinSpace(ws) == ws[0] + (" " + j); }
        SplitJs(ws[0] + (" " + j));
        == { assert IsJsWord(ws[0]); SplitJsCons(ws[0], j); }
        [ws[0]] + SplitJs(j);
        == { SplitJsJoin(rest); }
        [ws[0]] + rest;
        == { assert [ws[0]] + ws[1..] == ws; }
        ws;
      }
    }
  }

  /** A token followed by a space and a text that starts with a token. */
  lemma SplitJsCons(w: string, j: string)
    requires IsJsWord(w) && j != [] && !IsJsSpace(j[0])
    ensures SplitJs(w + (" " + j)) == [w] + SplitJs(j)
  {
    var s := w + (" " + j);
    TakeUntilPrefix(IsJsSpace, w, " " + j);
    assert s[|w|..] == " " + j;
    assert (" " + j)[1..] == j;
    assert DropWhile(IsJsSpace, " " + j) == DropWhile(IsJsSpace, j) == j;
  }

  /** A single token splits into itself. */
  lemma SplitJsAlone(w: string)
    requires IsJsWord(w)
    ensures SplitJs(w) == [w]
  {
    assert TakeUntil(IsJsSpace, w) == w;
  }

  /** Joined words begin with the first word's first character. */
  lemma JoinSpaceHead(ws: seq<string>)
    requires |ws| >= 1 && ws[0] != []
    ensures JoinSpace(ws) != [] && JoinSpace(ws)[0] == ws[0][0]
  {
  }
}
