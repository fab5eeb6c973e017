/** The Python `str` operations that the feature extractor relies on:
    `str.split()`, `str.count(c)`, `str.lower()`, `str.isupper()`, the
    substring test `p in s`, and the generator sums and `any(...)` built on them. */
module PyStr {

  /** The characters for which `c.isspace()` holds: the separators of `str.split()` with no argument. */
  const Whitespace: set<char> := {
    '\t', '\n', '\U{b}', '\U{c}', '\r', '\U{1c}', '\U{1d}', '\U{1e}', '\U{1f}', ' ',
    '\U{85}', '\U{a0}', '\U{1680}', '\U{2000}', '\U{2001}', '\U{2002}', '\U{2003}',
    '\U{2004}', '\U{2005}', '\U{2006}', '\U{2007}', '\U{2008}', '\U{2009}', '\U{200a}',
    '\U{2028}', '\U{2029}', '\U{202f}', '\U{205f}', '\U{3000}'
  }

  predicate IsSpace(c: char) {
    c in Whitespace
  }

  predicate IsAsciiUpper(c: char) { 'A' <= c <= 'Z' }

  predicate IsAsciiLower(c: char) { 'a' <= c <= 'z' }

  function LowerChar(c: char): char {
    if IsAsciiUpper(c) then (c as int + 32) as char else c
  }

  /** `s.lower()` on ASCII letters; every other character is left as it is. */
  function Lower(s: string): (r: string)
    ensures |r| == |s|
    ensures forall i :: 0 <= i < |s| ==> !IsAsciiUpper(r[i])
    ensures forall i :: 0 <= i < |s| ==> r[i] == s[i] || (IsAsciiUpper(s[i]) && IsAsciiLower(r[i]))
    ensures forall i :: 0 <= i < |s| && IsAsciiUpper(s[i]) ==> r[i] as int - 'a' as int == s[i] as int - 'A' as int
  {
    seq(|s|, i requires 0 <= i < |s| => LowerChar(s[i]))
  }

  /** `s` and `t` differ at most in the case of their ASCII letters. */
  predicate SameUpToCase(s: string, t: string) {
    |s| == |t| && forall i :: 0 <= i < |s| ==> LowerChar(s[i]) == LowerChar(t[i])
  }

  lemma LowerIgnoresCase(s: string, t: string)
    requires SameUpToCase(s, t)
    ensures Lower(s) == Lower(t)
  {
  }

  /** Lower-casing text without upper-case letters changes nothing. */
  lemma LowerOfLowerCase(s: string)
    requires forall i :: 0 <= i < |s| ==> !IsAsciiUpper(s[i])
    ensures Lower(s) == s
  {
  }

  /** `lower()` works character by character, so it commutes with slicing. */
  lemma LowerSlice(s: string, i: nat, j: nat)
    requires i <= j <= |s|
    ensures Lower(s)[i..j] == Lower(s[i..j])
  {
  }

  /** `w.isupper()`: at least one cased character and no lower-case one (ASCII casing). */
  predicate IsUpper(w: string) {
    (exists i :: 0 <= i < |w| && IsAsciiUpper(w[i])) && forall i :: 0 <= i < |w| ==> !IsAsciiLower(w[i])
  }

  /** The number of characters of `s` that belong to `cs`:
      `sum(1 for char in s if char in cs)`. */
  function CountIn(s: string, cs: set<char>): (n: nat)
    ensures n <= |s|
  {
    if s == [] then 0 else (if s[0] in cs then 1 else 0) + CountIn(s[1..], cs)
  }

  /** `s.count(c)` for a one-character needle. */
  function Count(s: string, c: char): nat {
    CountIn(s, {c})
  }

  lemma {:induction false} CountInAppend(s: string, t: string, cs: set<char>)
    ensures CountIn(s + t, cs) == CountIn(s, cs) + CountIn(t, cs)
  {
    if s == [] {
      assert s + t == t;
    } else {
      assert (s + t)[1..] == s[1..] + t;
      CountInAppend(s[1..], t, cs);
    }
  }

  /** Counting two disjoint sets of characters counts distinct positions. */
  lemma {:induction false} CountInUnion(s: string, cs: set<char>, ds: set<char>)
    requires cs !! ds
    ensures CountIn(s, cs + ds) == CountIn(s, cs) + CountIn(s, ds)
  {
    if s != [] {
      CountInUnion(s[1..], cs, ds);
    }
  }

  /** `s.count(c)` is the multiplicity of `c` in `s`. */
  lemma {:induction false} CountIsMultiplicity(s: string, c: char)
    ensures Count(s, c) == multiset(s)[c]
  {
    if s != [] {
      CountIsMultiplicity(s[1..], c);
      assert s == [s[0]] + s[1..];
    }
  }

  /** `p in s` for strings: `p` occurs at some position of `s` (the empty string occurs everywhere). */
  predicate Contains(s: string, p: string) {
    exists i :: 0 <= i <= |s| - |p| && OccursAt(s, p, i)
  }

  /** `p` occurs in `s` starting at position `i`. */
  predicate OccursAt(s: string, p: string, i: int) {
    0 <= i && i + |p| <= |s| && s[i..i + |p|] == p
  }

  /** An occurrence of `p` in `s` places every character of `p` in `s`. */
  lemma ContainedCharsOccur(s: string, p: string, j: nat)
    requires Contains(s, p) && j < |p|
    ensures p[j] in s
  {
    var i :| 0 <= i <= |s| - |p| && OccursAt(s, p, i);
    assert s[i..i + |p|][j] == s[i + j];
  }

  /** `any(term in s for term in terms)`. */
  predicate ContainsAny(s: string, terms: seq<string>) {
    exists k :: 0 <= k < |terms| && Contains(s, terms[k])
  }

  /** `sum(term in s for term in terms)`: how many of the terms occur in `s`. */
  function CountPresent(s: string, terms: seq<string>): (n: nat)
    ensures n <= |terms|
    ensures n > 0 <==> ContainsAny(s, terms)
  {
    if terms == [] then 0
    else
      var rest := CountPresent(s, terms[1..]);
      assert ContainsAny(s, terms[1..]) ==> ContainsAny(s, terms) by {
        if ContainsAny(s, terms[1..]) {
          var k :| 0 <= k < |terms[1..]| && Contains(s, terms[1..][k]);
          assert Contains(s, terms[k + 1]);
        }
      }
      (if Contains(s, terms[0]) then 1 else 0) + rest
  }

  // ---------------------------------------------------------------------
  // str.split() with no argument

  predicate IsToken(w: string) {
    w != [] && forall i :: 0 <= i < |w| ==> !IsSpace(w[i])
  }

  predicate AllSpace(s: string) {
    forall i :: 0 <= i < |s| ==> IsSpace(s[i])
  }

  /** The first position at or after `i` that is not whitespace, or `|s|`. */
  function SkipSpaces(s: string, i: nat): (j: nat)
    requires i <= |s|
    ensures i <= j <= |s|
    ensures j < |s| ==> !IsSpace(s[j])
    ensures forall k :: i <= k < j ==> IsSpace(s[k])
    decreases |s| - i
  {
    if i < |s| && IsSpace(s[i]) then SkipSpaces(s, i + 1) else i
  }

  /** The first whitespace position at or after `i`, or `|s|`. */
  function SkipToken(s: string, i: nat): (j: nat)
    requires i <= |s|
    ensures i <= j <= |s|
    ensures j < |s| ==> IsSpace(s[j])
    ensures forall k :: i <= k < j ==> !IsSpace(s[k])
    decreases |s| - i
  {
    if i < |s| && !IsSpace(s[i]) then SkipToken(s, i + 1) else i
  }

  /** The tokens of `s` that start at or after position `i`. */
  function SplitFrom(s: string, i: nat): (ts: seq<string>)
    requires i <= |s|
    ensures forall k :: 0 <= k < |ts| ==> IsToken(ts[k])
    decreases |s| - i
  {
    var j := SkipSpaces(s, i);
    if j == |s| then []
    else
      var e := SkipToken(s, j);
      assert e > j by {
        assert SkipToken(s, j) == SkipToken(s, j + 1);
      }
      assert IsToken(s[j..e]) by {
        forall k | 0 <= k < e - j ensures !IsSpace(s[j..e][k]) {
          assert s[j..e][k] == s[j + k];
        }
      }
      [s[j..e]] + SplitFrom(s, e)
  }

  /** `s.split()`: the maximal runs of non-whitespace characters, in order. */
  function Split(s: string): seq<string> {
    SplitFrom(s, 0)
  }

  /** `s.split()` is empty exactly when `s` has no non-whitespace character. */
  lemma SplitEmptyIff(s: string)
    ensures Split(s) == [] <==> AllSpace(s)
  {
  }

  /** `sum(len(word) for word in ts)`. */
  function SumLengths(ts: seq<string>): nat {
    if ts == [] then 0 else |ts[0]| + SumLengths(ts[1..])
  }

  /** `sum(1 for word in ts if word.isupper())`. */
  function CountUpper(ts: seq<string>): (n: nat)
    ensures n <= |ts|
  {
    if ts == [] then 0 else (if IsUpper(ts[0]) then 1 else 0) + CountUpper(ts[1..])
  }

  /** An independent description of what `split()` keeps: the non-whitespace characters, in order. */
  function NonSpace(s: string): (r: string)
    ensures |r| <= |s|
  {
    if s == [] then [] else (if IsSpace(s[0]) then [] else [s[0]]) + NonSpace(s[1..])
  }

  function Concat(ts: seq<string>): string {
    if ts == [] then [] else ts[0] + Concat(ts[1..])
  }

  /** The tokens' lengths add up to the length of their concatenation. */
  lemma {:induction false} SumLengthsIsConcatLength(ts: seq<string>)
    ensures SumLengths(ts) == |Concat(ts)|
  {
    if ts != [] {
      SumLengthsIsConcatLength(ts[1..]);
    }
  }

  /** Tokens are non-empty, so there are no more of them than token characters. */
  lemma {:induction false} TokenCountBound(ts: seq<string>)
    requires forall k :: 0 <= k < |ts| ==> IsToken(ts[k])
    ensures |ts| <= SumLengths(ts)
  {
    if ts != [] {
      TokenCountBound(ts[1..]);
    }
  }

  lemma {:induction false} NonSpaceAppend(s: string, t: string)
    ensures NonSpace(s + t) == NonSpace(s) + NonSpace(t)
  {
    if s == [] {
      assert s + t == t;
    } else {
      assert (s + t)[1..] == s[1..] + t;
      NonSpaceAppend(s[1..], t);
    }
  }

  lemma {:induction false} NonSpaceOfSpaces(s: string)
    requires AllSpace(s)
    ensures NonSpace(s) == []
  {
    if s != [] {
      NonSpaceOfSpaces(s[1..]);
    }
  }

  lemma {:induction false} NonSpaceOfToken(w: string)
    requires forall i :: 0 <= i < |w| ==> !IsSpace(w[i])
    ensures NonSpace(w) == w
  {
    if w != [] {
      NonSpaceOfToken(w[1..]);
    }
  }

  /** Skipping whitespace skips nothing `NonSpace` keeps. */
  lemma NonSpaceSkipsSpaces(s: string, i: nat)
    requires i <= |s|
    ensures NonSpace(s[i..]) == NonSpace(s[SkipSpaces(s, i)..])
  {
    var j := SkipSpaces(s, i);
    assert s[i..] == s[i..j] + s[j..];
    NonSpaceAppend(s[i..j], s[j..]);
    assert AllSpace(s[i..j]) by {
      forall k | 0 <= k < j - i ensures IsSpace(s[i..j][k]) {
        assert s[i..j][k] == s[i + k];
      }
    }
    NonSpaceOfSpaces(s[i..j]);
  }

  /** A token is kept whole by `NonSpace`. */
  lemma NonSpaceKeepsToken(s: string, j: nat)
    requires j <= |s|
    ensures NonSpace(s[j..]) == s[j..SkipToken(s, j)] + NonSpace(s[SkipToken(s, j)..])
  {
    var e := SkipToken(s, j);
    assert s[j..] == s[j..e] + s[e..];
    NonSpaceAppend(s[j..e], s[e..]);
    assert forall k :: 0 <= k < e - j ==> !IsSpace(s[j..e][k]) by {
      forall k | 0 <= k < e - j ensures !IsSpace(s[j..e][k]) {
        assert s[j..e][k] == s[j + k];
      }
    }
    NonSpaceOfToken(s[j..e]);
  }

  /** `split()` loses only whitespace: the tokens, put back together, are the
      non-whitespace characters of `s` in their original order. */
  lemma {:induction false} SplitFromKeepsNonSpace(s: string, i: nat)
    requires i <= |s|
    ensures Concat(SplitFrom(s, i)) == NonSpace(s[i..])
    decreases |s| - i
  {
    var j := SkipSpaces(s, i);
    NonSpaceSkipsSpaces(s, i);
    if j < |s| {
      var e := SkipToken(s, j);
      var ts := SplitFrom(s, i);
      assert ts == [s[j..e]] + SplitFrom(s, e);
      assert ts[0] == s[j..e] && ts[1..] == SplitFrom(s, e);
      NonSpaceKeepsToken(s, j);
      SplitFromKeepsNonSpace(s, e);
    }
  }

  lemma SplitKeepsNonSpace(s: string)
    ensures Concat(Split(s)) == NonSpace(s)
  {
    SplitFromKeepsNonSpace(s, 0);
    assert s[0..] == s;
  }

  /** Tokens never overlap: `sum(len(w) for w in s.split()) <= len(s)`, and
      `len(s.split())` is at most that sum. */
  lemma SplitLengthBounds(s: string)
    ensures |Split(s)| <= SumLengths(Split(s)) <= |s|
  {
    SplitKeepsNonSpace(s);
    SumLengthsIsConcatLength(Split(s));
    TokenCountBound(Split(s));
  }

  /** `" ".join(ts)`. */
  function JoinSpace(ts: seq<string>): string {
    if ts == [] then [] else if |ts| == 1 then ts[0] else ts[0] + [' '] + JoinSpace(ts[1..])
  }

  /** `SkipSpaces` stops at the first non-whitespace character and nowhere else. */
  lemma {:induction false} SkipSpacesAt(s: string, i: nat, j: nat)
    requires i <= j <= |s|
    requires forall k :: i <= k < j ==> IsSpace(s[k])
    requires j < |s| ==> !IsSpace(s[j])
    ensures SkipSpaces(s, i) == j
    decreases j - i
  {
    if i < j {
      SkipSpacesAt(s, i + 1, j);
    }
  }

  /** `SkipToken` stops at the first whitespace character and nowhere else. */
  lemma {:induction false} SkipTokenAt(s: string, i: nat, j: nat)
    requires i <= j <= |s|
    requires forall k :: i <= k < j ==> !IsSpace(s[k])
    requires j < |s| ==> IsSpace(s[j])
    ensures SkipToken(s, i) == j
    decreases j - i
  {
    if i < j {
      SkipTokenAt(s, i + 1, j);
    }
  }

  /** `b` is what follows the first `d` characters of `s`. */
  predicate SuffixAt(s: string, b: string, d: nat) {
    d + |b| == |s| && forall k :: 0 <= k < |b| ==> s[d + k] == b[k]
  }

  lemma SkipSpacesShift(s: string, b: string, d: nat, i: nat)
    requires SuffixAt(s, b, d) && i <= |b|
    ensures SkipSpaces(s, d + i) == d + SkipSpaces(b, i)
  {
    var j := SkipSpaces(b, i);
    forall k | d + i <= k < d + j ensures IsSpace(s[k]) {
      assert s[d + (k - d)] == b[k - d];
    }
    assert j < |b| ==> s[d + j] == b[j];
    SkipSpacesAt(s, d + i, d + j);
  }

  lemma SkipTokenShift(s: string, b: string, d: nat, i: nat)
    requires SuffixAt(s, b, d) && i <= |b|
    ensures SkipToken(s, d + i) == d + SkipToken(b, i)
  {
    var j := SkipToken(b, i);
    forall k | d + i <= k < d + j ensures !IsSpace(s[k]) {
      assert s[d + (k - d)] == b[k - d];
    }
    assert j < |b| ==> s[d + j] == b[j];
    SkipTokenAt(s, d + i, d + j);
  }

  lemma SliceShift(s: string, b: string, d: nat, j: nat, e: nat)
    requires SuffixAt(s, b, d) && j <= e <= |b|
    ensures s[d + j..d + e] == b[j..e]
  {
    forall k | 0 <= k < e - j ensures s[d + j..d + e][k] == b[j..e][k] {
      assert s[d + (j + k)] == b[j + k];
    }
  }

  /** Splitting the part of `s` after its first `d` characters is splitting that part on its own. */
  lemma {:induction false} SplitFromShift(s: string, b: string, d: nat, i: nat)
    requires SuffixAt(s, b, d) && i <= |b|
    ensures SplitFrom(s, d + i) == SplitFrom(b, i)
    decreases |b| - i
  {
    var j := SkipSpaces(b, i);
    SkipSpacesShift(s, b, d, i);
    if j < |b| {
      var e := SkipToken(b, j);
      SkipTokenShift(s, b, d, j);
      SliceShift(s, b, d, j, e);
      SplitFromShift(s, b, d, e);
      assert SplitFrom(s, d + i) == [s[d + j..d + e]] + SplitFrom(s, d + e);
    }
  }

  /** `SplitFromShift` for a concatenation. */
  lemma SplitAfterPrefix(a: string, b: string)
    ensures SplitFrom(a + b, |a|) == Split(b)
  {
    assert SuffixAt(a + b, b, |a|);
    SplitFromShift(a + b, b, |a|, 0);
  }

  /** A token that ends at a separator, or at the end, is the first thing `split()` returns. */
  lemma SplitTokenFirst(w: string, r: string)
    requires IsToken(w)
    requires r == [] || IsSpace(r[0])
    ensures Split(w + r) == [w] + Split(r)
  {
    var s := w + r;
    SkipSpacesAt(s, 0, 0);
    SkipTokenAt(s, 0, |w|);
    assert s[0..|w|] == w;
    SplitAfterPrefix(w, r);
  }

  /** A leading separator does not change `split()`. */
  lemma SplitLeadingSpace(c: char, x: string)
    requires IsSpace(c)
    ensures Split([c] + x) == Split(x)
  {
    var s := [c] + x;
    assert SkipSpaces(s, 0) == SkipSpaces(s, 1);
    SplitAfterPrefix([c], x);
  }

  /** Splitting a space-joined list of tokens gives the tokens back. */
  lemma {:induction false} SplitJoinSpace(ts: seq<string>)
    requires forall k :: 0 <= k < |ts| ==> IsToken(ts[k])
    ensures Split(JoinSpace(ts)) == ts
  {
    if |ts| == 1 {
      SplitTokenFirst(ts[0], []);
      assert ts[0] + [] == ts[0];
    } else if |ts| > 1 {
      assert ts == [ts[0]] + ts[1..];
      var tail := JoinSpace(ts[1..]);
      assert JoinSpace(ts) == ts[0] + [' '] + tail;
      assert ts[0] + [' '] + tail == ts[0] + ([' '] + tail);
      assert IsSpace(' ');
      SplitTokenFirst(ts[0], [' '] + tail);
      SplitLeadingSpace(' ', tail);
      assert forall k :: 0 <= k < |ts[1..]| ==> IsToken(ts[1..][k]) by {
        forall k | 0 <= k < |ts[1..]| ensures IsToken(ts[1..][k]) {
          assert ts[1..][k] == ts[k + 1];
        }
      }
      SplitJoinSpace(ts[1..]);
    }
  }

  /** `x` is what the first `|x|` characters of `s` are. */
  predicate PrefixAt(s: string, x: string) {
    |x| <= |s| && forall k :: 0 <= k < |x| ==> s[k] == x[k]
  }

  /** Before a separator at position `|x|`, `s` splits as its prefix `x` does. */
  lemma {:induction false} SplitFromBeforeSpace(s: string, x: string, i: nat)
    requires PrefixAt(s, x) && |x| < |s| && IsSpace(s[|x|]) && i <= |x|
    ensures SplitFrom(s, i) == SplitFrom(x, i) + SplitFrom(s, |x|)
    decreases |x| - i
  {
    var j := SkipSpaces(x, i);
    if j == |x| {
      var e := SkipSpaces(s, |x|);
      SkipSpacesAt(s, i, e);
    } else {
      SkipSpacesAt(s, i, j);
      var e := SkipToken(x, j);
      SkipTokenAt(s, j, e);
      assert s[j..e] == x[j..e];
      SplitFromBeforeSpace(s, x, e);
    }
  }

  /** A space separates: `(x + " " + y).split()` is `x.split() + y.split()`. */
  lemma SplitSpaceAppend(x: string, y: string)
    ensures Split(x + " " + y) == Split(x) + Split(y)
  {
    var s := x + " " + y;
    SplitFromBeforeSpace(s, x, 0);
    assert s == x + (" " + y);
    SplitAfterPrefix(x, " " + y);
    SplitLeadingSpace(' ', y);
  }

  /** Printable ASCII characters other than the space are not whitespace. */
  lemma PrintableNotSpace(c: char)
    requires '!' <= c <= '~'
    ensures !IsSpace(c)
  {
  }

  /** A non-empty word of printable ASCII characters is a token, and splits into itself. */
  lemma PrintableWord(w: string)
    requires w != [] && forall i :: 0 <= i < |w| ==> '!' <= w[i] <= '~'
    ensures IsToken(w) && Split(w) == [w]
  {
    forall i | 0 <= i < |w| ensures !IsSpace(w[i]) {
      PrintableNotSpace(w[i]);
    }
    SplitTokenFirst(w, []);
    assert w + [] == w;
  }

  /** `[w.lower() for w in ts]`. */
  function LowerAll(ts: seq<string>): (r: seq<string>)
    ensures |r| == |ts| && forall k :: 0 <= k < |ts| ==> r[k] == Lower(ts[k])
  {
    seq(|ts|, k requires 0 <= k < |ts| => Lower(ts[k]))
  }

  lemma LowerKeepsSpace(s: string, i: nat)
    requires i < |s|
    ensures IsSpace(Lower(s)[i]) <==> IsSpace(s[i])
  {
    if IsAsciiUpper(s[i]) {
      PrintableNotSpace(s[i]);
      PrintableNotSpace(Lower(s)[i]);
    }
  }

  lemma LowerKeepsSpaces(s: string)
    ensures forall k :: 0 <= k < |s| ==> (IsSpace(Lower(s)[k]) <==> IsSpace(s[k]))
  {
    forall k | 0 <= k < |s| ensures IsSpace(Lower(s)[k]) <==> IsSpace(s[k]) {
      LowerKeepsSpace(s, k);
    }
  }

  lemma SkipsAfterLower(s: string, i: nat)
    requires i <= |s|
    ensures SkipSpaces(Lower(s), i) == SkipSpaces(s, i)
    ensures SkipToken(Lower(s), i) == SkipToken(s, i)
  {
    LowerKeepsSpaces(s);
    SkipSpacesAt(Lower(s), i, SkipSpaces(s, i));
    SkipTokenAt(Lower(s), i, SkipToken(s, i));
  }

  lemma LowerAllCons(w: string, rest: seq<string>)
    ensures LowerAll([w] + rest) == [Lower(w)] + LowerAll(rest)
  {
    var l, r := LowerAll([w] + rest), [Lower(w)] + LowerAll(rest);
    forall k | 0 <= k < |l| ensures l[k] == r[k] {
      if k > 0 {
        assert ([w] + rest)[k] == rest[k - 1];
      }
    }
  }

  lemma {:induction false} SplitFromLower(s: string, i: nat)
    requires i <= |s|
    ensures SplitFrom(Lower(s), i) == LowerAll(SplitFrom(s, i))
    decreases |s| - i
  {
    var ls := Lower(s);
    var j := SkipSpaces(s, i);
    SkipsAfterLower(s, i);
    if j < |s| {
      var e := SkipToken(s, j);
      SkipsAfterLower(s, j);
      assert SplitFrom(ls, i) == [ls[j..e]] + SplitFrom(ls, e);
      assert SplitFrom(s, i) == [s[j..e]] + SplitFrom(s, e);
      LowerSlice(s, j, e);
      SplitFromLower(s, e);
      LowerAllCons(s[j..e], SplitFrom(s, e));
    } else {
      assert SplitFrom(ls, i) == [] && SplitFrom(s, i) == [];
    }
  }

  /** A law of this model of `str`, not a step the feature lambdas take: `lower()` commutes with
      `split()`, so the tokens of the lower-cased text are the lower-cased tokens. */
  lemma SplitLower(s: string)
    ensures Split(Lower(s)) == LowerAll(Split(s))
  {
    SplitFromLower(s, 0);
  }

  /** No upper-case word among `ts`, none counted. */
  lemma {:induction false} CountUpperNone(ts: seq<string>)
    requires forall k :: 0 <= k < |ts| ==> !IsUpper(ts[k])
    ensures CountUpper(ts) == 0
  {
    if ts != [] {
      CountUpperNone(ts[1..]);
    }
  }

  // ---------------------------------------------------------------------
  // Facts used by the feature extractors

  /** `c * n` for a one-character string `c`. */
  function Repeat(c: char, n: nat): (r: string)
    ensures |r| == n && forall i :: 0 <= i < n ==> r[i] == c
  {
    if n == 0 then [] else [c] + Repeat(c, n - 1)
  }

  lemma {:induction false} CountRepeat(c: char, n: nat)
    ensures Count(Repeat(c, n), c) == n
  {
    if n > 0 {
      assert Repeat(c, n)[1..] == Repeat(c, n - 1);
      CountRepeat(c, n - 1);
    }
  }

  /** A string none of whose characters is in `cs` has no such character to count. */
  lemma {:induction false} CountInNone(s: string, cs: set<char>)
    requires forall i :: 0 <= i < |s| ==> s[i] !in cs
    ensures CountIn(s, cs) == 0
  {
    if s != [] {
      CountInNone(s[1..], cs);
    }
  }

  /** A character that does not occur is counted zero times. */
  lemma CountAbsent(s: string, c: char)
    requires c !in s
    ensures Count(s, c) == 0
  {
    CountIsMultiplicity(s, c);
  }

  /** `lower()` changes only ASCII letters, so it keeps a string of whitespace a string of whitespace. */
  lemma LowerKeepsAllSpace(s: string)
    requires AllSpace(s)
    ensures AllSpace(Lower(s))
  {
    forall i | 0 <= i < |s| ensures IsSpace(Lower(s)[i]) {
      assert !IsAsciiUpper(s[i]);
    }
  }

  /** A term with a non-whitespace character never occurs in a string of whitespace. */
  lemma SpacesContainNoWord(s: string, p: string, j: nat)
    requires AllSpace(s) && j < |p| && !IsSpace(p[j])
    ensures !Contains(s, p)
  {
    if Contains(s, p) {
      ContainedCharsOccur(s, p, j);
      assert false;
    }
  }

  /** The same, for a whole list of terms. */
  lemma {:induction false} SpacesContainNoTerms(s: string, terms: seq<string>)
    requires AllSpace(s)
    requires forall k :: 0 <= k < |terms| ==> !AllSpace(terms[k])
    ensures CountPresent(s, terms) == 0
  {
    if terms != [] {
      var j :| 0 <= j < |terms[0]| && !IsSpace(terms[0][j]);
      SpacesContainNoWord(s, terms[0], j);
      SpacesContainNoTerms(s, terms[1..]);
    }
  }

  /** Every character of `s` belongs to `cs`. */
  predicate CharsIn(s: string, cs: set<char>) {
    forall i :: 0 <= i < |s| ==> s[i] in cs
  }

  /** `[w] * n`. */
  function Copies(w: string, n: nat): seq<string> {
    seq(n, _ => w)
  }

  lemma {:induction false} JoinSpaceLength(ts: seq<string>)
    requires ts != []
    ensures |JoinSpace(ts)| == SumLengths(ts) + |ts| - 1
  {
    if |ts| > 1 {
      JoinSpaceLength(ts[1..]);
    }
  }

  lemma {:induction false} SumLengthsCopies(w: string, n: nat)
    ensures SumLengths(Copies(w, n)) == n * |w|
  {
    if n > 0 {
      assert Copies(w, n)[1..] == Copies(w, n - 1);
      SumLengthsCopies(w, n - 1);
    }
  }

  /** Joining with spaces introduces no character but the space. */
  lemma {:induction false} JoinSpaceCharsIn(ts: seq<string>, cs: set<char>)
    requires ' ' in cs && forall k :: 0 <= k < |ts| ==> CharsIn(ts[k], cs)
    ensures CharsIn(JoinSpace(ts), cs)
  {
    if |ts| > 1 {
      JoinSpaceCharsIn(ts[1..], cs);
      var r := JoinSpace(ts[1..]);
      assert JoinSpace(ts) == ts[0] + [' '] + r;
      forall i | 0 <= i < |JoinSpace(ts)| ensures JoinSpace(ts)[i] in cs {
        if i > |ts[0]| {
          assert JoinSpace(ts)[i] == r[i - |ts[0]| - 1];
        }
      }
    }
  }

  /** A text drawn from `cs` contains none of the terms whose first character lies outside `cs`. */
  lemma TermsOutsideAlphabet(s: string, cs: set<char>, terms: seq<string>)
    requires CharsIn(s, cs)
    requires forall k :: 0 <= k < |terms| ==> terms[k] != [] && terms[k][0] !in cs
    ensures !ContainsAny(s, terms) && CountPresent(s, terms) == 0
  {
    forall k | 0 <= k < |terms| ensures !Contains(s, terms[k]) {
      if Contains(s, terms[k]) {
        ContainedCharsOccur(s, terms[k], 0);
        assert false;
      }
    }
  }

  /** `isupper()` examples: digits and punctuation do not spoil an upper-case token, but
      a token needs at least one cased letter and no lower-case one. */
  lemma IsUpperExamples()
    ensures IsUpper("ABC1!") && IsUpper("URGENT")
    ensures !IsUpper("123") && !IsUpper("Abc") && !IsUpper("")
  {
    assert IsAsciiUpper("ABC1!"[0]);
    assert IsAsciiUpper("URGENT"[0]);
    assert IsAsciiLower("Abc"[1]);
  }
}
