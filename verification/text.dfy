/**
 * Character-level helpers standing in for the Python `str` methods the
 * board code relies on: `strip`, `upper`, `lower`, `split(sep, 1)` and
 * `" " * n`.
 */
module Text {

  /** Python's `str.isspace()`: the ASCII controls it accepts, the space,
      and the Unicode separators (category Zs, and bidi classes B and S). */
  predicate IsSpace(c: char) {
    || '\t' <= c <= '\r' || '\U{1C}' <= c <= ' '
    || c == '\U{85}' || c == '\U{A0}' || c == '\U{1680}'
    || '\U{2000}' <= c <= '\U{200A}' || c == '\U{2028}' || c == '\U{2029}'
    || c == '\U{202F}' || c == '\U{205F}' || c == '\U{3000}'
  }

  predicate AllSpace(s: string) {
    forall i :: 0 <= i < |s| ==> IsSpace(s[i])
  }

  /** Nothing but the space character itself, as `" " * n` produces. */
  predicate Blank(s: string) {
    forall i :: 0 <= i < |s| ==> s[i] == ' '
  }

  /** `s` is `r` with `k` whitespace characters before it and only
      whitespace after it. */
  predicate Surrounds(s: string, k: nat, r: string) {
    && k + |r| <= |s| && r == s[k..k + |r|]
    && AllSpace(s[..k]) && AllSpace(s[k + |r|..])
  }

  /** A string `strip()` leaves alone: empty, or neither end is whitespace. */
  predicate IsStripped(s: string) {
    s == [] || (!IsSpace(s[0]) && !IsSpace(s[|s| - 1]))
  }

  /** `s.lstrip()`: the suffix left after dropping leading whitespace. */
  function StripStart(s: string): (r: string)
    ensures |r| <= |s| && r == s[|s| - |r|..]
    ensures AllSpace(s[..|s| - |r|])
    ensures r == [] || !IsSpace(r[0])
  {
    if |s| > 0 && IsSpace(s[0]) then
      var t := s[1..];
      var r := StripStart(t);
      assert s[..|s| - |r|] == [s[0]] + t[..|t| - |r|];
      assert t[|t| - |r|..] == s[|s| - |r|..];
      r
    else s
  }

  /** `s.rstrip()`: the prefix left after dropping trailing whitespace. */
  function StripEnd(s: string): (r: string)
    ensures |r| <= |s| && r == s[..|r|]
    ensures AllSpace(s[|r|..])
    ensures r == [] || !IsSpace(r[|r| - 1])
  {
    if |s| > 0 && IsSpace(s[|s| - 1]) then
      var t := s[..|s| - 1];
      var r := StripEnd(t);
      assert s[|r|..] == t[|r|..] + [s[|s| - 1]];
      assert t[..|r|] == s[..|r|];
      r
    else s
  }

  /** `s.strip()`. */
  function Strip(s: string): (r: string)
    ensures IsStripped(r)
    ensures |r| <= |s|
    ensures r == [] <==> AllSpace(s)
    ensures IsStripped(s) ==> r == s
  {
    var t := StripStart(s);
    var r := StripEnd(t);
    assert r != [] ==> r[0] == t[0];
    assert AllSpace(s) ==> t == [] by {
      if t != [] { assert t[0] == s[|s| - |t|]; }
    }
    assert r == [] ==> AllSpace(s) by {
      if r == [] {
        assert t == [];
        forall i | 0 <= i < |s| ensures IsSpace(s[i]) {
          assert s[i] == s[..|s| - |t|][i];
        }
      }
    }
    r
  }

  /** What `strip()` keeps is one piece of `s`, with only whitespace
      before and after it. */
  lemma StripSlice(s: string)
    ensures exists k: nat :: Surrounds(s, k, Strip(s))
  {
    StripAt(s);
  }

  /** The same fact with the whitespace on each side handed back. */
  lemma Peel(s: string) returns (w1: string, w2: string)
    ensures AllSpace(w1) && AllSpace(w2) && s == w1 + Strip(s) + w2
  {
    var k := |s| - |StripStart(s)|;
    var r := Strip(s);
    StripAt(s);
    w1, w2 := s[..k], s[k + |r|..];
    ThreeParts(s, k, k + |r|);
  }

  lemma ThreeParts(s: string, i: nat, j: nat)
    requires i <= j <= |s|
    ensures s == s[..i] + s[i..j] + s[j..]
  {
  }

  lemma StripAt(s: string)
    ensures Surrounds(s, |s| - |StripStart(s)|, Strip(s))
  {
    var t := StripStart(s);
    var r := StripEnd(t);
    CutBothEnds(s, t, r);
    assert r == Strip(s);
  }

  /** Dropping a whitespace prefix and then a whitespace suffix leaves a
      piece of the text surrounded by whitespace. */
  lemma CutBothEnds(s: string, t: string, r: string)
    requires |t| <= |s| && t == s[|s| - |t|..] && AllSpace(s[..|s| - |t|])
    requires |r| <= |t| && r == t[..|r|] && AllSpace(t[|r|..])
    ensures Surrounds(s, |s| - |t|, r)
  {
    SliceOfSlice(s, |s| - |t|, |r|);
  }

  lemma SliceOfSlice(s: string, k: nat, n: nat)
    requires k + n <= |s|
    ensures s[k..][..n] == s[k..k + n] && s[k..][n..] == s[k + n..]
  {
  }

  function UpperChar(c: char): char {
    if 'a' <= c <= 'z' then (c as int - 32) as char else c
  }

  function LowerChar(c: char): char {
    if 'A' <= c <= 'Z' then (c as int + 32) as char else c
  }

  predicate NoLowerLetter(s: string) {
    forall i :: 0 <= i < |s| ==> !('a' <= s[i] <= 'z')
  }

  predicate NoUpperLetter(s: string) {
    forall i :: 0 <= i < |s| ==> !('A' <= s[i] <= 'Z')
  }

  /** `s.upper()` over ASCII letters. */
  function Upper(s: string): (r: string)
    ensures |r| == |s|
    ensures forall i :: 0 <= i < |s| ==> r[i] == UpperChar(s[i])
  {
    seq(|s|, i requires 0 <= i < |s| => UpperChar(s[i]))
  }

  /** `s.lower()` over ASCII letters. */
  function Lower(s: string): (r: string)
    ensures |r| == |s|
    ensures forall i :: 0 <= i < |s| ==> r[i] == LowerChar(s[i])
  {
    seq(|s|, i requires 0 <= i < |s| => LowerChar(s[i]))
  }

  /** `upper()` and `lower()` change letters only in case: the two agree
      once case is folded, `upper()` leaves no lower-case letter and
      `lower()` no upper-case one. */
  lemma CaseFolding(s: string)
    ensures Lower(Upper(s)) == Lower(s) && Upper(Lower(s)) == Upper(s)
    ensures NoLowerLetter(Upper(s)) && NoUpperLetter(Lower(s))
  {
    assert forall i :: 0 <= i < |s| ==> Lower(Upper(s))[i] == Lower(s)[i];
    assert forall i :: 0 <= i < |s| ==> Upper(Lower(s))[i] == Upper(s)[i];
  }

  /** Those facts determine `upper()`: a text of the same length that
      agrees with `s` up to case and has no lower-case letter is `s.upper()`. */
  lemma UpperUnique(s: string, r: string)
    requires |r| == |s| && Lower(r) == Lower(s) && NoLowerLetter(r)
    ensures r == Upper(s)
  {
    forall i | 0 <= i < |s| ensures r[i] == Upper(s)[i] {
      assert LowerChar(r[i]) == LowerChar(s[i]) by { assert Lower(r)[i] == Lower(s)[i]; }
    }
  }

  /** And the mirror image for `lower()`. */
  lemma LowerUnique(s: string, r: string)
    requires |r| == |s| && Upper(r) == Upper(s) && NoUpperLetter(r)
    ensures r == Lower(s)
  {
    forall i | 0 <= i < |s| ensures r[i] == Lower(s)[i] {
      assert UpperChar(r[i]) == UpperChar(s[i]) by { assert Upper(r)[i] == Upper(s)[i]; }
    }
  }

  /** Index of the first `c` in `s` (what `str.split(c, 1)` cuts at). */
  function FirstIndex(s: string, c: char): (i: nat)
    requires c in s
    ensures i < |s| && s[i] == c
    ensures c !in s[..i]
  {
    if s[0] == c then 0
    else
      assert c in s[1..] by { var k :| 0 <= k < |s| && s[k] == c; assert s[1..][k - 1] == c; }
      var i := 1 + FirstIndex(s[1..], c);
      assert s[..i] == [s[0]] + s[1..][..i - 1];
      i
  }

  /** `s.split(c, 1)` unpacked into two parts: text before the first `c`
      and text after it. */
  function SplitOnce(s: string, c: char): (parts: (string, string))
    requires c in s
    ensures s == parts.0 + [c] + parts.1
    ensures c !in parts.0
  {
    var i := FirstIndex(s, c);
    assert s == s[..i] + [c] + s[i + 1..];
    (s[..i], s[i + 1..])
  }

  /** Stripping removes whitespace only: every other character survives. */
  lemma StripKeeps(s: string, c: char)
    requires !IsSpace(c)
    ensures c in Strip(s) <==> c in s
  {
    var t := StripStart(s);
    var r := StripEnd(t);
    assert r == Strip(s);
    var k := |s| - |t|;
    forall i | 0 <= i < k ensures IsSpace(s[i]) {
      assert s[i] == s[..k][i];
    }
    forall j | |r| <= j < |t| ensures IsSpace(t[j]) {
      assert t[j] == t[|r|..][j - |r|];
    }
    if c in s {
      var i :| 0 <= i < |s| && s[i] == c;
      assert t[i - k] == c;
      assert r[i - k] == c;
    }
    if c in r {
      var j :| 0 <= j < |r| && r[j] == c;
      assert t[j] == c;
      assert s[j + k] == c;
    }
  }

  /** Stripping never brings in a character the text lacks. */
  lemma StripWithout(s: string, c: char)
    requires c !in s
    ensures c !in Strip(s)
  {
    var t := StripStart(s);
    SuffixKeepsOut(s, |s| - |t|, c);
    PrefixKeepsOut(t, |StripEnd(t)|, c);
  }

  /** The converse of the slice property: whitespace around a stripped
      text is exactly what `strip()` removes. */
  lemma StripPadded(w1: string, x: string, w2: string)
    requires AllSpace(w1) && AllSpace(w2) && IsStripped(x)
    ensures Strip(w1 + x + w2) == x
  {
    if x != [] {
      assert w1 + x + w2 == w1 + (x + w2);
      StripStartPadded(w1, x + w2);
      StripEndPadded(x, w2);
    } else {
      assert w1 + x + w2 == w1 + w2;
      AllSpaceAppend(w1, w2);
    }
  }

  lemma AllSpaceAppend(a: string, b: string)
    requires AllSpace(a) && AllSpace(b)
    ensures AllSpace(a + b)
  {
    forall i | 0 <= i < |a + b| ensures IsSpace((a + b)[i]) {
      if i < |a| { assert (a + b)[i] == a[i]; } else { assert (a + b)[i] == b[i - |a|]; }
    }
  }

  lemma {:induction false} StripStartPadded(w: string, x: string)
    requires AllSpace(w) && (x == [] || !IsSpace(x[0]))
    ensures StripStart(w + x) == x
    decreases |w|
  {
    if w != [] {
      assert (w + x)[0] == w[0] && (w + x)[1..] == w[1..] + x;
      StripStartPadded(w[1..], x);
    } else {
      assert w + x == x;
    }
  }

  lemma {:induction false} StripEndPadded(x: string, w: string)
    requires AllSpace(w) && (x == [] || !IsSpace(x[|x| - 1]))
    ensures StripEnd(x + w) == x
    decreases |w|
  {
    if w != [] {
      var n := |w| - 1;
      assert (x + w)[|x + w| - 1] == w[n] && (x + w)[..|x + w| - 1] == x + w[..n];
      StripEndPadded(x, w[..n]);
    } else {
      assert x + w == x;
    }
  }

  lemma SuffixKeepsOut(s: string, k: nat, c: char)
    requires k <= |s| && c !in s
    ensures c !in s[k..]
  {
    assert forall i :: 0 <= i < |s| - k ==> s[k..][i] == s[k + i];
  }

  lemma PrefixKeepsOut(s: string, k: nat, c: char)
    requires k <= |s| && c !in s
    ensures c !in s[..k]
  {
    assert forall i :: 0 <= i < k ==> s[..k][i] == s[i];
  }

  /** Cutting at the first `c` is the only cut whose left part is free of `c`. */
  lemma SplitOnceUnique(s: string, c: char, a: string, b: string)
    requires s == a + [c] + b && c !in a
    ensures c in s && SplitOnce(s, c) == (a, b)
  {
    assert s[|a|] == c;
    var i := FirstIndex(s, c);
    assert s[..i] == a;
    assert s[i + 1..] == b;
  }

  /** `" " * n` in Python: the empty string when `n <= 0`. */
  function Spaces(n: int): (r: string)
    ensures |r| == if n > 0 then n else 0
    ensures AllSpace(r) && Blank(r)
  {
    if n <= 0 then [] else [' '] + Spaces(n - 1)
  }
}
