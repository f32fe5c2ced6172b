/**
 * The colouring the viewer lays over each displayed line, lifted out of
 * `ProtoBoardApp.refresh` as pure functions. Two mechanisms produce spans:
 * a leftmost-first scan for the words `rojo` and `azul` and the jumper
 * marks `J+` and `J-`, and four value spans placed between the first three
 * and the last three `|` of a line that has at least nine of them.
 * A span is a half-open range of 0-based character offsets of one line.
 */
module Highlight {
  import opened Text
  import opened Digits
  import opened Format
  import opened Board
  import opened Render

  /** The three text tags the viewer configures. */
  datatype Tag = Rojo | Azul | Jumper

  /** One `tag_add`: characters `start..end` of a line get `tag`. */
  datatype Span = Span(tag: Tag, start: int, end: int)

  predicate OccursAt(line: string, needle: string, i: int) {
    0 <= i && i + |needle| <= |line| && line[i..i + |needle|] == needle
  }

  /** No occurrence of the needle starts in `lo..hi`. */
  ghost predicate NoneIn(line: string, needle: string, lo: int, hi: int) {
    forall i :: lo <= i < hi ==> !OccursAt(line, needle, i)
  }

  /** No occurrence of the needle starts at or after `lo`. */
  ghost predicate NoneFrom(line: string, needle: string, lo: int) {
    forall i :: lo <= i ==> !OccursAt(line, needle, i)
  }

  /** Python's `line.find(needle, from)`: the leftmost occurrence at or
      after `from`, or -1 when there is none. */
  function Find(line: string, needle: string, from: nat): (r: int)
    ensures r == -1 || (from <= r && OccursAt(line, needle, r))
    ensures r == -1 ==> forall i :: from <= i ==> !OccursAt(line, needle, i)
    ensures r != -1 ==> forall i :: from <= i < r ==> !OccursAt(line, needle, i)
    decreases |line| - from
  {
    if from + |needle| > |line| then -1
    else if line[from..from + |needle|] == needle then from
    else Find(line, needle, from + 1)
  }

  // ---------------------------------------------------------------------
  // The leftmost-first scan

  /** `starts` is what a leftmost-first, non-overlapping scan from `col`
      finds: nothing when no occurrence is left, otherwise the leftmost
      occurrence at or after `col` followed by the scan from the end of
      that occurrence. */
  ghost predicate GreedyFrom(line: string, needle: string, col: int, starts: seq<int>)
    decreases |starts|
  {
    if starts == [] then NoneFrom(line, needle, col)
    else
      && col <= starts[0] && OccursAt(line, needle, starts[0])
      && NoneIn(line, needle, col, starts[0])
      && GreedyFrom(line, needle, starts[0] + |needle|, starts[1..])
  }

  /** The greedy description of a scan from the beginning of the line. */
  ghost predicate GreedyScan(line: string, needle: string, starts: seq<int>) {
    GreedyFrom(line, needle, 0, starts)
  }

  /** The scan loop of `refresh` as a recursion: `find` from `col`, record
      the match, resume after it. */
  function ScanFrom(line: string, needle: string, col: nat): seq<int>
    requires |needle| > 0
    decreases |line| - col
  {
    var i := Find(line, needle, col);
    if i == -1 then []
    else [i] + ScanFrom(line, needle, i + |needle|)
  }

  /** The scan is leftmost-first: it meets the greedy description. */
  lemma {:induction false} ScanGreedy(line: string, needle: string, col: nat)
    requires |needle| > 0
    ensures GreedyFrom(line, needle, col, ScanFrom(line, needle, col))
    decreases |line| - col
  {
    var i := Find(line, needle, col);
    if i != -1 {
      var rest := ScanFrom(line, needle, i + |needle|);
      ScanGreedy(line, needle, i + |needle|);
      assert ScanFrom(line, needle, col) == [i] + rest;
      assert ([i] + rest)[1..] == rest;
    }
  }

  /** The matches of a greedy scan are occurrences, in order, and never
      overlap. */
  lemma {:induction false} GreedyApart(line: string, needle: string, col: int, s: seq<int>)
    requires GreedyFrom(line, needle, col, s)
    ensures forall k :: 0 <= k < |s| ==> col <= s[k] && OccursAt(line, needle, s[k])
    ensures forall j, k :: 0 <= j < k < |s| ==> s[j] + |needle| <= s[k]
    decreases |s|
  {
    if s != [] {
      var rest := s[1..];
      GreedyApart(line, needle, s[0] + |needle|, rest);
      forall k | 0 < k < |s|
        ensures s[k] == rest[k - 1]
      {
      }
    }
  }

  /** Two leftmost occurrences from the same point are the same. */
  lemma LeftmostUnique(line: string, needle: string, col: int, x: int, y: int)
    requires col <= x && OccursAt(line, needle, x) && NoneIn(line, needle, col, x)
    requires col <= y && OccursAt(line, needle, y) && NoneIn(line, needle, col, y)
    ensures x == y
  {
  }

  /** The greedy description determines the scan: there is exactly one
      sequence of starts a leftmost-first scan can produce. */
  lemma {:induction false} GreedyUnique(line: string, needle: string, col: int, a: seq<int>, b: seq<int>)
    requires GreedyFrom(line, needle, col, a) && GreedyFrom(line, needle, col, b)
    ensures a == b
    decreases |a|
  {
    if a != [] && b != [] {
      LeftmostUnique(line, needle, col, a[0], b[0]);
      GreedyUnique(line, needle, a[0] + |needle|, a[1..], b[1..]);
      assert a == [a[0]] + a[1..] && b == [b[0]] + b[1..];
    }
  }

  /** `starts` is the part of a leftmost-first scan from `from` that
      ends where the search resumes at `col`. */
  ghost predicate GreedyUpTo(line: string, needle: string, from: int, starts: seq<int>, col: int)
    decreases |starts|
  {
    if starts == [] then from == col
    else
      && from <= starts[0] && OccursAt(line, needle, starts[0])
      && NoneIn(line, needle, from, starts[0])
      && GreedyUpTo(line, needle, starts[0] + |needle|, starts[1..], col)
  }

  /** Taking the leftmost occurrence from `col` extends the scan so far. */
  lemma {:induction false} GreedyUpToSnoc(line: string, needle: string, from: int, starts: seq<int>, col: int, i: int)
    requires GreedyUpTo(line, needle, from, starts, col)
    requires col <= i && OccursAt(line, needle, i) && NoneIn(line, needle, col, i)
    ensures GreedyUpTo(line, needle, from, starts + [i], i + |needle|)
    decreases |starts|
  {
    if starts == [] {
      assert [i][1..] == [];
    } else {
      GreedyUpToSnoc(line, needle, starts[0] + |needle|, starts[1..], col, i);
      assert (starts + [i])[1..] == starts[1..] + [i];
    }
  }

  /** When nothing is left after `col`, the scan so far is the whole scan. */
  lemma {:induction false} GreedyUpToDone(line: string, needle: string, from: int, starts: seq<int>, col: int)
    requires GreedyUpTo(line, needle, from, starts, col) && NoneFrom(line, needle, col)
    ensures GreedyFrom(line, needle, from, starts)
    decreases |starts|
  {
    if starts != [] {
      GreedyUpToDone(line, needle, starts[0] + |needle|, starts[1..], col);
    }
  }

  /** The scan of `refresh`, loop for loop: repeatedly `find` the needle
      from `col` and continue after the match, until `find` gives -1. */
  method ScanNeedle(line: string, needle: string) returns (starts: seq<int>)
    requires |needle| > 0
    ensures GreedyScan(line, needle, starts)
    ensures forall j, k :: 0 <= j < k < |starts| ==> starts[j] + |needle| <= starts[k]
    ensures starts == ScanFrom(line, needle, 0)
  {
    var col: nat := 0;
    starts := [];
    var i := Find(line, needle, col);
    while i != -1
      invariant col <= |line| && i == Find(line, needle, col)
      invariant GreedyUpTo(line, needle, 0, starts, col)
      decreases |line| - col
    {
      GreedyUpToSnoc(line, needle, 0, starts, col, i);
      starts := starts + [i];
      col := i + |needle|;
      i := Find(line, needle, col);
    }
    GreedyUpToDone(line, needle, 0, starts, col);
    GreedyApart(line, needle, 0, starts);
    ScanGreedy(line, needle, 0);
    GreedyUnique(line, needle, 0, starts, ScanFrom(line, needle, 0));
  }

  /** No proper suffix of the needle is also a prefix of it, so two of
      its occurrences can never overlap. */
  predicate SelfOverlapFree(needle: string) {
    forall d :: 0 < d < |needle| ==> needle[d..] != needle[..|needle| - d]
  }

  /** Two occurrences closer than the needle's length overlap, and the
      overlap is a suffix of the needle that is also a prefix of it. */
  lemma OverlapOrApart(line: string, needle: string, p: int, q: int)
    requires OccursAt(line, needle, p) && OccursAt(line, needle, q) && p < q
    ensures p + |needle| <= q || needle[q - p..] == needle[..|needle| - (q - p)]
  {
    if q < p + |needle| {
      var d := q - p;
      assert line[q..p + |needle|] == line[p..p + |needle|][d..];
      assert line[q..p + |needle|] == line[q..q + |needle|][..|needle| - d];
    }
  }

  /** For a needle whose occurrences cannot overlap, the greedy scan
      misses none of them. */
  lemma {:induction false} GreedyFindsAll(line: string, needle: string, col: int, s: seq<int>, p: int)
    requires SelfOverlapFree(needle)
    requires GreedyFrom(line, needle, col, s)
    requires col <= p && OccursAt(line, needle, p)
    ensures p in s
    decreases |s|
  {
    if s != [] && p != s[0] {
      assert s[0] < p;
      OverlapOrApart(line, needle, s[0], p);
      GreedyFindsAll(line, needle, s[0] + |needle|, s[1..], p);
      assert s == [s[0]] + s[1..];
    }
  }

  /** A needle whose first character does not recur in it cannot overlap
      itself. */
  lemma HeadUnique(needle: string)
    requires |needle| > 0 && forall d :: 0 < d < |needle| ==> needle[d] != needle[0]
    ensures SelfOverlapFree(needle)
  {
    forall d | 0 < d < |needle|
      ensures needle[d..] != needle[..|needle| - d]
    {
      assert needle[d..][0] != needle[..|needle| - d][0];
    }
  }

  /** The four needles the viewer scans for. */
  lemma NeedlesOverlapFree()
    ensures SelfOverlapFree("rojo") && SelfOverlapFree("azul")
    ensures SelfOverlapFree("J+") && SelfOverlapFree("J-")
  {
    HeadUnique("rojo");
    HeadUnique("azul");
    HeadUnique("J+");
    HeadUnique("J-");
  }

  /** Every occurrence of `rojo`, `azul`, `J+` or `J-` is coloured. */
  lemma ScanMarksEveryOccurrence(line: string, needle: string, p: int)
    requires needle in ["rojo", "azul", "J+", "J-"]
    requires OccursAt(line, needle, p)
    ensures p in ScanFrom(line, needle, 0)
  {
    NeedlesOverlapFree();
    ScanGreedy(line, needle, 0);
    GreedyFindsAll(line, needle, 0, ScanFrom(line, needle, 0), p);
  }

  /** Adjacent jumper marks are both found; an overlapping second match
      of a self-overlapping needle is not. */
  lemma ScanExamples()
    ensures ScanFrom("J+J+", "J+", 0) == [0, 2]
    ensures ScanFrom("aaa", "aa", 0) == [0]
  {
    assert OccursAt("J+J+", "J+", 0) && OccursAt("J+J+", "J+", 2);
    assert GreedyFrom("J+J+", "J+", 4, []);
    assert [0, 2][1..] == [2] && [2][1..] == [];
    ScanGreedy("J+J+", "J+", 0);
    GreedyUnique("J+J+", "J+", 0, ScanFrom("J+J+", "J+", 0), [0, 2]);
    assert OccursAt("aaa", "aa", 0);
    assert GreedyFrom("aaa", "aa", 2, []);
    assert [0][1..] == [];
    ScanGreedy("aaa", "aa", 0);
    GreedyUnique("aaa", "aa", 0, ScanFrom("aaa", "aa", 0), [0]);
  }

  /** The spans `refresh` tags for one needle. */
  function NeedleSpans(line: string, needle: string, tag: Tag): (r: seq<Span>)
    requires |needle| > 0
    ensures forall k :: 0 <= k < |r| ==>
      r[k].tag == tag && r[k].end == r[k].start + |needle| && OccursAt(line, needle, r[k].start)
    ensures forall j, k :: 0 <= j < k < |r| ==> r[j].end <= r[k].start
    ensures forall sp :: sp in r ==> 0 <= sp.start < sp.end <= |line|
  {
    var s := ScanFrom(line, needle, 0);
    ScanGreedy(line, needle, 0);
    GreedyApart(line, needle, 0, s);
    Tagged(s, tag, |needle|)
  }

  /** One span of width `w` from each start. */
  function Tagged(starts: seq<int>, tag: Tag, w: nat): seq<Span> {
    seq(|starts|, k requires 0 <= k < |starts| => Span(tag, starts[k], starts[k] + w))
  }

  /** For the four needles of the viewer, the spans of one needle are
      exactly its occurrences. */
  lemma NeedleSpanIff(line: string, needle: string, tag: Tag, sp: Span)
    requires needle in ["rojo", "azul", "J+", "J-"]
    ensures sp in NeedleSpans(line, needle, tag)
      <==> sp.tag == tag && sp.end == sp.start + |needle| && OccursAt(line, needle, sp.start)
  {
    var r := NeedleSpans(line, needle, tag);
    if sp.tag == tag && sp.end == sp.start + |needle| && OccursAt(line, needle, sp.start) {
      ScanMarksEveryOccurrence(line, needle, sp.start);
      var s := ScanFrom(line, needle, 0);
      var k :| 0 <= k < |s| && s[k] == sp.start;
      assert r[k] == sp;
    }
  }

  // ---------------------------------------------------------------------
  // The value spans

  /** The positions of `|` among the first `n` characters of `s`. */
  function BarsUpTo(s: string, n: nat): seq<int>
    requires n <= |s|
  {
    if n == 0 then []
    else BarsUpTo(s, n - 1) + (if s[n - 1] == '|' then [n - 1] else [])
  }

  /** `[i for i, c in enumerate(line) if c == '|']`. */
  function Bars(s: string): seq<int> {
    BarsUpTo(s, |s|)
  }

  lemma {:induction false} BarsUpToSpec(s: string, n: nat)
    requires n <= |s|
    ensures forall k :: 0 <= k < |BarsUpTo(s, n)| ==> 0 <= BarsUpTo(s, n)[k] < n && s[BarsUpTo(s, n)[k]] == '|'
    ensures forall j, k :: 0 <= j < k < |BarsUpTo(s, n)| ==> BarsUpTo(s, n)[j] < BarsUpTo(s, n)[k]
    ensures forall i :: 0 <= i < n && s[i] == '|' ==> i in BarsUpTo(s, n)
  {
    if n > 0 {
      BarsUpToSpec(s, n - 1);
    }
  }

  /** The bars are listed in increasing order, and they are exactly the
      positions of `|` in the text. */
  lemma BarsSpec(s: string)
    ensures forall k :: 0 <= k < |Bars(s)| ==> 0 <= Bars(s)[k] < |s| && s[Bars(s)[k]] == '|'
    ensures forall j, k :: 0 <= j < k < |Bars(s)| ==> Bars(s)[j] < Bars(s)[k]
    ensures forall i :: 0 <= i < |s| && s[i] == '|' ==> i in Bars(s)
  {
    BarsUpToSpec(s, |s|);
  }

  /** Every position of `q`, moved right by `d`. */
  function Shift(q: seq<int>, d: int): seq<int> {
    seq(|q|, k requires 0 <= k < |q| => q[k] + d)
  }

  /** Bars within the left part of a concatenation are those of the
      left part. */
  lemma {:induction false} BarsUpToLeft(a: string, b: string, n: nat)
    requires n <= |a|
    ensures BarsUpTo(a + b, n) == BarsUpTo(a, n)
  {
    if n > 0 {
      BarsUpToLeft(a, b, n - 1);
    }
  }

  lemma {:induction false} BarsUpToRight(a: string, b: string, n: nat)
    requires n <= |b|
    ensures BarsUpTo(a + b, |a| + n) == BarsUpTo(a, |a|) + Shift(BarsUpTo(b, n), |a|)
  {
    if n == 0 {
      BarsUpToLeft(a, b, |a|);
    } else {
      BarsUpToRight(a, b, n - 1);
      var tail := if b[n - 1] == '|' then [n - 1] else [];
      assert (a + b)[|a| + n - 1] == b[n - 1];
      assert Shift(BarsUpTo(b, n), |a|) == Shift(BarsUpTo(b, n - 1), |a|) + Shift(tail, |a|);
    }
  }

  /** The bars of a concatenation: those of the left part, then those of
      the right part moved past it. */
  lemma BarsAppend(a: string, b: string)
    ensures Bars(a + b) == Bars(a) + Shift(Bars(b), |a|)
  {
    BarsUpToRight(a, b, |b|);
  }

  lemma {:induction false} BarsUpToNone(s: string, n: nat)
    requires n <= |s| && '|' !in s
    ensures BarsUpTo(s, n) == []
  {
    if n > 0 {
      BarsUpToNone(s, n - 1);
      assert s[n - 1] in s;
    }
  }

  lemma BarsNone(s: string)
    requires '|' !in s
    ensures Bars(s) == []
  {
    BarsUpToNone(s, |s|);
  }

  /** A text without bars adds none. */
  lemma BarsPlain(x: string, y: string)
    requires '|' !in y
    ensures Bars(x + y) == Bars(x)
  {
    BarsAppend(x, y);
    BarsNone(y);
  }

  lemma BarsOfLiterals()
    ensures Bars(" | ") == [1] && Bars("| ") == [0] && Bars(" |") == [1]
  {
    assert BarsUpTo(" | ", 1) == [] && BarsUpTo(" | ", 2) == [1];
    assert BarsUpTo("| ", 1) == [0];
    assert BarsUpTo(" |", 1) == [];
  }

  lemma ShiftOne(p: int, d: int)
    ensures Shift([p], d) == [p + d]
  {
  }

  lemma BarsSep(x: string)
    ensures Bars(x + " | ") == Bars(x) + [|x| + 1]
  {
    BarsAppend(x, " | ");
    var q := Bars(" | ");
    assert q == [1] by { BarsOfLiterals(); }
    ShiftOne(1, |x|);
  }

  lemma BarsOpen(x: string)
    ensures Bars(x + "| ") == Bars(x) + [|x|]
  {
    BarsAppend(x, "| ");
    var q := Bars("| ");
    assert q == [0] by { BarsOfLiterals(); }
    ShiftOne(0, |x|);
  }

  lemma BarsClose(x: string)
    ensures Bars(x + " |") == Bars(x) + [|x| + 1]
  {
    BarsAppend(x, " |");
    var q := Bars(" |");
    assert q == [1] by { BarsOfLiterals(); }
    ShiftOne(1, |x|);
  }

  /** Between two consecutive bars there is none. */
  lemma BarsGap(s: string, j: nat)
    requires j + 1 < |Bars(s)|
    ensures forall i :: 0 <= i < |s| && Bars(s)[j] < i < Bars(s)[j + 1] ==> s[i] != '|'
  {
    var r := Bars(s);
    BarsSpec(s);
    assert forall k :: 0 <= k < |r| ==> r[k] <= r[j] || r[j + 1] <= r[k];
  }

  /** One guarded `tag_add` of the value spans: emitted only when the
      range is not empty. */
  function Emit(tag: Tag, ini: int, fin: int): seq<Span> {
    if ini < fin then [Span(tag, ini, fin)] else []
  }

  /** The value spans of a line: from two past a bar to one before the
      next, between the first three and between the last three bars,
      when the line has at least nine bars. */
  function ValueSpans(line: string): (r: seq<Span>)
    ensures |Bars(line)| < 9 ==> r == []
    ensures |r| <= 4
    ensures forall sp :: sp in r ==> 0 <= sp.start < sp.end <= |line| && NoBarIn(line, sp.start, sp.end)
    ensures forall sp :: sp in r ==> sp.tag != Jumper
  {
    var b := Bars(line);
    if |b| < 9 then []
    else
      SpansBetweenSound(line);
      SpansBetween(b)
  }

  lemma SpansBetweenSound(line: string)
    requires |Bars(line)| >= 9
    ensures var r := SpansBetween(Bars(line));
      && |r| <= 4
      && (forall sp :: sp in r ==> 0 <= sp.start < sp.end <= |line| && NoBarIn(line, sp.start, sp.end))
      && (forall sp :: sp in r ==> sp.tag != Jumper)
  {
    var b := Bars(line);
    BetweenBars(line, Rojo, 0);
    BetweenBars(line, Azul, 1);
    BetweenBars(line, Rojo, |b| - 3);
    BetweenBars(line, Azul, |b| - 2);
  }

  /** The four guarded `tag_add` calls over the bar offsets `b`. */
  function SpansBetween(b: seq<int>): seq<Span>
    requires |b| >= 9
  {
    Emit(Rojo, b[0] + 2, b[1] - 1) + Emit(Azul, b[1] + 2, b[2] - 1)
      + Emit(Rojo, b[|b| - 3] + 2, b[|b| - 2] - 1) + Emit(Azul, b[|b| - 2] + 2, b[|b| - 1] - 1)
  }

  predicate NoBarIn(line: string, lo: int, hi: int)
    requires 0 <= lo <= hi <= |line|
  {
    forall i :: lo <= i < hi ==> line[i] != '|'
  }

  /** A span between consecutive bars stays inside the line and holds no
      bar. */
  lemma BetweenBars(line: string, tag: Tag, j: nat)
    requires j + 1 < |Bars(line)|
    ensures var b := Bars(line);
      forall sp :: sp in Emit(tag, b[j] + 2, b[j + 1] - 1) ==>
        sp.tag == tag && 0 <= sp.start < sp.end <= |line| && NoBarIn(line, sp.start, sp.end)
  {
    BarsSpec(line);
    BarsGap(line, j);
  }

  /** A field without bars followed by a separator adds the separator's
      bar. */
  lemma BarsFieldSep(x: string, f: string)
    requires '|' !in f
    ensures Bars(x + f + " | ") == Bars(x) + [|x| + |f| + 1]
  {
    BarsPlain(x, f);
    BarsSep(x + f);
  }

  /** The bars before a framed line's middle. */
  lemma FramedHeadBars(key: string, f1: string, f2: string)
    requires '|' !in key && '|' !in f1 && '|' !in f2
    requires |f1| == 4 && |f2| == 4
    ensures Bars(key + " | " + f1 + " | " + f2 + " | ") == [|key| + 1, |key| + 8, |key| + 15]
  {
    BarsNone(key);
    BarsSep(key);
    BarsFieldSep(key + " | ", f1);
    BarsFieldSep(key + " | " + f1 + " | ", f2);
  }

  lemma SnocTwo(q: seq<int>, a: int, b: int)
    ensures q + [a] + [b] == q + [a, b]
  {
  }

  lemma SnocThree(q: seq<int>, a: int, b: int, c: int)
    ensures q + [a, b] + [c] == q + [a, b, c]
  {
  }

  lemma OpenFieldSepBars(p: string, f: string)
    requires '|' !in f && |f| == 4
    ensures Bars(p + "| " + f + " | ") == Bars(p) + [|p|, |p| + 7]
  {
    BarsOpen(p);
    BarsFieldSep(p + "| ", f);
    SnocTwo(Bars(p), |p|, |p| + 7);
  }

  /** The bars after a framed line's middle. */
  lemma FramedTailBars(p: string, f3: string, f4: string)
    requires '|' !in f3 && '|' !in f4
    requires |f3| == 4 && |f4| == 4
    ensures Bars(p + "| " + f3 + " | " + f4 + " |") == Bars(p) + [|p|, |p| + 7, |p| + 14]
  {
    var p2 := p + "| " + f3 + " | ";
    var p3 := p2 + f4;
    OpenFieldSepBars(p, f3);
    BarsPlain(p2, f4);
    BarsClose(p3);
    assert |p3| + 1 == |p| + 14;
    SnocThree(Bars(p), |p|, |p| + 7, |p| + 14);
    assert Bars(p3 + " |") == Bars(p) + [|p|, |p| + 7] + [|p| + 14];
  }

  /** The bars up to the end of a framed line's middle. */
  lemma FramedHeadMiddleBars(key: string, f1: string, f2: string, middle: string)
    requires '|' !in key && '|' !in f1 && '|' !in f2
    requires |f1| == 4 && |f2| == 4
    ensures Bars(key + " | " + f1 + " | " + f2 + " | " + middle)
      == [|key| + 1, |key| + 8, |key| + 15] + Shift(Bars(middle), |key| + 17)
  {
    FramedHeadBars(key, f1, f2);
    BarsAppend(key + " | " + f1 + " | " + f2 + " | ", middle);
  }

  /** The bars of a framed line: three before the middle, the middle's
      own, three after it. */
  lemma FramedBars(key: string, f1: string, f2: string, middle: string, f3: string, f4: string)
    requires '|' !in key && '|' !in f1 && '|' !in f2 && '|' !in f3 && '|' !in f4
    requires |f1| == 4 && |f2| == 4 && |f3| == 4 && |f4| == 4
    ensures var n, m := |key|, |middle|;
      Bars(Framed(key, f1, f2, middle, f3, f4))
        == [n + 1, n + 8, n + 15] + Shift(Bars(middle), n + 17) + [n + m + 17, n + m + 24, n + m + 31]
  {
    var hm := key + " | " + f1 + " | " + f2 + " | " + middle;
    FramedHeadMiddleBars(key, f1, f2, middle);
    FramedTailBars(hm, f3, f4);
    FramedSplit(key, f1, f2, middle, f3, f4);
  }

  lemma FramedSplit(key: string, f1: string, f2: string, middle: string, f3: string, f4: string)
    ensures Framed(key, f1, f2, middle, f3, f4)
      == (key + " | " + f1 + " | " + f2 + " | " + middle) + "| " + f3 + " | " + f4 + " |"
  {
  }

  /** Bars add up over a concatenation. */
  lemma BarsCount(a: string, b: string)
    ensures |Bars(a + b)| == |Bars(a)| + |Bars(b)|
  {
    BarsAppend(a, b);
  }

  lemma BarsOfMiddleLiterals()
    ensures |Bars("---")| == 0 && |Bars(" | ")| == 1 && |Bars(" |")| == 1
    ensures |Bars("| ")| == 1 && |Bars(SEP)| == 0
  {
    BarsOfLiterals();
    BarsNone("---");
    BarsNone(SEP);
  }

  /** The middle of a line has its four own bars and those of the two
      banks. */
  lemma MiddleBars(left: string, right: string)
    ensures |Bars(Middle(left, right))| == 4 + |Bars(left)| + |Bars(right)|
  {
    BarsOfMiddleLiterals();
    var p1 := "---" + " | ";
    BarsCount("---", " | ");
    var p2 := p1 + left;
    BarsCount(p1, left);
    var p3 := p2 + " |";
    BarsCount(p2, " |");
    var p4 := p3 + SEP;
    BarsCount(p3, SEP);
    var p5 := p4 + "| ";
    BarsCount(p4, "| ");
    var p6 := p5 + right;
    BarsCount(p5, right);
    var p7 := p6 + " |";
    BarsCount(p6, " |");
    BarsCount(p7, SEP);
    assert Middle(left, right) == p7 + SEP;
  }

  /** The value spans of a framed line whose key and rail fields hold no
      bar are exactly the four rail fields, whatever the middle holds, as
      long as it has three bars of its own. */
  lemma FramedValueSpans(key: string, f1: string, f2: string, middle: string, f3: string, f4: string)
    requires '|' !in key && '|' !in f1 && '|' !in f2 && '|' !in f3 && '|' !in f4
    requires |f1| == 4 && |f2| == 4 && |f3| == 4 && |f4| == 4
    requires |Bars(middle)| >= 3
    ensures var n, m := |key|, |middle|;
      ValueSpans(Framed(key, f1, f2, middle, f3, f4))
        == [Span(Rojo, n + 3, n + 7), Span(Azul, n + 10, n + 14),
            Span(Rojo, n + m + 19, n + m + 23), Span(Azul, n + m + 26, n + m + 30)]
  {
    var n, m := |key|, |middle|;
    var line := Framed(key, f1, f2, middle, f3, f4);
    FramedBars(key, f1, f2, middle, f3, f4);
    var b := Bars(line);
    var mid := Shift(Bars(middle), n + 17);
    assert b == [n + 1, n + 8, n + 15] + mid + [n + m + 17, n + m + 24, n + m + 31];
    assert |b| == |mid| + 6;
    assert b[0] == n + 1 && b[1] == n + 8 && b[2] == n + 15;
    assert b[|b| - 3] == n + m + 17 && b[|b| - 2] == n + m + 24 && b[|b| - 1] == n + m + 31;
  }

  lemma DigitsNoBar(s: string)
    requires IsDigits(s)
    ensures '|' !in s
  {
    assert forall i :: 0 <= i < |s| ==> IsDigit(s[i]);
  }

  /** No rail token of row `rkey` holds a bar. */
  predicate RailsPlain(b: Board, rkey: string)
    requires HasRails(b)
  {
    forall code :: code in RAIL_KEYS ==> '|' !in RailAt(b, code, rkey)
  }

  lemma RailFieldPlain(b: Board, code: string, rkey: string)
    requires HasRails(b) && RailsPlain(b, rkey) && code in RAIL_KEYS
    ensures '|' !in RailField(b, code, rkey) && |RailField(b, code, rkey)| == RAIL_W
  {
    FixWidthAddsOnlySpaces(RailAt(b, code, rkey), RAIL_W, '|');
  }

  /** The four value spans of a line of length `l` whose rail fields
      start `n + 3` and `n + 10` characters in and end two and nine
      characters before its end. */
  function RailSpans(n: int, l: int): seq<Span> {
    [Span(Rojo, n + 3, n + 7), Span(Azul, n + 10, n + 14),
     Span(Rojo, l - 13, l - 9), Span(Azul, l - 6, l - 2)]
  }

  /** The characters under the four rail spans are `f1`..`f4`. */
  predicate FieldsAt(line: string, n: nat, f1: string, f2: string, f3: string, f4: string)
    requires n + 32 <= |line|
  {
    var l := |line|;
    && line[n + 3..n + 7] == f1 && line[n + 10..n + 14] == f2
    && line[l - 13..l - 9] == f3 && line[l - 6..l - 2] == f4
  }

  /** The same, measured from both ends of the line, with the fields the
      spans cover. */
  lemma FramedRailSpans(key: string, f1: string, f2: string, middle: string, f3: string, f4: string)
    requires '|' !in key && '|' !in f1 && '|' !in f2 && '|' !in f3 && '|' !in f4
    requires |f1| == 4 && |f2| == 4 && |f3| == 4 && |f4| == 4
    requires |Bars(middle)| >= 3
    ensures var line := Framed(key, f1, f2, middle, f3, f4);
      var n, l := |key|, |line|;
      && l >= n + 32
      && ValueSpans(line) == RailSpans(n, l)
      && FieldsAt(line, n, f1, f2, f3, f4)
  {
    FramedValueSpans(key, f1, f2, middle, f3, f4);
    FramedFields(key, f1, f2, middle, f3, f4);
  }

  /** The value spans of a row line colour exactly its four rail columns:
      `L+` and `L-` red and blue after the row key, `R+` and `R-` red and
      blue before the end, whatever the cells hold. */
  lemma KeyedRowValueSpans(rkey: string, b: Board)
    requires HasRails(b) && RailsPlain(b, rkey) && '|' !in rkey
    ensures |KeyedRow(rkey, b)| >= |rkey| + 32
    ensures ValueSpans(KeyedRow(rkey, b)) == RailSpans(|rkey|, |KeyedRow(rkey, b)|)
    ensures FieldsAt(KeyedRow(rkey, b), |rkey|, RailField(b, "L+", rkey), RailField(b, "L-", rkey),
                     RailField(b, "R+", rkey), RailField(b, "R-", rkey))
  {
    var f1, f2 := RailField(b, "L+", rkey), RailField(b, "L-", rkey);
    var f3, f4 := RailField(b, "R+", rkey), RailField(b, "R-", rkey);
    var left, right := SpaceJoin(CellFields(b, rkey, COLS_LEFT)), SpaceJoin(CellFields(b, rkey, COLS_RIGHT));
    RowTextFramed(rkey, f1, f2, left, right, f3, f4);
    RailFieldPlain(b, "L+", rkey);
    RailFieldPlain(b, "L-", rkey);
    RailFieldPlain(b, "R+", rkey);
    RailFieldPlain(b, "R-", rkey);
    MiddleBars(left, right);
    FramedRailSpans(rkey, f1, f2, Middle(left, right), f3, f4);
  }

  /** The same for row `k`, whose key is digits only. */
  lemma RowLineValueSpans(k: nat, b: Board)
    requires HasRails(b) && RailsPlain(b, RowKey(k))
    ensures |RowLine(k, b)| >= |RowKey(k)| + 32
    ensures ValueSpans(RowLine(k, b)) == RailSpans(|RowKey(k)|, |RowLine(k, b)|)
    ensures var key := RowKey(k);
      FieldsAt(RowLine(k, b), |key|, RailField(b, "L+", key), RailField(b, "L-", key),
               RailField(b, "R+", key), RailField(b, "R-", key))
  {
    DigitsNoBar(RowKey(k));
    KeyedRowValueSpans(RowKey(k), b);
  }

  /** A row line whose tokens hold no bar has exactly ten: three framing
      each rail pair and four in the middle. So every such line reaches the
      nine bars the value spans need. */
  lemma KeyedRowTenBars(rkey: string, b: Board)
    requires HasRails(b) && RowWithout(b, rkey, '|') && '|' !in rkey
    ensures |Bars(KeyedRow(rkey, b))| == 10
  {
    var f1, f2 := RailField(b, "L+", rkey), RailField(b, "L-", rkey);
    var f3, f4 := RailField(b, "R+", rkey), RailField(b, "R-", rkey);
    var left, right := SpaceJoin(CellFields(b, rkey, COLS_LEFT)), SpaceJoin(CellFields(b, rkey, COLS_RIGHT));
    RowTextFramed(rkey, f1, f2, left, right, f3, f4);
    assert RailsPlain(b, rkey);
    RailFieldPlain(b, "L+", rkey);
    RailFieldPlain(b, "L-", rkey);
    RailFieldPlain(b, "R+", rkey);
    RailFieldPlain(b, "R-", rkey);
    assert '|' !in left && '|' !in right by {
      assert forall col :: col in COLS_LEFT ==> col in ALL_COLS;
      assert forall col :: col in COLS_RIGHT ==> col in ALL_COLS;
      CellFieldsWithout(b, rkey, COLS_LEFT, '|');
      CellFieldsWithout(b, rkey, COLS_RIGHT, '|');
    }
    BarsNone(left);
    BarsNone(right);
    MiddleBars(left, right);
    FramedBars(rkey, f1, f2, Middle(left, right), f3, f4);
  }

  lemma RowLineTenBars(k: nat, b: Board)
    requires HasRails(b) && RowWithout(b, RowKey(k), '|')
    ensures |Bars(RowLine(k, b))| == 10
    ensures ValueSpans(RowLine(k, b)) == RailSpans(|RowKey(k)|, |RowLine(k, b)|)
  {
    DigitsNoBar(RowKey(k));
    KeyedRowTenBars(RowKey(k), b);
    assert RailsPlain(b, RowKey(k));
    KeyedRowValueSpans(RowKey(k), b);
  }

  /** The header's value spans fall on its four rail labels. */
  lemma HeaderValueSpans()
    ensures |HeaderLine()| >= 35
    ensures ValueSpans(HeaderLine()) == RailSpans(3, |HeaderLine()|)
    ensures FieldsAt(HeaderLine(), 3, "rojo", "azul", "rojo", "azul")
  {
    var left, right := SpaceJoin(LetterFields(COLS_LEFT)), SpaceJoin(LetterFields(COLS_RIGHT));
    HeaderFramed();
    MiddleBars(left, right);
    FramedRailSpans("000", "rojo", "azul", Middle(left, right), "rojo", "azul");
  }

  // ---------------------------------------------------------------------
  // All the tags of one line

  /** Everything `refresh` tags on one line, in the order it tags it: the
      four needle scans, then the value spans. */
  function LineHighlights(line: string): (r: seq<Span>)
    ensures forall sp :: sp in r ==> 0 <= sp.start < sp.end <= |line|
  {
    var words := NeedleSpans(line, "rojo", Rojo) + NeedleSpans(line, "azul", Azul);
    var jumpers := NeedleSpans(line, "J+", Jumper) + NeedleSpans(line, "J-", Jumper);
    words + jumpers + ValueSpans(line)
  }

  /** A line's jumper spans are exactly its `J+` and `J-` marks. */
  lemma JumperSpanIff(line: string, sp: Span)
    requires sp.tag == Jumper
    ensures sp in LineHighlights(line)
      <==> sp.end == sp.start + 2 && (OccursAt(line, "J+", sp.start) || OccursAt(line, "J-", sp.start))
  {
    NeedleSpanIff(line, "rojo", Rojo, sp);
    NeedleSpanIff(line, "azul", Azul, sp);
    NeedleSpanIff(line, "J+", Jumper, sp);
    NeedleSpanIff(line, "J-", Jumper, sp);
  }

  /** A line's red (blue) spans are exactly its occurrences of `rojo`
      (`azul`) and its red (blue) value spans. */
  lemma ColourSpanIff(line: string, word: string, sp: Span)
    requires (word == "rojo" && sp.tag == Rojo) || (word == "azul" && sp.tag == Azul)
    ensures sp in LineHighlights(line)
      <==> (sp.end == sp.start + 4 && OccursAt(line, word, sp.start)) || sp in ValueSpans(line)
  {
    NeedleSpanIff(line, "rojo", Rojo, sp);
    NeedleSpanIff(line, "azul", Azul, sp);
    NeedleSpanIff(line, "J+", Jumper, sp);
    NeedleSpanIff(line, "J-", Jumper, sp);
  }

  /** `sep_indices`, as a loop: the offsets of the line's bars, in
      order. */
  method BarPositions(line: string) returns (bars: seq<int>)
    ensures bars == Bars(line)
    ensures forall k :: 0 <= k < |bars| ==> 0 <= bars[k] < |line| && line[bars[k]] == '|'
    ensures forall j, k :: 0 <= j < k < |bars| ==> bars[j] < bars[k]
    ensures forall i :: 0 <= i < |line| && line[i] == '|' ==> i in bars
  {
    bars := [];
    var i := 0;
    while i < |line|
      invariant 0 <= i <= |line| && bars == BarsUpTo(line, i)
    {
      if line[i] == '|' {
        bars := bars + [i];
      }
      i := i + 1;
    }
    BarsSpec(line);
  }

  /** The value-span block of `refresh` for one line. */
  method TagValues(line: string) returns (values: seq<Span>)
    ensures values == ValueSpans(line)
  {
    values := [];
    var sep := BarPositions(line);
    if |sep| >= 9 {
      var rojo1Ini, rojo1Fin := sep[0] + 2, sep[1] - 1;
      var azul1Ini, azul1Fin := sep[1] + 2, sep[2] - 1;
      var rojo2Ini, rojo2Fin := sep[|sep| - 3] + 2, sep[|sep| - 2] - 1;
      var azul2Ini, azul2Fin := sep[|sep| - 2] + 2, sep[|sep| - 1] - 1;
      if rojo1Ini < rojo1Fin {
        values := values + [Span(Rojo, rojo1Ini, rojo1Fin)];
      }
      if azul1Ini < azul1Fin {
        values := values + [Span(Azul, azul1Ini, azul1Fin)];
      }
      if rojo2Ini < rojo2Fin {
        values := values + [Span(Rojo, rojo2Ini, rojo2Fin)];
      }
      if azul2Ini < azul2Fin {
        values := values + [Span(Azul, azul2Ini, azul2Fin)];
      }
      assert values == SpansBetween(sep);
    }
  }

  /** The tagging pass of `refresh` over one line, scan by scan. */
  method HighlightLine(line: string) returns (spans: seq<Span>)
    ensures spans == LineHighlights(line)
  {
    var reds := ScanNeedle(line, "rojo");
    var blues := ScanNeedle(line, "azul");
    var plus := ScanNeedle(line, "J+");
    var minus := ScanNeedle(line, "J-");
    var values := TagValues(line);
    spans := Tagged(reds, Rojo, 4) + Tagged(blues, Azul, 4)
      + (Tagged(plus, Jumper, 2) + Tagged(minus, Jumper, 2)) + values;
  }
}
