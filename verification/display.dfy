/**
 * How `refresh` turns the rendered board back into display lines and
 * colours each of them. `refresh` splits the text with `splitlines`,
 * which ends a line not only at `"\n"` but at every line boundary Python
 * knows; a token holding one of those is cut in two on screen.
 * `SplitLines` models that as written; `SplitNewline` splits only at
 * `"\n"`, the separator `render_board` joins with. `ViewAsWritten` is the
 * view `refresh` builds, `View` the corrected one, and the two agree on
 * every file whose lines hold no line boundary.
 */
module Display {
  import opened Text
  import opened Digits
  import opened Format
  import opened Board
  import opened Parser
  import opened Render
  import opened Highlight

  // ---------------------------------------------------------------------
  // `str.splitlines`, as the viewer calls it

  /** The characters at which Python's `str.splitlines` ends a line. */
  predicate IsLineBoundary(c: char) {
    || c == '\n' || c == '\r' || c == '\U{0B}' || c == '\U{0C}'
    || '\U{1C}' <= c <= '\U{1E}' || c == '\U{85}' || c == '\U{2028}' || c == '\U{2029}'
  }

  predicate NoBoundary(s: string) {
    forall i :: 0 <= i < |s| ==> !IsLineBoundary(s[i])
  }

  /** The offset of the first line boundary at or after `i`, or `|s|`. */
  function NextBoundary(s: string, i: nat): (k: nat)
    requires i <= |s|
    ensures i <= k <= |s|
    ensures k < |s| ==> IsLineBoundary(s[k])
    ensures forall j :: i <= j < k ==> !IsLineBoundary(s[j])
    decreases |s| - i
  {
    if i == |s| || IsLineBoundary(s[i]) then i else NextBoundary(s, i + 1)
  }

  /** `text.splitlines()`: `"\r\n"` counts as one boundary, and a boundary
      at the very end does not open an empty last line. No piece holds a
      boundary. */
  function SplitLines(text: string): (r: seq<string>)
    ensures forall k :: 0 <= k < |r| ==> NoBoundary(r[k])
    decreases |text|
  {
    if text == [] then []
    else
      var k := NextBoundary(text, 0);
      var head := text[..k];
      assert NoBoundary(head) by {
        assert forall j :: 0 <= j < k ==> head[j] == text[j];
      }
      if k == |text| then [head]
      else
        var next := if text[k] == '\r' && k + 1 < |text| && text[k + 1] == '\n' then k + 2 else k + 1;
        [head] + SplitLines(text[next..])
  }

  /** Joining lines and splitting them again with `splitlines` loses every
      line that holds a boundary other than the joining `"\n"`. */
  lemma SplitLinesLosesLine(lines: seq<string>, i: nat)
    requires i < |lines| && !NoBoundary(lines[i])
    ensures SplitLines(JoinLines(lines)) != lines
  {
    var r := SplitLines(JoinLines(lines));
    assert forall k :: 0 <= k < |r| ==> NoBoundary(r[k]);
  }

  /** The partner of the above: lines free of boundaries, the last of them
      not empty, are given back by `splitlines` after `"\n".join`. (An
      empty last line is lost, since a boundary at the very end opens no
      line.) */
  lemma {:induction false} SplitLinesJoin(lines: seq<string>)
    requires |lines| >= 1 && lines[|lines| - 1] != []
    requires forall i :: 0 <= i < |lines| ==> NoBoundary(lines[i])
    ensures SplitLines(JoinLines(lines)) == lines
    decreases |lines|
  {
    var a := lines[0];
    if |lines| == 1 {
      WholeLine(a);
    } else {
      var rest := lines[1..];
      assert lines == [a] + rest;
      JoinCons(a, rest);
      BoundaryCut(a, JoinLines(rest));
      assert forall i :: 0 <= i < |rest| ==> rest[i] == lines[i + 1];
      SplitLinesJoin(rest);
    }
  }

  /** A non-empty text without boundaries is one line. */
  lemma WholeLine(a: string)
    requires a != [] && NoBoundary(a)
    ensures SplitLines(a) == [a]
  {
    assert NextBoundary(a, 0) == |a|;
    assert a[..|a|] == a;
  }

  /** `splitlines` ends the first line at the first `"\n"` when no other
      boundary comes before it. */
  lemma BoundaryCut(a: string, tail: string)
    requires NoBoundary(a)
    ensures SplitLines(a + "\n" + tail) == [a] + SplitLines(tail)
  {
    var text := a + "\n" + tail;
    assert text[|a|] == '\n';
    assert forall j :: 0 <= j < |a| ==> text[j] == a[j];
    assert NextBoundary(text, 0) == |a|;
    assert text[..|a|] == a;
    assert text[|a| + 1..] == tail;
  }

  /** A connections file line the parser accepts: cell `a` of row 1 holds
      `x`, a form feed, and `y`. */
  const FormFeedLine: string := "001a=x\U{0C}y"
  const FormFeedToken: string := "x\U{0C}y"

  lemma FormFeedParsed(rows: int)
    requires rows >= 1
    ensures var b := ParseConnections([FormFeedLine], rows);
      CellAt(b, "001", 'a') == FormFeedToken
  {
    assert FormFeedLine == CellLine("001", 'a', FormFeedToken);
    assert Value("001") == 1 by {
      assert "001"[..2] == "00" && "00"[..1] == "0" && "0"[..0] == "";
    }
    assert IsStripped(FormFeedToken);
    CellLineAccepted("001", 'a', FormFeedToken, rows);
    CellLastWriteWins([FormFeedLine], rows, 0, "001", 'a', FormFeedToken);
  }

  lemma RowOneKey()
    ensures RowKey(1) == "001"
  {
    assert Value("001") == 1 by {
      assert "001"[..2] == "00" && "00"[..1] == "0" && "0"[..0] == "";
    }
    RowKeyOfValue("001", 1);
  }

  /** A form feed in cell `a` of a row shows up in that row's line. */
  lemma FormFeedShown(b: Board)
    requires HasRails(b) && CellAt(b, "001", 'a') == FormFeedToken
    ensures var line := KeyedRow("001", b); |line| > 27 && line[27] == '\U{0C}'
  {
    var line := KeyedRow("001", b);
    assert FixWidth(FormFeedToken, CELL_W) == FormFeedToken + " " by {
      SpacesSmall();
      FitPadded(FormFeedToken, CELL_W, 0, 1);
    }
    KeyedRowCells("001", b, 0);
    assert COLS_LEFT[0] == 'a';
    assert line[26..30] == FormFeedToken + " ";
    assert line[26..30][1] == line[27];
  }

  /** With that file, `splitlines` does not give back the rendered lines:
      row 1 is cut at the form feed. */
  lemma SplitLinesBreaksRow(rows: int)
    requires rows >= 1
    ensures var b := ParseConnections([FormFeedLine], rows);
      SplitLines(RenderBoard(rows, b)) != BoardLines(rows, b)
  {
    var b := ParseConnections([FormFeedLine], rows);
    FormFeedParsed(rows);
    RowOneKey();
    FormFeedShown(b);
    BoardLinesRow(rows, b, 1);
    var lines := BoardLines(rows, b);
    assert IsLineBoundary(lines[1][27]);
    SplitLinesLosesLine(lines, 1);
  }

  // ---------------------------------------------------------------------
  // Splitting at "\n" only

  /** `text.split("\n")`: the pieces between the newlines. */
  function SplitNewline(text: string): (r: seq<string>)
    ensures |r| >= 1
    ensures forall k :: 0 <= k < |r| ==> '\n' !in r[k]
    decreases |text|
  {
    if '\n' in text then
      var k := FirstIndex(text, '\n');
      [text[..k]] + SplitNewline(text[k + 1..])
    else [text]
  }

  /** Joining the pieces gives the text back. */
  lemma {:induction false} JoinSplit(text: string)
    ensures JoinLines(SplitNewline(text)) == text
    decreases |text|
  {
    if '\n' in text {
      var k := FirstIndex(text, '\n');
      var a, tail := text[..k], text[k + 1..];
      assert text == a + "\n" + tail;
      var rest := SplitNewline(tail);
      assert SplitNewline(text) == [a] + rest;
      JoinSplit(tail);
      JoinCons(a, rest);
    }
  }

  lemma JoinCons(a: string, rest: seq<string>)
    requires |rest| >= 1
    ensures JoinLines([a] + rest) == a + "\n" + JoinLines(rest)
  {
    assert ([a] + rest)[1..] == rest;
  }

  /** The first `c` is at `j` when `s[j]` is `c` and no `c` comes before. */
  lemma FirstIndexAt(s: string, c: char, j: nat)
    requires j < |s| && s[j] == c && c !in s[..j]
    ensures FirstIndex(s, c) == j
  {
    var i := FirstIndex(s, c);
    assert forall m :: 0 <= m < j ==> s[m] != c by {
      assert forall m :: 0 <= m < j ==> s[..j][m] == s[m];
    }
    assert forall m :: 0 <= m < i ==> s[m] != c by {
      assert forall m :: 0 <= m < i ==> s[..i][m] == s[m];
    }
  }

  /** Splitting joined lines gives the lines back when none holds a
      newline. */
  lemma {:induction false} SplitJoin(lines: seq<string>)
    requires |lines| >= 1 && forall i :: 0 <= i < |lines| ==> '\n' !in lines[i]
    ensures SplitNewline(JoinLines(lines)) == lines
    decreases |lines|
  {
    if |lines| > 1 {
      var a, rest := lines[0], lines[1..];
      assert lines == [a] + rest;
      assert JoinLines(lines) == a + "\n" + JoinLines(rest);
      NewlineCut(a, JoinLines(rest));
      SplitJoin(rest);
    }
  }

  /** Splitting stops at the first newline. */
  lemma NewlineCut(a: string, tail: string)
    requires '\n' !in a
    ensures SplitNewline(a + "\n" + tail) == [a] + SplitNewline(tail)
  {
    var text := a + "\n" + tail;
    assert text[|a|] == '\n';
    assert text[..|a|] == a;
    FirstIndexAt(text, '\n', |a|);
    assert text[|a| + 1..] == tail;
  }

  // ---------------------------------------------------------------------
  // The display

  /** The lines the viewer shows, split at the newlines the renderer
      joined with. */
  function DisplayLines(rows: int, b: Board): seq<string>
    requires HasRails(b)
  {
    SplitNewline(RenderBoard(rows, b))
  }

  /** A character the header is not written with and the placeholder
      lacks is in no rendered line when no token holds it. */
  lemma BoardLineWithout(rows: int, b: Board, i: nat, c: char)
    requires HasRails(b) && BoardWithout(b, c) && !HeaderChar(c) && c !in EMPTY
    requires i < |BoardLines(rows, b)|
    ensures c !in BoardLines(rows, b)[i]
  {
    var lines := BoardLines(rows, b);
    if i == 0 || i == |lines| - 1 {
      assert lines[i] == HeaderLine() by { BoardLinesFrame(rows, b); }
      HeaderWithout(c);
    } else {
      assert lines[i] == RowLine(i, b) by { BoardLinesRow(rows, b, i); }
      RowLineWithout(i, b, c);
    }
  }

  lemma RowLineWithout(k: nat, b: Board, c: char)
    requires HasRails(b) && BoardWithout(b, c) && !HeaderChar(c) && c !in EMPTY
    ensures c !in RowLine(k, b)
  {
    var key := RowKey(k);
    DigitsWithout(key, c);
    BoardRowWithout(b, key, c);
    KeyedRowWithout(key, b, c);
  }

  lemma DigitsWithout(s: string, c: char)
    requires IsDigits(s) && !IsDigit(c)
    ensures c !in s
  {
    assert forall i :: 0 <= i < |s| ==> IsDigit(s[i]);
  }

  /** The display shows exactly the rendered lines, header, one line per
      row, footer, when no token holds a newline. */
  lemma DisplayLinesExact(rows: int, b: Board)
    requires HasRails(b) && BoardWithout(b, '\n')
    ensures DisplayLines(rows, b) == BoardLines(rows, b)
  {
    var lines := BoardLines(rows, b);
    forall i | 0 <= i < |lines| ensures '\n' !in lines[i] {
      BoardLineWithout(rows, b, i, '\n');
    }
    SplitJoin(lines);
  }

  /** The file line that `splitlines` cuts in two stays one display line. */
  lemma FormFeedRowKept(rows: int)
    requires rows >= 1
    ensures var b := ParseConnections([FormFeedLine], rows);
      DisplayLines(rows, b) == BoardLines(rows, b)
  {
    ParsedWithout([FormFeedLine], rows, '\n');
    DisplayLinesExact(rows, ParseConnections([FormFeedLine], rows));
  }

  /** `splitlines` as written gives back the rendered lines too, as long
      as no token holds any line boundary. */
  lemma SplitLinesExact(rows: int, b: Board)
    requires HasRails(b) && BoundaryFree(b)
    ensures SplitLines(RenderBoard(rows, b)) == BoardLines(rows, b)
  {
    var lines := BoardLines(rows, b);
    forall i | 0 <= i < |lines| ensures NoBoundary(lines[i]) {
      forall c | IsLineBoundary(c) ensures c !in lines[i] {
        BoardLineWithout(rows, b, i, c);
      }
    }
    assert lines[|lines| - 1] != [] by {
      BoardLinesFrame(rows, b);
      HeaderValueSpans();
    }
    SplitLinesJoin(lines);
  }

  /** No token holds a line boundary. */
  predicate BoundaryFree(b: Board) {
    forall c :: IsLineBoundary(c) ==> BoardWithout(b, c)
  }

  /** A file none of whose lines holds a line boundary gives such a board. */
  lemma ParsedBoundaryFree(lines: seq<string>, rows: int)
    requires forall i :: 0 <= i < |lines| ==> NoBoundary(lines[i])
    ensures BoundaryFree(ParseConnections(lines, rows))
  {
    forall c | IsLineBoundary(c) ensures BoardWithout(ParseConnections(lines, rows), c) {
      assert forall i :: 0 <= i < |lines| ==> c !in lines[i];
      ParsedWithout(lines, rows, c);
    }
  }

  /** Each display line with the spans `refresh` tags on it. */
  function TaggedLines(shown: seq<string>): (r: seq<(string, seq<Span>)>)
    ensures |r| == |shown|
    ensures forall i :: 0 <= i < |r| ==> r[i] == (shown[i], LineHighlights(shown[i]))
  {
    seq(|shown|, i requires 0 <= i < |shown| => (shown[i], LineHighlights(shown[i])))
  }

  /** What the viewer shows for a connections file, with the display lines
      split at `"\n"` only (the corrected `refresh`). */
  function View(lines: seq<string>, rows: int): seq<(string, seq<Span>)> {
    TaggedLines(DisplayLines(rows, ParseConnections(lines, rows)))
  }

  /** What `refresh` as written shows: the rendered text split with
      `splitlines`. */
  function ViewAsWritten(lines: seq<string>, rows: int): seq<(string, seq<Span>)> {
    var b := ParseConnections(lines, rows);
    TaggedLines(SplitLines(RenderBoard(rows, b)))
  }

  /** For a file without newlines inside its lines, the corrected view has
      the header, one line per row and the footer; row `k` shows row line
      `k` and its four rail fields are coloured red and blue. */
  lemma ViewRow(lines: seq<string>, rows: int, k: nat)
    requires forall i :: 0 <= i < |lines| ==> '\n' !in lines[i]
    requires 1 <= k <= rows
    requires RailsPlain(ParseConnections(lines, rows), RowKey(k))
    ensures var b, v := ParseConnections(lines, rows), View(lines, rows);
      && |v| == rows + 2
      && v[k].0 == RowLine(k, b)
      && forall sp :: sp in RailSpans(|RowKey(k)|, |RowLine(k, b)|) ==> sp in v[k].1
  {
    var b := ParseConnections(lines, rows);
    ParsedWithout(lines, rows, '\n');
    DisplayLinesExact(rows, b);
    BoardLinesRow(rows, b, k);
    RowLineValueSpans(k, b);
  }

  /** The two views agree on every file none of whose lines holds a line
      boundary: the defect needs a boundary character inside a token. */
  lemma ViewsAgree(lines: seq<string>, rows: int)
    requires forall i :: 0 <= i < |lines| ==> NoBoundary(lines[i])
    ensures ViewAsWritten(lines, rows) == View(lines, rows)
  {
    var b := ParseConnections(lines, rows);
    ParsedBoundaryFree(lines, rows);
    assert BoardWithout(b, '\n');
    SplitLinesExact(rows, b);
    DisplayLinesExact(rows, b);
  }

  /** The same rows for the view as written, on such a file. */
  lemma ViewRowAsWritten(lines: seq<string>, rows: int, k: nat)
    requires forall i :: 0 <= i < |lines| ==> NoBoundary(lines[i])
    requires 1 <= k <= rows
    requires RailsPlain(ParseConnections(lines, rows), RowKey(k))
    ensures var b, v := ParseConnections(lines, rows), ViewAsWritten(lines, rows);
      && |v| == rows + 2
      && v[k].0 == RowLine(k, b)
      && forall sp :: sp in RailSpans(|RowKey(k)|, |RowLine(k, b)|) ==> sp in v[k].1
  {
    ViewsAgree(lines, rows);
    assert forall i :: 0 <= i < |lines| ==> '\n' !in lines[i];
    ViewRow(lines, rows, k);
  }
}
