/**
 * `parse_connections`: the forgiving line grammar of the connections file.
 *
 *   rail line:  L+:010=+      (rail code, ':', three-digit row, '=', token)
 *   cell line:  012f=1+       (three-digit row, column letter, '=', token)
 *
 * Any line that is blank, a `#` comment, malformed or out of range leaves
 * the board as it was. The file itself is not opened here: the input is the
 * sequence of its lines, and a missing file is the empty sequence.
 */
module Parser {
  import opened Options
  import opened Text
  import opened Digits
  import opened Board

  /** The effect of one accepted line. */
  datatype Entry =
    | RailEntry(code: string, row: string, token: string)
    | CellEntry(row: string, col: char, token: string)

  /** What any accepted line satisfies: a known rail or column, a row key in
      range, and a token that is never the empty string. */
  predicate ValidEntry(e: Entry, rows: int) {
    match e
    case RailEntry(code, row, token) => code in RAIL_KEYS && IsRowKey(row, rows) && IsToken(token)
    case CellEntry(row, col, token) => IsRowKey(row, rows) && col in ALL_COLS && IsToken(token)
  }

  /** `val.strip() if val.strip() else EMPTY`. */
  function TokenOf(val: string): (t: string)
    ensures IsToken(t)
    ensures AllSpace(val) ==> t == EMPTY
    ensures IsToken(val) ==> t == val
    ensures ':' in t ==> ':' in val
  {
    StripKeeps(val, ':');
    var v := Strip(val);
    if v == [] then EMPTY else v
  }

  /** The rail branch, for a stripped line holding both ':' and '='. */
  function ParseRail(line: string, rows: int): (r: Option<Entry>)
    requires ':' in line && '=' in line
    ensures r.Some? ==> r.value.RailEntry? && ValidEntry(r.value, rows)
  {
    var (railPart, val) := SplitOnce(line, '=');
    // `rail_part.split(":", 1)` unpacked into two names raises ValueError,
    // and the line is skipped, when the only ':' is after the '='.
    if ':' !in railPart then None
    else
      var (code0, row0) := SplitOnce(railPart, ':');
      var code := Upper(Strip(code0));
      var rowStr := Strip(row0);
      if code in RAIL_KEYS && IsDigits(rowStr) && |rowStr| == 3 && 1 <= Value(rowStr) <= rows then
        Some(RailEntry(code, rowStr, TokenOf(val)))
      else None
  }

  /** The cell branch, for a stripped line holding '=' but no ':'. */
  function ParseCell(line: string, rows: int): (r: Option<Entry>)
    requires '=' in line
    ensures r.Some? ==> r.value.CellEntry? && ValidEntry(r.value, rows)
  {
    var (coord0, val) := SplitOnce(line, '=');
    var coord := Lower(Strip(coord0));
    if |coord| == 4 && IsDigits(coord[..3]) && coord[3] in ALL_COLS && 1 <= Value(coord[..3]) <= rows then
      Some(CellEntry(coord[..3], coord[3], TokenOf(val)))
    else None
  }

  /** One iteration of the parser's loop: the entry a raw line assigns, or
      `None` when the line is skipped. */
  function ParseLine(raw: string, rows: int): (r: Option<Entry>)
    ensures r.Some? ==> ValidEntry(r.value, rows)
    ensures AllSpace(raw) ==> r == None
    ensures Strip(raw) != [] && Strip(raw)[0] == '#' ==> r == None
    ensures '=' !in raw ==> r == None
    ensures r.Some? && r.value.RailEntry? ==> ':' in raw
    ensures r.Some? && r.value.CellEntry? ==> ':' !in raw
  {
    StripKeeps(raw, ':');
    StripKeeps(raw, '=');
    ReadLine(Strip(raw), rows)
  }

  /** The loop body after `line = raw_line.strip()`. */
  function ReadLine(line: string, rows: int): (r: Option<Entry>)
    ensures r.Some? ==> ValidEntry(r.value, rows)
    ensures line == [] || line[0] == '#' || '=' !in line ==> r == None
    ensures r.Some? && r.value.RailEntry? ==> ':' in line
    ensures r.Some? && r.value.CellEntry? ==> ':' !in line
  {
    if line == [] || line[0] == '#' then None
    else if ':' in line && '=' in line then ParseRail(line, rows)
    else if '=' in line then ParseCell(line, rows)
    else None
  }

  /** `rails[code][row] = token` or `grid[(row, col)] = token`. The parser
      only produces known rail codes (`ValidEntry`), so the guard below,
      which stands for Python's KeyError, is never taken. */
  function Apply(b: Board, e: Entry): Board {
    match e
    case RailEntry(code, row, token) =>
      if code in b.rails then b.(rails := b.rails[code := b.rails[code][row := token]]) else b
    case CellEntry(row, col, token) => b.(grid := b.grid[(row, col) := token])
  }

  predicate ValidEntries(es: seq<Option<Entry>>, rows: int) {
    forall i :: 0 <= i < |es| && es[i].Some? ==> ValidEntry(es[i].value, rows)
  }

  /** Assigning a valid entry keeps the board well formed. */
  lemma ApplyWellFormed(b: Board, e: Entry, rows: int)
    requires WellFormed(b, rows) && ValidEntry(e, rows)
    ensures WellFormed(Apply(b, e), rows)
  {
    var b' := Apply(b, e);
    if e.RailEntry? {
      assert e.code in b.rails;
      assert b'.rails.Keys == b.rails.Keys;
      forall k, row | k in b'.rails && row in b'.rails[k]
        ensures IsRowKey(row, rows) && b'.rails[k][row] != ""
      {
        if k != e.code || row != e.row {
          assert row in b.rails[k] && b'.rails[k][row] == b.rails[k][row];
        }
      }
    }
  }

  /** The board after the entries of the lines read so far, in order. */
  function Build(es: seq<Option<Entry>>): (b: Board)
    ensures forall k :: k in b.rails <==> k in RAIL_KEYS
  {
    if es == [] then EmptyBoard
    else
      var b := Build(es[..|es| - 1]);
      match es[|es| - 1]
      case None => b
      case Some(e) => Apply(b, e)
  }

  lemma {:induction false} BuildWellFormed(es: seq<Option<Entry>>, rows: int)
    requires ValidEntries(es, rows)
    ensures WellFormed(Build(es), rows)
  {
    if es == [] {
      EmptyBoardWellFormed(rows);
    } else {
      var n := |es| - 1;
      BuildWellFormed(es[..n], rows);
      if es[n].Some? {
        ApplyWellFormed(Build(es[..n]), es[n].value, rows);
      }
    }
  }

  /** The per-line results of a whole file. */
  function Entries(lines: seq<string>, rows: int): (es: seq<Option<Entry>>)
    ensures |es| == |lines|
    ensures forall i :: 0 <= i < |lines| ==> es[i] == ParseLine(lines[i], rows)
    ensures ValidEntries(es, rows)
  {
    seq(|lines|, i requires 0 <= i < |lines| => ParseLine(lines[i], rows))
  }

  /** `parse_connections` over the lines of the file, in file order. Every
      entry of the result names a known rail or column and a row in
      `1..rows`, and holds a non-empty token. */
  function ParseConnections(lines: seq<string>, rows: int): (b: Board)
    ensures HasRails(b)
    ensures WellFormed(b, rows)
  {
    BuildWellFormed(Entries(lines, rows), rows);
    Build(Entries(lines, rows))
  }

  /** An accepted line's token is what follows its first '=', stripped. */
  lemma ParseLineToken(raw: string, rows: int)
    ensures var r := ParseLine(raw, rows);
      r.Some? ==> '=' in Strip(raw) && r.value.token == TokenOf(SplitOnce(Strip(raw), '=').1)
  {
    var line := Strip(raw);
    if line != [] && line[0] != '#' && '=' in line {
      if ':' in line {
        RailToken(line, rows);
      } else {
        CellToken(line, rows);
      }
    }
  }

  lemma RailToken(line: string, rows: int)
    requires ':' in line && '=' in line
    ensures var r := ParseRail(line, rows); r.Some? ==> r.value.token == TokenOf(SplitOnce(line, '=').1)
  {
  }

  lemma CellToken(line: string, rows: int)
    requires '=' in line
    ensures var r := ParseCell(line, rows); r.Some? ==> r.value.token == TokenOf(SplitOnce(line, '=').1)
  {
  }

  lemma TokenOfWithout(val: string, c: char)
    requires c !in val && c !in EMPTY
    ensures c !in TokenOf(val)
  {
    StripWithout(val, c);
  }

  /** A token is a piece of its line (or the placeholder): a character
      neither holds is not in it. */
  lemma ParseLineWithout(raw: string, rows: int, c: char)
    requires c !in raw && c !in EMPTY
    ensures var r := ParseLine(raw, rows); r.Some? ==> c !in r.value.token
  {
    ParseLineToken(raw, rows);
    var line := Strip(raw);
    if '=' in line {
      StripWithout(raw, c);
      var val := SplitOnce(line, '=').1;
      assert c !in val by {
        assert forall i :: 0 <= i < |val| ==> val[i] == line[|line| - |val| + i];
      }
      TokenOfWithout(val, c);
    }
  }

  lemma ApplyWithout(b: Board, e: Entry, c: char)
    requires BoardWithout(b, c) && c !in e.token
    ensures BoardWithout(Apply(b, e), c)
  {
  }

  lemma {:induction false} BuildWithout(es: seq<Option<Entry>>, c: char)
    requires forall i :: 0 <= i < |es| && es[i].Some? ==> c !in es[i].value.token
    ensures BoardWithout(Build(es), c)
  {
    if es != [] {
      var n := |es| - 1;
      BuildWithout(es[..n], c);
      if es[n].Some? {
        ApplyWithout(Build(es[..n]), es[n].value, c);
      }
    }
  }

  /** A character no line of the file holds, and that the placeholder does
      not hold, is in no token of the board. */
  lemma ParsedWithout(lines: seq<string>, rows: int, c: char)
    requires forall i :: 0 <= i < |lines| ==> c !in lines[i]
    requires c !in EMPTY
    ensures BoardWithout(ParseConnections(lines, rows), c)
  {
    var es := Entries(lines, rows);
    forall i | 0 <= i < |es| && es[i].Some? ensures c !in es[i].value.token {
      ParseLineWithout(lines[i], rows, c);
    }
    BuildWithout(es, c);
  }

  // ---------------------------------------------------------------------
  // Which line determines an entry

  predicate WritesCell(o: Option<Entry>, row: string, col: char) {
    o.Some? && o.value.CellEntry? && o.value.row == row && o.value.col == col
  }

  predicate WritesRail(o: Option<Entry>, code: string, row: string) {
    o.Some? && o.value.RailEntry? && o.value.code == code && o.value.row == row
  }

  lemma {:induction false} BuildCellLast(es: seq<Option<Entry>>, i: nat, row: string, col: char, token: string)
    requires i < |es|
    requires es[i] == Some(CellEntry(row, col, token))
    requires forall j :: i < j < |es| ==> !WritesCell(es[j], row, col)
    ensures (row, col) in Build(es).grid && Build(es).grid[(row, col)] == token
  {
    var n := |es| - 1;
    if i < n {
      BuildCellLast(es[..n], i, row, col, token);
      assert !WritesCell(es[n], row, col);
    }
  }

  lemma {:induction false} BuildCellUnwritten(es: seq<Option<Entry>>, row: string, col: char)
    requires forall j :: 0 <= j < |es| ==> !WritesCell(es[j], row, col)
    ensures (row, col) !in Build(es).grid
  {
    if es != [] {
      var n := |es| - 1;
      BuildCellUnwritten(es[..n], row, col);
      assert !WritesCell(es[n], row, col);
    }
  }

  lemma {:induction false} BuildRailLast(es: seq<Option<Entry>>, i: nat, code: string, row: string, token: string)
    requires i < |es| && code in RAIL_KEYS
    requires es[i] == Some(RailEntry(code, row, token))
    requires forall j :: i < j < |es| ==> !WritesRail(es[j], code, row)
    ensures code in Build(es).rails && row in Build(es).rails[code]
    ensures Build(es).rails[code][row] == token
  {
    var n := |es| - 1;
    var prefix := es[..n];
    if i < n {
      assert prefix[i] == es[i];
      BuildRailLast(prefix, i, code, row, token);
      if es[n].Some? {
        ApplyOtherRail(Build(prefix), es[n].value, code, row);
      }
    }
  }

  /** An entry that does not write `rails[code][row]` leaves it alone. */
  lemma ApplyOtherRail(b: Board, e: Entry, code: string, row: string)
    requires code in b.rails && row in b.rails[code] && !WritesRail(Some(e), code, row)
    ensures code in Apply(b, e).rails && row in Apply(b, e).rails[code]
    ensures Apply(b, e).rails[code][row] == b.rails[code][row]
  {
  }

  lemma {:induction false} BuildRailUnwritten(es: seq<Option<Entry>>, code: string, row: string)
    requires code in RAIL_KEYS
    requires forall j :: 0 <= j < |es| ==> !WritesRail(es[j], code, row)
    ensures row !in Build(es).rails[code]
  {
    if es != [] {
      var n := |es| - 1;
      BuildRailUnwritten(es[..n], code, row);
      assert !WritesRail(es[n], code, row);
    }
  }

  /** A cell holds the token of the LAST line that assigns it (a repeated
      coordinate keeps its last value). */
  lemma CellLastWriteWins(lines: seq<string>, rows: int, i: nat, row: string, col: char, token: string)
    requires i < |lines|
    requires ParseLine(lines[i], rows) == Some(CellEntry(row, col, token))
    requires forall j :: i < j < |lines| ==> !WritesCell(ParseLine(lines[j], rows), row, col)
    ensures (row, col) in ParseConnections(lines, rows).grid
    ensures ParseConnections(lines, rows).grid[(row, col)] == token
  {
    BuildCellLast(Entries(lines, rows), i, row, col, token);
  }

  /** A cell no line assigns is absent, so it renders as EMPTY. */
  lemma CellUnwritten(lines: seq<string>, rows: int, row: string, col: char)
    requires forall j :: 0 <= j < |lines| ==> !WritesCell(ParseLine(lines[j], rows), row, col)
    ensures (row, col) !in ParseConnections(lines, rows).grid
  {
    BuildCellUnwritten(Entries(lines, rows), row, col);
  }

  /** A rail row holds the token of the LAST line that assigns it. */
  lemma RailLastWriteWins(lines: seq<string>, rows: int, i: nat, code: string, row: string, token: string)
    requires i < |lines|
    requires ParseLine(lines[i], rows) == Some(RailEntry(code, row, token))
    requires forall j :: i < j < |lines| ==> !WritesRail(ParseLine(lines[j], rows), code, row)
    ensures code in ParseConnections(lines, rows).rails
    ensures row in ParseConnections(lines, rows).rails[code]
    ensures ParseConnections(lines, rows).rails[code][row] == token
  {
    BuildRailLast(Entries(lines, rows), i, code, row, token);
  }

  /** A rail row no line assigns is absent. */
  lemma RailUnwritten(lines: seq<string>, rows: int, code: string, row: string)
    requires code in RAIL_KEYS
    requires forall j :: 0 <= j < |lines| ==> !WritesRail(ParseLine(lines[j], rows), code, row)
    ensures row !in ParseConnections(lines, rows).rails[code]
  {
    BuildRailUnwritten(Entries(lines, rows), code, row);
  }

  lemma {:induction false} BuildSkip(pre: seq<Option<Entry>>, post: seq<Option<Entry>>)
    ensures Build(pre + [None] + post) == Build(pre + post)
  {
    var all := pre + [None] + post;
    var short := pre + post;
    if post == [] {
      assert all[..|all| - 1] == pre;
      assert short == pre;
    } else {
      var n := |post| - 1;
      assert all[..|all| - 1] == pre + [None] + post[..n];
      assert short[..|short| - 1] == pre + post[..n];
      BuildSkip(pre, post[..n]);
      assert all[|all| - 1] == short[|short| - 1];
    }
  }

  lemma EntriesAppend(a: seq<string>, b: seq<string>, rows: int)
    ensures Entries(a + b, rows) == Entries(a, rows) + Entries(b, rows)
  {
    var ab := a + b;
    forall i | 0 <= i < |ab| ensures Entries(ab, rows)[i] == (Entries(a, rows) + Entries(b, rows))[i] {
      if i < |a| { assert ab[i] == a[i]; }
      else { assert ab[i] == b[i - |a|]; }
    }
  }

  /** A skipped line can be deleted from the file, wherever it stands,
      without changing the board. */
  lemma SkippedLineIrrelevant(pre: seq<string>, line: string, post: seq<string>, rows: int)
    requires ParseLine(line, rows) == None
    ensures ParseConnections(pre + [line] + post, rows) == ParseConnections(pre + post, rows)
  {
    var epre, epost := Entries(pre, rows), Entries(post, rows);
    EntriesAppend(pre + [line], post, rows);
    EntriesAppend(pre, [line], rows);
    EntriesAppend(pre, post, rows);
    assert Entries([line], rows) == [None];
    BuildSkip(epre, epost);
  }

  /** A missing or empty file gives the empty board. */
  lemma NoLinesEmptyBoard(rows: int)
    ensures ParseConnections([], rows) == EmptyBoard
  {
  }

  // ---------------------------------------------------------------------
  // The lines the parser accepts

  /** A rail line as a person would write it: `<code>:<row>=<token>`,
      with the code in either case. */
  function RailLine(codeText: string, row: string, token: string): string {
    codeText + [':'] + row + ['='] + token
  }

  /** A cell line: `<row><column>=<token>`, with the column in either case. */
  function CellLine(row: string, colText: char, token: string): string {
    row + [colText] + ['='] + token
  }

  lemma DigitsStripped(s: string)
    requires IsDigits(s)
    ensures IsStripped(s) && ':' !in s && '=' !in s
    ensures Lower(s) == s && Upper(s) == s
  {
  }

  /** A stripped, non-comment line with both ':' and '=' takes the rail branch. */
  lemma RailBranch(raw: string, rows: int)
    requires IsStripped(raw) && raw != [] && raw[0] != '#' && ':' in raw && '=' in raw
    ensures ParseLine(raw, rows) == ParseRail(raw, rows)
  {
    assert Strip(raw) == raw;
  }

  /** A stripped, non-comment line with '=' and no ':' takes the cell branch. */
  lemma CellBranch(raw: string, rows: int)
    requires IsStripped(raw) && raw != [] && raw[0] != '#' && ':' !in raw && '=' in raw
    ensures ParseLine(raw, rows) == ParseCell(raw, rows)
  {
    assert Strip(raw) == raw;
  }

  lemma RailCodeText(codeText: string)
    requires Upper(codeText) in RAIL_KEYS
    ensures |codeText| == 2 && IsStripped(codeText) && ':' !in codeText && '=' !in codeText
    ensures codeText[0] != '#'
  {
    assert |codeText| == 2;
    assert UpperChar(codeText[0]) in "LR" && UpperChar(codeText[1]) in "+-";
  }

  /** Every valid rail assignment written as a rail line, whatever the case
      of its code, is read back as exactly that assignment. */
  lemma RailLineAccepted(codeText: string, row: string, token: string, rows: int)
    requires Upper(codeText) in RAIL_KEYS
    requires IsRowKey(row, rows) && IsToken(token)
    ensures ParseLine(RailLine(codeText, row, token), rows) == Some(RailEntry(Upper(codeText), row, token))
  {
    var line := RailLine(codeText, row, token);
    DigitsStripped(row);
    RailCodeText(codeText);
    var railPart := codeText + [':'] + row;
    assert line == railPart + ['='] + token;
    assert line[0] == codeText[0] && line[|line| - 1] == token[|token| - 1];
    assert ':' in line by { assert line[2] == ':'; }
    assert '=' in line by { assert line[|railPart|] == '='; }
    RailBranch(line, rows);
    SplitOnceUnique(line, '=', railPart, token);
    SplitOnceUnique(railPart, ':', codeText, row);
    assert Strip(codeText) == codeText;
    assert Strip(row) == row;
    assert TokenOf(token) == token;
  }

  lemma CellLineShape(row: string, colText: char, token: string, rows: int)
    requires LowerChar(colText) in ALL_COLS
    requires IsRowKey(row, rows) && IsToken(token) && ':' !in token
    ensures var line := CellLine(row, colText, token);
      IsStripped(line) && line != [] && line[0] != '#' && ':' !in line && '=' in line
  {
    var line := CellLine(row, colText, token);
    DigitsStripped(row);
    assert line == row + [colText] + ['='] + token;
    assert !IsSpace(colText) && colText != ':';
    assert line[0] == row[0] && line[|line| - 1] == token[|token| - 1];
    assert line[4] == '=';
  }

  lemma CellLineSplit(row: string, colText: char, token: string, rows: int)
    requires LowerChar(colText) in ALL_COLS
    requires IsRowKey(row, rows) && IsToken(token) && ':' !in token
    ensures ParseCell(CellLine(row, colText, token), rows) == Some(CellEntry(row, LowerChar(colText), token))
  {
    var line := CellLine(row, colText, token);
    DigitsStripped(row);
    var coord0 := row + [colText];
    assert line == coord0 + ['='] + token;
    assert colText != '=' && !IsSpace(colText);
    SplitOnceUnique(line, '=', coord0, token);
    assert Strip(coord0) == coord0;
    var coord := Lower(coord0);
    assert coord[..3] == row;
    assert coord[3] == LowerChar(colText);
    assert TokenOf(token) == token;
  }

  /** Every valid cell assignment written as a cell line, whatever the case
      of its column letter, is read back as exactly that assignment, provided
      its token has no ':' (such a line is taken for a rail line). */
  lemma CellLineAccepted(row: string, colText: char, token: string, rows: int)
    requires LowerChar(colText) in ALL_COLS
    requires IsRowKey(row, rows) && IsToken(token) && ':' !in token
    ensures ParseLine(CellLine(row, colText, token), rows) == Some(CellEntry(row, LowerChar(colText), token))
  {
    CellLineShape(row, colText, token, rows);
    CellBranch(CellLine(row, colText, token), rows);
    CellLineSplit(row, colText, token, rows);
  }

  // ---------------------------------------------------------------------
  // Whitespace around the fields

  /** A padded value gives its stripped text, and a blank one the
      placeholder: `"  1+ "` is read as `"1+"` and `" "` as EMPTY. */
  lemma TokenOfPadded(w1: string, x: string, w2: string)
    requires AllSpace(w1) && AllSpace(w2) && IsStripped(x)
    ensures TokenOf(w1 + x + w2) == if x == [] then EMPTY else x
  {
    StripPadded(w1, x, w2);
  }

  lemma SpaceFree(w: string, c: char)
    requires AllSpace(w) && !IsSpace(c)
    ensures c !in w
  {
  }

  /** A value whose last character, if any, is not whitespace. */
  predicate EndsClean(v: string) {
    v == [] || !IsSpace(v[|v| - 1])
  }

  /** The text of a padded rail line up to its '='. */
  function RailHead(codeText: string, w1: string, w2: string, row: string, w3: string): string {
    codeText + w1 + [':'] + w2 + row + w3
  }

  lemma RailHeadSplit(codeText: string, w1: string, w2: string, row: string, w3: string)
    requires Upper(codeText) in RAIL_KEYS && IsDigits(row)
    requires AllSpace(w1) && AllSpace(w2) && AllSpace(w3)
    ensures var head := RailHead(codeText, w1, w2, row, w3);
      && '=' !in head && ':' in head
      && SplitOnce(head, ':') == (codeText + w1, w2 + row + w3)
      && Strip(codeText + w1) == codeText && Strip(w2 + row + w3) == row
  {
    var head := RailHead(codeText, w1, w2, row, w3);
    RailCodeText(codeText);
    DigitsStripped(row);
    SpaceFree(w1, '='); SpaceFree(w2, '='); SpaceFree(w3, '=');
    SpaceFree(w1, ':');
    assert head == (codeText + w1) + [':'] + (w2 + row + w3);
    SplitOnceUnique(head, ':', codeText + w1, w2 + row + w3);
    assert codeText + w1 == [] + codeText + w1;
    StripPadded([], codeText, w1);
    StripPadded(w2, row, w3);
  }

  /** A rail line with whitespace around any of its fields, and any value,
      blank or padded: the line is read as an assignment of `TokenOf(v)` to
      the rail and row the stripped fields name. */
  lemma RailLinePadded(w0: string, codeText: string, w1: string, w2: string, row: string, w3: string,
                       v: string, w4: string, rows: int)
    requires Upper(codeText) in RAIL_KEYS && IsRowKey(row, rows)
    requires AllSpace(w0) && AllSpace(w1) && AllSpace(w2) && AllSpace(w3) && AllSpace(w4)
    requires EndsClean(v)
    ensures ParseLine(w0 + RailHead(codeText, w1, w2, row, w3) + ['='] + v + w4, rows)
         == Some(RailEntry(Upper(codeText), row, TokenOf(v)))
  {
    var line := RailHead(codeText, w1, w2, row, w3) + ['='] + v;
    RailPaddedShape(codeText, w1, w2, row, w3, v);
    assert w0 + RailHead(codeText, w1, w2, row, w3) + ['='] + v + w4 == w0 + line + w4;
    StripPadded(w0, line, w4);
    RailPaddedFields(codeText, w1, w2, row, w3, v, rows);
  }

  lemma RailPaddedShape(codeText: string, w1: string, w2: string, row: string, w3: string, v: string)
    requires Upper(codeText) in RAIL_KEYS && IsDigits(row)
    requires AllSpace(w1) && AllSpace(w2) && AllSpace(w3) && EndsClean(v)
    ensures var line := RailHead(codeText, w1, w2, row, w3) + ['='] + v;
      IsStripped(line) && line != [] && line[0] != '#' && ':' in line && '=' in line
  {
    var head := RailHead(codeText, w1, w2, row, w3);
    var line := head + ['='] + v;
    RailCodeText(codeText);
    assert line[0] == codeText[0];
    assert line[|line| - 1] == if v == [] then '=' else v[|v| - 1];
    assert line[|codeText| + |w1|] == ':';
    assert line[|head|] == '=';
  }

  lemma RailPaddedFields(codeText: string, w1: string, w2: string, row: string, w3: string, v: string, rows: int)
    requires Upper(codeText) in RAIL_KEYS && IsRowKey(row, rows)
    requires AllSpace(w1) && AllSpace(w2) && AllSpace(w3)
    requires var line := RailHead(codeText, w1, w2, row, w3) + ['='] + v; ':' in line && '=' in line
    ensures ParseRail(RailHead(codeText, w1, w2, row, w3) + ['='] + v, rows)
         == Some(RailEntry(Upper(codeText), row, TokenOf(v)))
  {
    var head := RailHead(codeText, w1, w2, row, w3);
    RailHeadSplit(codeText, w1, w2, row, w3);
    SplitOnceUnique(head + ['='] + v, '=', head, v);
  }

  /** The text of a padded cell line up to its '='. */
  function CellHead(row: string, colText: char, w1: string): string {
    row + [colText] + w1
  }

  lemma CellHeadSplit(row: string, colText: char, w1: string)
    requires LowerChar(colText) in ALL_COLS && IsDigits(row) && |row| == 3 && AllSpace(w1)
    ensures var head := CellHead(row, colText, w1);
      && '=' !in head && ':' !in head
      && Lower(Strip(head)) == row + [LowerChar(colText)]
  {
    var key := row + [colText];
    CellKey(row, colText);
    SpaceFree(w1, '=');
    SpaceFree(w1, ':');
    assert CellHead(row, colText, w1) == [] + key + w1;
    StripPadded([], key, w1);
  }

  /** The coordinate of a cell line, without its padding. */
  lemma CellKey(row: string, colText: char)
    requires LowerChar(colText) in ALL_COLS && IsDigits(row) && |row| == 3
    ensures var key := row + [colText];
      IsStripped(key) && '=' !in key && ':' !in key && Lower(key) == row + [LowerChar(colText)]
  {
    var key := row + [colText];
    DigitsStripped(row);
    assert !IsSpace(colText) && colText != ':' && colText != '=';
    assert key[0] == row[0];
    assert Lower(key)[..3] == Lower(row);
  }

  /** A cell line with whitespace before and after its coordinate and any
      value without ':', blank or padded: `012F = x` is cell `f` of row
      `012` holding `x`, and `012f=` sets it to EMPTY. */
  lemma CellLinePadded(w0: string, row: string, colText: char, w1: string, v: string, w2: string, rows: int)
    requires LowerChar(colText) in ALL_COLS && IsRowKey(row, rows)
    requires AllSpace(w0) && AllSpace(w1) && AllSpace(w2)
    requires EndsClean(v) && ':' !in v
    ensures ParseLine(w0 + CellHead(row, colText, w1) + ['='] + v + w2, rows)
         == Some(CellEntry(row, LowerChar(colText), TokenOf(v)))
  {
    var line := CellHead(row, colText, w1) + ['='] + v;
    CellPaddedShape(row, colText, w1, v);
    assert w0 + CellHead(row, colText, w1) + ['='] + v + w2 == w0 + line + w2;
    StripPadded(w0, line, w2);
    CellPaddedFields(row, colText, w1, v, rows);
  }

  lemma CellPaddedShape(row: string, colText: char, w1: string, v: string)
    requires LowerChar(colText) in ALL_COLS && IsDigits(row) && |row| == 3
    requires AllSpace(w1) && EndsClean(v) && ':' !in v
    ensures var line := CellHead(row, colText, w1) + ['='] + v;
      IsStripped(line) && line != [] && line[0] != '#' && ':' !in line && '=' in line
  {
    var head := CellHead(row, colText, w1);
    var line := head + ['='] + v;
    CellHeadSplit(row, colText, w1);
    DigitsStripped(row);
    assert line[0] == row[0];
    assert line[|line| - 1] == if v == [] then '=' else v[|v| - 1];
    assert line[|head|] == '=';
  }

  lemma CellPaddedFields(row: string, colText: char, w1: string, v: string, rows: int)
    requires LowerChar(colText) in ALL_COLS && IsRowKey(row, rows) && AllSpace(w1)
    requires '=' in CellHead(row, colText, w1) + ['='] + v
    ensures ParseCell(CellHead(row, colText, w1) + ['='] + v, rows)
         == Some(CellEntry(row, LowerChar(colText), TokenOf(v)))
  {
    var head := CellHead(row, colText, w1);
    CellHeadSplit(row, colText, w1);
    SplitOnceUnique(head + ['='] + v, '=', head, v);
    var coord := Lower(Strip(head));
    assert coord[..3] == row && coord[3] == LowerChar(colText);
  }

  // ---------------------------------------------------------------------
  // Every accepted line is a padded rail or cell line

  /** `raw` spells the rail line `<codeText>:<row>=<v>`, with the whitespace
      `w0`..`w4` around its fields and nothing else. */
  predicate RailSpelling(raw: string, w0: string, codeText: string, w1: string, w2: string, row: string,
                         w3: string, v: string, w4: string) {
    && AllSpace(w0) && AllSpace(w1) && AllSpace(w2) && AllSpace(w3) && AllSpace(w4)
    && EndsClean(v)
    && raw == w0 + RailHead(codeText, w1, w2, row, w3) + ['='] + v + w4
  }

  /** `raw` spells the cell line `<row><colText>=<v>`, with the whitespace
      `w0`..`w2` around its fields, and its value holds no ':'. */
  predicate CellSpelling(raw: string, w0: string, row: string, colText: char, w1: string, v: string, w2: string) {
    && AllSpace(w0) && AllSpace(w1) && AllSpace(w2)
    && EndsClean(v) && ':' !in v
    && raw == w0 + CellHead(row, colText, w1) + ['='] + v + w2
  }

  /** A line is read as a rail assignment exactly when it is a padded rail
      line naming a known rail (in either case) and a row in range; the
      token is its value, stripped, or EMPTY. */
  lemma RailLineIff(raw: string, rows: int, code: string, row: string, tok: string)
    ensures ParseLine(raw, rows) == Some(RailEntry(code, row, tok)) <==>
      && code in RAIL_KEYS && IsRowKey(row, rows)
      && exists w0, codeText, w1, w2, w3, v, w4 ::
           RailSpelling(raw, w0, codeText, w1, w2, row, w3, v, w4) && Upper(codeText) == code && tok == TokenOf(v)
  {
    if ParseLine(raw, rows) == Some(RailEntry(code, row, tok)) {
      RailLineShapeOf(raw, rows);
    }
    if && code in RAIL_KEYS && IsRowKey(row, rows)
       && exists w0, codeText, w1, w2, w3, v, w4 ::
            RailSpelling(raw, w0, codeText, w1, w2, row, w3, v, w4) && Upper(codeText) == code && tok == TokenOf(v)
    {
      var w0, codeText, w1, w2, w3, v, w4 :|
        RailSpelling(raw, w0, codeText, w1, w2, row, w3, v, w4) && Upper(codeText) == code && tok == TokenOf(v);
      RailLinePadded(w0, codeText, w1, w2, row, w3, v, w4, rows);
    }
  }

  /** A line is read as a cell assignment exactly when it is a padded cell
      line naming a row in range and a known column (in either case), with
      no ':' in its value. */
  lemma CellLineIff(raw: string, rows: int, row: string, col: char, tok: string)
    ensures ParseLine(raw, rows) == Some(CellEntry(row, col, tok)) <==>
      && col in ALL_COLS && IsRowKey(row, rows)
      && exists w0, colText, w1, v, w2 ::
           CellSpelling(raw, w0, row, colText, w1, v, w2) && LowerChar(colText) == col && tok == TokenOf(v)
  {
    if ParseLine(raw, rows) == Some(CellEntry(row, col, tok)) {
      CellLineShapeOf(raw, rows);
    }
    if && col in ALL_COLS && IsRowKey(row, rows)
       && exists w0, colText, w1, v, w2 ::
            CellSpelling(raw, w0, row, colText, w1, v, w2) && LowerChar(colText) == col && tok == TokenOf(v)
    {
      var w0, colText, w1, v, w2 :|
        CellSpelling(raw, w0, row, colText, w1, v, w2) && LowerChar(colText) == col && tok == TokenOf(v);
      CellLinePadded(w0, row, colText, w1, v, w2, rows);
    }
  }

  lemma RailLineShapeOf(raw: string, rows: int)
    requires ParseLine(raw, rows).Some? && ParseLine(raw, rows).value.RailEntry?
    ensures var e := ParseLine(raw, rows).value;
      exists w0, codeText, w1, w2, w3, v, w4 ::
        RailSpelling(raw, w0, codeText, w1, w2, e.row, w3, v, w4) && Upper(codeText) == e.code && e.token == TokenOf(v)
  {
    var e := ParseLine(raw, rows).value;
    var line := Strip(raw);
    RailTaken(raw, rows);
    RailFields(line, rows);
    var (head, v) := SplitOnce(line, '=');
    var (c0, r0) := SplitOnce(head, ':');
    var codeText := Strip(c0);
    var p0, p1 := Peel(raw);
    var q0, q1 := Peel(c0);
    var q2, q3 := Peel(r0);
    AllSpaceAppend(p0, q0);
    ValueEndsClean(line, head, v);
    RailPieces(raw, p0, line, p1, head, v, c0, r0, q0, codeText, q1, q2, e.row, q3);
    assert RailSpelling(raw, p0 + q0, codeText, q1, q2, e.row, q3, v, p1);
  }

  lemma CellLineShapeOf(raw: string, rows: int)
    requires ParseLine(raw, rows).Some? && ParseLine(raw, rows).value.CellEntry?
    ensures var e := ParseLine(raw, rows).value;
      exists w0, colText, w1, v, w2 ::
        CellSpelling(raw, w0, e.row, colText, w1, v, w2) && LowerChar(colText) == e.col && e.token == TokenOf(v)
  {
    var e := ParseLine(raw, rows).value;
    var line := Strip(raw);
    CellTaken(raw, rows);
    CellFields(line, rows);
    var (head, v) := SplitOnce(line, '=');
    var key := Strip(head);
    var p0, p1 := Peel(raw);
    var q0, q1 := Peel(head);
    AllSpaceAppend(p0, q0);
    ValueEndsClean(line, head, v);
    ValueWithout(line, ':');
    CellPieces(raw, p0, line, p1, head, v, q0, key, q1, e.row);
    assert CellSpelling(raw, p0 + q0, e.row, key[3], q1, v, p1);
  }

  /** Putting the pieces of a rail line back together. */
  lemma RailPieces(raw: string, p0: string, line: string, p1: string, head: string, v: string,
                   c0: string, r0: string, q0: string, codeText: string, q1: string,
                   q2: string, row: string, q3: string)
    requires raw == p0 + line + p1 && line == head + ['='] + v && head == c0 + [':'] + r0
    requires c0 == q0 + codeText + q1 && r0 == q2 + row + q3
    ensures raw == (p0 + q0) + RailHead(codeText, q1, q2, row, q3) + ['='] + v + p1
  {
    assert head == q0 + RailHead(codeText, q1, q2, row, q3);
  }

  /** Putting the pieces of a cell line back together. */
  lemma CellPieces(raw: string, p0: string, line: string, p1: string, head: string, v: string,
                   q0: string, key: string, q1: string, row: string)
    requires raw == p0 + line + p1 && line == head + ['='] + v && head == q0 + key + q1
    requires |key| == 4 && key == row + [key[3]]
    ensures raw == (p0 + q0) + CellHead(row, key[3], q1) + ['='] + v + p1
  {
  }

  /** The parser strips each line first, so a stripped line reads the same. */
  lemma ParseStripped(raw: string, rows: int)
    ensures ParseLine(raw, rows) == ParseLine(Strip(raw), rows)
  {
    assert Strip(Strip(raw)) == Strip(raw);
  }

  /** On a stripped line, the dispatch reads what the whole loop body reads,
      so RailLineIff and CellLineIff describe it too. */
  lemma ReadStripped(line: string, rows: int)
    requires IsStripped(line)
    ensures ReadLine(line, rows) == ParseLine(line, rows)
  {
    assert Strip(line) == line;
  }

  /** An accepted rail entry comes from the rail branch. */
  lemma RailTaken(raw: string, rows: int)
    requires ParseLine(raw, rows).Some? && ParseLine(raw, rows).value.RailEntry?
    ensures ':' in Strip(raw) && '=' in Strip(raw)
    ensures ParseLine(raw, rows) == ParseRail(Strip(raw), rows)
  {
    var line := Strip(raw);
    assert ParseLine(raw, rows) == ReadLine(line, rows);
  }

  /** An accepted cell entry comes from the cell branch. */
  lemma CellTaken(raw: string, rows: int)
    requires ParseLine(raw, rows).Some? && ParseLine(raw, rows).value.CellEntry?
    ensures ':' !in Strip(raw) && '=' in Strip(raw)
    ensures ParseLine(raw, rows) == ParseCell(Strip(raw), rows)
  {
    var line := Strip(raw);
    assert ParseLine(raw, rows) == ReadLine(line, rows);
  }

  /** The fields of an accepted rail line: the code is the text before the
      ':' stripped and upper-cased, the row the text after it stripped. */
  lemma RailFields(line: string, rows: int)
    requires ':' in line && '=' in line && ParseRail(line, rows).Some?
    ensures var (head, v) := SplitOnce(line, '=');
      && ':' in head
      && var (c0, r0) := SplitOnce(head, ':');
         ParseRail(line, rows).value == RailEntry(Upper(Strip(c0)), Strip(r0), TokenOf(v))
  {
  }

  /** The fields of an accepted cell line: the stripped coordinate is the
      row's digits followed by the column letter in either case. */
  lemma CellFields(line: string, rows: int)
    requires '=' in line && ParseCell(line, rows).Some?
    ensures var (head, v) := SplitOnce(line, '=');
      var key := Strip(head);
      var e := ParseCell(line, rows).value;
      && |key| == 4 && key == e.row + [key[3]] && LowerChar(key[3]) == e.col && e.token == TokenOf(v)
  {
    var (head, v) := SplitOnce(line, '=');
    var key := Strip(head);
    var e := ParseCell(line, rows).value;
    CellUnfolded(line, rows);
    DigitsLowered(key, e.row);
    KeyParts(key, e.row);
  }

  lemma CellUnfolded(line: string, rows: int)
    requires '=' in line && ParseCell(line, rows).Some?
    ensures var (head, v) := SplitOnce(line, '=');
      var key := Strip(head);
      var e := ParseCell(line, rows).value;
      && |key| == 4 && IsDigits(e.row) && e.row == Lower(key)[..3] && e.col == Lower(key)[3]
      && e.token == TokenOf(v)
  {
  }

  lemma KeyParts(key: string, row: string)
    requires |key| == 4 && key[..3] == row
    ensures key == row + [key[3]]
  {
  }

  /** The only characters `lower()` turns into digits are digits. */
  lemma DigitsLowered(key: string, d: string)
    requires |d| <= |key| && IsDigits(d) && Lower(key)[..|d|] == d
    ensures key[..|d|] == d
  {
    forall i | 0 <= i < |d| ensures key[i] == d[i] {
      assert Lower(key)[i] == d[i];
    }
  }

  /** The value of a stripped line ends in no whitespace. */
  lemma ValueEndsClean(line: string, head: string, v: string)
    requires IsStripped(line) && line == head + ['='] + v
    ensures EndsClean(v)
  {
    if v != [] {
      assert line[|line| - 1] == v[|v| - 1];
    }
  }

  /** The spelling of an entry as a line of the connections file. */
  function Canonical(e: Entry): string {
    match e
    case RailEntry(code, row, token) => RailLine(code, row, token)
    case CellEntry(row, col, token) => CellLine(row, col, token)
  }

  /** Writing a valid entry out and reading it back gives the entry, except
      for a cell token holding ':', which no cell line can carry. */
  lemma CanonicalRoundTrip(e: Entry, rows: int)
    requires ValidEntry(e, rows)
    requires e.CellEntry? ==> ':' !in e.token
    ensures ParseLine(Canonical(e), rows) == Some(e)
  {
    if e.RailEntry? {
      UpperOfRailKey(e.code);
      RailLineAccepted(e.code, e.row, e.token, rows);
    } else {
      assert LowerChar(e.col) == e.col;
      CellLineAccepted(e.row, e.col, e.token, rows);
    }
  }

  /** The converse: whatever line the parser accepts, it reads the same
      entry as that entry's canonical spelling. */
  lemma AcceptedLineCanonical(raw: string, rows: int)
    requires ParseLine(raw, rows).Some?
    ensures ParseLine(Canonical(ParseLine(raw, rows).value), rows) == ParseLine(raw, rows)
  {
    var e := ParseLine(raw, rows).value;
    if e.CellEntry? {
      TokenColonFree(raw, rows);
    }
    CanonicalRoundTrip(e, rows);
  }

  lemma UpperOfRailKey(code: string)
    requires code in RAIL_KEYS
    ensures Upper(code) == code
  {
  }

  /** A cell token comes from a line without ':'. */
  lemma TokenColonFree(raw: string, rows: int)
    requires ParseLine(raw, rows).Some? && ParseLine(raw, rows).value.CellEntry?
    ensures ':' !in ParseLine(raw, rows).value.token
  {
    ParseLineToken(raw, rows);
    StripWithout(raw, ':');
    ValueWithout(Strip(raw), ':');
  }

  /** The value of a line is a piece of it. */
  lemma ValueWithout(line: string, c: char)
    requires '=' in line && c !in line
    ensures c !in SplitOnce(line, '=').1
  {
    var (a, v) := SplitOnce(line, '=');
    assert line[|a| + 1..] == v;
    SuffixKeepsOut(line, |a| + 1, c);
  }
}
