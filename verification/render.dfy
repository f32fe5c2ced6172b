/**
 * `header_line`, `row_line` and `render_board`: the fixed-column text
 * layout of the board. Every field goes through `FixWidth`, so a row line
 * is as long as any other whatever its tokens hold.
 */
module Render {
  import opened Text
  import opened Format
  import opened Board
  import opened Digits

  /** Python's `" ".join(fields)`. */
  function SpaceJoin(fields: seq<string>): string
    decreases |fields|
  {
    if fields == [] then ""
    else if |fields| == 1 then fields[0]
    else fields[0] + " " + SpaceJoin(fields[1..])
  }

  predicate Uniform(fields: seq<string>, w: nat) {
    forall i :: 0 <= i < |fields| ==> |fields[i]| == w
  }

  /** Fields of equal width `w` joined by single spaces take `w + 1`
      columns each, less the missing trailing space. */
  lemma {:induction false} SpaceJoinLength(fields: seq<string>, w: nat)
    requires |fields| >= 1 && Uniform(fields, w)
    ensures |SpaceJoin(fields)| == |fields| * (w + 1) - 1
    decreases |fields|
  {
    if |fields| > 1 {
      SpaceJoinLength(fields[1..], w);
      MulStep(|fields|, w + 1);
    }
  }

  /** ... and field `k` starts at column `k * (w + 1)`. */
  lemma {:induction false} SpaceJoinField(fields: seq<string>, w: nat, k: nat)
    requires k < |fields| && Uniform(fields, w)
    ensures k * (w + 1) + w <= |SpaceJoin(fields)|
    ensures SpaceJoin(fields)[k * (w + 1)..k * (w + 1) + w] == fields[k]
    decreases k
  {
    SpaceJoinLength(fields, w);
    MulStep(|fields|, w + 1);
    if k > 0 {
      var rest := fields[1..];
      SpaceJoinField(rest, w, k - 1);
      var head := fields[0] + " ";
      assert SpaceJoin(fields) == head + SpaceJoin(rest);
      MulStep(k, w + 1);
      SliceRight(head, SpaceJoin(rest), (k - 1) * (w + 1), w);
    }
  }

  lemma MulStep(k: int, m: int)
    ensures k * m == (k - 1) * m + m
  {
  }

  lemma SliceRight(a: string, b: string, i: nat, l: nat)
    requires i + l <= |b|
    ensures (a + b)[|a| + i..|a| + i + l] == b[i..i + l]
  {
  }

  /** No field holds `c`, so neither does their join, unless `c` is the
      space that joins them. */
  lemma {:induction false} SpaceJoinWithout(fields: seq<string>, c: char)
    requires c != ' ' && forall i :: 0 <= i < |fields| ==> c !in fields[i]
    ensures c !in SpaceJoin(fields)
    decreases |fields|
  {
    if |fields| > 1 {
      SpaceJoinWithout(fields[1..], c);
    }
  }

  /** The header fields of a bank: each column letter centred in a cell. */
  function LetterFields(cols: seq<char>): seq<string> {
    seq(|cols|, i requires 0 <= i < |cols| => FixWidth([cols[i]], CELL_W))
  }

  /** The fields of one bank of a row: each cell's token, or EMPTY. */
  function CellFields(b: Board, rkey: string, cols: seq<char>): seq<string> {
    seq(|cols|, i requires 0 <= i < |cols| => FixWidth(CellAt(b, rkey, cols[i]), CELL_W))
  }

  /** The parts list of `header_line()`, joined. */
  function HeaderText(leftCols: string, rightCols: string): string {
    FixWidth("000 |", 5) + FixWidth("rojo", 6) + "|" + FixWidth("azul", 6) + "|"
      + FixWidth("---", 5) + "| "
      + leftCols + " |" + SEP + "| "
      + rightCols + " |" + SEP + "|"
      + FixWidth("rojo", 6) + "|" + FixWidth("azul", 6) + "|"
  }

  /** `header_line()`. */
  function HeaderLine(): string {
    HeaderText(SpaceJoin(LetterFields(COLS_LEFT)), SpaceJoin(LetterFields(COLS_RIGHT)))
  }

  /** The f-string of `row_line`, over its already formatted fields. */
  function RowText(rkey: string, lRed: string, lBlue: string, leftVals: string, rightVals: string,
                   rRed: string, rBlue: string): string
  {
    rkey + " | " + lRed + " | " + lBlue + " | " + FixWidth("---", 3) + " | "
      + leftVals + " |" + SEP + "| " + rightVals + " |" + SEP + "| " + rRed + " | " + rBlue + " |"
  }

  /** The field of rail `code` in row `rkey`. */
  function RailField(b: Board, code: string, rkey: string): string
    requires HasRails(b) && code in RAIL_KEYS
  {
    FixWidth(RailAt(b, code, rkey), RAIL_W)
  }

  /** `row_line(row, grid, rails)`. */
  function RowLine(row: nat, b: Board): string
    requires HasRails(b)
  {
    KeyedRow(RowKey(row), b)
  }

  /** The row line of the row whose key is `rkey`. */
  function KeyedRow(rkey: string, b: Board): string
    requires HasRails(b)
  {
    RowText(rkey, RailField(b, "L+", rkey), RailField(b, "L-", rkey),
      SpaceJoin(CellFields(b, rkey, COLS_LEFT)), SpaceJoin(CellFields(b, rkey, COLS_RIGHT)),
      RailField(b, "R+", rkey), RailField(b, "R-", rkey))
  }

  /** The lines of `render_board(rows, grid, rails)`: the header, one line
      per row `1..rows`, and the header again as a footer. */
  function BoardLines(rows: int, b: Board): (lines: seq<string>)
    requires HasRails(b)
    ensures |lines| == (if rows > 0 then rows else 0) + 2
  {
    var n := if rows > 0 then rows else 0;
    seq(n + 2, i requires 0 <= i < n + 2 => if i == 0 || i == n + 1 then HeaderLine() else RowLine(i, b))
  }

  /** The header opens and closes the board, and line `k` between them
      is row `k`. */
  lemma BoardLinesFrame(rows: int, b: Board)
    requires HasRails(b)
    ensures var lines := BoardLines(rows, b);
      lines[0] == HeaderLine() && lines[|lines| - 1] == HeaderLine()
  {
  }

  lemma BoardLinesRow(rows: int, b: Board, k: int)
    requires HasRails(b) && 1 <= k <= rows
    ensures BoardLines(rows, b)[k] == RowLine(k, b)
  {
  }

  /** Python's `"\n".join(lines)`. */
  function JoinLines(lines: seq<string>): string
    decreases |lines|
  {
    if lines == [] then ""
    else if |lines| == 1 then lines[0]
    else lines[0] + "\n" + JoinLines(lines[1..])
  }

  /** `render_board(rows, grid, rails)`: the board as one text. */
  function RenderBoard(rows: int, b: Board): string
    requires HasRails(b)
  {
    JoinLines(BoardLines(rows, b))
  }

  // ---------------------------------------------------------------------
  // The shared frame of header and row lines

  /** `<key> | <f1> | <f2> | <middle>| <f3> | <f4> |`: both the header and
      every row line have this shape, with the four rail columns in the
      `f` fields. */
  function Framed(key: string, f1: string, f2: string, middle: string, f3: string, f4: string): string {
    key + " | " + f1 + " | " + f2 + " | " + middle + "| " + f3 + " | " + f4 + " |"
  }

  /** The part of a line between the left and the right rail columns. */
  function Middle(left: string, right: string): string {
    "---" + " | " + left + " |" + SEP + "| " + right + " |" + SEP
  }

  /** Where field `f1`..`f4` starts in a framed line whose key has `n`
      characters and whose middle has `m`. */
  lemma FramedFields(key: string, f1: string, f2: string, middle: string, f3: string, f4: string)
    requires |f1| == 4 && |f2| == 4 && |f3| == 4 && |f4| == 4
    ensures var line := Framed(key, f1, f2, middle, f3, f4);
      var n, m := |key|, |middle|;
      && |line| == n + m + 32
      && line[..n] == key
      && line[n + 3..n + 7] == f1
      && line[n + 10..n + 14] == f2
      && line[n + 17..n + 17 + m] == middle
      && line[n + m + 19..n + m + 23] == f3
      && line[n + m + 26..n + m + 30] == f4
  {
  }

  /** A text that fits is padded with Python's floor split. */
  lemma FitPadded(s: string, width: nat, l: nat, r: nat)
    requires |s| <= width && l == (width - |s|) / 2 && r == width - |s| - l
    ensures FixWidth(s, width) == Spaces(l) + s + Spaces(r)
  {
  }

  lemma SpacesSmall()
    ensures Spaces(0) == "" && Spaces(1) == " "
  {
  }

  lemma FixWidthLabels()
    ensures FixWidth("000 |", 5) == "000 |"
    ensures FixWidth("rojo", 6) == " rojo "
    ensures FixWidth("azul", 6) == " azul "
    ensures FixWidth("---", 5) == " --- "
    ensures FixWidth("---", 3) == "---"
  {
    FitsExactly("000 |");
    FitsExactly("---");
    FitsCentred("rojo");
    FitsCentred("azul");
    FitsCentred("---");
  }

  /** A label as wide as its cell is left alone. */
  lemma FitsExactly(s: string)
    ensures FixWidth(s, |s|) == s
  {
    SpacesSmall();
    FitPadded(s, |s|, 0, 0);
  }

  /** A label two narrower than its cell gets one space on each side. */
  lemma FitsCentred(s: string)
    ensures FixWidth(s, |s| + 2) == " " + s + " "
  {
    SpacesSmall();
    FitPadded(s, |s| + 2, 1, 1);
  }

  /** The row line's f-string is a framed line. */
  lemma RowTextFramed(key: string, f1: string, f2: string, left: string, right: string, f3: string, f4: string)
    ensures RowText(key, f1, f2, left, right, f3, f4) == Framed(key, f1, f2, Middle(left, right), f3, f4)
  {
    FitsExactly("---");
  }

  /** A row line starts with the key of its row. */
  lemma KeyedRowStartsWithKey(rkey: string, b: Board)
    requires HasRails(b)
    ensures |rkey| <= |KeyedRow(rkey, b)| && KeyedRow(rkey, b)[..|rkey|] == rkey
  {
    var f1, f2 := RailField(b, "L+", rkey), RailField(b, "L-", rkey);
    var f3, f4 := RailField(b, "R+", rkey), RailField(b, "R-", rkey);
    var left, right := SpaceJoin(CellFields(b, rkey, COLS_LEFT)), SpaceJoin(CellFields(b, rkey, COLS_RIGHT));
    RowTextFramed(rkey, f1, f2, left, right, f3, f4);
    FramedFields(rkey, f1, f2, Middle(left, right), f3, f4);
  }

  /** Line `k` of the board, for `1 <= k <= rows`, begins with the key of
      row `k`, whose number is `k`: the rows appear in ascending order. */
  lemma BoardLineKey(rows: int, b: Board, k: int)
    requires HasRails(b) && 1 <= k <= rows
    ensures var line, key := BoardLines(rows, b)[k], RowKey(k);
      |key| <= |line| && line[..|key|] == key && Value(key) == k
  {
    BoardLinesRow(rows, b, k);
    KeyedRowStartsWithKey(RowKey(k), b);
  }

  lemma HeaderTextLiteral(left: string, right: string)
    ensures HeaderText(left, right) == "000 |" + " rojo " + "|" + " azul " + "|" + " --- " + "| " + left + " |" + SEP + "| "
      + right + " |" + SEP + "|" + " rojo " + "|" + " azul " + "|"
  {
    FixWidthLabels();
  }

  lemma HeaderHead()
    ensures "000 |" + " rojo " + "|" + " azul " + "|" + " --- " + "| "
      == "000" + " | " + "rojo" + " | " + "azul" + " | " + "---" + " | "
  {
  }

  lemma HeaderTail()
    ensures SEP + "|" + " rojo " + "|" + " azul " + "|" == SEP + ("| " + "rojo" + " | " + "azul" + " |")
  {
  }

  lemma HeaderAssoc(x: string, left: string, right: string, t: string)
    ensures x + left + " |" + SEP + "| " + right + " |" + t == x + (left + " |" + SEP + "| " + right + " |") + t
  {
  }

  lemma TailAssoc(a: string, b: string, c: string, d: string, e: string, f: string, g: string)
    ensures a + b + c + d + e + f + g == a + (b + c + d + e + f + g)
  {
  }

  lemma FramedAssoc(mid: string)
    ensures Framed("000", "rojo", "azul", "---" + " | " + mid + SEP, "rojo", "azul")
      == "000" + " | " + "rojo" + " | " + "azul" + " | " + "---" + " | " + mid + (SEP + ("| " + "rojo" + " | " + "azul" + " |"))
  {
  }

  /** The header's parts, regrouped as a framed line. */
  lemma HeaderRegroup(left: string, right: string)
    ensures "000 |" + " rojo " + "|" + " azul " + "|" + " --- " + "| " + left + " |" + SEP + "| "
        + right + " |" + SEP + "|" + " rojo " + "|" + " azul " + "|"
      == Framed("000", "rojo", "azul", Middle(left, right), "rojo", "azul")
  {
    var x := "000 |" + " rojo " + "|" + " azul " + "|" + " --- " + "| ";
    var mid := left + " |" + SEP + "| " + right + " |";
    var a := x + left + " |" + SEP + "| " + right + " |";
    TailAssoc(a, SEP, "|", " rojo ", "|", " azul ", "|");
    HeaderTail();
    HeaderAssoc(x, left, right, SEP + ("| " + "rojo" + " | " + "azul" + " |"));
    HeaderHead();
    assert Middle(left, right) == "---" + " | " + mid + SEP;
    FramedAssoc(mid);
  }

  /** The header is a framed line with the rail labels in the rail fields. */
  lemma HeaderFramed()
    ensures HeaderLine() == Framed("000", "rojo", "azul",
      Middle(SpaceJoin(LetterFields(COLS_LEFT)), SpaceJoin(LetterFields(COLS_RIGHT))), "rojo", "azul")
  {
    var left, right := SpaceJoin(LetterFields(COLS_LEFT)), SpaceJoin(LetterFields(COLS_RIGHT));
    HeaderTextLiteral(left, right);
    HeaderRegroup(left, right);
  }

  // ---------------------------------------------------------------------
  // Column alignment

  /** `line` shows `f` from column `o` on. */
  predicate ShowsAt(line: string, o: int, f: string) {
    0 <= o && o + |f| <= |line| && line[o..o + |f|] == f
  }

  /** Where the two banks sit inside the middle of a line. */
  lemma MiddleParts(left: string, right: string)
    ensures var mid := Middle(left, right);
      && |mid| == |left| + |right| + 22
      && mid[6..6 + |left|] == left
      && mid[|left| + 15..|left| + 15 + |right|] == right
  {
    var a, c, e := "---" + " | ", " |" + SEP + "| ", " |" + SEP;
    assert |a| == 6 && |c| == 9 && |e| == 7;
    var mid := a + left + c + right + e;
    assert Middle(left, right) == mid;
    assert mid[6..6 + |left|] == left;
    assert mid[|left| + 15..|left| + 15 + |right|] == right;
  }

  lemma FieldSlice(s: string, a: nat, m: nat, i: nat, w: nat)
    requires a + m <= |s| && i + w <= m
    ensures s[a..a + m][i..i + w] == s[a + i..a + i + w]
  {
    var x := s[a..a + m][i..i + w];
    assert forall t :: 0 <= t < w ==> x[t] == s[a + i + t];
  }

  /** A bank of five four-wide fields is 24 characters wide, field `j`
      at column `5 * j`. */
  lemma BankField(fields: seq<string>, j: nat)
    requires |fields| == 5 && Uniform(fields, 4) && j < 5
    ensures |SpaceJoin(fields)| == 24
    ensures SpaceJoin(fields)[5 * j..5 * j + 4] == fields[j]
  {
    SpaceJoinLength(fields, 4);
    SpaceJoinField(fields, 4, j);
  }

  /** In a framed line with two five-field banks, field `j` of the left
      bank starts `n + 23 + 5 * j` characters in and field `j` of the right
      bank `n + 56 + 5 * j`, where `n` is the key's length. */
  lemma FramedBanks(key: string, f1: string, f2: string, lf: seq<string>, rf: seq<string>,
                    f3: string, f4: string, j: nat)
    requires |f1| == 4 && |f2| == 4 && |f3| == 4 && |f4| == 4
    requires |lf| == 5 && |rf| == 5 && Uniform(lf, 4) && Uniform(rf, 4) && j < 5
    ensures var line, n := Framed(key, f1, f2, Middle(SpaceJoin(lf), SpaceJoin(rf)), f3, f4), |key|;
      && |line| == n + 102
      && ShowsAt(line, n + 23 + 5 * j, lf[j])
      && ShowsAt(line, n + 56 + 5 * j, rf[j])
  {
    var left, right := SpaceJoin(lf), SpaceJoin(rf);
    var mid := Middle(left, right);
    var n := |key|;
    var line := Framed(key, f1, f2, mid, f3, f4);
    BankField(lf, j);
    BankField(rf, j);
    MiddleParts(left, right);
    FramedFields(key, f1, f2, mid, f3, f4);
    FieldSlice(line, n + 17, 70, 6 + 5 * j, 4);
    FieldSlice(mid, 6, 24, 5 * j, 4);
    FieldSlice(line, n + 17, 70, 39 + 5 * j, 4);
    FieldSlice(mid, 39, 24, 5 * j, 4);
  }

  lemma CellFieldsUniform(b: Board, rkey: string, cols: seq<char>)
    ensures Uniform(CellFields(b, rkey, cols), CELL_W) && |CellFields(b, rkey, cols)| == |cols|
  {
  }

  lemma LetterFieldsUniform(cols: seq<char>)
    ensures Uniform(LetterFields(cols), CELL_W) && |LetterFields(cols)| == |cols|
  {
  }

  /** Row line `rkey` shows the token of cell `(rkey, c)` in the four
      columns reserved for letter `c`, and is `102` characters longer than
      its key. */
  lemma KeyedRowCells(rkey: string, b: Board, j: nat)
    requires HasRails(b) && j < 5
    ensures var line, n := KeyedRow(rkey, b), |rkey|;
      && |line| == n + 102
      && ShowsAt(line, n + 23 + 5 * j, FixWidth(CellAt(b, rkey, COLS_LEFT[j]), CELL_W))
      && ShowsAt(line, n + 56 + 5 * j, FixWidth(CellAt(b, rkey, COLS_RIGHT[j]), CELL_W))
  {
    var f1, f2 := RailField(b, "L+", rkey), RailField(b, "L-", rkey);
    var f3, f4 := RailField(b, "R+", rkey), RailField(b, "R-", rkey);
    var lf, rf := CellFields(b, rkey, COLS_LEFT), CellFields(b, rkey, COLS_RIGHT);
    RowTextFramed(rkey, f1, f2, SpaceJoin(lf), SpaceJoin(rf), f3, f4);
    CellFieldsUniform(b, rkey, COLS_LEFT);
    CellFieldsUniform(b, rkey, COLS_RIGHT);
    FramedBanks(rkey, f1, f2, lf, rf, f3, f4, j);
  }

  /** For rows below 1000 the key has three characters, so cell `(k, c)`
      sits `26 + 5 * j` (left bank) or `59 + 5 * j` (right bank) columns
      in, and the line has 105 characters. */
  lemma RowCells(k: nat, b: Board, j: nat)
    requires HasRails(b) && j < 5 && k < 1000
    ensures var line, key := RowLine(k, b), RowKey(k);
      && |line| == 105
      && ShowsAt(line, 26 + 5 * j, FixWidth(CellAt(b, key, COLS_LEFT[j]), CELL_W))
      && ShowsAt(line, 59 + 5 * j, FixWidth(CellAt(b, key, COLS_RIGHT[j]), CELL_W))
  {
    KeyedRowCells(RowKey(k), b, j);
  }

  /** The header shows column letter `c` centred in the same four
      columns. */
  lemma HeaderLetters(j: nat)
    requires j < 5
    ensures var line := HeaderLine();
      && |line| == 105
      && ShowsAt(line, 26 + 5 * j, FixWidth([COLS_LEFT[j]], CELL_W))
      && ShowsAt(line, 59 + 5 * j, FixWidth([COLS_RIGHT[j]], CELL_W))
  {
    var lf, rf := LetterFields(COLS_LEFT), LetterFields(COLS_RIGHT);
    HeaderFramed();
    LetterFieldsUniform(COLS_LEFT);
    LetterFieldsUniform(COLS_RIGHT);
    FramedBanks("000", "rojo", "azul", lf, rf, "rojo", "azul", j);
  }

  // ---------------------------------------------------------------------
  // Characters a line can hold

  /** No token row `rkey` shows, nor the placeholder, holds `c`. */
  predicate RowWithout(b: Board, rkey: string, c: char)
    requires HasRails(b)
  {
    && (forall col :: col in ALL_COLS ==> c !in CellAt(b, rkey, col))
    && (forall code :: code in RAIL_KEYS ==> c !in RailAt(b, code, rkey))
  }

  /** A character no token of the board holds is in no field of any row. */
  lemma BoardRowWithout(b: Board, rkey: string, c: char)
    requires HasRails(b) && BoardWithout(b, c) && c !in EMPTY
    ensures RowWithout(b, rkey, c)
  {
  }

  lemma CellFieldsWithout(b: Board, rkey: string, cols: seq<char>, c: char)
    requires c != ' ' && forall col :: col in cols ==> c !in CellAt(b, rkey, col)
    ensures c !in SpaceJoin(CellFields(b, rkey, cols))
  {
    var fields := CellFields(b, rkey, cols);
    forall i | 0 <= i < |fields| ensures c !in fields[i] {
      FixWidthAddsOnlySpaces(CellAt(b, rkey, cols[i]), CELL_W, c);
    }
    SpaceJoinWithout(fields, c);
  }

  lemma FramedWithout(key: string, f1: string, f2: string, middle: string, f3: string, f4: string, c: char)
    requires c != ' ' && c != '|'
    requires c !in key && c !in f1 && c !in f2 && c !in middle && c !in f3 && c !in f4
    ensures c !in Framed(key, f1, f2, middle, f3, f4)
  {
  }

  lemma MiddleWithout(left: string, right: string, c: char)
    requires c != ' ' && c != '|' && c != '-' && c !in left && c !in right
    ensures c !in Middle(left, right)
  {
  }

  /** A row line shows only its key, its tokens, spaces and the frame's
      `|` and `-`: any other character is there only if a token or the
      key holds it. */
  lemma KeyedRowWithout(rkey: string, b: Board, c: char)
    requires HasRails(b) && RowWithout(b, rkey, c)
    requires c !in rkey && c != ' ' && c != '|' && c != '-'
    ensures c !in KeyedRow(rkey, b)
  {
    var f1, f2 := RailField(b, "L+", rkey), RailField(b, "L-", rkey);
    var f3, f4 := RailField(b, "R+", rkey), RailField(b, "R-", rkey);
    var left, right := SpaceJoin(CellFields(b, rkey, COLS_LEFT)), SpaceJoin(CellFields(b, rkey, COLS_RIGHT));
    assert KeyedRow(rkey, b) == Framed(rkey, f1, f2, Middle(left, right), f3, f4) by {
      RowTextFramed(rkey, f1, f2, left, right, f3, f4);
    }
    assert c !in left && c !in right by {
      assert forall col :: col in COLS_LEFT ==> col in ALL_COLS;
      assert forall col :: col in COLS_RIGHT ==> col in ALL_COLS;
      CellFieldsWithout(b, rkey, COLS_LEFT, c);
      CellFieldsWithout(b, rkey, COLS_RIGHT, c);
    }
    MiddleWithout(left, right, c);
    FixWidthAddsOnlySpaces(RailAt(b, "L+", rkey), RAIL_W, c);
    FixWidthAddsOnlySpaces(RailAt(b, "L-", rkey), RAIL_W, c);
    FixWidthAddsOnlySpaces(RailAt(b, "R+", rkey), RAIL_W, c);
    FixWidthAddsOnlySpaces(RailAt(b, "R-", rkey), RAIL_W, c);
    FramedWithout(rkey, f1, f2, Middle(left, right), f3, f4, c);
  }

  /** The characters the header is written with: the row digits, the
      frame, the rail labels and the column letters. */
  predicate HeaderChar(c: char) {
    || '0' <= c <= '9' || c == ' ' || c == '|' || c == '-'
    || 'a' <= c <= 'j' || c == 'l' || c == 'o' || c == 'r' || c == 'u' || c == 'z'
  }

  /** The header holds no character but digits, spaces, the frame, the
      column letters and the rail labels. */
  lemma HeaderWithout(c: char)
    requires !HeaderChar(c)
    ensures c !in HeaderLine()
  {
    var left, right := SpaceJoin(LetterFields(COLS_LEFT)), SpaceJoin(LetterFields(COLS_RIGHT));
    var framed := Framed("000", "rojo", "azul", Middle(left, right), "rojo", "azul");
    assert c !in framed by {
      BanksWithout(c);
      LabelsWithout(left, right, c);
    }
    assert HeaderLine() == framed by { HeaderFramed(); }
  }

  /** The header's frame around two banks of letters adds only its own
      characters. */
  lemma LabelsWithout(left: string, right: string, c: char)
    requires !HeaderChar(c) && c !in left && c !in right
    ensures c !in Framed("000", "rojo", "azul", Middle(left, right), "rojo", "azul")
  {
    MiddleWithout(left, right, c);
    assert c !in "000" && c !in "rojo" && c !in "azul";
    FramedWithout("000", "rojo", "azul", Middle(left, right), "rojo", "azul", c);
  }

  lemma BanksWithout(c: char)
    requires !HeaderChar(c)
    ensures c !in SpaceJoin(LetterFields(COLS_LEFT)) && c !in SpaceJoin(LetterFields(COLS_RIGHT))
  {
    assert c !in COLS_LEFT && c !in COLS_RIGHT;
    LettersWithout(COLS_LEFT, c);
    LettersWithout(COLS_RIGHT, c);
  }

  /** A bank of centred column letters holds no character but spaces and
      the letters. */
  lemma LettersWithout(cols: seq<char>, c: char)
    requires c != ' ' && c !in cols
    ensures c !in SpaceJoin(LetterFields(cols))
  {
    var fields := LetterFields(cols);
    forall i | 0 <= i < |fields| ensures c !in fields[i] {
      FixWidthAddsOnlySpaces([cols[i]], CELL_W, c);
    }
    SpaceJoinWithout(fields, c);
  }
}
