/**
 * The board model: configuration constants, the flat `grid` lookup and the
 * four `rails` lookups that the parser fills and the renderer reads.
 */
module Board {
  import opened Text
  import opened Digits

  const COLS_LEFT: seq<char> := ['a', 'b', 'c', 'd', 'e']
  const COLS_RIGHT: seq<char> := ['f', 'g', 'h', 'i', 'j']
  const ALL_COLS: seq<char> := COLS_LEFT + COLS_RIGHT
  /** Left red, left blue, right red, right blue. */
  const RAIL_KEYS: seq<string> := ["L+", "L-", "R+", "R-"]
  const SEP: string := " --- "
  const CELL_W: nat := 4
  const RAIL_W: nat := 4
  /** The glyph shown for a position with no token (U+00B7, middle dot). */
  const EMPTY: string := "\U{B7}"

  /** A cell coordinate: the three-digit row key and the column letter. */
  type Cell = (string, char)

  /**
   * The result of one parse. `rails` maps each rail code to its own
   * row-key -> token lookup; the parser starts it with all four codes.
   */
  datatype Board = Board(grid: map<Cell, string>, rails: map<string, map<string, string>>)

  /** What `parse_connections` returns before reading any line, and what it
      returns for a missing file. */
  const EmptyBoard: Board := Board(map[], map k | k in RAIL_KEYS :: map[])

  predicate HasRails(b: Board) {
    forall k :: k in RAIL_KEYS ==> k in b.rails
  }

  /** `f"{row:03d}"`. */
  function RowKey(row: nat): (key: string)
    ensures IsDigits(key)
    ensures Value(key) == row
    ensures row < 1000 ==> |key| == 3
  {
    ZeroPadValue(row, 3);
    assert row < 1000 ==> |ZeroPad(row, 3)| == 3 by {
      if row < 1000 { ZeroPad3(row); }
    }
    ZeroPad(row, 3)
  }

  /** A row key the parser accepts for a board of `rows` rows: exactly three
      digits naming a row in `1..rows`. */
  predicate IsRowKey(s: string, rows: int) {
    |s| == 3 && IsDigits(s) && 1 <= Value(s) <= rows
  }

  /** Every accepted row key is the rendering of its own row number, so the
      renderer's lookups find exactly the parsed entries. */
  lemma RowKeyOfValue(s: string, rows: int)
    requires IsRowKey(s, rows)
    ensures s == RowKey(Value(s))
  {
    ValueBound(s);
    assert Pow10(3) == 1000;
    ZeroPad3(Value(s));
  }

  /** Row keys of different rows differ: the renderer never shows one row's
      entries on another row. */
  lemma RowKeyInjective(r1: nat, r2: nat)
    requires RowKey(r1) == RowKey(r2)
    ensures r1 == r2
  {
  }

  /** A stored token: never empty, and without whitespace at either end. */
  predicate IsToken(s: string) {
    s != [] && IsStripped(s)
  }

  /** The invariant every parse result keeps. */
  ghost predicate WellFormed(b: Board, rows: int) {
    && (forall k :: k in b.rails <==> k in RAIL_KEYS)
    && (forall k, row :: k in b.rails && row in b.rails[k] ==> IsRowKey(row, rows) && IsToken(b.rails[k][row]))
    && (forall c :: c in b.grid ==> IsRowKey(c.0, rows) && c.1 in ALL_COLS && IsToken(b.grid[c]))
  }

  /** `grid.get((rkey, col), EMPTY)`. */
  function CellAt(b: Board, rkey: string, col: char): string {
    if (rkey, col) in b.grid then b.grid[(rkey, col)] else EMPTY
  }

  /** `rails[code].get(rkey, EMPTY)`. */
  function RailAt(b: Board, code: string, rkey: string): string
    requires code in b.rails
  {
    if rkey in b.rails[code] then b.rails[code][rkey] else EMPTY
  }

  lemma EmptyBoardWellFormed(rows: int)
    ensures WellFormed(EmptyBoard, rows)
    ensures HasRails(EmptyBoard)
  {
  }

  /** No token on the board holds `c`. */
  predicate BoardWithout(b: Board, c: char) {
    && (forall cell :: cell in b.grid ==> c !in b.grid[cell])
    && (forall code, row :: code in b.rails && row in b.rails[code] ==> c !in b.rails[code][row])
  }
}
