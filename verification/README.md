# Protoboard viewer: a Dafny model of its text core

`protoband_app.py` is a small Tk viewer for a breadboard ("protoboard")
described in a plain-text connections file. Each line of the file puts a
token either on one of four power rails (`L+:010=+`: left red rail, row 10)
or in a cell of the two five-column banks (`012f=1+`: row 12, column `f`).
On every change the viewer parses the file into a board, renders it as a
fixed-column text (a header, one line per row, the header again as a
footer), and colours the text. It colours every `rojo`/`azul` label, every
`J+`/`J-` jumper mark, and the four rail value columns that it finds
between `|` separators.

This project models that core as pure Dafny functions and proves what the
layout and the parser promise:

| file | module | what it holds |
|---|---|---|
| `options.dfy` | `Options` | the optional value used for skipped lines |
| `text.dfy` | `Text` | `strip`, `upper`, `lower`, `split(c, 1)` and `" " * n` over `seq<char>` |
| `digits.dfy` | `Digits` | `isdigit`, `int(s)` and `f"{n:03d}"` |
| `format.dfy` | `Format` | `fix_width` and `center` |
| `board.dfy` | `Board` | the configuration constants, the `grid`/`rails` board and row keys |
| `parser.dfy` | `Parser` | `parse_connections`, one line at a time and over a whole file |
| `render.dfy` | `Render` | `header_line`, `row_line`, `render_board` and the column layout |
| `highlight.dfy` | `Highlight` | the four needle scans and the `|`-based value spans of `refresh` |
| `display.dfy` | `Display` | splitting the rendered board into display lines, and the coloured view |

The connections file enters as the sequence of its lines; a missing file
is the empty sequence. Row numbers are unbounded integers. Offsets in a
line are 0-based and spans are half-open, as Tk's `"line.col"` indices
are.

## Model

| member | source | states |
|---|---|---|
| Text.Strip | protoband_app.py:82 | the result has no whitespace at either end, is empty exactly when the input is all whitespace, and is the input itself when that is already stripped |
| Text.StripKeeps | protoband_app.py:82 | a non-whitespace character occurs in the stripped text exactly when it occurs in the input |
| Text.StripSlice | protoband_app.py:82 | what `strip` keeps is one contiguous piece of the input with only whitespace before and after it |
| Text.StripPadded | protoband_app.py:82 | conversely, whitespace around a stripped text is exactly what `strip` removes, so the result is fixed by the input |
| Text.StripWithout | protoband_app.py:94-96 | stripping never introduces a character the input lacks |
| Text.SplitOnce | protoband_app.py:92 | `split(c, 1)` gives a left part free of `c` such that left + `c` + right is the input |
| Text.SplitOnceUnique | protoband_app.py:92 | cutting at the first `c` is the only cut whose left part has no `c` |
| Text.CaseFolding | protoband_app.py:94-107 | `upper` and `lower` agree once case is folded; `upper` leaves no lower-case letter and `lower` no upper-case one |
| Text.UpperUnique | protoband_app.py:94 | a text of the input's length that agrees with it up to case and has no lower-case letter is the input's `upper()` |
| Text.LowerUnique | protoband_app.py:107 | a text of the input's length that agrees with it up to case and has no upper-case letter is the input's `lower()` |
| Digits.DecimalValue | protoband_app.py:47 | reading back the printed numeral of `n` gives `n` |
| Digits.ValueInjective | protoband_app.py:98 | two digit strings of one length with the same `int` value are equal |
| Digits.ZeroPad3 | protoband_app.py:47 | `f"{n:03d}"` of `n < 1000` has three digits and is the only three-digit string worth `n` |
| Board.RowKey | protoband_app.py:47 | a row key is a digit string that reads back as its row, three characters long below 1000 |
| Board.RowKeyOfValue | protoband_app.py:97-100 | every row key the parser accepts is the key the renderer computes for its row |
| Board.RowKeyInjective | protoband_app.py:47 | different rows have different keys |
| Board.EmptyBoardWellFormed | protoband_app.py:74-78 | the initial board has all four rails, no entries, and is well formed |
| Format.FixWidth | protoband_app.py:22-32 | the result is exactly `width` long; an over-long text keeps its last `width` characters; a fitting text is centred between space characters, with the odd space on the right; width 0 returns the text unchanged |
| Format.Center | protoband_app.py:62-67 | the result is exactly `width` long; an over-long text keeps its first `width` characters; a fitting text is centred between space characters like `fix_width` |
| Format.CentringUnique | protoband_app.py:29-32 | there is only one left padding that centres a text in a width |
| Format.ClipEnds | protoband_app.py:25-27 | on an over-long text `fix_width` keeps the end and `center` keeps the beginning, so the last character (the `+`/`-` suffix) stays visible |
| Format.ClipExample | protoband_app.py:26 | `fix_width("1234+", 4)` is `"234+"`, while `center` gives `"1234"` |
| Format.FitAgree | protoband_app.py:28-32 | on a fitting text `fix_width` and `center` agree |
| Format.FixWidthAddsOnlySpaces | protoband_app.py:22-32 | `fix_width` shows no character except a space that its input lacks |
| Parser.TokenOf | protoband_app.py:96 | the stored token is never empty or padded: all-blank values become EMPTY, and a stripped value is kept as is |
| Parser.TokenOfPadded | protoband_app.py:96 | a value is read as its text without the surrounding whitespace, and a blank value as EMPTY |
| Parser.ParseRail | protoband_app.py:89-102 | an accepted rail line yields a known rail code, an in-range three-digit row key and a token (which line gives which entry, both ways: Parser.RailLineIff; the branch unfolded: Parser.RailFields) |
| Parser.RailFields | protoband_app.py:92-100 | an accepted rail line's code is its text before the `:` stripped and upper-cased, its row the text between `:` and `=` stripped, its token the value after the first `=` |
| Parser.ParseCell | protoband_app.py:103-116 | an accepted cell line yields an in-range three-digit row key, a column `a`..`j` and a token (which line gives which entry, both ways: Parser.CellLineIff; the branch unfolded: Parser.CellFields) |
| Parser.CellFields | protoband_app.py:106-114 | an accepted cell line's stripped coordinate is exactly its row's three digits followed by the column letter in either case, and its token is the value after the first `=` |
| Parser.ParseLine | protoband_app.py:81-117 | blank and `#` lines and lines without `=` are skipped; rail entries come only from lines with `:`, cell entries only from lines without (which lines are accepted, both ways: Parser.RailLineIff, Parser.CellLineIff) |
| Parser.ParseStripped | protoband_app.py:82 | a line is read the same as the line stripped |
| Parser.ReadLine | protoband_app.py:83-116 | a stripped line that is empty, a `#` comment or without `=` is skipped; a rail entry comes only from a line with `:`, a cell entry only from one without; what it yields is valid |
| Parser.ReadStripped | protoband_app.py:82-83 | on a line that is already stripped, the dispatch reads the same entry as the whole loop body |
| Parser.RailLineIff | protoband_app.py:81-102 | a line is read as the rail entry `(code, row, token)` if and only if the code is a known rail and the row in range, and the line is whitespace, a code text that upper-cases to `code`, whitespace, `:`, whitespace, `row`, whitespace, `=`, a value ending in a non-space (or empty) whose `TokenOf` is `token`, and whitespace |
| Parser.CellLineIff | protoband_app.py:81-116 | a line is read as the cell entry `(row, col, token)` if and only if the row is in range and the column known, and the line is whitespace, `row`, a column letter that lower-cases to `col`, whitespace, `=`, a value without `:` ending in a non-space (or empty) whose `TokenOf` is `token`, and whitespace |
| Parser.ParseLineToken | protoband_app.py:92-96 | an accepted line's token is its text after the first `=`, stripped |
| Parser.ParseConnections | protoband_app.py:73-118 | the board has all four rails, and every entry has a known rail or column, a row key in `1..rows` and a non-empty token |
| Parser.Build | protoband_app.py:74-114 | the board built from the lines read so far always has exactly the four rails |
| Parser.BuildWellFormed | protoband_app.py:100 | applying valid entries in order keeps the board well formed |
| Parser.CellLastWriteWins | protoband_app.py:114 | a cell holds the token of the last line that assigns it |
| Parser.CellUnwritten | protoband_app.py:74 | a cell that no line assigns is absent from the grid |
| Parser.RailLastWriteWins | protoband_app.py:100 | a rail row holds the token of the last line that assigns it |
| Parser.RailUnwritten | protoband_app.py:75 | a rail row that no line assigns is absent from its rail |
| Parser.SkippedLineIrrelevant | protoband_app.py:83-84 | deleting a skipped line anywhere in the file leaves the board unchanged |
| Parser.NoLinesEmptyBoard | protoband_app.py:77-78 | a missing or empty file gives the empty board |
| Parser.EntriesAppend | protoband_app.py:81 | lines are parsed independently of each other |
| Parser.RailLineAccepted | protoband_app.py:89-100 | `<code>:<row>=<token>` with any valid assignment, the code in either case, is read back as that assignment |
| Parser.CellLineAccepted | protoband_app.py:103-114 | `<row><col>=<token>` with any valid assignment, the column in either case, is read back as that assignment |
| Parser.RailLinePadded | protoband_app.py:89-100 | a rail line with whitespace around the code, the row or the whole line, and any value, assigns `TokenOf(value)` to the rail named by the upper-cased code and to the row |
| Parser.CellLinePadded | protoband_app.py:103-114 | a cell line with whitespace around its coordinate or the whole line, and any value without `:`, assigns `TokenOf(value)` to the row and lower-cased column |
| Parser.CanonicalRoundTrip | protoband_app.py:89-116 | writing a valid entry out and parsing it gives the entry back; a cell token holding `:` is the one exception |
| Parser.AcceptedLineCanonical | protoband_app.py:81-116 | any line the parser accepts reads the same as its entry's canonical spelling |
| Parser.TokenColonFree | protoband_app.py:89-103 | no cell entry's token holds `:`, because a line with `:` takes the rail branch |
| Parser.ParsedWithout | protoband_app.py:73-118 | a character that no file line holds, and that the placeholder lacks, is in no token of the board |
| Render.BoardLines | protoband_app.py:121-125 | a board of `rows` rows renders as `rows + 2` lines |
| Render.BoardLinesFrame | protoband_app.py:122-125 | the first and the last line are the header |
| Render.BoardLinesRow | protoband_app.py:123-124 | line `k` of the board is the row line of row `k` |
| Render.SpaceJoinLength | protoband_app.py:35 | fields of equal width `w` joined by spaces take `w + 1` columns each, less one |
| Render.SpaceJoinField | protoband_app.py:48 | in such a join, field `k` starts at column `k * (w + 1)` |
| Render.SpaceJoinWithout | protoband_app.py:48-49 | the join holds no non-space character that its fields lack |
| Render.FixWidthLabels | protoband_app.py:38-42 | the header's labels fit their cells exactly or get one space on each side |
| Render.RowTextFramed | protoband_app.py:56-59 | a row line is a framed line: key, two rail fields, the middle, two rail fields |
| Render.KeyedRowStartsWithKey | protoband_app.py:47-59 | a row line begins with the key of its row, whatever the tokens |
| Render.BoardLineKey | protoband_app.py:121-124 | line `k` of the board begins with the three-digit key whose number is `k`, so rows appear in ascending order under the header |
| Render.HeaderFramed | protoband_app.py:34-44 | the header is the same frame, with key `000` and the labels `rojo`/`azul` as rail fields |
| Render.FramedFields | protoband_app.py:56-59 | in a framed line the four rail fields sit at fixed offsets from the key and the middle |
| Render.KeyedRowCells | protoband_app.py:46-59 | a row line is `|key| + 102` long, and the cell of column `a+j` / `f+j` sits at offset `|key| + 23 + 5j` / `|key| + 56 + 5j` |
| Render.RowCells | protoband_app.py:46-59 | for rows below 1000 every row line is 105 long, with cell `j` of the two banks at offsets `26 + 5j` and `59 + 5j` |
| Render.HeaderLetters | protoband_app.py:34-36 | the header is 105 long with column letter `j` of the two banks at those same offsets, so letters line up with cells |
| Render.KeyedRowWithout | protoband_app.py:46-59 | a row line holds no character, other than the frame's space, bar and dash, that its key and tokens lack |
| Render.HeaderWithout | protoband_app.py:34-44 | the header holds only its digits, frame characters, labels and column letters |
| Highlight.Find | protoband_app.py:196-198 | `find(needle, from)` gives the leftmost occurrence at or after `from`, or -1 when there is none |
| Highlight.ScanGreedy | protoband_app.py:194-202 | the scan loop takes the leftmost occurrence and resumes right after it |
| Highlight.GreedyApart | protoband_app.py:194-202 | the matches of a scan are occurrences, in increasing order, that never overlap |
| Highlight.GreedyUnique | protoband_app.py:194-202 | the leftmost-first description determines the matches: only one sequence satisfies it |
| Highlight.ScanNeedle | protoband_app.py:194-231 | the `while True` loop of `refresh` returns the leftmost-first non-overlapping matches |
| Highlight.GreedyFindsAll | protoband_app.py:194-202 | for a needle that cannot overlap itself the scan finds every occurrence |
| Highlight.NeedlesOverlapFree | protoband_app.py:196-225 | none of `rojo`, `azul`, `J+`, `J-` can overlap itself |
| Highlight.ScanMarksEveryOccurrence | protoband_app.py:194-231 | every occurrence of the four needles is tagged |
| Highlight.ScanExamples | protoband_app.py:214-222 | adjacent `J+J+` gives two matches; a self-overlapping needle loses its overlapping second match |
| Highlight.NeedleSpans | protoband_app.py:194-202 | the spans of one needle's scan are occurrences of it with its tag, in increasing order, apart and inside the line |
| Highlight.NeedleSpanIff | protoband_app.py:194-231 | a span is tagged for a needle exactly when it covers an occurrence of that needle |
| Highlight.BarsSpec | protoband_app.py:236 | the bar list is increasing and holds exactly the offsets of `|` |
| Highlight.BarsAppend | protoband_app.py:236 | the bars of a concatenation are the left part's, then the right part's shifted past it |
| Highlight.ValueSpans | protoband_app.py:237-256 | with fewer than nine bars nothing is tagged; otherwise at most four red/blue spans, each non-empty, inside the line and with no bar in it |
| Highlight.BetweenBars | protoband_app.py:239-247 | a span from two past one bar to one before the next stays in the line and holds no bar |
| Highlight.FramedBars | protoband_app.py:234-235 | a framed line's bars are three before the middle, the middle's own, and three after it |
| Highlight.MiddleBars | protoband_app.py:58 | a row's middle has four bars plus those of its two banks |
| Highlight.FramedRailSpans | protoband_app.py:237-256 | on a framed line whose key and rail fields hold no bar and whose middle has at least three, the value spans are exactly the four rail fields |
| Highlight.RowLineValueSpans | protoband_app.py:237-256 | on every row line whose rail tokens have no bar, the red and blue spans cover exactly its four rail fields |
| Highlight.KeyedRowTenBars | protoband_app.py:46-59 | a row line whose key and tokens hold no bar has exactly ten bars, so it always reaches the nine the value spans need |
| Highlight.RowLineTenBars | protoband_app.py:236-237 | row `k` with bar-free tokens has ten bars, and its value spans are the four rail spans |
| Highlight.HeaderValueSpans | protoband_app.py:237-256 | on the header the value spans are exactly the four `rojo`/`azul` labels |
| Highlight.LineHighlights | protoband_app.py:194-256 | every span tagged on a line lies inside it |
| Highlight.JumperSpanIff | protoband_app.py:213-231 | a jumper span is tagged exactly on an occurrence of `J+` or `J-` |
| Highlight.ColourSpanIff | protoband_app.py:193-256 | a red or blue span is tagged exactly on a label occurrence or a value span of that colour |
| Highlight.BarPositions | protoband_app.py:236 | the comprehension's loop collects exactly the bar offsets |
| Highlight.TagValues | protoband_app.py:237-256 | the guarded `tag_add` calls produce the value spans |
| Highlight.HighlightLine | protoband_app.py:189-256 | one iteration of the line loop tags exactly the line's highlights |
| Display.SplitLines | protoband_app.py:166 | `splitlines` produces pieces that contain no line boundary |
| Display.SplitLinesJoin | protoband_app.py:166 | `splitlines` gives back boundary-free lines joined with `"\n"` when the last is not empty |
| Display.SplitLinesLosesLine | protoband_app.py:164-166 | joining lines with `"\n"` and applying `splitlines` does not give the lines back if one of them holds another boundary |
| Display.SplitLinesBreaksRow | protoband_app.py:164-166 | for the file line `001a=x\fy`, `splitlines` of the rendered board is not the board's lines |
| Display.SplitNewline | protoband_app.py:126 | splitting at `"\n"` gives at least one piece, and no piece holds a newline |
| Display.JoinSplit | protoband_app.py:126 | joining the pieces with `"\n"` gives the text back |
| Display.SplitJoin | protoband_app.py:126 | splitting lines joined with `"\n"` gives them back when none holds a newline |
| Display.SplitLinesExact | protoband_app.py:164-166 | with `splitlines` as written, the display lines are exactly the rendered lines when no token holds any line boundary |
| Display.DisplayLinesExact | protoband_app.py:164-166 | with the corrected split at `"\n"`, the display lines are exactly the rendered lines when no token holds a newline |
| Display.FormFeedRowKept | protoband_app.py:166 | with the corrected split, the form-feed file keeps row 1 on one display line |
| Display.ViewRow | protoband_app.py:163-256 | in the corrected view (split at `"\n"`), for a file whose lines hold no newline and whose tokens for row `k`'s rail fields hold no `|`: `rows + 2` lines, display line `k` is row `k`, and its four rail fields are coloured |
| Display.ViewsAgree | protoband_app.py:163-256 | the view as written (with `splitlines`) and the corrected view are equal for every file whose lines hold no line boundary |
| Display.ViewRowAsWritten | protoband_app.py:163-256 | in the view as written, for a file whose lines hold no line boundary and whose tokens for row `k`'s rail fields hold no `|`: `rows + 2` lines, display line `k` is row `k`, and its four rail fields are coloured |

Definitions with no contract of their own, each carried by the rows above:
`Render.HeaderLine` by Render.HeaderFramed, Render.HeaderLetters and Render.HeaderWithout;
`Render.RowLine` and `Render.KeyedRow` by Render.RowTextFramed, Render.KeyedRowCells and Render.KeyedRowStartsWithKey;
`Render.RenderBoard` by Display.JoinSplit, Display.SplitJoin and Display.SplitLinesExact;
`Parser.Apply` by Parser.CellLastWriteWins and Parser.RailLastWriteWins;
`Board.CellAt` and `Board.RailAt` (`.get(key, EMPTY)`) by Parser.CellUnwritten, Parser.RailUnwritten and Render.KeyedRowCells;
`Display.DisplayLines` by Display.DisplayLinesExact, and `Display.View` and `Display.ViewAsWritten` by Display.ViewRow, Display.ViewsAgree and Display.ViewRowAsWritten.

## Left out

- The Tk window is not modelled: fonts, geometry, `insert`, `tag_configure` and the `"line.col"` index strings. Spans stand for `tag_add` calls.
- Polling and `mtime` (`schedule_watch`, `last_mtime`, `force`) are not modelled: clocks and the file system are outside the model. The window-size computation is left out too, since it only measures the lines.
- File I/O is not modelled. The file enters as its lines, because Python's text mode already ends lines at `\n`, `\r` and `\r\n`. `os.path.exists` is not modelled either: a missing file is the empty sequence.
- `main` and its argument handling (`sys.argv`, `int(argv[2])`, `DEFAULT_ROWS`) are outside the core.
- Character classes follow ASCII for `isdigit`, `upper` and `lower`. Python also accepts other Unicode digits and letters. `strip` uses Python's full whitespace set.
- Apply: the rail `KeyError` guard is written out but is never taken, because the parser yields only known rail codes.
- The code tags a value span whenever its start is before its end, without trimming the field's spaces. The model follows the code.
- Highlight.ScanNeedle: requires a non-empty needle. The model steps past a match by `|needle|`, which makes no progress for an empty needle. The source steps by the constants 4 and 2, which equal the lengths of the four non-empty needles it scans, and it scans no other needle.
- Highlight.RowLineValueSpans: requires that the row's rail tokens hold no `|`. A token with a bar shifts the separators, and the value spans then land elsewhere.
- Render.RowCells: states the 105-column layout only for rows below 1000. Larger row numbers give longer keys; Render.KeyedRowCells covers any key length.
- Display.ViewRow: describes the corrected view, which splits at `"\n"`; it requires that no file line holds `\n`, which Python's file reading already guarantees. It also requires that row `k`'s four rail tokens hold no `|` (`Highlight.RailsPlain`). A `|` inside a rail token adds a separator to the row, so the coloured spans no longer line up with the four rail fields; this case is not described.
- Display.ViewRowAsWritten: describes the view as written only for files whose lines hold no line boundary, and only for a row whose four rail tokens hold no `|` (`Highlight.RailsPlain`), as for Display.ViewRow. A file line may hold `\v`, `\f`, `\x1c`-`\x1e`, `\x85`, `\u2028` or `\u2029`, and then the as-written view can have more than `rows + 2` lines; Display.SplitLinesBreaksRow shows one such file.
- Parser.ParseRail: its own contract states only that an accepted line yields a valid rail entry. Which line gives which rail entry is stated, in both directions, by Parser.RailLineIff. Parser.RailFields is the same branch unfolded: the code, row and token as the stripped pieces of the line.
- Parser.ParseCell: its own contract states only that an accepted line yields a valid cell entry. Which line gives which cell entry is stated, in both directions, by Parser.CellLineIff. Parser.CellFields is the same branch unfolded: the stripped coordinate as the row's digits and the column.
- Parser.ParseLine: its own contract states which lines are skipped and that what it yields is valid. That the accepted lines are exactly the padded rail and cell lines is stated by Parser.RailLineIff and Parser.CellLineIff.
- Parser.ReadLine: its own contract states which stripped lines are skipped, which branch an entry comes from and that the entry is valid, but not which entry is read. That is stated by Parser.ReadStripped (on a stripped line ReadLine reads what ParseLine reads) together with Parser.RailLineIff and Parser.CellLineIff.
- Format.FixWidth: takes a non-negative width. Every caller in the source passes a positive constant.

## Findings

| source | as written | input that shows it | evidently intended | confidence | as-written member | corrected member |
|---|---|---|---|---|---|---|
| protoband_app.py:166 | `board_str.splitlines()` also ends lines at `\v`, `\f`, `\x1c`-`\x1e`, `\x85`, `\u2028` and `\u2029`, which a token may hold inside it | a connections file with the line `001a=x\fy` (a form feed between `x` and `y`): row 1 is shown as two display lines, and every later line moves down by one | split the rendered text only at the `"\n"` it was joined with, so that each rendered line is one display line | not executed | Display.SplitLinesBreaksRow | Display.DisplayLinesExact |
