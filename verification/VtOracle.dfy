/**
  The oracle as the object it is: a flat cell vector, a cursor, rendition flags and parser registers, updated in
  place byte by byte. Every method is proved against the value-level functions of VtScreen and VtParser.
  A method's `ok` is false when the original throws; nothing is said about the object after that.
 */
module VtOracle {
  import opened Basics
  import opened VtScreen
  import opened VtParser
  import S = VtScreen
  import P = VtParser
  import opened Grid
  import U = Utf8

  // ---------- Erasing in the flat vector ----------

  /** Fixing the edges of a stretch and then filling it erases it. */
  lemma {:induction false} EraseByParts(row: Row, begin: nat, end: nat, blank: Cell)
    requires begin < end <= |row|
    ensures var left := if begin > 0 && row[begin].continuation then row[begin - 1 := blank] else row;
      var both := if end < |row| && row[end].continuation then left[end := blank] else left;
      both[..begin] + Fill(end - begin, blank) + both[end..] == EraseCells(row, begin, end, blank)
  {
    hide RowOk;
    var left := if begin > 0 && row[begin].continuation then row[begin - 1 := blank] else row;
    var both := if end < |row| && row[end].continuation then left[end := blank] else left;
    assert both[..begin] == KeptLeft(row, begin, blank);
    assert both[end..] == KeptRight(row, end, blank);
  }

  lemma {:induction false} FillSum(m: nat, n: nat, c: Cell)
    ensures Fill(m + n, c) == Fill(m, c) + Fill(n, c)
  {
  }

  lemma {:induction false} KeptLeftInside(a: Row, row: Row, b: Row, begin: nat, blank: Cell)
    requires begin < |row| && !row[0].continuation
    ensures KeptLeft(a + row + b, |a| + begin, blank) == a + KeptLeft(row, begin, blank)
  {
    assert (a + row + b)[|a| + begin] == row[begin];
  }

  lemma {:induction false} KeptRightInside(a: Row, row: Row, b: Row, end: nat, blank: Cell)
    requires end <= |row| && (b != [] ==> !b[0].continuation)
    ensures KeptRight(a + row + b, |a| + end, blank) == KeptRight(row, end, blank) + b
  {
    var flat := a + row + b;
    if |a| + end < |flat| {
      assert flat[|a| + end] == if end < |row| then row[end] else b[0];
    }
  }

  lemma {:induction false} EraseInside(a: Row, row: Row, b: Row, begin: nat, end: nat, blank: Cell)
    requires begin < end <= |row| && !row[0].continuation && (b != [] ==> !b[0].continuation)
    ensures EraseCells(a + row + b, |a| + begin, |a| + end, blank) == a + EraseCells(row, begin, end, blank) + b
  {
    hide RowOk;
    KeptLeftInside(a, row, b, begin, blank);
    KeptRightInside(a, row, b, end, blank);
  }

  lemma {:induction false} EraseThroughEnd(a: Row, row: Row, b: Row, begin: nat, blank: Cell)
    requires begin < |row| && !row[0].continuation
    ensures EraseCells(a + row + b, |a| + begin, |a + row + b|, blank)
         == a + EraseCells(row, begin, |row|, blank) + Fill(|b|, blank)
  {
    hide RowOk, Fill;
    KeptLeftInside(a, row, b, begin, blank);
    FillSum(|row| - begin, |b|, blank);
  }

  lemma {:induction false} EraseFromStart(a: Row, row: Row, b: Row, end: nat, blank: Cell)
    requires 0 < end <= |row| && (b != [] ==> !b[0].continuation)
    ensures EraseCells(a + row + b, 0, |a| + end, blank) == Fill(|a|, blank) + EraseCells(row, 0, end, blank) + b
  {
    hide RowOk, Fill;
    KeptRightInside(a, row, b, end, blank);
    assert KeptLeft(a + row + b, 0, blank) == KeptLeft(row, 0, blank) == [];
    FillSum(|a|, end, blank);
  }

  lemma {:induction false} FlattenBlank(n: nat, width: nat, blank: Cell)
    ensures Flatten(seq(n, _ => Fill(width, blank))) == Fill(n * width, blank)
  {
    var rows := seq(n, _ => Fill(width, blank));
    if n > 0 {
      FlattenBlank(n - 1, width, blank);
      assert rows[1..] == seq(n - 1, _ => Fill(width, blank));
      assert n * width == width + (n - 1) * width;
    }
  }

  lemma {:induction false} RowsSplit(s: Screen)
    requires ScreenOk(s)
    ensures Rectangular(s.rows, s.width)
    ensures Flatten(s.rows) == Flatten(s.rows[..s.y]) + s.rows[s.y] + Flatten(s.rows[s.y + 1..])
    ensures |Flatten(s.rows[..s.y])| == s.y * s.width
    ensures |Flatten(s.rows)| == s.height * s.width
    ensures |s.rows[s.y]| == s.width && !s.rows[s.y][0].continuation
    ensures var below := Flatten(s.rows[s.y + 1..]); below != [] ==> !below[0].continuation
  {
    FlattenRow(s.rows, s.width, s.y);
    if s.y + 1 < s.height {
      assert s.rows[s.y + 1..][0] == s.rows[s.y + 1];
    }
  }

  /** The row-major index of a cell. */
  function FlatIndex(y: nat, width: nat, x: nat): nat {
    y * width + x
  }

  lemma {:induction false} EraseOnLine(s: Screen, begin: nat, end: nat, blank: Cell)
    requires ScreenOk(s) && begin < end <= s.width
    ensures FlatIndex(s.y, s.width, begin) < FlatIndex(s.y, s.width, end) <= |Flatten(s.rows)|
    ensures FlatIndex(s.y, s.width, end) == FlatIndex(s.y, s.width, begin) + (end - begin)
    ensures EraseCells(Flatten(s.rows), FlatIndex(s.y, s.width, begin), FlatIndex(s.y, s.width, end), blank)
         == Flatten(s.rows[s.y := EraseCells(s.rows[s.y], begin, end, blank)])
  {
    hide EraseCells, Flatten, RowOk;
    RowsSplit(s);
    var row, above, below := s.rows[s.y], Flatten(s.rows[..s.y]), Flatten(s.rows[s.y + 1..]);
    EraseInside(above, row, below, begin, end, blank);
    UpdateStretch(s.rows, s.y, EraseCells(row, begin, end, blank));
  }

  /** The cursor's place in the flat vector. */
  ghost function Offset(s: Screen): (n: nat)
    requires ScreenOk(s)
    ensures n < |Flatten(s.rows)|
  {
    FlattenAt(s.rows, s.width, s.y, s.x);
    FlatIndex(s.y, s.width, s.x)
  }

  lemma {:induction false} EraseBelow(s: Screen)
    requires ScreenOk(s)
    ensures var cursor, flat := Offset(s), Flatten(s.rows);
      EraseCells(flat, cursor, |flat|, Blank(s.pen)) == Flatten(EraseInDisplay(s, 0).rows)
  {
    hide EraseCells, Flatten, RowOk, Fill;
    RowsSplit(s);
    var blank, n := Blank(s.pen), s.height - s.y - 1;
    var row, above, below := s.rows[s.y], Flatten(s.rows[..s.y]), Flatten(s.rows[s.y + 1..]);
    var blanks := seq(n, _ => Fill(s.width, blank));
    EraseThroughEnd(above, row, below, s.x, blank);
    FlattenLength(s.rows[s.y + 1..], s.width);
    FlattenBlank(n, s.width, blank);
    ThreeParts(s.rows[..s.y], EraseCells(row, s.x, s.width, blank), blanks);
    assert EraseInDisplay(s, 0).rows == s.rows[..s.y] + [EraseCells(row, s.x, s.width, blank)] + blanks;
  }

  lemma {:induction false} EraseAbove(s: Screen)
    requires ScreenOk(s)
    ensures var cursor, flat := Offset(s), Flatten(s.rows);
      EraseCells(flat, 0, cursor + 1, Blank(s.pen)) == Flatten(EraseInDisplay(s, 1).rows)
  {
    hide EraseCells, Flatten, RowOk;
    RowsSplit(s);
    var blank := Blank(s.pen);
    var row, above, below := s.rows[s.y], Flatten(s.rows[..s.y]), Flatten(s.rows[s.y + 1..]);
    var blanks := seq(s.y, _ => Fill(s.width, blank));
    EraseFromStart(above, row, below, s.x + 1, blank);
    FlattenBlank(s.y, s.width, blank);
    ThreeParts(blanks, EraseCells(row, 0, s.x + 1, blank), s.rows[s.y + 1..]);
    assert EraseInDisplay(s, 1).rows == blanks + [EraseCells(row, 0, s.x + 1, blank)] + s.rows[s.y + 1..];
  }

  lemma {:induction false} EraseAll(s: Screen)
    requires ScreenOk(s)
    ensures var flat := Flatten(s.rows);
      0 < |flat| && EraseCells(flat, 0, |flat|, Blank(s.pen)) == Flatten(EraseInDisplay(s, 2).rows)
  {
    RowsSplit(s);
    FlattenBlank(s.height, s.width, Blank(s.pen));
    assert EraseInDisplay(s, 2).rows == seq(s.height, _ => Fill(s.width, Blank(s.pen)));
  }

  lemma {:induction false} ThreeParts(a: seq<Row>, row: Row, b: seq<Row>)
    ensures Flatten(a + [row] + b) == Flatten(a) + row + Flatten(b)
  {
    FlattenConcat(a + [row], b);
    FlattenConcat(a, [row]);
    assert Flatten([row]) == row + Flatten<Cell>([]) == row;
  }

  lemma {:induction false} SetInside(a: Row, row: Row, b: Row, x: nat, c: Cell)
    requires x < |row|
    ensures (a + row + b)[|a| + x := c] == a + row[x := c] + b
  {
  }

  lemma {:induction false} FlattenSet(rows: seq<Row>, width: nat, y: nat, x: nat, c: Cell)
    requires Rectangular(rows, width) && y < |rows| && x < width
    ensures FlatIndex(y, width, x) < |Flatten(rows)|
    ensures Flatten(rows[y := rows[y][x := c]]) == Flatten(rows)[FlatIndex(y, width, x) := c]
  {
    hide Flatten, RowOk;
    FlattenRow(rows, width, y);
    FlattenRow(rows[y := rows[y][x := c]], width, y);
    assert rows[y := rows[y][x := c]][..y] == rows[..y] && rows[y := rows[y][x := c]][y + 1..] == rows[y + 1..];
    SetInside(Flatten(rows[..y]), rows[y], Flatten(rows[y + 1..]), x, c);
  }

  /** Where the cell a combining mark joins lies in the flat vector; -1 if there is none. */
  ghost function MarkIndex(s: Screen): int
    requires ScreenOk(s)
  {
    var target := MarkTarget(s);
    if target.None? then -1 else FlatIndex(target.value.1, s.width, target.value.0)
  }

  lemma {:induction false} RowsAreRectangular(s: Screen)
    requires ScreenOk(s)
    ensures Rectangular(s.rows, s.width)
    ensures 1 <= s.width <= MAX_COLUMNS && 1 <= s.height <= MAX_ROWS && |s.rows| == s.height
    ensures s.x < s.width && s.y < s.height && (s.wrap ==> s.x == s.width - 1)
  {
  }

  lemma {:induction false} PreviousRow(width: nat, y: nat)
    requires y > 0
    ensures y * width == (y - 1) * width + width
  {
  }

  lemma {:induction false} MarkStart(s: Screen)
    requires ScreenOk(s)
    ensures var start, cells := FlatIndex(s.y, s.width, s.x) - (if s.wrap then 0 else 1), Flatten(s.rows);
      && -1 <= start < |cells|
      && (start < 0 <==> MarkTarget(s).None?)
      && (start >= 0 ==> MarkIndex(s) == start - if cells[start].continuation then 1 else 0)
  {
    hide Flatten, RowOk;
    RowsAreRectangular(s);
    if s.y > 0 {
      PreviousRow(s.width, s.y);
    }
    if s.wrap || s.x > 0 {
      FlattenAt(s.rows, s.width, s.y, if s.wrap then s.x else s.x - 1);
    } else if s.y > 0 {
      FlattenAt(s.rows, s.width, s.y - 1, s.width - 1);
    }
  }

  lemma {:induction false} MarkEnd(s: Screen)
    requires ScreenOk(s) && MarkTarget(s).Some?
    ensures 0 <= MarkIndex(s) < |Flatten(s.rows)| && !Flatten(s.rows)[MarkIndex(s)].continuation
    ensures Flatten(s.rows)[MarkIndex(s)] == s.rows[MarkTarget(s).value.1][MarkTarget(s).value.0]
  {
    hide Flatten, RowOk;
    RowsAreRectangular(s);
    FlattenAt(s.rows, s.width, MarkTarget(s).value.1, MarkTarget(s).value.0);
  }

  lemma {:induction false} BlankRowWidth(width: nat, blank: Cell)
    ensures |Fill(width, blank)| == width
  {
  }

  lemma {:induction false} ScrollUp(rows: seq<Row>, width: nat, row: Row)
    requires Rectangular(rows, width) && rows != [] && |row| == width
    ensures width <= |Flatten(rows)|
    ensures Flatten(rows[1..] + [row]) == Flatten(rows)[width..] + row
  {
    FlattenConcat(rows[1..], [row]);
    assert Flatten([row]) == row + Flatten<Cell>([]) == row;
  }

  /** Overwriting part of an erased row, cell by cell in the flat vector. */
  lemma {:induction false} OverwriteInRow(rows: seq<Row>, width: nat, y: nat, x: nat, erased: Row, glyph: Row)
    requires Rectangular(rows, width) && y < |rows| && |erased| == width
    requires 1 <= |glyph| <= 2 && x + |glyph| <= width
    ensures var flat := Flatten(rows[y := erased]); var index := FlatIndex(y, width, x);
      && index + |glyph| <= |flat|
      && Flatten(rows[y := erased[..x] + glyph + erased[x + |glyph|..]])
         == if |glyph| == 2 then flat[index := glyph[0]][index + 1 := glyph[1]] else flat[index := glyph[0]]
  {
    var row := erased[..x] + glyph + erased[x + |glyph|..];
    var first := erased[x := glyph[0]];
    FlattenSet(rows[y := erased], width, y, x, glyph[0]);
    assert rows[y := erased][y := first] == rows[y := first];
    if |glyph| == 2 {
      FlattenSet(rows[y := first], width, y, x + 1, glyph[1]);
      assert rows[y := first][y := row] == rows[y := row];
      assert first[x + 1 := glyph[1]] == row;
    } else {
      assert first == row;
    }
  }

  /** Erasing and overwriting in the flat vector writes the glyph into the grid. */
  lemma {:induction false} FlatGlyph(s: Screen, ch: nat)
    requires ScreenOk(s) && s.x + GlyphWidth(ch) <= s.width
    ensures var index, n, glyph := FlatIndex(s.y, s.width, s.x), GlyphWidth(ch), Glyph(ch, Attributes(s.pen));
      && index + n <= |Flatten(s.rows)|
      && var erased := EraseCells(Flatten(s.rows), index, index + n, Blank(s.pen));
         Flatten(PutHere(s, ch).rows)
         == if n == 2 then erased[index := glyph[0]][index + 1 := glyph[1]] else erased[index := glyph[0]]
  {
    hide Flatten, EraseCells;
    RowsAreRectangular(s);
    var n := GlyphWidth(ch);
    EraseOnLine(s, s.x, s.x + n, Blank(s.pen));
    OverwriteInRow(s.rows, s.width, s.y, s.x, EraseCells(s.rows[s.y], s.x, s.x + n, Blank(s.pen)),
                   Glyph(ch, Attributes(s.pen)));
  }

  /** The three erasures of the display in the flat vector. */
  lemma {:induction false} EraseDisplay(s: Screen, mode: nat)
    requires ScreenOk(s) && mode <= 2
    ensures var cursor, flat := Offset(s), Flatten(s.rows);
      EraseCells(flat, if mode == 0 then cursor else 0, if mode == 1 then cursor + 1 else |flat|, Blank(s.pen))
      == Flatten(EraseInDisplay(s, mode).rows)
  {
    hide EraseCells, Flatten, EraseInDisplay;
    match mode {
      case 0 => EraseBelow(s);
      case 1 => EraseAbove(s);
      case 2 => EraseAll(s);
    }
  }

  /** A grid into which the cells of `s` before (x, y) in reading order have been copied. */
  ghost predicate Copied(grid: seq<Row>, s: Screen, columns: nat, rows: nat, y: nat, x: nat) {
    && |grid| == rows && Rectangular(grid, columns)
    && |s.rows| == s.height && Rectangular(s.rows, s.width)
    && forall r, c :: 0 <= r < rows && 0 <= c < columns ==>
         grid[r][c] ==
         if (r < y || (r == y && c < x)) && r < s.height && c < s.width then s.rows[r][c] else DEFAULT_CELL
  }

  lemma {:induction false} CopyCell(grid: seq<Row>, s: Screen, columns: nat, rows: nat, y: nat, x: nat)
    requires Copied(grid, s, columns, rows, y, x)
    requires y < rows && y < s.height && x < columns && x < s.width
    ensures FlatIndex(y, s.width, x) < |Flatten(s.rows)| && FlatIndex(y, columns, x) < |Flatten(grid)|
    ensures var next := grid[y := grid[y][x := s.rows[y][x]]];
      && Copied(next, s, columns, rows, y, x + 1)
      && Flatten(next) == Flatten(grid)[FlatIndex(y, columns, x) := Flatten(s.rows)[FlatIndex(y, s.width, x)]]
  {
    hide Flatten;
    FlattenAt(s.rows, s.width, y, x);
    FlattenSet(grid, columns, y, x, s.rows[y][x]);
  }

  lemma {:induction false} NothingCopied(s: Screen, columns: nat, rows: nat)
    requires ScreenOk(s)
    ensures Copied(seq(rows, _ => Fill(columns, DEFAULT_CELL)), s, columns, rows, 0, 0)
    ensures Flatten(seq(rows, _ => Fill(columns, DEFAULT_CELL))) == Fill(columns * rows, DEFAULT_CELL)
  {
    FlattenBlank(rows, columns, DEFAULT_CELL);
  }

  lemma {:induction false} RowCopied(grid: seq<Row>, s: Screen, columns: nat, rows: nat, y: nat, x: nat)
    requires Copied(grid, s, columns, rows, y, x) && (x >= columns || x >= s.width)
    ensures Copied(grid, s, columns, rows, y + 1, 0)
  {
  }

  lemma {:induction false} CopiedAll(grid: seq<Row>, s: Screen, columns: nat, rows: nat, y: nat)
    requires ScreenOk(s) && GeometryOk(columns, rows) && Copied(grid, s, columns, rows, y, 0)
    requires y >= rows || y >= s.height
    ensures grid == ResizedRows(s, columns, rows)
  {
    var after := ResizedRows(s, columns, rows);
    forall r | 0 <= r < rows
      ensures grid[r] == after[r]
    {
      assert |after[r]| == columns;
    }
  }

  /** Copy the top-left part of a screen's cells into a fresh vector of another shape. */
  method CopyCells(cells: Row, width: nat, height: nat, columns: nat, rows: nat, ghost s: Screen)
    returns (next: Row, ghost grid: seq<Row>)
    requires ScreenOk(s) && cells == Flatten(s.rows) && width == s.width && height == s.height
    requires GeometryOk(columns, rows)
    ensures grid == ResizedRows(s, columns, rows) && next == Flatten(ResizedRows(s, columns, rows))
  {
    hide Flatten, RowOk, FlatIndex, ResizedRows;
    grid := seq(rows, _ => Fill(columns, DEFAULT_CELL));
    next := Fill(columns * rows, DEFAULT_CELL);
    NothingCopied(s, columns, rows);
    for y := 0 to Min(rows, height)
      invariant Copied(grid, s, columns, rows, y, 0) && next == Flatten(grid)
    {
      for x := 0 to Min(columns, width)
        invariant Copied(grid, s, columns, rows, y, x) && next == Flatten(grid)
      {
        CopyCell(grid, s, columns, rows, y, x);
        next := next[FlatIndex(y, columns, x) := cells[FlatIndex(y, width, x)]];
        grid := grid[y := grid[y][x := s.rows[y][x]]];
      }
      RowCopied(grid, s, columns, rows, y, Min(columns, width));
    }
    CopiedAll(grid, s, columns, rows, Min(rows, height));
  }

  // ---------- The object ----------

  datatype Mode = InText | InEscape | InCsi | InOsc | InOscEscape

  lemma {:induction false} ControlIgnoresWrap(s: Screen, final: Byte, p: seq<nat>)
    requires ScreenOk(s) && |p| >= 1
    ensures Control(s.(wrap := false), final, p) == Control(s, final, p)
  {
    hide S.EraseInLine, S.EraseInDisplay;
  }

  class VtState {
    var mode: Mode
    var width: nat
    var height: nat
    var x: nat
    var y: nat
    var pen: Pen
    var visible: bool
    var wrap: bool
    var cells: Row
    var replies: seq<Bytes>
    var sequence: Bytes
    var scalar: nat
    var minimum: nat
    var remaining: nat

    /** The grid the flat vector holds, and the rows that have left it. */
    ghost var rows: seq<Row>
    ghost var history: seq<Row>

    ghost function Shot(): Screen
      reads this
    {
      Screen(width, height, history, rows, x, y, pen, visible, wrap)
    }

    ghost function Registers(): Parser
      reads this
    {
      match mode
      case InText => if remaining == 0 then Text else Utf8(scalar, minimum, remaining)
      case InEscape => Escape
      case InCsi => Csi(sequence)
      case InOsc => Osc(sequence)
      case InOscEscape => OscEscape(sequence)
    }

    /** The value this object stands for. */
    ghost function Value(): Vt
      reads this
    {
      Vt(Shot(), Registers(), replies)
    }

    ghost predicate Valid()
      reads this
    {
      && VtOk(Value())
      && cells == Flatten(rows)
      && (remaining != 0 ==> mode == InText && remaining <= 3)
    }

    constructor (columns: int, rows: int)
      requires GeometryOk(columns, rows)
      ensures Valid() && Value() == Start(columns, rows)
    {
      mode, width, height, x, y := InText, columns, rows, 0, 0;
      pen, visible, wrap := DEFAULT_PEN, true, false;
      cells := Fill(columns * rows, DEFAULT_CELL);
      replies, sequence, scalar, minimum, remaining := [], [], 0, 0, 0;
      this.rows := seq(rows, _ => Fill(columns, DEFAULT_CELL));
      history := [];
      new;
      FlattenBlank(rows, columns, DEFAULT_CELL);
    }

    method BlankCell() returns (c: Cell)
      ensures c == Blank(pen)
    {
      var fore := if pen.bold && pen.fore < 8 then pen.fore + 8 else pen.fore;
      var back := pen.back;
      if pen.inverse {
        fore, back := back, fore;
      }
      if pen.conceal {
        fore := back;
      }
      c := Cell([0x20], SwapRedBlue(fore) + SwapRedBlue(back) * 16 + (if pen.underline then 0x8000 else 0), false);
    }

    /** Blank a stretch of the flat vector. */
    method EraseRange(begin: nat, end: nat)
      requires begin < end <= |cells|
      modifies this`cells
      ensures cells == EraseCells(old(cells), begin, end, Blank(pen))
    {
      var blank := BlankCell();
      var cutLeft := begin > 0 && cells[begin].continuation;
      var cutRight := end < |cells| && cells[end].continuation;
      if cutLeft {
        cells := cells[begin - 1 := blank];
      }
      if cutRight {
        cells := cells[end := blank];
      }
      cells := cells[..begin] + Fill(end - begin, blank) + cells[end..];
      EraseByParts(old(cells), begin, end, blank);
    }

    method LineFeed()
      requires Valid()
      modifies this`wrap, this`y, this`cells, this`rows, this`history
      ensures Valid() && Shot() == S.LineFeed(old(Shot()))
    {
      hide Flatten, RowOk, Fill, SwapRedBlue, ScreenOk;
      RowsAreRectangular(Shot());
      ghost var after := S.LineFeed(Shot());
      wrap := false;
      if y + 1 < height {
        y := y + 1;
      } else {
        var blank := BlankCell();
        var row := Fill(width, blank);
        BlankRowWidth(width, blank);
        ScrollUp(rows, width, row);
        cells := cells[width..] + row;
        history := history + [rows[0]];
        rows := rows[1..] + [row];
      }
    }

    /** Append a combining mark to the glyph before the cursor. */
    method AppendMark(ch: nat) returns (ok: bool)
      requires Valid() && mode == InText && remaining == 0
      modifies this`cells, this`rows
      ensures ok <==> AddMark(old(Shot()), ch).Some?
      ensures ok ==> Valid() && Shot() == AddMark(old(Shot()), ch).value
    {
      hide Flatten, RowOk, FlatIndex;
      RowsAreRectangular(Shot());
      var index: int := FlatIndex(y, width, x) - (if wrap then 0 else 1);
      ghost var goal := MarkIndex(Shot());
      MarkStart(Shot());
      if MarkTarget(Shot()).Some? {
        MarkEnd(Shot());
      }
      while index >= 0 && cells[index].continuation
        invariant -1 <= index < |cells|
        invariant index < 0 <==> goal < 0
        invariant index >= 0 ==> index == goal + if cells[index].continuation then 1 else 0
      {
        index := index - 1;
      }
      if index < 0 {
        return false;
      }
      var cell := cells[index].(text := cells[index].text + [ch]);
      ghost var (column, line) := MarkTarget(Shot()).value;
      FlattenSet(rows, width, line, column, cell);
      cells := cells[index := cell];
      rows := rows[line := rows[line][column := cell]];
      ok := true;
    }

    /** Write a glyph, wrapping first if it does not fit. */
    method Put(ch: nat) returns (ok: bool)
      requires Valid() && mode == InText && remaining == 0
      modifies this`cells, this`rows, this`x, this`y, this`wrap, this`history
      ensures ok <==> PutText(old(Value()), ch).Some?
      ensures ok ==> Valid() && Value() == PutText(old(Value()), ch).value
    {
      hide Flatten, RowOk, AddMark, PutHere, S.LineFeed;
      if 0x300 <= ch <= 0x36f {
        ok := AppendMark(ch);
        return;
      }
      var n := if 0x4e00 <= ch <= 0x9fff || ch == 0x1f642 then 2 else 1;
      if wrap || x + n > width {
        x, wrap := 0, false;
        LineFeed();
      }
      if n > width {
        return false;
      }
      WriteAtCursor(ch, n);
      ok := true;
    }

    method WriteAtCursor(ch: nat, n: nat)
      requires Valid() && n == GlyphWidth(ch) && x + n <= width
      modifies this`cells, this`rows, this`x, this`wrap
      ensures Valid() && Shot() == PutHere(old(Shot()), ch)
    {
      hide Flatten, RowOk, EraseCells, WriteGlyph, Fill, SwapRedBlue, FlatIndex, ScreenOk;
      ghost var after := PutHere(Shot(), ch);
      StoreGlyph(ch, n);
      rows := after.rows;
      x := x + n;
      wrap := x == width;
      if wrap {
        x := width - 1;
      }
      assert Shot() == after;
    }

    method StoreGlyph(ch: nat, n: nat)
      requires Valid() && n == GlyphWidth(ch) && x + n <= width
      modifies this`cells
      ensures cells == Flatten(PutHere(Shot(), ch).rows)
    {
      hide Flatten, RowOk, EraseCells, Fill, SwapRedBlue, FlatIndex, ScreenOk, PutHere;
      RowsAreRectangular(Shot());
      FlatGlyph(Shot(), ch);
      var index := FlatIndex(y, width, x);
      var blank := BlankCell();
      EraseRange(index, index + n);
      cells := cells[index := Cell([ch], blank.attributes, false)];
      if n == 2 {
        cells := cells[index + 1 := Cell([], blank.attributes, true)];
      }
    }

    /** The numbers of the current control sequence. */
    method ReadParameters() returns (ok: bool, private: bool, params: seq<nat>)
      ensures private == IsPrivate(sequence)
      ensures ok == Parameters(sequence).Some?
      ensures ok ==> params == Parameters(sequence).value
    {
      private := sequence != [] && sequence[0] == '?' as int;
      params := [];
      ghost var text := if private then sequence[1..] else sequence;
      var number: nat, i := 0, if private then 1 else 0;
      assert text == sequence[i..];
      while i < |sequence|
        invariant i <= |sequence| && |params| <= MAX_PARAMETERS
        invariant Parameters(sequence) == ParametersFrom(sequence[i..], number, params)
      {
        var c := sequence[i];
        assert sequence[i..][0] == c && sequence[i..][1..] == sequence[i + 1..];
        if c == ';' as int {
          params := params + [number];
          number := 0;
        } else if '0' as int <= c <= '9' as int {
          if number > 1000 {
            return false, private, [];
          }
          number := number * 10 + (c - '0' as int);
        } else {
          return false, private, [];
        }
        if |params| > MAX_PARAMETERS {
          return false, private, [];
        }
        i := i + 1;
      }
      params := params + [number];
      ok := true;
    }

    method SelectRendition(params: seq<nat>) returns (ok: bool)
      modifies this`pen
      ensures ok == Sgr(old(pen), params).Some?
      ensures ok ==> pen == Sgr(old(pen), params).value
    {
      var i := 0;
      while i < |params|
        invariant i <= |params|
        invariant Sgr(old(pen), params) == Sgr(pen, params[i..])
      {
        var value := params[i];
        assert params[i..][0] == value && params[i..][1..] == params[i + 1..];
        if value == 0 {
          pen := DEFAULT_PEN;
        } else if value == 1 {
          pen := pen.(bold := true);
        } else if value == 22 {
          pen := pen.(bold := false);
        } else if value == 4 {
          pen := pen.(underline := true);
        } else if value == 24 {
          pen := pen.(underline := false);
        } else if value == 7 {
          pen := pen.(inverse := true);
        } else if value == 27 {
          pen := pen.(inverse := false);
        } else if value == 8 {
          pen := pen.(conceal := true);
        } else if value == 28 {
          pen := pen.(conceal := false);
        } else if value == 39 {
          pen := pen.(fore := 7);
        } else if value == 49 {
          pen := pen.(back := 0);
        } else if 30 <= value <= 37 {
          pen := pen.(fore := value - 30);
        } else if 40 <= value <= 47 {
          pen := pen.(back := value - 40);
        } else if 90 <= value <= 97 {
          pen := pen.(fore := value - 90 + 8);
        } else if 100 <= value <= 107 {
          pen := pen.(back := value - 100 + 8);
        } else {
          return false;
        }
        i := i + 1;
      }
      ok := true;
    }

    method EraseLine(mode: nat)
      requires Valid() && mode <= 2
      modifies this`cells, this`rows
      ensures Valid() && Shot() == S.EraseInLine(old(Shot()), mode)
    {
      hide Flatten, RowOk, EraseCells, Fill, SwapRedBlue, FlatIndex;
      ghost var after := S.EraseInLine(Shot(), mode);
      var begin := if mode == 0 then x else 0;
      var end := if mode == 1 then x + 1 else width;
      EraseOnLine(Shot(), begin, end, Blank(pen));
      EraseRange(FlatIndex(y, width, begin), FlatIndex(y, width, end));
      rows := after.rows;
    }

    method EraseScreen(mode: nat)
      requires Valid() && mode <= 2
      modifies this`cells, this`rows
      ensures Valid() && Shot() == S.EraseInDisplay(old(Shot()), mode)
    {
      hide Flatten, RowOk, EraseCells, Fill, SwapRedBlue, FlatIndex;
      ghost var after := S.EraseInDisplay(Shot(), mode);
      EraseDisplay(Shot(), mode);
      ghost var offset := Offset(Shot());
      var cursor := FlatIndex(y, width, x);
      assert cursor == offset by {
        assert offset == FlatIndex(y, width, x);
      }
      EraseRange(if mode == 0 then cursor else 0, if mode == 1 then cursor + 1 else |cells|);
      rows := after.rows;
    }

    /** A control sequence other than SGR, DSR and the private modes. */
    method ControlFunction(final: Byte, p: seq<nat>) returns (ok: bool)
      requires Valid() && |p| >= 1
      modifies this`x, this`y, this`wrap, this`cells, this`rows
      ensures ok == Control(old(Shot()), final, p).Some?
      ensures ok ==> Valid() && Shot() == Control(old(Shot()), final, p).value
    {
      hide Control, RowOk, Flatten;
      ControlIgnoresWrap(Shot(), final, p);
      wrap := false;
      ok := true;
      if |p| == 1 && p[0] <= 2 && (final == 'J' as int || final == 'K' as int) {
        EraseFunction(final, p);
      } else {
        ok, x, y := MoveTarget(final, p);
        assert ok ==> ScreenOk(Shot());
      }
    }

    method EraseFunction(final: Byte, p: seq<nat>)
      requires Valid() && |p| == 1 && p[0] <= 2 && (final == 'J' as int || final == 'K' as int) && !wrap
      modifies this`cells, this`rows
      ensures Valid() && Control(old(Shot()), final, p) == Some(Shot())
    {
      hide S.EraseInLine, S.EraseInDisplay, RowOk, Flatten;
      if final == 'J' as int {
        EraseScreen(p[0]);
      } else {
        EraseLine(p[0]);
      }
    }

    /** Where a control function that only moves the cursor moves it. */
    method MoveTarget(final: Byte, p: seq<nat>) returns (ok: bool, column: nat, line: nat)
      requires Valid() && |p| >= 1 && !wrap
      requires !(|p| == 1 && p[0] <= 2 && (final == 'J' as int || final == 'K' as int))
      ensures Control(Shot(), final, p) == if ok then Some(Shot().(x := column, y := line)) else None
    {
      hide RowOk, Flatten;
      var n := Max(p[0], 1);
      column, line, ok := x, y, true;
      if final == 'H' as int || final == 'f' as int {
        if |p| > 2 {
          return false, x, y;
        }
        line := Clamp(n - 1, 0, height - 1);
        column := Clamp((if |p| > 1 then Max(p[1], 1) else 1) - 1, 0, width - 1);
      } else if |p| != 1 {
        ok := false;
      } else if final == 'A' as int {
        line := Max(0, y - n);
      } else if final == 'B' as int {
        line := Min(height - 1, y + n);
      } else if final == 'C' as int {
        column := Min(width - 1, x + n);
      } else if final == 'D' as int {
        column := Max(0, x - n);
      } else if final == 'G' as int {
        column := Clamp(n - 1, 0, width - 1);
      } else if final == 'd' as int {
        line := Clamp(n - 1, 0, height - 1);
      } else {
        ok := false;
      }
    }

    /** The end of a control sequence. */
    method FinishCsi(final: Byte) returns (ok: bool)
      requires Valid() && mode == InCsi
      modifies this`cells, this`rows, this`x, this`y, this`wrap, this`mode, this`pen, this`visible, this`replies
      ensures ok == Dispatch(old(Value()), old(sequence), final).Some?
      ensures ok ==> Valid() && Value() == Dispatch(old(Value()), old(sequence), final).value
    {
      hide RowOk, Flatten, Control, Sgr, Parameters, ScreenOk;
      ghost var after := Dispatch(Value(), sequence, final);
      var private, p;
      ok, private, p := ReadParameters();
      if !ok {
        return;
      }
      mode := InText;
      if private {
        if (final != 'h' as int && final != 'l' as int) || |p| != 1 {
          return false;
        }
        if p[0] == 25 {
          visible := final == 'h' as int;
        } else if p[0] !in {1000, 1002, 1003, 1005, 1006, 1015} {
          return false;
        }
      } else if final == 'm' as int {
        ok := SelectRendition(p);
      } else if final == 'n' as int && |p| == 1 && p[0] == 6 {
        assert p == [6];
        replies := replies + [CursorReport(x, y)];
      } else {
        assert !(final == 'n' as int && p == [6]);
        ok := ControlFunction(final, p);
      }
    }

    method FinishOsc() returns (ok: bool)
      requires Valid() && (mode == InOsc || mode == InOscEscape)
      modifies this`mode, this`sequence
      ensures ok == OscOk(old(sequence))
      ensures ok ==> Valid() && Value() == old(Value()).(parser := Text)
    {
      if |sequence| < 2 || (sequence[0] != '0' as int && sequence[0] != '2' as int) || sequence[1] != ';' as int {
        return false;
      }
      mode, sequence, ok := InText, [], true;
    }

    /** A byte inside a character. */
    method ConsumeContinuation(byte: Byte) returns (ok: bool)
      requires Valid() && remaining != 0
      modifies this`cells, this`rows, this`x, this`y, this`wrap, this`history
      modifies this`scalar, this`remaining
      ensures ok == P.ConsumeUtf8(old(Value()), byte).Some?
      ensures ok ==> Valid() && Value() == P.ConsumeUtf8(old(Value()), byte).value
    {
      hide RowOk, Flatten, S.Put, ScreenOk;
      ok := true;
      if !(0x80 <= byte < 0xc0) {
        return false;
      }
      scalar := scalar * 0x40 + byte % 0x40;
      remaining := remaining - 1;
      if remaining == 0 {
        if scalar < minimum || scalar > 0x10ffff || 0xd800 <= scalar <= 0xdfff {
          return false;
        }
        ok := Put(scalar);
      }
    }

    /** A control byte or a character of one byte. */
    method ConsumeAscii(byte: Byte) returns (ok: bool)
      requires Valid() && mode == InText && remaining == 0 && byte < 0x80 && byte != ESC
      modifies this`cells, this`rows, this`x, this`y, this`wrap, this`history
      ensures ok == P.ConsumeText(old(Value()), byte).Some?
      ensures ok ==> Valid() && Value() == P.ConsumeText(old(Value()), byte).value
    {
      hide RowOk, Flatten, S.Put, S.LineFeed;
      RowsAreRectangular(Shot());
      ok := true;
      if byte == 0x0d {
        x, wrap := 0, false;
      } else if byte == 0x0a {
        LineFeed();
      } else if byte == 0x08 {
        x, wrap := Max(0, x - 1), false;
      } else if byte == 0x09 {
        x, wrap := Min(width - 1, (x / 8 + 1) * 8), false;
      } else if byte >= 0x20 && byte != 0x7f {
        ok := Put(byte);
      } else if byte != 0 && byte != 7 && byte != 0x7f {
        ok := false;
      }
    }

    /** A byte outside any sequence. */
    method ConsumePlain(byte: Byte) returns (ok: bool)
      requires Valid() && mode == InText
      modifies this`cells, this`rows, this`x, this`y, this`wrap, this`history
      modifies this`mode, this`scalar, this`minimum, this`remaining
      ensures ok == P.Consume(old(Value()), byte).Some?
      ensures ok ==> Valid() && Value() == P.Consume(old(Value()), byte).value
    {
      hide RowOk, Flatten, S.Put, S.LineFeed, ScreenOk;
      ok := true;
      if remaining != 0 {
        ok := ConsumeContinuation(byte);
      } else if byte >= 0x80 {
        if 0xc2 <= byte <= 0xdf {
          scalar, remaining, minimum := byte % 0x20, 1, 0x80;
        } else if 0xe0 <= byte <= 0xef {
          scalar, remaining, minimum := byte % 0x10, 2, 0x800;
        } else if 0xf0 <= byte <= 0xf4 {
          scalar, remaining, minimum := byte % 8, 3, 0x1_0000;
        } else {
          ok := false;
        }
      } else if byte == ESC {
        mode := InEscape;
      } else {
        ok := ConsumeAscii(byte);
      }
    }

    method Consume(byte: Byte) returns (ok: bool)
      requires Valid()
      modifies this
      ensures ok == P.Consume(old(Value()), byte).Some?
      ensures ok ==> Valid() && Value() == P.Consume(old(Value()), byte).value
    {
      hide RowOk, Flatten, Dispatch, ConsumeText, ConsumeUtf8;
      ok := true;
      match mode {
        case InEscape =>
          sequence := [];
          if byte == '[' as int {
            mode := InCsi;
          } else if byte == ']' as int {
            mode := InOsc;
          } else {
            ok := false;
          }
        case InCsi =>
          if 0x40 <= byte <= 0x7e {
            ok := FinishCsi(byte);
          } else if |sequence| >= MAX_CSI {
            ok := false;
          } else {
            sequence := sequence + [byte];
          }
        case InOscEscape =>
          if byte != '\\' as int {
            return false;
          }
          ok := FinishOsc();
        case InOsc =>
          if byte == 7 {
            ok := FinishOsc();
          } else if byte == 0x1b {
            mode := InOscEscape;
          } else if |sequence| >= MAX_OSC {
            ok := false;
          } else {
            sequence := sequence + [byte];
          }
        case InText =>
          ok := ConsumePlain(byte);
      }
    }

    /** Feeding the object is feeding the value it stands for. */
    method Feed(bytes: Bytes) returns (ok: bool)
      requires Valid()
      modifies this
      ensures ok == P.Feed(old(Value()), bytes).Some?
      ensures ok ==> Valid() && Value() == P.Feed(old(Value()), bytes).value
    {
      hide RowOk, Flatten, P.Consume;
      var i := 0;
      while i < |bytes|
        invariant i <= |bytes| && Valid()
        invariant P.Feed(old(Value()), bytes) == P.Feed(Value(), bytes[i..])
      {
        assert bytes[i..][0] == bytes[i] && bytes[i..][1..] == bytes[i + 1..];
        ok := Consume(bytes[i]);
        if !ok {
          return;
        }
        i := i + 1;
      }
      assert bytes[i..] == [];
      ok := true;
    }

    /** Keep what fits of the cells. Throws, before changing anything, on a geometry out of bounds. */
    method Resize(columns: int, rows: int) returns (ok: bool)
      requires Valid()
      modifies this`cells, this`rows, this`x, this`y, this`wrap, this`width, this`height
      ensures ok == S.Resize(old(Shot()), columns, rows).Some?
      ensures Valid()
      ensures ok ==> Value() == old(Value()).(screen := S.Resize(old(Shot()), columns, rows).value)
      ensures !ok ==> Value() == old(Value())
    {
      hide Flatten, RowOk, ScreenOk, ResizedRows;
      if columns < 1 || columns > MAX_COLUMNS || rows < 1 || rows > MAX_ROWS {
        return false;
      }
      Reshape(columns, rows);
      ok := true;
    }

    method Reshape(columns: nat, rows: nat)
      requires Valid() && GeometryOk(columns, rows)
      modifies this`cells, this`rows, this`x, this`y, this`wrap, this`width, this`height
      ensures Valid()
      ensures Shot() == S.Resize(old(Shot()), columns, rows).value
    {
      hide Flatten, RowOk, ScreenOk, ResizedRows;
      ghost var before := Shot();
      RowsAreRectangular(before);
      ghost var after := S.Resize(before, columns, rows).value;
      var next;
      ghost var grid;
      next, grid := CopyCells(cells, width, height, columns, rows, before);
      var column, line := Clamp(x, 0, columns - 1), Clamp(y, 0, rows - 1);
      width, height, cells, this.rows, x, y, wrap := columns, rows, next, grid, column, line, false;
    }

    method TakeReplies() returns (taken: seq<Bytes>)
      requires Valid()
      modifies this`replies
      ensures Valid() && taken == old(replies) && Value() == old(Value()).(replies := [])
    {
      taken := replies;
      replies := [];
    }

    /** Throws in the middle of a sequence or a character. */
    method Finish() returns (ok: bool)
      requires Valid()
      ensures ok == Finished(Value())
    {
      ok := mode == InText && remaining == 0;
    }
  }
}
