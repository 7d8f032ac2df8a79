/**
  The screen half of the terminal oracle: cells, pen, cursor, and the effect of every control function.
  The oracle throws on input it does not support; a throw is `None` here.
 */
module VtScreen {
  import opened Basics

  const MAX_COLUMNS := 160
  const MAX_ROWS := 60

  datatype Cell = Cell(text: seq<nat>, attributes: Word, continuation: bool)

  type Row = seq<Cell>

  type Nibble = n: int | 0 <= n < 16

  /** Graphic rendition state. Colours are ANSI numbers, 8 and above being the bright ones. */
  datatype Pen = Pen(fore: Nibble, back: Nibble, bold: bool, inverse: bool, underline: bool, conceal: bool)

  const DEFAULT_PEN := Pen(7, 0, false, false, false, false)

  const DEFAULT_CELL := Cell([0x20], 7, false)

  /**
    `history` holds the rows that line feeds have pushed off the top, oldest first. The oracle forgets them;
    nothing below reads them, but they let a line be followed after it leaves the screen.
   */
  datatype Screen = Screen(
    width: nat, height: nat, history: seq<Row>, rows: seq<Row>,
    x: nat, y: nat, pen: Pen, visible: bool, wrap: bool)

  // ---------- Well-formedness ----------

  /** A row has the screen's width and every continuation cell has its leading cell to the left. */
  ghost predicate RowOk(row: Row, width: nat) {
    && |row| == width
    && forall i :: 0 <= i < width && row[i].continuation ==> 0 < i && !row[i - 1].continuation
  }

  ghost predicate ScreenOk(s: Screen) {
    && 1 <= s.width <= MAX_COLUMNS
    && 1 <= s.height <= MAX_ROWS
    && |s.rows| == s.height
    && (forall r :: 0 <= r < s.height ==> RowOk(s.rows[r], s.width))
    && s.x < s.width
    && s.y < s.height
    && (s.wrap ==> s.x == s.width - 1)
  }

  // ---------- Attributes ----------

  /**
    ANSI orders the colour bits red, green, blue; Windows orders them blue, green, red. Converting either way
    exchanges bits 0 and 2.
   */
  function SwapRedBlue(v: Nibble): Nibble {
    if v % 2 == v / 4 % 2 then v else if v % 2 == 1 then v + 3 else v - 3
  }

  function Attributes(p: Pen): Word {
    var fore := if p.bold && p.fore < 8 then p.fore + 8 else p.fore;
    var shownFore := if p.inverse then p.back else fore;
    var shownBack := if p.inverse then fore else p.back;
    var finalFore := if p.conceal then shownBack else shownFore;
    SwapRedBlue(finalFore) + SwapRedBlue(shownBack) * 16 + (if p.underline then 0x8000 else 0)
  }

  function Blank(p: Pen): Cell {
    Cell([0x20], Attributes(p), false)
  }

  function Fill(n: nat, c: Cell): Row {
    seq(n, _ => c)
  }

  /** One select-graphic-rendition parameter. */
  function SgrOne(p: Pen, v: nat): Option<Pen> {
    if v == 0 then Some(DEFAULT_PEN)
    else if v == 1 then Some(p.(bold := true))
    else if v == 22 then Some(p.(bold := false))
    else if v == 4 then Some(p.(underline := true))
    else if v == 24 then Some(p.(underline := false))
    else if v == 7 then Some(p.(inverse := true))
    else if v == 27 then Some(p.(inverse := false))
    else if v == 8 then Some(p.(conceal := true))
    else if v == 28 then Some(p.(conceal := false))
    else if v == 39 then Some(p.(fore := 7))
    else if v == 49 then Some(p.(back := 0))
    else if 30 <= v <= 37 then Some(p.(fore := v - 30))
    else if 40 <= v <= 47 then Some(p.(back := v - 40))
    else if 90 <= v <= 97 then Some(p.(fore := v - 90 + 8))
    else if 100 <= v <= 107 then Some(p.(back := v - 100 + 8))
    else None
  }

  function Sgr(p: Pen, params: seq<nat>): Option<Pen>
    decreases |params|
  {
    if params == [] then Some(p)
    else
      var next := SgrOne(p, params[0]);
      if next.None? then None else Sgr(next.value, params[1..])
  }

  // ---------- Cells ----------

  lemma {:induction false} RowConcat(a: Row, b: Row)
    requires RowOk(a, |a|) && RowOk(b, |b|)
    ensures RowOk(a + b, |a| + |b|)
  {
    forall i | 0 <= i < |a + b| && (a + b)[i].continuation
      ensures 0 < i && !(a + b)[i - 1].continuation
    {
      if i >= |a| {
        assert b[i - |a|].continuation;
      }
    }
  }

  /** The cells left of an erasure; a wide glyph it cuts in half is blanked. */
  function KeptLeft(row: Row, begin: nat, blank: Cell): (r: Row)
    requires begin < |row|
    ensures |r| == begin
    ensures RowOk(row, |row|) && !blank.continuation ==> RowOk(r, begin)
  {
    if 0 < begin && row[begin].continuation then row[..begin - 1] + [blank] else row[..begin]
  }

  /** The cells right of an erasure, likewise. */
  function KeptRight(row: Row, end: nat, blank: Cell): (r: Row)
    requires end <= |row|
    ensures |r| == |row| - end
    ensures RowOk(row, |row|) && !blank.continuation ==> RowOk(r, |row| - end)
  {
    if end < |row| && row[end].continuation then [blank] + row[end + 1..] else row[end..]
  }

  /** Blank the cells [begin, end); a wide glyph cut at either edge loses its other half too. */
  function EraseCells(row: Row, begin: nat, end: nat, blank: Cell): (r: Row)
    requires begin < end <= |row|
    ensures |r| == |row|
    ensures RowOk(row, |row|) && !blank.continuation ==> RowOk(r, |row|)
    ensures end < |row| && !blank.continuation ==> !r[end].continuation
  {
    var left, right := KeptLeft(row, begin, blank) + Fill(end - begin, blank), KeptRight(row, end, blank);
    assert RowOk(row, |row|) && !blank.continuation ==> RowOk(left + right, |row|) by {
      if RowOk(row, |row|) && !blank.continuation {
        RowConcat(KeptLeft(row, begin, blank), Fill(end - begin, blank));
        RowConcat(left, right);
      }
    }
    left + right
  }

  function LineFeed(s: Screen): (r: Screen)
    requires ScreenOk(s)
    ensures ScreenOk(r)
  {
    if s.y + 1 < s.height then s.(y := s.y + 1, wrap := false)
    else
      s.(history := s.history + [s.rows[0]], rows := s.rows[1..] + [Fill(s.width, Blank(s.pen))], wrap := false)
  }

  predicate IsCombining(ch: nat) {
    0x300 <= ch <= 0x36f
  }

  function GlyphWidth(ch: nat): nat {
    if 0x4e00 <= ch <= 0x9fff || ch == 0x1f642 then 2 else 1
  }

  /** The cells a glyph occupies: its own and, when wide, a continuation. */
  function Glyph(ch: nat, attributes: Word): Row {
    if GlyphWidth(ch) == 2 then [Cell([ch], attributes, false), Cell([], attributes, true)]
    else [Cell([ch], attributes, false)]
  }

  /** The cell a combining mark joins: the last one written, or the one left of the cursor, skipping continuations. */
  function MarkTarget(s: Screen): (r: Option<(nat, nat)>)
    requires ScreenOk(s)
    ensures r.Some? ==> r.value.0 < s.width && r.value.1 < s.height
    ensures r.Some? ==> !s.rows[r.value.1][r.value.0].continuation
  {
    if !s.wrap && s.x == 0 && s.y == 0 then None
    else
      var y := if s.wrap || s.x > 0 then s.y else s.y - 1;
      var x := if s.wrap then s.x else if s.x > 0 then s.x - 1 else s.width - 1;
      Some((if s.rows[y][x].continuation then x - 1 else x, y))
  }

  function AddMark(s: Screen, ch: nat): (r: Option<Screen>)
    requires ScreenOk(s)
    ensures r.Some? ==> ScreenOk(r.value)
  {
    var target := MarkTarget(s);
    if target.None? then None
    else
      var (x, y) := target.value;
      var cell := s.rows[y][x];
      Some(s.(rows := s.rows[y := s.rows[y][x := cell.(text := cell.text + [ch])]]))
  }

  lemma {:induction false} GlyphFits(erased: Row, x: nat, glyph: Row)
    requires RowOk(erased, |erased|) && RowOk(glyph, |glyph|) && x + |glyph| <= |erased|
    requires x + |glyph| < |erased| ==> !erased[x + |glyph|].continuation
    ensures RowOk(erased[..x] + glyph + erased[x + |glyph|..], |erased|)
  {
    RowConcat(erased[..x], glyph);
    RowConcat(erased[..x] + glyph, erased[x + |glyph|..]);
  }

  /** Overwrite the cells of `row` from `x` with a glyph. */
  function WriteGlyph(row: Row, x: nat, ch: nat, pen: Pen): (r: Row)
    requires x + GlyphWidth(ch) <= |row|
    requires RowOk(row, |row|)
    ensures RowOk(r, |row|)
  {
    var glyph := Glyph(ch, Attributes(pen));
    var erased := EraseCells(row, x, x + |glyph|, Blank(pen));
    GlyphFits(erased, x, glyph);
    erased[..x] + glyph + erased[x + |glyph|..]
  }

  /** Write a glyph at the cursor, which has room for it. */
  function PutHere(s: Screen, ch: nat): (r: Screen)
    requires ScreenOk(s)
    requires s.x + GlyphWidth(ch) <= s.width
    ensures ScreenOk(r)
  {
    var n := GlyphWidth(ch);
    var full := s.x + n == s.width;
    s.(rows := s.rows[s.y := WriteGlyph(s.rows[s.y], s.x, ch, s.pen)],
       x := if full then s.width - 1 else s.x + n,
       wrap := full)
  }

  function Put(s: Screen, ch: nat): (r: Option<Screen>)
    requires ScreenOk(s)
    ensures r.Some? ==> ScreenOk(r.value)
  {
    if IsCombining(ch) then AddMark(s, ch)
    else
      var n := GlyphWidth(ch);
      var ready := if s.wrap || s.x + n > s.width then LineFeed(s.(x := 0, wrap := false)) else s;
      if n > s.width then None else Some(PutHere(ready, ch))
  }

  // ---------- Control functions ----------

  function EraseInLine(s: Screen, mode: nat): (r: Screen)
    requires ScreenOk(s)
    requires mode <= 2
    ensures ScreenOk(r)
  {
    var begin := if mode == 0 then s.x else 0;
    var end := if mode == 1 then s.x + 1 else s.width;
    s.(rows := s.rows[s.y := EraseCells(s.rows[s.y], begin, end, Blank(s.pen))])
  }

  /** Row `r` after erasing in the display. */
  function DisplayRow(s: Screen, mode: nat, r: nat): (row: Row)
    requires ScreenOk(s) && mode <= 2 && r < s.height
    ensures RowOk(row, s.width)
  {
    if mode == 2 then Fill(s.width, Blank(s.pen))
    else if r == s.y then EraseInLine(s, mode).rows[s.y]
    else if (mode == 0) == (s.y < r) then Fill(s.width, Blank(s.pen))
    else s.rows[r]
  }

  /** Erase from the cursor to the end of the screen (0), from its start through the cursor (1), or all of it (2). */
  function EraseInDisplay(s: Screen, mode: nat): (r: Screen)
    requires ScreenOk(s)
    requires mode <= 2
    ensures ScreenOk(r)
  {
    s.(rows := seq(s.height, r requires 0 <= r < s.height => DisplayRow(s, mode, r)))
  }

  /** A control sequence without a private marker, other than SGR and DSR, given its parsed parameters. */
  function Control(s: Screen, final: Byte, p: seq<nat>): (r: Option<Screen>)
    requires ScreenOk(s)
    requires |p| >= 1
    ensures r.Some? ==> ScreenOk(r.value)
  {
    var n := Max(p[0], 1);
    var t := s.(wrap := false);
    if final == 'H' as int || final == 'f' as int then
      if |p| > 2 then None
      else
        var column := if |p| > 1 then Max(p[1], 1) else 1;
        Some(t.(y := Clamp(n - 1, 0, s.height - 1), x := Clamp(column - 1, 0, s.width - 1)))
    else if |p| != 1 then None
    else if final == 'A' as int then Some(t.(y := Max(0, s.y - n)))
    else if final == 'B' as int then Some(t.(y := Min(s.height - 1, s.y + n)))
    else if final == 'C' as int then Some(t.(x := Min(s.width - 1, s.x + n)))
    else if final == 'D' as int then Some(t.(x := Max(0, s.x - n)))
    else if final == 'G' as int then Some(t.(x := Clamp(n - 1, 0, s.width - 1)))
    else if final == 'd' as int then Some(t.(y := Clamp(n - 1, 0, s.height - 1)))
    else if final == 'J' as int && p[0] <= 2 then Some(EraseInDisplay(t, p[0]))
    else if final == 'K' as int && p[0] <= 2 then Some(EraseInLine(t, p[0]))
    else None
  }

  /** Set or reset one private mode; only cursor visibility (25) has an effect. */
  function PrivateMode(s: Screen, final: Byte, p: seq<nat>): (r: Option<Screen>)
    requires ScreenOk(s)
    requires |p| >= 1
    ensures r.Some? ==> ScreenOk(r.value)
  {
    if (final != 'h' as int && final != 'l' as int) || |p| != 1 then None
    else if p[0] == 25 then Some(s.(visible := final == 'h' as int))
    else if p[0] in {1000, 1002, 1003, 1005, 1006, 1015} then Some(s)
    else None
  }

  function CarriageReturn(s: Screen): (r: Screen)
    requires ScreenOk(s)
    ensures ScreenOk(r)
  {
    s.(x := 0, wrap := false)
  }

  function Backspace(s: Screen): (r: Screen)
    requires ScreenOk(s)
    ensures ScreenOk(r)
  {
    s.(x := Max(0, s.x - 1), wrap := false)
  }

  function Tab(s: Screen): (r: Screen)
    requires ScreenOk(s)
    ensures ScreenOk(r)
  {
    s.(x := Min(s.width - 1, (s.x / 8 + 1) * 8), wrap := false)
  }

  // ---------- Geometry ----------

  predicate GeometryOk(columns: int, rows: int) {
    1 <= columns <= MAX_COLUMNS && 1 <= rows <= MAX_ROWS
  }

  /** The top-left part of the cells that still fits, with fresh cells around it. */
  function ResizedRows(s: Screen, columns: nat, rows: nat): (r: seq<Row>)
    requires ScreenOk(s)
    ensures |r| == rows && forall y :: 0 <= y < rows ==> RowOk(r[y], columns)
  {
    seq(rows, y requires 0 <= y < rows =>
      seq(columns, x requires 0 <= x < columns =>
        if y < s.height && x < s.width then s.rows[y][x] else DEFAULT_CELL))
  }

  /** Change the geometry and clamp the cursor into it. */
  function Resize(s: Screen, columns: int, rows: int): (r: Option<Screen>)
    requires ScreenOk(s)
    ensures r.Some? <==> GeometryOk(columns, rows)
    ensures r.Some? ==> ScreenOk(r.value) && r.value.width == columns && r.value.height == rows
  {
    if !GeometryOk(columns, rows) then None
    else
      Some(s.(
        width := columns, height := rows, rows := ResizedRows(s, columns, rows),
        x := Clamp(s.x, 0, columns - 1), y := Clamp(s.y, 0, rows - 1), wrap := false))
  }

  function Initial(columns: int, rows: int): (s: Screen)
    requires GeometryOk(columns, rows)
    ensures ScreenOk(s)
  {
    Screen(columns, rows, [], seq(rows, _ => Fill(columns, DEFAULT_CELL)), 0, 0, DEFAULT_PEN, true, false)
  }
}
