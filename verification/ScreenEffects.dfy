/** What each control function does to the screen of the oracle, cell by cell. */
module ScreenEffects {
  import opened Basics
  import opened VtScreen

  // ---------- Erasing ----------

  /** Position (x1, y1) comes before (x2, y2) when the screen is read, or is the same. */
  predicate UpTo(x1: int, y1: int, x2: int, y2: int) {
    y1 < y2 || (y1 == y2 && x1 <= x2)
  }

  /** The cells an erase with the cursor at (s.x, s.y) covers. */
  predicate Covered(s: Screen, display: bool, mode: nat, x: int, y: int) {
    && (display || y == s.y)
    && match mode
       case 0 => UpTo(s.x, s.y, x, y)
       case 1 => UpTo(x, y, s.x, s.y)
       case _ => true
  }

  /** A cell that belongs to a wide glyph whose other half is covered. */
  predicate CutInHalf(s: Screen, display: bool, mode: nat, x: nat, y: nat)
    requires ScreenOk(s) && x < s.width && y < s.height
  {
    || (s.rows[y][x].continuation && Covered(s, display, mode, x - 1, y))
    || (x + 1 < s.width && s.rows[y][x + 1].continuation && Covered(s, display, mode, x + 1, y))
  }

  /** The cells covered and the other halves of what they cut are blank in the pen's colours; the others stay. */
  ghost predicate Erased(s: Screen, r: Screen, display: bool, mode: nat)
    requires ScreenOk(s) && ScreenOk(r)
  {
    && r == s.(rows := r.rows)
    && forall x, y :: 0 <= x < s.width && 0 <= y < s.height ==>
      r.rows[y][x] ==
      if Covered(s, display, mode, x, y) || CutInHalf(s, display, mode, x, y) then
        Cell([0x20], Attributes(s.pen), false)
      else s.rows[y][x]
  }

  lemma {:induction false} EraseCellsAt(row: Row, begin: nat, end: nat, blank: Cell, i: nat)
    requires begin < end <= |row| && i < |row|
    ensures EraseCells(row, begin, end, blank)[i] ==
      if begin <= i < end then blank
      else if (i + 1 == begin && row[begin].continuation) || (i == end && row[end].continuation) then blank
      else row[i]
  {
    hide RowOk;
  }

  lemma {:induction false} EraseInLineErases(s: Screen, mode: nat)
    requires ScreenOk(s) && mode <= 2
    ensures Erased(s, EraseInLine(s, mode), false, mode)
  {
    hide EraseCells, Attributes;
    var r := EraseInLine(s, mode);
    var begin := if mode == 0 then s.x else 0;
    var end := if mode == 1 then s.x + 1 else s.width;
    forall x, y | 0 <= x < s.width && 0 <= y < s.height
      ensures r.rows[y][x] ==
        if Covered(s, false, mode, x, y) || CutInHalf(s, false, mode, x, y) then Blank(s.pen) else s.rows[y][x]
    {
      if y == s.y {
        EraseCellsAt(s.rows[y], begin, end, Blank(s.pen), x);
      }
    }
  }

  lemma {:induction false} EraseInDisplayErases(s: Screen, mode: nat)
    requires ScreenOk(s) && mode <= 2
    ensures Erased(s, EraseInDisplay(s, mode), true, mode)
  {
    hide EraseInLine, Attributes;
    var r := EraseInDisplay(s, mode);
    EraseInLineErases(s, mode);
    forall x, y | 0 <= x < s.width && 0 <= y < s.height
      ensures r.rows[y][x] ==
        if Covered(s, true, mode, x, y) || CutInHalf(s, true, mode, x, y) then Blank(s.pen) else s.rows[y][x]
    {
      assert r.rows[y] == DisplayRow(s, mode, y);
      assert RowOk(s.rows[y], s.width);
      if y == s.y && mode < 2 {
        assert r.rows[y] == EraseInLine(s, mode).rows[y];
        assert Covered(s, true, mode, x, y) == Covered(s, false, mode, x, y);
      }
    }
  }

  // ---------- Writing ----------

  /** The rows that have left the screen, and then those on it. */
  function AllRows(s: Screen): seq<Row> {
    s.history + s.rows
  }

  /** The next line, where there is one; otherwise everything moves up and a row blank in the pen's colours comes in. */
  lemma {:induction false} LineFeedMoves(s: Screen)
    requires ScreenOk(s)
    ensures var r := LineFeed(s);
      && !r.wrap && r == s.(history := r.history, rows := r.rows, y := r.y, wrap := false)
      && |r.history| + r.y == |s.history| + s.y + 1
      && AllRows(r) == AllRows(s) + if s.y == s.height - 1 then [Fill(s.width, Blank(s.pen))] else []
  {
    hide RowOk, Attributes;
  }

  /** Where the next character goes: at the cursor, or on the next line if the row is full or has no room for it. */
  function Placed(s: Screen, ch: nat): (r: Screen)
    requires ScreenOk(s)
    ensures ScreenOk(r)
  {
    if s.wrap || s.x + GlyphWidth(ch) > s.width then LineFeed(s.(x := 0, wrap := false)) else s
  }

  /**
    A character other than a mark takes its cells in the pen's colours; what it cuts in half is blanked, nothing else
    changes, and the cursor goes behind it, or stays on the last column with a wrap pending. It is refused only if it
    is wider than the screen.
   */
  lemma {:induction false} PutWrites(s: Screen, ch: nat)
    requires ScreenOk(s) && !(0x300 <= ch <= 0x36f)
    ensures var at, n, r := Placed(s, ch), GlyphWidth(ch), Put(s, ch);
      && (r.None? <==> s.width < n)
      && (r.Some? ==>
            && at.x + n <= s.width
            && var t := r.value;
              && t == at.(rows := t.rows, x := t.x, wrap := t.wrap)
              && t.wrap == (at.x + n == s.width) && t.x == (if t.wrap then s.width - 1 else at.x + n)
              && Drawn(at, t, ch, n))
  {
    hide EraseCells, Attributes, LineFeed, Glyph, WriteGlyph;
    var at := Placed(s, ch);
    if GlyphWidth(ch) <= s.width {
      LineFeedMoves(s.(x := 0, wrap := false));
      forall x, y | 0 <= x < s.width && 0 <= y < s.height
        ensures PutHere(at, ch).rows[y][x] == DrawnCell(at, ch, GlyphWidth(ch), x, y)
      {
        if y == at.y {
          WriteGlyphAt(at.rows[y], at.x, ch, at.pen, x);
        }
      }
    }
  }

  function DrawnCell(s: Screen, ch: nat, n: nat, x: nat, y: nat): Cell
    requires ScreenOk(s) && x < s.width && y < s.height && s.x + n <= s.width
  {
    if y != s.y then s.rows[y][x]
    else if x == s.x then Cell([ch], Attributes(s.pen), false)
    else if x == s.x + 1 && n == 2 then Cell([], Attributes(s.pen), true)
    else if (x + 1 == s.x && s.rows[y][s.x].continuation) || (x == s.x + n && s.rows[y][x].continuation) then
      Cell([0x20], Attributes(s.pen), false)
    else s.rows[y][x]
  }

  ghost predicate Drawn(s: Screen, t: Screen, ch: nat, n: nat)
    requires ScreenOk(s) && ScreenOk(t) && s.x + n <= s.width == t.width && s.height == t.height
  {
    forall x, y :: 0 <= x < s.width && 0 <= y < s.height ==> t.rows[y][x] == DrawnCell(s, ch, n, x, y)
  }

  lemma {:induction false} WriteGlyphAt(row: Row, x: nat, ch: nat, pen: Pen, i: nat)
    requires RowOk(row, |row|) && x + GlyphWidth(ch) <= |row| && i < |row|
    ensures var n := GlyphWidth(ch);
      WriteGlyph(row, x, ch, pen)[i] ==
      if i == x then Cell([ch], Attributes(pen), false)
      else if i == x + 1 && n == 2 then Cell([], Attributes(pen), true)
      else if (i + 1 == x && row[x].continuation) || (i == x + n && row[i].continuation) then
        Cell([0x20], Attributes(pen), false)
      else row[i]
  {
    hide RowOk, Attributes, EraseCells;
    var n := GlyphWidth(ch);
    var glyph, erased := Glyph(ch, Attributes(pen)), EraseCells(row, x, x + n, Blank(pen));
    assert |glyph| == n && |erased| == |row|;
    EraseCellsAt(row, x, x + n, Blank(pen), i);
    if i < x || x + n <= i {
      assert WriteGlyph(row, x, ch, pen)[i] == erased[i];
    } else {
      assert WriteGlyph(row, x, ch, pen)[i] == glyph[i - x];
    }
  }

  // ---------- Combining marks ----------

  /** The place a mark looks at first: the last column if a wrap is pending, otherwise the one before the cursor. */
  function BeforeCursor(s: Screen): (int, int) {
    if s.wrap then (s.x, s.y) else if s.x > 0 then (s.x - 1, s.y) else (s.width - 1, s.y - 1)
  }

  /** Nothing has changed but that the glyph in cell (x, y) now ends with the mark. */
  ghost predicate Joined(s: Screen, t: Screen, x: int, y: int, mark: nat) {
    && 0 <= y < |s.rows| && 0 <= x < |s.rows[y]| && !s.rows[y][x].continuation
    && var c := s.rows[y][x];
      t == s.(rows := s.rows[y := s.rows[y][x := Cell(c.text + [mark], c.attributes, false)]])
  }

  /** The glyph at or before that place takes the mark; there is none only at the very start of the screen. */
  lemma {:induction false} MarkJoins(s: Screen, mark: nat)
    requires ScreenOk(s) && 0x300 <= mark <= 0x36f
    ensures Put(s, mark).None? <==> s.x == 0 && s.y == 0 && !s.wrap
    ensures Put(s, mark).Some? ==>
      var (px, py) := BeforeCursor(s);
      && 0 <= py < s.height && 0 <= px < |s.rows[py]|
      && Joined(s, Put(s, mark).value, if s.rows[py][px].continuation then px - 1 else px, py, mark)
  {
  }

  /** A mark that follows a character joins that character. */
  lemma {:induction false} MarkFollows(s: Screen, ch: nat, mark: nat)
    requires ScreenOk(s) && !(0x300 <= ch <= 0x36f) && 0x300 <= mark <= 0x36f && Put(s, ch).Some?
    ensures Put(Put(s, ch).value, mark).Some?
    ensures var at, u := Placed(s, ch), Put(s, ch).value;
      Joined(u, Put(u, mark).value, at.x, at.y, mark) && u.rows[at.y][at.x] == Cell([ch], Attributes(s.pen), false)
  {
    hide Attributes, Put, LineFeed;
    PutWrites(s, ch);
    LineFeedMoves(s.(x := 0, wrap := false));
    var at, u := Placed(s, ch), Put(s, ch).value;
    assert u.rows[at.y][at.x] == DrawnCell(at, ch, GlyphWidth(ch), at.x, at.y);
    if GlyphWidth(ch) == 2 {
      assert u.rows[at.y][at.x + 1] == DrawnCell(at, ch, 2, at.x + 1, at.y);
    }
    MarkJoins(u, mark);
  }

  // ---------- Moving ----------

  /** Only the cursor has moved, and no wrap is pending any more. */
  predicate MovedTo(s: Screen, r: Option<Screen>, x: int, y: int) {
    r.Some? && 0 <= x < s.width && 0 <= y < s.height && r.value == s.(x := x, y := y, wrap := false)
  }

  /** As far as `v`, but no further than the edge. */
  function Edge(v: int, last: int): int {
    if v < 0 then 0 else if v > last then last else v
  }

  /** Each way of moving goes as far as it says and stops at the edge; a parameter of zero counts as one. */
  lemma {:induction false} MovesDown(s: Screen, n: nat)
    requires ScreenOk(s)
    ensures var bottom, down := s.height - 1, if n == 0 then 1 else n;
      && MovedTo(s, Control(s, 'A' as int, [n]), s.x, Edge(s.y - down, bottom))
      && MovedTo(s, Control(s, 'B' as int, [n]), s.x, Edge(s.y + down, bottom))
      && MovedTo(s, Control(s, 'd' as int, [n]), s.x, Edge(down - 1, bottom))
  {
    hide EraseInLine, EraseInDisplay, ScreenOk;
    Inhabited(s);
  }

  lemma {:induction false} MovesAcross(s: Screen, n: nat)
    requires ScreenOk(s)
    ensures var right, across := s.width - 1, if n == 0 then 1 else n;
      && MovedTo(s, Control(s, 'C' as int, [n]), Edge(s.x + across, right), s.y)
      && MovedTo(s, Control(s, 'D' as int, [n]), Edge(s.x - across, right), s.y)
      && MovedTo(s, Control(s, 'G' as int, [n]), Edge(across - 1, right), s.y)
  {
    hide EraseInLine, EraseInDisplay, ScreenOk;
    Inhabited(s);
  }

  lemma {:induction false} MovesAnywhere(s: Screen, final: Byte, n: nat, m: nat)
    requires ScreenOk(s) && final as char in "Hf"
    ensures var bottom, right := s.height - 1, s.width - 1;
      var down, across := if n == 0 then 1 else n, if m == 0 then 1 else m;
      && MovedTo(s, Control(s, final, [n, m]), Edge(across - 1, right), Edge(down - 1, bottom))
      && MovedTo(s, Control(s, final, [n]), 0, Edge(down - 1, bottom))
  {
    hide EraseInLine, EraseInDisplay, ScreenOk;
    Inhabited(s);
  }

  lemma {:induction false} Inhabited(s: Screen)
    requires ScreenOk(s)
    ensures 1 <= s.width && 1 <= s.height && s.x < s.width && s.y < s.height
  {
  }

  /** A control function is refused exactly if it is not one of these, or has a parameter too many. */
  lemma {:induction false} RefusedExactly(s: Screen, final: Byte, p: seq<nat>)
    requires ScreenOk(s) && p != []
    ensures Control(s, final, p).Some? <==>
      || (final as char in "Hf" && |p| <= 2)
      || (final as char in "ABCDGd" && |p| == 1)
      || (final as char in "JK" && |p| == 1 && p[0] <= 2)
    ensures final as char in "JK" && |p| == 1 && p[0] <= 2 ==>
      Control(s, final, p) == Some(
        if final as char == 'J' then EraseInDisplay(s.(wrap := false), p[0]) else EraseInLine(s.(wrap := false), p[0]))
  {
    hide EraseInLine, EraseInDisplay, Clamp;
  }

  /** A tab goes to the next column that is a multiple of eight, or to the last one if that comes first. */
  lemma {:induction false} TabStops(s: Screen)
    requires ScreenOk(s)
    ensures var r := Tab(s);
      && r == s.(x := r.x, wrap := false) && s.x <= r.x < s.width
      && (r.x == s.width - 1 || (s.x < r.x && r.x % 8 == 0))
      && forall x :: s.x < x < r.x ==> x % 8 != 0
  {
    var r := Tab(s);
    forall x | s.x < x < r.x
      ensures x % 8 != 0
    {
      assert s.x / 8 * 8 <= s.x < x < (s.x / 8 + 1) * 8;
    }
  }

  /** The returns and the backspace only move the cursor within its row. */
  lemma {:induction false} WithinTheRow(s: Screen)
    requires ScreenOk(s)
    ensures CarriageReturn(s) == s.(x := 0, wrap := false)
    ensures s.x > 0 ==> Backspace(s) == s.(x := s.x - 1, wrap := false)
    ensures s.x == 0 ==> Backspace(s) == s.(wrap := false)
  {
  }

  // ---------- Resizing ----------

  /** What fits stays where it was, with blank default cells around it, and the cursor goes to the nearest place. */
  lemma {:induction false} ResizeKeeps(s: Screen, columns: int, rows: int)
    requires ScreenOk(s)
    ensures Resize(s, columns, rows).Some? <==> 1 <= columns <= 160 && 1 <= rows <= 60
    ensures Resize(s, columns, rows).Some? ==>
      var r := Resize(s, columns, rows).value;
      && r == s.(width := columns, height := rows, rows := r.rows, x := r.x, y := r.y, wrap := false)
      && r.x == Edge(s.x, columns - 1) && r.y == Edge(s.y, rows - 1)
      && forall x, y :: 0 <= x < columns && 0 <= y < rows ==>
        r.rows[y][x] == if x < s.width && y < s.height then s.rows[y][x] else Cell([0x20], 7, false)
  {
  }

  /** Making the screen larger and then as it was brings it back, but for a pending wrap. */
  lemma {:induction false} ResizeBack(s: Screen, columns: int, rows: int)
    requires ScreenOk(s) && s.width <= columns <= 160 && s.height <= rows <= 60
    ensures Resize(s, columns, rows).Some?
    ensures Resize(Resize(s, columns, rows).value, s.width, s.height) == Some(s.(wrap := false))
  {
    hide Resize, ResizedRows;
    ResizeKeeps(s, columns, rows);
    var larger := Resize(s, columns, rows).value;
    ResizeKeeps(larger, s.width, s.height);
    var back := Resize(larger, s.width, s.height).value;
    forall y | 0 <= y < s.height
      ensures back.rows[y] == s.rows[y]
    {
      assert RowOk(back.rows[y], s.width) && RowOk(s.rows[y], s.width);
    }
    assert back.rows == s.rows;
  }

  // ---------- The pen ----------

  /** Each switch of the pen is set by one number and unset by another, and touches nothing else. */
  lemma {:induction false} PenSwitches(p: Pen, c: nat)
    requires c < 8
    ensures SgrOne(p, 1) == Some(p.(bold := true)) && SgrOne(p, 22) == Some(p.(bold := false))
    ensures SgrOne(p, 4) == Some(p.(underline := true)) && SgrOne(p, 24) == Some(p.(underline := false))
    ensures SgrOne(p, 7) == Some(p.(inverse := true)) && SgrOne(p, 27) == Some(p.(inverse := false))
    ensures SgrOne(p, 8) == Some(p.(conceal := true)) && SgrOne(p, 28) == Some(p.(conceal := false))
    ensures SgrOne(p, 0) == Some(Pen(7, 0, false, false, false, false))
    ensures SgrOne(p, 39) == Some(p.(fore := 7)) && SgrOne(p, 49) == Some(p.(back := 0))
    ensures SgrOne(p, 30 + c) == Some(p.(fore := c)) && SgrOne(p, 40 + c) == Some(p.(back := c))
    ensures SgrOne(p, 90 + c) == Some(p.(fore := c + 8)) && SgrOne(p, 100 + c) == Some(p.(back := c + 8))
  {
  }

  /** Any other number is refused, and one that is refused makes the whole list refused. */
  lemma {:induction false} PenRefuses(p: Pen, params: seq<nat>)
    ensures Sgr(p, params).Some? <==> forall i :: 0 <= i < |params| ==> IsPenNumber(params[i])
    decreases |params|
  {
    if params != [] {
      var next := SgrOne(p, params[0]);
      if next.Some? {
        PenRefuses(next.value, params[1..]);
        assert forall i :: 1 <= i < |params| ==> params[i] == params[1..][i - 1];
      }
    }
  }

  predicate IsPenNumber(v: nat) {
    v in {0, 1, 4, 7, 8, 22, 24, 27, 28, 39, 49} || (v % 10 < 8 && v / 10 in {3, 4, 9, 10})
  }
}
