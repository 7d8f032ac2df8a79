/**
  The mirror theorems once more, cell by cell: which character and which attributes each cell of the terminal has, told
  from the console's own cells alone.
 */
module CellMirror {
  import opened Basics
  import opened VtScreen
  import opened VtParser
  import opened VtTokens
  import opened Color
  import opened Emitter
  import opened LineMirror
  import opened EmitterMirror
  import opened ConsoleLine
  import opened LargeConsoleRead
  import opened Scraping
  import D = DirectMirror
  import S = ScrollMirror

  // ---------- What a cell must look like ----------

  const ALL_FLAGS := Mask(true, true)

  /**
    The attributes that show a console cell: its two colours, exchanged by reverse video, and its underscore, as far as
    the console honours these flags. A white background comes out light grey, and what would be light grey on it black;
    white on white stays invisible.
   */
  function Expected(attributes: Word, mask: Mask): Word {
    var reversed := mask.reverse && attributes / 0x4000 % 2 == 1;
    var fore := if reversed then attributes / 16 % 16 else attributes % 16;
    var back := if reversed then attributes % 16 else attributes / 16 % 16;
    (if back != 15 then fore + 16 * back else 0x70 + if fore == 7 then 0 else if fore == 15 then 7 else fore)
    + if mask.underscore && attributes / 0x8000 == 1 then 0x8000 else 0
  }

  /** The characters 1 to 6 are double box drawings in some code pages; an escape character is not sent as it is. */
  const BOX_DRAWINGS: string := "╔╗╚╝║═"

  function ExpectedCharacter(ch: Word): nat {
    if 1 <= ch <= 6 then BOX_DRAWINGS[ch - 1] as nat else if ch == 0x1b then '?' as nat else ch
  }

  predicate IsLeading(c: CharInfo) {
    c.attributes / 0x100 % 2 == 1
  }

  /** A cell is the second half of a character exactly if the cell before it is the first half of one. */
  predicate Halved(cells: Line, row: Row, i: nat)
    requires i < |cells| <= |row|
  {
    row[i].continuation <==> 0 < i && !row[i - 1].continuation && IsLeading(cells[i - 1])
  }

  /** `row` shows `cells`, each cell in its own, the second half of a wide character empty, and blanks behind them. */
  ghost predicate ShowsCells(cells: Line, mask: Mask, row: Row) {
    && 1 <= |cells| <= |row|
    && (forall i :: 0 <= i < |cells| ==> row[i].attributes == Expected(cells[i].attributes, mask))
    && (forall i :: 0 <= i < |cells| ==>
          row[i].text == if row[i].continuation then [] else [ExpectedCharacter(cells[i].ch)])
    && (forall i :: 0 <= i < |cells| ==> Halved(cells, row, i))
    && (forall i :: |cells| <= i < |row| ==>
          row[i] == Cell([0x20], Expected(cells[|cells| - 1].attributes, mask), false))
  }

  // ---------- Colours ----------

  lemma {:induction false} ShownPair(fore: Nibble, back: Nibble, underscore: bool)
    ensures Attributes(PenFor(SwapRedBlue(fore), SwapRedBlue(back), underscore)) ==
      (if back != 15 then fore + 16 * back else 0x70 + if fore == 7 then 0 else if fore == 15 then 7 else fore)
      + if underscore then 0x8000 else 0
  {
    SwapTwice(fore);
    SwapTwice(back);
    ExactPair(SwapRedBlue(fore), SwapRedBlue(back), underscore);
  }

  lemma {:induction false} ColorBits(attributes: Word)
    ensures var color := ColorOf(attributes);
      && color % 16 == attributes % 16 && color / 16 % 16 == attributes / 16 % 16
      && color / 0x4000 == attributes / 0x4000
  {
    var high, low := attributes / 0x4000, attributes % 0x100;
    assert ColorOf(attributes) == high * 0x4000 + low && low < 0x100 && high < 4;
    assert low % 16 == attributes % 16 && low / 16 == attributes / 16 % 16 by {
      LowByte(attributes);
    }
    assert ColorOf(attributes) / 16 == high * 0x400 + low / 16;
  }

  lemma {:induction false} HighFlags(v: Word)
    ensures (HasFlag(v, REVERSE_VIDEO) <==> v / 0x4000 % 2 == 1) && (HasFlag(v, UNDERSCORE) <==> v / 0x8000 == 1)
    ensures v / 0x8000 == v / 0x4000 / 2
  {
  }

  /** A cell sent in its colour is shown as expected, on any background. */
  lemma {:induction false} ColorIsShown(attributes: Word)
    ensures Shown(ColorOf(attributes)) == Expected(attributes, ALL_FLAGS)
  {
    hide ColorOf, SwapRedBlue, PenFor, Attributes;
    var color := ColorOf(attributes);
    ColorBits(attributes);
    HighFlags(color);
    HighFlags(attributes);
    var fore := if color / 0x4000 % 2 == 1 then color / 16 % 16 else color % 16;
    var back := if color / 0x4000 % 2 == 1 then color % 16 else color / 16 % 16;
    ShownPair(fore, back, color / 0x8000 == 1);
  }

  // ---------- Characters ----------

  lemma {:induction false} CharacterIsShown(ch: Word)
    ensures FixSpecialCharacters(ch) == ExpectedCharacter(ch)
  {
  }

  /** What the scan of well-marked cells finds at their front. */
  lemma {:induction false} FrontOf(cells: Line)
    requires WellMarked(cells) && cells != []
    ensures var (n, ch) := ScanScalar(cells);
      && 1 <= n <= 2 && ch == cells[0].ch && (n == 2 <==> IsLeading(cells[0])) && WellMarked(cells[n..])
      && GlyphWidth(ExpectedCharacter(cells[0].ch)) == n
      && (n == 2 ==> ColorOf(cells[1].attributes) == ColorOf(cells[0].attributes))
  {
    CharacterIsShown(cells[0].ch);
  }

  lemma {:induction false} SameColorSameShown(a: Word, b: Word)
    requires ColorOf(a) == ColorOf(b)
    ensures Expected(a, ALL_FLAGS) == Expected(b, ALL_FLAGS)
  {
    ColorIsShown(a);
    ColorIsShown(b);
  }

  ghost predicate CellsShown(cells: Line, row: Row) {
    && |row| == |cells|
    && (forall i :: 0 <= i < |cells| ==> row[i].attributes == Expected(cells[i].attributes, ALL_FLAGS))
    && (forall i :: 0 <= i < |cells| ==>
          row[i].text == if row[i].continuation then [] else [ExpectedCharacter(cells[i].ch)])
    && (forall i :: 0 <= i < |cells| ==> Halved(cells, row, i))
  }

  /** The cells of one character. */
  lemma {:induction false} GlyphShown(cells: Line)
    requires WellMarked(cells) && cells != []
    ensures var n, row := ScanScalar(cells).0, Render(cells);
      && n <= |row| && row[n..] == Render(cells[n..]) && CellsShown(cells[..n], row[..n])
      && (n < |row| ==> (row[n - 1].continuation || !IsLeading(cells[n - 1])))
  {
    hide WellMarked, ColorOf, Shown, Expected, FixSpecialCharacters, ExpectedCharacter;
    FrontOf(cells);
    ColorIsShown(cells[0].attributes);
    CharacterIsShown(cells[0].ch);
    var n := ScanScalar(cells).0;
    if n == 2 {
      SameColorSameShown(cells[0].attributes, cells[1].attributes);
    }
    var glyph := Glyph(FixSpecialCharacters(cells[0].ch), Shown(ColorOf(cells[0].attributes)));
    assert Render(cells) == glyph + Render(cells[n..]);
    assert |glyph| == n;
  }

  lemma {:induction false} RenderShows(cells: Line)
    requires WellMarked(cells)
    ensures CellsShown(cells, Render(cells))
    decreases |cells|
  {
    hide WellMarked, Expected, ExpectedCharacter, IsLeading;
    if cells != [] {
      var n, row := ScanScalar(cells).0, Render(cells);
      FrontOf(cells);
      GlyphShown(cells);
      RenderShows(cells[n..]);
      RenderLength(cells);
      JoinShown(cells, row, n);
    }
  }

  lemma {:induction false} JoinShown(cells: Line, row: Row, n: nat)
    requires 1 <= n <= |cells| == |row| && CellsShown(cells[..n], row[..n]) && CellsShown(cells[n..], row[n..])
    requires n < |cells| ==> row[n - 1].continuation || !IsLeading(cells[n - 1])
    ensures CellsShown(cells, row)
  {
    hide Expected, ExpectedCharacter, IsLeading;
    forall i | 0 <= i < |cells|
      ensures row[i].attributes == Expected(cells[i].attributes, ALL_FLAGS)
      ensures row[i].text == if row[i].continuation then [] else [ExpectedCharacter(cells[i].ch)]
      ensures Halved(cells, row, i)
    {
      if i < n {
        assert row[..n][i] == row[i] && cells[..n][i] == cells[i];
        assert i > 0 ==> row[..n][i - 1] == row[i - 1] && cells[..n][i - 1] == cells[i - 1];
        assert Halved(cells[..n], row[..n], i);
      } else {
        var j := i - n;
        assert row[n..][j] == row[i] && cells[n..][j] == cells[i];
        assert j > 0 ==> row[n..][j - 1] == row[i - 1] && cells[n..][j - 1] == cells[i - 1];
        assert Halved(cells[n..], row[n..], j);
      }
    }
  }

  /** The row the mirror theorems speak of shows the cells. */
  lemma {:induction false} FullRowShows(cells: Line, width: nat)
    requires WellMarked(cells) && 1 <= |cells| <= width
    ensures ShowsCells(cells, ALL_FLAGS, FullRow(cells, width))
  {
    hide WellMarked, Render, Expected, ExpectedCharacter, IsLeading, ColorOf, Shown;
    RenderShows(cells);
    ColorIsShown(cells[|cells| - 1].attributes);
    var row, shown := FullRow(cells, width), Render(cells);
    forall i | 0 <= i < |cells|
      ensures row[i] == shown[i] && Halved(cells, row, i)
    {
      assert Halved(cells, shown, i);
    }
  }

  // ---------- Masked cells ----------

  lemma {:induction false} MaskedIsExpected(attributes: Word, mask: Mask)
    ensures Expected(MaskedAttributes(attributes, mask), ALL_FLAGS) == Expected(attributes, mask)
    ensures MaskedAttributes(attributes, mask) / 0x100 % 2 == attributes / 0x100 % 2
  {
    hide MaskedAttributes;
    var m := MaskedAttributes(attributes, mask);
    MaskRemovesFlags(attributes, mask);
    HighFlags(m);
    HighFlags(attributes);
    LowBits(m, attributes);
  }

  lemma {:induction false} LowBits(a: Word, b: Word)
    requires a % 0x4000 == b % 0x4000
    ensures a % 16 == b % 16 && a / 16 % 16 == b / 16 % 16 && a / 0x100 % 2 == b / 0x100 % 2
  {
    LowBitsOf(a);
    LowBitsOf(b);
  }

  lemma {:induction false} LowBitsOf(a: Word)
    ensures var low := a % 0x4000;
      a % 16 == low % 16 && a / 16 % 16 == low / 16 % 16 && a / 0x100 % 2 == low / 0x100 % 2
  {
    var high, low := a / 0x4000, a % 0x4000;
    assert a == high * 0x4000 + low;
    assert a / 16 == high * 0x400 + low / 16;
    assert a / 0x100 == high * 0x40 + low / 0x100 by {
      InHundreds(high, low);
    }
  }

  lemma {:induction false} InHundreds(high: nat, low: nat)
    ensures (high * 0x4000 + low) / 0x100 == high * 0x40 + low / 0x100
  {
    var n := low / 0x100;
    assert low == n * 0x100 + low % 0x100;
  }

  /** Showing masked cells in full is showing the cells themselves as far as their flags are honoured. */
  lemma {:induction false} MaskedShows(cells: Line, mask: Mask, row: Row)
    requires ShowsCells(MaskedLine(cells, mask), ALL_FLAGS, row)
    ensures ShowsCells(cells, mask, row)
  {
    hide MaskedAttributes, Expected, ExpectedCharacter;
    var masked := MaskedLine(cells, mask);
    forall i | 0 <= i < |cells|
      ensures Expected(masked[i].attributes, ALL_FLAGS) == Expected(cells[i].attributes, mask)
      ensures masked[i].ch == cells[i].ch && IsLeading(masked[i]) == IsLeading(cells[i])
    {
      MaskedIsExpected(cells[i].attributes, mask);
    }
    forall i | 0 <= i < |cells|
      ensures Halved(cells, row, i)
    {
      assert Halved(masked, row, i);
    }
  }

  // ---------- The theorems ----------

  /** Sending a line: every cell of its row shows the console's cell there, and every other line is as it was. */
  lemma {:induction false} SentLineShowsCells(
    cfg: Config, e: State, vt: Vt, origin: int, line: int, cells: Line, cursorColumn: int)
    returns (r: Vt)
    requires !cfg.plainMode && cfg.outputColor
    requires Synced(e, vt, origin) && line - origin >= |vt.screen.history|
    requires WellMarked(cells) && 1 <= |cells| <= vt.screen.width
    ensures Feed(vt, SendLine(cfg, e, line, cells, cursorColumn).output) == Some(r)
    ensures OnlyChanged(vt.screen, r.screen, line - origin, line - origin + 1)
    ensures 0 <= line - origin < |Transcript(r.screen)|
    ensures ShowsCells(cells, ALL_FLAGS, Transcript(r.screen)[line - origin])
  {
    hide SendLine, FullRow, WellMarked, ShowsCells, OnlyChanged, Feed;
    r := SendLineShows(cfg, e, vt, origin, line, cells, cursorColumn);
    FullRowShows(cells, vt.screen.width);
  }

  /** The console's cells that a direct scrape shows, column `j` of line `i` being that of the window. */
  function WindowLine(frame: Frame, i: nat, width: nat): Line
    requires 0 <= frame.info.window.top + i < |frame.cells| && 0 <= frame.info.window.left
    requires frame.info.window.left + width <= |frame.cells[frame.info.window.top + i]|
  {
    frame.cells[frame.info.window.top + i][frame.info.window.left..frame.info.window.left + width]
  }

  function VisibleLines(frame: Frame, rows: nat): int {
    Min(Min(frame.info.window.height, rows), 3000)
  }

  function VisibleColumns(frame: Frame, columns: nat): int {
    Min(Min(frame.info.window.width, columns), 2500)
  }

  /** The window lies in the console's buffer, and the part of it that fits the terminal is well marked. */
  ghost predicate WindowOk(frame: Frame, columns: nat, rows: nat) {
    var window, n, w := frame.info.window, VisibleLines(frame, rows), VisibleColumns(frame, columns);
    && 0 <= window.left && 0 <= window.top && 1 <= n && 1 <= w && window.top + n <= |frame.cells|
    && (forall r :: 0 <= r < |frame.cells| ==> window.left + w <= |frame.cells[r]|)
    && forall i :: 0 <= i < n ==> WellMarked(MaskedLine(WindowLine(frame, i, w), frame.mask))
  }

  /**
    The screen shows the top left part of the window, cell by cell. The cursor has the console's place in it, and is
    visible exactly if the console's is and lies in that part; `exact` tells whether that much is known.
   */
  ghost predicate ShowsWindow(frame: Frame, s: Screen, columns: nat, rows: nat, exact: bool)
    requires WindowOk(frame, columns, rows)
  {
    var n, w := VisibleLines(frame, rows), VisibleColumns(frame, columns);
    var x, y := frame.info.cursorX - frame.info.window.left, frame.info.cursorY - frame.info.window.top;
    var seen := frame.cursorVisible && 0 <= x < w && 0 <= y < n;
    && n <= |s.rows| && (forall i :: 0 <= i < n ==> ShowsCells(WindowLine(frame, i, w), frame.mask, s.rows[i]))
    && (seen ==> s.x == x && s.y == y && !s.wrap) && (exact ==> s.visible == seen)
  }

  lemma {:induction false} WindowIsDrawn(frame: Frame, columns: nat, rows: nat)
    requires WindowOk(frame, columns, rows)
    ensures D.Drawable(frame, columns, rows)
    ensures var lines := DirectRows(frame, columns, rows);
      && |lines| == VisibleLines(frame, rows)
      && forall i :: 0 <= i < |lines| ==>
          lines[i] == MaskedLine(WindowLine(frame, i, VisibleColumns(frame, columns)), frame.mask)
  {
    hide WellMarked, MaskedLine;
    var area, lines := DirectRect(frame.info, columns, rows), DirectRows(frame, columns, rows);
    forall i | 0 <= i < |lines|
      ensures lines[i] == MaskedLine(WindowLine(frame, i, VisibleColumns(frame, columns)), frame.mask)
    {
      assert lines[i] == MaskedLine(Area(frame.cells, area)[i], frame.mask);
      assert Area(frame.cells, area)[i] == WindowLine(frame, i, VisibleColumns(frame, columns));
    }
  }

  lemma {:induction false} FrameShowsWindow(frame: Frame, s: Screen, columns: nat, rows: nat, exact: bool)
    requires WindowOk(frame, columns, rows) && D.Drawable(frame, columns, rows)
    requires D.ShowsFrame(frame, s, columns, rows) && (exact ==> D.ShowsCursor(frame, s, columns, rows))
    ensures ShowsWindow(frame, s, columns, rows, exact)
  {
    hide WellMarked, MaskedLine, FullRow, ShowsCells;
    WindowIsDrawn(frame, columns, rows);
    var w := VisibleColumns(frame, columns);
    forall i | 0 <= i < VisibleLines(frame, rows)
      ensures ShowsCells(WindowLine(frame, i, w), frame.mask, s.rows[i])
    {
      var masked := MaskedLine(WindowLine(frame, i, w), frame.mask);
      assert |masked| == w by {
        MaskedLength(WindowLine(frame, i, w), frame.mask);
      }
      FullRowShows(masked, columns);
      MaskedShows(WindowLine(frame, i, w), frame.mask, s.rows[i]);
    }
  }

  lemma {:induction false} MaskedLength(cells: Line, mask: Mask)
    ensures |MaskedLine(cells, mask)| == |cells|
  {
  }

  ghost predicate AllWindowsOk(frames: seq<Frame>, columns: nat, rows: nat) {
    forall i :: 0 <= i < |frames| ==> WindowOk(frames[i], columns, rows)
  }

  /**
    Direct mode cell by cell: from the clearing reset on, whatever the terminal showed, any run of scrapes leaves the
    window of the last one on the screen.
   */
  lemma {:induction false} DirectModeShowsWindow(cfg: Config, e: State, start: Vt, frames: seq<Frame>) returns (r: Vt)
    requires !cfg.plainMode && cfg.outputColor && VtOk(start) && start.parser.Text? && frames != []
    requires AllWindowsOk(frames, start.screen.width, start.screen.height)
    ensures D.AllDrawable(frames, start.screen.width, start.screen.height)
    ensures var columns, rows, reset := start.screen.width, start.screen.height, Reset(cfg, e, true, 0);
      var run := DirectRun(cfg, Sweep(reset.state, ForgottenRing(), reset.output), frames, columns, rows);
      && Feed(start, run.output) == Some(r)
      && ShowsWindow(frames[|frames| - 1], r.screen, columns, rows, start.screen.visible)
  {
    hide DirectRun, D.ShowsFrame, D.ShowsCursor, ShowsWindow, WindowOk, D.Drawable, RowOk, Feed, WellMarked;
    var columns, rows := start.screen.width, start.screen.height;
    forall i | 0 <= i < |frames|
      ensures D.Drawable(frames[i], columns, rows)
    {
      WindowIsDrawn(frames[i], columns, rows);
    }
    r := D.DirectModeMirrors(cfg, e, start, frames);
    FrameShowsWindow(frames[|frames| - 1], r.screen, columns, rows, start.screen.visible);
  }

  /** In scrolling mode the rows scraped are those of the buffer, from its first column on. */
  lemma {:induction false} ScrollRowsAre(view: View)
    requires ViewOk(view)
    ensures forall r :: 0 <= r < 3000 ==>
      |view.cells[r]| == view.info.bufferWidth
      && ScrollRows(view)[r] == MaskedLine(view.cells[r][..Min(view.info.bufferWidth, 2500)], view.mask)
  {
    hide MaskedLine;
  }

  /**
    What a completed scrolling scrape shows, cell by cell: of the buffer's rows from `first` on those that are no lower
    than the last dirty one and the window, row `r` standing in the transcript's row `r + shift`. The last dirty row is
    no higher than the cursor's. Below it the terminal is empty and the rest of the window all spaces in one colour. The
    cursor has its place, and is visible exactly if the console's is and lies in the window, if `exact` says that it is
    known.
   */
  ghost predicate ShowsBuffer(view: View, first: int, count: int, s: Screen, shift: int, exact: bool)
    requires ViewOk(view)
  {
    var info := view.info;
    var bottom := info.window.top + info.window.height;
    && info.cursorY < count <= 3000 && 0 <= first <= info.window.top <= count && |s.history| <= info.window.top + shift
    && (forall r :: first <= r < Min(count, bottom) ==> BufferRowShown(view, r, s, shift))
    && S.EmptyFrom(s, count + shift)
    && (forall r :: count <= r < bottom ==> BufferRowBlank(view, r, count))
    && (CursorSeen(view) ==> |s.history| + s.y == info.cursorY + shift && s.x == info.cursorX && !s.wrap)
    && (exact ==> s.visible == CursorSeen(view))
  }

  predicate CursorSeen(view: View) {
    var info := view.info;
    && view.cursorVisible && 0 <= info.cursorX - info.window.left < info.window.width
    && 0 <= info.cursorY - info.window.top < info.window.height
  }

  ghost predicate BufferRowShown(view: View, r: int, s: Screen, shift: int)
    requires ViewOk(view) && 0 <= r < 3000
  {
    && 0 <= r + shift < |Transcript(s)|
    && ShowsCells(view.cells[r][..Min(view.info.bufferWidth, 2500)], view.mask, Transcript(s)[r + shift])
  }

  /** Row `r` is all spaces in the colour of the last cell of the row before `count`. */
  ghost predicate BufferRowBlank(view: View, r: int, count: int)
    requires ViewOk(view) && 0 <= r < 3000 && 1 <= count <= 3000
  {
    var w := Min(view.info.bufferWidth, 2500);
    forall c :: 0 <= c < w ==>
      && view.cells[r][c].ch == 0x20
      && Expected(view.cells[r][c].attributes, view.mask) ==
         Expected(view.cells[count - 1][w - 1].attributes, view.mask)
  }

  lemma {:induction false} ViewShowsBuffer(view: View, s: Scroll, first: int, screen: Screen, origin: int)
    requires ViewOk(view) && view.info.bufferWidth <= screen.width && S.ShowsView(view, s, first, screen, origin)
    requires S.AllMarked(ScrollRows(view), first - s.scrolled, Min(s.dirtyCount, WindowStop(view.info)))
    ensures ShowsBuffer(
              view, first - s.scrolled, s.dirtyCount, screen, s.scrolled - origin, screen.visible == CursorSeen(view))
  {
    hide WellMarked, MaskedLine, FullRow, ShowsCells, ScrollRows, S.EmptyFrom, IsLineBlank, LastAttributes, Expected;
    ScrollRowsAre(view);
    var rows, w, shift := ScrollRows(view), Min(view.info.bufferWidth, 2500), s.scrolled - origin;
    forall r | first - s.scrolled <= r < Min(s.dirtyCount, WindowStop(view.info))
      ensures BufferRowShown(view, r, screen, shift)
    {
      MaskedLength(view.cells[r][..w], view.mask);
      assert ShownAt(screen, r + shift, FullRow(rows[r], screen.width)) && WellMarked(rows[r]);
      FullRowShows(rows[r], screen.width);
      MaskedShows(view.cells[r][..w], view.mask, Transcript(screen)[r + shift]);
    }
    forall r | s.dirtyCount <= r < WindowStop(view.info)
      ensures BufferRowBlank(view, r, s.dirtyCount)
    {
      assert IsLineBlank(rows[r], LastAttributes(rows[s.dirtyCount - 1]));
      forall c | 0 <= c < w {
        BlankCells(view.cells[r][..w], view.cells[s.dirtyCount - 1][..w], view.mask, c);
      }
    }
  }

  lemma {:induction false} KnownCursor(view: View, first: int, count: int, s: Screen, shift: int)
    requires ViewOk(view) && ShowsBuffer(view, first, count, s, shift, s.visible == CursorSeen(view))
    ensures ShowsBuffer(view, first, count, s, shift, false)
    ensures s.visible == CursorSeen(view) ==> ShowsBuffer(view, first, count, s, shift, true)
  {
  }

  lemma {:induction false} BlankCells(cells: Line, above: Line, mask: Mask, c: nat)
    requires c < |cells| && above != []
    requires IsLineBlank(MaskedLine(cells, mask), LastAttributes(MaskedLine(above, mask)))
    ensures cells[c].ch == 0x20
    ensures Expected(cells[c].attributes, mask) == Expected(above[|above| - 1].attributes, mask)
  {
    hide Expected, MaskedAttributes;
    assert IsBlankCell(MaskedLine(cells, mask)[c], LastAttributes(MaskedLine(above, mask)));
    MaskedIsExpected(cells[c].attributes, mask);
    MaskedIsExpected(above[|above| - 1].attributes, mask);
  }

  /**
    Scrolling mode cell by cell: from a new terminal on, after any run of scrapes, one that completes leaves the part of
    the buffer it read on the terminal.
   */
  lemma {:induction false} ScrollModeShowsBuffer(cfg: Config, width: nat, height: nat, views: seq<View>, view: View)
    returns (r: Vt, home: int)
    requires !cfg.plainMode && cfg.outputColor && GeometryOk(width, height)
    requires S.RunPrintable(cfg, S.NewTracking(), views, view, width, height)
    ensures var before := ScrapeRun(cfg, S.NewTracking(), views);
      var p, after := Prepared(cfg, before, view).state, Scrape(cfg, before, view);
      var exact := S.CursorStays(cfg, S.NewTracking(), views, true)
        && (S.Clears(before, view) && CursorSeen(view) ==> S.LastShown(cfg, S.NewTracking(), views, true));
      && Feed(VtParser.Start(width, height), after.state.sweep.output) == Some(r)
      && (after.ok ==> ShowsBuffer(view, p.scraped - p.scrolled, p.dirtyCount, r.screen, p.scrolled - home, exact))
  {
    hide ScrapeRun, Feed, S.AllPrintable, RowOk, Prepared, S.ShowsView, ShowsBuffer, S.AllMarked, SweepLines,
        HideCursor, ShowCursor, ScrollOk, RingOk, StateOk;
    r, home := S.FromTheStart(cfg, width, height, views, view);
    var before := ScrapeRun(cfg, S.NewTracking(), views);
    var p, after := Prepared(cfg, before, view), Scrape(cfg, before, view);
    if after.ok {
      ViewShowsBuffer(view, after.state, p.state.scraped, r.screen, home);
      assert S.CursorShown(view) == CursorSeen(view);
      KnownCursor(view, p.state.scraped - p.state.scrolled, p.state.dirtyCount, r.screen, p.state.scrolled - home);
    }
  }

  // ---------- What is well marked ----------

  /** A printable ASCII character in any colours, not marked as half of a wide one. */
  predicate IsPlain(c: CharInfo) {
    0x20 <= c.ch < 0x7f && !IsLeading(c)
  }

  /** The theorems speak of ordinary text, for one. */
  lemma {:induction false} PlainTextIsWellMarked(cells: Line)
    requires forall i :: 0 <= i < |cells| ==> IsPlain(cells[i])
    ensures WellMarked(cells)
    decreases |cells|
  {
    if cells != [] {
      assert IsPlain(cells[0]);
      PlainTextIsWellMarked(cells[1..]);
    }
  }
}
