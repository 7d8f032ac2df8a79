/**
  Direct mode: after every scrape of any run the terminal shows the scraped rectangle, though only changes are sent.
 */
module DirectMirror {
  import opened Basics
  import opened VtScreen
  import opened VtParser
  import opened VtTokens
  import opened Color
  import opened Emitter
  import opened LineMirror
  import opened EmitterMirror
  import opened ConsoleLine
  import opened LargeConsoleRead
  import opened Scraping

  /** The screen's top row is line 0. */
  ghost predicate AtTop(e: State, vt: Vt) {
    Synced(e, vt, -|vt.screen.history|)
  }

  /** Row `i` shows the line last seen there, if any was. */
  ghost predicate Shows(st: LineState, s: Screen, i: nat) {
    st.prevLength > 0 ==>
      && i < |s.rows| && st.prevLength <= |st.prevData| && st.prevLength <= s.width
      && WellMarked(Seen(st)) && s.rows[i] == FullRow(Seen(st), s.width)
  }

  ghost predicate RingShows(ring: seq<LineState>, s: Screen) {
    forall i :: 0 <= i < |ring| ==> Shows(ring[i], s, i)
  }

  /** Everything written has brought the terminal to `vt`, which shows the lines last seen. */
  ghost predicate Mirrored(sweep: Sweep, start: Vt, vt: Vt, columns: nat, rows: nat) {
    && RingOk(sweep.ring) && AtTop(sweep.emitter, vt)
    && VtOk(start) && Feed(start, sweep.output) == Some(vt)
    && vt.screen.width == columns && vt.screen.height == rows
    && RingShows(sweep.ring, vt.screen)
  }

  /** A frame whose scraped cells the console and the terminal agree about. */
  ghost predicate Drawable(frame: Frame, columns: nat, rows: nat)
  {
    && FrameOk(frame, columns, rows)
    && forall i :: 0 <= i < |DirectRows(frame, columns, rows)| ==> WellMarked(DirectRows(frame, columns, rows)[i])
  }

  lemma {:induction false} SendLineOnScreen(cfg: Config, e: State, vt: Vt, line: nat, cells: Line, cursorColumn: int)
    returns (r: Vt)
    requires !cfg.plainMode && cfg.outputColor
    requires AtTop(e, vt) && line < vt.screen.height
    requires WellMarked(cells) && 1 <= |cells| <= vt.screen.width
    ensures var step := SendLine(cfg, e, line, cells, cursorColumn);
      Feed(vt, step.output) == Some(r) && AtTop(step.state, r)
      && (CursorExact(e, vt) ==> CursorExact(step.state, r))
    ensures r.screen.width == vt.screen.width && r.screen.history == vt.screen.history
    ensures r.screen.rows == vt.screen.rows[line := FullRow(cells, vt.screen.width)]
  {
    hide SendLine, FullRow, WellMarked, RowOk, Feed;
    var h := |vt.screen.history|;
    r := SendLineShows(cfg, e, vt, -h, line, cells, cursorColumn);
    var before, after := Transcript(vt.screen), Transcript(r.screen);
    assert |r.screen.history| == h;
    forall j | 0 <= j < h
      ensures r.screen.history[j] == vt.screen.history[j]
    {
      assert RowKept(vt.screen, r.screen, j) && after[j] == before[j];
    }
    forall j | 0 <= j < vt.screen.height
      ensures r.screen.rows[j] == if j == line then FullRow(cells, vt.screen.width) else vt.screen.rows[j]
    {
      assert j != line ==> RowKept(vt.screen, r.screen, h + j);
      assert after[h + j] == r.screen.rows[j] && before[h + j] == vt.screen.rows[j];
    }
  }

  lemma {:induction false} SeenAfterSet(st: LineState, row: Line)
    ensures LineStateOk(SetLine(st, row)) && Seen(SetLine(st, row)) == row
  {
  }

  lemma {:induction false} VisitShows(
    cfg: Config, s: Sweep, start: Vt, vt: Vt, columns: nat, rows: nat, line: nat, row: Line, cursorColumn: int)
    returns (r: Vt)
    requires !cfg.plainMode && cfg.outputColor
    requires Mirrored(s, start, vt, columns, rows) && line < rows && line < BUFFER_LINE_COUNT
    requires WellMarked(row) && 1 <= |row| <= columns
    ensures Mirrored(VisitDirect(cfg, s, line, row, cursorColumn), start, r, columns, rows)
    ensures r.screen.rows == vt.screen.rows[line := FullRow(row, columns)]
    ensures CursorExact(s.emitter, vt) ==> CursorExact(VisitDirect(cfg, s, line, row, cursorColumn).emitter, r)
  {
    hide SendLine, FullRow, WellMarked, RowOk, Feed, Changed, SetLine, LineStateOk;
    var next := VisitDirect(cfg, s, line, row, cursorColumn);
    SeenAfterSet(s.ring[line], row);
    if Changed(s.ring[line], row) {
      var step := SendLine(cfg, s.emitter, line, row, cursorColumn);
      r := SendLineOnScreen(cfg, s.emitter, vt, line, row, cursorColumn);
      FeedConcat(start, s.output, step.output);
    } else {
      r := vt;
      assert s.output + [] == s.output;
      assert Shows(s.ring[line], vt.screen, line);
      UnchangedIsShown(s.ring[line], row, vt.screen, line);
    }
    forall i | 0 <= i < |next.ring|
      ensures Shows(next.ring[i], r.screen, i)
    {
      assert Shows(s.ring[i], vt.screen, i);
    }
  }

  lemma {:induction false} UnchangedIsShown(st: LineState, row: Line, s: Screen, i: nat)
    requires LineStateOk(st) && row != [] && !Changed(st, row) && Shows(st, s, i)
    requires WellMarked(row) && |row| <= s.width && i < |s.rows|
    ensures s.rows[i] == FullRow(row, s.width) && s.rows[i := FullRow(row, s.width)] == s.rows
  {
    if st.prevLength > 0 {
      UnchangedRowIsSame(st, row, s.width);
    }
  }

  lemma {:induction false} SendDirectShows(
    cfg: Config, s: Sweep, start: Vt, vt: Vt, columns: nat, rows: nat, lines: seq<Line>, line: nat, cursorLine: int,
    cursorColumn: int)
    returns (r: Vt)
    requires !cfg.plainMode && cfg.outputColor
    requires Mirrored(s, start, vt, columns, rows) && line <= |lines| <= rows && |lines| <= BUFFER_LINE_COUNT
    requires forall i :: 0 <= i < |lines| ==> WellMarked(lines[i]) && 1 <= |lines[i]| <= columns
    ensures var sent := SendDirect(cfg, s, lines, line, cursorLine, cursorColumn);
      Mirrored(sent, start, r, columns, rows) && (CursorExact(s.emitter, vt) ==> CursorExact(sent.emitter, r))
    ensures |r.screen.rows| == |vt.screen.rows| >= |lines|
    ensures forall i :: line <= i < |lines| ==> r.screen.rows[i] == FullRow(lines[i], columns)
    ensures forall i :: 0 <= i < line ==> r.screen.rows[i] == vt.screen.rows[i]
    decreases |lines| - line
  {
    hide VisitDirect, FullRow, WellMarked, RowOk, Feed, RingShows, RingOk, SendLine, StateOk;
    assert |vt.screen.rows| == rows;
    if line == |lines| {
      r := vt;
    } else {
      var column := if line == cursorLine then cursorColumn else -1;
      var next := VisitDirect(cfg, s, line, lines[line], column);
      var vt1 := VisitShows(cfg, s, start, vt, columns, rows, line, lines[line], column);
      r := SendDirectShows(cfg, next, start, vt1, columns, rows, lines, line + 1, cursorLine, cursorColumn);
    }
  }

  /** The lines shown so far stay when the cursor is hidden before a scrape. */
  lemma {:induction false} HideBefore(cfg: Config, s: Sweep, start: Vt, vt: Vt, columns: nat, rows: nat) returns (r: Vt)
    requires Mirrored(s, start, vt, columns, rows)
    ensures var hidden := HideCursor(cfg, s.emitter);
      Mirrored(Sweep(hidden.state, s.ring, s.output + hidden.output), start, r, columns, rows)
      && (CursorExact(s.emitter, vt) ==> CursorExact(hidden.state, r))
      && (!cfg.plainMode ==> !r.screen.visible && hidden.state.cursorHidden)
  {
    hide FullRow, WellMarked, RowOk, Feed, RingOk;
    r := HideShows(cfg, s.emitter, vt, -|vt.screen.history|);
    FeedConcat(start, s.output, HideCursor(cfg, s.emitter).output);
    forall i | 0 <= i < |s.ring|
      ensures Shows(s.ring[i], r.screen, i)
    {
      assert Shows(s.ring[i], vt.screen, i);
    }
  }

  lemma {:induction false} ExtendsInPlace(before: Screen, after: Screen)
    requires ScreenOk(before) && ScreenOk(after) && Extends(before, after) && |after.history| == |before.history|
    ensures after.history == before.history && after.rows == before.rows
  {
    var h := |before.history|;
    forall i | 0 <= i < |Transcript(before)|
      ensures Transcript(after)[i] == Transcript(before)[i]
    {
      assert RowKept(before, after, i);
    }
    assert Transcript(after) == Transcript(before);
    assert before.history == Transcript(before)[..h] == after.history;
    assert before.rows == Transcript(before)[h..] == after.rows;
  }

  lemma {:induction false} ShowAfter(
    cfg: Config, s: Sweep, start: Vt, vt: Vt, columns: nat, rows: nat, column: nat, line: nat)
    returns (r: Vt)
    requires !cfg.plainMode && Mirrored(s, start, vt, columns, rows) && column < columns && line < rows
    ensures var shown := ShowCursor(cfg, s.emitter, column, line);
      Mirrored(Sweep(shown.state, s.ring, s.output + shown.output), start, r, columns, rows)
      && (CursorExact(s.emitter, vt) ==> CursorExact(shown.state, r))
    ensures r.screen.rows == vt.screen.rows && r.screen.x == column && r.screen.y == line && !r.screen.wrap
    ensures CursorExact(s.emitter, vt) ==> r.screen.visible
  {
    hide FullRow, WellMarked, RowOk, Feed, RingOk;
    var h := |vt.screen.history|;
    r := ShowCursorShows(cfg, s.emitter, vt, -h, column, line);
    ExtendsInPlace(vt.screen, r.screen);
    FeedConcat(start, s.output, ShowCursor(cfg, s.emitter, column, line).output);
    forall i | 0 <= i < |s.ring|
      ensures Shows(s.ring[i], r.screen, i)
    {
      assert Shows(s.ring[i], vt.screen, i);
    }
  }

  /** What the terminal must look like once `frame` has been scraped. */
  ghost predicate ShowsFrame(frame: Frame, s: Screen, columns: nat, rows: nat)
    requires Drawable(frame, columns, rows)
  {
    var lines, area := DirectRows(frame, columns, rows), DirectRect(frame.info, columns, rows);
    && |lines| <= |s.rows|
    && (forall i :: 0 <= i < |lines| ==> s.rows[i] == FullRow(lines[i], columns))
    && (frame.cursorVisible && CursorIn(frame.info, area) ==>
          s.x == frame.info.cursorX - area.left && s.y == frame.info.cursorY - area.top && !s.wrap)
  }

  /** The terminal's cursor is visible exactly when the console's is and lies in the scraped rectangle. */
  ghost predicate ShowsCursor(frame: Frame, s: Screen, columns: nat, rows: nat) {
    s.visible == (frame.cursorVisible && CursorIn(frame.info, DirectRect(frame.info, columns, rows)))
  }

  lemma {:induction false} HiddenAfterSweep(
    cfg: Config, s: Sweep, lines: seq<Line>, line: nat, cursorLine: int, cursorColumn: int)
    requires RingOk(s.ring) && StateOk(s.emitter) && line <= |lines| <= BUFFER_LINE_COUNT
    requires forall i :: 0 <= i < |lines| ==> lines[i] != []
    requires s.emitter.cursorHidden
    ensures SendDirect(cfg, s, lines, line, cursorLine, cursorColumn).emitter.cursorHidden
    decreases |lines| - line
  {
    hide SendLine, RingOk, Changed, SetLine;
    if line < |lines| {
      var column := if line == cursorLine then cursorColumn else -1;
      HiddenAfterSend(cfg, s.emitter, line, lines[line], column);
      HiddenAfterSweep(cfg, VisitDirect(cfg, s, line, lines[line], column), lines, line + 1, cursorLine, cursorColumn);
    }
  }

  /** One scrape: the terminal shows the whole frame, whichever of its lines were sent. */
  lemma {:induction false} DirectScrapeShows(
    cfg: Config, s: Sweep, start: Vt, vt: Vt, frame: Frame, columns: nat, rows: nat)
    returns (r: Vt)
    requires !cfg.plainMode && cfg.outputColor
    requires Mirrored(s, start, vt, columns, rows) && Drawable(frame, columns, rows)
    ensures var next := DirectScrape(cfg, s, frame, columns, rows);
      && Mirrored(next, start, r, columns, rows)
      && (CursorExact(s.emitter, vt) ==> CursorExact(next.emitter, r) && ShowsCursor(frame, r.screen, columns, rows))
    ensures ShowsFrame(frame, r.screen, columns, rows)
  {
    hide SendDirect, FullRow, WellMarked, RowOk, Feed, RingOk, RingShows, MaskedArea;
    var area, lines := DirectRect(frame.info, columns, rows), DirectRows(frame, columns, rows);
    var show := frame.cursorVisible && CursorIn(frame.info, area);
    var cursorColumn := if show then frame.info.cursorX - area.left else -1;
    var cursorLine := if show then frame.info.cursorY - area.top else -1;
    assert |vt.screen.rows| == rows;
    if show {
      assert s.output + [] == s.output;
      var vt1 := SendDirectShows(cfg, s, start, vt, columns, rows, lines, 0, cursorLine, cursorColumn);
      var sent := SendDirect(cfg, s, lines, 0, cursorLine, cursorColumn);
      r := ShowAfter(cfg, sent, start, vt1, columns, rows, cursorColumn, cursorLine);
    } else {
      var hidden := HideCursor(cfg, s.emitter);
      var s1 := Sweep(hidden.state, s.ring, s.output + hidden.output);
      var vt1 := HideBefore(cfg, s, start, vt, columns, rows);
      r := SendDirectShows(cfg, s1, start, vt1, columns, rows, lines, 0, cursorLine, cursorColumn);
      HiddenAfterSweep(cfg, s1, lines, 0, cursorLine, cursorColumn);
    }
  }

  ghost predicate AllDrawable(frames: seq<Frame>, columns: nat, rows: nat)
    ensures AllDrawable(frames, columns, rows) ==> forall i :: 0 <= i < |frames| ==> FrameOk(frames[i], columns, rows)
  {
    forall i :: 0 <= i < |frames| ==> Drawable(frames[i], columns, rows)
  }

  lemma {:induction false} DirectRunShows(
    cfg: Config, s: Sweep, start: Vt, vt: Vt, frames: seq<Frame>, columns: nat, rows: nat)
    returns (r: Vt)
    requires !cfg.plainMode && cfg.outputColor && Mirrored(s, start, vt, columns, rows)
    requires AllDrawable(frames, columns, rows)
    ensures Mirrored(DirectRun(cfg, s, frames, columns, rows), start, r, columns, rows)
    ensures frames == [] ==> r == vt
    ensures frames != [] ==> ShowsFrame(frames[|frames| - 1], r.screen, columns, rows)
    ensures CursorExact(s.emitter, vt) && frames != [] ==> ShowsCursor(frames[|frames| - 1], r.screen, columns, rows)
    decreases |frames|
  {
    hide DirectScrape, ShowsFrame, ShowsCursor, RingOk, RingShows, WellMarked, RowOk, Feed, CursorExact;
    if frames == [] {
      r := vt;
    } else {
      assert Drawable(frames[0], columns, rows);
      var vt1 := DirectScrapeShows(cfg, s, start, vt, frames[0], columns, rows);
      r := DirectRunShows(cfg, DirectScrape(cfg, s, frames[0], columns, rows), start, vt1, frames[1..], columns, rows);
    }
  }

  /**
    Direct mode as a whole. From the clearing reset on, whatever the terminal showed before, any run of scrapes leaves
    the last frame on the screen and the cursor where the console has it, although unchanged lines are not sent again.
   */
  lemma {:induction false} DirectModeMirrors(cfg: Config, e: State, start: Vt, frames: seq<Frame>) returns (r: Vt)
    requires !cfg.plainMode && cfg.outputColor && VtOk(start) && start.parser.Text? && frames != []
    requires AllDrawable(frames, start.screen.width, start.screen.height)
    ensures var columns, rows, reset := start.screen.width, start.screen.height, Reset(cfg, e, true, 0);
      var last, begun := frames[|frames| - 1], Sweep(reset.state, ForgottenRing(), reset.output);
      var run := DirectRun(cfg, begun, frames, columns, rows);
      && Feed(start, run.output) == Some(r)
      && ShowsFrame(last, r.screen, columns, rows)
      && (start.screen.visible ==> ShowsCursor(last, r.screen, columns, rows))
  {
    hide DirectRun, ShowsFrame, ShowsCursor, RowOk, Feed, WellMarked;
    var columns, rows, reset := start.screen.width, start.screen.height, Reset(cfg, e, true, 0);
    var vt := ClearingResetShows(cfg, e, start, 0);
    r := DirectRunShows(cfg, Sweep(reset.state, ForgottenRing(), reset.output), start, vt, frames, columns, rows);
  }

  // ---------- An idle console ----------

  /** The first `n` lines have just been visited. */
  ghost predicate Settled(ring: seq<LineState>, lines: seq<Line>, n: nat)
    requires RingOk(ring) && n <= |lines| <= BUFFER_LINE_COUNT
    requires forall i :: 0 <= i < |lines| ==> lines[i] != []
  {
    forall i :: 0 <= i < n ==> !Changed(ring[i], lines[i]) && SetLine(ring[i], lines[i]) == ring[i]
  }

  lemma {:induction false} SweepSettles(
    cfg: Config, s: Sweep, lines: seq<Line>, line: nat, cursorLine: int, cursorColumn: int)
    requires RingOk(s.ring) && StateOk(s.emitter) && line <= |lines| <= BUFFER_LINE_COUNT
    requires forall i :: 0 <= i < |lines| ==> lines[i] != []
    requires Settled(s.ring, lines, line)
    ensures Settled(SendDirect(cfg, s, lines, line, cursorLine, cursorColumn).ring, lines, |lines|)
    decreases |lines| - line
  {
    hide SendLine, Changed, SetLine;
    if line < |lines| {
      var column := if line == cursorLine then cursorColumn else -1;
      SetIsUnchanged(s.ring[line], lines[line]);
      SweepSettles(cfg, VisitDirect(cfg, s, line, lines[line], column), lines, line + 1, cursorLine, cursorColumn);
    }
  }

  lemma {:induction false} SettledSweepIsQuiet(
    cfg: Config, s: Sweep, lines: seq<Line>, line: nat, cursorLine: int, cursorColumn: int)
    requires RingOk(s.ring) && StateOk(s.emitter) && line <= |lines| <= BUFFER_LINE_COUNT
    requires forall i :: 0 <= i < |lines| ==> lines[i] != []
    requires Settled(s.ring, lines, |lines|)
    ensures SendDirect(cfg, s, lines, line, cursorLine, cursorColumn) == s
    decreases |lines| - line
  {
    hide SendLine, Changed, SetLine;
    if line < |lines| {
      var column := if line == cursorLine then cursorColumn else -1;
      assert s.output + [] == s.output;
      assert s.ring[line := s.ring[line]] == s.ring;
      SettledSweepIsQuiet(cfg, VisitDirect(cfg, s, line, lines[line], column), lines, line + 1, cursorLine,
                          cursorColumn);
    }
  }

  lemma {:induction false} HideAgain(cfg: Config, e: State)
    requires cfg.plainMode || e.cursorHidden
    ensures HideCursor(cfg, e) == Step(e, [])
  {
  }

  lemma {:induction false} HideHides(cfg: Config, e: State)
    ensures !cfg.plainMode ==> HideCursor(cfg, e).state.cursorHidden
  {
  }

  lemma {:induction false} ShowTwice(cfg: Config, e: State, column: nat, line: int)
    requires StateOk(e)
    ensures var shown := ShowCursor(cfg, e, column, line).state;
      ShowCursor(cfg, shown, column, line) == Step(shown, [])
  {
    hide Decimal, CsiBytes;
  }

  /** A console that has not changed costs nothing: scraping the same frame again writes no byte and changes nothing. */
  lemma {:induction false} IdleScrapeIsQuiet(cfg: Config, s: Sweep, frame: Frame, columns: nat, rows: nat)
    requires RingOk(s.ring) && StateOk(s.emitter) && FrameOk(frame, columns, rows)
    ensures var once := DirectScrape(cfg, s, frame, columns, rows);
      DirectScrape(cfg, once, frame, columns, rows) == once
  {
    hide SendDirect, HideCursor, ShowCursor, MaskedArea, Settled;
    var area, lines := DirectRect(frame.info, columns, rows), DirectRows(frame, columns, rows);
    var show := frame.cursorVisible && CursorIn(frame.info, area);
    var cursorColumn := if show then frame.info.cursorX - area.left else -1;
    var cursorLine := if show then frame.info.cursorY - area.top else -1;
    var once := DirectScrape(cfg, s, frame, columns, rows);
    NothingSettled(s.ring, lines);
    assert once.output + [] == once.output;
    if show {
      assert s.output + [] == s.output;
      var sent := SendDirect(cfg, s, lines, 0, cursorLine, cursorColumn);
      SweepSettles(cfg, s, lines, 0, cursorLine, cursorColumn);
      ShowTwice(cfg, sent.emitter, cursorColumn, cursorLine);
      SettledSweepIsQuiet(cfg, once, lines, 0, cursorLine, cursorColumn);
    } else {
      var hidden := HideCursor(cfg, s.emitter);
      var s1 := Sweep(hidden.state, s.ring, s.output + hidden.output);
      SweepSettles(cfg, s1, lines, 0, cursorLine, cursorColumn);
      HideHides(cfg, s.emitter);
      if !cfg.plainMode {
        HiddenAfterSweep(cfg, s1, lines, 0, cursorLine, cursorColumn);
      }
      HideAgain(cfg, once.emitter);
      SettledSweepIsQuiet(cfg, once, lines, 0, cursorLine, cursorColumn);
    }
  }

  lemma {:induction false} NothingSettled(ring: seq<LineState>, lines: seq<Line>)
    requires RingOk(ring) && |lines| <= BUFFER_LINE_COUNT && forall i :: 0 <= i < |lines| ==> lines[i] != []
    ensures Settled(ring, lines, 0)
  {
  }
}
