/** Scrolling mode: after every scrape of any run the terminal shows the lines scraped, each under its own number. */
module ScrollMirror {
  import opened Basics
  import opened VtScreen
  import opened VtParser
  import opened VtTokens
  import opened Color
  import opened Emitter
  import opened LineMirror
  import opened EmitterMirror
  import opened ConsoleLine
  import opened Scraping

  function Slot(ring: seq<LineState>, line: nat): LineState
    requires |ring| == BUFFER_LINE_COUNT
  {
    ring[line % BUFFER_LINE_COUNT]
  }

  /** Row `i` of `rows` shows the line remembered. */
  ghost predicate Held(st: LineState, rows: seq<Row>, i: int, width: nat) {
    && 0 < st.prevLength <= |st.prevData| && st.prevLength <= width && WellMarked(Seen(st))
    && 0 <= i < |rows| && rows[i] == FullRow(Seen(st), width)
  }

  /** The slots of the lines `first` to `last` hold what the terminal shows on those very lines. */
  ghost predicate RingHolds(ring: seq<LineState>, first: nat, last: int, s: Screen, origin: int)
    requires |ring| == BUFFER_LINE_COUNT
  {
    forall line :: first <= line <= last ==> Held(Slot(ring, line), Transcript(s), line - origin, s.width)
  }

  /** Everything written so far has brought the terminal to `vt`. */
  ghost predicate Written(s: Sweep, start: Vt, vt: Vt, origin: int)
    ensures Written(s, start, vt, origin) ==>
      RingOk(s.ring) && |s.ring| == BUFFER_LINE_COUNT && StateOk(s.emitter) && VtOk(vt)
  {
    && RingOk(s.ring) && Synced(s.emitter, vt, origin)
    && VtOk(start) && Feed(start, s.output) == Some(vt)
  }

  /** The line below everything found dirty or counted as scraped. */
  function Bottom(s: Scroll): int {
    Max(s.dirtyCount + s.scrolled, s.scraped)
  }

  /** From row `i` of the transcript on there are only spaces. */
  ghost predicate EmptyFrom(s: Screen, i: int) {
    forall j :: 0 <= j < |Transcript(s)| && i <= j ==> Empty(Transcript(s)[j])
  }

  ghost predicate ScrollMirrored(s: Scroll, start: Vt, vt: Vt, origin: int) {
    && Written(s.sweep, start, vt, origin)
    && 0 <= s.scraped && origin + |vt.screen.history| <= s.scraped
    && RingHolds(s.sweep.ring, s.scraped, s.maxBuffered, vt.screen, origin)
    && EmptyFrom(vt.screen, Bottom(s) - origin)
  }

  // ---------- One line ----------

  /** Lines less than a ring apart have slots of their own. */
  lemma {:induction false} SlotsDiffer(a: nat, b: nat)
    requires a % BUFFER_LINE_COUNT == b % BUFFER_LINE_COUNT && -BUFFER_LINE_COUNT < a - b < BUFFER_LINE_COUNT
    ensures a == b
  {
  }

  lemma {:induction false} HeldStays(st: LineState, before: Screen, after: Screen, first: int, stop: int, i: int)
    requires Held(st, Transcript(before), i, before.width) && OnlyChanged(before, after, first, stop)
    requires !(first <= i < stop)
    ensures Held(st, Transcript(after), i, after.width)
  {
    assert RowKept(before, after, i);
  }

  lemma {:induction false} VisitHolds(
    ring: seq<LineState>, before: Screen, after: Screen, origin: int, first: nat, last: int, line: nat, row: Line)
    requires RingOk(ring) && RingHolds(ring, first, last, before, origin)
    requires first <= line <= last + 1 && Max(last, line) < first + BUFFER_LINE_COUNT
    requires WellMarked(row) && 1 <= |row| <= after.width
    requires OnlyChanged(before, after, line - origin, line - origin + 1)
    requires ShownAt(after, line - origin, FullRow(row, after.width))
    ensures var slot := line % BUFFER_LINE_COUNT;
      RingHolds(ring[slot := SetLine(ring[slot], row)], first, Max(last, line), after, origin)
  {
    hide FullRow, WellMarked, SetLine, Transcript;
    var slot := line % BUFFER_LINE_COUNT;
    var next := ring[slot := SetLine(ring[slot], row)];
    forall l | first <= l <= Max(last, line)
      ensures Held(Slot(next, l), Transcript(after), l - origin, after.width)
    {
      if l == line {
        SetIsSeen(ring[slot], row);
      } else {
        if l % BUFFER_LINE_COUNT == slot {
          SlotsDiffer(l, line);
        }
        assert Held(Slot(ring, l), Transcript(before), l - origin, before.width);
        HeldStays(Slot(ring, l), before, after, line - origin, line - origin + 1, l - origin);
      }
    }
  }

  lemma {:induction false} SetIsSeen(st: LineState, row: Line)
    requires row != []
    ensures var next := SetLine(st, row);
      0 < next.prevLength <= |next.prevData| && Seen(next) == row && next.prevLength == |row|
  {
  }

  lemma {:induction false} UnchangedIsHeld(st: LineState, row: Line, rows: seq<Row>, i: int, width: nat)
    requires LineStateOk(st) && row != [] && Held(st, rows, i, width) && !Changed(st, row)
    requires WellMarked(row) && |row| <= width
    ensures rows[i] == FullRow(row, width)
  {
    UnchangedRowIsSame(st, row, width);
  }

  lemma {:induction false} LineUnchanged(before: Screen, after: Screen, i: int)
    requires Extends(before, after)
    ensures OnlyChanged(before, after, i, i + 1)
  {
  }

  lemma {:induction false} HistoryKept(before: Screen, after: Screen, first: int, stop: int)
    requires OnlyChanged(before, after, first, stop) && |before.history| <= Min(first, |after.history|)
    ensures before.history <= after.history
  {
    forall i | 0 <= i < |before.history|
      ensures before.history[i] == after.history[i]
    {
      assert RowKept(before, after, i);
    }
  }

  /** One visit: the line is shown afterwards, sent or not, and no other line changes. */
  lemma {:induction false} VisitShows(
    cfg: Config, s: Sweep, start: Vt, vt: Vt, origin: int, first: nat, last: int, line: nat, row: Line, send: bool,
    cursorColumn: int)
    returns (r: Vt)
    requires !cfg.plainMode && cfg.outputColor && Written(s, start, vt, origin)
    requires RingHolds(s.ring, first, last, vt.screen, origin)
    requires origin + |vt.screen.history| <= line && origin <= first <= line <= last + 1
        && Max(last, line) < first + BUFFER_LINE_COUNT
    requires WellMarked(row) && 1 <= |row| <= vt.screen.width
    requires send || (line <= last && !Changed(Slot(s.ring, line), row))
    ensures var next := VisitRow(cfg, s, line, row, send, cursorColumn);
      && Written(next, start, r, origin)
      && RingHolds(next.ring, first, Max(last, line), r.screen, origin)
      && (CursorExact(s.emitter, vt) ==> CursorExact(next.emitter, r))
    ensures OnlyChanged(vt.screen, r.screen, line - origin, line - origin + 1)
    ensures ShownAt(r.screen, line - origin, FullRow(row, vt.screen.width))
    ensures vt.screen.history <= r.screen.history
    ensures |r.screen.history| <= Max(|vt.screen.history|, line - origin - vt.screen.height + 1)
  {
    hide SendLine, FullRow, WellMarked, RowOk, Feed, Changed, SetLine, Transcript, OnlyChanged;
    if send {
      var step := SendLine(cfg, s.emitter, line, row, cursorColumn);
      r := SendLineShows(cfg, s.emitter, vt, origin, line, row, cursorColumn);
      FeedConcat(start, s.output, step.output);
    } else {
      r := vt;
      assert s.output + [] == s.output;
      assert Held(Slot(s.ring, line), Transcript(vt.screen), line - origin, vt.screen.width);
      UnchangedIsHeld(Slot(s.ring, line), row, Transcript(vt.screen), line - origin, vt.screen.width);
      SameTranscript(vt.screen, r.screen);
      LineUnchanged(vt.screen, r.screen, line - origin);
    }
    HistoryKept(vt.screen, r.screen, line - origin, line - origin + 1);
    VisitHolds(s.ring, vt.screen, r.screen, origin, first, last, line, row);
  }

  // ---------- All lines ----------

  /** The rows from `first` to `stop` of `rows` are shown, row `i` on the transcript's row `i + shift`. */
  ghost predicate RowsShown(rows: seq<Line>, s: Screen, first: int, stop: int, shift: int)
    requires 0 <= first && stop <= |rows| && forall i :: 0 <= i < |rows| ==> 1 <= |rows[i]| <= s.width
  {
    forall i :: first <= i < stop ==> ShownAt(s, i + shift, FullRow(rows[i], s.width))
  }

  ghost predicate AllMarked(rows: seq<Line>, first: int, stop: int) {
    forall i :: 0 <= i < |rows| && first <= i < stop ==> WellMarked(rows[i])
  }

  lemma {:induction false} RowsShownStay(rows: seq<Line>, before: Screen, after: Screen, i: nat, stop: int, shift: int)
    requires stop <= |rows| && forall i :: 0 <= i < |rows| ==> 1 <= |rows[i]| <= after.width
    requires i < |rows| && ShownAt(before, i + shift, FullRow(rows[i], after.width))
    requires OnlyChanged(before, after, i + 1 + shift, stop + shift)
    requires RowsShown(rows, after, i + 1, stop, shift)
    ensures RowsShown(rows, after, i, stop, shift)
  {
    hide Transcript, FullRow, Empty;
    assert RowKept(before, after, i + shift);
  }

  lemma {:induction false} SweepShows(
    cfg: Config, s: Sweep, start: Vt, vt: Vt, origin: int, rows: seq<Line>, scrolled: nat, maxBuffered: int, first: nat,
    line: nat, stop: nat, saw: bool, cursorLine: int, cursorColumn: int)
    returns (r: Vt)
    requires !cfg.plainMode && cfg.outputColor && Written(s, start, vt, origin)
    requires RingHolds(s.ring, first, Max(maxBuffered, line - 1), vt.screen, origin)
    requires origin + |vt.screen.history| <= line && origin <= first && scrolled <= first <= line
    requires Max(maxBuffered, stop - 1) < first + BUFFER_LINE_COUNT
    requires line <= stop <= scrolled + |rows|
    requires forall i :: 0 <= i < |rows| ==> 1 <= |rows[i]| <= vt.screen.width
    requires AllMarked(rows, line - scrolled, stop - scrolled)
    ensures var swept := SweepLines(cfg, s, rows, scrolled, maxBuffered, line, stop, saw, cursorLine, cursorColumn);
      && Written(swept, start, r, origin)
      && RingHolds(swept.ring, first, Max(maxBuffered, stop - 1), r.screen, origin)
      && (CursorExact(s.emitter, vt) ==> CursorExact(swept.emitter, r))
    ensures OnlyChanged(vt.screen, r.screen, line - origin, stop - origin)
    ensures vt.screen.history <= r.screen.history
    ensures |r.screen.history| <= Max(|vt.screen.history|, stop - origin - vt.screen.height)
    ensures RowsShown(rows, r.screen, line - scrolled, stop - scrolled, scrolled - origin)
    decreases stop - line
  {
    hide VisitRow, FullRow, WellMarked, RowOk, Feed, Changed, Transcript, RingHolds, OnlyChanged, ShownAt, StateOk,
        Written, VtOk;
    if line == stop {
      r := vt;
      SameTranscript(vt.screen, r.screen);
      NothingChanged(vt.screen, r.screen, line - origin);
    } else {
      var row, last := rows[line - scrolled], Max(maxBuffered, line - 1);
      var send := saw || line > maxBuffered || Changed(s.ring[line % BUFFER_LINE_COUNT], row);
      var column := if line == cursorLine then cursorColumn else -1;
      var vt1 := VisitShows(cfg, s, start, vt, origin, first, last, line, row, send, column);
      r := SweepShows(cfg, VisitRow(cfg, s, line, row, send, column), start, vt1, origin, rows, scrolled, maxBuffered,
                      first, line + 1, stop, send, cursorLine, cursorColumn);
      ChangedInTurn(vt.screen, vt1.screen, r.screen, line - origin, line + 1 - origin, stop - origin);
      RowsShownStay(rows, vt1.screen, r.screen, line - scrolled, stop - scrolled, scrolled - origin);
    }
  }

  /** Lines that show what they showed before are not sent again, down to the first that does not. */
  lemma {:induction false} UnchangedNotSent(
    cfg: Config, s: Sweep, rows: seq<Line>, scrolled: nat, maxBuffered: int, line: nat, stop: nat, cursorLine: int,
    cursorColumn: int)
    requires RingOk(s.ring) && StateOk(s.emitter) && scrolled <= line <= stop <= Min(scrolled + |rows|, maxBuffered + 1)
    requires stop - line <= BUFFER_LINE_COUNT && forall i :: 0 <= i < |rows| ==> rows[i] != []
    requires forall l :: line <= l < stop ==> !Changed(Slot(s.ring, l), rows[l - scrolled])
    ensures var r := SweepLines(cfg, s, rows, scrolled, maxBuffered, line, stop, false, cursorLine, cursorColumn);
      r.emitter == s.emitter && r.output == s.output
    decreases stop - line
  {
    hide Changed, SendLine, SetLine;
    if line < stop {
      var column := if line == cursorLine then cursorColumn else -1;
      assert !Changed(Slot(s.ring, line), rows[line - scrolled]);
      var next := VisitRow(cfg, s, line, rows[line - scrolled], false, column);
      forall l | line + 1 <= l < stop
        ensures !Changed(Slot(next.ring, l), rows[l - scrolled])
      {
        if l % BUFFER_LINE_COUNT == line % BUFFER_LINE_COUNT {
          SlotsDiffer(l, line);
        }
        assert Slot(next.ring, l) == Slot(s.ring, l);
      }
      UnchangedNotSent(cfg, next, rows, scrolled, maxBuffered, line + 1, stop, cursorLine, cursorColumn);
    }
  }

  lemma {:induction false} NothingChanged(before: Screen, after: Screen, first: int)
    requires Extends(before, after)
    ensures OnlyChanged(before, after, first, first)
  {
  }

  // ---------- Around the lines ----------

  lemma {:induction false} RingStays(
    ring: seq<LineState>, first: nat, last: int, before: Screen, after: Screen, origin: int)
    requires |ring| == BUFFER_LINE_COUNT && RingHolds(ring, first, last, before, origin)
    requires Extends(before, after)
    ensures RingHolds(ring, first, last, after, origin)
  {
    hide Held, Transcript;
    forall line | first <= line <= last
      ensures Held(Slot(ring, line), Transcript(after), line - origin, after.width)
    {
      HeldStays(Slot(ring, line), before, after, 0, 0, line - origin);
    }
  }

  lemma {:induction false} RingWidens(ring: seq<LineState>, first: nat, last: int, s: Screen, origin: int)
    requires |ring| == BUFFER_LINE_COUNT && RingHolds(ring, first, last, s, origin)
    ensures RingHolds(ring, first, Max(last, first - 1), s, origin)
  {
  }

  /** Fewer lines ask for less. */
  lemma {:induction false} RingNarrows(
    ring: seq<LineState>, first: nat, last: int, first': nat, last': int, s: Screen, origin: int)
    requires |ring| == BUFFER_LINE_COUNT && RingHolds(ring, first, last, s, origin) && first <= first' && last' <= last
    ensures RingHolds(ring, first', last', s, origin)
  {
  }

  lemma {:induction false} HideWritten(cfg: Config, s: Sweep, start: Vt, vt: Vt, origin: int) returns (r: Vt)
    requires Written(s, start, vt, origin)
    ensures var hidden := HideCursor(cfg, s.emitter);
      Written(Sweep(hidden.state, s.ring, s.output + hidden.output), start, r, origin)
      && (CursorExact(s.emitter, vt) ==> CursorExact(hidden.state, r))
      && (!cfg.plainMode ==> hidden.state.cursorHidden && CursorExact(hidden.state, r))
    ensures Extends(vt.screen, r.screen) && r.screen.history == vt.screen.history
  {
    hide RingOk, Feed, RowOk, OnlyChanged;
    r := HideShows(cfg, s.emitter, vt, origin);
    SameTranscript(vt.screen, r.screen);
    FeedConcat(start, s.output, HideCursor(cfg, s.emitter).output);
  }

  /** The cursor stands at `column` of the transcript's row `i`. */
  ghost predicate CursorAt(s: Screen, column: int, i: int) {
    AbsLine(s) == i && s.x == column && !s.wrap
  }

  lemma {:induction false} ShowWritten(cfg: Config, s: Sweep, start: Vt, vt: Vt, origin: int, column: nat, line: int)
    returns (r: Vt)
    requires !cfg.plainMode && Written(s, start, vt, origin)
    requires line - origin >= |vt.screen.history| && column < vt.screen.width
    ensures var shown := ShowCursor(cfg, s.emitter, column, line);
      Written(Sweep(shown.state, s.ring, s.output + shown.output), start, r, origin)
      && (CursorExact(s.emitter, vt) ==> CursorExact(shown.state, r) && r.screen.visible)
    ensures Extends(vt.screen, r.screen) && CursorAt(r.screen, column, line - origin)
    ensures vt.screen.history <= r.screen.history
    ensures |r.screen.history| == Max(|vt.screen.history|, line - origin - vt.screen.height + 1)
  {
    hide RingOk, Feed, RowOk, OnlyChanged;
    r := ShowCursorShows(cfg, s.emitter, vt, origin, column, line);
    FeedConcat(start, s.output, ShowCursor(cfg, s.emitter, column, line).output);
    NothingChanged(vt.screen, r.screen, |vt.screen.history|);
    HistoryKept(vt.screen, r.screen, |vt.screen.history|, |vt.screen.history|);
  }

  // ---------- One scrape ----------

  /** What a scrape reads fits the terminal, and console and terminal agree about every row it compares or sends. */
  ghost predicate Sendable(s: Scroll, view: View, width: nat, height: nat)
    requires ViewOk(view)
  {
    && view.info.bufferWidth <= width && view.info.window.height <= height
    && AllMarked(ScrollRows(view), s.scraped - s.scrolled, StopLine(s, view) - s.scrolled)
  }

  /** The console's cursor is one the terminal has to show. */
  predicate CursorShown(view: View) {
    view.cursorVisible && CursorIn(view.info, view.info.window)
  }

  /**
    The terminal's cursor is visible exactly if it has to be. If it has to be, the emitter must have known before
    whether it was.
   */
  ghost predicate CursorFollows(view: View, before: State, vt: Vt, after: State, r: Vt) {
    CursorExact(before, vt) || !CursorShown(view) ==> CursorExact(after, r) && r.screen.visible == CursorShown(view)
  }

  lemma {:induction false} HiddenAfterSweep(
    cfg: Config, s: Sweep, rows: seq<Line>, scrolled: nat, maxBuffered: int, line: int, stop: int, saw: bool,
    cursorLine: int, cursorColumn: int)
    requires RingOk(s.ring) && StateOk(s.emitter) && scrolled <= line && stop - scrolled <= |rows|
    requires forall i :: 0 <= i < |rows| ==> rows[i] != []
    requires s.emitter.cursorHidden
    ensures SweepLines(cfg, s, rows, scrolled, maxBuffered, line, stop, saw, cursorLine, cursorColumn)
              .emitter.cursorHidden
    decreases stop - line
  {
    hide SendLine, Changed, SetLine;
    if line < stop {
      var row := rows[line - scrolled];
      var send := saw || line > maxBuffered || Changed(s.ring[line % BUFFER_LINE_COUNT], row);
      var column := if line == cursorLine then cursorColumn else -1;
      HiddenAfterSend(cfg, s.emitter, line, row, column);
      HiddenAfterSweep(cfg, VisitRow(cfg, s, line, row, send, column), rows, scrolled, maxBuffered, line + 1, stop,
                       send, cursorLine, cursorColumn);
    }
  }

  lemma {:induction false} WriteOutShows(cfg: Config, s: Scroll, start: Vt, vt: Vt, origin: int, view: View)
    returns (r: Vt)
    requires !cfg.plainMode && cfg.outputColor
    requires Writable(s, view) && ViewOk(view) && Sendable(s, view, vt.screen.width, vt.screen.height)
    requires ScrollMirrored(s, start, vt, origin)
    ensures ScrollMirrored(WriteOut(cfg, s, view), start, r, origin)
    ensures OnlyChanged(vt.screen, r.screen, s.scraped - origin, StopLine(s, view) - origin)
    ensures vt.screen.history <= r.screen.history
    ensures RowsShown(ScrollRows(view), r.screen, s.scraped - s.scrolled, StopLine(s, view) - s.scrolled,
                      s.scrolled - origin)
    ensures view.cursorVisible && CursorIn(view.info, view.info.window) ==>
      CursorAt(r.screen, view.info.cursorX, view.info.cursorY + s.scrolled - origin)
    ensures CursorFollows(view, s.sweep.emitter, vt, WriteOut(cfg, s, view).sweep.emitter, r)
  {
    hide SweepLines, FullRow, WellMarked, RowOk, Feed, Changed, Transcript, Held, StateOk, Synced, ShowCursor,
        HideCursor, RingHolds, ScrollRows, OnlyChanged, RowsShown, EmptyFrom, RingOk, VtOk, Written;
    var info, rows := view.info, ScrollRows(view);
    var show := view.cursorVisible && CursorIn(info, info.window);
    var cursorLine := if show then info.cursorY + s.scrolled else -1;
    var cursorColumn := if show then info.cursorX else -1;
    var first, stop := s.scraped, StopLine(s, view);
    var s1, vt1 := s.sweep, vt;
    if show {
      assert s.sweep.output + [] == s.sweep.output;
      SameTranscript(vt.screen, vt1.screen);
    } else {
      var hidden := HideCursor(cfg, s.sweep.emitter);
      s1 := Sweep(hidden.state, s.sweep.ring, s.sweep.output + hidden.output);
      vt1 := HideWritten(cfg, s.sweep, start, vt, origin);
      RingStays(s.sweep.ring, first, s.maxBuffered, vt.screen, vt1.screen, origin);
    }
    RingWidens(s1.ring, first, s.maxBuffered, vt1.screen, origin);
    var vt2 := SweepShows(cfg, s1, start, vt1, origin, rows, s.scrolled, s.maxBuffered, first, first, stop, false,
                          cursorLine, cursorColumn);
    var s2 := SweepLines(cfg, s1, rows, s.scrolled, s.maxBuffered, first, stop, false, cursorLine, cursorColumn);
    if show {
      r := ShowWritten(cfg, s2, start, vt2, origin, cursorColumn, cursorLine);
      RingStays(s2.ring, first, Max(s.maxBuffered, stop - 1), vt2.screen, r.screen, origin);
    } else {
      r := vt2;
      assert s2.output + [] == s2.output;
      SameTranscript(vt2.screen, r.screen);
      HiddenAfterSweep(cfg, s1, rows, s.scrolled, s.maxBuffered, first, stop, false, cursorLine, cursorColumn);
    }
    var next := WriteOut(cfg, s, view);
    RingNarrows(next.sweep.ring, first, Max(s.maxBuffered, stop - 1), next.scraped, next.maxBuffered, r.screen, origin);
    ChangedAround(vt.screen, vt1.screen, vt2.screen, r.screen, first - origin, stop - origin);
    RowsShownOn(rows, vt2.screen, r.screen, first - s.scrolled, stop - s.scrolled, s.scrolled - origin);
    EmptyStays(vt.screen, r.screen, first - origin, stop - origin, Bottom(s) - origin);
  }

  /** Before and after the lines nothing changes. */
  lemma {:induction false} ChangedAround(a: Screen, b: Screen, c: Screen, d: Screen, first: int, stop: int)
    requires Extends(a, b) && OnlyChanged(b, c, first, stop) && Extends(c, d) && first <= stop
    ensures OnlyChanged(a, d, first, stop)
  {
    hide OnlyChanged;
    NothingChanged(a, b, first);
    NothingChanged(c, d, stop);
    ChangedInTurn(a, b, c, first, first, stop);
    ChangedInTurn(a, c, d, first, stop, stop);
  }

  lemma {:induction false} RowsShownOn(
    rows: seq<Line>, before: Screen, after: Screen, first: int, stop: int, shift: int)
    requires 0 <= first && stop <= |rows| && forall i :: 0 <= i < |rows| ==> 1 <= |rows[i]| <= before.width
    requires RowsShown(rows, before, first, stop, shift) && Extends(before, after)
    ensures RowsShown(rows, after, first, stop, shift)
  {
    hide Transcript, FullRow, Empty;
    forall i | first <= i < stop
      ensures ShownAt(after, i + shift, FullRow(rows[i], after.width))
    {
      assert ShownAt(before, i + shift, FullRow(rows[i], before.width));
      assert RowKept(before, after, i + shift);
    }
  }

  lemma {:induction false} EmptyStays(before: Screen, after: Screen, first: int, stop: int, i: int)
    requires EmptyFrom(before, i) && OnlyChanged(before, after, first, stop) && stop <= i
    ensures EmptyFrom(after, i)
  {
    hide Transcript, Empty;
    forall j | 0 <= j < |Transcript(after)| && i <= j
      ensures Empty(Transcript(after)[j])
    {
      assert RowKept(before, after, j);
    }
  }

  // ---------- Before the lines ----------

  /**
    A scrape clears the terminal when the console is frozen and either the marker is nowhere to be found or the window
    stands above where it was.
   */
  predicate Clears(s: Scroll, view: View)
    requires ViewOk(view)
  {
    && !view.tentative
    && ((s.syncRow != -1 && MarkerRow(s, view.before) == -1) || (s.dirtyTop != -1 && view.info.window.top < s.dirtyTop))
  }

  lemma {:induction false} ResetTrackingShows(cfg: Config, s: Scroll, start: Vt, vt: Vt, origin: int, line: nat)
    returns (r: Vt)
    requires !cfg.plainMode && Written(s.sweep, start, vt, origin)
    ensures r == vt.(screen := Cleared(vt.screen))
    ensures ScrollMirrored(ResetTracking(cfg, s, true, line), start, r, line - |vt.screen.history|)
    ensures !ResetTracking(cfg, s, true, line).sweep.emitter.cursorHidden
  {
    hide Feed, RowOk, ClearScreen;
    r := ClearingResetShows(cfg, s.sweep.emitter, vt, line);
    FeedConcat(start, s.sweep.output, Reset(cfg, s.sweep.emitter, true, line).output);
  }

  /** The terminal is cleared, the window's top line being the first of its screen, or nothing is written at all. */
  ghost predicate KeptOrCleared(
    clear: bool, s: Scroll, next: Scroll, top: nat, vt: Vt, r: Vt, origin: int, home: int)
  {
    if clear then
      && r == vt.(screen := Cleared(vt.screen)) && home == top - |vt.screen.history| && next.scraped == top
      && !next.sweep.emitter.cursorHidden
    else r == vt && home == origin && next.sweep == s.sweep && next.scraped == s.scraped
  }

  lemma {:induction false} FollowMarkerShows(cfg: Config, s: Scroll, start: Vt, vt: Vt, origin: int, view: View)
    returns (r: Vt, home: int)
    requires !cfg.plainMode && ScrollOk(s) && ViewOk(view) && Ready(s, view) && ScrollMirrored(s, start, vt, origin)
    ensures var next := FollowMarker(cfg, s, view).state;
      var clear := s.syncRow != -1 && MarkerRow(s, view.before) == -1 && !view.tentative;
      && ScrollMirrored(next, start, r, home)
      && KeptOrCleared(clear, s, next, view.info.window.top, vt, r, origin, home)
      && next.dirtyTop == if clear then -1 else s.dirtyTop
  {
    hide Feed, RowOk, RingHolds, Synced, Empty, Transcript, FirstColumn, MarkerText, FindMarker, Cleared, ForgottenRing,
        Reset, RingOk;
    r, home := vt, origin;
    if s.syncRow != -1 && MarkerRow(s, view.before) == -1 && !view.tentative {
      r := ResetTrackingShows(cfg, s, start, vt, origin, view.info.window.top);
      home := view.info.window.top - |vt.screen.history|;
    }
  }

  lemma {:induction false} FollowWindowShows(cfg: Config, s: Scroll, start: Vt, vt: Vt, origin: int, view: View)
    returns (r: Vt, home: int)
    requires !cfg.plainMode && ScrollOk(s) && ViewOk(view) && Ready(s, view) && ScrollMirrored(s, start, vt, origin)
    ensures var next := FollowWindow(cfg, s, view).state;
      var clear := s.dirtyTop != -1 && view.info.window.top < s.dirtyTop && !view.tentative;
      && ScrollMirrored(next, start, r, home)
      && KeptOrCleared(clear, s, next, view.info.window.top, vt, r, origin, home)
  {
    hide Feed, RowOk, RingHolds, Synced, Empty, Transcript, Cleared, ForgottenRing, Reset, RingOk;
    r, home := vt, origin;
    if s.dirtyTop != -1 && view.info.window.top < s.dirtyTop && !view.tentative {
      r := ResetTrackingShows(cfg, s, start, vt, origin, view.info.window.top);
      home := view.info.window.top - |vt.screen.history|;
    }
  }

  /** Bringing the counters up to date writes nothing, unless the terminal has to be cleared. */
  lemma {:induction false} LocatedShows(cfg: Config, s: Scroll, start: Vt, vt: Vt, origin: int, view: View)
    returns (r: Vt, home: int)
    requires !cfg.plainMode && ScrollOk(s) && ViewOk(view) && Ready(s, view) && ScrollMirrored(s, start, vt, origin)
    ensures var next := Located(cfg, s, view).state;
      && ScrollMirrored(next, start, r, home)
      && KeptOrCleared(Clears(s, view), s, next, view.info.window.top, vt, r, origin, home)
  {
    hide FollowMarker, FollowWindow, ScrollMirrored, ScrollOk, Cleared, MarkerRow, ShouldCreate;
    var followed := FollowMarker(cfg, s, view);
    r, home := FollowMarkerShows(cfg, s, start, vt, origin, view);
    if followed.ok && !(view.tentative && ShouldCreate(followed.state, view)) {
      r, home := FollowWindowShows(cfg, followed.state, start, r, home, view);
    }
  }

  lemma {:induction false} PreparedShows(cfg: Config, s: Scroll, start: Vt, vt: Vt, origin: int, view: View)
    returns (r: Vt, home: int)
    requires !cfg.plainMode && ScrollOk(s) && ViewOk(view) && Ready(s, view) && ScrollMirrored(s, start, vt, origin)
    ensures var next := Prepared(cfg, s, view).state;
      && ScrollMirrored(next, start, r, home)
      && KeptOrCleared(Clears(s, view), s, next, view.info.window.top, vt, r, origin, home)
  {
    hide Located, FollowMarker, Feed, RowOk, RingHolds, Synced, ScanDirty, Steady, RingOk, StateOk, Cleared, Clears,
        ScrollRows, Empty, Transcript, ShouldCreate, EmptyFrom;
    r, home := LocatedShows(cfg, s, start, vt, origin, view);
    EmptyBelow(r.screen, Bottom(Located(cfg, s, view).state) - home, Bottom(Prepared(cfg, s, view).state) - home);
  }

  lemma {:induction false} EmptyBelow(s: Screen, i: int, j: int)
    requires EmptyFrom(s, i) && i <= j
    ensures EmptyFrom(s, j)
  {
  }

  /** The dirty lines end at the last line that is not blank in the colour the line above it ends with. */
  lemma {:induction false} RestIsUniform(rows: seq<Line>, line: nat, stop: nat, count: nat)
    requires 1 <= count <= line && stop <= |rows| && forall r :: 0 <= r < |rows| ==> rows[r] != []
    requires forall i :: count <= i < line && i < stop ==> IsLineBlank(rows[i], LastAttributes(rows[count - 1]))
    ensures var last := ScanDirty(rows, line, stop, count);
      && (forall i :: last <= i < stop ==> IsLineBlank(rows[i], LastAttributes(rows[last - 1])))
      && (last > count ==> last <= stop && !IsLineBlank(rows[last - 1], LastAttributes(rows[last - 2])))
    decreases stop - line
  {
    hide IsLineBlank, LastAttributes;
    if line < stop {
      if line > count {
        BlankEnds(rows[line - 1], LastAttributes(rows[count - 1]));
      }
      var blank := IsLineBlank(rows[line], LastAttributes(rows[line - 1]));
      RestIsUniform(rows, line + 1, stop, if blank then count else line + 1);
    }
  }

  lemma {:induction false} BlankEnds(row: Line, attributes: Word)
    requires row != [] && IsLineBlank(row, attributes)
    ensures LastAttributes(row) == attributes
  {
    assert IsBlankCell(row[|row| - 1], attributes);
  }

  /** After a scan the rest of the window is blank in one colour. */
  ghost predicate RestBlank(view: View, dirtyCount: int)
    requires ViewOk(view) && 1 <= dirtyCount <= BUFFER_LINE_COUNT
  {
    var rows := ScrollRows(view);
    forall i :: dirtyCount <= i < WindowStop(view.info) ==> IsLineBlank(rows[i], LastAttributes(rows[dirtyCount - 1]))
  }

  /**
    What the terminal must look like after a scrape that left the state `s`, `first` being the first line scraped.
    The rows from there to the last dirty line, which is no higher than the cursor's, are shown, each on its own line,
    and below them the terminal is empty, as the rest of the window is blank in one colour; no line of the window is
    above the screen.
   */
  ghost predicate ShowsView(view: View, s: Scroll, first: int, screen: Screen, origin: int)
    requires ViewOk(view) && view.info.bufferWidth <= screen.width
  {
    var info := view.info;
    && s.scrolled <= first <= s.scraped == info.window.top + s.scrolled
    && info.cursorY < s.dirtyCount <= BUFFER_LINE_COUNT && info.window.top <= s.dirtyCount
    && origin + |screen.history| <= s.scraped
    && RowsShown(ScrollRows(view), screen, first - s.scrolled, Min(s.dirtyCount, WindowStop(info)), s.scrolled - origin)
    && EmptyFrom(screen, s.dirtyCount + s.scrolled - origin) && RestBlank(view, s.dirtyCount)
    && (view.cursorVisible && CursorIn(info, info.window) ==>
          CursorAt(screen, info.cursorX, info.cursorY + s.scrolled - origin))
  }

  lemma {:induction false} PreparedRestBlank(cfg: Config, s: Scroll, view: View)
    requires ScrollOk(s) && ViewOk(view) && Ready(s, view) && Prepared(cfg, s, view).ok
    ensures RestBlank(view, Prepared(cfg, s, view).state.dirtyCount)
  {
    hide Located, FollowMarker, IsLineBlank, LastAttributes, ScrollRows, Steady, ScanDirty, RingOk, StateOk;
    var marked := MarkDirty(Located(cfg, s, view).state, view);
    RestIsUniform(ScrollRows(view), marked.dirtyCount, WindowStop(view.info), marked.dirtyCount);
  }

  lemma {:induction false} WriteOutView(cfg: Config, s: Scroll, start: Vt, r: Vt, origin: int, view: View)
    requires Writable(s, view) && ViewOk(view) && view.info.bufferWidth <= r.screen.width
    requires ScrollMirrored(WriteOut(cfg, s, view), start, r, origin) && RestBlank(view, s.dirtyCount)
    requires RowsShown(ScrollRows(view), r.screen, s.scraped - s.scrolled, StopLine(s, view) - s.scrolled,
                       s.scrolled - origin)
    requires view.cursorVisible && CursorIn(view.info, view.info.window) ==>
      CursorAt(r.screen, view.info.cursorX, view.info.cursorY + s.scrolled - origin)
    ensures ShowsView(view, WriteOut(cfg, s, view), s.scraped, r.screen, origin)
  {
    hide SweepLines, ShowCursor, HideCursor, Written, RingHolds, RowsShown, EmptyFrom, RestBlank, CursorAt, ScrollRows,
        RingOk, StateOk;
  }

  /**
    The view may be scraped in state `s`, and console and terminal agree about every row that is then compared or
    sent. Rows above them, however odd, do not matter.
   */
  ghost predicate Printable(cfg: Config, s: Scroll, view: View, width: nat, height: nat)
    requires ScrollOk(s)
    ensures Printable(cfg, s, view, width, height) ==> ViewOk(view) && Begins(s, view) && Ready(s, view)
  {
    && ViewOk(view) && Begins(s, view)
    && view.info.bufferWidth <= width && view.info.window.height <= height
    && (Prepared(cfg, s, view).ok ==> Sendable(Prepared(cfg, s, view).state, view, width, height))
  }

  /**
    One scrape. Either it clears the terminal, when the marker or the window says that the console was rewritten, or it
    keeps every line outside those scraped: what has scrolled away stays as it was in both cases.
   */
  lemma {:induction false} ScrapeShows(cfg: Config, s: Scroll, start: Vt, vt: Vt, origin: int, view: View)
    returns (r: Vt, home: int)
    requires !cfg.plainMode && cfg.outputColor && ScrollOk(s)
    requires Printable(cfg, s, view, vt.screen.width, vt.screen.height) && ScrollMirrored(s, start, vt, origin)
    ensures ScrollMirrored(Scrape(cfg, s, view).state, start, r, home)
    ensures r.screen.width == vt.screen.width && r.screen.height == vt.screen.height
    ensures vt.screen.history <= r.screen.history
    ensures home == if Clears(s, view) then view.info.window.top - |vt.screen.history| else origin
    ensures var after := Scrape(cfg, s, view);
      var known := CursorExact(s.sweep.emitter, vt) && (Clears(s, view) ==> vt.screen.visible);
      if after.ok then
        known || !CursorShown(view) ==>
          CursorExact(after.state.sweep.emitter, r) && r.screen.visible == CursorShown(view)
      else after.state.sweep.emitter == s.sweep.emitter
    ensures var p, after := Prepared(cfg, s, view).state, Scrape(cfg, s, view);
      var base := if Clears(s, view) then Cleared(vt.screen) else vt.screen;
      if after.ok then
        && ShowsView(view, after.state, p.scraped, r.screen, home)
        && OnlyChanged(base, r.screen, p.scraped - home, StopLine(p, view) - home)
      else r == vt
  {
    hide Prepared, WriteOut, ScrollMirrored, ShowsView, RowsShown, OnlyChanged, Clears, AllMarked, CursorAt, RestBlank,
        ScrollRows, StopLine, ViewOk, Writable, Begins, Ready, ScrollOk;
    var p := Prepared(cfg, s, view);
    r, home := PreparedShows(cfg, s, start, vt, origin, view);
    if p.ok {
      var vt1 := r;
      r := WriteOutShows(cfg, p.state, start, vt1, home, view);
      PreparedRestBlank(cfg, s, view);
      WriteOutView(cfg, p.state, start, r, home, view);
    } else {
      TentativeKeeps(s, view);
    }
  }

  lemma {:induction false} TentativeKeeps(s: Scroll, view: View)
    requires ViewOk(view) && view.tentative
    ensures !Clears(s, view)
  {
  }

  // ---------- All scrapes ----------

  ghost predicate AllPrintable(cfg: Config, s: Scroll, views: seq<View>, width: nat, height: nat)
    requires ScrollOk(s)
    ensures AllPrintable(cfg, s, views, width, height) ==> AllViewsOk(views) && (views != [] ==> Begins(s, views[0]))
    decreases |views|
  {
    && AllViewsOk(views)
    && (views != [] ==>
          && Printable(cfg, s, views[0], width, height)
          && AllPrintable(cfg, Scrape(cfg, s, views[0]).state, views[1..], width, height))
  }

  /**
    No scrape of the run clears the terminal and needs the cursor after the one before had it hidden; `shown` says how
    it was at first. A clearing reset forgets that the cursor is hidden.
   */
  ghost predicate CursorStays(cfg: Config, s: Scroll, views: seq<View>, shown: bool)
    requires ScrollOk(s) && AllViewsOk(views) && (views != [] ==> Begins(s, views[0]))
    decreases |views|
  {
    views != [] ==>
      assert ViewOk(views[0]);
      var next := Scrape(cfg, s, views[0]);
      && (Clears(s, views[0]) && CursorShown(views[0]) ==> shown)
      && CursorStays(cfg, next.state, views[1..], if next.ok then CursorShown(views[0]) else shown)
  }

  /** How the last completed scrape of the run left the cursor. */
  function LastShown(cfg: Config, s: Scroll, views: seq<View>, shown: bool): bool
    requires ScrollOk(s) && AllViewsOk(views) && (views != [] ==> Begins(s, views[0]))
    decreases |views|
  {
    if views == [] then shown
    else
      assert ViewOk(views[0]);
      var next := Scrape(cfg, s, views[0]);
      LastShown(cfg, next.state, views[1..], if next.ok then CursorShown(views[0]) else shown)
  }

  lemma {:induction false} ScrapeRunShows(cfg: Config, s: Scroll, start: Vt, vt: Vt, origin: int, views: seq<View>)
    returns (r: Vt, home: int)
    requires !cfg.plainMode && cfg.outputColor && ScrollOk(s)
    requires AllPrintable(cfg, s, views, vt.screen.width, vt.screen.height) && ScrollMirrored(s, start, vt, origin)
    ensures ScrollMirrored(ScrapeRun(cfg, s, views), start, r, home)
    ensures r.screen.width == vt.screen.width && r.screen.height == vt.screen.height
    ensures vt.screen.history <= r.screen.history
    ensures CursorExact(s.sweep.emitter, vt) && CursorStays(cfg, s, views, vt.screen.visible) ==>
      CursorExact(ScrapeRun(cfg, s, views).sweep.emitter, r)
      && r.screen.visible == LastShown(cfg, s, views, vt.screen.visible)
    decreases |views|
  {
    hide Scrape, Printable, ScrollMirrored, ScrollOk, Prepared, ShowsView, StopLine, OnlyChanged, Clears, CursorShown;
    if views == [] {
      r, home := vt, origin;
    } else {
      var vt1, home1 := ScrapeShows(cfg, s, start, vt, origin, views[0]);
      r, home := ScrapeRunShows(cfg, Scrape(cfg, s, views[0]).state, start, vt1, home1, views[1..]);
    }
  }

  /**
    After the run `views` the scrape of one more view, if it completes, leaves the terminal showing what it read, with
    all that had scrolled away before kept above it, and its cursor visible exactly if the console's is and lies in the
    window. That much needs to know whether the cursor was `shown` at first.
   */
  ghost predicate NextShows(
    cfg: Config, s: Scroll, start: Vt, shown: Option<bool>, views: seq<View>, view: View, r: Vt, home: int)
    requires ScrollOk(s) && AllViewsOk(views) && (views != [] ==> Begins(s, views[0]))
    requires ViewOk(view) && Begins(ScrapeRun(cfg, s, views), view)
  {
    var before := ScrapeRun(cfg, s, views);
    var after := Scrape(cfg, before, view);
    && VtOk(start) && Feed(start, after.state.sweep.output) == Some(r)
    && start.screen.history <= r.screen.history
    && r.screen.width == start.screen.width && view.info.bufferWidth <= start.screen.width
    && (after.ok ==> ShowsView(view, after.state, Prepared(cfg, before, view).state.scraped, r.screen, home))
    && (after.ok && shown.Some? && CursorStays(cfg, s, views, shown.value)
        && (Clears(before, view) && CursorShown(view) ==> LastShown(cfg, s, views, shown.value)) ==>
          r.screen.visible == CursorShown(view))
  }

  /** Every view of the run, and the one after it, may be scraped when it comes. */
  ghost predicate RunPrintable(cfg: Config, s: Scroll, views: seq<View>, view: View, width: nat, height: nat)
    requires ScrollOk(s)
    ensures RunPrintable(cfg, s, views, view, width, height) ==>
      && AllViewsOk(views) && (views != [] ==> Begins(s, views[0]))
      && ViewOk(view) && Begins(ScrapeRun(cfg, s, views), view)
  {
    && AllPrintable(cfg, s, views, width, height)
    && Printable(cfg, ScrapeRun(cfg, s, views), view, width, height)
  }

  lemma {:induction false} NextScrapeShows(
    cfg: Config, s: Scroll, start: Vt, vt: Vt, origin: int, views: seq<View>, view: View)
    returns (r: Vt, home: int)
    requires !cfg.plainMode && cfg.outputColor && ScrollOk(s)
    requires RunPrintable(cfg, s, views, view, vt.screen.width, vt.screen.height)
    requires ScrollMirrored(s, start, vt, origin)
    requires start.screen.width == vt.screen.width && start.screen.history <= vt.screen.history
    ensures var shown := if CursorExact(s.sweep.emitter, vt) then Some(vt.screen.visible) else None;
      NextShows(cfg, s, start, shown, views, view, r, home)
  {
    hide Scrape, ScrollOk, Prepared, ShowsView, StopLine, Feed, RingHolds, Synced, ScrapeRun, RingOk, WellMarked,
        OnlyChanged, Clears, EmptyFrom;
    var vt1, home1 := ScrapeRunShows(cfg, s, start, vt, origin, views);
    r, home := ScrapeShows(cfg, ScrapeRun(cfg, s, views), start, vt1, home1, view);
  }

  /** Tracking as it stands on a new terminal. */
  function NewTracking(): (s: Scroll)
    ensures ScrollOk(s)
  {
    Scroll(Sweep(START, ForgottenRing(), []), -1, 0, 0, 0, -1, -1, 0)
  }

  /** Any first view may be scraped, and after a reset the view that caused it. */
  lemma {:induction false} MayBegin(cfg: Config, s: Scroll, view: View)
    requires ViewOk(view)
    ensures Begins(NewTracking(), view)
    ensures !view.tentative ==> Begins(ResetTracking(cfg, s, true, view.info.window.top), view)
  {
    hide Reset;
  }

  lemma {:induction false} FromTheStart(cfg: Config, width: nat, height: nat, views: seq<View>, view: View)
    returns (r: Vt, home: int)
    requires !cfg.plainMode && cfg.outputColor && GeometryOk(width, height)
    requires RunPrintable(cfg, NewTracking(), views, view, width, height)
    ensures NextShows(cfg, NewTracking(), Start(width, height), Some(true), views, view, r, home)
  {
    hide NextShows, RunPrintable, RowOk;
    var vt := Start(width, height);
    r, home := NextScrapeShows(cfg, NewTracking(), vt, vt, 0, views, view);
  }

  /** The same from a clearing reset, whatever the terminal showed and the emitter remembered. */
  lemma {:induction false} FromAReset(cfg: Config, s: Scroll, start: Vt, line: nat, views: seq<View>, view: View)
    returns (r: Vt, home: int)
    requires !cfg.plainMode && cfg.outputColor && VtOk(start) && start.parser.Text? && s.sweep.output == []
    requires RunPrintable(cfg, ResetTracking(cfg, s, true, line), views, view, start.screen.width, start.screen.height)
    ensures var shown := if start.screen.visible then Some(true) else None;
      NextShows(cfg, ResetTracking(cfg, s, true, line), start, shown, views, view, r, home)
  {
    hide NextShows, RunPrintable, RowOk, Feed, ClearScreen;
    assert s.sweep.output + Reset(cfg, s.sweep.emitter, true, line).output ==
        Reset(cfg, s.sweep.emitter, true, line).output;
    var vt := ClearingResetShows(cfg, s.sweep.emitter, start, line);
    r, home := NextScrapeShows(cfg, ResetTracking(cfg, s, true, line), start, vt, line - |vt.screen.history|, views,
        view);
  }
}
