/** Scrolling mode on a console that has not changed: the next scrape writes nothing. */
module IdleConsole {
  import opened Basics
  import opened Color
  import opened Emitter
  import opened ConsoleLine
  import opened Scraping
  import opened ScrollMirror
  import opened ScrapeRules
  import D = DirectMirror

  /** The slots of the lines `first` to `stop` were last set to what the rows show. */
  ghost predicate Settled(ring: seq<LineState>, rows: seq<Line>, scrolled: nat, first: nat, stop: int)
    requires RingOk(ring) && scrolled <= first && stop - scrolled <= |rows|
    requires forall i :: 0 <= i < |rows| ==> rows[i] != []
  {
    forall l: nat :: first <= l < stop ==> !Changed(Slot(ring, l), rows[l - scrolled])
  }

  lemma {:induction false} VisitSettles(
    cfg: Config, s: Sweep, rows: seq<Line>, scrolled: nat, first: nat, line: nat, send: bool, column: int)
    requires RingOk(s.ring) && StateOk(s.emitter) && scrolled <= first <= line < scrolled + |rows|
    requires forall i :: 0 <= i < |rows| ==> rows[i] != []
    requires line < first + BUFFER_LINE_COUNT && Settled(s.ring, rows, scrolled, first, line)
    ensures Settled(VisitRow(cfg, s, line, rows[line - scrolled], send, column).ring, rows, scrolled, first, line + 1)
  {
    hide SendLine, Changed, SetLine;
    var next := VisitRow(cfg, s, line, rows[line - scrolled], send, column).ring;
    forall l: nat | first <= l < line + 1
      ensures !Changed(Slot(next, l), rows[l - scrolled])
    {
      if l == line {
        SetIsUnchanged(Slot(s.ring, line), rows[line - scrolled]);
      } else {
        if l % BUFFER_LINE_COUNT == line % BUFFER_LINE_COUNT {
          SlotsDiffer(l, line);
        }
        assert Slot(next, l) == Slot(s.ring, l);
      }
    }
  }

  lemma {:induction false} SweepSettles(
    cfg: Config, s: Sweep, rows: seq<Line>, scrolled: nat, maxBuffered: int, first: nat, line: nat, stop: int,
    saw: bool, cursorLine: int, cursorColumn: int)
    requires RingOk(s.ring) && StateOk(s.emitter) && scrolled <= first <= line <= stop <= scrolled + |rows|
    requires stop <= first + BUFFER_LINE_COUNT && forall i :: 0 <= i < |rows| ==> rows[i] != []
    requires Settled(s.ring, rows, scrolled, first, line)
    ensures Settled(SweepLines(cfg, s, rows, scrolled, maxBuffered, line, stop, saw, cursorLine, cursorColumn).ring,
                    rows, scrolled, first, stop)
    decreases stop - line
  {
    hide VisitRow, Changed, Settled;
    if line < stop {
      var row := rows[line - scrolled];
      var send := saw || line > maxBuffered || Changed(s.ring[line % BUFFER_LINE_COUNT], row);
      var column := if line == cursorLine then cursorColumn else -1;
      VisitSettles(cfg, s, rows, scrolled, first, line, send, column);
      SweepSettles(cfg, VisitRow(cfg, s, line, row, send, column), rows, scrolled, maxBuffered, first, line + 1, stop,
                   send, cursorLine, cursorColumn);
    }
  }

  /** What a completed scrape leaves for the next one to compare with. */
  ghost predicate UpToDate(cfg: Config, s: Scroll, view: View)
    requires ViewOk(view)
  {
    var stop := StopLine(s, view);
    && ScrollOk(s) && RingOk(s.sweep.ring) && s.scraped == view.info.window.top + s.scrolled
    && (s.scraped < stop ==> stop - 1 <= s.maxBuffered) && 0 <= s.scraped && stop - s.scrolled <= BUFFER_LINE_COUNT
    && Settled(s.sweep.ring, ScrollRows(view), s.scrolled, s.scraped, stop)
    && (if CursorShown(view) then
          ShowCursor(cfg, s.sweep.emitter, view.info.cursorX, view.info.cursorY + s.scrolled) ==
          Step(s.sweep.emitter, [])
        else HideCursor(cfg, s.sweep.emitter) == Step(s.sweep.emitter, []))
  }

  lemma {:induction false} WriteOutIsUpToDate(cfg: Config, s: Scroll, view: View)
    requires Writable(s, view) && ViewOk(view)
    ensures UpToDate(cfg, WriteOut(cfg, s, view), view)
  {
    hide SweepLines, Settled, ScrollRows, HideCursor, ShowCursor, RingOk, StateOk;
    var info, rows := view.info, ScrollRows(view);
    var show := CursorShown(view);
    var cursorLine := if show then info.cursorY + s.scrolled else -1;
    var cursorColumn := if show then info.cursorX else -1;
    var hidden := if show then Step(s.sweep.emitter, []) else HideCursor(cfg, s.sweep.emitter);
    var s1 := Sweep(hidden.state, s.sweep.ring, s.sweep.output + hidden.output);
    var first, stop := s.scraped, StopLine(s, view);
    var swept := SweepLines(cfg, s1, rows, s.scrolled, s.maxBuffered, first, stop, false, cursorLine, cursorColumn);
    NothingSettled(s1.ring, rows, s.scrolled, first);
    SweepSettles(cfg, s1, rows, s.scrolled, s.maxBuffered, first, first, stop, false, cursorLine, cursorColumn);
    var next := WriteOut(cfg, s, view);
    Fewer(next.sweep.ring, rows, s.scrolled, first, next.scraped, stop);
    if show {
      D.ShowTwice(cfg, swept.emitter, cursorColumn, cursorLine);
    } else {
      D.HideHides(cfg, s.sweep.emitter);
      if !cfg.plainMode {
        HiddenAfterSweep(cfg, s1, rows, s.scrolled, s.maxBuffered, first, stop, false, cursorLine, cursorColumn);
      }
      D.HideAgain(cfg, next.sweep.emitter);
    }
  }

  lemma {:induction false} NothingSettled(ring: seq<LineState>, rows: seq<Line>, scrolled: nat, first: nat)
    requires RingOk(ring) && scrolled <= first <= scrolled + |rows| && forall i :: 0 <= i < |rows| ==> rows[i] != []
    ensures Settled(ring, rows, scrolled, first, first)
  {
  }

  lemma {:induction false} Fewer(
    ring: seq<LineState>, rows: seq<Line>, scrolled: nat, first: nat, later: nat, stop: int)
    requires RingOk(ring) && scrolled <= first <= later && stop - scrolled <= |rows|
    requires forall i :: 0 <= i < |rows| ==> rows[i] != []
    requires Settled(ring, rows, scrolled, first, stop)
    ensures Settled(ring, rows, scrolled, later, stop)
  {
  }

  /** The console as the last scrape left it: the same from the line above the window on, and the marker in place. */
  ghost predicate Unchanged(s: Scroll, view: View, again: View)
    requires ViewOk(view) && ViewOk(again)
  {
    && again.info == view.info && again.cursorVisible == view.cursorVisible
    && FoundAt(s, again) == s.syncRow
    && forall i :: Max(0, view.info.window.top - 1) <= i < BUFFER_LINE_COUNT ==>
      ScrollRows(again)[i] == ScrollRows(view)[i]
  }

  /** With nothing written and nothing in the wrong place the sweep has nothing to send. */
  lemma {:induction false} WriteOutIsQuiet(cfg: Config, s: Scroll, s': Scroll, view: View, again: View)
    requires ViewOk(view) && ViewOk(again) && UpToDate(cfg, s, view) && Writable(s', again)
    requires Unchanged(s, view, again) && s'.sweep == s.sweep && s'.scrolled == s.scrolled
    requires s'.scraped == s.scraped && s'.maxBuffered == s.maxBuffered && s'.dirtyCount == s.dirtyCount
    ensures var next := WriteOut(cfg, s', again);
      next.sweep.emitter == s.sweep.emitter && next.sweep.output == s.sweep.output && next.scraped == s.scraped
  {
    hide SweepLines, ScrollRows, HideCursor, ShowCursor, Changed, FoundAt, StateOk;
    var info, rows := again.info, ScrollRows(again);
    var show := CursorShown(again);
    var cursorLine := if show then info.cursorY + s.scrolled else -1;
    var cursorColumn := if show then info.cursorX else -1;
    var first, stop := s.scraped, StopLine(s, view);
    assert s.sweep.output + [] == s.sweep.output;
    if first < stop {
      forall l: nat | first <= l < stop
        ensures !Changed(Slot(s.sweep.ring, l), rows[l - s.scrolled])
      {
        assert rows[l - s.scrolled] == ScrollRows(view)[l - s.scrolled];
      }
      UnchangedNotSent(cfg, s.sweep, rows, s.scrolled, s.maxBuffered, first, stop, cursorLine, cursorColumn);
    } else {
      NothingToSweep(cfg, s.sweep, rows, s.scrolled, s.maxBuffered, first, stop, cursorLine, cursorColumn);
    }
    var swept := SweepLines(cfg, s.sweep, rows, s.scrolled, s.maxBuffered, first, stop, false, cursorLine,
                            cursorColumn);
    assert swept.emitter == s.sweep.emitter && swept.output == s.sweep.output && FirstLine(s', again) == first;
    assert swept.output + [] == swept.output;
  }

  lemma {:induction false} NothingToSweep(
    cfg: Config, s: Sweep, rows: seq<Line>, scrolled: nat, maxBuffered: int, line: int, stop: int, cursorLine: int,
    cursorColumn: int)
    requires RingOk(s.ring) && StateOk(s.emitter) && scrolled <= line && stop <= line && stop - scrolled <= |rows|
    requires forall i :: 0 <= i < |rows| ==> rows[i] != []
    ensures SweepLines(cfg, s, rows, scrolled, maxBuffered, line, stop, false, cursorLine, cursorColumn) == s
  {
  }

  /** What was blank in one colour is not found dirty when it is looked at again. */
  lemma {:induction false} ScanStays(rows: seq<Line>, line: nat, stop: int, count: nat)
    requires 1 <= count <= line && stop <= |rows| && forall r :: 0 <= r < |rows| ==> rows[r] != []
    requires forall i :: count <= i < stop ==> IsLineBlank(rows[i], LastAttributes(rows[count - 1]))
    ensures ScanDirty(rows, line, stop, count) == count
    decreases stop - line
  {
    hide IsLineBlank, LastAttributes;
    if line < stop {
      if line > count {
        BlankEnds(rows[line - 1], LastAttributes(rows[count - 1]));
      }
      ScanStays(rows, line + 1, stop, count);
    }
  }

  lemma {:induction false} PreparedAgain(cfg: Config, s: Scroll, view: View, again: View)
    requires ScrollOk(s) && ViewOk(view) && ViewOk(again) && Unchanged(s, view, again) && Ready(s, again)
    requires s.dirtyTop == view.info.window.top && view.info.window.top <= s.dirtyCount
    requires view.info.cursorY < s.dirtyCount && RestBlank(view, s.dirtyCount)
    ensures var p := Prepared(cfg, s, again).state;
      && p.sweep == s.sweep && p.scrolled == s.scrolled && p.scraped == s.scraped && p.maxBuffered == s.maxBuffered
      && (Prepared(cfg, s, again).ok ==> p.dirtyCount == s.dirtyCount)
  {
    hide ScanDirty, IsLineBlank, LastAttributes, FirstColumn, MarkerText, FindMarker, RingOk, StateOk, Steady;
    var rows, before := ScrollRows(again), ScrollRows(view);
    forall i | s.dirtyCount <= i < WindowStop(again.info)
      ensures IsLineBlank(rows[i], LastAttributes(rows[s.dirtyCount - 1]))
    {
      assert rows[i] == before[i] && rows[s.dirtyCount - 1] == before[s.dirtyCount - 1];
    }
    ScanStays(rows, s.dirtyCount, WindowStop(again.info), s.dirtyCount);
  }

  /**
    A console that has not changed costs nothing: the scrape after a completed one writes no byte, whether or not the
    console is frozen for it and whether or not it is given up.
   */
  lemma {:induction false} IdleScrapeIsQuiet(cfg: Config, s: Scroll, view: View, again: View)
    requires ScrollOk(s) && ViewOk(view) && Ready(s, view) && Scrape(cfg, s, view).ok
    requires ViewOk(again) && Unchanged(Scrape(cfg, s, view).state, view, again)
    ensures var once := Scrape(cfg, s, view).state;
      && Ready(once, again)
      && var twice := Scrape(cfg, once, again).state;
        twice.sweep.emitter == once.sweep.emitter && twice.sweep.output == once.sweep.output
        && twice.scraped == once.scraped && twice.scrolled == once.scrolled
  {
    hide Prepared, UpToDate, RestBlank, Unchanged, RingOk, StateOk, SweepLines, ScrollRows, HideCursor, ShowCursor;
    var p := Prepared(cfg, s, view).state;
    var once := Scrape(cfg, s, view).state;
    PreparedRestBlank(cfg, s, view);
    WriteOutIsUpToDate(cfg, p, view);
    SameInfo(once, view, again);
    PreparedAgain(cfg, once, view, again);
    if Prepared(cfg, once, again).ok {
      WriteOutIsQuiet(cfg, once, Prepared(cfg, once, again).state, view, again);
    }
  }

  lemma {:induction false} SameInfo(s: Scroll, view: View, again: View)
    requires ViewOk(view) && ViewOk(again) && Unchanged(s, view, again)
    ensures again.info == view.info
  {
  }
}
