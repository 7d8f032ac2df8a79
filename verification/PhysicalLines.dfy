/**
  Scrolling mode end to end: while the console scrolls between and during the scrapes, every line of it that has been
  read is on the terminal, under its own number, as it was last read; and none is left out.
 */
module PhysicalLines {
  import opened Basics
  import opened VtScreen
  import opened VtParser
  import opened Color
  import opened Emitter
  import opened LineMirror
  import opened EmitterMirror
  import opened Scraping
  import opened ScrollMirror
  import opened RingCoherence
  import opened SyncMarker

  /** The rows read since the lines were last numbered afresh, by line; reading began with the line `from`. */
  datatype Log = Log(from: int, rows: LastSeen)

  /**
    The log after one more scrape. A row is entered under its line: its place in the console when it was read, plus
    the rows that had really been scrolled by then.
   */
  function Logged(cfg: Config, s: Scroll, w: World, log: Log, m: Moment): Log
    requires ScrollOk(s) && ViewOk(m.view) && Ready(s, m.view)
  {
    var p, clear, top := Prepared(cfg, s, m.view), Clears(s, m.view), m.view.info.window.top;
    var kept := if clear then Log(top, map[]) else log;
    var scrolled := if clear then 0 else w.scrolled + m.waiting + m.reading;
    if p.ok then
      kept.(rows := Visited(kept.rows, ScrollRows(m.view), scrolled, p.state.scraped - p.state.scrolled + scrolled,
                            Min(p.state.dirtyCount, WindowStop(m.view.info)) + scrolled))
    else kept
  }

  function LoggedAll(cfg: Config, s: Scroll, w: World, log: Log, moments: seq<Moment>): Log
    requires ScrollOk(s) && MomentsOk(cfg, s, w, moments)
    decreases |moments|
  {
    if moments == [] then log
    else
      LoggedAll(cfg, Scrape(cfg, s, moments[0].view).state, Later(cfg, s, w, moments[0]),
                Logged(cfg, s, w, log, moments[0]), moments[1..])
  }

  /** Line `line` stands in the transcript's row `line - origin`, as last read. */
  ghost predicate LineIsShown(row: Line, s: Screen, i: int) {
    1 <= |row| <= s.width && ShownAt(s, i, FullRow(row, s.width))
  }

  /** Every line read is shown, and every line counted as scraped has been read. */
  ghost predicate LogShown(log: Log, scraped: int, s: Screen, origin: int) {
    && (forall line :: line in log.rows ==> LineIsShown(log.rows[line], s, line - origin))
    && (forall line :: log.from <= line < scraped ==> line in log.rows)
  }

  lemma {:induction false} VisitedAt(seen: LastSeen, rows: seq<Line>, scrolled: nat, line: int, stop: int, l: int)
    requires scrolled <= line && stop - scrolled <= |rows|
    ensures var after := Visited(seen, rows, scrolled, line, stop);
      if line <= l < stop then l in after && after[l] == rows[l - scrolled]
      else l in after <==> l in seen
    ensures !(line <= l < stop) && l in seen ==> Visited(seen, rows, scrolled, line, stop)[l] == seen[l]
    decreases stop - line
  {
    if line < stop {
      VisitedAt(seen[line := rows[line - scrolled]], rows, scrolled, line + 1, stop, l);
    }
  }

  /** A line outside those rewritten stays shown. */
  lemma {:induction false} LineStays(row: Line, before: Screen, after: Screen, i: int, first: int, stop: int)
    requires LineIsShown(row, before, i) && OnlyChanged(before, after, first, stop) && !(first <= i < stop)
    ensures LineIsShown(row, after, i)
  {
    hide Transcript, FullRow;
    assert RowKept(before, after, i);
  }

  lemma {:induction false} VisitedShown(
    log: Log, before: Screen, after: Screen, rows: seq<Line>, scrolled: nat, first: nat, stop: int, scraped: int,
    origin: int)
    requires LogShown(log, first + scrolled, before, origin)
    requires stop <= |rows| && forall i :: 0 <= i < |rows| ==> 1 <= |rows[i]| <= after.width
    requires OnlyChanged(before, after, first + scrolled - origin, stop + scrolled - origin)
    requires RowsShown(rows, after, first, stop, scrolled - origin)
    requires scraped <= Max(first, stop) + scrolled
    ensures LogShown(log.(rows := Visited(log.rows, rows, scrolled, first + scrolled, stop + scrolled)), scraped, after,
                     origin)
  {
    hide Visited, OnlyChanged, ShownAt, FullRow;
    var seen := Visited(log.rows, rows, scrolled, first + scrolled, stop + scrolled);
    forall line | line in seen
      ensures LineIsShown(seen[line], after, line - origin)
    {
      VisitedAt(log.rows, rows, scrolled, first + scrolled, stop + scrolled, line);
      if first + scrolled <= line < stop + scrolled {
        var i := line - scrolled;
        assert ShownAt(after, i + (scrolled - origin), FullRow(rows[i], after.width));
      } else {
        LineStays(log.rows[line], before, after, line - origin, first + scrolled - origin, stop + scrolled - origin);
      }
    }
    forall line | log.from <= line < scraped
      ensures line in seen
    {
      VisitedAt(log.rows, rows, scrolled, first + scrolled, stop + scrolled, line);
    }
  }

  /** Where reading goes on: at the window's top after a clear, else where it had stopped. */
  lemma {:induction false} PreparedScraped(cfg: Config, s: Scroll, view: View)
    requires ScrollOk(s) && ViewOk(view) && Ready(s, view)
    ensures var p := Prepared(cfg, s, view).state;
      if Clears(s, view) then p.scraped == view.info.window.top && p.scrolled == 0
      else p.scraped == s.scraped
  {
    hide MarkerRow, ScanDirty, Steady, RingOk, StateOk, Reset, ForgottenRing, ScrollRows;
  }

  /** When the cells were read the tracker's count was the true one. */
  lemma {:induction false} CountIsTrue(cfg: Config, s: Scroll, w: World, m: Moment)
    requires ScrollOk(s) && ViewOk(m.view) && Ready(s, m.view) && InPlace(s, w) && MomentOk(s, w, m)
    requires Prepared(cfg, s, m.view).ok && !Clears(s, m.view)
    ensures Prepared(cfg, s, m.view).state.scrolled == w.scrolled + m.waiting + m.reading
  {
    hide Prepared, InPlace, MomentOk, MarkerRow, SweepLines, HideCursor, ShowCursor, Later;
    ScrapeKeepsPlace(cfg, s, w, m);
  }

  /** One scrape keeps every line read shown and leaves no gap. */
  lemma {:induction false} ScrapeKeepsLines(
    cfg: Config, s: Scroll, w: World, m: Moment, log: Log, start: Vt, vt: Vt, origin: int)
    returns (r: Vt, home: int)
    requires !cfg.plainMode && cfg.outputColor && ScrollOk(s)
    requires Printable(cfg, s, m.view, vt.screen.width, vt.screen.height) && ScrollMirrored(s, start, vt, origin)
    requires InPlace(s, w) && MomentOk(s, w, m) && LogShown(log, s.scraped, vt.screen, origin)
    ensures var after := Scrape(cfg, s, m.view).state;
      && ScrollMirrored(after, start, r, home)
      && LogShown(Logged(cfg, s, w, log, m), after.scraped, r.screen, home)
    ensures r.screen.width == vt.screen.width && r.screen.height == vt.screen.height
  {
    hide Prepared, ScrollMirrored, OnlyChanged, RowsShown, Visited, Clears, MomentOk, InPlace, ScrollRows, MarkerRow,
        SweepLines, HideCursor, ShowCursor, RingOk, StateOk, Cleared, LineIsShown, EmptyFrom, RestBlank;
    r, home := ScrapeShows(cfg, s, start, vt, origin, m.view);
    PreparedScraped(cfg, s, m.view);
    var p := Prepared(cfg, s, m.view);
    if p.ok {
      var base := if Clears(s, m.view) then Cleared(vt.screen) else vt.screen;
      var kept := if Clears(s, m.view) then Log(m.view.info.window.top, map[]) else log;
      if !Clears(s, m.view) {
        CountIsTrue(cfg, s, w, m);
      }
      VisitedShown(kept, base, r.screen, ScrollRows(m.view), p.state.scrolled, p.state.scraped - p.state.scrolled,
                   Min(p.state.dirtyCount, WindowStop(m.view.info)), Scrape(cfg, s, m.view).state.scraped, home);
    }
  }

  ghost predicate MomentsPrintable(cfg: Config, s: Scroll, moments: seq<Moment>, width: nat, height: nat)
    requires ScrollOk(s)
    decreases |moments|
  {
    moments != [] ==>
      && Printable(cfg, s, moments[0].view, width, height)
      && MomentsPrintable(cfg, Scrape(cfg, s, moments[0].view).state, moments[1..], width, height)
  }

  /**
    Over any run of scrapes, completed, given up or starting the terminal afresh, and however the console scrolls
    before and during them: every line read since the last clear is on the terminal as it was last read, and every line
    down to the window's top has been read.
   */
  lemma {:induction false} RunKeepsLines(
    cfg: Config, s: Scroll, w: World, moments: seq<Moment>, log: Log, start: Vt, vt: Vt, origin: int)
    returns (r: Vt, home: int)
    requires !cfg.plainMode && cfg.outputColor && ScrollOk(s) && MomentsOk(cfg, s, w, moments) && InPlace(s, w)
    requires MomentsPrintable(cfg, s, moments, vt.screen.width, vt.screen.height)
    requires ScrollMirrored(s, start, vt, origin) && LogShown(log, s.scraped, vt.screen, origin)
    ensures var after := AfterAll(cfg, s, w, moments).0;
      && Feed(start, after.sweep.output) == Some(r)
      && LogShown(LoggedAll(cfg, s, w, log, moments), after.scraped, r.screen, home)
    decreases |moments|
  {
    hide Scrape, Later, Logged, ScrollOk, InPlace, MomentOk, Printable, LogShown, Feed, RingHolds, EmptyFrom;
    if moments == [] {
      r, home := vt, origin;
    } else {
      var m := moments[0];
      var vt1, home1 := ScrapeKeepsLines(cfg, s, w, m, log, start, vt, origin);
      ScrapeKeepsPlace(cfg, s, w, m);
      r, home := RunKeepsLines(cfg, Scrape(cfg, s, m.view).state, Later(cfg, s, w, m), moments[1..],
                               Logged(cfg, s, w, log, m), start, vt1, home1);
    }
  }

  const UNSCROLLED := World(0, -1)

  const NO_LINES := Log(0, map[])

  /** The same from the first scrape on a new terminal: no line that has scrolled away is missing or out of date. */
  lemma {:induction false} NothingIsLost(cfg: Config, width: nat, height: nat, moments: seq<Moment>)
    returns (r: Vt, home: int)
    requires !cfg.plainMode && cfg.outputColor && GeometryOk(width, height)
    requires MomentsOk(cfg, NewTracking(), UNSCROLLED, moments)
    requires MomentsPrintable(cfg, NewTracking(), moments, width, height)
    ensures var after := AfterAll(cfg, NewTracking(), UNSCROLLED, moments).0;
      && Feed(VtParser.Start(width, height), after.sweep.output) == Some(r)
      && LogShown(LoggedAll(cfg, NewTracking(), UNSCROLLED, NO_LINES, moments), after.scraped, r.screen, home)
  {
    hide MomentsOk, MomentsPrintable, AfterAll, LoggedAll, RowOk;
    var vt := VtParser.Start(width, height);
    r, home := RunKeepsLines(cfg, NewTracking(), UNSCROLLED, moments, NO_LINES, vt, vt, 0);
  }
}
