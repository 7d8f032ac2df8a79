/**
  The ring of line states: whatever the console shows, a line compared with what was last seen of it is compared with
  its own slot, never with that of a line a ring's length away.
 */
module RingCoherence {
  import opened Basics
  import opened Color
  import opened Emitter
  import opened ConsoleLine
  import opened Scraping
  import opened ScrollMirror

  /** The row each line showed when it was last visited. */
  type LastSeen = map<int, Line>

  /** The slots of the lines `first` to `last` hold what those very lines last showed. */
  ghost predicate Coherent(ring: seq<LineState>, seen: LastSeen, first: nat, last: int)
    requires RingOk(ring)
  {
    forall line: nat :: first <= line <= last ==> line in seen && Remembers(Slot(ring, line), seen[line])
  }

  ghost predicate Remembers(st: LineState, row: Line) {
    0 < st.prevLength <= |st.prevData| && Seen(st) == row
  }

  /** What has been seen after visiting the lines from `line` to `stop`. */
  function Visited(seen: LastSeen, rows: seq<Line>, scrolled: nat, line: int, stop: int): LastSeen
    requires scrolled <= line && stop - scrolled <= |rows|
    decreases stop - line
  {
    if line >= stop then seen else Visited(seen[line := rows[line - scrolled]], rows, scrolled, line + 1, stop)
  }

  lemma {:induction false} VisitKeepsCoherence(
    cfg: Config, s: Sweep, seen: LastSeen, first: nat, last: int, line: nat, row: Line, send: bool, cursorColumn: int)
    requires RingOk(s.ring) && StateOk(s.emitter) && row != [] && Coherent(s.ring, seen, first, last)
    requires first <= line <= last + 1 && Max(last, line) < first + BUFFER_LINE_COUNT
    ensures Coherent(VisitRow(cfg, s, line, row, send, cursorColumn).ring, seen[line := row], first, Max(last, line))
  {
    hide SendLine, SetLine;
    var next := VisitRow(cfg, s, line, row, send, cursorColumn).ring;
    forall l: nat | first <= l <= Max(last, line)
      ensures l in seen[line := row] && Remembers(Slot(next, l), seen[line := row][l])
    {
      if l == line {
        SetIsSeen(Slot(s.ring, line), row);
      } else {
        if l % BUFFER_LINE_COUNT == line % BUFFER_LINE_COUNT {
          SlotsDiffer(l, line);
        }
        assert Remembers(Slot(s.ring, l), seen[l]);
      }
    }
  }

  lemma {:induction false} SweepKeepsCoherence(
    cfg: Config, s: Sweep, seen: LastSeen, rows: seq<Line>, scrolled: nat, maxBuffered: int, first: nat, line: nat,
    stop: int, saw: bool, cursorLine: int, cursorColumn: int)
    requires RingOk(s.ring) && StateOk(s.emitter) && scrolled <= first <= line <= stop && stop - scrolled <= |rows|
    requires forall i :: 0 <= i < |rows| ==> rows[i] != []
    requires Coherent(s.ring, seen, first, Max(maxBuffered, line - 1))
    requires Max(maxBuffered, stop - 1) < first + BUFFER_LINE_COUNT
    ensures Coherent(SweepLines(cfg, s, rows, scrolled, maxBuffered, line, stop, saw, cursorLine, cursorColumn).ring,
                     Visited(seen, rows, scrolled, line, stop), first, Max(maxBuffered, stop - 1))
    decreases stop - line
  {
    hide VisitRow, Changed, Coherent;
    if line < stop {
      var row, last := rows[line - scrolled], Max(maxBuffered, line - 1);
      var send := saw || line > maxBuffered || Changed(s.ring[line % BUFFER_LINE_COUNT], row);
      var column := if line == cursorLine then cursorColumn else -1;
      VisitKeepsCoherence(cfg, s, seen, first, last, line, row, send, column);
      SweepKeepsCoherence(cfg, VisitRow(cfg, s, line, row, send, column), seen[line := row], rows, scrolled,
                          maxBuffered, first, line + 1, stop, send, cursorLine, cursorColumn);
    }
  }

  lemma {:induction false} Narrows(ring: seq<LineState>, seen: LastSeen, first: nat, last: int, first': nat, last': int)
    requires RingOk(ring) && Coherent(ring, seen, first, last) && first <= first' && (last' <= last || last' < first')
    ensures Coherent(ring, seen, first', last')
  {
  }

  lemma {:induction false} WriteOutKeepsCoherence(cfg: Config, s: Scroll, seen: LastSeen, view: View)
    requires Writable(s, view) && ViewOk(view) && RingOk(s.sweep.ring)
    requires Coherent(s.sweep.ring, seen, s.scraped, s.maxBuffered)
    ensures var next := WriteOut(cfg, s, view);
      && 0 <= next.scraped
      && Coherent(next.sweep.ring, Visited(seen, ScrollRows(view), s.scrolled, s.scraped, StopLine(s, view)),
                  next.scraped, next.maxBuffered)
  {
    hide SweepLines, Coherent, ScrollRows, HideCursor, ShowCursor, Visited;
    var info := view.info;
    var show := view.cursorVisible && CursorIn(info, info.window);
    var cursorLine := if show then info.cursorY + s.scrolled else -1;
    var cursorColumn := if show then info.cursorX else -1;
    var hidden := if show then Step(s.sweep.emitter, []) else HideCursor(cfg, s.sweep.emitter);
    var first, stop := s.scraped, StopLine(s, view);
    var s1 := Sweep(hidden.state, s.sweep.ring, s.sweep.output + hidden.output);
    Narrows(s.sweep.ring, seen, first, s.maxBuffered, first, Max(s.maxBuffered, first - 1));
    SweepKeepsCoherence(cfg, s1, seen, ScrollRows(view), s.scrolled, s.maxBuffered, first, first, stop, false,
                        cursorLine, cursorColumn);
    var next := WriteOut(cfg, s, view);
    Narrows(next.sweep.ring, Visited(seen, ScrollRows(view), s.scrolled, first, stop), first,
            Max(s.maxBuffered, stop - 1), next.scraped, next.maxBuffered);
  }

  /** What has been seen after a scrape: nothing, if the terminal was cleared, and then the lines visited. */
  function SeenAfter(cfg: Config, s: Scroll, seen: LastSeen, view: View): LastSeen
    requires ScrollOk(s) && ViewOk(view) && Ready(s, view)
  {
    var p := Prepared(cfg, s, view);
    var kept := if Clears(s, view) then map[] else seen;
    if p.ok then Visited(kept, ScrollRows(view), p.state.scrolled, p.state.scraped, StopLine(p.state, view)) else kept
  }

  lemma {:induction false} PreparedKeepsCoherence(cfg: Config, s: Scroll, seen: LastSeen, view: View)
    requires ScrollOk(s) && ViewOk(view) && Ready(s, view) && 0 <= s.scraped
    requires RingOk(s.sweep.ring) && Coherent(s.sweep.ring, seen, s.scraped, s.maxBuffered)
    ensures var p := Prepared(cfg, s, view).state;
      && 0 <= p.scraped && RingOk(p.sweep.ring)
      && if Clears(s, view) then p.maxBuffered == -1
         else p.sweep.ring == s.sweep.ring && p.maxBuffered == s.maxBuffered && p.scraped == s.scraped
  {
    hide MarkerRow, Coherent, ScanDirty, Steady, RingOk, StateOk, Reset, ForgottenRing;
  }

  /** A scrape compares each line it has seen with the row that very line last showed, and leaves the ring coherent. */
  lemma {:induction false} ScrapeKeepsCoherence(cfg: Config, s: Scroll, seen: LastSeen, view: View)
    requires ScrollOk(s) && ViewOk(view) && Ready(s, view) && 0 <= s.scraped
    requires Coherent(s.sweep.ring, seen, s.scraped, s.maxBuffered)
    ensures var next := Scrape(cfg, s, view).state;
      0 <= next.scraped && Coherent(next.sweep.ring, SeenAfter(cfg, s, seen, view), next.scraped, next.maxBuffered)
  {
    hide Prepared, WriteOut, Visited, Clears;
    PreparedKeepsCoherence(cfg, s, seen, view);
    var p := Prepared(cfg, s, view);
    if p.ok {
      var kept := if Clears(s, view) then map[] else seen;
      WriteOutKeepsCoherence(cfg, p.state, kept, view);
    }
  }

  function SeenAfterAll(cfg: Config, s: Scroll, seen: LastSeen, views: seq<View>): LastSeen
    requires ScrollOk(s) && AllViewsOk(views) && (views != [] ==> Begins(s, views[0]))
    decreases |views|
  {
    if views == [] then seen
    else
      assert ViewOk(views[0]);
      SeenAfterAll(cfg, Scrape(cfg, s, views[0]).state, SeenAfter(cfg, s, seen, views[0]), views[1..])
  }

  lemma {:induction false} RunKeepsCoherence(cfg: Config, s: Scroll, seen: LastSeen, views: seq<View>)
    requires ScrollOk(s) && AllViewsOk(views) && (views != [] ==> Begins(s, views[0])) && 0 <= s.scraped
    requires Coherent(s.sweep.ring, seen, s.scraped, s.maxBuffered)
    ensures var next := ScrapeRun(cfg, s, views);
      0 <= next.scraped && Coherent(next.sweep.ring, SeenAfterAll(cfg, s, seen, views), next.scraped, next.maxBuffered)
    decreases |views|
  {
    hide Scrape, SeenAfter, Coherent, ScrollOk;
    if views != [] {
      assert ViewOk(views[0]);
      ScrapeKeepsCoherence(cfg, s, seen, views[0]);
      RunKeepsCoherence(cfg, Scrape(cfg, s, views[0]).state, SeenAfter(cfg, s, seen, views[0]), views[1..]);
    }
  }
}
