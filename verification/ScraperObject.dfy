/** The scraper as the object it is, proved against the functions of Scraping. */
module ScraperObject {
  import opened Basics
  import opened Color
  import opened ConsoleLine
  import opened LargeConsoleRead
  import opened Scraping
  import opened TerminalObject
  import E = Emitter

  // ---------- What is read ----------

  /** A rectangle of whole rows holds the same masked rows as the whole buffer. */
  lemma {:induction false} RowsOfRead(view: View, area: Rect)
    requires ViewOk(view) && Inside(view.cells, area)
    requires area.left == 0 && area.width == Min(view.info.bufferWidth, MAX_CONSOLE_WIDTH)
    ensures MaskedArea(view.cells, area, view.mask) == ScrollRows(view)[area.top..area.top + area.height]
  {
  }

  // ---------- What the marker overwrites ----------

  const DEFAULT_ATTRIBUTES: Word := 7

  function BlankRow(width: nat): Line {
    seq(width, _ => CharInfo(0x20, DEFAULT_ATTRIBUTES))
  }

  function MarkerRowCells(width: nat, ch: Word): Line
    requires width >= 1
  {
    BlankRow(width)[0 := CharInfo(ch, DEFAULT_ATTRIBUTES)]
  }

  /** The console's rows with a marker at `row`, and cleared around it. */
  function WithMarker(cells: seq<Line>, row: nat, counter: nat): (r: seq<Line>)
    requires 1 <= row && row + SYNC_MARKER_LEN <= |cells| && forall i :: 0 <= i < |cells| ==> cells[i] != []
    ensures |r| == |cells| && forall i :: 0 <= i < |cells| ==> |r[i]| == |cells[i]|
  {
    seq(|cells|, i requires 0 <= i < |cells| =>
      if row <= i < row + SYNC_MARKER_LEN then MarkerRowCells(|cells[i]|, MarkerText(counter)[i - row])
      else if i == row - 1 then BlankRow(|cells[i]|)
      else cells[i])
  }

  /** A new marker can be found, and it leaves every row from its end on alone. */
  lemma {:induction false} MarkerIsFound(cells: seq<Line>, row: nat, counter: nat)
    requires 1 <= row && row + SYNC_MARKER_LEN <= |cells| && forall i :: 0 <= i < |cells| ==> cells[i] != []
    ensures FindMarker(FirstColumn(WithMarker(cells, row, counter)), row, MarkerText(counter)) == row
    ensures WithMarker(cells, row, counter)[row + SYNC_MARKER_LEN..] == cells[row + SYNC_MARKER_LEN..]
  {
    var column := FirstColumn(WithMarker(cells, row, counter));
    assert column[row..row + SYNC_MARKER_LEN] == MarkerText(counter);
  }

  method Matches(column: seq<Word>, row: nat, marker: seq<Word>) returns (found: bool)
    requires row + |marker| <= |column|
    ensures found == MarkerAt(column, row, marker)
  {
    for j := 0 to |marker|
      invariant column[row..row + j] == marker[..j]
    {
      assert column[row..row + j + 1] == column[row..row + j] + [column[row + j]];
      if column[row + j] != marker[j] {
        assert column[row..row + |marker|][j] != marker[j];
        return false;
      }
    }
    return true;
  }

  // ---------- The object ----------

  class Scraper {
    const terminal: Terminal
    const readBuffer: LargeConsoleReadBuffer
    var columns: nat
    var rows: nat
    var syncRow: int
    var syncCounter: nat
    var scraped: int
    var scrolled: int
    var maxBuffered: int
    var dirtyTop: int
    var dirtyCount: int
    var ring: seq<LineState>

    ghost function Swept(): Sweep
      reads this`ring, terminal
    {
      Sweep(terminal.State(), ring, terminal.output)
    }

    ghost function State(): Scroll
      reads this, terminal
    {
      Scroll(Swept(), syncRow, syncCounter, scraped, scrolled, maxBuffered, dirtyTop, dirtyCount)
    }

    constructor (terminal: Terminal, windowTop: nat, columns: nat, rows: nat)
      requires terminal.Valid()
      modifies terminal
      ensures this.terminal == terminal && this.columns == columns && this.rows == rows
      ensures fresh(readBuffer) && readBuffer.Valid()
      ensures var before := Sweep(old(terminal.State()), ring, old(terminal.output));
        State() == ResetTracking(terminal.cfg, Scroll(before, -1, 0, 0, 0, -1, -1, 0), false, windowTop)
    {
      this.terminal, this.columns, this.rows := terminal, columns, rows;
      readBuffer := new LargeConsoleReadBuffer();
      syncCounter := 0;
      new;
      ResetConsoleTracking(false, windowTop);
    }

    method ResetConsoleTracking(sendClear: bool, line: nat)
      modifies this`ring, this`syncRow, this`scraped, this`scrolled, this`maxBuffered
      modifies this`dirtyTop, this`dirtyCount, terminal
      ensures State() == ResetTracking(terminal.cfg, old(State()), sendClear, line)
    {
      ring := seq(BUFFER_LINE_COUNT, _ => FORGOTTEN);
      assert ring == ForgottenRing();
      syncRow, scraped, scrolled := -1, line, 0;
      maxBuffered, dirtyTop, dirtyCount := -1, -1, 0;
      terminal.Reset(sendClear, scraped);
    }

    // ---------- Direct mode ----------

    method DirectScrapeOutput(frame: Frame, console: ConsoleBuffer, large: bool)
      requires RingOk(ring) && terminal.Valid() && FrameOk(frame, columns, rows)
      requires console.Valid() && console.cells == frame.cells
      modifies this`ring, terminal, readBuffer, console`log
      ensures Swept() == DirectScrape(terminal.cfg, old(Swept()), frame, columns, rows)
    {
      hide E.HideCursor, E.ShowCursor, E.SendLine, MaskedArea;
      var area := DirectRect(frame.info, columns, rows);
      var show := frame.cursorVisible && CursorIn(frame.info, area);
      var cursorColumn := if show then frame.info.cursorX - area.left else -1;
      var cursorLine := if show then frame.info.cursorY - area.top else -1;
      assert Swept().output + [] == Swept().output;
      if !show {
        terminal.HideTerminalCursor();
      }
      ghost var hidden := Swept();
      assert |console.cells[area.top]| == console.width;
      Read(readBuffer, console, area, frame.mask, large);
      SendLines(cursorLine, cursorColumn);
      assert Swept() == SendDirect(terminal.cfg, hidden, DirectRows(frame, columns, rows), 0, cursorLine, cursorColumn);
      assert Swept().output + [] == Swept().output;
      if show {
        terminal.ShowTerminalCursor(cursorColumn, cursorLine);
      }
    }

    /** The loop of a direct scrape over the lines just read. */
    method SendLines(cursorLine: int, cursorColumn: int)
      requires RingOk(ring) && terminal.Valid() && readBuffer.Valid()
      requires 1 <= readBuffer.rect.height <= BUFFER_LINE_COUNT && 1 <= readBuffer.rect.width
      modifies this`ring, terminal
      ensures RingOk(ring) && terminal.Valid()
      ensures Swept() == SendDirect(terminal.cfg, old(Swept()), readBuffer.rows, 0, cursorLine, cursorColumn)
    {
      hide E.SendLine, Changed, SetLine;
      ghost var lines := readBuffer.rows;
      var line := 0;
      while line < readBuffer.rect.height
        invariant 0 <= line <= |lines| && RingOk(ring) && terminal.Valid()
        invariant SendDirect(terminal.cfg, Swept(), lines, line, cursorLine, cursorColumn)
               == SendDirect(terminal.cfg, old(Swept()), lines, 0, cursorLine, cursorColumn)
      {
        ghost var before := Swept();
        var read := readBuffer.LineData(readBuffer.rect.top + line);
        var cells := read.value;
        assert cells == lines[line];
        var lineCursorColumn := if line == cursorLine then cursorColumn else -1;
        var changed := Changed(ring[line], cells);
        ring := ring[line := SetLine(ring[line], cells)];
        assert Swept().output + [] == Swept().output;
        if changed {
          terminal.SendLine(line, cells, lineCursorColumn);
        }
        assert Swept() == VisitDirect(terminal.cfg, before, line, cells, lineCursorColumn);
        line := line + 1;
      }
    }

    // ---------- The marker ----------

    /** The row of the marker, searched upward from where it was, or -1. */
    method FindSyncMarker(column: seq<Word>) returns (row: int)
      requires 0 <= syncRow && syncRow + SYNC_MARKER_LEN <= |column|
      ensures row == FindMarker(column, syncRow, MarkerText(syncCounter))
    {
      hide MarkerText;
      var marker := MarkerText(syncCounter);
      row := syncRow;
      while row >= 0
        invariant -1 <= row <= syncRow
        invariant FindMarker(column, row, marker) == FindMarker(column, syncRow, marker)
      {
        var found := Matches(column, row, marker);
        if found {
          return;
        }
        row := row - 1;
      }
    }

    method CreateSyncMarker(row: nat, console: ConsoleBuffer)
      requires console.Valid() && 1 <= row && row + SYNC_MARKER_LEN <= |console.cells| && console.width >= 1
      modifies this`syncRow, this`syncCounter, console`cells
      ensures syncRow == row && syncCounter == NextCounter(old(syncCounter))
      ensures console.Valid() && (forall i :: 0 <= i < |old(console.cells)| ==> old(console.cells)[i] != [])
      ensures console.cells == WithMarker(old(console.cells), row, syncCounter)
    {
      assert forall i :: 0 <= i < |console.cells| ==> |console.cells[i]| == console.width;
      syncCounter := (syncCounter + 1) % 0x1_0000_0000;
      syncRow := row;
      console.cells := WithMarker(console.cells, row, syncCounter);
    }

    // ---------- Scrolling mode ----------

    method MarkEntireWindowDirty(info: Info)
      modifies this`dirtyCount
      ensures dirtyCount == Max(old(dirtyCount), WindowStop(info))
    {
      dirtyCount := Max(dirtyCount, info.window.top + info.window.height);
    }

    method FollowSyncMarker(view: View) returns (ok: bool)
      requires ScrollOk(State()) && ViewOk(view) && Ready(State(), view)
      modifies this`ring, this`syncRow, this`scraped, this`scrolled, this`maxBuffered
      modifies this`dirtyTop, this`dirtyCount, terminal
      ensures Outcome(State(), ok) == FollowMarker(terminal.cfg, old(State()), view)
    {
      hide ResetTracking;
      ok := true;
      if syncRow != -1 {
        var markerRow := FindSyncMarker(FirstColumn(view.before));
        if markerRow == -1 {
          if view.tentative {
            return false;
          }
          ResetConsoleTracking(true, view.info.window.top);
        } else if markerRow != syncRow {
          assert markerRow < syncRow;
          scrolled := scrolled + (syncRow - markerRow);
          syncRow := markerRow;
          MarkEntireWindowDirty(view.info);
        }
      }
    }

    method FollowDirtyWindow(view: View) returns (ok: bool)
      requires ScrollOk(State()) && ViewOk(view) && Ready(State(), view)
      modifies this`ring, this`syncRow, this`scraped, this`scrolled, this`maxBuffered
      modifies this`dirtyTop, this`dirtyCount, terminal
      ensures Outcome(State(), ok) == FollowWindow(terminal.cfg, old(State()), view)
    {
      hide ResetTracking;
      ok := true;
      if dirtyTop != -1 {
        if view.info.window.top > dirtyTop {
          MarkEntireWindowDirty(view.info);
        } else if view.info.window.top < dirtyTop {
          if view.tentative {
            return false;
          }
          ResetConsoleTracking(true, view.info.window.top);
        }
      }
    }

    /** Every line read below lies in the rectangle read. */
    ghost predicate HasRead(view: View, first: int)
      reads this, readBuffer
      requires ViewOk(view)
    {
      var rect := readBuffer.rect;
      && readBuffer.Valid() && 0 <= rect.top <= first < rect.top + rect.height <= BUFFER_LINE_COUNT
      && WindowStop(view.info) <= rect.top + rect.height
      && readBuffer.rows == ScrollRows(view)[rect.top..rect.top + rect.height]
      && 1 <= rect.width
    }

    method ScanForDirtyLines(view: View)
      requires ViewOk(view) && 1 <= dirtyCount <= BUFFER_LINE_COUNT && HasRead(view, dirtyCount - 1)
      modifies this`dirtyCount
      ensures dirtyCount == ScanDirty(ScrollRows(view), old(dirtyCount), WindowStop(view.info), old(dirtyCount))
    {
      hide ScrollRows;
      ghost var rows := ScrollRows(view);
      var rect := readBuffer.rect;
      var above := readBuffer.LineData(dirtyCount - 1);
      assert above.value == rows[dirtyCount - 1];
      var prevAttributes := LastAttributes(above.value);
      var line := dirtyCount;
      while line < WindowStop(view.info)
        invariant old(dirtyCount) <= line
        invariant line <= |rows| && prevAttributes == LastAttributes(rows[line - 1])
        invariant ScanDirty(rows, line, WindowStop(view.info), dirtyCount)
               == ScanDirty(rows, old(dirtyCount), WindowStop(view.info), old(dirtyCount))
      {
        var read := readBuffer.LineData(line);
        assert read.value == rows[line];
        var blank := LineIsBlank(read.value, prevAttributes);
        if !blank {
          dirtyCount := line + 1;
        }
        prevAttributes := LastAttributes(read.value);
        line := line + 1;
      }
    }

    /** Reads every line needed: those not scraped yet, the window, and the line above the first one to scan. */
    method ReadLines(view: View, console: ConsoleBuffer, large: bool)
      requires ViewOk(view) && ScrollOk(State()) && 1 <= dirtyCount && dirtyTop == view.info.window.top <= dirtyCount
      requires scraped <= view.info.window.top + scrolled
      requires console.Valid() && console.cells == view.cells
      modifies readBuffer, console`log
      ensures HasRead(view, dirtyCount - 1) && HasRead(view, scraped - scrolled)
    {
      hide MaskedArea, RingOk;
      var info := view.info;
      var firstVirtLine := Min(scraped, info.window.top + scrolled);
      var firstReadLine := Min(firstVirtLine - scrolled, dirtyCount - 1);
      var stopReadLine := Max(info.window.top + info.window.height, dirtyCount);
      assert firstReadLine >= 0 && stopReadLine > firstReadLine;
      var area := Rect(0, firstReadLine, Min(info.bufferWidth, MAX_CONSOLE_WIDTH), stopReadLine - firstReadLine);
      assert |console.cells[0]| == console.width == info.bufferWidth;
      Read(readBuffer, console, area, view.mask, large);
      RowsOfRead(view, area);
    }

    /** Set a line known to be modified, compare any other, and send it if it is or was modified. */
    method VisitBufferedLine(line: nat, cells: Line, saw: bool, lineCursorColumn: int) returns (sawModifiedLine: bool)
      requires RingOk(ring) && terminal.Valid() && cells != []
      modifies this`ring, terminal
      ensures RingOk(ring) && terminal.Valid()
      ensures sawModifiedLine == (saw || Changed(old(ring)[line % BUFFER_LINE_COUNT], cells))
      ensures Swept() == VisitRow(terminal.cfg, old(Swept()), line, cells, sawModifiedLine, lineCursorColumn)
    {
      hide E.SendLine, Changed, SetLine;
      var slot := line % BUFFER_LINE_COUNT;
      sawModifiedLine := saw;
      if !sawModifiedLine {
        sawModifiedLine := Changed(ring[slot], cells);
      }
      ring := ring[slot := SetLine(ring[slot], cells)];
      assert Swept().output + [] == Swept().output;
      if sawModifiedLine {
        terminal.SendLine(line, cells, lineCursorColumn);
      }
      assert Swept() == VisitRow(terminal.cfg, old(Swept()), line, cells, sawModifiedLine, lineCursorColumn);
    }

    method ReadLine(view: View, ghost first: int, row: int) returns (cells: Line)
      requires ViewOk(view) && HasRead(view, first) && first <= row < readBuffer.rect.top + readBuffer.rect.height
      ensures cells == ScrollRows(view)[row]
    {
      hide ScrollRows;
      var read := readBuffer.LineData(row);
      cells := read.value;
    }

    /** The loop of a scrolling scrape. */
    method SweepVirtualLines(view: View, first: nat, stop: int, cursorLine: int, cursorColumn: int)
      requires ViewOk(view) && RingOk(ring) && terminal.Valid() && 0 <= scrolled <= first <= stop
      requires stop - scrolled <= BUFFER_LINE_COUNT
      requires HasRead(view, first - scrolled) && stop - scrolled <= readBuffer.rect.top + readBuffer.rect.height
      modifies this`ring, this`maxBuffered, terminal
      ensures RingOk(ring) && terminal.Valid()
      ensures Swept() ==
        SweepLines(terminal.cfg, old(Swept()), ScrollRows(view), scrolled, old(maxBuffered), first, stop, false,
                   cursorLine, cursorColumn)
      ensures maxBuffered == if first < stop then Max(old(maxBuffered), stop - 1) else old(maxBuffered)
    {
      hide E.SendLine, Changed, SetLine, ScrollRows, RingOk, VisitRow, E.StateOk;
      ghost var rows, last := ScrollRows(view), maxBuffered;
      var sawModifiedLine := false;
      var line := first;
      while line < stop
        invariant first <= line <= stop && RingOk(ring) && terminal.Valid()
        invariant maxBuffered == if first < line then Max(last, line - 1) else last
        invariant
          SweepLines(terminal.cfg, Swept(), rows, scrolled, last, line, stop, sawModifiedLine, cursorLine,
                     cursorColumn) ==
          SweepLines(terminal.cfg, old(Swept()), rows, scrolled, last, first, stop, false, cursorLine, cursorColumn)
      {
        var cells := ReadLine(view, first - scrolled, line - scrolled);
        if line > maxBuffered {
          maxBuffered := line;
          sawModifiedLine := true;
        }
        var lineCursorColumn := if line == cursorLine then cursorColumn else -1;
        sawModifiedLine := VisitBufferedLine(line, cells, sawModifiedLine, lineCursorColumn);
        line := line + 1;
      }
    }

    method WriteLines(view: View)
      requires ViewOk(view) && Writable(State(), view) && HasRead(view, scraped - scrolled)
      requires readBuffer.rect.top + readBuffer.rect.height >= StopLine(State(), view) - scrolled
      modifies this`ring, this`maxBuffered, this`scraped, terminal
      ensures State() == WriteOut(terminal.cfg, old(State()), view)
    {
      hide SweepLines, ScrollRows, E.HideCursor, E.ShowCursor;
      var info := view.info;
      var firstVirtLine := Min(scraped, info.window.top + scrolled);
      var stopVirtLine := Min(dirtyCount, info.window.top + info.window.height) + scrolled;
      var show := view.cursorVisible && CursorIn(info, info.window);
      var cursorLine := if show then info.cursorY + scrolled else -1;
      var cursorColumn := if show then info.cursorX else -1;
      assert Swept().output + [] == Swept().output;
      if !show {
        terminal.HideTerminalCursor();
      }
      SweepVirtualLines(view, firstVirtLine, stopVirtLine, cursorLine, cursorColumn);
      scraped := info.window.top + scrolled;
      assert Swept().output + [] == Swept().output;
      if show {
        terminal.ShowTerminalCursor(cursorColumn, cursorLine);
      }
    }

    method StayedPut(view: View) returns (still: bool)
      requires ViewOk(view) && ScrollOk(State())
      ensures still == Steady(State(), view)
    {
      still := view.infoAfter == view.info;
      if still && syncRow != -1 {
        var markerRow := FindSyncMarker(FirstColumn(view.after));
        still := syncRow == markerRow;
      }
    }

    /** Where the marker and the window are, and whether a new marker is wanted. */
    method Locate(view: View) returns (ok: bool, shouldCreateSyncRow: bool)
      requires ScrollOk(State()) && ViewOk(view) && Ready(State(), view)
      modifies this`ring, this`syncRow, this`scraped, this`scrolled, this`maxBuffered
      modifies this`dirtyTop, this`dirtyCount, terminal
      ensures Outcome(State(), ok) == Located(terminal.cfg, old(State()), view)
      ensures ok ==> shouldCreateSyncRow == ShouldCreate(FollowMarker(terminal.cfg, old(State()), view).state, view)
    {
      hide FollowMarker, FollowWindow, RingOk, E.StateOk;
      shouldCreateSyncRow := false;
      ok := FollowSyncMarker(view);
      if ok {
        var newSyncRow := view.info.window.top - SYNC_MARKER_LEN - SYNC_MARKER_MARGIN;
        shouldCreateSyncRow := newSyncRow >= syncRow + SYNC_MARKER_LEN + SYNC_MARKER_MARGIN;
        if view.tentative && shouldCreateSyncRow {
          return false, shouldCreateSyncRow;
        }
        ok := FollowDirtyWindow(view);
      }
    }

    /** Reads all that is needed; `still` says that the console has not moved meanwhile. */
    method MarkAndRead(view: View, console: ConsoleBuffer, large: bool) returns (still: bool)
      requires ScrollOk(State()) && ViewOk(view) && Ready(State(), view) && dirtyTop <= view.info.window.top
      requires console.Valid() && console.cells == view.cells
      modifies this`dirtyTop, this`dirtyCount, readBuffer, console`log
      ensures State() == MarkDirty(old(State()), view)
      ensures HasRead(view, dirtyCount - 1) && HasRead(view, scraped - scrolled)
      ensures still == (!view.tentative || Steady(State(), view))
    {
      hide ScrollRows, RingOk, E.StateOk, Steady;
      dirtyTop := view.info.window.top;
      dirtyCount := Max(Max(dirtyCount, view.info.cursorY + 1), dirtyTop);
      ReadLines(view, console, large);
      still := true;
      if view.tentative {
        still := StayedPut(view);
      }
    }

    /** Everything up to the writing. A marker is created only above the window, after the rows have been read. */
    method PrepareScrape(view: View, console: ConsoleBuffer, large: bool) returns (ok: bool)
      requires ScrollOk(State()) && ViewOk(view) && Ready(State(), view)
      requires console.Valid() && console.cells == view.cells
      modifies this`ring, this`syncRow, this`syncCounter, this`scraped, this`scrolled, this`maxBuffered
      modifies this`dirtyTop, this`dirtyCount, terminal, readBuffer, console`cells, console`log
      ensures Outcome(State(), ok) == Prepared(terminal.cfg, old(State()), view)
      ensures ok ==> HasRead(view, scraped - scrolled)
      ensures ok ==> readBuffer.rect.top + readBuffer.rect.height >= StopLine(State(), view) - scrolled
      ensures console.cells == view.cells || (ok && Marked(view, console))
    {
      hide FollowMarker, Located, Steady, ScanDirty, ScrollRows, RingOk, E.StateOk;
      var create;
      ok, create := Locate(view);
      if ok {
        ok := MarkAndRead(view, console, large);
        if ok {
          CreateAndScan(view, create, console);
        }
      }
    }

    /** The console's buffer is as it was but for a marker above the window. */
    ghost predicate Marked(view: View, console: ConsoleBuffer)
      requires ViewOk(view)
      reads this, console
    {
      && syncRow == NewSyncRow(view) >= 1
      && (forall i :: 0 <= i < |view.cells| ==> view.cells[i] != [])
      && console.cells == WithMarker(view.cells, syncRow, syncCounter)
    }

    method CreateAndScan(view: View, create: bool, console: ConsoleBuffer)
      requires ViewOk(view) && RingOk(ring) && 1 <= dirtyCount <= BUFFER_LINE_COUNT && HasRead(view, dirtyCount - 1)
      requires console.Valid() && console.cells == view.cells && (create ==> 1 <= NewSyncRow(view))
      modifies this`syncRow, this`syncCounter, this`dirtyCount, console`cells
      ensures var created := if create then CreateMarker(old(State()), NewSyncRow(view)) else old(State());
        State() ==
        created.(dirtyCount :=
          ScanDirty(ScrollRows(view), created.dirtyCount, WindowStop(view.info), created.dirtyCount))
      ensures if create then Marked(view, console) else console.cells == view.cells
    {
      hide ScanDirty, ScrollRows;
      if create {
        assert |console.cells[0]| == console.width == view.info.bufferWidth;
        CreateSyncMarker(NewSyncRow(view), console);
      }
      ScanForDirtyLines(view);
    }

    /** One scrolling scrape; a tentative one that finds the console moving gives up and says so. */
    method ScrollingScrapeOutput(view: View, console: ConsoleBuffer, large: bool) returns (ok: bool)
      requires ScrollOk(State()) && ViewOk(view) && Ready(State(), view)
      requires console.Valid() && console.cells == view.cells
      modifies this`ring, this`syncRow, this`syncCounter, this`scraped, this`scrolled, this`maxBuffered
      modifies this`dirtyTop, this`dirtyCount, terminal, readBuffer, console`cells, console`log
      ensures Outcome(State(), ok) == Scrape(terminal.cfg, old(State()), view)
      ensures console.cells == view.cells || (ok && Marked(view, console))
    {
      hide Prepared, WriteOut;
      ok := PrepareScrape(view, console, large);
      if ok {
        WriteLines(view);
      }
    }
  }
}
