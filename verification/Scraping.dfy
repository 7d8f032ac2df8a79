/** What one scrape does, as functions: the direct mode of full-screen programs and the scrolling mode of shells. */
module Scraping {
  import opened Basics
  import opened Color
  import opened Emitter
  import opened ConsoleLine
  import opened LargeConsoleRead

  const BUFFER_LINE_COUNT := 3000
  const SYNC_MARKER_LEN := 16
  const SYNC_MARKER_MARGIN := 200

  datatype Info = Info(bufferWidth: int, bufferHeight: int, window: Rect, cursorX: int, cursorY: int)

  predicate CursorIn(info: Info, area: Rect) {
    && area.left <= info.cursorX < area.left + area.width
    && area.top <= info.cursorY < area.top + area.height
  }

  // ---------- Direct mode ----------

  /** A console screen at the moment it is scraped. */
  datatype Frame = Frame(info: Info, cells: seq<Line>, mask: Mask, cursorVisible: bool)

  /** The part of the window that fits the terminal. */
  function DirectRect(info: Info, columns: nat, rows: nat): Rect {
    Rect(info.window.left, info.window.top,
         Min(Min(info.window.width, columns), MAX_CONSOLE_WIDTH),
         Min(Min(info.window.height, rows), BUFFER_LINE_COUNT))
  }

  ghost predicate FrameOk(frame: Frame, columns: nat, rows: nat) {
    Inside(frame.cells, DirectRect(frame.info, columns, rows))
  }

  function DirectRows(frame: Frame, columns: nat, rows: nat): seq<Line>
    requires FrameOk(frame, columns, rows)
  {
    MaskedArea(frame.cells, DirectRect(frame.info, columns, rows), frame.mask)
  }

  /** The emitter, the lines last seen, and what has been written. */
  datatype Sweep = Sweep(emitter: State, ring: seq<LineState>, output: Bytes)

  ghost predicate RingOk(ring: seq<LineState>) {
    |ring| == BUFFER_LINE_COUNT && forall i :: 0 <= i < |ring| ==> LineStateOk(ring[i])
  }

  /** Visit one line: remember it, and send it if asked to. */
  function VisitRow(cfg: Config, s: Sweep, line: nat, row: Line, send: bool, cursorColumn: int): (r: Sweep)
    requires RingOk(s.ring) && StateOk(s.emitter) && row != []
    ensures RingOk(r.ring) && StateOk(r.emitter)
  {
    var slot := line % BUFFER_LINE_COUNT;
    var step := if send then SendLine(cfg, s.emitter, line, row, cursorColumn) else Step(s.emitter, []);
    Sweep(step.state, s.ring[slot := SetLine(s.ring[slot], row)], s.output + step.output)
  }

  function VisitDirect(cfg: Config, s: Sweep, line: nat, row: Line, cursorColumn: int): (r: Sweep)
    requires RingOk(s.ring) && StateOk(s.emitter) && line < BUFFER_LINE_COUNT && row != []
    ensures RingOk(r.ring) && StateOk(r.emitter)
  {
    VisitRow(cfg, s, line, row, Changed(s.ring[line], row), cursorColumn)
  }

  function SendDirect(cfg: Config, s: Sweep, rows: seq<Line>, line: nat, cursorLine: int, cursorColumn: int): (r: Sweep)
    requires RingOk(s.ring) && StateOk(s.emitter) && line <= |rows| <= BUFFER_LINE_COUNT
    requires forall i :: 0 <= i < |rows| ==> rows[i] != []
    ensures RingOk(r.ring) && StateOk(r.emitter)
    decreases |rows| - line
  {
    if line == |rows| then s
    else
      SendDirect(cfg, VisitDirect(cfg, s, line, rows[line], if line == cursorLine then cursorColumn else -1),
                 rows, line + 1, cursorLine, cursorColumn)
  }

  function DirectScrape(cfg: Config, s: Sweep, frame: Frame, columns: nat, rows: nat): (r: Sweep)
    requires RingOk(s.ring) && StateOk(s.emitter) && FrameOk(frame, columns, rows)
    ensures RingOk(r.ring) && StateOk(r.emitter)
  {
    var area := DirectRect(frame.info, columns, rows);
    var show := frame.cursorVisible && CursorIn(frame.info, area);
    var cursorColumn := if show then frame.info.cursorX - area.left else -1;
    var cursorLine := if show then frame.info.cursorY - area.top else -1;
    var hidden := if show then Step(s.emitter, []) else HideCursor(cfg, s.emitter);
    var sent := SendDirect(cfg, Sweep(hidden.state, s.ring, s.output + hidden.output),
                           DirectRows(frame, columns, rows), 0, cursorLine, cursorColumn);
    if show then
      var shown := ShowCursor(cfg, sent.emitter, cursorColumn, cursorLine);
      Sweep(shown.state, sent.ring, sent.output + shown.output)
    else sent
  }

  function DirectRun(cfg: Config, s: Sweep, frames: seq<Frame>, columns: nat, rows: nat): (r: Sweep)
    requires RingOk(s.ring) && StateOk(s.emitter)
    requires forall i :: 0 <= i < |frames| ==> FrameOk(frames[i], columns, rows)
    ensures RingOk(r.ring) && StateOk(r.emitter)
    decreases |frames|
  {
    if frames == [] then s
    else DirectRun(cfg, DirectScrape(cfg, s, frames[0], columns, rows), frames[1..], columns, rows)
  }

  function ForgottenRing(): (ring: seq<LineState>)
    ensures RingOk(ring)
  {
    seq(BUFFER_LINE_COUNT, _ => FORGOTTEN)
  }

  // ---------- Scrolling mode ----------

  /**
    What one scrolling scrape finds out about the console. When the console is not frozen, its position and its cells
    are read at different times: `before` is what the first search for the marker sees, `cells` what is scraped,
    `infoAfter` and `after` what the final checks see.
   */
  datatype View = View(
    info: Info, cursorVisible: bool, mask: Mask, tentative: bool,
    before: seq<Line>, cells: seq<Line>, infoAfter: Info, after: seq<Line>)

  /** Virtual lines keep their number when the console scrolls: row `r` is line `r + scrolled`. */
  datatype Scroll = Scroll(
    sweep: Sweep, syncRow: int, syncCounter: nat, scraped: int, scrolled: int, maxBuffered: int,
    dirtyTop: int, dirtyCount: int)

  function WindowStop(info: Info): int {
    info.window.top + info.window.height
  }

  ghost predicate InfoOk(info: Info) {
    && info.bufferHeight == BUFFER_LINE_COUNT && 1 <= info.bufferWidth
    && 0 <= info.window.top && 1 <= info.window.height && WindowStop(info) <= BUFFER_LINE_COUNT
    && 0 <= info.cursorY < BUFFER_LINE_COUNT && 0 <= info.cursorX < info.bufferWidth
  }

  ghost predicate CellsOk(cells: seq<Line>, width: nat) {
    |cells| == BUFFER_LINE_COUNT && forall r :: 0 <= r < |cells| ==> |cells[r]| == width
  }

  ghost predicate ViewOk(view: View) {
    && InfoOk(view.info)
    && CellsOk(view.before, view.info.bufferWidth) && CellsOk(view.cells, view.info.bufferWidth)
    && CellsOk(view.after, view.info.bufferWidth)
  }

  /** The counters agree with each other; every row number computed from them is inside the buffer. */
  ghost predicate CountersOk(s: Scroll) {
    && s.scrolled >= 0
    && -1 <= s.syncRow && -1 <= s.dirtyTop < BUFFER_LINE_COUNT
    && (s.syncRow == -1 ==> s.scrolled == 0)
    && (s.syncRow != -1 ==> s.syncRow + SYNC_MARKER_LEN + SYNC_MARKER_MARGIN <= Min(s.dirtyTop, s.scraped - s.scrolled))
    && (s.dirtyTop != -1 ==> s.scraped <= s.dirtyTop + s.scrolled)
    && 0 <= s.scraped - s.scrolled
    && -1 <= s.maxBuffered < s.scrolled + BUFFER_LINE_COUNT
    && 0 <= s.dirtyCount <= BUFFER_LINE_COUNT
  }

  ghost predicate ScrollOk(s: Scroll) {
    CountersOk(s) && RingOk(s.sweep.ring) && StateOk(s.sweep.emitter)
  }

  /** A tracker that has not scraped yet starts no lower than the window. */
  predicate Ready(s: Scroll, view: View) {
    s.dirtyTop == -1 ==> s.scraped <= view.info.window.top
  }

  // ---------- The sync marker ----------

  function HexDigit(d: nat): Word
    requires d < 16
  {
    if d < 10 then '0' as int + d else 'a' as int + d - 10
  }

  function HexDigits(n: nat, count: nat): (r: seq<Word>)
    ensures |r| == count
  {
    if count == 0 then [] else HexDigits(n / 16, count - 1) + [HexDigit(n % 16)]
  }

  function MarkerText(counter: nat): (r: seq<Word>)
    ensures |r| == SYNC_MARKER_LEN
  {
    var word := ['S' as int, '*' as int, 'Y' as int, '*' as int, 'N' as int, '*' as int, 'C' as int, '*' as int];
    word + HexDigits(counter, 8)
  }

  function NextCounter(counter: nat): nat {
    (counter + 1) % 0x1_0000_0000
  }

  /** The characters of the console's first column. */
  function FirstColumn(cells: seq<Line>): (column: seq<Word>)
    requires forall r :: 0 <= r < |cells| ==> cells[r] != []
    ensures |column| == |cells|
  {
    seq(|cells|, r requires 0 <= r < |cells| => cells[r][0].ch)
  }

  predicate MarkerAt(column: seq<Word>, row: int, marker: seq<Word>) {
    0 <= row && row + |marker| <= |column| && column[row..row + |marker|] == marker
  }

  /** The lowest row at or above `row` where the marker stands, or -1. */
  function FindMarker(column: seq<Word>, row: int, marker: seq<Word>): (r: int)
    ensures -1 <= r
    ensures r != -1 ==> r <= row && MarkerAt(column, r, marker)
    ensures forall i :: Max(r, -1) < i <= row ==> !MarkerAt(column, i, marker)
    decreases row + 1
  {
    if row < 0 then -1 else if MarkerAt(column, row, marker) then row else FindMarker(column, row - 1, marker)
  }

  function MarkerRow(s: Scroll, cells: seq<Line>): int
    requires forall r :: 0 <= r < |cells| ==> cells[r] != []
  {
    FindMarker(FirstColumn(cells), s.syncRow, MarkerText(s.syncCounter))
  }

  // ---------- Dirty lines ----------

  function LastAttributes(row: Line): Word
    requires row != []
  {
    row[|row| - 1].attributes
  }

  /** Advance `count` over every line from `line` on that is not blank in the attributes the line above ends with. */
  function ScanDirty(rows: seq<Line>, line: int, stop: int, count: int): (r: int)
    requires 1 <= line && stop <= |rows| && forall r :: 0 <= r < |rows| ==> rows[r] != []
    ensures count <= line ==> count <= r <= Max(count, stop)
    decreases stop - line
  {
    if line >= stop then count
    else
      var blank := IsLineBlank(rows[line], LastAttributes(rows[line - 1]));
      ScanDirty(rows, line + 1, stop, if blank then count else line + 1)
  }

  // ---------- One scrape ----------

  /** The rows of the console, as scraped. */
  function ScrollRows(view: View): (rows: seq<Line>)
    requires ViewOk(view)
    ensures |rows| == BUFFER_LINE_COUNT
    ensures forall r :: 0 <= r < |rows| ==> rows[r] != [] && |rows[r]| <= view.info.bufferWidth
  {
    MaskedArea(view.cells, Rect(0, 0, Min(view.info.bufferWidth, MAX_CONSOLE_WIDTH), BUFFER_LINE_COUNT), view.mask)
  }

  function ResetTracking(cfg: Config, s: Scroll, sendClear: bool, line: nat): (r: Scroll)
    ensures ScrollOk(r)
  {
    var step := Reset(cfg, s.sweep.emitter, sendClear, line);
    Scroll(Sweep(step.state, ForgottenRing(), s.sweep.output + step.output), -1, s.syncCounter, line, 0, -1, -1, 0)
  }

  /** A state, and whether the scrape goes on. */
  datatype Outcome = Outcome(state: Scroll, ok: bool)

  /** How far the console has scrolled since the last scrape, told by where the marker now stands. */
  function FollowMarker(cfg: Config, s: Scroll, view: View): (r: Outcome)
    requires ScrollOk(s) && ViewOk(view) && Ready(s, view)
    ensures ScrollOk(r.state) && Ready(r.state, view)
  {
    if s.syncRow == -1 then Outcome(s, true)
    else
      var row := MarkerRow(s, view.before);
      if row == -1 then
        if view.tentative then Outcome(s, false)
        else Outcome(ResetTracking(cfg, s, true, view.info.window.top), true)
      else if row != s.syncRow then
        Outcome(s.(scrolled := s.scrolled + (s.syncRow - row), syncRow := row,
                   dirtyCount := Max(s.dirtyCount, WindowStop(view.info))), true)
      else Outcome(s, true)
  }

  function NewSyncRow(view: View): int {
    view.info.window.top - SYNC_MARKER_LEN - SYNC_MARKER_MARGIN
  }

  predicate ShouldCreate(s: Scroll, view: View) {
    NewSyncRow(view) >= s.syncRow + SYNC_MARKER_LEN + SYNC_MARKER_MARGIN
  }

  /** Everything in a window that moved down is dirty; one that moved up starts the terminal afresh. */
  function FollowWindow(cfg: Config, s: Scroll, view: View): (r: Outcome)
    requires ScrollOk(s) && ViewOk(view) && Ready(s, view)
    ensures ScrollOk(r.state) && Ready(r.state, view)
    ensures r.ok ==> r.state.dirtyTop <= view.info.window.top
  {
    var top := view.info.window.top;
    if s.dirtyTop == -1 || top == s.dirtyTop then Outcome(s, true)
    else if top > s.dirtyTop then Outcome(s.(dirtyCount := Max(s.dirtyCount, WindowStop(view.info))), true)
    else if view.tentative then Outcome(s, false)
    else Outcome(ResetTracking(cfg, s, true, top), true)
  }

  function MarkDirty(s: Scroll, view: View): Scroll {
    var top := view.info.window.top;
    s.(dirtyTop := top, dirtyCount := Max(Max(s.dirtyCount, view.info.cursorY + 1), top))
  }

  /** Nothing moved while the cells were being read. */
  predicate Steady(s: Scroll, view: View)
    requires ViewOk(view)
  {
    view.infoAfter == view.info && (s.syncRow == -1 || s.syncRow == MarkerRow(s, view.after))
  }

  function CreateMarker(s: Scroll, row: int): Scroll {
    s.(syncRow := row, syncCounter := NextCounter(s.syncCounter))
  }

  function FirstLine(s: Scroll, view: View): int {
    Min(s.scraped, view.info.window.top + s.scrolled)
  }

  function StopLine(s: Scroll, view: View): int {
    Min(s.dirtyCount, WindowStop(view.info)) + s.scrolled
  }

  /** From `line` to `stop`, send every line after the first that is new or changed. */
  function SweepLines(
    cfg: Config, s: Sweep, rows: seq<Line>, scrolled: nat, maxBuffered: int, line: int, stop: int, saw: bool,
    cursorLine: int, cursorColumn: int): (r: Sweep)
    requires RingOk(s.ring) && StateOk(s.emitter) && scrolled <= line && stop - scrolled <= |rows|
    requires forall r :: 0 <= r < |rows| ==> rows[r] != []
    ensures RingOk(r.ring) && StateOk(r.emitter)
    decreases stop - line
  {
    if line >= stop then s
    else
      var row := rows[line - scrolled];
      var send := saw || line > maxBuffered || Changed(s.ring[line % BUFFER_LINE_COUNT], row);
      SweepLines(cfg, VisitRow(cfg, s, line, row, send, if line == cursorLine then cursorColumn else -1),
                 rows, scrolled, maxBuffered, line + 1, stop, send, cursorLine, cursorColumn)
  }

  /**
    Ready to write: what is left to do is to count the lines above the window as scraped. A marker may just have been
    put below lines that are still to be written.
   */
  ghost predicate Writable(s: Scroll, view: View) {
    && ScrollOk(s.(scraped := view.info.window.top + s.scrolled))
    && s.dirtyTop == view.info.window.top && Max(view.info.cursorY + 1, view.info.window.top) <= s.dirtyCount
    && s.scrolled <= s.scraped <= view.info.window.top + s.scrolled
  }

  /** The part of a scrape that writes to the terminal. */
  function WriteOut(cfg: Config, s: Scroll, view: View): (r: Scroll)
    requires Writable(s, view) && ViewOk(view)
    ensures ScrollOk(r)
  {
    var info := view.info;
    var show := view.cursorVisible && CursorIn(info, info.window);
    var cursorLine := if show then info.cursorY + s.scrolled else -1;
    var cursorColumn := if show then info.cursorX else -1;
    var hidden := if show then Step(s.sweep.emitter, []) else HideCursor(cfg, s.sweep.emitter);
    var first, stop := FirstLine(s, view), StopLine(s, view);
    var swept := SweepLines(cfg, Sweep(hidden.state, s.sweep.ring, s.sweep.output + hidden.output), ScrollRows(view),
                            s.scrolled, s.maxBuffered, first, stop, false, cursorLine, cursorColumn);
    var shown := if show then ShowCursor(cfg, swept.emitter, cursorColumn, cursorLine) else Step(swept.emitter, []);
    s.(sweep := Sweep(shown.state, swept.ring, swept.output + shown.output),
       scraped := info.window.top + s.scrolled,
       maxBuffered := if first < stop then Max(s.maxBuffered, stop - 1) else s.maxBuffered)
  }

  /** Where the marker and the window are now. */
  function Located(cfg: Config, s: Scroll, view: View): (r: Outcome)
    requires ScrollOk(s) && ViewOk(view) && Ready(s, view)
    ensures ScrollOk(r.state) && Ready(r.state, view) && (!r.ok ==> view.tentative)
    ensures r.ok ==> r.state.dirtyTop <= view.info.window.top
    ensures !r.ok && r.state.dirtyTop == -1 ==> r.state.scraped == s.scraped && s.dirtyTop == -1
  {
    var followed := FollowMarker(cfg, s, view);
    if !followed.ok then followed
    else if view.tentative && ShouldCreate(followed.state, view) then Outcome(followed.state, false)
    else FollowWindow(cfg, followed.state, view)
  }

  lemma {:induction false} MarkedIsWritable(s: Scroll, view: View)
    requires ScrollOk(s) && ViewOk(view) && Ready(s, view) && s.dirtyTop <= view.info.window.top
    ensures Writable(MarkDirty(s, view), view)
  {
    hide RingOk, StateOk;
  }

  /** A marker may be put below lines that are still to be written, since these are counted by then. */
  function Remarked(s: Scroll, create: bool, view: View): (r: Scroll)
    requires Writable(s, view) && ViewOk(view) && (create ==> NewSyncRow(view) >= 0)
    ensures Writable(r, view)
  {
    if create then CreateMarker(s, NewSyncRow(view)) else s
  }

  function Scanned(s: Scroll, view: View): (r: Scroll)
    requires Writable(s, view) && ViewOk(view)
    ensures Writable(r, view)
  {
    s.(dirtyCount := ScanDirty(ScrollRows(view), s.dirtyCount, WindowStop(view.info), s.dirtyCount))
  }

  /** The state once the marker, the window and the dirty lines have been brought up to date. */
  function Prepared(cfg: Config, s: Scroll, view: View): (r: Outcome)
    requires ScrollOk(s) && ViewOk(view) && Ready(s, view)
    ensures if r.ok then Writable(r.state, view) else ScrollOk(r.state) && view.tentative
    ensures !r.ok && r.state.dirtyTop == -1 ==> r.state.scraped == s.scraped && s.dirtyTop == -1
  {
    var located := Located(cfg, s, view);
    if !located.ok then located
    else
      var marked := MarkDirty(located.state, view);
      if view.tentative && !Steady(marked, view) then Outcome(marked, false)
      else
        MarkedIsWritable(located.state, view);
        Outcome(Scanned(Remarked(marked, ShouldCreate(FollowMarker(cfg, s, view).state, view), view), view), true)
  }

  function Scrape(cfg: Config, s: Scroll, view: View): (r: Outcome)
    requires ScrollOk(s) && ViewOk(view) && Ready(s, view)
    ensures ScrollOk(r.state) && (!r.ok ==> view.tentative)
    ensures r.state.dirtyTop == -1 ==> r.state.scraped == s.scraped && s.dirtyTop == -1 && view.tentative
  {
    var prepared := Prepared(cfg, s, view);
    if prepared.ok then Outcome(WriteOut(cfg, prepared.state, view), true) else prepared
  }

  /**
    Tracking starts at the first line of the console, or with the very reading of the console that made it start again.
   */
  predicate Begins(s: Scroll, view: View) {
    s.dirtyTop == -1 && s.scraped != 0 ==> s.scraped <= view.info.window.top && !view.tentative
  }

  ghost predicate AllViewsOk(views: seq<View>) {
    forall i :: 0 <= i < |views| ==> ViewOk(views[i])
  }

  function ScrapeRun(cfg: Config, s: Scroll, views: seq<View>): (r: Scroll)
    requires ScrollOk(s) && AllViewsOk(views) && (views != [] ==> Begins(s, views[0]))
    ensures ScrollOk(r)
    decreases |views|
  {
    if views == [] then s
    else
      assert ViewOk(views[0]);
      ScrapeRun(cfg, Scrape(cfg, s, views[0]).state, views[1..])
  }
}
