/**
  The emitter as a whole against the oracle: what it remembers about the terminal is true, it keeps its place among
  the lines it has sent, and a sent line is shown while every other line stays as it was.
 */
module EmitterMirror {
  import opened Basics
  import opened VtScreen
  import opened VtParser
  import opened VtTokens
  import opened Color
  import opened Emitter
  import opened LineMirror

  // ---------- Lines of the terminal, on and above the screen ----------

  function Transcript(s: Screen): seq<Row> {
    s.history + s.rows
  }

  /** The cursor's line, counted from the first row of the transcript. */
  function AbsLine(s: Screen): nat {
    |s.history| + s.y
  }

  /**
    What the emitter remembers holds of the terminal. Line `origin` of the emitter is the transcript's first row.
   */
  ghost predicate Synced(e: State, vt: Vt, origin: int) {
    var s := vt.screen;
    && StateOk(e) && VtOk(vt) && vt.parser.Text?
    && AbsLine(s) == e.remoteLine - origin
    && PosAt(s, e.remoteColumn)
    && ColorKnown(e, s)
    && (e.lineDataValid ==> Remembered(e, s))
    && (e.cursorHidden ==> !s.visible)
  }

  ghost predicate ColorKnown(e: State, s: Screen) {
    e.remoteColor != NO_COLOR ==> 0 <= e.remoteColor < 0x1_0000 && s.pen == ColorPen(e.remoteColor)
  }

  /** The terminal's cursor is hidden exactly when the emitter thinks so. */
  ghost predicate CursorExact(e: State, vt: Vt) {
    vt.screen.visible == !e.cursorHidden
  }

  /** The cells remembered are the ones shown up to the cursor. */
  ghost predicate Remembered(e: State, s: Screen) {
    var k := e.remoteColumn;
    && s.y < |s.rows| && k <= s.width == |s.rows[s.y]|
    && WellMarked(e.lineData)
    && s.rows[s.y][..k] == Render(e.lineData)
    && (k < s.width ==> !s.rows[s.y][k].continuation)
  }

  // ---------- Boundaries between characters ----------

  lemma {:induction false} ScanOfUnit(line: Line, i: nat)
    requires i < |line|
    requires var (n, ch) := ScanScalar(line[i..]); Agreed(line[i..], n, ch)
    ensures WellMarked(line[i..i + ScanScalar(line[i..]).0])
  {
    var (n, ch) := ScanScalar(line[i..]);
    var unit := line[i..i + n];
    assert n <= 2;
    assert unit[0] == line[i..][0];
    if n == 2 {
      assert unit[1] == line[i..][1];
    }
    assert ScanScalar(unit) == (n, ch) && unit[n..] == [];
  }

  lemma {:induction false} WellMarkedConcat(a: Line, b: Line)
    requires WellMarked(a) && WellMarked(b)
    ensures WellMarked(a + b)
    decreases |a|
  {
    if a == [] {
      assert a + b == b;
    } else {
      var n := ScanScalar(a).0;
      assert (a + b)[..|a|] == a;
      ScanOfPrefix(a + b, |a|);
      assert (a + b)[n..] == a[n..] + b;
      WellMarkedConcat(a[n..], b);
    }
  }

  lemma {:induction false} TurnCells(cfg: Config, line: Line, i: nat, d: Draft)
    requires i < |line| && d.keep <= |d.text|
    ensures var t := Turn(cfg, line, i, d);
      t.keep <= |t.text| && (t.cells == d.cells || t.cells == i || t.cells == i + ScanScalar(line[i..]).0)
  {
  }

  lemma {:induction false} NextBoundary(line: Line, i: nat)
    requires i < |line| && WellMarked(line[..i]) && WellMarked(line[i..])
    ensures var n := ScanScalar(line[i..]).0; WellMarked(line[..i + n]) && WellMarked(line[i + n..])
  {
    var n := ScanScalar(line[i..]).0;
    ScanOfUnit(line, i);
    WellMarkedConcat(line[..i], line[i..i + n]);
    assert line[..i + n] == line[..i] + line[i..i + n];
    assert line[i + n..] == line[i..][n..];
  }

  /** The kept cells always end between two characters. */
  lemma {:induction false} ComposeBoundary(cfg: Config, line: Line, i: nat, d: Draft)
    requires i <= |line| && d.keep <= |d.text| && d.cells <= i
    requires WellMarked(line[..d.cells]) && WellMarked(line[..i]) && WellMarked(line[i..])
    ensures WellMarked(line[..Compose(cfg, line, i, d).cells])
    decreases |line| - i
  {
    hide Turn, ScanScalar, WellMarked;
    if i < |line| {
      NextBoundary(line, i);
      TurnCells(cfg, line, i, d);
      ComposeBoundary(cfg, line, i + ScanScalar(line[i..]).0, Turn(cfg, line, i, d));
    }
  }

  // ---------- Finishing a line ----------

  lemma {:induction false} HideShows(cfg: Config, e: State, vt: Vt, origin: int) returns (r: Vt)
    requires Synced(e, vt, origin)
    ensures Feed(vt, HideCursor(cfg, e).output) == Some(r)
    ensures Synced(HideCursor(cfg, e).state, r, origin)
    ensures CursorExact(e, vt) ==> CursorExact(HideCursor(cfg, e).state, r)
    ensures !cfg.plainMode ==> HideCursor(cfg, e).state.cursorHidden && !r.screen.visible
    ensures r == vt.(screen := vt.screen.(visible := r.screen.visible))
  {
    FeedCursorMode(vt, false);
    r := if cfg.plainMode || e.cursorHidden then vt else vt.(screen := vt.screen.(visible := false));
  }

  lemma {:induction false} RowSplits(line: Line, k: nat, width: nat)
    requires WellMarked(line) && 1 <= |line| <= width && k <= |line| && WellMarked(line[..k])
    ensures |FullRow(line, width)| == width
    ensures FullRow(line, width)[..k] == Render(line[..k])
    ensures Ahead(line, k, FullRow(line, width))
  {
    hide ScanScalar, WellMarked, RowOk, Render;
    RenderLength(line);
    RenderLength(line[..k]);
    RenderSplits(line, k);
    RenderLength(line[k..]);
  }

  /** Everything after the erase is blank in the last colour, so erasing completes the row. */
  lemma {:induction false} EraseCompletes(line: Line, row: Row, k: nat, target: Row, pen: Pen)
    requires 1 <= |line| <= |target| == |row| && k <= |line|
    requires Ahead(line, |line|, target) && pen == ColorPen(LastColor(line))
    requires row[..k] == target[..k] && target[k..|line|] == Fill(|line| - k, Blank(pen))
    ensures row[..k] + Fill(|target| - k, Blank(pen)) == target
  {
    assert target == target[..k] + target[k..|line|] + target[|line|..];
  }

  /** Before anything is composed, the draft is empty and the row shows what is remembered. */
  lemma {:induction false} NothingPending(e: State, vt: Vt, cells: Line)
    requires StateOk(e) && VtOk(vt) && vt.parser.Text? && PosAt(vt.screen, e.remoteColumn) && ColorKnown(e, vt.screen)
    requires e.lineDataValid && Remembered(e, vt.screen)
    requires WellMarked(cells) && |e.lineData| < |cells| <= vt.screen.width && e.lineData == cells[..|e.lineData|]
    ensures var start, target := |e.lineData|, FullRow(cells, vt.screen.width);
      var d, row := Draft([], 0, start, false, e.remoteColor), vt.screen.rows[vt.screen.y];
      Pending(start, d, vt, vt, row, target) && InColor(d, vt) && OnTrack(cells, start, d, row, target)
  {
    hide Ahead, FullRow, Render, WellMarked, RowOk, ScanScalar;
    var s := vt.screen;
    RowSplits(cells, |e.lineData|, s.width);
    assert s.rows[s.y := s.rows[s.y]] == s.rows;
  }

  lemma {:induction false} ComposedShows(cfg: Config, e: State, vt: Vt, cells: Line) returns (r: Vt)
    requires !cfg.plainMode && cfg.outputColor
    requires StateOk(e) && VtOk(vt) && vt.parser.Text? && PosAt(vt.screen, e.remoteColumn) && ColorKnown(e, vt.screen)
    requires e.lineDataValid && Remembered(e, vt.screen)
    requires WellMarked(cells) && |e.lineData| < |cells| <= vt.screen.width && e.lineData == cells[..|e.lineData|]
    ensures var start := |e.lineData|;
      var d := Compose(cfg, cells, start, Draft([], 0, start, false, e.remoteColor));
      && Feed(vt, d.text[..d.keep] + if d.erased then [] else EraseToEol()) == Some(r) && VtOk(r)
      && r == vt.(screen := r.screen)
      && Writing(vt.screen, r.screen, FullRow(cells, vt.screen.width), d.cells, FullRow(cells, vt.screen.width))
      && d.color == LastColor(cells) && r.screen.pen == ColorPen(d.color)
      && WellMarked(cells[..d.cells]) && d.cells <= |cells|
  {
    hide Feed, RowOk, FullRow, Render, WellMarked, Compose, ScanScalar;
    var s, start := vt.screen, |e.lineData|;
    var target := FullRow(cells, s.width);
    var row := s.rows[s.y];
    var d0 := Draft([], 0, start, false, e.remoteColor);
    RowSplits(cells, start, s.width);
    ComposeBoundary(cfg, cells, start, d0);
    NothingPending(e, vt, cells);
    var now, row1 := ComposeShows(cfg, cells, start, d0, vt, vt, row, target);
    var d := Compose(cfg, cells, start, d0);
    if d.erased {
      assert d.text[..d.keep] + [] == d.text[..d.keep];
      r := now;
    } else {
      FeedConcat(vt, d.text[..d.keep], EraseToEol());
      assert cells[..|cells|] == cells;
      RowSplits(cells, |cells|, s.width);
      EraseCompletes(cells, row1, d.cells, target, now.screen.pen);
      var row2;
      r, row2 := EraseRest(s, now, row1, d.cells, target);
    }
  }

  /** A redrawn row is remembered up to the last cell kept. */
  lemma {:induction false} FinishedSynced(e: State, next: State, vt: Vt, r: Vt, origin: int, cells: Line, k: nat)
    requires Synced(e, vt, origin)
    requires 1 <= |cells| <= vt.screen.width && k <= |cells| && WellMarked(cells) && WellMarked(cells[..k])
    requires VtOk(r) && r == vt.(screen := r.screen)
    requires Writing(vt.screen, r.screen, FullRow(cells, vt.screen.width), k, FullRow(cells, vt.screen.width))
    requires r.screen.pen == ColorPen(LastColor(cells))
    requires next == e.(lineData := cells[..k], remoteColumn := k, remoteColor := LastColor(cells))
    ensures Synced(next, r, origin)
  {
    RowSplits(cells, k, r.screen.width);
    assert r.screen.rows[r.screen.y] == FullRow(cells, r.screen.width);
  }

  /** `after` is `before` with the cursor's row replaced. */
  ghost predicate RowSent(before: Screen, after: Screen, row: Row) {
    && before.y < |before.rows|
    && after == before.(rows := before.rows[before.y := row], x := after.x, wrap := after.wrap, pen := after.pen,
                        visible := after.visible)
  }

  /** The draft of the rest of a line, and whether completing it hides the cursor. */
  function Rest(cfg: Config, e: State, cells: Line): Draft
    requires |e.lineData| <= |cells|
  {
    Compose(cfg, cells, |e.lineData|, Draft([], 0, |e.lineData|, false, e.remoteColor))
  }

  function Hidden(cfg: Config, e: State, cells: Line, cursorColumn: int): Step
    requires |e.lineData| <= |cells|
  {
    if cursorColumn != -1 && Rest(cfg, e, cells).cells > cursorColumn then HideCursor(cfg, e) else Step(e, [])
  }

  /** Hiding the cursor and composing do not depend on each other. */
  lemma {:induction false} FinishInTwo(cfg: Config, e: State, cells: Line, cursorColumn: int)
    requires !cfg.plainMode && StateOk(e) && e.lineDataValid
    requires |e.lineData| <= |cells| && e.lineData == cells[..|e.lineData|]
    ensures var d, hidden := Rest(cfg, e, cells), Hidden(cfg, e, cells, cursorColumn);
      FinishLine(cfg, e, cells, cursorColumn) ==
      Step(hidden.state.(lineData := cells[..d.cells], remoteColumn := d.cells, remoteColor := d.color),
           hidden.output + (d.text[..d.keep] + if d.erased then [] else EraseToEol()))
  {
    hide Compose;
    var d := Rest(cfg, e, cells);
    assert e.lineData + cells[|e.lineData|..d.cells] == cells[..d.cells];
  }

  lemma {:induction false} HiddenShows(cfg: Config, e: State, vt: Vt, origin: int, cells: Line, cursorColumn: int)
    returns (r: Vt)
    requires Synced(e, vt, origin) && |e.lineData| <= |cells|
    ensures Feed(vt, Hidden(cfg, e, cells, cursorColumn).output) == Some(r)
    ensures Synced(Hidden(cfg, e, cells, cursorColumn).state, r, origin)
    ensures CursorExact(e, vt) ==> CursorExact(Hidden(cfg, e, cells, cursorColumn).state, r)
    ensures r == vt.(screen := vt.screen.(visible := r.screen.visible))
  {
    r := HideShows(cfg, e, vt, origin);
    if !(cursorColumn != -1 && Rest(cfg, e, cells).cells > cursorColumn) {
      r := vt;
    }
  }

  lemma {:induction false} FinishShows(cfg: Config, e: State, vt: Vt, origin: int, cells: Line, cursorColumn: int)
    returns (r: Vt)
    requires !cfg.plainMode && cfg.outputColor
    requires Synced(e, vt, origin) && e.lineDataValid
    requires WellMarked(cells) && |e.lineData| < |cells| <= vt.screen.width && e.lineData == cells[..|e.lineData|]
    ensures Feed(vt, FinishLine(cfg, e, cells, cursorColumn).output) == Some(r)
    ensures Synced(FinishLine(cfg, e, cells, cursorColumn).state, r, origin)
    ensures CursorExact(e, vt) ==> CursorExact(FinishLine(cfg, e, cells, cursorColumn).state, r)
    ensures RowSent(vt.screen, r.screen, FullRow(cells, vt.screen.width))
  {
    hide RowOk, Feed, Compose;
    var d, hidden := Rest(cfg, e, cells), Hidden(cfg, e, cells, cursorColumn);
    FinishInTwo(cfg, e, cells, cursorColumn);
    var vt1 := HiddenShows(cfg, e, vt, origin, cells, cursorColumn);
    FeedConcat(vt, hidden.output, d.text[..d.keep] + if d.erased then [] else EraseToEol());
    r := ComposedShows(cfg, hidden.state, vt1, cells);
    FinishedSynced(hidden.state, FinishLine(cfg, e, cells, cursorColumn).state, vt1, r, origin, cells, d.cells);
  }

  // ---------- Moving between lines ----------

  /** A row that shows nothing but spaces. */
  ghost predicate Empty(row: Row) {
    forall i :: 0 <= i < |row| ==> row[i].text == [0x20] && !row[i].continuation
  }

  /** Row `i` of the transcript is as it was; a row that was not there before is empty. */
  ghost predicate RowKept(before: Screen, after: Screen, i: int) {
    && 0 <= i < |Transcript(after)|
    && if i < |Transcript(before)| then Transcript(after)[i] == Transcript(before)[i] else Empty(Transcript(after)[i])
  }

  /** The rows from `first` to `stop` may have changed; the others are kept, and new ones are empty. */
  ghost predicate OnlyChanged(before: Screen, after: Screen, first: int, stop: int)
    ensures OnlyChanged(before, after, first, stop) ==> after.width == before.width && after.height == before.height
  {
    && after.width == before.width && after.height == before.height
    && |Transcript(before)| <= |Transcript(after)|
    && forall i :: 0 <= i < |Transcript(after)| && !(first <= i < stop) ==> RowKept(before, after, i)
  }

  /** Nothing shown so far changes; empty rows may have been scrolled in below. */
  ghost predicate Extends(before: Screen, after: Screen) {
    OnlyChanged(before, after, 0, 0)
  }

  lemma {:induction false} ChangedInTurn(a: Screen, b: Screen, c: Screen, first: int, middle: int, stop: int)
    requires OnlyChanged(a, b, first, middle) && OnlyChanged(b, c, middle, stop) && first <= middle <= stop
    ensures OnlyChanged(a, c, first, stop)
  {
    hide Empty, Transcript;
    forall i | 0 <= i < |Transcript(c)| && !(first <= i < stop)
      ensures RowKept(a, c, i)
    {
      assert RowKept(b, c, i);
      assert i < |Transcript(b)| ==> RowKept(a, b, i);
    }
  }

  lemma {:induction false} SameTranscript(before: Screen, after: Screen)
    requires after.width == before.width && after.height == before.height && Transcript(after) == Transcript(before)
    ensures Extends(before, after)
  {
  }

  lemma {:induction false} RowAdded(before: Screen, after: Screen, row: Row)
    requires after.width == before.width && after.height == before.height
    requires Transcript(after) == Transcript(before) + [row] && Empty(row)
    ensures Extends(before, after)
  {
  }

  lemma {:induction false} FeedCrLf(vt: Vt) returns (r: Vt)
    requires VtOk(vt) && vt.parser.Text?
    ensures Feed(vt, CRLF) == Some(r) && VtOk(r) && r == vt.(screen := r.screen)
    ensures Extends(vt.screen, r.screen) && AbsLine(r.screen) == AbsLine(vt.screen) + 1
    ensures r.screen.x == 0 && !r.screen.wrap && r.screen.pen == vt.screen.pen
    ensures r.screen.visible == vt.screen.visible
    ensures |r.screen.history| == Max(|vt.screen.history|, AbsLine(r.screen) - r.screen.height + 1)
  {
    var s1 := CarriageReturn(vt.screen);
    r := vt.(screen := LineFeed(s1));
    FeedHead(vt, CRLF);
    FeedHead(vt.(screen := s1), CRLF[1..]);
    assert CRLF[1..] == [0x0a];
    if s1.y + 1 >= s1.height {
      assert s1.rows == [s1.rows[0]] + s1.rows[1..];
      assert Transcript(r.screen) == Transcript(vt.screen) + [Fill(s1.width, Blank(s1.pen))];
      RowAdded(vt.screen, r.screen, Fill(s1.width, Blank(s1.pen)));
    } else {
      SameTranscript(vt.screen, r.screen);
    }
  }

  lemma {:induction false} FeedNewLines(vt: Vt, n: nat) returns (r: Vt)
    requires VtOk(vt) && vt.parser.Text? && n > 0
    ensures Feed(vt, NewLines(n)) == Some(r) && VtOk(r) && r == vt.(screen := r.screen)
    ensures Extends(vt.screen, r.screen) && AbsLine(r.screen) == AbsLine(vt.screen) + n
    ensures r.screen.x == 0 && !r.screen.wrap && r.screen.pen == vt.screen.pen
    ensures r.screen.visible == vt.screen.visible
    ensures |r.screen.history| == Max(|vt.screen.history|, AbsLine(r.screen) - r.screen.height + 1)
    decreases n
  {
    hide RowOk;
    var next := FeedCrLf(vt);
    FeedConcat(vt, CRLF, NewLines(n - 1));
    if n == 1 {
      r := next;
    } else {
      r := FeedNewLines(next, n - 1);
      ChangedInTurn(vt.screen, next.screen, r.screen, 0, 0, 0);
    }
  }

  /** Going up stays on the screen: the emitter's claim on the rows above the top would be void. */
  lemma {:induction false} FeedUp(vt: Vt, n: nat) returns (r: Vt)
    requires VtOk(vt) && vt.parser.Text? && 0 < n <= vt.screen.y
    ensures Feed(vt, CR + CsiBytes(Decimal(n), 'A' as int)) == Some(r) && VtOk(r)
    ensures r == vt.(screen := vt.screen.(x := 0, wrap := false, y := vt.screen.y - n))
  {
    var vt1 := vt.(screen := CarriageReturn(vt.screen));
    FeedOne(vt, 0x0d);
    FeedConcat(vt, CR, CsiBytes(Decimal(n), 'A' as int));
    FeedCsiNumber(vt1, n, 'A' as int);
    r := vt1.(screen := vt1.screen.(y := vt.screen.y - n));
  }

  /** A row freshly entered has nothing remembered yet. */
  lemma {:induction false} EnteredSynced(e: State, vt: Vt, r: Vt, origin: int, line: int)
    requires Synced(e, vt, origin) && VtOk(r) && r.parser.Text?
    requires AbsLine(r.screen) == line - origin && r.screen.x == 0 && !r.screen.wrap
    requires r.screen.pen == vt.screen.pen && r.screen.visible == vt.screen.visible
    ensures Synced(e.(remoteLine := line, lineDataValid := true, lineData := [], remoteColumn := 0), r, origin)
  {
  }

  lemma {:induction false} MoveDownShows(cfg: Config, e: State, vt: Vt, origin: int, line: int) returns (r: Vt)
    requires !cfg.plainMode && Synced(e, vt, origin) && line > e.remoteLine
    ensures Feed(vt, MoveToLine(cfg, e, line).output) == Some(r)
    ensures Synced(MoveToLine(cfg, e, line).state, r, origin)
    ensures CursorExact(e, vt) ==> CursorExact(MoveToLine(cfg, e, line).state, r)
    ensures MoveToLine(cfg, e, line).state.cursorHidden || r.screen.visible == vt.screen.visible
    ensures Extends(vt.screen, r.screen)
    ensures |r.screen.history| == Max(|vt.screen.history|, line - origin - vt.screen.height + 1)
  {
    hide RowOk, Feed, OnlyChanged;
    var vt1 := HideShows(cfg, e, vt, origin);
    FeedConcat(vt, HideCursor(cfg, e).output, NewLines(line - e.remoteLine));
    r := FeedNewLines(vt1, line - e.remoteLine);
    EnteredSynced(HideCursor(cfg, e).state, vt1, r, origin, line);
    SameTranscript(vt.screen, vt1.screen);
    ChangedInTurn(vt.screen, vt1.screen, r.screen, 0, 0, 0);
  }

  lemma {:induction false} MoveUpShows(cfg: Config, e: State, vt: Vt, origin: int, line: int) returns (r: Vt)
    requires !cfg.plainMode && Synced(e, vt, origin) && line < e.remoteLine
    requires line - origin >= |vt.screen.history|
    ensures Feed(vt, MoveToLine(cfg, e, line).output) == Some(r)
    ensures Synced(MoveToLine(cfg, e, line).state, r, origin)
    ensures CursorExact(e, vt) ==> CursorExact(MoveToLine(cfg, e, line).state, r)
    ensures MoveToLine(cfg, e, line).state.cursorHidden || r.screen.visible == vt.screen.visible
    ensures Extends(vt.screen, r.screen) && r.screen.history == vt.screen.history
  {
    hide RowOk, Feed, OnlyChanged;
    var vt1 := HideShows(cfg, e, vt, origin);
    FeedConcat(vt, HideCursor(cfg, e).output, CR + CsiBytes(Decimal(e.remoteLine - line), 'A' as int));
    r := FeedUp(vt1, e.remoteLine - line);
    EnteredSynced(HideCursor(cfg, e).state, vt1, r, origin, line);
    SameTranscript(vt.screen, r.screen);
  }

  lemma {:induction false} MoveShows(cfg: Config, e: State, vt: Vt, origin: int, line: int) returns (r: Vt)
    requires !cfg.plainMode && Synced(e, vt, origin)
    requires line - origin >= |vt.screen.history|
    ensures Feed(vt, MoveToLine(cfg, e, line).output) == Some(r)
    ensures Synced(MoveToLine(cfg, e, line).state, r, origin)
    ensures CursorExact(e, vt) ==> CursorExact(MoveToLine(cfg, e, line).state, r)
    ensures MoveToLine(cfg, e, line).state.cursorHidden || r.screen.visible == vt.screen.visible
    ensures Extends(vt.screen, r.screen)
    ensures |r.screen.history| == Max(|vt.screen.history|, line - origin - vt.screen.height + 1)
  {
    if line > e.remoteLine {
      r := MoveDownShows(cfg, e, vt, origin, line);
    } else if line < e.remoteLine {
      r := MoveUpShows(cfg, e, vt, origin, line);
    } else {
      r := vt;
      SameTranscript(vt.screen, r.screen);
    }
  }

  lemma {:induction false} RestartShows(cfg: Config, e: State, vt: Vt, origin: int) returns (r: Vt)
    requires !cfg.plainMode && Synced(e, vt, origin)
    ensures Feed(vt, Restart(cfg, e).output) == Some(r)
    ensures Synced(Restart(cfg, e).state, r, origin)
    ensures CursorExact(e, vt) ==> CursorExact(Restart(cfg, e).state, r)
    ensures r.screen == vt.screen.(x := 0, wrap := false, visible := r.screen.visible)
  {
    var vt1 := HideShows(cfg, e, vt, origin);
    var hidden := HideCursor(cfg, e);
    FeedConcat(vt, hidden.output, CR);
    FeedOne(vt1, 0x0d);
    r := vt1.(screen := CarriageReturn(vt1.screen));
    EnteredSynced(hidden.state, vt1, r, origin, e.remoteLine);
  }

  // ---------- The operations ----------

  ghost predicate ShownAt(s: Screen, i: int, row: Row) {
    0 <= i < |Transcript(s)| && Transcript(s)[i] == row
  }

  /** Line `i` of the transcript now shows `row`; every other line is as it was, or new and empty. */
  ghost predicate LineShown(before: Screen, after: Screen, i: int, row: Row) {
    ShownAt(after, i, row) && OnlyChanged(before, after, i, i + 1)
  }

  lemma {:induction false} RowSentIsLineShown(before: Screen, moved: Screen, after: Screen, row: Row)
    requires ScreenOk(before) && ScreenOk(moved)
    requires Extends(before, moved) && RowSent(moved, after, row)
    ensures LineShown(before, after, AbsLine(moved), row)
  {
    var i := AbsLine(moved);
    assert Transcript(after) == Transcript(moved)[i := row];
    forall j | 0 <= j < |Transcript(after)| && j != i
      ensures RowKept(before, after, j)
    {
      assert RowKept(before, moved, j);
    }
  }

  lemma {:induction false} BegunShows(cfg: Config, e: State, vt: Vt, origin: int, cells: Line) returns (r: Vt)
    requires !cfg.plainMode && Synced(e, vt, origin) && cells != []
    ensures Feed(vt, Begun(cfg, e, cells).output) == Some(r)
    ensures Synced(Begun(cfg, e, cells).state, r, origin)
    ensures CursorExact(e, vt) ==> CursorExact(Begun(cfg, e, cells).state, r)
    ensures Extends(vt.screen, r.screen) && r.screen.history == vt.screen.history
    ensures AbsLine(r.screen) == AbsLine(vt.screen)
    ensures var b := Begun(cfg, e, cells).state;
      b.lineDataValid && |b.lineData| < |cells| && b.lineData == cells[..|b.lineData|] && b.remoteLine == e.remoteLine
  {
    hide OnlyChanged, Feed, RowOk;
    if CanAppend(cfg, e, cells) {
      r := vt;
      assert Feed(vt, []) == Some(vt) by {
        FeedNothing(vt);
      }
    } else {
      r := RestartShows(cfg, e, vt, origin);
    }
    SameTranscript(vt.screen, r.screen);
  }

  /** A line that has just been moved to is written without a return, and so is one that goes on from what was sent. */
  lemma {:induction false} NothingIsRestarted(cfg: Config, e: State, line: int, sent: Line, more: Line)
    requires sent + more != []
    ensures var moved := MoveToLine(cfg, e, line).state;
      line != e.remoteLine ==> Begun(cfg, moved, sent + more) == Step(moved, [])
    ensures StateOk(e) && e.lineDataValid && e.lineData == sent && more != [] ==>
      Begun(cfg, e, sent + more) == Step(e, [])
  {
    assert (sent + more)[..|sent|] == sent;
  }

  /**
    Sending a line. From any state in step with the terminal, and for any line that is still on the screen or below
    it, the terminal shows the given cells in full on that line, by appending or by rewriting, and shows every other
    line unchanged; the emitter stays in step.
   */
  lemma {:induction false} SendLineShows(
    cfg: Config, e: State, vt: Vt, origin: int, line: int, cells: Line, cursorColumn: int)
    returns (r: Vt)
    requires !cfg.plainMode && cfg.outputColor
    requires Synced(e, vt, origin) && line - origin >= |vt.screen.history|
    requires WellMarked(cells) && 1 <= |cells| <= vt.screen.width
    ensures Feed(vt, SendLine(cfg, e, line, cells, cursorColumn).output) == Some(r)
    ensures Synced(SendLine(cfg, e, line, cells, cursorColumn).state, r, origin)
    ensures CursorExact(e, vt) ==> CursorExact(SendLine(cfg, e, line, cells, cursorColumn).state, r)
    ensures SendLine(cfg, e, line, cells, cursorColumn).state.remoteLine == line
    ensures LineShown(vt.screen, r.screen, line - origin, FullRow(cells, vt.screen.width))
    ensures |r.screen.history| == Max(|vt.screen.history|, line - origin - vt.screen.height + 1)
  {
    hide RowOk, Feed, FinishLine, Restart, OnlyChanged, FullRow, WellMarked, NewLines, CursorMode;
    var moved := MoveToLine(cfg, e, line);
    var begun := Begun(cfg, moved.state, cells);
    var vt1 := MoveShows(cfg, e, vt, origin, line);
    var vt2 := BegunShows(cfg, moved.state, vt1, origin, cells);
    r := FinishShows(cfg, begun.state, vt2, origin, cells, cursorColumn);
    var finished := FinishLine(cfg, begun.state, cells, cursorColumn);
    FeedConcat(vt, moved.output, begun.output);
    FeedConcat(vt, moved.output + begun.output, finished.output);
    ChangedInTurn(vt.screen, vt1.screen, vt2.screen, 0, 0, 0);
    RowSentIsLineShown(vt.screen, vt2.screen, r.screen, FullRow(cells, vt.screen.width));
  }

  lemma {:induction false} HiddenAfterSend(cfg: Config, e: State, line: int, cells: Line, cursorColumn: int)
    requires StateOk(e) && e.cursorHidden && |cells| >= 1
    ensures SendLine(cfg, e, line, cells, cursorColumn).state.cursorHidden
  {
    hide Compose;
  }

  lemma {:induction false} ColumnShows(e: State, vt: Vt, origin: int, column: nat) returns (r: Vt)
    requires Synced(e, vt, origin) && column < vt.screen.width && column != e.remoteColumn
    ensures Feed(vt, CsiBytes(Decimal(column + 1), 'G' as int)) == Some(r)
    ensures Synced(e.(lineDataValid := column == 0, lineData := [], remoteColumn := column), r, origin)
    ensures r.screen == vt.screen.(x := column, wrap := false)
  {
    FeedCsiNumber(vt, column + 1, 'G' as int);
    r := vt.(screen := vt.screen.(x := column, wrap := false));
  }

  lemma {:induction false} UnhideShows(e: State, vt: Vt, origin: int) returns (r: Vt)
    requires Synced(e, vt, origin) && e.cursorHidden
    ensures Feed(vt, CursorMode(true)) == Some(r)
    ensures Synced(e.(cursorHidden := false), r, origin)
    ensures r.screen == vt.screen.(visible := true)
  {
    FeedCursorMode(vt, true);
    r := vt.(screen := vt.screen.(visible := true));
  }

  /** Showing the cursor puts it at the given place and changes no line. */
  lemma {:induction false} ShowCursorShows(cfg: Config, e: State, vt: Vt, origin: int, column: nat, line: int)
    returns (r: Vt)
    requires !cfg.plainMode && Synced(e, vt, origin)
    requires line - origin >= |vt.screen.history| && column < vt.screen.width
    ensures Feed(vt, ShowCursor(cfg, e, column, line).output) == Some(r)
    ensures Synced(ShowCursor(cfg, e, column, line).state, r, origin)
    ensures Extends(vt.screen, r.screen)
    ensures |r.screen.history| == Max(|vt.screen.history|, line - origin - vt.screen.height + 1)
    ensures AbsLine(r.screen) == line - origin && r.screen.x == column && !r.screen.wrap
    ensures r.screen.visible <==> vt.screen.visible || MoveToLine(cfg, e, line).state.cursorHidden
    ensures !ShowCursor(cfg, e, column, line).state.cursorHidden
  {
    hide RowOk, Feed, OnlyChanged, NewLines, CursorMode, CsiBytes, Decimal;
    var moved := MoveToLine(cfg, e, line);
    var vt1 := MoveShows(cfg, e, vt, origin, line);
    FeedNothing(vt1);
    var e1, vt2, placed := moved.state, vt1, [];
    if e1.remoteColumn != column {
      vt2 := ColumnShows(e1, vt1, origin, column);
      e1, placed := e1.(lineDataValid := column == 0, lineData := [], remoteColumn := column),
                    CsiBytes(Decimal(column + 1), 'G' as int);
    }
    FeedNothing(vt2);
    r := vt2;
    var shown := [];
    if e1.cursorHidden {
      r := UnhideShows(e1, vt2, origin);
      shown := CursorMode(true);
    }
    FeedConcat(vt, moved.output, placed);
    FeedConcat(vt, moved.output + placed, shown);
    assert ShowCursor(cfg, e, column, line).output == moved.output + placed + shown;
    SameTranscript(vt1.screen, r.screen);
    ChangedInTurn(vt.screen, vt1.screen, r.screen, 0, 0, 0);
  }

  /** The screen blank in the default colours, the cursor in its corner. What has scrolled away stays. */
  function Cleared(s: Screen): Screen {
    s.(rows := seq(s.height, _ => Fill(s.width, Blank(DEFAULT_PEN))), x := 0, y := 0, pen := DEFAULT_PEN, wrap := false)
  }

  /** After a clearing reset the screen is blank, its top row is line `newLine`, and the emitter is in step. */
  lemma {:induction false} ClearingResetShows(cfg: Config, e: State, vt: Vt, newLine: int) returns (r: Vt)
    requires !cfg.plainMode && VtOk(vt) && vt.parser.Text?
    ensures var step := Reset(cfg, e, true, newLine);
      && Feed(vt, step.output) == Some(r)
      && Synced(step.state, r, newLine - |r.screen.history|)
    ensures r == vt.(screen := Cleared(vt.screen))
  {
    var s := vt.screen;
    var s1 := s.(pen := DEFAULT_PEN);
    var s2 := s1.(x := 0, y := 0, wrap := false);
    SgrSingle(s.pen, 0);
    FeedSgr(vt, [0]);
    FeedHome(vt.(screen := s1));
    FeedCsiNumber(vt.(screen := s2), 2, 'J' as int);
    FeedConcat(vt, CsiBytes(Join([0]), 'm' as int), CsiBytes(Join([1, 1]), 'H' as int));
    FeedConcat(vt, CsiBytes(Join([0]), 'm' as int) + CsiBytes(Join([1, 1]), 'H' as int),
               CsiBytes(Decimal(2), 'J' as int));
    r := vt.(screen := EraseInDisplay(s2, 2));
    assert r.screen.rows == Cleared(s).rows;
  }

  /**
    A clearing reset forgets that the cursor is hidden. Asked for in the place where the cursor is then, it is not shown
    again.
   */
  lemma {:induction false} CursorStaysHidden(cfg: Config, e: State, vt: Vt, newLine: int) returns (r: Vt)
    requires !cfg.plainMode && VtOk(vt) && vt.parser.Text? && !vt.screen.visible
    ensures var reset := Reset(cfg, e, true, newLine);
      var shown := ShowCursor(cfg, reset.state, 0, newLine);
      Feed(vt, reset.output + shown.output) == Some(r) && !r.screen.visible && !shown.state.cursorHidden
  {
    hide ClearScreen, RowOk;
    r := ClearingResetShows(cfg, e, vt, newLine);
    assert Reset(cfg, e, true, newLine).output + [] == Reset(cfg, e, true, newLine).output;
  }

  lemma {:induction false} FeedHome(vt: Vt)
    requires VtOk(vt) && vt.parser.Text?
    ensures Feed(vt, CsiBytes(Join([1, 1]), 'H' as int)) ==
      Some(vt.(screen := vt.screen.(x := 0, y := 0, wrap := false)))
  {
    ParametersOfJoined([1, 1]);
    FeedCsi(vt, Join([1, 1]), 'H' as int);
  }

  lemma {:induction false} FeedPrivateModes(vt: Vt, modes: seq<nat>, enable: bool)
    requires VtOk(vt) && vt.parser.Text? && forall i :: 0 <= i < |modes| ==> modes[i] in MOUSE_MODES
    ensures Feed(vt, PrivateModes(modes, enable)) == Some(vt)
  {
    if modes != [] {
      FeedMouseMode(vt, modes[0], enable);
      FeedPrivateModes(vt, modes[1..], enable);
      FeedConcat(vt, CsiBytes(['?' as int] + Decimal(modes[0]), if enable then 'h' as int else 'l' as int),
                 PrivateModes(modes[1..], enable));
    }
  }

  /** Switching the mouse mode leaves the terminal's screen and cursor alone, and the emitter in step. */
  lemma {:induction false} MouseModeShows(cfg: Config, e: State, vt: Vt, origin: int, enabled: bool)
    requires Synced(e, vt, origin)
    ensures Feed(vt, EnableMouseMode(cfg, e, enabled).output) == Some(vt)
    ensures Synced(EnableMouseMode(cfg, e, enabled).state, vt, origin)
    ensures CursorExact(e, vt) ==> CursorExact(EnableMouseMode(cfg, e, enabled).state, vt)
  {
    hide PrivateModes, RowOk;
    FeedPrivateModes(vt, [1005], false);
    FeedPrivateModes(vt, [1000, 1002, 1003, 1015, 1006], true);
    FeedPrivateModes(vt, [1006, 1015, 1003, 1002, 1000], false);
    FeedConcat(vt, PrivateModes([1005], false), PrivateModes([1000, 1002, 1003, 1015, 1006], true));
  }
}
