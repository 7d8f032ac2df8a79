/** Plain output without colour: no control sequences, and on the last line of it the text of the line last sent. */
module PlainOutput {
  import opened Basics
  import opened VtScreen
  import opened VtParser
  import opened VtTokens
  import opened Color
  import opened Emitter
  import opened LineMirror
  import opened EmitterMirror
  import opened CellMirror
  import opened ConsoleLine
  import opened Scraping
  import U = Utf8

  predicate IsPlainOutput(cfg: Config) {
    cfg.plainMode && !cfg.outputColor
  }

  // ---------- No control sequences ----------

  lemma {:induction false} EncodedIsText(ch: nat)
    ensures ESC !in Encoded(ch)
    ensures FixSpecialCharacters(ch) >= 0x20 ==> forall i :: 0 <= i < |Encoded(ch)| ==> Encoded(ch)[i] >= 0x20
  {
  }

  lemma {:induction false} NewLinesText(n: nat)
    ensures ESC !in NewLines(n)
  {
    if n > 0 {
      NewLinesText(n - 1);
    }
  }

  lemma {:induction false} ComposeText(cfg: Config, line: Line, i: nat, d: Draft)
    requires IsPlainOutput(cfg) && i <= |line| && d.keep <= |d.text| && d.cells <= i && ESC !in d.text
    ensures ESC !in Compose(cfg, line, i, d).text && |d.text| <= |Compose(cfg, line, i, d).text|
    decreases |line| - i
  {
    hide ScanScalar, Encoded;
    if i < |line| {
      EncodedIsText(ScanScalar(line[i..]).1);
      ComposeText(cfg, line, i + ScanScalar(line[i..]).0, Turn(cfg, line, i, d));
    }
  }

  lemma {:induction false} MovePlainly(cfg: Config, e: State, line: int)
    requires IsPlainOutput(cfg)
    ensures ESC !in MoveToLine(cfg, e, line).output
  {
    if line > e.remoteLine {
      NewLinesText(line - e.remoteLine);
    }
  }

  /** Sending a line, placing the cursor, resetting and switching the mouse write no escape character. */
  lemma {:induction false} NoEscapes(cfg: Config, e: State, line: int, cells: Line, cursorColumn: int)
    requires IsPlainOutput(cfg) && StateOk(e) && cells != []
    ensures ESC !in SendLine(cfg, e, line, cells, cursorColumn).output
    ensures cursorColumn >= 0 ==> ESC !in ShowCursor(cfg, e, cursorColumn, line).output
    ensures HideCursor(cfg, e).output == []
    ensures forall clear :: Reset(cfg, e, clear, line).output == []
    ensures forall enabled :: EnableMouseMode(cfg, e, enabled).output == []
  {
    hide Compose, NewLines, CsiBytes, Decimal, Join, PrivateModes;
    MovePlainly(cfg, e, line);
    var begun := Begun(cfg, MoveToLine(cfg, e, line).state, cells).state;
    var start := |begun.lineData|;
    ComposeText(cfg, cells, start, Draft([], 0, start, false, begun.remoteColor));
  }

  lemma {:induction false} SweepPlainly(
    cfg: Config, s: Sweep, rows: seq<Line>, scrolled: nat, maxBuffered: int, line: int, stop: int, saw: bool,
    cursorLine: int, cursorColumn: int)
    requires IsPlainOutput(cfg) && RingOk(s.ring) && StateOk(s.emitter) && scrolled <= line && stop - scrolled <= |rows|
    requires forall i :: 0 <= i < |rows| ==> rows[i] != []
    requires ESC !in s.output
    ensures ESC !in SweepLines(cfg, s, rows, scrolled, maxBuffered, line, stop, saw, cursorLine, cursorColumn).output
    decreases stop - line
  {
    hide SendLine, Changed, SetLine;
    if line < stop {
      var row := rows[line - scrolled];
      var send := saw || line > maxBuffered || Changed(s.ring[line % BUFFER_LINE_COUNT], row);
      var column := if line == cursorLine then cursorColumn else -1;
      NoEscapes(cfg, s.emitter, line, row, column);
      SweepPlainly(cfg, VisitRow(cfg, s, line, row, send, column), rows, scrolled, maxBuffered, line + 1, stop, send,
                   cursorLine, cursorColumn);
    }
  }

  lemma {:induction false} WriteOutPlainly(cfg: Config, s: Scroll, view: View)
    requires IsPlainOutput(cfg) && Writable(s, view) && ViewOk(view) && ESC !in s.sweep.output
    ensures ESC !in WriteOut(cfg, s, view).sweep.output
  {
    hide SweepLines, ShowCursor, ScrollRows, RingOk, StateOk;
    var info := view.info;
    var show := view.cursorVisible && CursorIn(info, info.window);
    var cursorLine := if show then info.cursorY + s.scrolled else -1;
    var cursorColumn := if show then info.cursorX else -1;
    assert HideCursor(cfg, s.sweep.emitter) == Step(s.sweep.emitter, []);
    var s1 := Sweep(s.sweep.emitter, s.sweep.ring, s.sweep.output + []);
    var first, stop := FirstLine(s, view), StopLine(s, view);
    SweepPlainly(cfg, s1, ScrollRows(view), s.scrolled, s.maxBuffered, first, stop, false, cursorLine, cursorColumn);
    var swept := SweepLines(cfg, s1, ScrollRows(view), s.scrolled, s.maxBuffered, first, stop, false, cursorLine,
                            cursorColumn);
    if show {
      NoEscapes(cfg, swept.emitter, cursorLine, [CharInfo(0x20, 0)], cursorColumn);
    }
  }

  /** No scrape of a shell writes one either. */
  lemma {:induction false} ScrapePlainly(cfg: Config, s: Scroll, view: View)
    requires IsPlainOutput(cfg) && ScrollOk(s) && ViewOk(view) && Ready(s, view) && ESC !in s.sweep.output
    ensures ESC !in Scrape(cfg, s, view).state.sweep.output
  {
    hide WriteOut, ScanDirty, ScrollRows, Steady, FindMarker, FirstColumn, RingOk, StateOk;
    var p := Prepared(cfg, s, view);
    assert ESC !in p.state.sweep.output;
    if p.ok {
      WriteOutPlainly(cfg, p.state, view);
    }
  }

  lemma {:induction false} ScrapeRunPlainly(cfg: Config, s: Scroll, views: seq<View>)
    requires IsPlainOutput(cfg) && ScrollOk(s) && AllViewsOk(views) && (views != [] ==> Begins(s, views[0]))
    requires ESC !in s.sweep.output
    ensures ESC !in ScrapeRun(cfg, s, views).sweep.output
    decreases |views|
  {
    hide Scrape, RingOk, StateOk;
    if views != [] {
      assert ViewOk(views[0]);
      ScrapePlainly(cfg, s, views[0]);
      ScrapeRunPlainly(cfg, Scrape(cfg, s, views[0]).state, views[1..]);
    }
  }

  // ---------- The text of the last line ----------

  /** What well-marked cells say. */
  function Spoken(cells: Line): Bytes
    decreases |cells|
  {
    if cells == [] then []
    else
      var n := if IsLeading(cells[0]) && |cells| >= 2 then 2 else 1;
      U.EncodeUtf8(ExpectedCharacter(cells[0].ch)) + Spoken(cells[n..])
  }

  /** What follows the last line feed. */
  function LastLine(bytes: Bytes): Bytes {
    if bytes == [] || bytes[|bytes| - 1] == 0x0a then []
    else LastLine(bytes[..|bytes| - 1]) + [bytes[|bytes| - 1]]
  }

  lemma {:induction false} TextStays(bytes: Bytes, more: Bytes)
    requires 0x0a !in more
    ensures LastLine(bytes + more) == LastLine(bytes) + more
    decreases |more|
  {
    if more == [] {
      assert bytes + more == bytes;
    } else {
      var n := |more| - 1;
      assert (bytes + more)[..|bytes| + n] == bytes + more[..n];
      TextStays(bytes, more[..n]);
      assert more == more[..n] + [more[n]];
    }
  }

  lemma {:induction false} LineEnds(bytes: Bytes, more: Bytes)
    requires more != [] && more[|more| - 1] == 0x0a
    ensures LastLine(bytes + more) == []
  {
  }

  lemma {:induction false} NewLinesEnd(n: nat)
    requires n > 0
    ensures NewLines(n) != [] && NewLines(n)[|NewLines(n)| - 1] == 0x0a
  {
    if n > 1 {
      NewLinesEnd(n - 1);
    }
  }

  lemma {:induction false} FrontIsSpoken(cells: Line)
    requires WellMarked(cells) && cells != []
    ensures var (n, ch) := ScanScalar(cells);
      && Spoken(cells) == Encoded(ch) + Spoken(cells[n..]) && 0x0a !in Encoded(ch) && WellMarked(cells[n..])
      && (ch == 0x20 ==> n == 1 && Encoded(ch) == [0x20])
  {
    hide Spoken;
    FrontOf(cells);
    CharacterIsShown(cells[0].ch);
    EncodedIsText(cells[0].ch);
    U.EncodedLength(FixSpecialCharacters(cells[0].ch));
    SpokenFront(cells);
  }

  lemma {:induction false} SpokenFront(cells: Line)
    requires cells != []
    ensures var n := if IsLeading(cells[0]) && |cells| >= 2 then 2 else 1;
      Spoken(cells) == U.EncodeUtf8(ExpectedCharacter(cells[0].ch)) + Spoken(cells[n..])
  {
  }

  lemma {:induction false} SpokenConcat(a: Line, b: Line)
    requires WellMarked(a) && WellMarked(b)
    ensures WellMarked(a + b) && Spoken(a + b) == Spoken(a) + Spoken(b)
    decreases |a|
  {
    hide WellMarked, Encoded, Spoken, ScanScalar;
    WellMarkedConcat(a, b);
    if a == [] {
      assert a + b == b;
      NothingSpoken();
    } else {
      FrontIsSpoken(a);
      FrontIsSpoken(a + b);
      var n := ScanScalar(a).0;
      SameFront(a, b);
      assert (a + b)[n..] == a[n..] + b;
      SpokenConcat(a[n..], b);
    }
  }

  lemma {:induction false} NothingSpoken()
    ensures Spoken([]) == []
  {
  }

  lemma {:induction false} SameFront(a: Line, b: Line)
    requires WellMarked(a) && a != []
    ensures ScanScalar(a + b) == ScanScalar(a)
  {
    assert (a + b)[..|a|] == a;
    ScanOfPrefix(a + b, |a|);
  }

  /** Before cell `i` everything is kept but spaces, which are what the cells from `d.cells` on say. */
  ghost predicate Pausing(line: Line, i: nat, d: Draft) {
    && d.cells <= i <= |line| && d.keep <= |d.text| && WellMarked(line[i..]) && WellMarked(line[d.cells..i])
    && d.text[d.keep..] == Spoken(line[d.cells..i]) == Spaces(i - d.cells)
  }

  lemma {:induction false} TurnSpeaks(cfg: Config, line: Line, i: nat, d: Draft)
    requires IsPlainOutput(cfg) && Pausing(line, i, d) && i < |line|
    ensures var next, n := Turn(cfg, line, i, d), ScanScalar(line[i..]).0;
      && Pausing(line, i + n, next)
      && d.cells <= next.cells && WellMarked(line[d.cells..next.cells])
      && next.text[..next.keep] == d.text[..d.keep] + Spoken(line[d.cells..next.cells])
  {
    hide WellMarked, Encoded, Spoken, ScanScalar, Agreed;
    var (n, ch) := ScanScalar(line[i..]);
    FrontIsSpoken(line[i..]);
    MarkedFront(line, i);
    assert line[i..][n..] == line[i + n..];
    assert line[d.cells..i + n] == line[d.cells..i] + line[i..i + n];
    SpokenConcat(line[d.cells..i], line[i..i + n]);
    UnitIsSpoken(line, i);
    NothingSpoken();
    var next := Turn(cfg, line, i, d);
    if ch == 0x20 {
      assert next.text[next.keep..] == d.text[d.keep..] + [0x20];
      assert Spaces(i - d.cells) + [0x20] == Spaces(i + 1 - d.cells);
      assert line[d.cells..d.cells] == [];
      assert next.text[..next.keep] == d.text[..d.keep];
      NothingMarked();
    } else {
      assert next.text[..next.keep] == d.text[..d.keep] + d.text[d.keep..] + Encoded(ch);
      assert line[i + n..i + n] == [];
      NothingMarked();
    }
  }

  lemma {:induction false} NothingMarked()
    ensures WellMarked([])
  {
  }

  lemma {:induction false} MarkedFront(line: Line, i: nat)
    requires i < |line| && WellMarked(line[i..])
    ensures var n := ScanScalar(line[i..]).0; WellMarked(line[i..i + n])
  {
    ScanOfUnit(line, i);
  }

  /** The cells of one character say that character. */
  lemma {:induction false} UnitIsSpoken(line: Line, i: nat)
    requires i < |line| && WellMarked(line[i..])
    ensures var (n, ch) := ScanScalar(line[i..]); Spoken(line[i..i + n]) == Encoded(ch)
  {
    hide WellMarked, Encoded, Spoken, Agreed, ScanScalar;
    var n := ScanScalar(line[i..]).0;
    var unit, rest := line[i..i + n], line[i + n..];
    MarkedFront(line, i);
    assert unit + rest == line[i..];
    SameFront(unit, rest);
    FrontIsSpoken(unit);
    assert unit[n..] == [];
    NothingSpoken();
  }

  lemma {:induction false} ComposeSpeaks(cfg: Config, line: Line, i: nat, d: Draft)
    requires IsPlainOutput(cfg) && Pausing(line, i, d)
    ensures var r := Compose(cfg, line, i, d);
      && d.cells <= r.cells && WellMarked(line[d.cells..r.cells]) && WellMarked(line[r.cells..])
      && r.text[..r.keep] == d.text[..d.keep] + Spoken(line[d.cells..r.cells])
      && Spoken(line[r.cells..]) == Spaces(|line| - r.cells)
    decreases |line| - i
  {
    hide WellMarked, Encoded, Spoken, ScanScalar, Turn;
    if i == |line| {
      NothingMarked();
      NothingSpoken();
      assert line[d.cells..i] == line[d.cells..];
      assert line[d.cells..d.cells] == [];
    } else {
      var next, n := Turn(cfg, line, i, d), ScanScalar(line[i..]).0;
      TurnSpeaks(cfg, line, i, d);
      ComposeSpeaks(cfg, line, i + n, next);
      var r := Compose(cfg, line, i, d);
      SpokenConcat(line[d.cells..next.cells], line[next.cells..r.cells]);
      assert line[d.cells..next.cells] + line[next.cells..r.cells] == line[d.cells..r.cells];
    }
  }

  /** What stands on the last line written so far is what is remembered of the line being sent. */
  ghost predicate PlainSynced(e: State, written: Bytes) {
    StateOk(e) && e.lineDataValid && WellMarked(e.lineData) && LastLine(written) == Spoken(e.lineData)
  }

  lemma {:induction false} StartsSynced()
    ensures PlainSynced(START, [])
  {
  }

  /** Moving to another line ends the last one; staying on it writes nothing. */
  lemma {:induction false} MoveStaysSynced(cfg: Config, e: State, written: Bytes, line: int)
    requires IsPlainOutput(cfg) && PlainSynced(e, written)
    ensures var m := MoveToLine(cfg, e, line);
      && PlainSynced(m.state, written + m.output) && m.state.remoteLine == line
      && (line != e.remoteLine ==> LastLine(written + m.output) == [] && m.state.lineData == [])
      && (line == e.remoteLine ==> m.output == [] && m.state == e)
  {
    hide NewLines, WellMarked, Spoken, LastLine;
    NothingMarked();
    NothingSpoken();
    if line == e.remoteLine {
      assert written + [] == written;
    } else {
      if line > e.remoteLine {
        NewLinesEnd(line - e.remoteLine);
      }
      LineEnds(written, MoveToLine(cfg, e, line).output);
    }
  }

  lemma {:induction false} BegunStaysSynced(cfg: Config, e: State, written: Bytes, cells: Line)
    requires IsPlainOutput(cfg) && PlainSynced(e, written)
    ensures var b := Begun(cfg, e, cells);
      && PlainSynced(b.state, written + b.output) && b.state.remoteLine == e.remoteLine
      && |b.state.lineData| <= |cells| && b.state.lineData == cells[..|b.state.lineData|]
  {
    hide WellMarked, Spoken, LastLine;
    NothingMarked();
    NothingSpoken();
    if CanAppend(cfg, e, cells) {
      assert written + [] == written;
    } else {
      LineEnds(written, Restart(cfg, e).output);
    }
  }

  lemma {:induction false} FinishSpeaks(cfg: Config, e: State, written: Bytes, cells: Line, cursorColumn: int)
    requires IsPlainOutput(cfg) && PlainSynced(e, written) && WellMarked(cells)
    requires |e.lineData| <= |cells| && e.lineData == cells[..|e.lineData|]
    ensures var f := FinishLine(cfg, e, cells, cursorColumn);
      var k := |f.state.lineData|;
      && PlainSynced(f.state, written + f.output) && f.state.remoteLine == e.remoteLine
      && k <= |cells| && f.state.lineData == cells[..k]
      && Spoken(cells) == LastLine(written + f.output) + Spaces(|cells| - k)
  {
    hide WellMarked, Spoken, LastLine, Compose;
    var start := |e.lineData|;
    var d := Draft([], 0, start, false, e.remoteColor);
    NothingPauses(cells, start, d);
    ComposeSpeaks(cfg, cells, start, d);
    var r := Compose(cfg, cells, start, d);
    SpokenInThree(cells, start, r.cells);
    NoLineFeeds(cells[start..r.cells]);
    TextStays(written, r.text[..r.keep]);
    FinishedWith(cfg, e, cells, cursorColumn);
  }

  lemma {:induction false} NothingPauses(cells: Line, start: nat, d: Draft)
    requires WellMarked(cells) && start <= |cells| && WellMarked(cells[..start])
    requires d.text == [] && d.keep == 0 && d.cells == start
    ensures Pausing(cells, start, d)
  {
    hide WellMarked, Spoken;
    RenderSplits(cells, start);
    assert cells[start..start] == [];
    NothingMarked();
    NothingSpoken();
  }

  lemma {:induction false} SpokenInThree(cells: Line, i: nat, j: nat)
    requires i <= j <= |cells| && WellMarked(cells[..i]) && WellMarked(cells[i..j]) && WellMarked(cells[j..])
    ensures WellMarked(cells[..j]) && Spoken(cells[..j]) == Spoken(cells[..i]) + Spoken(cells[i..j])
    ensures Spoken(cells) == Spoken(cells[..j]) + Spoken(cells[j..])
  {
    hide WellMarked, Spoken;
    assert cells[..i] + cells[i..j] == cells[..j] && cells[..j] + cells[j..] == cells;
    SpokenConcat(cells[..i], cells[i..j]);
    SpokenConcat(cells[..j], cells[j..]);
  }

  /** In plain mode nothing is written but the bytes composed. */
  lemma {:induction false} FinishedWith(cfg: Config, e: State, cells: Line, cursorColumn: int)
    requires IsPlainOutput(cfg) && StateOk(e) && e.lineDataValid
    requires |e.lineData| <= |cells| && e.lineData == cells[..|e.lineData|]
    ensures var start := |e.lineData|;
      var r := Compose(cfg, cells, start, Draft([], 0, start, false, e.remoteColor));
      var f := FinishLine(cfg, e, cells, cursorColumn);
      && f.output == r.text[..r.keep] && f.state.lineData == cells[..r.cells] && StateOk(f.state)
      && f.state.lineDataValid && f.state.remoteLine == e.remoteLine
  {
    hide Compose;
    var start := |e.lineData|;
    var r := Compose(cfg, cells, start, Draft([], 0, start, false, e.remoteColor));
    assert r.text[..r.keep] + [] == r.text[..r.keep] && cells[..start] + cells[start..r.cells] == cells[..r.cells];
  }

  lemma {:induction false} NoLineFeeds(cells: Line)
    requires WellMarked(cells)
    ensures 0x0a !in Spoken(cells)
    decreases |cells|
  {
    hide WellMarked, Spoken, Encoded;
    NothingSpoken();
    if cells != [] {
      FrontIsSpoken(cells);
      NoLineFeeds(cells[ScanScalar(cells).0..]);
    }
  }

  /**
    In plain mode sending a line leaves exactly its text on the last line of the output, but for spaces at its end,
    whether it was continued, started again or moved to; and the emitter goes on remembering that.
   */
  lemma {:induction false} SendLineSpeaks(
    cfg: Config, e: State, written: Bytes, line: int, cells: Line, cursorColumn: int)
    requires IsPlainOutput(cfg) && PlainSynced(e, written) && WellMarked(cells) && cells != []
    ensures var sent := SendLine(cfg, e, line, cells, cursorColumn);
      && PlainSynced(sent.state, written + sent.output) && sent.state.remoteLine == line
      && |sent.state.lineData| <= |cells|
      && Spoken(cells) == LastLine(written + sent.output) + Spaces(|cells| - |sent.state.lineData|)
  {
    hide WellMarked, Spoken, LastLine, MoveToLine, Begun, FinishLine;
    MoveStaysSynced(cfg, e, written, line);
    var m := MoveToLine(cfg, e, line);
    BegunStaysSynced(cfg, m.state, written + m.output, cells);
    var b := Begun(cfg, m.state, cells);
    FinishSpeaks(cfg, b.state, written + m.output + b.output, cells, cursorColumn);
    var f := FinishLine(cfg, b.state, cells, cursorColumn);
    assert written + m.output + b.output + f.output == written + (m.output + b.output + f.output);
  }
}
