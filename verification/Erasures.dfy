/**
  Erasing to the end of a row means different things to different terminals while a wrap is pending. The emitter never
  asks for it then.
 */
module Erasures {
  import opened Basics
  import opened VtScreen
  import opened VtParser
  import opened VtTokens
  import opened Color
  import opened Emitter
  import opened LineMirror
  import opened EmitterMirror
  import U = Utf8

  const K: Byte := 'K' as int

  /** While the terminal reads `bytes` no control sequence ends in `K` with a wrap pending. */
  ghost predicate Careful(vt: Vt, bytes: Bytes)
    requires VtOk(vt)
    decreases |bytes|
  {
    bytes != [] ==>
      && !(vt.parser.Csi? && bytes[0] == K && vt.screen.wrap)
      && (Consume(vt, bytes[0]).Some? ==> Careful(Consume(vt, bytes[0]).value, bytes[1..]))
  }

  lemma {:induction false} CarefulConcat(vt: Vt, a: Bytes, b: Bytes)
    requires VtOk(vt) && Feed(vt, a).Some?
    ensures Careful(vt, a + b) <==> Careful(vt, a) && Careful(Feed(vt, a).value, b)
    decreases |a|
  {
    hide VtOk, Consume;
    if a == [] {
      assert a + b == b;
    } else {
      assert (a + b)[0] == a[0] && (a + b)[1..] == a[1..] + b;
      CarefulConcat(Consume(vt, a[0]).value, a[1..], b);
    }
  }

  lemma {:induction false} CarefulWithout(vt: Vt, bytes: Bytes)
    requires VtOk(vt) && K !in bytes
    ensures Careful(vt, bytes)
    decreases |bytes|
  {
    hide VtOk, Consume;
    if bytes != [] && Consume(vt, bytes[0]).Some? {
      CarefulWithout(Consume(vt, bytes[0]).value, bytes[1..]);
    }
  }

  // ---------- What the emitter writes ----------

  lemma {:induction false} NoneInParameters(params: seq<nat>)
    requires 1 <= |params| <= 20 && forall i :: 0 <= i < |params| ==> params[i] < 1000
    ensures K !in Join(params)
  {
    ParametersOfJoined(params);
  }

  lemma {:induction false} NoneInNumber(n: nat)
    ensures K !in Decimal(n)
  {
    DecimalText(n);
  }

  lemma {:induction false} NoneInNewLines(n: nat)
    ensures K !in NewLines(n)
  {
    if n > 0 {
      NoneInNewLines(n - 1);
    }
  }

  lemma {:induction false} NoneInColor(color: Word)
    ensures K !in SetColorBytes(color)
  {
    NoneInParameters(SetColorParameters(color));
  }

  lemma {:induction false} NoneInHide(cfg: Config, e: State)
    ensures K !in HideCursor(cfg, e).output
  {
    NoneInNumber(25);
  }

  lemma {:induction false} NoneInMove(cfg: Config, e: State, line: int)
    ensures K !in MoveToLine(cfg, e, line).output
  {
    hide HideCursor, Decimal;
    NoneInHide(cfg, e);
    if line > e.remoteLine {
      NoneInNewLines(line - e.remoteLine);
    } else if line < e.remoteLine {
      NoneInNumber(e.remoteLine - line);
    }
  }

  lemma {:induction false} NoneInBegun(cfg: Config, e: State, cells: Line)
    requires StateOk(e)
    ensures K !in Begun(cfg, e, cells).output
  {
    hide HideCursor;
    NoneInHide(cfg, e);
  }

  /** A character is read as one, whatever its bytes. */
  lemma {:induction false} CarefulCharacter(vt: Vt, ch: nat)
    requires VtOk(vt) && vt.parser.Text? && IsPrintable(FixSpecialCharacters(ch))
    ensures Careful(vt, Encoded(ch))
  {
    hide Consume, FixSpecialCharacters;
    var code := FixSpecialCharacters(ch);
    U.EncodedLength(code);
    if code < 0x80 {
      assert Encoded(ch)[1..] == [];
    } else {
      assert K !in U.EncodeUtf8(code);
      CarefulWithout(vt, Encoded(ch));
    }
  }

  lemma {:induction false} CarefulErase(vt: Vt)
    requires VtOk(vt) && vt.parser.Text? && !vt.screen.wrap
    ensures Careful(vt, EraseToEol())
  {
    var introduced := [ESC, '[' as int];
    FeedConcat(vt, introduced, Decimal(0));
    FeedHead(vt, introduced);
    FeedHead(vt.(parser := Escape), ['[' as int]);
    FeedParameterText(vt.(parser := Csi([])), Decimal(0));
    NoneInNumber(0);
    CarefulWithout(vt, introduced + Decimal(0));
    CarefulConcat(vt, introduced + Decimal(0), [K]);
    assert EraseToEol() == introduced + Decimal(0) + [K];
  }

  // ---------- Composing ----------

  lemma {:induction false} RecolorCareful(
    cfg: Config, line: Line, i: nat, d: Draft, start: Vt, now: Vt, row: Row, target: Row)
    requires Pending(i, d, start, now, row, target) && i < |line| && Careful(start, d.text)
    ensures Careful(start, Recolored(cfg, line, i, d).text)
  {
    hide Feed, RowOk, Careful, SetColorBytes, Writing;
    var color := ColorOf(line[i].attributes);
    var flushed, _ := FlushSpaces(i, d, start, now, row, target);
    NoneInColor(color);
    CarefulWithout(flushed, SetColorBytes(color));
    CarefulConcat(start, d.text, SetColorBytes(color));
  }

  lemma {:induction false} DrawCareful(
    cfg: Config, i: nat, d: Draft, start: Vt, now: Vt, row: Row, target: Row, ch: nat, last: bool)
    requires !cfg.plainMode && Pending(i, d, start, now, row, target) && i < |target| && Careful(start, d.text)
    requires IsPrintable(FixSpecialCharacters(ch))
    ensures Careful(start, WithSpace(d).text) && forall end :: Careful(start, WithCharacter(cfg, d, end, ch, last).text)
  {
    hide Feed, RowOk, Careful, Encoded, EraseToEol, IsPrintable, FixSpecialCharacters;
    var flushed, _ := FlushSpaces(i, d, start, now, row, target);
    CarefulWithout(flushed, [0x20]);
    CarefulConcat(start, d.text, [0x20]);
    CarefulDraw(start, flushed, d.text, ch, last);
  }

  lemma {:induction false} TurnCareful(
    cfg: Config, line: Line, i: nat, d: Draft, start: Vt, now: Vt, row: Row, target: Row)
    requires !cfg.plainMode && cfg.outputColor && i < |line|
    requires Pending(i, d, start, now, row, target) && InColor(d, now)
    requires Ahead(line, i, target) && OnTrack(line, i, d, row, target) && Careful(start, d.text)
    ensures Careful(start, Turn(cfg, line, i, d).text)
  {
    hide Pending, Feed, RowOk, Writing, Kept, OnTrack, Recolored, Render, WellMarked, Careful, WithSpace, WithCharacter,
        IsPrintable, FixSpecialCharacters, ScanScalar;
    RecolorCareful(cfg, line, i, d, start, now, row, target);
    var vt1, row1 := RecolorStep(cfg, line, i, d, start, now, row, target);
    AheadStep(line, i, target);
    var (n, ch) := ScanScalar(line[i..]);
    DrawCareful(cfg, i, Recolored(cfg, line, i, d), start, vt1, row1, target, ch, i + n == |line|);
  }

  lemma {:induction false} FeedErase(vt: Vt) returns (r: Vt)
    requires VtOk(vt) && vt.parser.Text?
    ensures Feed(vt, EraseToEol()) == Some(r) && VtOk(r) && r.parser.Text?
  {
    FeedCsiNumber(vt, 0, K);
    r := Feed(vt, EraseToEol()).value;
  }

  lemma {:induction false} CarefulDraw(start: Vt, flushed: Vt, text: Bytes, ch: nat, last: bool)
    requires VtOk(start) && Feed(start, text) == Some(flushed) && Careful(start, text)
    requires VtOk(flushed) && flushed.parser.Text? && !flushed.screen.wrap && IsPrintable(FixSpecialCharacters(ch))
    ensures Careful(start, text + (if last then EraseToEol() else []) + Encoded(ch))
  {
    hide Careful, Encoded, EraseToEol, FixSpecialCharacters, Feed;
    if last {
      CarefulErase(flushed);
      CarefulConcat(start, text, EraseToEol());
      FeedConcat(start, text, EraseToEol());
      var erased := FeedErase(flushed);
      CarefulCharacter(erased, ch);
      CarefulConcat(start, text + EraseToEol(), Encoded(ch));
    } else {
      assert text + [] == text;
      CarefulCharacter(flushed, ch);
      CarefulConcat(start, text, Encoded(ch));
    }
  }

  lemma {:induction false} ComposeCareful(
    cfg: Config, line: Line, i: nat, d: Draft, start: Vt, now: Vt, row: Row, target: Row)
    requires !cfg.plainMode && cfg.outputColor && i <= |line|
    requires Pending(i, d, start, now, row, target) && InColor(d, now)
    requires Ahead(line, i, target) && OnTrack(line, i, d, row, target) && Careful(start, d.text)
    ensures Careful(start, Compose(cfg, line, i, d).text)
    decreases |line| - i
  {
    hide Feed, RowOk, Writing, Kept, Ahead, Turn, Careful;
    if i < |line| {
      TurnCareful(cfg, line, i, d, start, now, row, target);
      var vt1, row1 := TurnShows(cfg, line, i, d, start, now, row, target);
      ComposeCareful(cfg, line, i + ScanScalar(line[i..]).0, Turn(cfg, line, i, d), start, vt1, row1, target);
    }
  }

  /** The kept bytes of a line, and the erase after them if it has not come before. */
  lemma {:induction false} ComposedCareful(cfg: Config, e: State, vt: Vt, cells: Line)
    requires !cfg.plainMode && cfg.outputColor
    requires StateOk(e) && VtOk(vt) && vt.parser.Text? && PosAt(vt.screen, e.remoteColumn) && ColorKnown(e, vt.screen)
    requires e.lineDataValid && Remembered(e, vt.screen)
    requires WellMarked(cells) && |e.lineData| < |cells| <= vt.screen.width && e.lineData == cells[..|e.lineData|]
    ensures var d := Rest(cfg, e, cells);
      Careful(vt, d.text[..d.keep] + if d.erased then [] else EraseToEol())
  {
    hide Feed, RowOk, FullRow, Render, WellMarked, Compose, ScanScalar, Careful, EraseToEol, Ahead;
    var start, target, row := |e.lineData|, FullRow(cells, vt.screen.width), vt.screen.rows[vt.screen.y];
    var d0 := Draft([], 0, start, false, e.remoteColor);
    RowSplits(cells, start, vt.screen.width);
    NothingPending(e, vt, cells);
    CarefulWithout(vt, []);
    ComposeCareful(cfg, cells, start, d0, vt, vt, row, target);
    var now, _ := ComposeShows(cfg, cells, start, d0, vt, vt, row, target);
    var d := Compose(cfg, cells, start, d0);
    assert d.text == d.text[..d.keep] + d.text[d.keep..];
    CarefulConcat(vt, d.text[..d.keep], d.text[d.keep..]);
    if d.erased {
      assert d.text[..d.keep] + [] == d.text[..d.keep];
    } else {
      CarefulErase(now);
      CarefulConcat(vt, d.text[..d.keep], EraseToEol());
    }
  }

  /** Sending a line, wherever it is and whatever was there. */
  lemma {:induction false} SendLineCareful(
    cfg: Config, e: State, vt: Vt, origin: int, line: int, cells: Line, cursorColumn: int)
    requires !cfg.plainMode && cfg.outputColor
    requires Synced(e, vt, origin) && line - origin >= |vt.screen.history|
    requires WellMarked(cells) && 1 <= |cells| <= vt.screen.width
    ensures Careful(vt, SendLine(cfg, e, line, cells, cursorColumn).output)
  {
    hide RowOk, Feed, Restart, OnlyChanged, FullRow, WellMarked, NewLines, CursorMode, Careful, Compose;
    var moved := MoveToLine(cfg, e, line);
    var begun := Begun(cfg, moved.state, cells);
    var vt1 := MoveShows(cfg, e, vt, origin, line);
    var vt2 := BegunShows(cfg, moved.state, vt1, origin, cells);
    NoneInMove(cfg, e, line);
    NoneInBegun(cfg, moved.state, cells);
    FeedConcat(vt, moved.output, begun.output);
    FinishCareful(cfg, begun.state, vt2, origin, cells, cursorColumn);
    CarefulWithout(vt, moved.output + begun.output);
    CarefulConcat(vt, moved.output + begun.output, FinishLine(cfg, begun.state, cells, cursorColumn).output);
  }

  lemma {:induction false} FinishCareful(cfg: Config, e: State, vt: Vt, origin: int, cells: Line, cursorColumn: int)
    requires !cfg.plainMode && cfg.outputColor
    requires Synced(e, vt, origin) && e.lineDataValid
    requires WellMarked(cells) && |e.lineData| < |cells| <= vt.screen.width && e.lineData == cells[..|e.lineData|]
    ensures Careful(vt, FinishLine(cfg, e, cells, cursorColumn).output)
  {
    hide RowOk, Feed, Compose, Careful, EraseToEol, Remembered;
    var d, hidden := Rest(cfg, e, cells), Hidden(cfg, e, cells, cursorColumn);
    FinishInTwo(cfg, e, cells, cursorColumn);
    var vt1 := HiddenShows(cfg, e, vt, origin, cells, cursorColumn);
    NoneInHide(cfg, e);
    CarefulWithout(vt, hidden.output);
    ComposedCareful(cfg, hidden.state, vt1, cells);
    CarefulConcat(vt, hidden.output, d.text[..d.keep] + if d.erased then [] else EraseToEol());
  }
}
