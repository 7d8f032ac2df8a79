/**
  The incremental VT emitter as functions from its state to its next state and the bytes it writes.
  `Terminal` is the class that carries this state.
 */
module Emitter {
  import opened Basics
  import opened VtScreen
  import opened VtParser
  import opened VtTokens
  import opened Color
  import U = Utf8

  datatype Config = Config(plainMode: bool, outputColor: bool)

  const NO_COLOR := -1

  datatype State = State(
    remoteLine: int, remoteColumn: nat, lineDataValid: bool, lineData: Line,
    cursorHidden: bool, remoteColor: int, mouseModeEnabled: bool)

  datatype Step = Step(state: State, output: Bytes)

  const START := State(0, 0, true, [], false, NO_COLOR, false)

  /** What is remembered of the remote line reaches exactly to the remote column. */
  predicate StateOk(e: State) {
    e.lineDataValid ==> |e.lineData| == e.remoteColumn
  }

  const CR: Bytes := [0x0d]
  const CRLF: Bytes := [0x0d, 0x0a]

  function EraseToEol(): Bytes {
    CsiBytes(Decimal(0), 'K' as int)
  }

  function CursorMode(show: bool): Bytes {
    CsiBytes(['?' as int] + Decimal(25), if show then 'h' as int else 'l' as int)
  }

  function ClearScreen(): Bytes {
    CsiBytes(Join([0]), 'm' as int) + CsiBytes(Join([1, 1]), 'H' as int) + CsiBytes(Decimal(2), 'J' as int)
  }

  // ---------- Cells to characters ----------

  function FixSpecialCharacters(ch: nat): (r: nat)
    ensures r != 0x1b
    ensures 1 <= ch <= 6 ==> 0x2550 <= r <= 0x255d
    ensures !(1 <= ch <= 6) && ch != 0x1b ==> r == ch
  {
    match ch
    case 1 => 0x2554
    case 2 => 0x2557
    case 3 => 0x255a
    case 4 => 0x255d
    case 5 => 0x2551
    case 6 => 0x2550
    case 0x1b => '?' as int
    case _ => ch
  }

  predicate IsFullWidth(cells: Line) {
    && |cells| >= 2
    && HasFlag(cells[0].attributes, LEADING_BYTE)
    && HasFlag(cells[1].attributes, TRAILING_BYTE)
    && cells[0].ch == cells[1].ch
  }

  /** The number of leading cells that make up one character, and that character. */
  function ScanScalar(cells: Line): (r: (nat, nat))
    requires cells != []
    ensures 1 <= r.0 <= |cells|
  {
    var w1 := if IsFullWidth(cells) then 2 else 1;
    var c1 := cells[0].ch;
    if !U.IsSurrogate(c1) then (w1, c1)
    else if !U.IsLeadSurrogate(c1) || |cells| <= w1 || !U.IsTrailSurrogate(cells[w1].ch) then (w1, '?' as int)
    else (w1 + (if IsFullWidth(cells[w1..]) then 2 else 1), U.DecodeSurrogatePair(c1, cells[w1].ch))
  }

  /** The cells the console uses for a UTF-16 code unit, one, or two marked as the halves of a full-width one. */
  function UnitCells(unit: Word, wide: bool, attributes: Word): Line
    requires attributes < 0x100
  {
    if wide then [CharInfo(unit, attributes + LEADING_BYTE), CharInfo(unit, attributes + TRAILING_BYTE)]
    else [CharInfo(unit, attributes)]
  }

  function CharacterCells(code: nat, wide: bool, attributes: Word): Line
    requires attributes < 0x100 && U.IsScalar(code)
  {
    var units := U.EncodeUtf16(code);
    UnitCells(units[0], wide, attributes) + if |units| == 2 then UnitCells(units[1], wide, attributes) else []
  }

  lemma {:induction false} UnitIsScanned(unit: Word, wide: bool, attributes: Word, rest: Line)
    requires attributes < 0x100
    ensures IsFullWidth(UnitCells(unit, wide, attributes) + rest) == wide
  {
    assert (attributes + LEADING_BYTE) / LEADING_BYTE == 1;
    assert (attributes + TRAILING_BYTE) / TRAILING_BYTE == 1;
  }

  /** Two cells are taken for one character exactly if they are marked as its halves and hold the same unit. */
  lemma {:induction false} HalvesMatch(cells: Line)
    requires cells != [] && !U.IsSurrogate(cells[0].ch)
    ensures ScanScalar(cells).1 == cells[0].ch
    ensures ScanScalar(cells).0 ==
      if |cells| >= 2 && cells[0].attributes / 0x100 % 2 == 1 && cells[1].attributes / 0x200 % 2 == 1
         && cells[1].ch == cells[0].ch then 2
      else 1
  {
  }

  /** A half without the other is shown as a question mark; a pair is the character it encodes. */
  lemma {:induction false} LoneSurrogate(cells: Line)
    requires cells != [] && U.IsSurrogate(cells[0].ch)
    ensures var (n, ch) := ScanScalar(cells);
      ch != '?' as int ==>
        && 0x1_0000 <= ch < 0x11_0000 && 2 <= n <= 4
        && exists k :: 1 <= k <= 2 && k < |cells| && U.EncodeUtf16(ch) == [cells[0].ch, cells[k].ch]
  {
    var w := if IsFullWidth(cells) then 2 else 1;
    if ScanScalar(cells).1 != '?' as int {
      assert U.EncodeUtf16(ScanScalar(cells).1) == [cells[0].ch, cells[w].ch];
    }
  }

  /** Any character the console has put into one, two or four cells is scanned back whole, whatever follows. */
  lemma {:induction false} ScanReadsCharacter(code: nat, wide: bool, attributes: Word, rest: Line)
    requires attributes < 0x100 && U.IsScalar(code)
    ensures var cells := CharacterCells(code, wide, attributes); ScanScalar(cells + rest) == (|cells|, code)
  {
    hide IsFullWidth;
    var units := U.EncodeUtf16(code);
    var first := UnitCells(units[0], wide, attributes);
    if |units| == 1 {
      assert CharacterCells(code, wide, attributes) == first;
      UnitIsScanned(units[0], wide, attributes, rest);
    } else {
      U.SurrogatePairRoundTrip(code, units[0], units[1]);
      var second := UnitCells(units[1], wide, attributes) + rest;
      UnitIsScanned(units[0], wide, attributes, second);
      UnitIsScanned(units[1], wide, attributes, rest);
      assert CharacterCells(code, wide, attributes) + rest == first + second;
      assert (first + second)[|first|..] == second;
    }
  }

  function Encoded(ch: nat): Bytes {
    var bytes := U.EncodeUtf8(FixSpecialCharacters(ch));
    if bytes == [] then ['?' as int] else bytes
  }

  // ---------- Cursor ----------

  function HideCursor(cfg: Config, e: State): (r: Step)
    ensures StateOk(e) ==> StateOk(r.state)
  {
    if cfg.plainMode || e.cursorHidden then Step(e, []) else Step(e.(cursorHidden := true), CursorMode(false))
  }

  function NewLines(n: nat): Bytes {
    if n == 0 then [] else CRLF + NewLines(n - 1)
  }

  function MoveToLine(cfg: Config, e: State, line: int): (r: Step)
    ensures StateOk(e) ==> StateOk(r.state)
    ensures r.state.remoteLine == line
  {
    if line == e.remoteLine then Step(e, [])
    else
      var hidden := HideCursor(cfg, e);
      var move :=
        if line > e.remoteLine then NewLines(line - e.remoteLine)
        else if cfg.plainMode then CRLF
        else CR + CsiBytes(Decimal(e.remoteLine - line), 'A' as int);
      Step(
        hidden.state.(remoteLine := line, lineDataValid := true, lineData := [], remoteColumn := 0),
        hidden.output + move)
  }

  function ShowCursor(cfg: Config, e: State, column: nat, line: int): (r: Step)
    requires StateOk(e)
    ensures StateOk(r.state)
  {
    var moved := MoveToLine(cfg, e, line);
    if cfg.plainMode then moved
    else
      var e1 := moved.state;
      var placed :=
        if e1.remoteColumn == column then Step(e1, [])
        else
          Step(e1.(lineDataValid := column == 0, lineData := [], remoteColumn := column),
               CsiBytes(Decimal(column + 1), 'G' as int));
      var e2 := placed.state;
      var shown := if e2.cursorHidden then Step(e2.(cursorHidden := false), CursorMode(true)) else Step(e2, []);
      Step(shown.state, moved.output + placed.output + shown.output)
  }

  // ---------- Lines ----------

  /**
    A line being composed: the bytes so far, how many of them are certain to be sent, how many cells those cover,
    whether the rest of the line has been erased, and the colour last selected.
   */
  datatype Draft = Draft(text: Bytes, keep: nat, cells: nat, erased: bool, color: int)

  function WithColor(d: Draft, i: nat, color: Word): Draft {
    var text := d.text + SetColorBytes(color);
    d.(text := text, keep := |text|, cells := i, color := color)
  }

  function WithSpace(d: Draft): Draft {
    d.(text := d.text + [0x20])
  }

  function WithCharacter(cfg: Config, d: Draft, end: nat, ch: nat, last: bool): Draft {
    var erase := if last && !cfg.plainMode then EraseToEol() else [];
    var text := d.text + erase + Encoded(ch);
    d.(text := text, keep := |text|, cells := end, erased := d.erased || last)
  }

  function Recolored(cfg: Config, line: Line, i: nat, d: Draft): Draft
    requires i < |line|
  {
    var color := ColorOf(line[i].attributes);
    if cfg.outputColor && color != d.color then WithColor(d, i, color) else d
  }

  /** Take in the character at cell `i`, first changing colour if need be. */
  function Turn(cfg: Config, line: Line, i: nat, d: Draft): Draft
    requires i < |line|
  {
    var colored := Recolored(cfg, line, i, d);
    var (n, ch) := ScanScalar(line[i..]);
    if ch == 0x20 then WithSpace(colored) else WithCharacter(cfg, colored, i + n, ch, i + n == |line|)
  }

  /** The cells from `i` on. Trailing blanks stay out of the kept bytes; they are left to the erase. */
  function Compose(cfg: Config, line: Line, i: nat, d: Draft): (r: Draft)
    requires i <= |line|
    requires d.keep <= |d.text| && d.cells <= i
    ensures r.keep <= |r.text| && d.cells <= r.cells <= |line|
    decreases |line| - i
  {
    if i == |line| then d else Compose(cfg, line, i + ScanScalar(line[i..]).0, Turn(cfg, line, i, d))
  }

  /** Whether the line already sent is a prefix of `cells` that can be continued. */
  predicate CanAppend(cfg: Config, e: State, cells: Line) {
    && e.lineDataValid
    && (e.remoteColumn > 0 ==>
          && (if cfg.plainMode then |cells| >= |e.lineData| else |cells| > |e.lineData|)
          && e.lineData == cells[..|e.lineData|])
  }

  function Restart(cfg: Config, e: State): (r: Step)
    ensures StateOk(r.state)
  {
    var hidden := HideCursor(cfg, e);
    Step(hidden.state.(lineDataValid := true, lineData := [], remoteColumn := 0),
         hidden.output + if cfg.plainMode then CRLF else CR)
  }

  /** Either what was sent of this line can be continued, or the line is started again. */
  function Begun(cfg: Config, e: State, cells: Line): (r: Step)
    requires StateOk(e)
    ensures StateOk(r.state)
  {
    if CanAppend(cfg, e, cells) then Step(e, []) else Restart(cfg, e)
  }

  /** Compose the rest of the line and write it; `cursorColumn` is -1 when the cursor is not shown on this line. */
  function FinishLine(cfg: Config, e: State, cells: Line, cursorColumn: int): (r: Step)
    requires StateOk(e) && e.lineDataValid && |e.lineData| <= |cells|
    ensures StateOk(r.state)
  {
    var start := |e.lineData|;
    var d := Compose(cfg, cells, start, Draft([], 0, start, false, e.remoteColor));
    var e1 := e.(remoteColor := d.color);
    var hidden :=
      if cursorColumn != -1 && d.cells > cursorColumn then HideCursor(cfg, e1) else Step(e1, []);
    var erase := if !d.erased && !cfg.plainMode then EraseToEol() else [];
    Step(
      hidden.state.(lineData := e.lineData + cells[start..d.cells], remoteColumn := d.cells),
      hidden.output + d.text[..d.keep] + erase)
  }

  function SendLine(cfg: Config, e: State, line: int, cells: Line, cursorColumn: int): (r: Step)
    requires StateOk(e) && |cells| >= 1
    ensures StateOk(r.state)
  {
    var moved := MoveToLine(cfg, e, line);
    var begun := Begun(cfg, moved.state, cells);
    var finished := FinishLine(cfg, begun.state, cells, cursorColumn);
    Step(finished.state, moved.output + begun.output + finished.output)
  }

  // ---------- Modes ----------

  /** Forget the remote line, optionally after clearing the screen. The mouse mode is kept. */
  function Reset(cfg: Config, e: State, sendClear: bool, newLine: int): (r: Step)
    ensures StateOk(r.state)
  {
    Step(
      e.(remoteLine := newLine, remoteColumn := 0, lineData := [], cursorHidden := false, remoteColor := NO_COLOR),
      if sendClear && !cfg.plainMode then ClearScreen() else [])
  }

  function PrivateModes(modes: seq<nat>, enable: bool): Bytes {
    if modes == [] then []
    else
      CsiBytes(['?' as int] + Decimal(modes[0]), if enable then 'h' as int else 'l' as int)
      + PrivateModes(modes[1..], enable)
  }

  function EnableMouseMode(cfg: Config, e: State, enabled: bool): Step {
    if e.mouseModeEnabled == enabled || cfg.plainMode then Step(e, [])
    else
      Step(e.(mouseModeEnabled := enabled),
           if enabled then PrivateModes([1005], false) + PrivateModes([1000, 1002, 1003, 1015, 1006], true)
           else PrivateModes([1006, 1015, 1003, 1002, 1000], false))
  }
}
