/** The emitter as the object it is; every method is proved against the functions of Emitter. */
module TerminalObject {
  import opened Basics
  import opened VtScreen
  import opened VtParser
  import opened VtTokens
  import opened Color
  import E = Emitter

  // ---------- Colour bits ----------

  function Bit(present: bool, value: nat): nat {
    if present then value else 0
  }

  lemma {:induction false} SwappedBits(v: Nibble)
    ensures SwapRedBlue(v) ==
      Bit(HasFlag(v, 4), 1) + Bit(HasFlag(v, 2), 2) + Bit(HasFlag(v, 1), 4) + Bit(HasFlag(v, 8), 8)
  {
    assert v == v / 8 * 8 + v / 4 % 2 * 4 + v / 2 % 2 * 2 + v % 2;
  }

  lemma {:induction false} LowNibbleFlags(c: nat)
    ensures HasFlag(c, 1) == HasFlag(c % 16, 1) && HasFlag(c, 2) == HasFlag(c % 16, 2)
    ensures HasFlag(c, 4) == HasFlag(c % 16, 4) && HasFlag(c, 8) == HasFlag(c % 16, 8)
  {
    var q, r := c / 16, c % 16;
    assert c == 16 * q + r;
    Halved(q, r);
    Quartered(q, r);
    Eighths(q, r);
  }

  lemma {:induction false} Halved(q: nat, r: nat)
    ensures (16 * q + r) / 2 == 8 * q + r / 2
  {
  }

  lemma {:induction false} Quartered(q: nat, r: nat)
    ensures (16 * q + r) / 4 == 4 * q + r / 4
  {
  }

  lemma {:induction false} Eighths(q: nat, r: nat)
    ensures (16 * q + r) / 8 == 2 * q + r / 8
  {
  }

  lemma {:induction false} HighNibbleFlags(c: nat)
    ensures HasFlag(c, 0x10) == HasFlag(c / 16, 1) && HasFlag(c, 0x20) == HasFlag(c / 16, 2)
    ensures HasFlag(c, 0x40) == HasFlag(c / 16, 4) && HasFlag(c, 0x80) == HasFlag(c / 16, 8)
  {
    assert c / 0x20 == c / 16 / 2;
    assert c / 0x40 == c / 16 / 4;
    assert c / 0x80 == c / 16 / 8;
  }

  method ColorNibbles(color: Word) returns (fore: Nibble, back: Nibble)
    ensures fore == Fore(color) && back == Back(color)
  {
    hide HasFlag, SwapRedBlue;
    var f := Bit(HasFlag(color, 4), 1) + Bit(HasFlag(color, 2), 2) + Bit(HasFlag(color, 1), 4)
             + Bit(HasFlag(color, 8), 8);
    var b := Bit(HasFlag(color, 0x40), 1) + Bit(HasFlag(color, 0x20), 2) + Bit(HasFlag(color, 0x10), 4)
             + Bit(HasFlag(color, 0x80), 8);
    LowNibbleFlags(color);
    HighNibbleFlags(color);
    LowNibbleFlags(color / 16);
    SwappedBits(color % 16);
    SwappedBits(color / 16 % 16);
    fore, back := f, b;
    if HasFlag(color, REVERSE_VIDEO) {
      fore, back := back, fore;
    }
  }

  // ---------- Printing ----------

  method OutUInt(n: nat) returns (text: Bytes)
    ensures text == Decimal(n)
  {
    var rest: nat := n / 10;
    text := ['0' as int + n % 10];
    while rest != 0
      invariant Decimal(n) == if rest == 0 then text else Decimal(rest) + text
      decreases rest
    {
      text := ['0' as int + rest % 10] + text;
      rest := rest / 10;
    }
  }

  lemma {:induction false} JoinAppend(a: seq<nat>, b: seq<nat>)
    requires a != [] && b != []
    ensures Join(a + b) == Join(a) + [';' as int] + Join(b)
  {
    if |a| == 1 {
      assert (a + b)[1..] == b;
    } else {
      assert (a + b)[1..] == a[1..] + b;
      JoinAppend(a[1..], b);
    }
  }

  /** `;n` after other parameters. */
  method AppendParameter(text: Bytes, n: nat, ghost params: seq<nat>) returns (longer: Bytes)
    requires params != [] && text == Join(params)
    ensures longer == Join(params + [n])
  {
    var number := OutUInt(n);
    JoinAppend(params, [n]);
    longer := text + [';' as int] + number;
  }

  method AppendColor(text: Bytes, isFore: bool, color: Nibble, ghost params: seq<nat>) returns (longer: Bytes)
    requires params != [] && text == Join(params)
    ensures longer == Join(params + ColorParameters(isFore, color))
  {
    var base := if isFore then 30 else 40;
    if color >= 8 {
      longer := AppendParameter(text, base + (color - 8), params);
      longer := AppendParameter(longer, base + 60 + (color - 8), params + [base + (color - 8)]);
      assert params + [base + (color - 8)] + [base + 60 + (color - 8)] == params + ColorParameters(isFore, color);
    } else {
      longer := AppendParameter(text, base + color, params);
    }
  }

  /** One turn of the composing loop, or none when it is through. */
  lemma {:induction false} ComposeTurn(cfg: E.Config, line: Line, i: nat, d: E.Draft)
    requires i <= |line| && d.keep <= |d.text| && d.cells <= i
    ensures E.Compose(cfg, line, i, d) ==
      if i == |line| then d
      else E.Compose(cfg, line, i + E.ScanScalar(line[i..]).0, E.Turn(cfg, line, i, d))
  {
    hide E.Turn, E.ScanScalar;
  }

  method OutputSetColor(color: Word) returns (out: Bytes)
    ensures out == SetColorBytes(color)
  {
    hide HasFlag, Fore, Back, Join, Decimal;
    var fore, back := ColorNibbles(color);
    var text := OutUInt(0);
    ghost var params: seq<nat> := [0];
    assert text == Join(params) by { JoinOne(0); }
    if back == BLACK {
      if fore == LTGRAY {
      } else if fore == WHITE {
        text := AppendParameter(text, 1, params);
        params := params + [1];
      } else if fore == DKGRAY {
        text := AppendParameter(text, 37, params);
        text := AppendParameter(text, 90, params + [37]);
        params := params + [37] + [90];
        assert params == [0] + [37, 90];
      } else {
        text := AppendColor(text, true, fore, params);
        params := params + ColorParameters(true, fore);
      }
    } else if back == WHITE {
      text := AppendParameter(text, 7, params);
      params := params + [7];
      if fore == LTGRAY || fore == BLACK {
      } else {
        text := AppendColor(text, false, fore, params);
        params := params + ColorParameters(false, fore);
        assert params == [0] + ([7] + ColorParameters(false, fore));
      }
    } else {
      text := AppendColor(text, true, fore, params);
      params := params + ColorParameters(true, fore);
      text := AppendColor(text, false, back, params);
      params := params + ColorParameters(false, back);
      assert params == [0] + (ColorParameters(true, fore) + ColorParameters(false, back));
    }
    assert params == [0] + MainParameters(fore, back);
    ghost var main := params;
    if fore == back {
      text := AppendParameter(text, 8, params);
      params := params + [8];
    }
    assert params == main + if fore == back then [8] else [];
    if HasFlag(color, UNDERSCORE) {
      text := AppendParameter(text, 4, params);
      params := params + [4];
    }
    assert params == SetColorParameters(color);
    out := [ESC, '[' as int] + text + ['m' as int];
  }

  lemma {:induction false} JoinOne(n: nat)
    ensures Join([n]) == Decimal(n)
  {
  }

  // ---------- The object ----------

  class Terminal {
    const cfg: E.Config
    var remoteLine: int
    var remoteColumn: nat
    var lineDataValid: bool
    var lineData: Line
    var cursorHidden: bool
    var remoteColor: int
    var mouseModeEnabled: bool

    /** Everything written to the output pipe. */
    var output: Bytes

    ghost function State(): E.State
      reads this
    {
      E.State(remoteLine, remoteColumn, lineDataValid, lineData, cursorHidden, remoteColor, mouseModeEnabled)
    }

    ghost predicate Valid()
      reads this
    {
      E.StateOk(State())
    }

    /** `step` has been taken since the object looked as given. */
    twostate predicate Took(step: E.Step)
      reads this
    {
      State() == step.state && output == old(output) + step.output
    }

    constructor (plainMode: bool, outputColor: bool)
      ensures Valid() && cfg == E.Config(plainMode, outputColor)
      ensures State() == E.START && output == []
    {
      cfg := E.Config(plainMode, outputColor);
      remoteLine, remoteColumn, lineDataValid, lineData := 0, 0, true, [];
      cursorHidden, remoteColor, mouseModeEnabled, output := false, E.NO_COLOR, false, [];
    }

    method Reset(sendClear: bool, newLine: int)
      modifies this
      ensures Valid() && Took(E.Reset(cfg, old(State()), sendClear, newLine))
    {
      if sendClear && !cfg.plainMode {
        output := output + E.ClearScreen();
      }
      remoteLine, remoteColumn, lineData := newLine, 0, [];
      cursorHidden, remoteColor := false, E.NO_COLOR;
    }

    method HideTerminalCursor()
      modifies this`output, this`cursorHidden
      ensures old(Valid()) ==> Valid()
      ensures Took(E.HideCursor(cfg, old(State())))
    {
      if !cfg.plainMode {
        if cursorHidden {
          return;
        }
        output := output + E.CursorMode(false);
        cursorHidden := true;
      }
    }

    /** Line feeds down to `line`. */
    method FeedLines(line: int)
      requires line >= remoteLine
      modifies this`output, this`remoteLine
      ensures remoteLine == line && output == old(output) + E.NewLines(line - old(remoteLine))
    {
      ghost var first := remoteLine;
      assert E.NewLines(0) == [];
      while line > remoteLine
        invariant first <= remoteLine <= line
        invariant output == old(output) + E.NewLines(remoteLine - first)
      {
        NewLinesSnoc(remoteLine - first);
        output := output + E.CRLF;
        remoteLine := remoteLine + 1;
      }
    }

    method MoveTerminalToLine(line: int)
      requires Valid()
      modifies this
      ensures Valid() && Took(E.MoveToLine(cfg, old(State()), line))
    {
      hide Decimal, CsiBytes, E.HideCursor;
      if line == remoteLine {
        return;
      }
      HideTerminalCursor();
      if line < remoteLine {
        if cfg.plainMode {
          output := output + E.CRLF;
        } else {
          var up := OutUInt(remoteLine - line);
          output := output + (E.CR + CsiBytes(up, 'A' as int));
        }
        remoteLine := line;
      } else {
        FeedLines(line);
      }
      lineDataValid, lineData, remoteColumn := true, [], 0;
    }

    method ShowTerminalCursor(column: nat, line: int)
      requires Valid()
      modifies this
      ensures Valid() && Took(E.ShowCursor(cfg, old(State()), column, line))
    {
      hide E.MoveToLine, Decimal, CsiBytes;
      MoveTerminalToLine(line);
      if !cfg.plainMode {
        if remoteColumn != column {
          var number := OutUInt(column + 1);
          output := output + CsiBytes(number, 'G' as int);
          lineDataValid, lineData, remoteColumn := column == 0, [], column;
        }
        if cursorHidden {
          output := output + E.CursorMode(true);
          cursorHidden := false;
        }
      }
    }

    method BeginLine(cells: Line)
      requires Valid()
      modifies this
      ensures Valid() && Took(E.Begun(cfg, old(State()), cells))
      ensures cells != [] ==> lineDataValid && |lineData| <= |cells|
    {
      if lineDataValid && remoteColumn > 0 {
        var okWidth := if cfg.plainMode then |cells| >= |lineData| else |cells| > |lineData|;
        if !okWidth || lineData != cells[..|lineData|] {
          lineDataValid := false;
        }
      }
      if !lineDataValid {
        HideTerminalCursor();
        output := output + if cfg.plainMode then E.CRLF else E.CR;
        lineDataValid, lineData, remoteColumn := true, [], 0;
      }
    }

    /** Compose the cells after the remembered ones; returns the draft, of which only the kept bytes are for sending. */
    method ComposeLine(cells: Line) returns (d: E.Draft)
      requires |lineData| <= |cells|
      modifies this`remoteColor
      ensures d == E.Compose(cfg, cells, |lineData|, E.Draft([], 0, |lineData|, false, old(remoteColor)))
      ensures remoteColor == d.color
    {
      hide SetColorBytes, E.Encoded, E.ScanScalar, E.Compose, E.EraseToEol, ColorOf;
      var text: Bytes, keep: nat, kept: nat, erased := [], 0, |lineData|, false;
      var i: nat, cellCount: nat := |lineData|, 1;
      ghost var start := E.Draft([], 0, |lineData|, false, remoteColor);
      while i < |cells|
        invariant |lineData| <= kept <= i <= |cells| && keep <= |text|
        invariant E.Compose(cfg, cells, |lineData|, start)
               == E.Compose(cfg, cells, i, E.Draft(text, keep, kept, erased, remoteColor))
        decreases |cells| - i
      {
        ghost var d0 := E.Draft(text, keep, kept, erased, remoteColor);
        if cfg.outputColor {
          var color := ColorOf(cells[i].attributes);
          if color != remoteColor {
            var change := OutputSetColor(color);
            text := text + change;
            keep, kept, remoteColor := |text|, i, color;
          }
        }
        assert E.Recolored(cfg, cells, i, d0) == E.Draft(text, keep, kept, erased, remoteColor);
        var scanned := E.ScanScalar(cells[i..]);
        cellCount := scanned.0;
        var ch := scanned.1;
        if ch == 0x20 {
          text := text + [0x20];
        } else {
          if i + cellCount == |cells| {
            if !cfg.plainMode {
              text := text + E.EraseToEol();
            }
            erased := true;
          }
          assert text + [] == text;
          text := text + E.Encoded(ch);
          keep, kept := |text|, i + cellCount;
        }
        assert E.Draft(text, keep, kept, erased, remoteColor) == E.Turn(cfg, cells, i, d0);
        ComposeTurn(cfg, cells, i, d0);
        i := i + cellCount;
      }
      d := E.Draft(text, keep, kept, erased, remoteColor);
      ComposeTurn(cfg, cells, i, d);
    }

    method FinishLine(cells: Line, cursorColumn: int)
      requires Valid() && lineDataValid && |lineData| <= |cells|
      modifies this
      ensures Valid() && Took(E.FinishLine(cfg, old(State()), cells, cursorColumn))
    {
      hide E.Compose, E.EraseToEol, E.HideCursor;
      var d := ComposeLine(cells);
      ghost var composed := output;
      if cursorColumn != -1 && d.cells > cursorColumn {
        HideTerminalCursor();
      }
      output := output + d.text[..d.keep];
      if !d.erased && !cfg.plainMode {
        output := output + E.EraseToEol();
      }
      lineData := lineData + cells[|lineData|..d.cells];
      remoteColumn := d.cells;
      ghost var step := E.FinishLine(cfg, old(State()), cells, cursorColumn);
      assert output == composed + step.output;
    }

    method SendLine(line: int, cells: Line, cursorColumn: int)
      requires Valid() && |cells| >= 1
      modifies this
      ensures Valid() && Took(E.SendLine(cfg, old(State()), line, cells, cursorColumn))
    {
      hide E.MoveToLine, E.Begun, E.FinishLine;
      MoveTerminalToLine(line);
      BeginLine(cells);
      FinishLine(cells, cursorColumn);
    }

    method EnableMouseMode(enabled: bool)
      requires Valid()
      modifies this`output, this`mouseModeEnabled
      ensures Valid() && Took(E.EnableMouseMode(cfg, old(State()), enabled))
    {
      if mouseModeEnabled == enabled || cfg.plainMode {
        return;
      }
      mouseModeEnabled := enabled;
      output := output +
        if enabled then E.PrivateModes([1005], false) + E.PrivateModes([1000, 1002, 1003, 1015, 1006], true)
        else E.PrivateModes([1006, 1015, 1003, 1002, 1000], false);
    }
  }

  lemma {:induction false} NewLinesSnoc(n: nat)
    ensures E.NewLines(n + 1) == E.NewLines(n) + E.CRLF
  {
    if n > 0 {
      NewLinesSnoc(n - 1);
    }
  }
}
