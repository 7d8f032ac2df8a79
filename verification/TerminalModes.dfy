/** The control sequences for the mouse and what they leave a terminal with that knows these modes. */
module TerminalModes {
  import opened Basics
  import opened VtParser
  import opened VtTokens
  import opened Emitter

  /** Text as the bytes it is in ASCII. */
  function Ascii(text: string): Bytes {
    seq(|text|, i requires 0 <= i < |text| => text[i] as int % 0x80)
  }

  /** Control sequences, each written without its escape character. */
  function Sequences(texts: seq<string>): Bytes {
    if texts == [] then [] else [ESC] + Ascii(texts[0]) + Sequences(texts[1..])
  }

  const MOUSE_ON: seq<string> := ["[?1005l", "[?1000h", "[?1002h", "[?1003h", "[?1015h", "[?1006h"]

  const MOUSE_OFF: seq<string> := ["[?1006l", "[?1015l", "[?1003l", "[?1002l", "[?1000l"]

  lemma {:induction false} ModeText(mode: nat, enable: bool, text: string)
    requires 1000 <= mode < 2000 && |text| == 7
    requires text[0] == '[' && text[1] == '?' && text[2] == '1' && text[3] as int == 48 + mode / 100 % 10
    requires text[4] as int == 48 + mode / 10 % 10 && text[5] as int == 48 + mode % 10
    requires text[6] == if enable then 'h' else 'l'
    ensures CsiBytes(['?' as int] + Decimal(mode), if enable then 'h' as int else 'l' as int) == [ESC] + Ascii(text)
  {
    assert Decimal(mode) == Decimal(mode / 10) + [48 + mode % 10];
    assert Decimal(mode / 10) == Decimal(mode / 100) + [48 + mode / 10 % 10];
    assert Decimal(mode / 100) == Decimal(mode / 1000) + [48 + mode / 100 % 10];
    assert Decimal(mode / 1000) == [49];
  }

  /** Several modes of one kind, written out. */
  lemma {:induction false} ModeTexts(modes: seq<nat>, enable: bool, texts: seq<string>)
    requires |modes| == |texts|
    requires forall i :: 0 <= i < |modes| ==>
      && 1000 <= modes[i] < 2000 && |texts[i]| == 7
      && texts[i][0] == '[' && texts[i][1] == '?' && texts[i][2] == '1'
      && texts[i][3] as int == 48 + modes[i] / 100 % 10 && texts[i][4] as int == 48 + modes[i] / 10 % 10
      && texts[i][5] as int == 48 + modes[i] % 10 && texts[i][6] == if enable then 'h' else 'l'
    ensures PrivateModes(modes, enable) == Sequences(texts)
    decreases |modes|
  {
    hide Ascii, CsiBytes, Decimal;
    if modes != [] {
      ModeText(modes[0], enable, texts[0]);
      ModeTexts(modes[1..], enable, texts[1..]);
    }
  }

  lemma {:induction false} MouseOn()
    ensures PrivateModes([1005], false) + PrivateModes([1000, 1002, 1003, 1015, 1006], true) == Sequences(MOUSE_ON)
  {
    hide PrivateModes, Ascii, Sequences;
    var first, rest := ["[?1005l"], ["[?1000h", "[?1002h", "[?1003h", "[?1015h", "[?1006h"];
    ModeTexts([1005], false, first);
    ModeTexts([1000, 1002, 1003, 1015, 1006], true, rest);
    assert MOUSE_ON == first + rest;
    InTwo(first, rest);
  }

  lemma {:induction false} InTwo(first: seq<string>, rest: seq<string>)
    ensures Sequences(first + rest) == Sequences(first) + Sequences(rest)
  {
    hide Ascii;
    if first == [] {
      assert first + rest == rest;
    } else {
      InTwo(first[1..], rest);
      assert (first + rest)[1..] == first[1..] + rest;
    }
  }

  lemma {:induction false} MouseOff()
    ensures PrivateModes([1006, 1015, 1003, 1002, 1000], false) == Sequences(MOUSE_OFF)
  {
    hide PrivateModes, Ascii, Sequences;
    ModeTexts([1006, 1015, 1003, 1002, 1000], false, MOUSE_OFF);
  }

  /**
    Asking for the mouse switches the old encoding off and the reports, the motion and the two numbered encodings on;
    letting it go switches all of these off again. Nothing is written if nothing changes, or in plain mode.
   */
  lemma {:induction false} MouseModeOnTheWire(cfg: Config, e: State, enabled: bool)
    ensures EnableMouseMode(cfg, e, enabled).output ==
      if cfg.plainMode || e.mouseModeEnabled == enabled then [] else Sequences(if enabled then MOUSE_ON else MOUSE_OFF)
    ensures EnableMouseMode(cfg, e, enabled).state ==
      if cfg.plainMode then e else e.(mouseModeEnabled := enabled)
  {
    hide PrivateModes, Sequences;
    MouseOn();
    MouseOff();
  }
}
