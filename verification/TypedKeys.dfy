/**
  What reaches the console when a key is typed: from the bytes the terminal sends to the character and the modifiers of
  every record.
 */
module TypedKeys {
  import opened Basics
  import opened Utf8
  import opened KeyBindings
  import opened InputPatterns
  import opened ConsoleInput

  // ---------- What is told from a list of records ----------

  datatype Modifiers = Modifiers(ctrl: bool, leftAlt: bool, rightAlt: bool, shift: bool)

  const NONE_HELD := Modifiers(false, false, false, false)

  /** The modifiers held, as a record's key state names them. */
  function StateOf(m: Modifiers): nat {
    (if m.rightAlt then 1 else 0) + (if m.leftAlt then 2 else 0) + (if m.ctrl then 8 else 0) + if m.shift then 16 else 0
  }

  function CountOf(m: Modifiers): nat {
    (if m.rightAlt then 1 else 0) + (if m.leftAlt then 1 else 0) + (if m.ctrl then 1 else 0) + if m.shift then 1 else 0
  }

  /** The modifier a record presses or releases, the right Alt key being the extended one; and what is held then. */
  function Turned(m: Modifiers, vk: Word, extended: bool, down: bool): Option<Modifiers> {
    if vk == 0x11 && !extended && m.ctrl != down then Some(m.(ctrl := down))
    else if vk == 0x12 && !extended && m.leftAlt != down then Some(m.(leftAlt := down))
    else if vk == 0x12 && extended && m.rightAlt != down then Some(m.(rightAlt := down))
    else if vk == 0x10 && !extended && m.shift != down then Some(m.(shift := down))
    else None
  }

  /**
    The modifiers held after `events`, if each is a modifier without a character going the given way that was not so
    before, and names exactly the modifiers held after it.
   */
  function Replay(events: seq<Event>, held: Modifiers, down: bool): Option<Modifiers>
    decreases |events|
  {
    if events == [] then Some(held)
    else if !events[0].KeyRecord? || events[0].down != down || events[0].ch != 0 then None
    else
      var extended := events[0].keyState >= 0x100;
      var next := Turned(held, events[0].virtualKey, extended, down);
      if next.None? || events[0].keyState != StateOf(next.value) + (if extended then 0x100 else 0) then None
      else Replay(events[1..], next.value, down)
  }

  /** `units` are the UTF-16 code units of `code`; there are none if it is no scalar value. */
  predicate IsUtf16(units: seq<Word>, code: nat) {
    if code < 0xd800 || 0xe000 <= code < 0x1_0000 then units == [code]
    else if code < 0x1_0000 || 0x11_0000 <= code then units == []
    else
      && |units| == 2 && 0xd800 <= units[0] < 0xdc00 && 0xdc00 <= units[1] < 0xe000
      && code == 0x1_0000 + (units[0] as int - 0xd800) * 0x400 + (units[1] as int - 0xdc00)
  }

  /** One record of key `vk` for each unit. */
  function Records(down: bool, vk: Word, units: seq<Word>, state: nat): (r: seq<Event>)
    ensures |r| == |units|
  {
    seq(|units|, i requires 0 <= i < |units| => KeyRecord(down, vk, units[i], state))
  }

  /** The records of a key press taken apart: modifiers down, the key down, the key up, modifiers up. */
  datatype Parts = Parts(pressed: seq<Event>, press: seq<Event>, ups: seq<Word>, released: seq<Event>)

  /**
    `events` press exactly the modifiers `m`, then the key, and take everything back: `ups` are the characters of the
    key going up, `state` the key state then.
   */
  ghost predicate Taken(events: seq<Event>, p: Parts, m: Modifiers, vk: Word, state: nat) {
    && events == p.pressed + (p.press + Records(false, vk, p.ups, state)) + p.released
    && Replay(p.pressed, NONE_HELD, true) == Some(m) && |p.pressed| == CountOf(m)
    && Replay(p.released, m, false) == Some(NONE_HELD) && |p.released| == CountOf(m)
  }

  // ---------- Key presses ----------

  lemma {:induction false} UnitsOf(code: nat)
    ensures IsUtf16(EncodeUtf16(code), code)
  {
  }

  lemma {:induction false} RecordsOfCharacter(down: bool, vk: Word, code: nat, state: nat)
    ensures CodePointRecords(down, vk, code, state) == Records(down, vk, EncodeUtf16(code), state)
  {
  }

  lemma {:induction false} ReplayBoth(a: seq<Event>, b: seq<Event>, held: Modifiers, down: bool)
    requires Replay(a, held, down).Some?
    ensures Replay(a + b, held, down) == Replay(b, Replay(a, held, down).value, down)
    decreases |a|
  {
    hide Turned, StateOf;
    if a == [] {
      assert a + b == b;
    } else {
      assert (a + b)[0] == a[0] && (a + b)[1..] == a[1..] + b;
      var extended := a[0].keyState >= 0x100;
      ReplayBoth(a[1..], b, Turned(held, a[0].virtualKey, extended, down).value, down);
    }
  }

  lemma {:induction false} ReplayOne(e: Event, held: Modifiers, down: bool)
    ensures Replay([e], held, down) ==
      if !e.KeyRecord? || e.down != down || e.ch != 0 then None
      else
        var next := Turned(held, e.virtualKey, e.keyState >= 0x100, down);
        if next.None? then None
        else if e.keyState != StateOf(next.value) + (if e.keyState >= 0x100 then 0x100 else 0) then None
        else next
  {
    assert [e][1..] == [];
    if e.KeyRecord? {
      var next := Turned(held, e.virtualKey, e.keyState >= 0x100, down);
      if next.Some? {
        assert Replay([], next.value, down) == next;
      }
    }
  }

  /** One modifier or none. */
  lemma {:induction false} ReplayStep(on: bool, vk: Word, state: nat, held: Modifiers, next: Modifiers, down: bool)
    requires if on then
        var extended := state >= 0x100;
        Turned(held, vk, extended, down) == Some(next) && state == StateOf(next) + if extended then 0x100 else 0
      else next == held
    ensures Replay(if down then GoesDown(on, vk, state) else GoesUp(on, vk, state), held, down) == Some(next)
  {
    if on {
      ReplayOne(KeyRecord(down, vk, 0, state), held, down);
    }
  }

  function Pressing(m: Modifiers): seq<Event> {
    var s1 := Flag(m.ctrl, LEFT_CTRL_PRESSED);
    var s2 := s1 + Flag(m.leftAlt, LEFT_ALT_PRESSED);
    var s3 := s2 + Flag(m.rightAlt, RIGHT_ALT_PRESSED);
    GoesDown(m.ctrl, VK_CONTROL, s1) + GoesDown(m.leftAlt, VK_MENU, s2)
    + GoesDown(m.rightAlt, VK_MENU, s3 + ENHANCED_KEY)
    + GoesDown(m.shift, VK_SHIFT, s3 + Flag(m.shift, SHIFT_PRESSED))
  }

  function Releasing(m: Modifiers): seq<Event> {
    var s1 := Flag(m.ctrl, LEFT_CTRL_PRESSED);
    var s2 := s1 + Flag(m.leftAlt, LEFT_ALT_PRESSED);
    var s3 := s2 + Flag(m.rightAlt, RIGHT_ALT_PRESSED);
    GoesUp(m.shift, VK_SHIFT, s3) + GoesUp(m.rightAlt, VK_MENU, s2 + ENHANCED_KEY) + GoesUp(m.leftAlt, VK_MENU, s1)
    + GoesUp(m.ctrl, VK_CONTROL, 0)
  }

  lemma {:induction false} PressedReplay(m: Modifiers)
    ensures Replay(Pressing(m), NONE_HELD, true) == Some(m) && |Pressing(m)| == CountOf(m)
  {
    hide Replay;
    var s1 := Flag(m.ctrl, LEFT_CTRL_PRESSED);
    var s2 := s1 + Flag(m.leftAlt, LEFT_ALT_PRESSED);
    var s3 := s2 + Flag(m.rightAlt, RIGHT_ALT_PRESSED);
    var m1 := NONE_HELD.(ctrl := m.ctrl);
    var m2 := m1.(leftAlt := m.leftAlt);
    var m3 := m2.(rightAlt := m.rightAlt);
    var d1, d2 := GoesDown(m.ctrl, VK_CONTROL, s1), GoesDown(m.leftAlt, VK_MENU, s2);
    var d3, d4 := GoesDown(m.rightAlt, VK_MENU, s3 + ENHANCED_KEY), GoesDown(m.shift, VK_SHIFT, StateOf(m));
    ReplayStep(m.ctrl, VK_CONTROL, s1, NONE_HELD, m1, true);
    ReplayStep(m.leftAlt, VK_MENU, s2, m1, m2, true);
    ReplayStep(m.rightAlt, VK_MENU, s3 + ENHANCED_KEY, m2, m3, true);
    ReplayStep(m.shift, VK_SHIFT, StateOf(m), m3, m, true);
    ReplayBoth(d1, d2, NONE_HELD, true);
    ReplayBoth(d1 + d2, d3, NONE_HELD, true);
    ReplayBoth(d1 + d2 + d3, d4, NONE_HELD, true);
  }

  lemma {:induction false} ReleasedReplay(m: Modifiers)
    ensures Replay(Releasing(m), m, false) == Some(NONE_HELD) && |Releasing(m)| == CountOf(m)
  {
    hide Replay;
    var s1 := Flag(m.ctrl, LEFT_CTRL_PRESSED);
    var s2 := s1 + Flag(m.leftAlt, LEFT_ALT_PRESSED);
    var s3 := s2 + Flag(m.rightAlt, RIGHT_ALT_PRESSED);
    var m3 := m.(shift := false);
    var m2 := m3.(rightAlt := false);
    var m1 := m2.(leftAlt := false);
    var u4, u3 := GoesUp(m.shift, VK_SHIFT, s3), GoesUp(m.rightAlt, VK_MENU, s2 + ENHANCED_KEY);
    var u2, u1 := GoesUp(m.leftAlt, VK_MENU, s1), GoesUp(m.ctrl, VK_CONTROL, 0);
    ReplayStep(m.shift, VK_SHIFT, s3, m, m3, false);
    ReplayStep(m.rightAlt, VK_MENU, s2 + ENHANCED_KEY, m3, m2, false);
    ReplayStep(m.leftAlt, VK_MENU, s1, m2, m1, false);
    ReplayStep(m.ctrl, VK_CONTROL, 0, m1, NONE_HELD, false);
    ReplayBoth(u4, u3, m, false);
    ReplayBoth(u4 + u3, u2, m, false);
    ReplayBoth(u4 + u3 + u2, u1, m, false);
  }

  /** The modifiers a key state names, and whether it names the extended keyboard. */
  function ModifiersIn(state: Word): Modifiers {
    Modifiers(state / 8 % 2 == 1, state / 2 % 2 == 1, state % 2 == 1, state / 16 % 2 == 1)
  }

  function ExtendedIn(state: Word): nat {
    if state / 0x100 % 2 == 1 then 0x100 else 0
  }

  predicate IsCursorKey(vk: Word) {
    vk in {0x23, 0x24, 0x25, 0x26, 0x27, 0x28}
  }

  lemma {:induction false} StateBits(env: Env, vk: Word, winState: Word)
    ensures KeyState(winState) == StateOf(ModifiersIn(winState)) + ExtendedIn(winState)
    ensures GoesToWindow(env, vk, winState) <==>
      env.escapeInput && IsCursorKey(vk) && ModifiersIn(winState) == NONE_HELD
  {
  }

  lemma {:induction false} ToWindow(env: Env, vk: Word, down: nat, up: nat, winState: Word, vtCode: nat, vtState: Word)
    requires GoesToWindow(env, vk, winState)
    ensures KeyPress(env, vk, down, up, winState, vtCode, vtState) == [KeyMessage(true, vk), KeyMessage(false, vk)]
  {
  }

  lemma {:induction false} KeyPressParts(
    env: Env, vk: Word, down: nat, up: nat, winState: Word, vtCode: nat, vtState: Word)
    requires !GoesToWindow(env, vk, winState)
    ensures var m := ModifiersIn(winState);
      KeyPress(env, vk, down, up, winState, vtCode, vtState) ==
      Pressing(m) + OwnRecords(env, vk, down, up, KeyState(winState), vtCode, vtState) + Releasing(m)
  {
    hide Held, GoesDown, GoesUp, OwnRecords, KeyState, IsNavigation;
    var m := ModifiersIn(winState);
    Nested(m.ctrl, m.leftAlt, m.rightAlt, m.shift, OwnRecords(env, vk, down, up, KeyState(winState), vtCode, vtState));
  }

  /**
    A key press: a bare cursor key goes to the window of a program that reads escapes; any other is typed with exactly
    the modifiers of its state, the key going down being the escape for such a program and one record for each code unit
    for any other.
   */
  lemma {:induction false} KeyPressTaken(
    env: Env, vk: Word, down: nat, up: nat, winState: Word, vtCode: nat, vtState: Word)
    returns (p: Parts, downs: seq<Word>)
    ensures var events, m := KeyPress(env, vk, down, up, winState, vtCode, vtState), ModifiersIn(winState);
      var state := StateOf(m) + ExtendedIn(winState);
      if env.escapeInput && IsCursorKey(vk) && m == NONE_HELD then
        events == [KeyMessage(true, vk), KeyMessage(false, vk)]
      else
        && Taken(events, p, m, vk, state) && IsUtf16(p.ups, up) && IsUtf16(downs, down)
        && p.press == if env.escapeInput then env.reencode(vk, vtCode, vtState) else Records(true, vk, downs, state)
  {
    hide CodePointRecords, KeyPress, GoesToWindow, Pressing, Releasing, Replay, Records, EncodeUtf16, ModifiersIn,
        KeyState, StateOf, ExtendedIn, CountOf;
    var m := ModifiersIn(winState);
    var state := StateOf(m) + ExtendedIn(winState);
    StateBits(env, vk, winState);
    UnitsOf(down);
    UnitsOf(up);
    downs := EncodeUtf16(down);
    var press := if env.escapeInput then env.reencode(vk, vtCode, vtState) else Records(true, vk, downs, state);
    p := Parts(Pressing(m), press, EncodeUtf16(up), Releasing(m));
    RecordsOfCharacter(true, vk, down, state);
    RecordsOfCharacter(false, vk, up, state);
    PressedReplay(m);
    ReleasedReplay(m);
    if GoesToWindow(env, vk, winState) {
      ToWindow(env, vk, down, up, winState, vtCode, vtState);
    } else {
      KeyPressParts(env, vk, down, up, winState, vtCode, vtState);
    }
  }

  // ---------- Typed characters ----------

  /** No binding is met by the input, and none might be if more followed. */
  ghost predicate Unclaimed(bindings: Bindings, input: Bytes, isEof: bool) {
    && (forall k :: 0 < k <= |input| ==> !Matches(bindings, input[..k]))
    && (isEof || forall e :: e in bindings ==> !(input < e))
  }

  lemma {:induction false} NothingFound(bindings: Bindings, input: Bytes, isEof: bool)
    requires Unclaimed(bindings, input, isEof)
    ensures Lookup(bindings, input).length == 0 && (isEof || !Lookup(bindings, input).incomplete)
  {
  }

  /** After an escape character anything but a bracket begins no report. */
  lemma {:induction false} NoReport(input: Bytes)
    requires |input| >= 2 && input[0] == ESC && input[1] != '[' as int
    ensures MatchPattern(DSR, input) == NoMatch && MatchMouse(input) == NoMouse
  {
    hide MatchFrom;
    SecondByte(DSR, input);
    SecondByte(MOUSE_1006, input);
    SecondByte(MOUSE_1015, input);
    SecondByte(MOUSE_DEFAULT, input);
  }

  lemma {:induction false} SecondByte(p: Pattern, input: Bytes)
    requires |input| >= 2 && input[0] == ESC && input[1] != '[' as int
    requires |p.items| >= 2 && p.items[0] == Literal(ESC) && p.items[1] == Literal('[' as int)
    ensures MatchPattern(p, input) == NoMatch
  {
    assert MatchFrom(p, 0, input, 0, []) == MatchFrom(p, 1, input, 1, [] + [ESC as int]);
  }

  /** A character as the terminal sends it, with Alt if `escaped`, and what follows. */
  function Sent(code: nat, escaped: bool, more: Bytes): (r: Bytes)
    requires IsScalar(code)
    ensures r != []
  {
    EncodedLength(code);
    (if escaped then [ESC] else []) + EncodeUtf8(code) + more
  }

  /** A whole character, behind an escape or not, is taken as one. */
  lemma {:induction false} CharacterIsTaken(
    env: Env, bindings: Bindings, mouse: MouseState, code: nat, escaped: bool, more: Bytes, isEof: bool)
    requires IsScalar(code) && code != 0x1b
    requires if escaped then code != '[' as int else code == 3 ==> !env.processedInput
    requires Unclaimed(bindings, Sent(code, escaped, more), isEof)
    ensures var bytes := EncodeUtf8(code);
      var n := |bytes| + if escaped then 1 else 0;
      && 1 <= |bytes| == Utf8CharLength(bytes[0])
      && ScanInput(env, bindings, mouse, Sent(code, escaped, more), isEof) ==
         Consumed(n, Character(env, bytes, escaped), mouse, false)
  {
    hide Lookup, Character, DecodeUtf8, MatchPattern, MatchMouse;
    var bytes := EncodeUtf8(code);
    var input := Sent(code, escaped, more);
    DecodeInvertsEncode(code);
    LeadByte(code);
    NothingFound(bindings, input, isEof);
    var skip := if escaped then 1 else 0;
    assert input[skip] == bytes[0];
    assert input[skip..skip + |bytes|] == bytes;
    if escaped {
      NoReport(input);
    }
  }

  lemma {:induction false} LeadByte(code: nat)
    requires IsScalar(code)
    ensures |EncodeUtf8(code)| >= 1
    ensures code < 0x80 ==> EncodeUtf8(code)[0] == code
    ensures code >= 0x80 ==> EncodeUtf8(code)[0] >= 0x80
  {
  }

  /**
    The events of typing a character, with Alt if an escape character came before it. The layout's answer names the key
    and its shift, control and right Alt; the characters going down and up are the character's own code units, but none
    goes up with Alt, and none down with Alt and Control.
   */
  ghost predicate TypedAs(env: Env, code: nat, escaped: bool, events: seq<Event>, p: Parts, downs: seq<Word>) {
    var scan := if code > 0xffff then -1 else env.vkKeyScan(code);
    var vk: Word := if scan == -1 then 0 else scan % 0x100;
    var shift, ctrl := scan != -1 && scan / 0x100 % 2 == 1, scan != -1 && scan / 0x200 % 2 == 1;
    var m := Modifiers(ctrl, escaped, scan != -1 && scan / 0x400 % 2 == 1, shift);
    if env.escapeInput && IsCursorKey(vk) && m == NONE_HELD then events == [KeyMessage(true, vk), KeyMessage(false, vk)]
    else
      && Taken(events, p, m, vk, StateOf(m))
      && IsUtf16(downs, if escaped && ctrl then 0 else code) && IsUtf16(p.ups, if escaped then 0 else code)
      && p.press ==
           if env.escapeInput then env.reencode(vk, code, if escaped then 2 else 0)
           else Records(true, vk, downs, StateOf(m))
  }

  lemma {:induction false} CharacterEvents(env: Env, code: nat, escaped: bool)
    returns (events: seq<Event>, p: Parts, downs: seq<Word>)
    requires IsScalar(code)
    ensures events == Character(env, EncodeUtf8(code), escaped) && TypedAs(env, code, escaped, events, p, downs)
  {
    hide EncodeUtf8, KeyPress, DecodeUtf8, Replay, Taken;
    DecodeInvertsEncode(code);
    events := Character(env, EncodeUtf8(code), escaped);
    var scan := if code > 0xffff then -1 else env.vkKeyScan(code);
    var vk: Word := if scan == -1 then 0 else scan % 0x100;
    var shift, ctrl := scan != -1 && scan / 0x100 % 2 == 1, scan != -1 && scan / 0x200 % 2 == 1;
    var m := Modifiers(ctrl, escaped, scan != -1 && scan / 0x400 % 2 == 1, shift);
    StateNames(m);
    var down := if escaped && ctrl then 0 else code;
    p, downs := KeyPressTaken(env, vk, down, if escaped then 0 else down, StateOf(m), code, if escaped then 2 else 0);
  }

  /** Typing a character no binding claims. */
  lemma {:induction false} CharacterIsTyped(
    env: Env, bindings: Bindings, mouse: MouseState, code: nat, escaped: bool, more: Bytes, isEof: bool)
    returns (events: seq<Event>, p: Parts, downs: seq<Word>)
    requires IsScalar(code) && code != 0x1b
    requires if escaped then code != '[' as int else code == 3 ==> !env.processedInput
    requires Unclaimed(bindings, Sent(code, escaped, more), isEof)
    ensures TypedAs(env, code, escaped, events, p, downs)
    ensures ScanInput(env, bindings, mouse, Sent(code, escaped, more), isEof) ==
      Consumed((if escaped then 1 else 0) + |EncodeUtf8(code)|, events, mouse, false)
  {
    hide ScanInput, EncodeUtf8, Character, TypedAs;
    CharacterIsTaken(env, bindings, mouse, code, escaped, more, isEof);
    events, p, downs := CharacterEvents(env, code, escaped);
  }

  /** An escape character before another one, or before a byte that begins no character, is typed for itself. */
  lemma {:induction false} EscapeIsTyped(
    env: Env, bindings: Bindings, mouse: MouseState, next: Byte, more: Bytes, isEof: bool)
    returns (events: seq<Event>, p: Parts, downs: seq<Word>)
    requires next == ESC || 0x80 <= next < 0xc0 || 0xf8 <= next
    requires Unclaimed(bindings, [ESC, next] + more, isEof)
    ensures TypedAs(env, 0x1b, false, events, p, downs)
    ensures ScanInput(env, bindings, mouse, [ESC, next] + more, isEof) == Consumed(1, events, mouse, false)
  {
    hide Lookup, Character, TypedAs, MatchPattern, MatchMouse;
    var input := [ESC, next] + more;
    NothingFound(bindings, input, isEof);
    NoReport(input);
    events, p, downs := CharacterEvents(env, 0x1b, false);
    assert EncodeUtf8(0x1b) == [0x1b];
    assert input[0..1] == [0x1b];
  }

  lemma {:induction false} StateNames(m: Modifiers)
    ensures StateOf(m) < 0x20 && ModifiersIn(StateOf(m)) == m && ExtendedIn(StateOf(m)) == 0
  {
  }

  /** A character that cannot be decoded, or a byte that begins none, is dropped. */
  lemma {:induction false} MalformedIsDropped(
    env: Env, bindings: Bindings, mouse: MouseState, input: Bytes, isEof: bool)
    requires input != [] && input[0] != ESC && input[0] != 3 && Unclaimed(bindings, input, isEof)
    requires var n := Utf8CharLength(input[0]); n <= |input| && (n > 0 ==> DecodeUtf8(input[..n]).None?)
    ensures ScanInput(env, bindings, mouse, input, isEof) ==
      Consumed(Max(1, Utf8CharLength(input[0])), [], mouse, false)
  {
    hide Lookup, DecodeUtf8, Utf8CharLength;
    NothingFound(bindings, input, isEof);
  }

  /** Control-C, in a console that processes it, is signalled instead of typed. */
  lemma {:induction false} ControlCIsSignalled(
    env: Env, bindings: Bindings, mouse: MouseState, more: Bytes, isEof: bool)
    requires env.processedInput
    ensures ScanInput(env, bindings, mouse, [3] + more, isEof) == Consumed(1, [CtrlCEvent], mouse, false)
  {
  }

  /**
    Typing what a binding claims: the longest encoding bound to a key is taken, and the key is typed with the modifiers
    of the binding; its character goes down unless Control and left Alt are both held, and up unless left Alt is.
   */
  lemma {:induction false} BoundKeyIsTyped(
    env: Env, bindings: Bindings, mouse: MouseState, input: Bytes, n: nat, isEof: bool)
    returns (events: seq<Event>, p: Parts, downs: seq<Word>)
    requires 0 < n <= |input| && Matches(bindings, input[..n])
    requires forall k :: n < k <= |input| ==> !Matches(bindings, input[..k])
    requires isEof || forall e :: e in bindings ==> !(input < e)
    requires input[0] == 3 ==> !env.processedInput
    requires input[0] == ESC ==> |input| >= 2 && MatchPattern(DSR, input) == NoMatch && MatchMouse(input) == NoMouse
    ensures ScanInput(env, bindings, mouse, input, isEof) == Consumed(n, events, mouse, false)
    ensures var key := bindings[input[..n]];
      var vk, m := key.virtualKey, ModifiersIn(key.keyState);
      var state := StateOf(m) + ExtendedIn(key.keyState);
      if env.escapeInput && IsCursorKey(vk) && m == NONE_HELD then
        events == [KeyMessage(true, vk), KeyMessage(false, vk)]
      else
        && Taken(events, p, m, vk, state)
        && IsUtf16(downs, if m.ctrl && m.leftAlt then 0 else key.unicodeChar)
        && IsUtf16(p.ups, if m.leftAlt then 0 else key.unicodeChar)
        && p.press ==
             if env.escapeInput then env.reencode(vk, key.unicodeChar, key.keyState)
             else Records(true, vk, downs, state)
  {
    hide KeyPress, Replay, Taken, MatchPattern, MatchMouse;
    var key := bindings[input[..n]];
    LongestIsLongest(bindings, input, |input|);
    assert Lookup(bindings, input).length == n && !(Lookup(bindings, input).incomplete && !isEof);
    events := MappedKey(env, key);
    var m := ModifiersIn(key.keyState);
    var down := if m.ctrl && m.leftAlt then 0 else key.unicodeChar;
    p, downs := KeyPressTaken(env, key.virtualKey, down, if m.leftAlt then 0 else down, key.keyState, key.unicodeChar,
                              key.keyState);
  }
}
