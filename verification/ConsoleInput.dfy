/**
  The input scanner as functions: from the bytes waiting in the queue to key and mouse events. Each byte is consumed
  once, and how the bytes were cut into chunks on their way does not show in the events.
 */
module ConsoleInput {
  import opened Basics
  import opened Utf8
  import opened KeyBindings
  import opened InputPatterns

  const CTRL_C: Byte := 0x03

  // ---------- Events ----------

  const RIGHT_ALT_PRESSED := 0x1
  const LEFT_ALT_PRESSED := 0x2
  const LEFT_CTRL_PRESSED := 0x8
  const SHIFT_PRESSED := 0x10
  const ENHANCED_KEY := 0x100

  const VK_SHIFT: Word := 0x10
  const VK_CONTROL: Word := 0x11
  const VK_MENU: Word := 0x12

  datatype Wheel = NoWheel | WheelUp | WheelDown

  datatype Buttons = Buttons(left: bool, middle: bool, right: bool)

  datatype MouseEvent = MouseEvent(
    x: int, y: int, shift: bool, alt: bool, ctrl: bool, moved: bool, doubleClick: bool, wheel: Wheel, buttons: Buttons)

  /**
    Key and mouse records in the order they reach the console's input buffer, console control events, and key messages
    sent to the console's window.
   */
  datatype Event =
    | KeyRecord(down: bool, virtualKey: Word, ch: Word, keyState: nat)
    | MouseRecordEvent(mouse: MouseEvent)
    | CtrlCEvent
    | KeyMessage(down: bool, virtualKey: Word)

  datatype Window = Window(left: int, top: int, width: int, height: int)

  /**
    What the scanner is told by the system: the console's input modes, the window the mouse is in, the time and the
    double-click time, the keyboard layout, and how an escaped key is encoded for a program that reads escapes.
   */
  datatype Env = Env(
    processedInput: bool, escapeInput: bool, mouseInput: bool, window: Window, now: nat, doubleClickTime: nat,
    vkKeyScan: nat -> int, reencode: (Word, nat, Word) -> seq<Event>)

  datatype Button = LeftButton | MiddleButton | RightButton

  datatype DoubleClick = DoubleClick(button: Option<Button>, x: int, y: int, tick: nat, released: bool)

  const NO_CLICK := DoubleClick(None, 0, 0, 0, false)

  datatype MouseState = MouseState(buttons: Buttons, doubleClick: DoubleClick)

  // ---------- Keys ----------

  function Modifier(down: bool, vk: Word, state: nat): seq<Event> {
    [KeyRecord(down, vk, 0, state)]
  }

  function CodePointRecords(down: bool, vk: Word, code: nat, state: nat): seq<Event> {
    var units := EncodeUtf16(code);
    seq(|units|, i requires 0 <= i < |units| => KeyRecord(down, vk, units[i], state))
  }

  predicate IsNavigation(vk: Word) {
    vk == 0x26 || vk == 0x28 || vk == 0x25 || vk == 0x27 || vk == 0x24 || vk == 0x23
  }

  /** Press one modifier, do `inner`, release it; the state carried by each record is the one after the change. */
  function Held(on: bool, vk: Word, flag: nat, extra: nat, before: nat, inner: seq<Event>): seq<Event> {
    if on then Modifier(true, vk, before + flag + extra) + inner + Modifier(false, vk, before + extra) else inner
  }

  /** The key itself, going down and up. A program that reads escapes gets the press encoded. */
  function OwnRecords(env: Env, vk: Word, down: nat, up: nat, state: nat, vtCode: nat, vtState: Word): seq<Event> {
    (if env.escapeInput then env.reencode(vk, vtCode, vtState) else CodePointRecords(true, vk, down, state))
    + CodePointRecords(false, vk, up, state)
  }

  function KeyState(winState: Word): nat {
    (if HasFlag(winState, LEFT_CTRL_PRESSED) then LEFT_CTRL_PRESSED else 0)
    + (if HasFlag(winState, LEFT_ALT_PRESSED) then LEFT_ALT_PRESSED else 0)
    + (if HasFlag(winState, RIGHT_ALT_PRESSED) then RIGHT_ALT_PRESSED else 0)
    + (if HasFlag(winState, SHIFT_PRESSED) then SHIFT_PRESSED else 0)
    + (if HasFlag(winState, ENHANCED_KEY) then ENHANCED_KEY else 0)
  }

  /** A bare cursor key is sent to the window instead, if the program reads escapes. */
  predicate GoesToWindow(env: Env, vk: Word, winState: Word) {
    env.escapeInput && IsNavigation(vk)
    && !HasFlag(winState, LEFT_CTRL_PRESSED) && !HasFlag(winState, LEFT_ALT_PRESSED)
    && !HasFlag(winState, RIGHT_ALT_PRESSED) && !HasFlag(winState, SHIFT_PRESSED)
  }

  function KeyPress(env: Env, vk: Word, down: nat, up: nat, winState: Word, vtCode: nat, vtState: Word): seq<Event> {
    var ctrl, leftAlt := HasFlag(winState, LEFT_CTRL_PRESSED), HasFlag(winState, LEFT_ALT_PRESSED);
    var rightAlt, shift := HasFlag(winState, RIGHT_ALT_PRESSED), HasFlag(winState, SHIFT_PRESSED);
    if GoesToWindow(env, vk, winState) then [KeyMessage(true, vk), KeyMessage(false, vk)]
    else
      var s1 := if ctrl then LEFT_CTRL_PRESSED else 0;
      var s2 := s1 + if leftAlt then LEFT_ALT_PRESSED else 0;
      var s3 := s2 + if rightAlt then RIGHT_ALT_PRESSED else 0;
      Held(ctrl, VK_CONTROL, LEFT_CTRL_PRESSED, 0, 0,
        Held(leftAlt, VK_MENU, LEFT_ALT_PRESSED, 0, s1,
          Held(rightAlt, VK_MENU, RIGHT_ALT_PRESSED, ENHANCED_KEY, s2,
            Held(shift, VK_SHIFT, SHIFT_PRESSED, 0, s3,
              OwnRecords(env, vk, down, up, KeyState(winState), vtCode, vtState)))))
  }

  function MappedKey(env: Env, key: Key): seq<Event> {
    var alt := HasFlag(key.keyState, LEFT_ALT_PRESSED);
    var down := if alt && HasFlag(key.keyState, LEFT_CTRL_PRESSED) then 0 else key.unicodeChar;
    KeyPress(env, key.virtualKey, down, if alt then 0 else down, key.keyState, key.unicodeChar, key.keyState)
  }

  /** A character of its own, or one the terminal has prefixed with ESC for Alt. */
  function Character(env: Env, bytes: Bytes, escaped: bool): seq<Event>
    requires |bytes| >= 1 && |bytes| >= Utf8CharLength(bytes[0])
  {
    var decoded := DecodeUtf8(bytes);
    if decoded.None? then []
    else
      var code := decoded.value;
      var scan := if code > 0xffff then -1 else env.vkKeyScan(code);
      var vk := if scan == -1 then 0 else scan % 0x100;
      var shift := scan != -1 && HasFlag(scan, 0x100);
      var ctrl := scan != -1 && HasFlag(scan, 0x200);
      var rightAlt := scan != -1 && HasFlag(scan, 0x400);
      var state := (if shift then SHIFT_PRESSED else 0) + (if ctrl then LEFT_CTRL_PRESSED else 0)
                   + (if rightAlt then RIGHT_ALT_PRESSED else 0) + (if escaped then LEFT_ALT_PRESSED else 0);
      var down := if escaped && ctrl then 0 else code;
      KeyPress(env, vk, down, if escaped then 0 else down, state, code, if escaped then LEFT_ALT_PRESSED else 0)
  }

  // ---------- Key presses written out ----------

  function GoesDown(on: bool, vk: Word, state: nat): seq<Event> {
    if on then [KeyRecord(true, vk, 0, state)] else []
  }

  function GoesUp(on: bool, vk: Word, state: nat): seq<Event> {
    if on then [KeyRecord(false, vk, 0, state)] else []
  }

  function Flag(on: bool, flag: nat): nat {
    if on then flag else 0
  }

  lemma {:induction false} HeldIsAround(on: bool, vk: Word, flag: nat, extra: nat, before: nat, inner: seq<Event>)
    ensures Held(on, vk, flag, extra, before, inner) ==
      GoesDown(on, vk, before + Flag(on, flag) + extra) + inner + GoesUp(on, vk, before + extra)
  {
  }

  lemma {:induction false} Regroup(
    d1: seq<Event>, d2: seq<Event>, d3: seq<Event>, d4: seq<Event>, inner: seq<Event>, u4: seq<Event>, u3: seq<Event>,
    u2: seq<Event>, u1: seq<Event>)
    ensures d1 + (d2 + (d3 + (d4 + inner + u4) + u3) + u2) + u1 == (d1 + d2 + d3 + d4) + inner + (u4 + u3 + u2 + u1)
  {
  }

  /** The modifiers go down one after the other and up in reverse. */
  lemma {:induction false} Nested(ctrl: bool, leftAlt: bool, rightAlt: bool, shift: bool, inner: seq<Event>)
    ensures var s1 := Flag(ctrl, LEFT_CTRL_PRESSED);
      var s2 := s1 + Flag(leftAlt, LEFT_ALT_PRESSED);
      var s3 := s2 + Flag(rightAlt, RIGHT_ALT_PRESSED);
      var s4 := s3 + Flag(shift, SHIFT_PRESSED);
      Held(ctrl, VK_CONTROL, LEFT_CTRL_PRESSED, 0, 0,
        Held(leftAlt, VK_MENU, LEFT_ALT_PRESSED, 0, s1,
          Held(rightAlt, VK_MENU, RIGHT_ALT_PRESSED, ENHANCED_KEY, s2,
            Held(shift, VK_SHIFT, SHIFT_PRESSED, 0, s3, inner)))) ==
      (GoesDown(ctrl, VK_CONTROL, s1) + GoesDown(leftAlt, VK_MENU, s2) + GoesDown(rightAlt, VK_MENU, s3 + ENHANCED_KEY)
       + GoesDown(shift, VK_SHIFT, s4))
      + inner
      + (GoesUp(shift, VK_SHIFT, s3) + GoesUp(rightAlt, VK_MENU, s2 + ENHANCED_KEY) + GoesUp(leftAlt, VK_MENU, s1)
         + GoesUp(ctrl, VK_CONTROL, 0))
  {
    hide Held, GoesDown, GoesUp;
    var s1 := Flag(ctrl, LEFT_CTRL_PRESSED);
    var s2 := s1 + Flag(leftAlt, LEFT_ALT_PRESSED);
    var s3 := s2 + Flag(rightAlt, RIGHT_ALT_PRESSED);
    var s4 := s3 + Flag(shift, SHIFT_PRESSED);
    var e1 := Held(shift, VK_SHIFT, SHIFT_PRESSED, 0, s3, inner);
    HeldIsAround(shift, VK_SHIFT, SHIFT_PRESSED, 0, s3, inner);
    var e2 := Held(rightAlt, VK_MENU, RIGHT_ALT_PRESSED, ENHANCED_KEY, s2, e1);
    HeldIsAround(rightAlt, VK_MENU, RIGHT_ALT_PRESSED, ENHANCED_KEY, s2, e1);
    var e3 := Held(leftAlt, VK_MENU, LEFT_ALT_PRESSED, 0, s1, e2);
    HeldIsAround(leftAlt, VK_MENU, LEFT_ALT_PRESSED, 0, s1, e2);
    HeldIsAround(ctrl, VK_CONTROL, LEFT_CTRL_PRESSED, 0, 0, e3);
    Regroup(GoesDown(ctrl, VK_CONTROL, s1), GoesDown(leftAlt, VK_MENU, s2),
            GoesDown(rightAlt, VK_MENU, s3 + ENHANCED_KEY),
            GoesDown(shift, VK_SHIFT, s4), inner, GoesUp(shift, VK_SHIFT, s3),
            GoesUp(rightAlt, VK_MENU, s2 + ENHANCED_KEY), GoesUp(leftAlt, VK_MENU, s1), GoesUp(ctrl, VK_CONTROL, 0));
  }

  // ---------- What is pressed is released ----------

  /** How often `vk` has gone down more than up. */
  function Net(events: seq<Event>, vk: Word): int {
    if events == [] then 0
    else
      (if events[0].KeyRecord? && events[0].virtualKey == vk then if events[0].down then 1 else -1 else 0)
      + Net(events[1..], vk)
  }

  lemma {:induction false} NetOfBoth(a: seq<Event>, b: seq<Event>, vk: Word)
    ensures Net(a + b, vk) == Net(a, vk) + Net(b, vk)
  {
    if a == [] {
      assert a + b == b;
    } else {
      assert (a + b)[1..] == a[1..] + b;
      NetOfBoth(a[1..], b, vk);
    }
  }

  lemma {:induction false} NetOfHeld(on: bool, vk: Word, flag: nat, extra: nat, before: nat, inner: seq<Event>, m: Word)
    ensures Net(Held(on, vk, flag, extra, before, inner), m) == Net(inner, m)
  {
    if on {
      var press, release := Modifier(true, vk, before + flag + extra), Modifier(false, vk, before + extra);
      NetOfBoth(press + inner, release, m);
      NetOfBoth(press, inner, m);
      assert press[1..] == [] && release[1..] == [];
    }
  }

  /**
    The modifiers pressed around a key are all released again: whatever the key, and whatever a program that reads
    escapes gets for it, every key goes up as often as it goes down but for the key's own records.
   */
  lemma {:induction false} ModifiersAreReleased(
    env: Env, vk: Word, down: nat, up: nat, winState: Word, vtCode: nat, vtState: Word, m: Word)
    ensures Net(KeyPress(env, vk, down, up, winState, vtCode, vtState), m) ==
      if GoesToWindow(env, vk, winState) then 0
      else Net(OwnRecords(env, vk, down, up, KeyState(winState), vtCode, vtState), m)
  {
    hide Held, OwnRecords, KeyState, HasFlag, IsNavigation;
    if GoesToWindow(env, vk, winState) {
      NetOfMessages([KeyMessage(true, vk), KeyMessage(false, vk)], m);
    } else {
      var ctrl, leftAlt := HasFlag(winState, LEFT_CTRL_PRESSED), HasFlag(winState, LEFT_ALT_PRESSED);
      var rightAlt, shift := HasFlag(winState, RIGHT_ALT_PRESSED), HasFlag(winState, SHIFT_PRESSED);
      var s1 := if ctrl then LEFT_CTRL_PRESSED else 0;
      var s2 := s1 + if leftAlt then LEFT_ALT_PRESSED else 0;
      var s3 := s2 + if rightAlt then RIGHT_ALT_PRESSED else 0;
      var own := OwnRecords(env, vk, down, up, KeyState(winState), vtCode, vtState);
      var e1 := Held(shift, VK_SHIFT, SHIFT_PRESSED, 0, s3, own);
      NetOfHeld(shift, VK_SHIFT, SHIFT_PRESSED, 0, s3, own, m);
      var e2 := Held(rightAlt, VK_MENU, RIGHT_ALT_PRESSED, ENHANCED_KEY, s2, e1);
      NetOfHeld(rightAlt, VK_MENU, RIGHT_ALT_PRESSED, ENHANCED_KEY, s2, e1, m);
      var e3 := Held(leftAlt, VK_MENU, LEFT_ALT_PRESSED, 0, s1, e2);
      NetOfHeld(leftAlt, VK_MENU, LEFT_ALT_PRESSED, 0, s1, e2, m);
      NetOfHeld(ctrl, VK_CONTROL, LEFT_CTRL_PRESSED, 0, 0, e3, m);
    }
  }

  /** Of another key its own records add nothing, save what a program that reads escapes gets for the press. */
  lemma {:induction false} OwnRecordsNet(
    env: Env, vk: Word, down: nat, up: nat, state: nat, vtCode: nat, vtState: Word, m: Word)
    ensures var net := Net(OwnRecords(env, vk, down, up, state, vtCode, vtState), m);
      if env.escapeInput then net == Net(env.reencode(vk, vtCode, vtState), m) - CodeUnits(up, vk, m)
      else net == CodeUnits(down, vk, m) - CodeUnits(up, vk, m)
  {
    hide CodePointRecords;
    var press :=
      if env.escapeInput then env.reencode(vk, vtCode, vtState) else CodePointRecords(true, vk, down, state);
    NetOfBoth(press, CodePointRecords(false, vk, up, state), m);
    NetOfCharacter(true, vk, down, state, m);
    NetOfCharacter(false, vk, up, state, m);
  }

  lemma {:induction false} NetOfMessages(events: seq<Event>, m: Word)
    requires forall i :: 0 <= i < |events| ==> events[i].KeyMessage?
    ensures Net(events, m) == 0
  {
    if events != [] {
      NetOfMessages(events[1..], m);
    }
  }

  /** How many records of key `m` a character of key `vk` makes. */
  function CodeUnits(code: nat, vk: Word, m: Word): nat {
    if m == vk then |EncodeUtf16(code)| else 0
  }

  lemma {:induction false} NetOfCharacter(down: bool, vk: Word, code: nat, state: nat, m: Word)
    ensures Net(CodePointRecords(down, vk, code, state), m) == CodeUnits(code, vk, m) * if down then 1 else -1
  {
    NetOfOneKind(CodePointRecords(down, vk, code, state), down, vk, m);
  }

  lemma {:induction false} NetOfOneKind(events: seq<Event>, down: bool, vk: Word, m: Word)
    requires forall i :: 0 <= i < |events| ==>
      events[i].KeyRecord? && events[i].virtualKey == vk && events[i].down == down
    ensures Net(events, m) == if m != vk then 0 else if down then |events| else -|events|
  {
    if events != [] {
      NetOfOneKind(events[1..], down, vk, m);
    }
  }

  // ---------- Mouse ----------

  function Place(origin: int, size: int, at: int): int {
    origin + Max(0, Min(at, size - 1))
  }

  /** A place in the window is itself, any other is the nearest there is. */
  lemma {:induction false} PlaceIsInside(origin: int, size: int, at: int)
    requires size >= 1
    ensures origin <= Place(origin, size, at) < origin + size
    ensures 0 <= at < size ==> Place(origin, size, at) == origin + at
    ensures at < 0 ==> Place(origin, size, at) == origin
    ensures at >= size ==> Place(origin, size, at) == origin + size - 1
  {
  }

  function ButtonOf(flags: int): Button {
    if flags % 4 == 0 then LeftButton else if flags % 4 == 1 then MiddleButton else RightButton
  }

  predicate IsDown(b: Buttons, button: Button) {
    match button
    case LeftButton => b.left
    case MiddleButton => b.middle
    case RightButton => b.right
  }

  function SetButton(b: Buttons, button: Button, down: bool): Buttons {
    match button
    case LeftButton => b.(left := down)
    case MiddleButton => b.(middle := down)
    case RightButton => b.(right := down)
  }

  /** An ordinary mouse event: the state after it, and whether it completes a double click. */
  function Clicked(env: Env, s: MouseState, m: MouseRecord): (MouseState, bool) {
    if m.flags % 4 == 3 then
      (MouseState(Buttons(false, false, false), s.doubleClick.(released := true)), false)
    else
      var button := ButtonOf(m.flags);
      if m.release then
        (MouseState(SetButton(s.buttons, button, false),
                    if s.doubleClick.button == Some(button) then s.doubleClick.(released := true) else NO_CLICK), false)
      else if !IsDown(s.buttons, button) then
        var buttons := SetButton(s.buttons, button, true);
        var c := s.doubleClick;
        if c.button == Some(button) && c.x == m.x && c.y == m.y && env.now - c.tick < env.doubleClickTime then
          (MouseState(buttons, NO_CLICK), true)
        else (MouseState(buttons, c.(button := Some(button), x := m.x, y := m.y, tick := env.now)), false)
      else (s, false)
  }

  /** The state and the events after a mouse record. */
  function MouseStep(env: Env, s: MouseState, m: MouseRecord): (MouseState, seq<Event>) {
    var wheel := if !HasFlag(m.flags, 0x40) then NoWheel else if m.flags % 4 == 0 then WheelUp else WheelDown;
    if HasFlag(m.flags, 0x40) && m.flags % 4 > 1 then (s, [])
    else
      var (next, double) := if wheel == NoWheel then Clicked(env, s, m) else (s, false);
      var event := MouseEvent(
        Place(env.window.left, env.window.width, m.x), Place(env.window.top, env.window.height, m.y),
        HasFlag(m.flags, 4), HasFlag(m.flags, 8), HasFlag(m.flags, 0x10),
        wheel == NoWheel && HasFlag(m.flags, 0x20), double, wheel, next.buttons);
      (next, if env.mouseInput then [MouseRecordEvent(event)] else [])
  }

  // ---------- One scan ----------

  datatype Scanned = NeedMore | Died | Consumed(length: nat, events: seq<Event>, mouse: MouseState, dsr: bool)

  function ScanCharacter(env: Env, mouse: MouseState, input: Bytes, skip: nat): (r: Scanned)
    requires skip <= 1 && skip < |input|
    ensures r.Consumed? ==> skip < r.length <= |input|
  {
    var n := Utf8CharLength(input[skip]);
    if n == 0 then Consumed(skip + 1, [], mouse, false)
    else if skip + n > |input| then NeedMore
    else Consumed(skip + n, Character(env, input[skip..skip + n], skip == 1), mouse, false)
  }

  predicate IsAltCharacter(input: Bytes) {
    |input| >= 2 && input[0] == ESC && input[1] != ESC && Utf8CharLength(input[1]) > 0
  }

  function ScanKey(env: Env, bindings: Bindings, mouse: MouseState, input: Bytes, isEof: bool): (r: Scanned)
    requires input != []
    ensures r.Consumed? ==> 1 <= r.length <= |input|
  {
    var found := Lookup(bindings, input);
    if !isEof && found.incomplete then NeedMore
    else if found.length > 0 then Consumed(found.length, MappedKey(env, found.key), mouse, false)
    else ScanCharacter(env, mouse, input, if IsAltCharacter(input) then 1 else 0)
  }

  /** The first thing in the input. What is consumed is never nothing and never more than there is. */
  function ScanInput(env: Env, bindings: Bindings, mouse: MouseState, input: Bytes, isEof: bool): (r: Scanned)
    requires input != []
    ensures r.Consumed? ==> 1 <= r.length <= |input|
  {
    if input[0] == CTRL_C && env.processedInput then Consumed(1, [CtrlCEvent], mouse, false)
    else if input[0] != ESC then ScanKey(env, bindings, mouse, input, isEof)
    else
      var dsr := MatchPattern(DSR, input);
      if dsr.Matched? then Consumed(dsr.length, [], mouse, true)
      else if !isEof && dsr.Incomplete? then NeedMore
      else
        var m := MatchMouse(input);
        if m.AbortMouse? then Died
        else if m.Mouse? then
          var (next, events) := MouseStep(env, mouse, m.record);
          Consumed(m.length, events, next, false)
        else if !isEof && m.MoreMouse? then NeedMore
        else ScanKey(env, bindings, mouse, input, isEof)
  }

  lemma {:induction false} CharacterIsStable(env: Env, mouse: MouseState, input: Bytes, more: Bytes, skip: nat)
    requires skip <= 1 && skip < |input|
    ensures ScanCharacter(env, mouse, input, skip) != NeedMore ==>
      ScanCharacter(env, mouse, input + more, skip) == ScanCharacter(env, mouse, input, skip)
  {
    var n := Utf8CharLength(input[skip]);
    if skip + n <= |input| {
      assert (input + more)[skip..skip + n] == input[skip..skip + n];
    }
  }

  lemma {:induction false} KeyIsStable(env: Env, bindings: Bindings, mouse: MouseState, input: Bytes, more: Bytes)
    requires input != [] && (input[0] == ESC ==> |input| >= 2)
    ensures ScanKey(env, bindings, mouse, input, false) != NeedMore ==>
      ScanKey(env, bindings, mouse, input + more, false) == ScanKey(env, bindings, mouse, input, false)
  {
    hide ScanCharacter, LongestMatch, KeyBindings.Incomplete;
    if !KeyBindings.Incomplete(bindings, input) {
      LookupIsStable(bindings, input, more);
    }
    CharacterIsStable(env, mouse, input, more, if IsAltCharacter(input) then 1 else 0);
  }

  lemma {:induction false} LoneEscapeWaits()
    ensures MatchPattern(DSR, [ESC]) == Incomplete
  {
  }

  /** Anything but a wait for more stays the same when more input follows. */
  lemma {:induction false} ScanIsStable(env: Env, bindings: Bindings, mouse: MouseState, input: Bytes, more: Bytes)
    requires input != []
    ensures ScanInput(env, bindings, mouse, input, false) != NeedMore ==>
      ScanInput(env, bindings, mouse, input + more, false) == ScanInput(env, bindings, mouse, input, false)
  {
    hide ScanKey, MatchFrom, MatchMouse, MouseStep;
    MatchIsStable(DSR, 0, input, more, 0, []);
    MouseIsStable(input, more);
    if input == [ESC] {
      LoneEscapeWaits();
    } else {
      KeyIsStable(env, bindings, mouse, input, more);
    }
  }

  // ---------- The whole queue ----------

  datatype Drained = Drained(events: seq<Event>, mouse: MouseState, rest: Bytes, dsrs: nat, alive: bool)

  function Drain(env: Env, bindings: Bindings, mouse: MouseState, queue: Bytes, isEof: bool): (r: Drained)
    ensures |r.rest| <= |queue|
    decreases |queue|
  {
    if queue == [] then Drained([], mouse, [], 0, true)
    else
      var scanned := ScanInput(env, bindings, mouse, queue, isEof);
      match scanned
      case NeedMore => Drained([], mouse, queue, 0, true)
      case Died => Drained([], mouse, queue, 0, false)
      case Consumed(n, events, next, dsr) =>
        var r := Drain(env, bindings, next, queue[n..], isEof);
        r.(events := events + r.events, dsrs := r.dsrs + if dsr then 1 else 0)
  }

  /** `second` after `first`. */
  function Both(first: Drained, second: Drained): Drained {
    Drained(first.events + second.events, second.mouse, second.rest, first.dsrs + second.dsrs, second.alive)
  }

  /** The events of one scan before those of the rest. */
  function Before(scanned: Scanned, rest: Drained): Drained
    requires scanned.Consumed?
  {
    Prepended(scanned.events, if scanned.dsr then 1 else 0, rest)
  }

  function Prepended(events: seq<Event>, dsrs: nat, rest: Drained): Drained {
    rest.(events := events + rest.events, dsrs := dsrs + rest.dsrs)
  }

  lemma {:induction false} PrependedFacts(events: seq<Event>, dsrs: nat, rest: Drained)
    ensures var r := Prepended(events, dsrs, rest);
      && r.events == events + rest.events && r.dsrs == dsrs + rest.dsrs
      && r.mouse == rest.mouse && r.rest == rest.rest && r.alive == rest.alive
    ensures Prepended([], 0, rest) == rest
  {
  }

  lemma {:induction false} PrependedTwice(events: seq<Event>, dsrs: nat, scanned: Scanned, rest: Drained)
    requires scanned.Consumed?
    ensures Prepended(events, dsrs, Before(scanned, rest)) ==
      Prepended(events + scanned.events, dsrs + if scanned.dsr then 1 else 0, rest)
  {
    assert events + (scanned.events + rest.events) == (events + scanned.events) + rest.events;
  }

  lemma {:induction false} DrainStep(env: Env, bindings: Bindings, mouse: MouseState, queue: Bytes, isEof: bool)
    requires queue != []
    ensures var scanned := ScanInput(env, bindings, mouse, queue, isEof);
      Drain(env, bindings, mouse, queue, isEof) ==
      if scanned.NeedMore? then Drained([], mouse, queue, 0, true)
      else if scanned.Died? then Drained([], mouse, queue, 0, false)
      else Before(scanned, Drain(env, bindings, scanned.mouse, queue[scanned.length..], isEof))
  {
  }

  lemma {:induction false} BeforeBoth(scanned: Scanned, first: Drained, second: Drained)
    requires scanned.Consumed?
    ensures Before(scanned, Both(first, second)) == Both(Before(scanned, first), second)
  {
    assert scanned.events + (first.events + second.events) == (scanned.events + first.events) + second.events;
  }

  /** Scanning `a` and then `b` comes to the same as scanning both. */
  ghost predicate InTwo(env: Env, bindings: Bindings, mouse: MouseState, a: Bytes, b: Bytes) {
    var first := Drain(env, bindings, mouse, a, false);
    Drain(env, bindings, mouse, a + b, false) ==
    if first.alive then Both(first, Drain(env, bindings, first.mouse, first.rest + b, false))
    else first.(rest := first.rest + b)
  }

  lemma {:induction false} StepInTwo(env: Env, bindings: Bindings, mouse: MouseState, a: Bytes, b: Bytes)
    requires a != [] && ScanInput(env, bindings, mouse, a, false).Consumed?
    requires var scanned := ScanInput(env, bindings, mouse, a, false);
      InTwo(env, bindings, scanned.mouse, a[scanned.length..], b)
    ensures InTwo(env, bindings, mouse, a, b)
  {
    hide ScanInput, Drain, Both, Before;
    var scanned := ScanInput(env, bindings, mouse, a, false);
    var n, next := scanned.length, scanned.mouse;
    DrainStep(env, bindings, mouse, a, false);
    DrainStep(env, bindings, mouse, a + b, false);
    ScanIsStable(env, bindings, mouse, a, b);
    assert (a + b)[n..] == a[n..] + b;
    var first := Drain(env, bindings, next, a[n..], false);
    BeforeKeeps(scanned, first, b);
    BeforeBoth(scanned, first, Drain(env, bindings, first.mouse, first.rest + b, false));
  }

  lemma {:induction false} BeforeKeeps(scanned: Scanned, first: Drained, b: Bytes)
    requires scanned.Consumed?
    ensures var r := Before(scanned, first);
      && r.alive == first.alive && r.mouse == first.mouse && r.rest == first.rest
      && Before(scanned, first.(rest := first.rest + b)) == r.(rest := first.rest + b)
  {
  }

  /** Input that comes in two parts is scanned as it would be in one. */
  lemma {:induction false} DrainInTwo(env: Env, bindings: Bindings, mouse: MouseState, a: Bytes, b: Bytes)
    ensures InTwo(env, bindings, mouse, a, b)
    decreases |a|
  {
    hide ScanInput, Drain, Both, InTwo;
    if a == [] || !ScanInput(env, bindings, mouse, a, false).Consumed? {
      NothingInTwo(env, bindings, mouse, a, b);
    } else {
      var scanned := ScanInput(env, bindings, mouse, a, false);
      DrainInTwo(env, bindings, scanned.mouse, a[scanned.length..], b);
      StepInTwo(env, bindings, mouse, a, b);
    }
  }

  lemma {:induction false} NothingInTwo(env: Env, bindings: Bindings, mouse: MouseState, a: Bytes, b: Bytes)
    requires a == [] || !ScanInput(env, bindings, mouse, a, false).Consumed?
    ensures InTwo(env, bindings, mouse, a, b)
  {
    WaitThenAll(env, bindings, mouse, a, b);
    if a == [] {
      assert a + b == b;
    } else {
      hide ScanInput;
      ScanIsStable(env, bindings, mouse, a, b);
    }
  }

  lemma {:induction false} WaitThenAll(env: Env, bindings: Bindings, mouse: MouseState, a: Bytes, b: Bytes)
    ensures var all := Drain(env, bindings, mouse, a + b, false); Both(Drained([], mouse, a, 0, true), all) == all
  {
    hide Drain;
    var r := Drain(env, bindings, mouse, a + b, false);
    assert [] + r.events == r.events;
  }

  /** One write after another; each adds to what the one before could not use. Nothing follows an abort. */
  function DrainChunks(env: Env, bindings: Bindings, mouse: MouseState, rest: Bytes, chunks: seq<Bytes>): Drained
    decreases |chunks|
  {
    if chunks == [] then Drained([], mouse, rest, 0, true)
    else
      var first := Drain(env, bindings, mouse, rest + chunks[0], false);
      if first.alive then Both(first, DrainChunks(env, bindings, first.mouse, first.rest, chunks[1..])) else first
  }

  /** What is left waits for more however often it is looked at. */
  lemma {:induction false} RestWaits(env: Env, bindings: Bindings, mouse: MouseState, queue: Bytes)
    requires Drain(env, bindings, mouse, queue, false).alive
    ensures var r := Drain(env, bindings, mouse, queue, false);
      Drain(env, bindings, r.mouse, r.rest, false) == Drained([], r.mouse, r.rest, 0, true)
    decreases |queue|
  {
    hide ScanInput;
    if queue != [] {
      var scanned := ScanInput(env, bindings, mouse, queue, false);
      if scanned.Consumed? {
        RestWaits(env, bindings, scanned.mouse, queue[scanned.length..]);
      }
    }
  }

  /**
    Chunk independence. However a stream of bytes is cut into writes, the events come out the same and in the same
    order, with the same bytes left over and the same mouse state, or the scanner aborts at the same place.
   */
  lemma {:induction false} ChunksDoNotShow(
    env: Env, bindings: Bindings, mouse: MouseState, rest: Bytes, chunks: seq<Bytes>)
    requires Drain(env, bindings, mouse, rest, false) == Drained([], mouse, rest, 0, true)
    ensures var cut := DrainChunks(env, bindings, mouse, rest, chunks);
      var whole := Drain(env, bindings, mouse, rest + Concat(chunks), false);
      && cut.alive == whole.alive && cut.events == whole.events && cut.mouse == whole.mouse && cut.dsrs == whole.dsrs
      && (cut.alive ==> cut.rest == whole.rest)
    decreases |chunks|
  {
    hide ScanInput, Drain;
    if chunks == [] {
      assert rest + Concat(chunks) == rest;
    } else {
      var all := rest + chunks[0];
      var first := Drain(env, bindings, mouse, all, false);
      assert rest + Concat(chunks) == all + Concat(chunks[1..]);
      DrainInTwo(env, bindings, mouse, all, Concat(chunks[1..]));
      if first.alive {
        RestWaits(env, bindings, mouse, all);
        ChunksDoNotShow(env, bindings, first.mouse, first.rest, chunks[1..]);
      }
    }
  }
}
