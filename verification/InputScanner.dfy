/** The input scanner as the object it is, proved against the functions of ConsoleInput. */
module InputScanner {
  import opened Basics
  import opened Utf8
  import opened InputMaps
  import opened KeyBindings
  import opened InputPatterns
  import opened ConsoleInput

  const INCOMPLETE_ESCAPE_TIMEOUT_MS := 1000

  // ---------- Matching ----------

  method ScanNumber(input: Bytes, pos: nat) returns (r: Scan)
    requires pos < |input|
    ensures r == ScanInt(input, pos)
  {
    if !IsDigit(input[pos]) {
      return Fail;
    }
    var pch, value: nat := pos, 0;
    while IsDigit(input[pch])
      invariant pos <= pch < |input| && pch - pos <= MAX_DIGITS
      invariant pch == pos ==> IsDigit(input[pch]) && value == 0
      invariant ScanInt(input, pos) ==
        if IsDigit(input[pch]) then ScanDigits(input, pch, MAX_DIGITS - (pch - pos), value) else At(pch, value)
      decreases |input| - pch
    {
      if pch - pos == MAX_DIGITS {
        return Fail;
      }
      value := value * 10 + (input[pch] - '0' as int);
      pch := pch + 1;
      if pch == |input| {
        return More;
      }
    }
    r := At(pch, value);
  }

  method ScanOne(item: Item, input: Bytes, pos: nat) returns (r: Scan)
    requires pos < |input|
    ensures r == ScanItem(item, input, pos)
  {
    match item
    case Literal(byte) =>
      r := if input[pos] != byte then Fail else Advance(input, pos, byte);
    case Number =>
      r := ScanNumber(input, pos);
    case Anything =>
      r := Advance(input, pos, input[pos]);
    case Coordinate =>
      var pch, negative := pos, false;
      if input[pch] == '-' as int {
        negative := true;
        pch := pch + 1;
        if pch == |input| {
          return More;
        }
      }
      r := ScanNumber(input, pch);
      if r.At? {
        var value := (if negative then -r.value else r.value) - 1;
        r := if FitsShort(value) then At(r.pos, value) else Abort;
      }
  }

  /** The items one after the other, then the last byte, which nothing has to follow. */
  method MatchSequence(p: Pattern, input: Bytes) returns (r: Match)
    requires input != []
    ensures r == MatchPattern(p, input)
  {
    var pch: nat, k, values := 0, 0, [];
    while k < |p.items|
      invariant 0 <= k <= |p.items| && pch < |input|
      invariant MatchPattern(p, input) == MatchFrom(p, k, input, pch, values)
    {
      var scan := ScanOne(p.items[k], input, pch);
      if !scan.At? {
        return Continue(scan);
      }
      pch, values, k := scan.pos, values + [scan.value], k + 1;
    }
    r := if p.last == [] || input[pch] in p.last then Matched(pch + 1, values + [input[pch]]) else NoMatch;
  }

  /** The three mouse encodings, tried in turn. */
  method MatchMouseRecord(input: Bytes) returns (r: MouseMatch)
    requires input != []
    ensures r == MatchMouse(input)
  {
    hide MatchPattern;
    var m := MatchSequence(MOUSE_1006, input);
    if m.Matched? {
      return Mouse(m.length, MouseRecord(m.values[3], m.values[5], m.values[7], m.values[8] == 'm' as int));
    } else if m != NoMatch {
      return FailedMouse(m);
    }
    m := MatchSequence(MOUSE_1015, input);
    if m.Matched? {
      return Mouse(m.length, MouseRecord(m.values[2] - 32, m.values[4], m.values[6], false));
    } else if m != NoMatch {
      return FailedMouse(m);
    }
    m := MatchSequence(MOUSE_DEFAULT, input);
    if m.Matched? {
      return Mouse(m.length, MouseRecord((m.values[3] - 32) % 256, (m.values[4] - '!' as int) % 256,
                                         (m.values[5] - '!' as int) % 256, false));
    } else if m != NoMatch {
      return FailedMouse(m);
    }
    r := NoMouse;
  }

  // ---------- Keys ----------

  /** UTF-16 code units as key records. */
  method AppendCodePoint(records: seq<Event>, down: bool, vk: Word, code: nat, state: nat) returns (later: seq<Event>)
    ensures later == records + CodePointRecords(down, vk, code, state)
  {
    var ws := EncodeUtf16(code);
    later := records;
    if |ws| == 1 {
      later := later + [KeyRecord(down, vk, ws[0], state)];
    } else if |ws| == 2 {
      later := later + [KeyRecord(down, vk, ws[0], state)];
      later := later + [KeyRecord(down, vk, ws[1], state)];
    }
  }

  /** Each record carries the modifiers held by then. */
  method PressModifiers(ctrl: bool, leftAlt: bool, rightAlt: bool, shift: bool) returns (keys: seq<Event>, step: nat)
    ensures var s1 := Flag(ctrl, LEFT_CTRL_PRESSED);
      var s2 := s1 + Flag(leftAlt, LEFT_ALT_PRESSED);
      var s3 := s2 + Flag(rightAlt, RIGHT_ALT_PRESSED);
      && step == s3 + Flag(shift, SHIFT_PRESSED)
      && keys == GoesDown(ctrl, VK_CONTROL, s1) + GoesDown(leftAlt, VK_MENU, s2)
                 + GoesDown(rightAlt, VK_MENU, s3 + ENHANCED_KEY) + GoesDown(shift, VK_SHIFT, step)
  {
    keys, step := [], 0;
    if ctrl {
      step := step + LEFT_CTRL_PRESSED;
      keys := keys + [KeyRecord(true, VK_CONTROL, 0, step)];
    }
    if leftAlt {
      step := step + LEFT_ALT_PRESSED;
      keys := keys + [KeyRecord(true, VK_MENU, 0, step)];
    }
    if rightAlt {
      step := step + RIGHT_ALT_PRESSED;
      keys := keys + [KeyRecord(true, VK_MENU, 0, step + ENHANCED_KEY)];
    }
    if shift {
      step := step + SHIFT_PRESSED;
      keys := keys + [KeyRecord(true, VK_SHIFT, 0, step)];
    }
  }

  /** In reverse, each record carrying the modifiers still held. */
  method ReleaseModifiers(ctrl: bool, leftAlt: bool, rightAlt: bool, shift: bool, held: nat) returns (keys: seq<Event>)
    requires held == Flag(ctrl, LEFT_CTRL_PRESSED) + Flag(leftAlt, LEFT_ALT_PRESSED) + Flag(rightAlt, RIGHT_ALT_PRESSED)
                     + Flag(shift, SHIFT_PRESSED)
    ensures var s1 := Flag(ctrl, LEFT_CTRL_PRESSED);
      var s2 := s1 + Flag(leftAlt, LEFT_ALT_PRESSED);
      var s3 := s2 + Flag(rightAlt, RIGHT_ALT_PRESSED);
      keys == GoesUp(shift, VK_SHIFT, s3) + GoesUp(rightAlt, VK_MENU, s2 + ENHANCED_KEY) + GoesUp(leftAlt, VK_MENU, s1)
              + GoesUp(ctrl, VK_CONTROL, 0)
  {
    var step := held;
    keys := [];
    if shift {
      step := step - SHIFT_PRESSED;
      keys := keys + [KeyRecord(false, VK_SHIFT, 0, step)];
    }
    if rightAlt {
      step := step - RIGHT_ALT_PRESSED;
      keys := keys + [KeyRecord(false, VK_MENU, 0, step + ENHANCED_KEY)];
    }
    if leftAlt {
      step := step - LEFT_ALT_PRESSED;
      keys := keys + [KeyRecord(false, VK_MENU, 0, step)];
    }
    if ctrl {
      step := step - LEFT_CTRL_PRESSED;
      keys := keys + [KeyRecord(false, VK_CONTROL, 0, step)];
    }
  }

  /** The modifiers go down one after the other, then the key goes down and up, then they go up in reverse. */
  method AppendKeyPress(
    env: Env, records: seq<Event>, vk: Word, down: nat, up: nat, winState: Word, vtCode: nat, vtState: Word)
    returns (later: seq<Event>)
    ensures later == records + KeyPress(env, vk, down, up, winState, vtCode, vtState)
  {
    hide CodePointRecords, HasFlag, Held, GoesDown, GoesUp;
    var ctrl, leftAlt := HasFlag(winState, LEFT_CTRL_PRESSED), HasFlag(winState, LEFT_ALT_PRESSED);
    var rightAlt, shift := HasFlag(winState, RIGHT_ALT_PRESSED), HasFlag(winState, SHIFT_PRESSED);
    if env.escapeInput && IsNavigation(vk) && !ctrl && !leftAlt && !rightAlt && !shift {
      return records + [KeyMessage(true, vk), KeyMessage(false, vk)];
    }
    var pressed, held := PressModifiers(ctrl, leftAlt, rightAlt, shift);
    var step := held + if HasFlag(winState, ENHANCED_KEY) then ENHANCED_KEY else 0;
    var press;
    if env.escapeInput {
      press := env.reencode(vk, vtCode, vtState);
    } else {
      press := AppendCodePoint([], true, vk, down, step);
      assert press == CodePointRecords(true, vk, down, step);
    }
    var inner := AppendCodePoint(press, false, vk, up, step);
    var released := ReleaseModifiers(ctrl, leftAlt, rightAlt, shift, held);
    later := records + (pressed + inner + released);
    Nested(ctrl, leftAlt, rightAlt, shift, inner);
  }

  method AppendMappedKey(env: Env, records: seq<Event>, key: Key) returns (later: seq<Event>)
    ensures later == records + MappedKey(env, key)
  {
    hide KeyPress;
    var down := key.unicodeChar;
    if HasFlag(key.keyState, LEFT_CTRL_PRESSED) && HasFlag(key.keyState, LEFT_ALT_PRESSED) {
      down := 0;
    }
    var up := down;
    if HasFlag(key.keyState, LEFT_ALT_PRESSED) {
      up := 0;
    }
    later := AppendKeyPress(env, records, key.virtualKey, down, up, key.keyState, key.unicodeChar, key.keyState);
  }

  /** A malformed character makes no record. */
  method AppendUtf8Char(env: Env, records: seq<Event>, bytes: Bytes, escaped: bool) returns (later: seq<Event>)
    requires |bytes| >= 1 && |bytes| >= Utf8CharLength(bytes[0])
    ensures later == records + Character(env, bytes, escaped)
  {
    hide KeyPress, DecodeUtf8;
    var decoded := DecodeUtf8(bytes);
    if decoded.None? {
      assert records + [] == records;
      return records;
    }
    var code := decoded.value;
    var scan := if code > 0xffff then -1 else env.vkKeyScan(code);
    var vk: Word, state: nat, vtState: nat, down, up := 0, 0, 0, code, code;
    if scan != -1 {
      vk := scan % 0x100;
      if HasFlag(scan, 0x100) {
        state := state + SHIFT_PRESSED;
      }
      if HasFlag(scan, 0x200) {
        state := state + LEFT_CTRL_PRESSED;
      }
      if HasFlag(scan, 0x400) {
        state := state + RIGHT_ALT_PRESSED;
      }
      if escaped && HasFlag(scan, 0x200) {
        down, up := 0, 0;
      }
    }
    if escaped {
      up := 0;
      state := state + LEFT_ALT_PRESSED;
      vtState := LEFT_ALT_PRESSED;
    }
    later := AppendKeyPress(env, records, vk, down, up, state, code, vtState);
  }

  lemma {:induction false} DrainNothing(env: Env, bindings: Bindings, mouse: MouseState, isEof: bool)
    ensures Drain(env, bindings, mouse, [], isEof) == Drained([], mouse, [], 0, true)
  {
  }

  // ---------- The object ----------

  class Scanner {
    const inputMap: InputMap
    var env: Env
    var byteQueue: Bytes
    var buttons: Buttons
    var doubleClick: DoubleClick
    var dsrSent: bool
    var lastWriteTick: nat

    /** What has reached the console, and how many status reports the terminal has been asked for. */
    var written: seq<Event>
    var dsrRequests: nat

    ghost function Mouse(): MouseState
      reads this`buttons, this`doubleClick
    {
      MouseState(buttons, doubleClick)
    }

    /** What scanning `queue` from here comes to. */
    ghost function Drains(queue: Bytes, isEof: bool): Drained
      reads this`env, this`buttons, this`doubleClick, inputMap`bindings
    {
      Drain(env, inputMap.bindings, Mouse(), queue, isEof)
    }

    /** The bytes in the queue wait for more. */
    ghost predicate Waiting()
      reads this, inputMap`bindings
    {
      Drains(byteQueue, false) == Drained([], Mouse(), byteQueue, 0, true)
    }

    constructor (inputMap: InputMap, env: Env)
      ensures this.inputMap == inputMap && this.env == env && byteQueue == [] && written == [] && !dsrSent
      ensures Waiting() && Mouse() == MouseState(Buttons(false, false, false), NO_CLICK) && dsrRequests == 0
    {
      this.inputMap, this.env, byteQueue := inputMap, env, [];
      buttons, doubleClick := Buttons(false, false, false), NO_CLICK;
      dsrSent, lastWriteTick, written, dsrRequests := false, 0, [], 0;
    }

    method FlushInputRecords(records: seq<Event>)
      modifies this`written
      ensures written == old(written) + records
    {
      if |records| > 0 {
        written := written + records;
      }
    }

    /** A mouse record: the state it leaves, and the event, unless no program wants it. */
    method ScanMouse(record: MouseRecord) returns (events: seq<Event>)
      modifies this`buttons, this`doubleClick
      ensures (Mouse(), events) == MouseStep(env, old(Mouse()), record)
    {
      events := [];
      var button := record.flags % 4;
      var wheel, double, moved := NoWheel, false, false;
      if HasFlag(record.flags, 0x40) {
        if button == 0 {
          wheel := WheelUp;
        } else if button == 1 {
          wheel := WheelDown;
        } else {
          return;
        }
      } else {
        moved := HasFlag(record.flags, 0x20);
        double := Click(record);
      }
      if env.mouseInput {
        var x := Place(env.window.left, env.window.width, record.x);
        var y := Place(env.window.top, env.window.height, record.y);
        events := [MouseRecordEvent(MouseEvent(
          x, y, HasFlag(record.flags, 4), HasFlag(record.flags, 8), HasFlag(record.flags, 0x10), moved, double, wheel,
          buttons))];
      }
    }

    method Click(record: MouseRecord) returns (double: bool)
      modifies this`buttons, this`doubleClick
      ensures (Mouse(), double) == Clicked(env, old(Mouse()), record)
    {
      double := false;
      if record.flags % 4 == 3 {
        buttons := Buttons(false, false, false);
        doubleClick := doubleClick.(released := true);
      } else {
        var button := ButtonOf(record.flags);
        if record.release {
          buttons := SetButton(buttons, button, false);
          if doubleClick.button == Some(button) {
            doubleClick := doubleClick.(released := true);
          } else {
            doubleClick := NO_CLICK;
          }
        } else if !IsDown(buttons, button) {
          buttons := SetButton(buttons, button, true);
          if doubleClick.button == Some(button) && doubleClick.x == record.x && doubleClick.y == record.y
             && env.now - doubleClick.tick < env.doubleClickTime {
            double := true;
            doubleClick := NO_CLICK;
          } else {
            doubleClick := doubleClick.(button := Some(button), x := record.x, y := record.y, tick := env.now);
          }
        }
      }
    }

    /**
      The first thing in the input; `records` are the events not flushed yet. The answer is how many bytes it took, -1
      when more are needed, and 0 when the agent aborts.
     */
    method ScanInput(records: seq<Event>, input: Bytes, isEof: bool) returns (length: int, later: seq<Event>)
      requires input != [] && inputMap.Valid()
      modifies this`written, this`buttons, this`doubleClick, this`dsrSent
      ensures var r := ConsoleInput.ScanInput(env, inputMap.bindings, old(Mouse()), input, isEof);
        if r.Consumed? then
          && length == r.length && Mouse() == r.mouse && written + later == old(written) + records + r.events
          && dsrSent == (old(dsrSent) && !r.dsr)
        else if r.Died? then length == 0
        else
          && length == -1 && later == records && written == old(written) && Mouse() == old(Mouse())
          && dsrSent == old(dsrSent)
    {
      hide MatchPattern, MatchMouse, ScanKey, MouseStep, Trie, AllUsed;
      later := records;
      if input[0] == CTRL_C && env.processedInput {
        FlushInputRecords(records);
        written := written + [CtrlCEvent];
        return 1, [];
      }
      if input[0] == ESC {
        var dsr := MatchSequence(DSR, input);
        if dsr.Matched? {
          dsrSent := false;
          return dsr.length, records;
        } else if !isEof && dsr.Incomplete? {
          return -1, records;
        }
        var m := MatchMouseRecord(input);
        if m.AbortMouse? {
          return 0, records;
        } else if m.Mouse? {
          var events := ScanMouse(m.record);
          return m.length, records + events;
        } else if !isEof && m.MoreMouse? {
          return -1, records;
        }
      }
      length, later := ScanKeyInput(records, input, isEof);
    }

    method ScanKeyInput(records: seq<Event>, input: Bytes, isEof: bool) returns (length: int, later: seq<Event>)
      requires input != [] && inputMap.Valid()
      ensures var r := ScanKey(env, inputMap.bindings, Mouse(), input, isEof);
        if r.Consumed? then length == r.length && later == records + r.events && r.mouse == Mouse() && !r.dsr
        else r.NeedMore? && length == -1 && later == records
    {
      hide Lookup, KeyPress, Trie, AllUsed;
      later := records;
      var found := inputMap.LookupKey(input);
      if !isEof && found.incomplete {
        return -1, records;
      } else if found.length > 0 {
        later := AppendMappedKey(env, records, found.key);
        return found.length, later;
      }
      if input[0] == ESC && |input| >= 2 && input[1] != ESC {
        var len := Utf8CharLength(input[1]);
        if len > 0 {
          if 1 + len > |input| {
            return -1, records;
          }
          later := AppendUtf8Char(env, records, input[1..1 + len], true);
          return 1 + len, later;
        }
      }
      var len := Utf8CharLength(input[0]);
      if len == 0 {
        return 1, records;
      } else if len > |input| {
        return -1, records;
      }
      later := AppendUtf8Char(env, records, input[0..len], false);
      return len, later;
    }

    /** Take everything from the queue that can be told already. */
    method DoWrite(isEof: bool) returns (alive: bool)
      requires inputMap.Valid()
      modifies this`byteQueue, this`written, this`buttons, this`doubleClick, this`dsrSent
      ensures var r := old(Drains(byteQueue, isEof));
        && alive == r.alive
        && (alive ==> byteQueue == r.rest && Mouse() == r.mouse && written == old(written) + r.events
                      && dsrSent == (old(dsrSent) && r.dsrs == 0))
    {
      hide ConsoleInput.ScanInput, Drain, Before, Prepended, Trie, AllUsed;
      ghost var bindings, total := inputMap.bindings, Drains(byteQueue, isEof);
      var records: seq<Event>, idx := [], 0;
      ghost var done, dsrs: nat, queue := [], 0, byteQueue;
      assert byteQueue[0..] == byteQueue;
      PrependedFacts([], 0, total);
      while idx < |byteQueue|
        invariant 0 <= idx <= |byteQueue| && byteQueue == queue && inputMap.Valid()
        invariant written + records == old(written) + done && dsrSent == (old(dsrSent) && dsrs == 0)
        invariant total == Prepended(done, dsrs, Drain(env, bindings, Mouse(), queue[idx..], isEof))
        decreases |byteQueue| - idx
      {
        ghost var scanned := ConsoleInput.ScanInput(env, bindings, Mouse(), queue[idx..], isEof);
        DrainStep(env, bindings, Mouse(), queue[idx..], isEof);
        PrependedFacts(done, dsrs, Drain(env, bindings, Mouse(), queue[idx..], isEof));
        var charSize;
        charSize, records := ScanInput(records, byteQueue[idx..], isEof);
        if charSize == 0 {
          return false;
        } else if charSize == -1 {
          break;
        }
        assert queue[idx..][charSize..] == queue[idx + charSize..];
        PrependedTwice(done, dsrs, scanned, Drain(env, bindings, Mouse(), queue[idx + charSize..], isEof));
        done := done + scanned.events;
        dsrs := dsrs + if scanned.dsr then 1 else 0;
        idx := idx + charSize;
      }
      DrainNothing(env, bindings, Mouse(), isEof);
      PrependedFacts(done, dsrs, Drain(env, bindings, Mouse(), queue[idx..], isEof));
      byteQueue := byteQueue[idx..];
      FlushInputRecords(records);
      alive := true;
    }

    /** Take in some bytes; what is left waits, and the terminal is asked to make itself heard. */
    method WriteInput(input: Bytes, now: nat) returns (alive: bool)
      requires inputMap.Valid()
      modifies this`byteQueue, this`written, this`buttons, this`doubleClick, this`dsrSent
      modifies this`dsrRequests, this`lastWriteTick
      ensures input != [] ==>
        var r := old(Drains(byteQueue + input, false));
        && alive == r.alive
        && (alive ==> byteQueue == r.rest && Mouse() == r.mouse && written == old(written) + r.events && Waiting())
      ensures alive && input != [] ==>
        var outstanding := old(dsrSent) && old(Drains(byteQueue + input, false)).dsrs == 0;
        && dsrSent == (outstanding || byteQueue != []) && lastWriteTick == now
        && dsrRequests == old(dsrRequests) + if byteQueue != [] && !outstanding then 1 else 0
      ensures input == [] ==>
        && alive && byteQueue == old(byteQueue) && Mouse() == old(Mouse()) && written == old(written)
        && dsrSent == old(dsrSent) && dsrRequests == old(dsrRequests) && lastWriteTick == old(lastWriteTick)
    {
      hide Drain;
      if |input| == 0 {
        return true;
      }
      byteQueue := byteQueue + input;
      alive := DoWrite(false);
      if !alive {
        return;
      }
      RestWaits(env, inputMap.bindings, old(Mouse()), old(byteQueue) + input);
      if byteQueue != [] && !dsrSent {
        dsrRequests := dsrRequests + 1;
        dsrSent := true;
      }
      lastWriteTick := now;
    }

    /** After a while without input what is left is taken as it stands, and nothing stays behind. */
    method FlushIncompleteEscapeCode(now: nat) returns (alive: bool)
      requires inputMap.Valid()
      modifies this`byteQueue, this`written, this`buttons, this`doubleClick, this`dsrSent
      ensures var due := old(byteQueue) != [] && now - lastWriteTick > INCOMPLETE_ESCAPE_TIMEOUT_MS;
        var r := old(Drains(byteQueue, true));
        && (due ==> alive == r.alive)
        && (due && alive ==>
              && byteQueue == [] && written == old(written) + r.events && Mouse() == r.mouse
              && dsrSent == (old(dsrSent) && r.dsrs == 0))
        && (!due ==>
              && alive && byteQueue == old(byteQueue) && written == old(written) && Mouse() == old(Mouse())
              && dsrSent == old(dsrSent))
    {
      alive := true;
      if byteQueue != [] && now - lastWriteTick > INCOMPLETE_ESCAPE_TIMEOUT_MS {
        alive := DoWrite(true);
        if alive {
          byteQueue := [];
        }
      }
    }
  }
}
