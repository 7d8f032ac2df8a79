/** What a mouse report says: from its bytes to the record, and from the record to the event. */
module MouseReports {
  import opened Basics
  import opened KeyBindings
  import opened InputPatterns
  import opened ConsoleInput
  import opened CursorReports
  import opened MouseAborts

  // ---------- Reports as text ----------

  /** Flags and a place that fits, as the two numbered encodings have them, and the byte `last`. */
  function Numbered(angle: bool, n: Bytes, c: Bytes, d: Bytes, last: Byte): Bytes {
    Opening(angle, n) + c + [';' as int] + d + [last]
  }

  ghost predicate Readable(n: Bytes, c: Bytes, d: Bytes) {
    Digits(n) && IsSigned(c) && IsSigned(d) && Fits(c) && Fits(d)
  }

  /** What they say: one encoding adds 32 to the flags, and places count from one. */
  ghost function NumberedRecord(n: Bytes, c: Bytes, d: Bytes, offset: nat, release: bool): MouseRecord
    requires Readable(n, c, d)
  {
    MouseRecord(ValueFrom(0, n) - offset, Signed(c) - 1, Signed(d) - 1, release)
  }

  function Plain(flags: Byte, x: Byte, y: Byte): Bytes {
    [ESC, '[' as int, 'M' as int, flags, x, y]
  }

  ghost predicate Says1006(report: Bytes, record: MouseRecord, n: Bytes, c: Bytes, d: Bytes, release: bool) {
    && Readable(n, c, d) && report == Numbered(true, n, c, d, if release then 'm' as int else 'M' as int)
    && record == NumberedRecord(n, c, d, 0, release)
  }

  ghost predicate Says1015(report: Bytes, record: MouseRecord, n: Bytes, c: Bytes, d: Bytes) {
    && Readable(n, c, d) && report == Numbered(false, n, c, d, 'M' as int)
    && record == NumberedRecord(n, c, d, 32, false)
  }

  ghost predicate SaysInBytes(report: Bytes, record: MouseRecord, flags: Byte, x: Byte, y: Byte) {
    && report == Plain(flags, x, y)
    && record == MouseRecord((flags - 32) % 256, (x - 33) % 256, (y - 33) % 256, false)
  }

  /** `report` says `record`: in decimal, the released button told by its last letter or not at all, or in bytes. */
  ghost predicate Says(report: Bytes, record: MouseRecord)
    ensures Says(report, record) ==> report != []
  {
    || (exists n, c, d, release :: Says1006(report, record, n, c, d, release))
    || (exists n, c, d :: Says1015(report, record, n, c, d))
    || (exists flags: Byte, x: Byte, y: Byte :: SaysInBytes(report, record, flags, x, y))
  }

  // ---------- Matching ----------

  /** Where the parts of a numbered report stand. */
  ghost predicate Laid(input: Bytes, at: nat, n: Bytes, c: Bytes, d: Bytes) {
    var x := at + |n| + 1;
    var y := x + |c| + 1;
    && Readable(n, c, d) && Stands(n, input, at) && input[at + |n|] == ';' as int
    && Stands(c, input, x) && input[x + |c|] == ';' as int && Stands(d, input, y)
  }

  function EndOfPair(at: nat, n: Bytes, c: Bytes, d: Bytes): nat {
    at + |n| + 1 + |c| + 1 + |d|
  }

  lemma {:induction false} LaidIsMatched(
    p: Pattern, k: nat, input: Bytes, at: nat, values: seq<int>, n: Bytes, c: Bytes, d: Bytes)
    requires k + 5 == |p.items| && p.items[k..] == Rest() && p.last != [] && Laid(input, at, n, c, d)
    ensures var end := EndOfPair(at, n, c, d);
      MatchFrom(p, k, input, at, values) ==
      if input[end] in p.last then
        Matched(end + 1, values + [ValueFrom(0, n), ';' as int, Signed(c) - 1, ';' as int, Signed(d) - 1, input[end]])
      else NoMatch
  {
    hide MatchFrom, ScanInt, ScanCoordinate, Signed, IsSigned, Fits;
    RestItems(p, k);
    NumberStands(n, input, at);
    StepMatch(p, k, input, at, values);
    var v1 := values + [ValueFrom(0, n)];
    var x := at + |n| + 1;
    StepMatch(p, k + 1, input, x - 1, v1);
    var v2 := v1 + [';' as int];
    CoordinateStands(c, input, x);
    StepMatch(p, k + 2, input, x, v2);
    var v3 := v2 + [Signed(c) - 1];
    var y := x + |c| + 1;
    StepMatch(p, k + 3, input, y - 1, v3);
    var v4 := v3 + [';' as int];
    CoordinateStands(d, input, y);
    StepMatch(p, k + 4, input, y, v4);
    var v5 := v4 + [Signed(d) - 1];
    LastMatch(p, input, y + |d|, v5);
    assert v5 + [input[y + |d|]] ==
        values + [ValueFrom(0, n), ';' as int, Signed(c) - 1, ';' as int, Signed(d) - 1, input[y + |d|]];
  }

  lemma {:induction false} RestItems(p: Pattern, k: nat)
    requires k + 5 == |p.items| && p.items[k..] == Rest()
    ensures p.items[k] == Number && p.items[k + 1] == Semicolon() && p.items[k + 2] == Coordinate
    ensures p.items[k + 3] == Semicolon() && p.items[k + 4] == Coordinate
  {
    assert p.items[k] == p.items[k..][0] && p.items[k + 1] == p.items[k..][1] && p.items[k + 2] == p.items[k..][2];
    assert p.items[k + 3] == p.items[k..][3] && p.items[k + 4] == p.items[k..][4];
  }

  /** Whatever is matched is laid out so. */
  lemma {:induction false} MatchedIsLaid(p: Pattern, k: nat, input: Bytes, at: nat, values: seq<int>)
    returns (n: Bytes, c: Bytes, d: Bytes)
    requires k + 5 == |p.items| && p.items[k..] == Rest() && p.last != [] && at < |input|
    requires MatchFrom(p, k, input, at, values).Matched?
    ensures Laid(input, at, n, c, d)
  {
    hide MatchFrom, ScanInt, ScanCoordinate, Signed, Digits, IsSigned;
    RestItems(p, k);
    StepMatch(p, k, input, at, values);
    var r1 := ScanInt(input, at);
    NumberRead(input, at);
    n := input[at..r1.pos];
    var v1 := values + [r1.value];
    StepMatch(p, k + 1, input, r1.pos, v1);
    var v2 := v1 + [';' as int];
    var x := r1.pos + 1;
    StepMatch(p, k + 2, input, x, v2);
    CoordinateScan(input, x);
    var r2 := ScanCoordinate(input, x);
    c := input[x..r2.pos];
    CoordinateStands(c, input, x);
    var v3 := v2 + [r2.value];
    StepMatch(p, k + 3, input, r2.pos, v3);
    var v4 := v3 + [';' as int];
    var y := r2.pos + 1;
    StepMatch(p, k + 4, input, y, v4);
    CoordinateScan(input, y);
    var r3 := ScanCoordinate(input, y);
    d := input[y..r3.pos];
    CoordinateStands(d, input, y);
  }

  lemma {:induction false} NumberedIsLaid(angle: bool, n: Bytes, c: Bytes, d: Bytes, last: Byte, more: Bytes)
    requires Readable(n, c, d) && !IsDigit(last)
    ensures var input, at := Numbered(angle, n, c, d, last) + more, Introduction(angle);
      && Introduced(input, angle) && Laid(input, at, n, c, d) && input[EndOfPair(at, n, c, d)] == last
      && EndOfPair(at, n, c, d) + 1 == |Numbered(angle, n, c, d, last)|
  {
    hide Digits, IsSigned, Fits;
    var input, at := Numbered(angle, n, c, d, last) + more, Introduction(angle);
    var front := [ESC, '[' as int] + if angle then ['<' as int] else [];
    assert input == front + n + [';' as int] + c + [';' as int] + d + [last] + more;
    assert |front| == at;
    var x := at + |n| + 1;
    var y := x + |c| + 1;
    assert input[at..at + |n|] == n && input[x..x + |c|] == c && input[y..y + |d|] == d;
    assert input[at + |n|] == ';' as int && input[x + |c|] == ';' as int && input[y + |d|] == last;
  }

  lemma {:induction false} LaidIsNumbered(input: Bytes, angle: bool, n: Bytes, c: Bytes, d: Bytes)
    requires Introduced(input, angle) && Laid(input, Introduction(angle), n, c, d)
    ensures var end := EndOfPair(Introduction(angle), n, c, d);
      end < |input| && input[..end + 1] == Numbered(angle, n, c, d, input[end])
  {
    hide Digits, IsSigned, Fits;
    var at := Introduction(angle);
    var x := at + |n| + 1;
    var y := x + |c| + 1;
    var last := input[y + |d|];
    var front := [ESC, '[' as int] + if angle then ['<' as int] else [];
    assert input[..at] == front;
    Ahead(input, at, n, ';' as int);
    Ahead(input, x, c, ';' as int);
    Ahead(input, y, d, last);
    assert front + (n + [';' as int]) == Opening(angle, n);
    Regrouped(Opening(angle, n), c, ';' as int, d, last);
  }

  lemma {:induction false} Regrouped(front: Bytes, c: Bytes, between: Byte, d: Bytes, last: Byte)
    ensures front + (c + [between]) + (d + [last]) == front + c + [between] + d + [last]
  {
  }

  lemma {:induction false} Ahead(input: Bytes, i: nat, piece: Bytes, next: Byte)
    requires i + |piece| < |input| && input[i..i + |piece|] == piece && input[i + |piece|] == next
    ensures input[..i + |piece| + 1] == input[..i] + (piece + [next])
  {
    assert input[..i + |piece| + 1] == input[..i] + input[i..i + |piece|] + [input[i + |piece|]];
  }

  lemma {:induction false} Match1006(input: Bytes)
    requires |input| > 3
    ensures Introduced(input, true) ==>
      MatchPattern(MOUSE_1006, input) == MatchFrom(MOUSE_1006, 3, input, 3, [ESC as int, '[' as int, '<' as int])
    ensures !Introduced(input, true) ==> MatchPattern(MOUSE_1006, input) == NoMatch
  {
    hide MatchFrom;
    StepMatch(MOUSE_1006, 0, input, 0, []);
    StepMatch(MOUSE_1006, 1, input, 1, [] + [ESC as int]);
    StepMatch(MOUSE_1006, 2, input, 2, [] + [ESC as int] + ['[' as int]);
    assert [] + [ESC as int] + ['[' as int] + ['<' as int] == [ESC as int, '[' as int, '<' as int];
  }

  lemma {:induction false} Match1015(input: Bytes)
    requires |input| > 2
    ensures Introduced(input, false) ==>
      MatchPattern(MOUSE_1015, input) == MatchFrom(MOUSE_1015, 2, input, 2, [ESC as int, '[' as int])
    ensures !Introduced(input, false) ==> MatchPattern(MOUSE_1015, input) == NoMatch
  {
    hide MatchFrom;
    StepMatch(MOUSE_1015, 0, input, 0, []);
    StepMatch(MOUSE_1015, 1, input, 1, [] + [ESC as int]);
    assert [] + [ESC as int] + ['[' as int] == [ESC as int, '[' as int];
  }

  lemma {:induction false} MatchPlain(input: Bytes)
    requires |input| >= 6
    ensures MatchPattern(MOUSE_DEFAULT, input) ==
      if input[0] == ESC && input[1] == '[' as int && input[2] == 'M' as int then
        Matched(6, [ESC as int, '[' as int, 'M' as int, input[3], input[4], input[5]])
      else NoMatch
  {
    hide MatchFrom;
    var p := MOUSE_DEFAULT;
    var v3: seq<int> := [ESC as int, '[' as int, 'M' as int];
    StepMatch(p, 0, input, 0, []);
    StepMatch(p, 1, input, 1, [] + [ESC as int]);
    StepMatch(p, 2, input, 2, [] + [ESC as int] + ['[' as int]);
    assert [] + [ESC as int] + ['[' as int] + ['M' as int] == v3;
    StepMatch(p, 3, input, 3, v3);
    StepMatch(p, 4, input, 4, v3 + [input[3] as int]);
    AnyLast(input, 5, v3 + [input[3] as int] + [input[4] as int]);
    assert v3 + [input[3] as int] + [input[4] as int] + [input[5] as int] ==
        [ESC as int, '[' as int, 'M' as int, input[3], input[4], input[5]];
  }

  lemma {:induction false} AnyLast(input: Bytes, pos: nat, values: seq<int>)
    requires pos < |input|
    ensures MatchFrom(MOUSE_DEFAULT, 5, input, pos, values) == Matched(pos + 1, values + [input[pos]])
  {
  }

  lemma {:induction false} NumberIsNoAngle(input: Bytes, n: Bytes)
    requires Digits(n) && Stands(n, input, 2)
    ensures IsDigit(input[2]) && !Introduced(input, true)
  {
    assert input[2..2 + |n|][0] == input[2] == n[0];
  }

  lemma {:induction false} SaidWith1006(n: Bytes, c: Bytes, d: Bytes, release: bool, more: Bytes)
    requires Readable(n, c, d)
    ensures var report := Numbered(true, n, c, d, if release then 'm' as int else 'M' as int);
      MatchMouse(report + more) ==
      Mouse(|report|, NumberedRecord(n, c, d, 0, release))
  {
    hide MatchFrom, Readable, Signed, MatchPattern, Numbered;
    var last: Byte := if release then 'm' as int else 'M' as int;
    var input := Numbered(true, n, c, d, last) + more;
    NumberedIsLaid(true, n, c, d, last, more);
    Match1006(input);
    assert MOUSE_1006.items[3..] == Rest();
    LaidIsMatched(MOUSE_1006, 3, input, 3, [ESC as int, '[' as int, '<' as int], n, c, d);
  }

  lemma {:induction false} SaidWith1015(n: Bytes, c: Bytes, d: Bytes, more: Bytes)
    requires Readable(n, c, d)
    ensures var report := Numbered(false, n, c, d, 'M' as int);
      MatchMouse(report + more) ==
      Mouse(|report|, NumberedRecord(n, c, d, 32, false))
  {
    hide MatchFrom, Signed, MatchPattern, Numbered;
    var input := Numbered(false, n, c, d, 'M' as int) + more;
    NumberedIsLaid(false, n, c, d, 'M' as int, more);
    NumberIsNoAngle(input, n);
    Match1006(input);
    Match1015(input);
    assert MOUSE_1015.items[2..] == Rest();
    LaidIsMatched(MOUSE_1015, 2, input, 2, [ESC as int, '[' as int], n, c, d);
  }

  lemma {:induction false} SaidInBytes(flags: Byte, x: Byte, y: Byte, more: Bytes)
    ensures MatchMouse(Plain(flags, x, y) + more) ==
      Mouse(6, MouseRecord((flags - 32) % 256, (x - 33) % 256, (y - 33) % 256, false))
  {
    hide MatchFrom, MatchPattern;
    var input := Plain(flags, x, y) + more;
    Match1006(input);
    Match1015(input);
    NoNumberAt(input);
    MatchPlain(input);
  }

  lemma {:induction false} NoNumberAt(input: Bytes)
    requires |input| > 2 && input[0] == ESC && input[1] == '[' as int && !IsDigit(input[2])
    ensures MatchPattern(MOUSE_1015, input) == NoMatch
  {
    hide MatchFrom;
    Match1015(input);
    StepMatch(MOUSE_1015, 2, input, 2, [ESC as int, '[' as int]);
  }

  /** Every report is understood as what it says, whatever follows it. */
  lemma {:induction false} SaidIsUnderstood(report: Bytes, record: MouseRecord, more: Bytes)
    requires Says(report, record)
    ensures MatchMouse(report + more) == Mouse(|report|, record)
  {
    hide MatchMouse, Readable, Signed, Numbered;
    if n, c, d, release :| Says1006(report, record, n, c, d, release) {
      SaidWith1006(n, c, d, release, more);
    } else if n, c, d :| Says1015(report, record, n, c, d) {
      SaidWith1015(n, c, d, more);
    } else {
      var flags: Byte, x: Byte, y: Byte :| SaysInBytes(report, record, flags, x, y);
      SaidInBytes(flags, x, y, more);
    }
  }

  /** And whatever is understood has been said. */
  lemma {:induction false} UnderstoodIsSaid(input: Bytes)
    requires input != [] && MatchMouse(input).Mouse?
    ensures Says(input[..MatchMouse(input).length], MatchMouse(input).record)
  {
    hide MatchFrom, MatchPattern, Signed, Numbered;
    var m := MatchMouse(input);
    if MatchPattern(MOUSE_1006, input).Matched? {
      LongEnough(MOUSE_1006, input);
      Match1006(input);
      assert MOUSE_1006.items[3..] == Rest();
      var v: seq<int> := [ESC as int, '[' as int, '<' as int];
      var n, c, d := MatchedIsLaid(MOUSE_1006, 3, input, 3, v);
      LaidIsMatched(MOUSE_1006, 3, input, 3, v, n, c, d);
      LaidIsNumbered(input, true, n, c, d);
      var release := input[EndOfPair(3, n, c, d)] == 'm' as int;
      assert Says1006(input[..m.length], m.record, n, c, d, release);
    } else if MatchPattern(MOUSE_1015, input).Matched? {
      LongEnough(MOUSE_1015, input);
      Match1015(input);
      assert MOUSE_1015.items[2..] == Rest();
      var v: seq<int> := [ESC as int, '[' as int];
      var n, c, d := MatchedIsLaid(MOUSE_1015, 2, input, 2, v);
      LaidIsMatched(MOUSE_1015, 2, input, 2, v, n, c, d);
      LaidIsNumbered(input, false, n, c, d);
      assert Says1015(input[..m.length], m.record, n, c, d);
    } else {
      LongEnough(MOUSE_DEFAULT, input);
      MatchPlain(input);
      assert SaysInBytes(input[..6], m.record, input[3], input[4], input[5]);
    }
  }

  lemma {:induction false} LongEnough(p: Pattern, input: Bytes)
    requires input != [] && MatchPattern(p, input).Matched?
    ensures |input| > |p.items|
  {
    LongFrom(p, 0, input, 0, []);
  }

  lemma {:induction false} LongFrom(p: Pattern, k: nat, input: Bytes, pos: nat, values: seq<int>)
    requires k <= |p.items| && pos < |input| && MatchFrom(p, k, input, pos, values).Matched?
    ensures |input| - pos > |p.items| - k
    decreases |p.items| - k
  {
    hide ScanItem;
    if k < |p.items| {
      var scan := ScanItem(p.items[k], input, pos);
      LongFrom(p, k + 1, input, scan.pos, values + [scan.value]);
    }
  }

  // ---------- Records as events ----------

  /** How a terminal puts a mouse event into flags. */
  function FlagsOf(button: nat, shift: bool, alt: bool, ctrl: bool, moved: bool, wheel: bool): nat
    requires button < 4
  {
    button + (if shift then 4 else 0) + (if alt then 8 else 0) + (if ctrl then 16 else 0) + (if moved then 32 else 0)
    + if wheel then 64 else 0
  }

  lemma {:induction false} FlagsAreRead(button: nat, shift: bool, alt: bool, ctrl: bool, moved: bool, wheel: bool)
    requires button < 4
    ensures var f := FlagsOf(button, shift, alt, ctrl, moved, wheel);
      && f % 4 == button && HasFlag(f, 4) == shift && HasFlag(f, 8) == alt && HasFlag(f, 0x10) == ctrl
      && HasFlag(f, 0x20) == moved && HasFlag(f, 0x40) == wheel
  {
  }

  /** The buttons held: 0 is the left one, 1 the middle one, 2 the right one. */
  function HeldButtons(b: Buttons): seq<bool> {
    [b.left, b.middle, b.right]
  }

  /** The cell nearest to `at` of `size` cells from `origin` on. */
  function Nearest(origin: int, size: int, at: int): int {
    if at < 0 || size < 1 then origin else if at < size then origin + at else origin + size - 1
  }

  /**
    The event made of a record has the place, the modifiers, the motion and the wheel the terminal put into it, and the
    buttons held then: button 3 releases all, any other is pressed or released itself. The wheel leaves the buttons
    alone, and there are only two ways to turn it.
   */
  lemma {:induction false} RecordIsReported(
    env: Env, s: MouseState, button: nat, shift: bool, alt: bool, ctrl: bool, moved: bool, wheel: bool, x: int, y: int,
    release: bool)
    requires button < 4
    ensures var (next, events) :=
        MouseStep(env, s, MouseRecord(FlagsOf(button, shift, alt, ctrl, moved, wheel), x, y, release));
      if wheel && button >= 2 then next == s && events == []
      else
        && HeldButtons(next.buttons) ==
             (if wheel then HeldButtons(s.buttons)
              else if button == 3 then [false, false, false]
              else HeldButtons(s.buttons)[button := !release])
        && (if env.mouseInput then
              && |events| == 1 && events[0].MouseRecordEvent?
              && var e := events[0].mouse;
                e == MouseEvent(
                  Nearest(env.window.left, env.window.width, x), Nearest(env.window.top, env.window.height, y), shift,
                  alt, ctrl, moved && !wheel, e.doubleClick,
                  if !wheel then NoWheel else if button == 0 then WheelUp else WheelDown, next.buttons)
                && (wheel ==> !e.doubleClick)
            else events == [])
  {
    hide HasFlag;
    FlagsAreRead(button, shift, alt, ctrl, moved, wheel);
  }

  /** From the bytes to the event: a mouse report at the front of the input is taken whole and becomes its event. */
  lemma {:induction false} ReportIsScanned(
    env: Env, bindings: Bindings, mouse: MouseState, report: Bytes, record: MouseRecord, more: Bytes, isEof: bool)
    requires Says(report, record)
    ensures var (next, events) := MouseStep(env, mouse, record);
      ScanInput(env, bindings, mouse, report + more, isEof) == Consumed(|report|, events, next, false)
  {
    hide MatchPattern, MatchMouse, MouseStep, ScanKey, Says;
    SaidIsUnderstood(report, record, more);
    SaidIsNoStatus(report, record, more);
  }

  /** No mouse report is, or begins, a status report. */
  lemma {:induction false} SaidIsNoStatus(report: Bytes, record: MouseRecord, more: Bytes)
    requires Says(report, record)
    ensures report != [] && report[0] == ESC && MatchPattern(DSR, report + more) == NoMatch
  {
    hide MatchFrom, Readable, Signed, ScanInt;
    var input := report + more;
    if n, c, d, release :| Says1006(report, record, n, c, d, release) {
      NumberedIsLaid(true, n, c, d, if release then 'm' as int else 'M' as int, more);
      NoStatus(input);
    } else if n, c, d :| Says1015(report, record, n, c, d) {
      NumberedIsLaid(false, n, c, d, 'M' as int, more);
      LaidIsNoStatus(input, n, c, d);
    } else {
      NoStatus(input);
    }
  }

  lemma {:induction false} NoStatus(input: Bytes)
    requires |input| > 2 && input[0] == ESC && input[1] == '[' as int && !IsDigit(input[2])
    ensures MatchPattern(DSR, input) == NoMatch
  {
    hide MatchFrom;
    StepMatch(DSR, 0, input, 0, []);
    StepMatch(DSR, 1, input, 1, [] + [ESC as int]);
    StepMatch(DSR, 2, input, 2, [] + [ESC as int] + ['[' as int]);
  }

  lemma {:induction false} LaidIsNoStatus(input: Bytes, n: Bytes, c: Bytes, d: Bytes)
    requires Introduced(input, false) && Laid(input, 2, n, c, d)
    ensures MatchPattern(DSR, input) == NoMatch
  {
    hide MatchFrom, ScanInt, Signed, Fits;
    var v2 := [] + [ESC as int] + ['[' as int];
    StepMatch(DSR, 0, input, 0, []);
    StepMatch(DSR, 1, input, 1, [] + [ESC as int]);
    StepMatch(DSR, 2, input, 2, v2);
    NumberStands(n, input, 2);
    var v3 := v2 + [ValueFrom(0, n)];
    var x := 2 + |n| + 1;
    StepMatch(DSR, 3, input, x - 1, v3);
    StepMatch(DSR, 4, input, x, v3 + [';' as int]);
    assert input[x] == input[x..x + |c|][0];
    if c[0] == '-' as int {
      NoNumber(input, x);
    } else {
      NumberStands(c, input, x);
      LastMatch(DSR, input, x + |c|, v3 + [';' as int] + [ValueFrom(0, c)]);
    }
  }
}
