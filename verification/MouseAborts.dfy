/**
  The one input that kills the agent: a coordinate, of a mouse report or of what only begins like one, that does not
  fit 16 bits.
 */
module MouseAborts {
  import opened Basics
  import opened KeyBindings
  import opened InputPatterns
  import opened ConsoleInput
  import opened CursorReports

  // ---------- Numbers ----------

  ghost predicate IsSigned(text: Bytes) {
    text != [] && if text[0] == '-' as int then Digits(text[1..]) else Digits(text)
  }

  /** The number written. */
  ghost function Signed(text: Bytes): int
    requires IsSigned(text)
  {
    if text[0] == '-' as int then 0 - ValueFrom(0, text[1..]) else ValueFrom(0, text)
  }

  /** A number stands at `at`, to its last digit and with something behind it. */
  ghost predicate Stands(text: Bytes, input: Bytes, at: nat)
    ensures Stands(text, input, at) ==> at + |text| < |input|
  {
    at + |text| < |input| && input[at..at + |text|] == text && !IsDigit(input[at + |text|])
  }

  // ---------- The inputs ----------

  ghost predicate Fits(text: Bytes)
    requires IsSigned(text)
  {
    -32767 <= Signed(text) <= 32768
  }

  /** How a mouse report begins, with its flags `n`. */
  function Opening(angle: bool, n: Bytes): Bytes {
    [ESC, '[' as int] + (if angle then ['<' as int] else []) + n + [';' as int]
  }

  ghost predicate FarAt(input: Bytes, at: nat) {
    exists c :: IsSigned(c) && Stands(c, input, at) && !Fits(c)
  }

  /** Of one or two coordinates at `at` the last one does not fit. */
  ghost predicate FarPair(input: Bytes, at: nat) {
    || FarAt(input, at)
    || exists c :: IsSigned(c) && Stands(c, input, at) && input[at + |c|] == ';' as int && FarAt(input, at + |c| + 1)
  }

  ghost predicate TooFar(input: Bytes) {
    exists angle, n :: Digits(n) && Opening(angle, n) <= input && FarPair(input, |Opening(angle, n)|)
  }

  ghost predicate IsReport(input: Bytes) {
    exists a, b :: Digits(a) && Digits(b) && Report(a, b) <= input
  }

  // ---------- Scanning numbers ----------

  lemma {:induction false} NumberRead(input: Bytes, pos: nat)
    requires pos < |input|
    ensures var r := ScanInt(input, pos);
      r.At? ==>
        && Digits(input[pos..r.pos]) && Stands(input[pos..r.pos], input, pos)
        && r.value == ValueFrom(0, input[pos..r.pos])
  {
    if IsDigit(input[pos]) {
      DigitsRead(input, pos, MAX_DIGITS, 0);
    }
  }

  lemma {:induction false} NumberStands(text: Bytes, input: Bytes, pos: nat)
    requires Digits(text) && Stands(text, input, pos)
    ensures ScanInt(input, pos) == At(pos + |text|, ValueFrom(0, text))
  {
    hide ScanDigits;
    assert forall i :: pos <= i < pos + |text| ==> input[i] == input[pos..pos + |text|][i - pos] == text[i - pos];
    DigitsScanned(input, pos, |text|, MAX_DIGITS, 0);
    DigitsRead(input, pos, MAX_DIGITS, 0);
  }

  lemma {:induction false} SignedRead(input: Bytes, pos: nat)
    requires pos < |input|
    ensures var r := ScanSignedInt(input, pos);
      r.At? ==>
        && IsSigned(input[pos..r.pos]) && Stands(input[pos..r.pos], input, pos) && r.value == Signed(input[pos..r.pos])
    ensures !ScanSignedInt(input, pos).Abort?
  {
    hide ScanInt;
    NeverAborts(input, pos);
    if input[pos] != '-' as int {
      NumberRead(input, pos);
      var r := ScanInt(input, pos);
      if r.At? {
        assert input[pos..r.pos][0] == input[pos];
      }
    } else if pos + 1 < |input| {
      NumberRead(input, pos + 1);
      NeverAborts(input, pos + 1);
      var r := ScanInt(input, pos + 1);
      if r.At? {
        assert input[pos..r.pos][1..] == input[pos + 1..r.pos];
      }
    }
  }

  lemma {:induction false} NeverAborts(input: Bytes, pos: nat)
    requires pos < |input|
    ensures !ScanInt(input, pos).Abort?
  {
    if IsDigit(input[pos]) {
      DigitsNeverAbort(input, pos, MAX_DIGITS, 0);
    }
  }

  lemma {:induction false} DigitsNeverAbort(input: Bytes, pos: nat, left: nat, value: nat)
    requires pos < |input| && IsDigit(input[pos])
    ensures !ScanDigits(input, pos, left, value).Abort?
    decreases |input| - pos
  {
    if left > 0 && pos + 1 < |input| && IsDigit(input[pos + 1]) {
      DigitsNeverAbort(input, pos + 1, left - 1, value * 10 + (input[pos] - '0' as int));
    }
  }

  lemma {:induction false} SignedStands(text: Bytes, input: Bytes, pos: nat)
    requires IsSigned(text) && Stands(text, input, pos)
    ensures ScanSignedInt(input, pos) == At(pos + |text|, Signed(text))
  {
    hide ScanInt;
    assert input[pos..pos + |text|][0] == input[pos];
    if text[0] == '-' as int {
      assert input[pos + 1..pos + |text|] == input[pos..pos + |text|][1..];
      NumberStands(text[1..], input, pos + 1);
    } else {
      NumberStands(text, input, pos);
    }
  }

  /** Scanning a coordinate aborts exactly where one stands that does not fit, and succeeds where one does that fits. */
  lemma {:induction false} CoordinateScan(input: Bytes, pos: nat)
    requires pos < |input|
    ensures ScanCoordinate(input, pos).Abort? <==> FarAt(input, pos)
    ensures ScanCoordinate(input, pos).At? ==>
      var c := input[pos..ScanCoordinate(input, pos).pos]; IsSigned(c) && Stands(c, input, pos)
  {
    hide ScanSignedInt, Signed;
    SignedRead(input, pos);
    var r := ScanSignedInt(input, pos);
    if r.At? {
      assert Fits(input[pos..r.pos]) <==> FitsShort(r.value - 1);
    }
    if c :| IsSigned(c) && Stands(c, input, pos) && !Fits(c) {
      SignedStands(c, input, pos);
    }
  }

  lemma {:induction false} CoordinateStands(c: Bytes, input: Bytes, pos: nat)
    requires IsSigned(c) && Stands(c, input, pos)
    ensures ScanCoordinate(input, pos) == if Fits(c) then At(pos + |c|, Signed(c) - 1) else Abort
  {
    SignedStands(c, input, pos);
  }

  // ---------- Matching reports ----------

  function Rest(): seq<Item> {
    [Number, Semicolon(), Coordinate, Semicolon(), Coordinate]
  }

  /** A match that has come to the coordinates. */
  lemma {:induction false} PairAborts(p: Pattern, k: nat, input: Bytes, pos: nat, values: seq<int>)
    requires k + 3 == |p.items| && p.items[k..] == Rest()[2..] && p.last != [] && pos < |input|
    ensures MatchFrom(p, k, input, pos, values).Aborted? <==> FarPair(input, pos)
  {
    hide MatchFrom, ScanCoordinate, FarAt, Stands, IsSigned;
    assert p.items[k] == p.items[k..][0] && p.items[k + 1] == p.items[k..][1] && p.items[k + 2] == p.items[k..][2];
    CoordinateScan(input, pos);
    StepMatch(p, k, input, pos, values);
    var first := ScanCoordinate(input, pos);
    if c :| IsSigned(c) && Stands(c, input, pos) && input[pos + |c|] == ';' as int && FarAt(input, pos + |c| + 1) {
      CoordinateStands(c, input, pos);
      FarInside(input, pos + |c| + 1);
    }
    if first.At? {
      var values1 := values + [first.value];
      StepMatch(p, k + 1, input, first.pos, values1);
      if input[first.pos] == ';' as int && first.pos + 1 < |input| {
        CoordinateScan(input, first.pos + 1);
        StepMatch(p, k + 2, input, first.pos + 1, values1 + [';' as int]);
        var second := ScanCoordinate(input, first.pos + 1);
        if second.At? {
          LastMatch(p, input, second.pos, values1 + [';' as int] + [second.value]);
        }
        assert |input[pos..first.pos]| == first.pos - pos;
      }
    }
  }

  lemma {:induction false} FarInside(input: Bytes, at: nat)
    requires FarAt(input, at)
    ensures at < |input|
  {
  }

  /** A match that has come to the number before them. */
  lemma {:induction false} RestAborts(p: Pattern, k: nat, input: Bytes, pos: nat, values: seq<int>)
    requires k + 5 == |p.items| && p.items[k..] == Rest() && p.last != [] && pos < |input|
    ensures MatchFrom(p, k, input, pos, values).Aborted? <==>
      exists n :: Digits(n) && PairBehind(input, pos, n)
  {
    hide MatchFrom, ScanInt, FarPair, Digits, Stands;
    assert p.items[k] == p.items[k..][0] && p.items[k + 1] == p.items[k..][1];
    assert p.items[k + 2..] == p.items[k..][2..];
    StepMatch(p, k, input, pos, values);
    NumberRead(input, pos);
    NeverAborts(input, pos);
    var r := ScanInt(input, pos);
    if n :| Digits(n) && PairBehind(input, pos, n) {
      NumberStands(n, input, pos);
      PairInside(input, pos + |n| + 1);
    }
    if r.At? {
      StepMatch(p, k + 1, input, r.pos, values + [r.value]);
      if input[r.pos] == ';' as int && r.pos + 1 < |input| {
        PairAborts(p, k + 2, input, r.pos + 1, values + [r.value] + [';' as int]);
        assert |input[pos..r.pos]| == r.pos - pos;
      }
    }
  }

  lemma {:induction false} PairInside(input: Bytes, at: nat)
    requires FarPair(input, at)
    ensures at < |input|
  {
  }

  /** Where a report of either kind with a coordinate out of range begins. */
  ghost predicate FarReport(input: Bytes, angle: bool) {
    exists n :: Digits(n) && Opening(angle, n) <= input && FarPair(input, |Opening(angle, n)|)
  }

  function Introduction(angle: bool): nat {
    if angle then 3 else 2
  }

  predicate Introduced(input: Bytes, angle: bool) {
    && |input| > Introduction(angle) && input[0] == ESC && input[1] == '[' as int && (angle ==> input[2] == '<' as int)
  }

  ghost predicate PairBehind(input: Bytes, at: nat, n: Bytes) {
    Stands(n, input, at) && input[at + |n|] == ';' as int && FarPair(input, at + |n| + 1)
  }

  lemma {:induction false} OpeningStands(input: Bytes, angle: bool, n: Bytes)
    requires Digits(n)
    ensures Opening(angle, n) <= input && FarPair(input, |Opening(angle, n)|) <==>
      Introduced(input, angle) && PairBehind(input, Introduction(angle), n)
  {
    hide FarPair;
    var at, front := Introduction(angle), Opening(angle, n);
    if front <= input {
      assert forall i :: 0 <= i < |front| ==> input[i] == front[i];
      assert input[at..at + |n|] == n;
    }
    if Introduced(input, angle) && Stands(n, input, at) && input[at + |n|] == ';' as int {
      assert input[..|front|] == input[..at] + input[at..at + |n|] + [input[at + |n|]];
      assert input[..at] == [ESC, '[' as int] + if angle then ['<' as int] else [];
    }
  }

  lemma {:induction false} Match1015Aborts(input: Bytes)
    requires input != []
    ensures MatchPattern(MOUSE_1015, input).Aborted? <==> FarReport(input, false)
  {
    hide MatchFrom, FarPair, Digits, Opening, Stands;
    forall n | Digits(n)
      ensures Opening(false, n) <= input && FarPair(input, |Opening(false, n)|) <==>
        Introduced(input, false) && PairBehind(input, 2, n)
    {
      OpeningStands(input, false, n);
    }
    StepMatch(MOUSE_1015, 0, input, 0, []);
    if |input| > 1 {
      StepMatch(MOUSE_1015, 1, input, 1, [] + [ESC as int]);
    }
    if |input| > 2 {
      assert MOUSE_1015.items[2..] == Rest();
      RestAborts(MOUSE_1015, 2, input, 2, [] + [ESC as int] + ['[' as int]);
    }
  }

  lemma {:induction false} Match1006Aborts(input: Bytes)
    requires input != []
    ensures MatchPattern(MOUSE_1006, input).Aborted? <==> FarReport(input, true)
  {
    hide MatchFrom, FarPair, Digits, Opening, Stands;
    forall n | Digits(n)
      ensures Opening(true, n) <= input && FarPair(input, |Opening(true, n)|) <==>
        Introduced(input, true) && PairBehind(input, 3, n)
    {
      OpeningStands(input, true, n);
    }
    StepMatch(MOUSE_1006, 0, input, 0, []);
    if |input| > 1 {
      StepMatch(MOUSE_1006, 1, input, 1, [] + [ESC as int]);
    }
    if |input| > 2 {
      StepMatch(MOUSE_1006, 2, input, 2, [] + [ESC as int] + ['[' as int]);
    }
    if |input| > 3 {
      assert MOUSE_1006.items[3..] == Rest();
      RestAborts(MOUSE_1006, 3, input, 3, [] + [ESC as int] + ['[' as int] + ['<' as int]);
    }
  }

  // ---------- Scanning input ----------

  lemma {:induction false} DefaultNeverAborts(input: Bytes)
    requires input != []
    ensures !MatchPattern(MOUSE_DEFAULT, input).Aborted?
  {
    DefaultFrom(0, input, 0, []);
  }

  lemma {:induction false} DefaultFrom(k: nat, input: Bytes, pos: nat, values: seq<int>)
    requires k <= 5 && pos < |input|
    ensures !MatchFrom(MOUSE_DEFAULT, k, input, pos, values).Aborted?
    decreases 5 - k
  {
    if k < 5 {
      var item := MOUSE_DEFAULT.items[k];
      assert item.Literal? || item.Anything?;
      var scan := ScanItem(item, input, pos);
      if scan.At? {
        DefaultFrom(k + 1, input, scan.pos, values + [scan.value]);
      }
    }
  }

  /** An input introduced like the one kind of report is not taken for the other. */
  lemma {:induction false} KindsDiffer(input: Bytes)
    requires FarReport(input, false)
    ensures MatchPattern(MOUSE_1006, input) == NoMatch
  {
    hide MatchFrom, FarPair, Stands;
    var n :| Digits(n) && Opening(false, n) <= input && FarPair(input, |Opening(false, n)|);
    OpeningStands(input, false, n);
    assert input[2] == Opening(false, n)[2] == n[0];
    StepMatch(MOUSE_1006, 0, input, 0, []);
    StepMatch(MOUSE_1006, 1, input, 1, [] + [ESC as int]);
    StepMatch(MOUSE_1006, 2, input, 2, [] + [ESC as int] + ['[' as int]);
  }

  lemma {:induction false} MouseAborts(input: Bytes)
    requires input != []
    ensures MatchMouse(input).AbortMouse? <==> TooFar(input)
  {
    hide MatchPattern, FarPair;
    Match1006Aborts(input);
    Match1015Aborts(input);
    DefaultNeverAborts(input);
    if FarReport(input, false) {
      KindsDiffer(input);
    }
    assert TooFar(input) <==> FarReport(input, true) || FarReport(input, false);
  }

  lemma {:induction false} ReportsAreMatched(input: Bytes)
    requires input != []
    ensures MatchPattern(DSR, input).Matched? <==> IsReport(input)
  {
    hide MatchPattern, Digits;
    if MatchPattern(DSR, input).Matched? {
      var a, b := MatchIsReport(input);
      assert Report(a, b) <= input;
    }
    if a, b :| Digits(a) && Digits(b) && Report(a, b) <= input {
      assert input == Report(a, b) + input[|Report(a, b)|..];
      ReportIsMatched(a, b, input[|Report(a, b)|..]);
    }
  }

  lemma {:induction false} PairBegins(input: Bytes, at: nat) returns (c: Bytes)
    requires FarPair(input, at)
    ensures IsSigned(c) && Stands(c, input, at)
  {
    if FarAt(input, at) {
      c :| IsSigned(c) && Stands(c, input, at) && !Fits(c);
    } else {
      c :| IsSigned(c) && Stands(c, input, at) && input[at + |c|] == ';' as int && FarAt(input, at + |c| + 1);
    }
  }

  /** A number that ends shows whether it is the second one of a status report. */
  lemma {:induction false} SecondNumber(input: Bytes, at: nat, values: seq<int>)
    requires FarPair(input, at) && at < |input|
    ensures !MatchFrom(DSR, 4, input, at, values).Incomplete?
  {
    hide MatchFrom, FarPair;
    StepMatch(DSR, 4, input, at, values);
    var c := PairBegins(input, at);
    assert input[at] == input[at..at + |c|][0];
    if c[0] != '-' as int {
      NumberStands(c, input, at);
      LastMatch(DSR, input, at + |c|, values + [ValueFrom(0, c)]);
    }
  }

  lemma {:induction false} FarIsNoWait(input: Bytes, angle: bool)
    requires FarReport(input, angle)
    ensures !MatchPattern(DSR, input).Incomplete?
  {
    hide MatchFrom, FarPair, ScanInt, Stands;
    var n :| Digits(n) && Opening(angle, n) <= input && FarPair(input, |Opening(angle, n)|);
    OpeningStands(input, angle, n);
    var values := [] + [ESC as int] + ['[' as int];
    StepMatch(DSR, 0, input, 0, []);
    StepMatch(DSR, 1, input, 1, [] + [ESC as int]);
    StepMatch(DSR, 2, input, 2, values);
    if angle {
      NoNumber(input, 2);
    } else {
      NumberStands(n, input, 2);
      PairInside(input, 2 + |n| + 1);
      StepMatch(DSR, 3, input, 2 + |n|, values + [ValueFrom(0, n)]);
      SecondNumber(input, 2 + |n| + 1, values + [ValueFrom(0, n)] + [';' as int]);
    }
  }

  lemma {:induction false} NoNumber(input: Bytes, pos: nat)
    requires pos < |input| && !IsDigit(input[pos])
    ensures ScanInt(input, pos) == Fail
  {
  }

  lemma {:induction false} KeysNeverKill(env: Env, bindings: Bindings, mouse: MouseState, input: Bytes, isEof: bool)
    requires input != []
    ensures !ScanKey(env, bindings, mouse, input, isEof).Died?
  {
    hide Lookup, MappedKey, Character;
  }

  /** The agent dies of an input exactly if it is no status report and holds a coordinate too far. */
  lemma {:induction false} DiesExactlyIfTooFar(
    env: Env, bindings: Bindings, mouse: MouseState, input: Bytes, isEof: bool)
    requires input != []
    ensures ScanInput(env, bindings, mouse, input, isEof).Died? <==> TooFar(input) && !IsReport(input)
  {
    hide MatchPattern, MatchMouse, ScanKey, FarPair, Digits, MouseStep, IsReport;
    ReportsAreMatched(input);
    MouseAborts(input);
    KeysNeverKill(env, bindings, mouse, input, isEof);
    if angle, n :| Digits(n) && Opening(angle, n) <= input && FarPair(input, |Opening(angle, n)|) {
      FarIsNoWait(input, angle);
      assert input[0] == Opening(angle, n)[0];
    }
  }

  // ---------- Examples ----------

  const FORTY_THOUSAND: Bytes := ['4' as int, '0' as int, '0' as int, '0' as int, '0' as int]

  lemma {:induction false} FortyThousand()
    ensures IsSigned(FORTY_THOUSAND) && !Fits(FORTY_THOUSAND)
  {
    var d := FORTY_THOUSAND;
    assert d[1..] == ['0' as int, '0' as int, '0' as int, '0' as int];
    assert d[1..][1..] == ['0' as int, '0' as int, '0' as int];
    assert d[1..][1..][1..] == ['0' as int, '0' as int];
    assert d[1..][1..][1..][1..] == ['0' as int];
    assert ValueFrom(0, d) == ValueFrom(4, d[1..]) == ValueFrom(40, d[1..][1..]) == ValueFrom(400, d[1..][1..][1..]);
    assert ValueFrom(400, d[1..][1..][1..]) == ValueFrom(4000, d[1..][1..][1..][1..]) == ValueFrom(40000, []);
  }

  /** An input that is no mouse report at all: `ESC [ 1 ; 40000 ~`. */
  lemma {:induction false} KeyKills(env: Env, bindings: Bindings, mouse: MouseState, isEof: bool)
    ensures ScanInput(env, bindings, mouse, Opening(false, ['1' as int]) + FORTY_THOUSAND + ['~' as int], isEof) == Died
  {
    hide ScanInput, Signed, IsReport;
    var front := Opening(false, ['1' as int]);
    var input := front + FORTY_THOUSAND + ['~' as int];
    FortyThousand();
    assert input[|front|..|front| + 5] == FORTY_THOUSAND;
    assert Digits(['1' as int]) && Stands(FORTY_THOUSAND, input, |front|);
    assert front <= input && FarAt(input, |front|);
    DiesExactlyIfTooFar(env, bindings, mouse, input, isEof);
    if IsReport(input) {
      ReportsEndInR(input);
    }
  }

  lemma {:induction false} ReportsEndInR(input: Bytes)
    requires IsReport(input)
    ensures 'R' as int in input
  {
    var a, b :| Digits(a) && Digits(b) && Report(a, b) <= input;
    assert input[|Report(a, b)| - 1] == Report(a, b)[|Report(a, b)| - 1];
  }

  /** A mouse report from far to the right: `ESC [ < 0 ; 40000 ; 1 M`. */
  lemma {:induction false} MouseKills(env: Env, bindings: Bindings, mouse: MouseState, isEof: bool)
    ensures var rest := [';' as int, '1' as int, 'M' as int];
      ScanInput(env, bindings, mouse, Opening(true, ['0' as int]) + FORTY_THOUSAND + rest, isEof) == Died
  {
    hide ScanInput, Signed, IsReport;
    var front := Opening(true, ['0' as int]);
    var input := front + FORTY_THOUSAND + [';' as int, '1' as int, 'M' as int];
    FortyThousand();
    assert input[|front|..|front| + 5] == FORTY_THOUSAND;
    assert Digits(['0' as int]) && Stands(FORTY_THOUSAND, input, |front|);
    assert front <= input && FarAt(input, |front|);
    DiesExactlyIfTooFar(env, bindings, mouse, input, isEof);
    if IsReport(input) {
      ReportsEndInR(input);
    }
  }
}
