/** The terminal's answer to a status request is what the scanner takes for one, and nothing else is. */
module CursorReports {
  import opened Basics
  import opened KeyBindings
  import opened InputPatterns
  import opened ConsoleInput
  import P = VtParser

  ghost predicate Digits(text: Bytes) {
    1 <= |text| <= MAX_DIGITS && forall i :: 0 <= i < |text| ==> IsDigit(text[i])
  }

  function Report(a: Bytes, b: Bytes): Bytes {
    [ESC, '[' as int] + a + [';' as int] + b + ['R' as int]
  }

  // ---------- Digits ----------

  lemma {:induction false} DigitsScanned(input: Bytes, pos: nat, count: nat, left: nat, value: nat)
    requires 1 <= count <= left && pos + count < |input| && !IsDigit(input[pos + count])
    requires forall i :: pos <= i < pos + count ==> IsDigit(input[i])
    ensures ScanDigits(input, pos, left, value).At? && ScanDigits(input, pos, left, value).pos == pos + count
    decreases count
  {
    if count > 1 {
      assert IsDigit(input[pos + 1]);
      DigitsScanned(input, pos + 1, count - 1, left - 1, value * 10 + (input[pos] - '0' as int));
    }
  }

  /** The number that `digits` make behind the digits of `value`. */
  function ValueFrom(value: nat, digits: Bytes): nat
    requires forall i :: 0 <= i < |digits| ==> IsDigit(digits[i])
    decreases |digits|
  {
    if digits == [] then value
    else
      assert IsDigit(digits[0]);
      ValueFrom(value * 10 + (digits[0] - '0' as int), digits[1..])
  }

  lemma {:induction false} DigitsRead(input: Bytes, pos: nat, left: nat, value: nat)
    requires pos < |input| && IsDigit(input[pos])
    ensures var r := ScanDigits(input, pos, left, value);
      r.At? ==>
        && 1 <= r.pos - pos <= left && (forall i :: pos <= i < r.pos ==> IsDigit(input[i])) && !IsDigit(input[r.pos])
        && r.value == ValueFrom(value, input[pos..r.pos])
    decreases |input| - pos
  {
    var next := value * 10 + (input[pos] - '0' as int);
    if left > 0 && pos + 1 < |input| && IsDigit(input[pos + 1]) {
      DigitsRead(input, pos + 1, left - 1, next);
      var r := ScanDigits(input, pos, left, value);
      if r.At? {
        assert input[pos..r.pos][1..] == input[pos + 1..r.pos];
      }
    } else if left > 0 && pos + 1 < |input| {
      assert input[pos..pos + 1][1..] == [];
    }
  }

  // ---------- Reports ----------

  lemma {:induction false} StepMatch(p: Pattern, k: nat, input: Bytes, pos: nat, values: seq<int>)
    requires k < |p.items| && pos < |input|
    ensures var scan := ScanItem(p.items[k], input, pos);
      MatchFrom(p, k, input, pos, values) ==
      if scan.At? then MatchFrom(p, k + 1, input, scan.pos, values + [scan.value]) else Continue(scan)
  {
  }

  /** The places a match has been through. */
  ghost predicate WentBy(input: Bytes, semi: nat, last: nat) {
    && 2 < semi && semi + 1 < last < |input| && input[0] == ESC && input[1] == '[' as int
    && ScanInt(input, 2).At? && ScanInt(input, 2).pos == semi && input[semi] == ';' as int
    && ScanInt(input, semi + 1).At? && ScanInt(input, semi + 1).pos == last && input[last] == 'R' as int
  }

  lemma {:induction false} ReportIsMatched(a: Bytes, b: Bytes, more: Bytes)
    requires Digits(a) && Digits(b)
    ensures var m := MatchPattern(DSR, Report(a, b) + more); m.Matched? && m.length == |Report(a, b)|
  {
    hide MatchFrom, ScanDigits;
    var input := Report(a, b) + more;
    var semi, last := 2 + |a|, 3 + |a| + |b|;
    forall i | 0 <= i < |a|
      ensures input[2 + i] == a[i]
    {
    }
    forall i | 0 <= i < |b|
      ensures input[semi + 1 + i] == b[i]
    {
    }
    assert forall i :: 2 <= i < semi ==> input[i] == a[i - 2];
    assert forall i :: semi + 1 <= i < last ==> input[i] == b[i - semi - 1];
    assert input[semi] == ';' as int && input[last] == 'R' as int;
    DigitsScanned(input, 2, |a|, MAX_DIGITS, 0);
    DigitsScanned(input, semi + 1, |b|, MAX_DIGITS, 0);
    Steps(input, semi, last);
  }

  lemma {:induction false} Steps(input: Bytes, semi: nat, last: nat)
    requires WentBy(input, semi, last)
    ensures MatchPattern(DSR, input).Matched? && MatchPattern(DSR, input).length == last + 1
  {
    hide MatchFrom, ScanInt;
    var v0, v1, v2 := [ESC as int], [ESC as int, '[' as int], ScanInt(input, 2).value;
    StepMatch(DSR, 0, input, 0, []);
    assert [] + [ESC as int] == v0;
    StepMatch(DSR, 1, input, 1, v0);
    assert v0 + ['[' as int] == v1;
    StepMatch(DSR, 2, input, 2, v1);
    StepMatch(DSR, 3, input, semi, v1 + [v2]);
    StepMatch(DSR, 4, input, semi + 1, v1 + [v2] + [';' as int]);
    LastMatch(DSR, input, last, v1 + [v2] + [';' as int] + [ScanInt(input, semi + 1).value]);
  }

  lemma {:induction false} LastMatch(p: Pattern, input: Bytes, pos: nat, values: seq<int>)
    requires pos < |input| && p.last != []
    ensures MatchFrom(p, |p.items|, input, pos, values) ==
      if input[pos] in p.last then Matched(pos + 1, values + [input[pos]]) else NoMatch
  {
  }

  lemma {:induction false} MatchWentBy(input: Bytes) returns (semi: nat, last: nat)
    requires input != [] && MatchPattern(DSR, input).Matched?
    ensures WentBy(input, semi, last) && MatchPattern(DSR, input).length == last + 1
  {
    hide MatchFrom, ScanInt;
    var v0, v1 := [ESC as int], [ESC as int, '[' as int];
    StepMatch(DSR, 0, input, 0, []);
    assert [] + [ESC as int] == v0;
    StepMatch(DSR, 1, input, 1, v0);
    assert v0 + ['[' as int] == v1;
    StepMatch(DSR, 2, input, 2, v1);
    var first := ScanInt(input, 2);
    semi := first.pos;
    StepMatch(DSR, 3, input, semi, v1 + [first.value]);
    StepMatch(DSR, 4, input, semi + 1, v1 + [first.value] + [';' as int]);
    var second := ScanInt(input, semi + 1);
    last := second.pos;
    LastMatch(DSR, input, last, v1 + [first.value] + [';' as int] + [second.value]);
  }

  lemma {:induction false} MatchIsReport(input: Bytes) returns (a: Bytes, b: Bytes)
    requires input != [] && MatchPattern(DSR, input).Matched?
    ensures Digits(a) && Digits(b) && input[..MatchPattern(DSR, input).length] == Report(a, b)
  {
    hide MatchPattern, ScanDigits;
    var semi, last := MatchWentBy(input);
    DigitsRead(input, 2, MAX_DIGITS, 0);
    DigitsRead(input, semi + 1, MAX_DIGITS, 0);
    a, b := input[2..semi], input[semi + 1..last];
  }

  // ---------- The terminal's reports ----------

  lemma {:induction false} DecimalDigits(n: nat, count: nat)
    requires 1 <= count && n < Power10(count)
    ensures 1 <= |P.Decimal(n)| <= count && forall i :: 0 <= i < |P.Decimal(n)| ==> IsDigit(P.Decimal(n)[i])
  {
    if n >= 10 {
      DecimalDigits(n / 10, count - 1);
    }
  }

  function Power10(count: nat): nat {
    if count == 0 then 1 else 10 * Power10(count - 1)
  }

  /**
    Whatever follows it, a report from any terminal under ten million cells wide is consumed whole and makes no event.
   */
  lemma {:induction false} ReportIsConsumed(
    env: Env, bindings: Bindings, mouse: MouseState, x: nat, y: nat, more: Bytes, isEof: bool)
    requires x + 1 < Power10(MAX_DIGITS) && y + 1 < Power10(MAX_DIGITS)
    ensures ConsoleInput.ScanInput(env, bindings, mouse, P.CursorReport(x, y) + more, isEof) ==
      Consumed(|P.CursorReport(x, y)|, [], mouse, true)
  {
    hide P.Decimal, MatchPattern;
    DecimalDigits(y + 1, MAX_DIGITS);
    DecimalDigits(x + 1, MAX_DIGITS);
    assert P.CursorReport(x, y) == Report(P.Decimal(y + 1), P.Decimal(x + 1));
    ReportIsMatched(P.Decimal(y + 1), P.Decimal(x + 1), more);
  }
}
