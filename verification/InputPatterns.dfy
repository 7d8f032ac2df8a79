/** The escape sequences the input scanner recognises, as patterns, and why more input does not change a match. */
module InputPatterns {
  import opened Basics

  // ---------- Escape sequences ----------

  /** One step of a scan: it fails, runs out of input, aborts on a value that does not fit, or goes on at `pos`. */
  datatype Scan = Fail | More | Abort | At(pos: nat, value: int)

  function Advance(input: Bytes, pos: nat, value: int): (r: Scan)
    requires pos < |input|
    ensures r.At? ==> pos < r.pos < |input|
  {
    if pos + 1 == |input| then More else At(pos + 1, value)
  }

  /** At most `left` digits, and at least one byte after them. */
  function ScanDigits(input: Bytes, pos: nat, left: nat, value: nat): (r: Scan)
    requires pos < |input| && IsDigit(input[pos])
    ensures r.At? ==> pos < r.pos < |input|
    decreases |input| - pos
  {
    if left == 0 then Fail
    else
      var next := value * 10 + (input[pos] - '0' as int);
      if pos + 1 < |input| && IsDigit(input[pos + 1]) then ScanDigits(input, pos + 1, left - 1, next)
      else Advance(input, pos, next)
  }

  const MAX_DIGITS := 7

  function ScanInt(input: Bytes, pos: nat): (r: Scan)
    requires pos < |input|
    ensures r.At? ==> pos < r.pos < |input|
  {
    if IsDigit(input[pos]) then ScanDigits(input, pos, MAX_DIGITS, 0) else Fail
  }

  function ScanSignedInt(input: Bytes, pos: nat): (r: Scan)
    requires pos < |input|
    ensures r.At? ==> pos < r.pos < |input|
  {
    if input[pos] != '-' as int then ScanInt(input, pos)
    else if pos + 1 == |input| then More
    else
      var r := ScanInt(input, pos + 1);
      if r.At? then At(r.pos, -r.value) else r
  }

  predicate FitsShort(v: int) {
    -0x8000 <= v < 0x8000
  }

  /** A coordinate counts from one; the original aborts when it does not fit 16 bits. */
  function ScanCoordinate(input: Bytes, pos: nat): (r: Scan)
    requires pos < |input|
    ensures r.At? ==> pos < r.pos < |input|
  {
    var r := ScanSignedInt(input, pos);
    if !r.At? then r else if FitsShort(r.value - 1) then At(r.pos, r.value - 1) else Abort
  }

  datatype Item = Literal(byte: Byte) | Number | Coordinate | Anything

  function ScanItem(item: Item, input: Bytes, pos: nat): (r: Scan)
    requires pos < |input|
    ensures r.At? ==> pos < r.pos < |input|
  {
    match item
    case Literal(byte) => if input[pos] == byte then Advance(input, pos, byte) else Fail
    case Number => ScanInt(input, pos)
    case Coordinate => ScanCoordinate(input, pos)
    case Anything => Advance(input, pos, input[pos])
  }

  /** A sequence: items, each followed by something, and a last byte, any byte if no particular one is asked for. */
  datatype Pattern = Pattern(items: seq<Item>, last: seq<Byte>)

  datatype Match = NoMatch | Incomplete | Aborted | Matched(length: nat, values: seq<int>)

  function Continue(scan: Scan): Match
    requires !scan.At?
  {
    match scan
    case Fail => NoMatch
    case More => Incomplete
    case Abort => Aborted
  }

  function MatchFrom(p: Pattern, k: nat, input: Bytes, pos: nat, values: seq<int>): (r: Match)
    requires pos < |input| && k <= |p.items|
    ensures r.Matched? ==> pos < r.length <= |input| && |r.values| == |values| + |p.items| - k + 1
    decreases |p.items| - k
  {
    if k == |p.items| then
      if p.last == [] || input[pos] in p.last then Matched(pos + 1, values + [input[pos]]) else NoMatch
    else
      var scan := ScanItem(p.items[k], input, pos);
      if scan.At? then MatchFrom(p, k + 1, input, scan.pos, values + [scan.value]) else Continue(scan)
  }

  function MatchPattern(p: Pattern, input: Bytes): (r: Match)
    requires input != []
    ensures r.Matched? ==> 0 < r.length <= |input| && |r.values| == |p.items| + 1
  {
    MatchFrom(p, 0, input, 0, [])
  }

  function Semicolon(): Item {
    Literal(';' as int)
  }

  const DSR := Pattern([Literal(ESC), Literal('[' as int), Number, Semicolon(), Number], ['R' as int])

  const MOUSE_1006 :=
    Pattern(
      [Literal(ESC), Literal('[' as int), Literal('<' as int), Number, Semicolon(), Coordinate, Semicolon(),
       Coordinate],
      ['M' as int, 'm' as int])

  const MOUSE_1015 :=
    Pattern([Literal(ESC), Literal('[' as int), Number, Semicolon(), Coordinate, Semicolon(), Coordinate], ['M' as int])

  const MOUSE_DEFAULT := Pattern([Literal(ESC), Literal('[' as int), Literal('M' as int), Anything, Anything], [])

  datatype MouseRecord = MouseRecord(flags: int, x: int, y: int, release: bool)

  datatype MouseMatch = NoMouse | MoreMouse | AbortMouse | Mouse(length: nat, record: MouseRecord)

  function FailedMouse(m: Match): MouseMatch
    requires m.Incomplete? || m.Aborted?
  {
    if m.Incomplete? then MoreMouse else AbortMouse
  }

  function MatchMouse(input: Bytes): (r: MouseMatch)
    requires input != []
    ensures r.Mouse? ==> 0 < r.length <= |input|
  {
    var m1 := MatchPattern(MOUSE_1006, input);
    if m1.Matched? then
      Mouse(m1.length, MouseRecord(m1.values[3], m1.values[5], m1.values[7], m1.values[8] == 'm' as int))
    else if m1 != NoMatch then FailedMouse(m1)
    else
      var m2 := MatchPattern(MOUSE_1015, input);
      if m2.Matched? then Mouse(m2.length, MouseRecord(m2.values[2] - 32, m2.values[4], m2.values[6], false))
      else if m2 != NoMatch then FailedMouse(m2)
      else
        var m3 := MatchPattern(MOUSE_DEFAULT, input);
        if m3.Matched? then
          Mouse(m3.length, MouseRecord((m3.values[3] - 32) % 256, (m3.values[4] - '!' as int) % 256,
                                       (m3.values[5] - '!' as int) % 256, false))
        else if m3 != NoMatch then FailedMouse(m3)
        else NoMouse
  }

  // ---------- More input does not change a result ----------

  lemma {:induction false} DigitsAreStable(input: Bytes, more: Bytes, pos: nat, left: nat, value: nat)
    requires pos < |input| && IsDigit(input[pos])
    ensures ScanDigits(input, pos, left, value) != More ==>
      ScanDigits(input + more, pos, left, value) == ScanDigits(input, pos, left, value)
    decreases |input| - pos
  {
    if left > 0 && pos + 1 < |input| && IsDigit(input[pos + 1]) {
      DigitsAreStable(input, more, pos + 1, left - 1, value * 10 + (input[pos] - '0' as int));
    }
  }

  lemma {:induction false} IntIsStable(input: Bytes, more: Bytes, pos: nat)
    requires pos < |input|
    ensures ScanInt(input, pos) != More ==> ScanInt(input + more, pos) == ScanInt(input, pos)
  {
    if IsDigit(input[pos]) {
      DigitsAreStable(input, more, pos, MAX_DIGITS, 0);
    }
  }

  lemma {:induction false} ItemIsStable(item: Item, input: Bytes, more: Bytes, pos: nat)
    requires pos < |input|
    ensures ScanItem(item, input, pos) != More ==> ScanItem(item, input + more, pos) == ScanItem(item, input, pos)
  {
    IntIsStable(input, more, pos);
    if pos + 1 < |input| {
      IntIsStable(input, more, pos + 1);
    }
  }

  lemma {:induction false} MatchIsStable(p: Pattern, k: nat, input: Bytes, more: Bytes, pos: nat, values: seq<int>)
    requires pos < |input| && k <= |p.items|
    ensures MatchFrom(p, k, input, pos, values) != Incomplete ==>
      MatchFrom(p, k, input + more, pos, values) == MatchFrom(p, k, input, pos, values)
    decreases |p.items| - k
  {
    if k < |p.items| {
      ItemIsStable(p.items[k], input, more, pos);
      var scan := ScanItem(p.items[k], input, pos);
      if scan.At? {
        MatchIsStable(p, k + 1, input, more, scan.pos, values + [scan.value]);
      }
    }
  }

  lemma {:induction false} MouseIsStable(input: Bytes, more: Bytes)
    requires input != []
    ensures MatchMouse(input) != MoreMouse ==> MatchMouse(input + more) == MatchMouse(input)
  {
    MatchIsStable(MOUSE_1006, 0, input, more, 0, []);
    MatchIsStable(MOUSE_1015, 0, input, more, 0, []);
    MatchIsStable(MOUSE_DEFAULT, 0, input, more, 0, []);
  }
}
