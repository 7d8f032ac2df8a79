/** The byte half of the terminal oracle: UTF-8, escape, CSI and OSC framing around the screen's control functions. */
module VtParser {
  import opened Basics
  import opened VtScreen

  const MAX_CSI := 128
  const MAX_OSC := 1024
  const MAX_PARAMETERS := 32

  datatype Parser =
    | Text
    | Utf8(scalar: nat, minimum: nat, remaining: nat)
    | Escape
    | Csi(sequence: Bytes)
    | Osc(sequence: Bytes)
    | OscEscape(sequence: Bytes)

  datatype Vt = Vt(screen: Screen, parser: Parser, replies: seq<Bytes>)

  ghost predicate VtOk(vt: Vt) {
    ScreenOk(vt.screen) && (vt.parser.Utf8? ==> 1 <= vt.parser.remaining <= 3)
  }

  // ---------- Numbers ----------

  function Decimal(n: nat): Bytes {
    if n < 10 then ['0' as int + n] else Decimal(n / 10) + ['0' as int + n % 10]
  }

  /** Read `;`-separated numbers, `number` and `read` being what has been seen so far. */
  function ParametersFrom(text: Bytes, number: nat, read: seq<nat>): (r: Option<seq<nat>>)
    ensures r.Some? ==> |r.value| > |read|
    decreases |text|
  {
    if text == [] then Some(read + [number])
    else if text[0] == ';' as int then
      if |read| + 1 > MAX_PARAMETERS then None else ParametersFrom(text[1..], 0, read + [number])
    else if IsDigit(text[0]) && number <= 1000 then
      ParametersFrom(text[1..], number * 10 + (text[0] - '0' as int), read)
    else None
  }

  predicate IsPrivate(sequence: Bytes) {
    sequence != [] && sequence[0] == '?' as int
  }

  function Parameters(sequence: Bytes): (r: Option<seq<nat>>)
    ensures r.Some? ==> |r.value| >= 1
  {
    ParametersFrom(if IsPrivate(sequence) then sequence[1..] else sequence, 0, [])
  }

  // ---------- Dispatch ----------

  function CursorReport(x: nat, y: nat): Bytes {
    [ESC, '[' as int] + Decimal(y + 1) + [';' as int] + Decimal(x + 1) + ['R' as int]
  }

  function Dispatch(vt: Vt, sequence: Bytes, final: Byte): (r: Option<Vt>)
    requires ScreenOk(vt.screen)
    ensures r.Some? ==> VtOk(r.value)
  {
    var s := vt.screen;
    var params := Parameters(sequence);
    if params.None? then None
    else
      var p := params.value;
      if IsPrivate(sequence) then
        var t := PrivateMode(s, final, p);
        if t.None? then None else Some(vt.(screen := t.value, parser := Text))
      else if final == 'm' as int then
        var pen := Sgr(s.pen, p);
        if pen.None? then None else Some(vt.(screen := s.(pen := pen.value), parser := Text))
      else if final == 'n' as int && p == [6] then
        Some(vt.(replies := vt.replies + [CursorReport(s.x, s.y)], parser := Text))
      else
        var t := Control(s, final, p);
        if t.None? then None else Some(vt.(screen := t.value, parser := Text))
  }

  predicate OscOk(sequence: Bytes) {
    |sequence| >= 2 && sequence[0] in {'0' as int, '2' as int} && sequence[1] == ';' as int
  }

  function PutText(vt: Vt, ch: nat): (r: Option<Vt>)
    requires ScreenOk(vt.screen)
    ensures r.Some? ==> VtOk(r.value)
  {
    var t := Put(vt.screen, ch);
    if t.None? then None else Some(vt.(screen := t.value, parser := Text))
  }

  /** A byte outside any sequence. */
  function ConsumeText(vt: Vt, byte: Byte): (r: Option<Vt>)
    requires ScreenOk(vt.screen) && vt.parser.Text?
    ensures r.Some? ==> VtOk(r.value)
  {
    var s := vt.screen;
    if 0xc2 <= byte <= 0xdf then Some(vt.(parser := Utf8(byte % 0x20, 0x80, 1)))
    else if 0xe0 <= byte <= 0xef then Some(vt.(parser := Utf8(byte % 0x10, 0x800, 2)))
    else if 0xf0 <= byte <= 0xf4 then Some(vt.(parser := Utf8(byte % 8, 0x1_0000, 3)))
    else if byte >= 0x80 then None
    else if byte == ESC then Some(vt.(parser := Escape))
    else if byte == 0x0d then Some(vt.(screen := CarriageReturn(s)))
    else if byte == 0x0a then Some(vt.(screen := LineFeed(s)))
    else if byte == 0x08 then Some(vt.(screen := Backspace(s)))
    else if byte == 0x09 then Some(vt.(screen := Tab(s)))
    else if 0x20 <= byte < 0x7f then PutText(vt, byte)
    else if byte == 0 || byte == 7 || byte == 0x7f then Some(vt)
    else None
  }

  function ConsumeUtf8(vt: Vt, byte: Byte): (r: Option<Vt>)
    requires VtOk(vt) && vt.parser.Utf8?
    ensures r.Some? ==> VtOk(r.value)
  {
    var scalar := vt.parser.scalar * 0x40 + byte % 0x40;
    if !(0x80 <= byte < 0xc0) then None
    else if vt.parser.remaining > 1 then
      Some(vt.(parser := Utf8(scalar, vt.parser.minimum, vt.parser.remaining - 1)))
    else if scalar < vt.parser.minimum || scalar > 0x10ffff || 0xd800 <= scalar <= 0xdfff then None
    else PutText(vt, scalar)
  }

  /** One byte. `None` is the oracle throwing. */
  function Consume(vt: Vt, byte: Byte): (r: Option<Vt>)
    requires VtOk(vt)
    ensures r.Some? ==> VtOk(r.value)
  {
    match vt.parser
    case Text => ConsumeText(vt, byte)
    case Utf8(_, _, _) => ConsumeUtf8(vt, byte)
    case Escape =>
      if byte == '[' as int then Some(vt.(parser := Csi([])))
      else if byte == ']' as int then Some(vt.(parser := Osc([])))
      else None
    case Csi(sequence) =>
      if 0x40 <= byte <= 0x7e then Dispatch(vt, sequence, byte)
      else if |sequence| >= MAX_CSI then None
      else Some(vt.(parser := Csi(sequence + [byte])))
    case Osc(sequence) =>
      if byte == 7 then if OscOk(sequence) then Some(vt.(parser := Text)) else None
      else if byte == ESC then Some(vt.(parser := OscEscape(sequence)))
      else if |sequence| >= MAX_OSC then None
      else Some(vt.(parser := Osc(sequence + [byte])))
    case OscEscape(sequence) =>
      if byte == '\\' as int && OscOk(sequence) then Some(vt.(parser := Text)) else None
  }

  function Feed(vt: Vt, bytes: Bytes): (r: Option<Vt>)
    requires VtOk(vt)
    ensures r.Some? ==> VtOk(r.value)
    decreases |bytes|
  {
    if bytes == [] then Some(vt)
    else
      var next := Consume(vt, bytes[0]);
      if next.None? then None else Feed(next.value, bytes[1..])
  }

  /** The stream may end here. */
  predicate Finished(vt: Vt) {
    vt.parser.Text?
  }

  // ---------- Runs ----------

  datatype Event = Output(bytes: Bytes) | Resized(columns: int, rows: int)

  function Apply(vt: Vt, event: Event): (r: Option<Vt>)
    requires VtOk(vt)
    ensures r.Some? ==> VtOk(r.value)
    ensures r.Some? && event.Resized? ==>
      r.value.screen.width == event.columns && r.value.screen.height == event.rows && r.value.parser == vt.parser
  {
    match event
    case Output(bytes) => Feed(vt, bytes)
    case Resized(columns, rows) =>
      var s := Resize(vt.screen, columns, rows);
      if s.None? then None else Some(vt.(screen := s.value))
  }

  function Run(vt: Vt, events: seq<Event>): (r: Option<Vt>)
    requires VtOk(vt)
    ensures r.Some? ==> VtOk(r.value)
    decreases |events|
  {
    if events == [] then Some(vt)
    else
      var next := Apply(vt, events[0]);
      if next.None? then None else Run(next.value, events[1..])
  }

  function Start(columns: int, rows: int): (vt: Vt)
    requires GeometryOk(columns, rows)
    ensures VtOk(vt)
  {
    Vt(Initial(columns, rows), Text, [])
  }
}
