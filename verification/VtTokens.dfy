/** What the oracle does with the tokens an emitter prints: whole characters and whole control sequences. */
module VtTokens {
  import opened Basics
  import opened VtScreen
  import opened VtParser
  import U = Utf8

  // ---------- Feeding in pieces ----------

  /** The oracle cannot tell how its input was chunked. */
  lemma {:induction false} FeedConcat(vt: Vt, a: Bytes, b: Bytes)
    requires VtOk(vt)
    ensures Feed(vt, a + b) == if Feed(vt, a).Some? then Feed(Feed(vt, a).value, b) else None
    decreases |a|
  {
    if a == [] {
      assert a + b == b;
    } else {
      assert (a + b)[0] == a[0] && (a + b)[1..] == a[1..] + b;
      var next := Consume(vt, a[0]);
      if next.Some? {
        FeedConcat(next.value, a[1..], b);
      }
    }
  }

  lemma {:induction false} FeedOne(vt: Vt, byte: Byte)
    requires VtOk(vt)
    ensures Feed(vt, [byte]) == Consume(vt, byte)
  {
    var next := Consume(vt, byte);
    if next.Some? {
      assert Feed(next.value, []) == next;
    }
  }

  // ---------- Characters ----------

  lemma {:induction false} FeedHead(vt: Vt, bytes: Bytes)
    requires VtOk(vt) && bytes != []
    ensures |bytes| == 1 ==> Feed(vt, bytes) == Consume(vt, bytes[0])
    ensures Feed(vt, bytes) ==
      if Consume(vt, bytes[0]).Some? then Feed(Consume(vt, bytes[0]).value, bytes[1..]) else None
  {
    if |bytes| == 1 {
      FeedOne(vt, bytes[0]);
      assert bytes == [bytes[0]];
    }
  }

  /** What the oracle's decoder makes of the continuation bytes of a character. */
  function Pushed(scalar: nat, tails: Bytes): nat {
    if tails == [] then scalar else Pushed(scalar, tails[..|tails| - 1]) * 0x40 + U.Low(tails[|tails| - 1], 0x40)
  }

  ghost predicate AllTails(bytes: Bytes) {
    forall i :: 0 <= i < |bytes| ==> U.IsTail(bytes[i])
  }

  lemma {:induction false} PushedHead(scalar: nat, tails: Bytes)
    requires tails != []
    ensures Pushed(scalar * 0x40 + U.Low(tails[0], 0x40), tails[1..]) == Pushed(scalar, tails)
  {
    var n := |tails| - 1;
    if n > 0 {
      PushedHead(scalar, tails[..n]);
      assert tails[1..][..n - 1] == tails[..n][1..];
    }
  }

  lemma {:induction false} FeedTails(vt: Vt, tails: Bytes)
    requires VtOk(vt) && vt.parser.Utf8? && vt.parser.remaining == |tails|
    ensures var code := Pushed(vt.parser.scalar, tails);
      Feed(vt, tails) ==
      if AllTails(tails) && vt.parser.minimum <= code && U.IsScalar(code) then PutText(vt, code) else None
    decreases |tails|
  {
    hide ScreenOk, Put;
    FeedHead(vt, tails);
    if U.IsTail(tails[0]) {
      PushedHead(vt.parser.scalar, tails);
      if |tails| > 1 {
        var next := Consume(vt, tails[0]).value;
        FeedTails(next, tails[1..]);
        assert tails == [tails[0]] + tails[1..];
      }
    }
  }

  /**
    The oracle's byte-at-a-time decoder and the emitter side's whole-character decoder accept the same multi-byte
    strings and read the same scalar from them.
   */
  lemma {:induction false} DecodersAgree(vt: Vt, bytes: Bytes)
    requires VtOk(vt) && vt.parser.Text?
    requires |bytes| >= 1 && bytes[0] >= 0x80
    requires |bytes| == Max(1, U.Utf8CharLength(bytes[0]))
    ensures Feed(vt, bytes) ==
      if U.DecodeUtf8(bytes).Some? then PutText(vt, U.DecodeUtf8(bytes).value) else None
  {
    FeedHead(vt, bytes);
    var first := Consume(vt, bytes[0]);
    if first.Some? {
      FeedTails(first.value, bytes[1..]);
      PushedDecodes(bytes);
    } else {
      NoLeadNoScalar(bytes);
    }
  }

  /** The bits gathered after the lead byte are the scalar the whole-character decoder computes. */
  lemma {:induction false} PushedDecodes(bytes: Bytes)
    requires |bytes| >= 2 && |bytes| == U.Utf8CharLength(bytes[0])
    ensures var code := Pushed(LeadBits(bytes[0]), bytes[1..]);
      U.DecodeUtf8(bytes) ==
      if AllTails(bytes[1..]) && Shortest(|bytes|) <= code && U.IsScalar(code) then Some(code) else None
  {
    var tails := bytes[1..];
    assert AllTails(tails) <==> forall i :: 1 <= i < |bytes| ==> U.IsTail(bytes[i]) by {
      assert forall i :: 0 <= i < |tails| ==> tails[i] == bytes[i + 1];
    }
    PushedTails(LeadBits(bytes[0]), tails);
  }

  /** One to three continuation bytes, written out. */
  lemma {:induction false} PushedTails(lead: nat, tails: Bytes)
    requires 1 <= |tails| <= 3
    ensures var one := lead * 0x40 + U.Low(tails[0], 0x40);
      Pushed(lead, tails) ==
      if |tails| == 1 then one
      else
        var two := one * 0x40 + U.Low(tails[1], 0x40);
        if |tails| == 2 then two else two * 0x40 + U.Low(tails[2], 0x40)
  {
    hide U.Low;
    if |tails| > 1 {
      PushedTails(lead, tails[..|tails| - 1]);
    } else {
      assert tails[..0] == [];
    }
  }

  function LeadBits(b: Byte): nat {
    if b < 0xe0 then U.Low(b, 0x20) else if b < 0xf0 then U.Low(b, 0x10) else U.Low(b, 8)
  }

  /** The smallest scalar whose encoding has `n` bytes. */
  function Shortest(n: nat): nat {
    if n <= 1 then 0 else if n == 2 then 0x80 else if n == 3 then 0x800 else 0x1_0000
  }

  lemma {:induction false} NoLeadNoScalar(bytes: Bytes)
    requires |bytes| >= 1 && |bytes| >= U.Utf8CharLength(bytes[0])
    requires 0x80 <= bytes[0] < 0xc2 || bytes[0] > 0xf4
    ensures U.DecodeUtf8(bytes).None?
  {
  }

  predicate IsPrintable(ch: nat) {
    U.IsScalar(ch) && ch >= 0x20 && ch != 0x7f
  }

  lemma {:induction false} FeedCharacter(vt: Vt, ch: nat)
    requires VtOk(vt) && vt.parser.Text?
    requires IsPrintable(ch)
    ensures Feed(vt, U.EncodeUtf8(ch)) == PutText(vt, ch)
  {
    hide ScreenOk, Put;
    U.DecodeInvertsEncode(ch);
    var bytes := U.EncodeUtf8(ch);
    if ch < 0x80 {
      FeedHead(vt, bytes);
    } else {
      DecodersAgree(vt, bytes);
    }
  }

  /** Put a list of characters, one after the other. */
  function PutAll(vt: Vt, codes: seq<nat>): (r: Option<Vt>)
    requires VtOk(vt)
    ensures r.Some? ==> VtOk(r.value)
    decreases |codes|
  {
    if codes == [] then Some(vt)
    else
      var next := PutText(vt, codes[0]);
      if next.None? then None else PutAll(next.value, codes[1..])
  }

  /** Fed an encoded string of printable characters, the oracle puts exactly those characters. */
  lemma {:induction false} FeedString(vt: Vt, codes: seq<nat>)
    requires VtOk(vt) && vt.parser.Text?
    requires forall i :: 0 <= i < |codes| ==> IsPrintable(codes[i])
    ensures Feed(vt, U.EncodeAll(codes)) == PutAll(vt, codes)
    decreases |codes|
  {
    if codes == [] {
    } else {
      FeedConcat(vt, U.EncodeUtf8(codes[0]), U.EncodeAll(codes[1..]));
      FeedCharacter(vt, codes[0]);
      var next := PutText(vt, codes[0]);
      if next.Some? {
        FeedString(next.value, codes[1..]);
      }
    }
  }

  // ---------- Control sequences ----------

  function CsiBytes(body: Bytes, final: Byte): Bytes {
    [ESC, '[' as int] + body + [final]
  }

  predicate IsParameterText(body: Bytes) {
    forall i :: 0 <= i < |body| ==> body[i] < 0x40
  }

  lemma {:induction false} FeedParameterText(vt: Vt, body: Bytes)
    requires VtOk(vt) && vt.parser.Csi?
    requires IsParameterText(body) && |vt.parser.sequence| + |body| <= MAX_CSI
    ensures Feed(vt, body) == Some(vt.(parser := Csi(vt.parser.sequence + body)))
    decreases |body|
  {
    if body == [] {
      assert vt.parser.sequence + body == vt.parser.sequence;
    } else {
      var next := vt.(parser := Csi(vt.parser.sequence + [body[0]]));
      FeedParameterText(next, body[1..]);
      assert next.parser.sequence + body[1..] == vt.parser.sequence + body;
    }
  }

  lemma {:induction false} FeedCsi(vt: Vt, body: Bytes, final: Byte)
    requires VtOk(vt) && vt.parser.Text?
    requires IsParameterText(body) && |body| <= MAX_CSI && 0x40 <= final <= 0x7e
    ensures Feed(vt, CsiBytes(body, final)) == Dispatch(vt, body, final)
  {
    var begun := vt.(parser := Csi([]));
    FeedConcat(vt, [ESC, '[' as int] + body, [final]);
    FeedConcat(vt, [ESC, '[' as int], body);
    FeedHead(vt, [ESC, '[' as int]);
    FeedHead(vt.(parser := Escape), ['[' as int]);
    FeedParameterText(begun, body);
    assert [] + body == body;
    FeedOne(begun.(parser := Csi(body)), final);
  }

  lemma {:induction false} ReadDecimal(n: nat, rest: Bytes, read: seq<nat>)
    requires n < 10000
    ensures ParametersFrom(Decimal(n) + rest, 0, read) == ParametersFrom(rest, n, read)
  {
    var text := Decimal(n) + rest;
    if n < 10 {
      assert text[1..] == rest;
    } else {
      var tail := ['0' as int + n % 10] + rest;
      assert text == Decimal(n / 10) + tail;
      ReadDecimal(n / 10, tail, read);
      assert tail[1..] == rest;
    }
  }

  lemma {:induction false} DecimalText(n: nat)
    ensures IsParameterText(Decimal(n)) && Decimal(n) != []
    ensures IsDigit(Decimal(n)[0])
    ensures n < 1000 ==> |Decimal(n)| <= 3
  {
    if n >= 10 {
      DecimalText(n / 10);
    }
    if 100 <= n < 1000 {
      assert Decimal(n) == Decimal(n / 10) + ['0' as int + n % 10];
      assert Decimal(n / 10) == Decimal(n / 10 / 10) + ['0' as int + n / 10 % 10];
    }
  }

  /** `;`-separated numbers. */
  function Join(params: seq<nat>): Bytes {
    if params == [] then []
    else if |params| == 1 then Decimal(params[0])
    else Decimal(params[0]) + [';' as int] + Join(params[1..])
  }

  /** Parsing printed parameters gives them back. */
  lemma {:induction false} ReadJoined(params: seq<nat>, read: seq<nat>)
    requires |params| >= 1 && |read| + |params| <= MAX_PARAMETERS
    requires forall i :: 0 <= i < |params| ==> params[i] < 1000
    ensures ParametersFrom(Join(params), 0, read) == Some(read + params)
    ensures IsParameterText(Join(params)) && |Join(params)| < 4 * |params|
    ensures Join(params) != [] && IsDigit(Join(params)[0])
    decreases |params|
  {
    DecimalText(params[0]);
    if |params| == 1 {
      ReadDecimal(params[0], [], read);
      assert Decimal(params[0]) + [] == Decimal(params[0]);
      assert read + params == read + [params[0]];
    } else {
      var rest := [';' as int] + Join(params[1..]);
      assert Join(params) == Decimal(params[0]) + rest;
      ReadDecimal(params[0], rest, read);
      assert rest[1..] == Join(params[1..]);
      ReadJoined(params[1..], read + [params[0]]);
      assert read + [params[0]] + params[1..] == read + params;
    }
  }

  lemma {:induction false} ParametersOfJoined(params: seq<nat>)
    requires 1 <= |params| <= 20
    requires forall i :: 0 <= i < |params| ==> params[i] < 1000
    ensures Parameters(Join(params)) == Some(params) && !IsPrivate(Join(params))
    ensures IsParameterText(Join(params)) && |Join(params)| <= MAX_CSI
  {
    ReadJoined(params, []);
    assert [] + params == params;
  }

  /** A control sequence with one printed number. */
  lemma {:induction false} FeedCsiNumber(vt: Vt, n: nat, final: Byte)
    requires VtOk(vt) && vt.parser.Text?
    requires n < 1000 && 0x40 <= final <= 0x7e && final != 'm' as int && final != 'n' as int
    ensures Feed(vt, CsiBytes(Decimal(n), final)) ==
      var t := Control(vt.screen, final, [n]);
      if t.None? then None else Some(vt.(screen := t.value))
  {
    ParametersOfJoined([n]);
    assert Join([n]) == Decimal(n);
    FeedCsi(vt, Decimal(n), final);
  }

  lemma {:induction false} FeedSgr(vt: Vt, params: seq<nat>)
    requires VtOk(vt) && vt.parser.Text?
    requires 1 <= |params| <= 20 && forall i :: 0 <= i < |params| ==> params[i] < 1000
    ensures Feed(vt, CsiBytes(Join(params), 'm' as int)) ==
      var pen := Sgr(vt.screen.pen, params);
      if pen.None? then None else Some(vt.(screen := vt.screen.(pen := pen.value)))
  {
    ParametersOfJoined(params);
    FeedCsi(vt, Join(params), 'm' as int);
  }

  /** Show or hide the cursor. */
  lemma {:induction false} FeedCursorMode(vt: Vt, show: bool)
    requires VtOk(vt) && vt.parser.Text?
    ensures Feed(vt, CsiBytes(['?' as int] + Decimal(25), if show then 'h' as int else 'l' as int)) ==
      Some(vt.(screen := vt.screen.(visible := show)))
  {
    var body := ['?' as int] + Decimal(25);
    ParametersOfJoined([25]);
    DecimalText(25);
    assert Join([25]) == Decimal(25) == body[1..];
    FeedCsi(vt, body, if show then 'h' as int else 'l' as int);
  }

  const MOUSE_MODES: set<nat> := {1000, 1002, 1003, 1005, 1006, 1015}

  /** A mouse mode is understood and changes nothing on the screen. */
  lemma {:induction false} FeedMouseMode(vt: Vt, mode: nat, enable: bool)
    requires VtOk(vt) && vt.parser.Text? && mode in MOUSE_MODES
    ensures Feed(vt, CsiBytes(['?' as int] + Decimal(mode), if enable then 'h' as int else 'l' as int)) == Some(vt)
  {
    var body := ['?' as int] + Decimal(mode);
    DecimalText(mode);
    DecimalText(mode / 10);
    assert Decimal(mode) == Decimal(mode / 10) + ['0' as int + mode % 10];
    ReadDecimal(mode, [], []);
    assert Decimal(mode) + [] == Decimal(mode) == body[1..];
    FeedCsi(vt, body, if enable then 'h' as int else 'l' as int);
  }
}
