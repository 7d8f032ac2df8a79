/** UTF-8 and UTF-16 (RFC 3629 sections 3 and 4, RFC 2781 section 2), bit fields written as quotients and remainders. */
module Utf8 {
  import opened Basics

  predicate IsSurrogate(code: nat) {
    0xd800 <= code <= 0xdfff
  }

  predicate IsScalar(code: nat) {
    code <= 0x10ffff && !IsSurrogate(code)
  }

  /** The bytes of `code`, or nothing when it has no encoding. */
  function EncodeUtf8(code: nat): Bytes {
    if code < 0x80 then [code]
    else if code < 0x800 then [0xc0 + code / 0x40 % 0x20, 0x80 + code % 0x40]
    else if code < 0x1_0000 then
      if IsSurrogate(code) then []
      else [0xe0 + code / 0x1000 % 0x10, 0x80 + code / 0x40 % 0x40, 0x80 + code % 0x40]
    else if code < 0x11_0000 then
      [0xf0 + code / 0x4_0000 % 8, 0x80 + code / 0x1000 % 0x40, 0x80 + code / 0x40 % 0x40, 0x80 + code % 0x40]
    else []
  }

  /** How many bytes a lead byte announces; 0 when it is not a lead byte. */
  function Utf8CharLength(first: Byte): nat {
    if first < 0x80 then 1
    else if 0xc0 <= first < 0xe0 then 2
    else if 0xe0 <= first < 0xf0 then 3
    else if 0xf0 <= first < 0xf8 then 4
    else 0
  }

  predicate IsTail(b: Byte) {
    0x80 <= b < 0xc0
  }

  /** The low bits of a byte, `m` being the power of two above them. */
  function Low(b: Byte, m: nat): nat
    requires m > 0
  {
    b % m
  }

  function DecodeUtf8(bytes: Bytes): Option<nat>
    requires |bytes| >= 1 && |bytes| >= Utf8CharLength(bytes[0])
  {
    match Utf8CharLength(bytes[0])
    case 1 => Some(bytes[0])
    case 2 =>
      var code := Low(bytes[0], 0x20) * 0x40 + Low(bytes[1], 0x40);
      if !IsTail(bytes[1]) || code <= 0x7f then None else Some(code)
    case 3 =>
      var code := Low(bytes[0], 0x10) * 0x1000 + Low(bytes[1], 0x40) * 0x40 + Low(bytes[2], 0x40);
      if !IsTail(bytes[1]) || !IsTail(bytes[2]) || code <= 0x7ff || IsSurrogate(code) then None else Some(code)
    case 4 =>
      var code := Low(bytes[0], 8) * 0x4_0000 + Low(bytes[1], 0x40) * 0x1000 + Low(bytes[2], 0x40) * 0x40
                  + Low(bytes[3], 0x40);
      if !IsTail(bytes[1]) || !IsTail(bytes[2]) || !IsTail(bytes[3]) || code <= 0xffff || code > 0x10ffff then None
      else Some(code)
    case _ => None
  }

  function EncodeUtf16(code: nat): seq<Word> {
    if code < 0x1_0000 then if IsSurrogate(code) then [] else [code]
    else if code < 0x11_0000 then
      [0xd800 + (code - 0x1_0000) / 0x400, 0xdc00 + (code - 0x1_0000) % 0x400]
    else []
  }

  predicate IsLeadSurrogate(w: Word) {
    0xd800 <= w < 0xdc00
  }

  predicate IsTrailSurrogate(w: Word) {
    0xdc00 <= w < 0xe000
  }

  function DecodeSurrogatePair(first: Word, second: Word): nat
    requires IsLeadSurrogate(first) && IsTrailSurrogate(second)
  {
    (first - 0xd800) * 0x400 + (second - 0xdc00) + 0x1_0000
  }

  // ---------- One character ----------

  /** Encoding yields nothing exactly off the scalar values; otherwise the lead byte announces the length. */
  lemma {:induction false} EncodedLength(code: nat)
    ensures EncodeUtf8(code) != [] <==> IsScalar(code)
    ensures IsScalar(code) ==> |EncodeUtf8(code)| == Utf8CharLength(EncodeUtf8(code)[0])
  {
  }

  /** The leading bits of a lead byte: 0, 110, 1110 and 11110. */
  lemma {:induction false} AnnouncedBits(first: Byte)
    ensures Utf8CharLength(first) == 1 <==> first / 0x80 == 0
    ensures Utf8CharLength(first) == 2 <==> first / 0x20 == 6
    ensures Utf8CharLength(first) == 3 <==> first / 0x10 == 14
    ensures Utf8CharLength(first) == 4 <==> first / 8 == 30
  {
  }

  lemma {:induction false} Shifts(n: nat)
    ensures n / 0x1000 == n / 0x40 / 0x40
    ensures n / 0x4_0000 == n / 0x1000 / 0x40
  {
  }

  /** A number is the sum of its base-64 digits. */
  lemma {:induction false} Recompose(n: nat)
    ensures n == n / 0x4_0000 * 0x4_0000 + n / 0x1000 % 0x40 * 0x1000 + n / 0x40 % 0x40 * 0x40 + n % 0x40
  {
    Shifts(n);
    var a, b, c := n / 0x40, n / 0x1000, n / 0x4_0000;
    assert n == a * 0x40 + n % 0x40;
    assert a == b * 0x40 + a % 0x40;
    assert b == c * 0x40 + b % 0x40;
  }

  /** And those digits are the only ones. */
  lemma {:induction false} Decompose(a: nat, b: nat, c: nat, d: nat)
    requires b < 0x40 && c < 0x40 && d < 0x40
    ensures var n := a * 0x4_0000 + b * 0x1000 + c * 0x40 + d;
      n / 0x4_0000 == a && n / 0x1000 % 0x40 == b && n / 0x40 % 0x40 == c && n % 0x40 == d
  {
    var n := a * 0x4_0000 + b * 0x1000 + c * 0x40 + d;
    Shifts(n);
    assert n / 0x40 == a * 0x1000 + b * 0x40 + c;
    assert n / 0x1000 == a * 0x40 + b;
  }

  lemma {:induction false} LowOfTagged(x: nat)
    ensures x < 0x40 ==> Low(0x80 + x, 0x40) == x
    ensures x < 0x20 ==> Low(0xc0 + x, 0x20) == x
    ensures x < 0x10 ==> Low(0xe0 + x, 0x10) == x
    ensures x < 8 ==> Low(0xf0 + x, 8) == x
  {
  }

  lemma {:induction false} TaggedByLow(b: Byte)
    ensures IsTail(b) ==> b == 0x80 + Low(b, 0x40)
    ensures Utf8CharLength(b) == 2 ==> b == 0xc0 + Low(b, 0x20)
    ensures Utf8CharLength(b) == 3 ==> b == 0xe0 + Low(b, 0x10)
    ensures Utf8CharLength(b) == 4 ==> b == 0xf0 + Low(b, 8)
  {
  }

  lemma {:induction false} DecodeInvertsEncode(code: nat)
    requires IsScalar(code)
    ensures |EncodeUtf8(code)| >= 1 && |EncodeUtf8(code)| == Utf8CharLength(EncodeUtf8(code)[0])
    ensures DecodeUtf8(EncodeUtf8(code)) == Some(code)
  {
    EncodedLength(code);
    if 0x80 <= code < 0x800 {
      DecodesEncode2(code);
    } else if 0x800 <= code < 0x1_0000 {
      DecodesEncode3(code);
    } else if 0x1_0000 <= code {
      DecodesEncode4(code);
    }
  }

  lemma {:induction false} DecodesEncode2(code: nat)
    requires 0x80 <= code < 0x800
    ensures DecodeUtf8(EncodeUtf8(code)) == Some(code)
  {
    hide EncodeUtf8;
    Recompose(code);
    LowOfTagged(code % 0x40);
    LowOfTagged(code / 0x40 % 0x40);
    Encode2(code);
  }

  lemma {:induction false} DecodesEncode3(code: nat)
    requires 0x800 <= code < 0x1_0000 && !IsSurrogate(code)
    ensures DecodeUtf8(EncodeUtf8(code)) == Some(code)
  {
    hide EncodeUtf8;
    Recompose(code);
    LowOfTagged(code % 0x40);
    LowOfTagged(code / 0x40 % 0x40);
    LowOfTagged(code / 0x1000 % 0x40);
    Encode3(code);
  }

  lemma {:induction false} DecodesEncode4(code: nat)
    requires 0x1_0000 <= code < 0x11_0000
    ensures DecodeUtf8(EncodeUtf8(code)) == Some(code)
  {
    hide EncodeUtf8;
    Recompose(code);
    LowOfTagged(code % 0x40);
    LowOfTagged(code / 0x40 % 0x40);
    LowOfTagged(code / 0x1000 % 0x40);
    LowOfTagged(code / 0x4_0000);
    Encode4(code);
  }

  lemma {:induction false} Encode2(code: nat)
    requires 0x80 <= code < 0x800
    ensures code / 0x40 % 0x40 < 0x20 && code / 0x1000 % 0x40 == 0 && code / 0x4_0000 == 0
    ensures EncodeUtf8(code) == [0xc0 + code / 0x40 % 0x40, 0x80 + code % 0x40]
  {
    hide EncodeUtf8;
    assert code / 0x40 < 0x20;
    assert code / 0x1000 == 0 && code / 0x4_0000 == 0;
    EncodedInTwo(code);
  }

  lemma {:induction false} EncodedInTwo(code: nat)
    requires 0x80 <= code < 0x800
    ensures EncodeUtf8(code) == [0xc0 + code / 0x40 % 0x20, 0x80 + code % 0x40]
  {
  }

  lemma {:induction false} Encode3(code: nat)
    requires 0x800 <= code < 0x1_0000 && !IsSurrogate(code)
    ensures code / 0x1000 % 0x40 < 0x10 && code / 0x4_0000 == 0
    ensures EncodeUtf8(code) == [0xe0 + code / 0x1000 % 0x40, 0x80 + code / 0x40 % 0x40, 0x80 + code % 0x40]
  {
  }

  lemma {:induction false} Encode4(code: nat)
    requires 0x1_0000 <= code < 0x11_0000
    ensures code / 0x4_0000 < 8
    ensures EncodeUtf8(code) == [0xf0 + code / 0x4_0000, 0x80 + code / 0x1000 % 0x40, 0x80 + code / 0x40 % 0x40,
                                 0x80 + code % 0x40]
  {
  }

  /** The decoder accepts only shortest forms: what it accepts is the encoding of what it returns. */
  lemma {:induction false} EncodeInvertsDecode(bytes: Bytes)
    requires |bytes| >= 1 && |bytes| == Utf8CharLength(bytes[0])
    requires DecodeUtf8(bytes).Some?
    ensures IsScalar(DecodeUtf8(bytes).value)
    ensures EncodeUtf8(DecodeUtf8(bytes).value) == bytes
  {
    TaggedByLow(bytes[0]);
    match |bytes| {
      case 1 =>
      case 2 => Decoded2(bytes);
      case 3 => Decoded3(bytes);
      case 4 => Decoded4(bytes);
    }
  }

  lemma {:induction false} Decoded2(bytes: Bytes)
    requires |bytes| == 2 == Utf8CharLength(bytes[0]) && DecodeUtf8(bytes).Some?
    ensures 0x80 <= DecodeUtf8(bytes).value < 0x800 && EncodeUtf8(DecodeUtf8(bytes).value) == bytes
  {
    TaggedByLow(bytes[0]);
    TaggedByLow(bytes[1]);
    Decompose(0, 0, Low(bytes[0], 0x20), Low(bytes[1], 0x40));
    Encode2(DecodeUtf8(bytes).value);
  }

  lemma {:induction false} Decoded3(bytes: Bytes)
    requires |bytes| == 3 == Utf8CharLength(bytes[0]) && DecodeUtf8(bytes).Some?
    ensures 0x800 <= DecodeUtf8(bytes).value < 0x1_0000 && !IsSurrogate(DecodeUtf8(bytes).value)
    ensures EncodeUtf8(DecodeUtf8(bytes).value) == bytes
  {
    TaggedByLow(bytes[0]);
    TaggedByLow(bytes[1]);
    TaggedByLow(bytes[2]);
    Decompose(0, Low(bytes[0], 0x10), Low(bytes[1], 0x40), Low(bytes[2], 0x40));
    Encode3(DecodeUtf8(bytes).value);
  }

  lemma {:induction false} Decoded4(bytes: Bytes)
    requires |bytes| == 4 == Utf8CharLength(bytes[0]) && DecodeUtf8(bytes).Some?
    ensures 0x1_0000 <= DecodeUtf8(bytes).value < 0x11_0000 && EncodeUtf8(DecodeUtf8(bytes).value) == bytes
  {
    TaggedByLow(bytes[0]);
    TaggedByLow(bytes[1]);
    TaggedByLow(bytes[2]);
    TaggedByLow(bytes[3]);
    Decompose(Low(bytes[0], 8), Low(bytes[1], 0x40), Low(bytes[2], 0x40), Low(bytes[3], 0x40));
    Encode4(DecodeUtf8(bytes).value);
  }

  /** UTF-16: a supplementary scalar becomes a surrogate pair that decodes back, and no pair decodes elsewhere. */
  lemma {:induction false} SurrogatePairRoundTrip(code: nat, first: Word, second: Word)
    requires IsLeadSurrogate(first) && IsTrailSurrogate(second)
    ensures EncodeUtf16(code) == [first, second] <==> code == DecodeSurrogatePair(first, second)
  {
  }

  // ---------- Strings ----------

  function EncodeAll(codes: seq<nat>): Bytes {
    if codes == [] then [] else EncodeUtf8(codes[0]) + EncodeAll(codes[1..])
  }

  ghost predicate AllScalars(codes: seq<nat>) {
    forall i :: 0 <= i < |codes| ==> IsScalar(codes[i])
  }

  /** Split a byte string with the length of each lead byte; fail on a malformed or unfinished character. */
  function Walk(bytes: Bytes): (r: Option<seq<nat>>)
    decreases |bytes|
  {
    if bytes == [] then Some([])
    else
      var n := Utf8CharLength(bytes[0]);
      if n == 0 || n > |bytes| then None
      else
        var code := DecodeUtf8(bytes[..n]);
        if code.None? then None
        else
          var rest := Walk(bytes[n..]);
          if rest.None? then None else Some([code.value] + rest.value)
  }

  lemma {:induction false} WalkOfEncoding(codes: seq<nat>)
    requires AllScalars(codes)
    ensures Walk(EncodeAll(codes)) == Some(codes)
  {
    if codes == [] {
    } else {
      DecodeInvertsEncode(codes[0]);
      WalkOfEncoding(codes[1..]);
      var head, bytes := EncodeUtf8(codes[0]), EncodeAll(codes);
      assert bytes[0] == head[0];
      assert bytes[..|head|] == head && bytes[|head|..] == EncodeAll(codes[1..]);
      assert codes == [codes[0]] + codes[1..];
    }
  }

  lemma {:induction false} EncodingOfWalk(bytes: Bytes)
    requires Walk(bytes).Some?
    ensures AllScalars(Walk(bytes).value)
    ensures EncodeAll(Walk(bytes).value) == bytes
    decreases |bytes|
  {
    hide DecodeUtf8, EncodeUtf8;
    if bytes == [] {
    } else {
      var n := Utf8CharLength(bytes[0]);
      EncodeInvertsDecode(bytes[..n]);
      EncodingOfWalk(bytes[n..]);
      var codes := Walk(bytes).value;
      assert codes[1..] == Walk(bytes[n..]).value;
      assert bytes == bytes[..n] + bytes[n..];
    }
  }

  /** The walk succeeds on exactly the encodings of scalar values, and recovers them. */
  lemma {:induction false} WalkIsTheInverse(bytes: Bytes, codes: seq<nat>)
    ensures Walk(bytes) == Some(codes) <==> AllScalars(codes) && bytes == EncodeAll(codes)
  {
    if Walk(bytes) == Some(codes) {
      EncodingOfWalk(bytes);
    }
    if AllScalars(codes) && bytes == EncodeAll(codes) {
      WalkOfEncoding(codes);
    }
  }
}
