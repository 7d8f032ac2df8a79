/** The tagged codec of the control channel. */
module Buffer {
  import opened Basics

  datatype Field = Int32(i: int) | Int64(l: int) | WString(text: seq<Word>)

  datatype Kind = KInt32 | KInt64 | KWString

  const SIZE_MAX := 0xffff_ffff_ffff_ffff

  function Pow256(n: nat): nat {
    if n == 0 then 1 else 256 * Pow256(n - 1)
  }

  predicate Fits(i: int, width: nat) {
    var range: int := Pow256(width);
    -range <= 2 * i < range
  }

  predicate FieldOk(f: Field) {
    match f
    case Int32(i) => Fits(i, 4)
    case Int64(l) => Fits(l, 8)
    case WString(text) => |text| <= SIZE_MAX / 2
  }

  function KindOf(f: Field): Kind {
    match f
    case Int32(_) => KInt32
    case Int64(_) => KInt64
    case WString(_) => KWString
  }

  function Tag(k: Kind): Byte {
    match k
    case KInt32 => 0
    case KInt64 => 1
    case KWString => 2
  }

  // ---------- Raw values ----------

  /** The low `width` bytes of `n`, least significant first. */
  function LittleEndian(n: nat, width: nat): (r: Bytes)
    ensures |r| == width
  {
    if width == 0 then [] else [n % 256] + LittleEndian(n / 256, width - 1)
  }

  function FromLittleEndian(bytes: Bytes): nat {
    if bytes == [] then 0 else bytes[0] + 256 * FromLittleEndian(bytes[1..])
  }

  function Unsigned(i: int, width: nat): (r: nat)
    requires Fits(i, width)
    ensures r < Pow256(width)
  {
    if i < 0 then i + Pow256(width) else i
  }

  function Signed(n: nat, width: nat): int {
    if 2 * n < Pow256(width) then n else n - Pow256(width)
  }

  function Unit(low: int, high: int): Word
    requires 0 <= low < 256 && 0 <= high < 256
  {
    low + 256 * high
  }

  function Units(text: seq<Word>): (r: Bytes)
    ensures |r| == 2 * |text|
  {
    if text == [] then [] else [text[0] % 256, text[0] / 256] + Units(text[1..])
  }

  function FromUnits(bytes: Bytes): (r: seq<Word>)
    ensures |r| == |bytes| / 2
  {
    if |bytes| < 2 then [] else [Unit(bytes[0], bytes[1])] + FromUnits(bytes[2..])
  }

  function EncodeField(f: Field): Bytes
    requires FieldOk(f)
  {
    match f
    case Int32(i) => [Tag(KInt32)] + LittleEndian(Unsigned(i, 4), 4)
    case Int64(l) => [Tag(KInt64)] + LittleEndian(Unsigned(l, 8), 8)
    case WString(text) => [Tag(KWString)] + LittleEndian(|text|, 8) + Units(text)
  }

  predicate FieldsOk(fields: seq<Field>) {
    forall i :: 0 <= i < |fields| ==> FieldOk(fields[i])
  }

  function Encode(fields: seq<Field>): Bytes
    requires FieldsOk(fields)
  {
    if fields == [] then [] else EncodeField(fields[0]) + Encode(fields[1..])
  }

  // ---------- Getting ----------

  /** `n` bytes from `off` on, if there are so many. */
  function GetRaw(buf: Bytes, off: nat, n: nat): (r: Option<Bytes>)
    requires off <= |buf|
    ensures r.Some? <==> n <= |buf| - off
    ensures r.Some? ==> |r.value| == n && r.value == buf[off..off + n]
  {
    if n <= |buf| - off then Some(buf[off..off + n]) else None
  }

  datatype Got = Got(field: Field, off: nat)

  function GetInt(buf: Bytes, off: nat, width: nat): (r: Option<int>)
    requires off <= |buf|
    ensures r.Some? ==> off + width <= |buf|
  {
    var raw := GetRaw(buf, off, width);
    if raw.None? then None else Some(Signed(FromLittleEndian(raw.value), width))
  }

  function GetText(buf: Bytes, off: nat): (r: Option<seq<Word>>)
    requires off <= |buf|
    ensures r.Some? ==> off + 8 + 2 * |r.value| <= |buf|
  {
    var raw := GetRaw(buf, off, 8);
    if raw.None? then None
    else
      var length := FromLittleEndian(raw.value);
      if length > SIZE_MAX / 2 then None
      else
        var units := GetRaw(buf, off + 8, 2 * length);
        if units.None? then None else Some(FromUnits(units.value))
  }

  /** The getter for a kind of field; `None` is the decode error. */
  function Get(k: Kind, buf: Bytes, off: nat): (r: Option<Got>)
    requires off <= |buf|
    ensures r.Some? ==> off < r.value.off <= |buf| && KindOf(r.value.field) == k
  {
    var tag := GetRaw(buf, off, 1);
    if tag.None? || tag.value[0] != Tag(k) then None
    else
      match k
      case KInt32 =>
        var i := GetInt(buf, off + 1, 4);
        if i.None? then None else Some(Got(Int32(i.value), off + 5))
      case KInt64 =>
        var l := GetInt(buf, off + 1, 8);
        if l.None? then None else Some(Got(Int64(l.value), off + 9))
      case KWString =>
        var text := GetText(buf, off + 1);
        if text.None? then None else Some(Got(WString(text.value), off + 9 + 2 * |text.value|))
  }

  function Kinds(fields: seq<Field>): (r: seq<Kind>)
    ensures |r| == |fields|
  {
    seq(|fields|, i requires 0 <= i < |fields| => KindOf(fields[i]))
  }

  datatype Decoded = Decoded(fields: seq<Field>, off: nat)

  /** One getter after the other. */
  function GetAll(kinds: seq<Kind>, buf: Bytes, off: nat): (r: Option<Decoded>)
    requires off <= |buf|
    ensures r.Some? ==> off <= r.value.off <= |buf| && |r.value.fields| == |kinds|
    decreases |kinds|
  {
    if kinds == [] then Some(Decoded([], off))
    else
      var first := Get(kinds[0], buf, off);
      if first.None? then None
      else
        var rest := GetAll(kinds[1..], buf, first.value.off);
        if rest.None? then None else Some(Decoded([first.value.field] + rest.value.fields, rest.value.off))
  }

  /** The getters for exactly these kinds, and nothing left over. */
  function Decode(kinds: seq<Kind>, buf: Bytes): Option<seq<Field>> {
    var r := GetAll(kinds, buf, 0);
    if r.None? || r.value.off != |buf| then None else Some(r.value.fields)
  }

  // ---------- Round trips of raw values ----------

  lemma {:induction false} DecodeLittleEndian(n: nat, width: nat)
    requires n < Pow256(width)
    ensures FromLittleEndian(LittleEndian(n, width)) == n
  {
    if width > 0 {
      DecodeLittleEndian(n / 256, width - 1);
      assert LittleEndian(n, width)[1..] == LittleEndian(n / 256, width - 1);
    }
  }

  lemma {:induction false} Digits(low: nat, high: nat)
    requires low < 256
    ensures (low + 256 * high) % 256 == low && (low + 256 * high) / 256 == high
  {
  }

  lemma {:induction false} EncodeLittleEndian(bytes: Bytes)
    ensures FromLittleEndian(bytes) < Pow256(|bytes|)
    ensures LittleEndian(FromLittleEndian(bytes), |bytes|) == bytes
  {
    if bytes != [] {
      EncodeLittleEndian(bytes[1..]);
      var rest := FromLittleEndian(bytes[1..]);
      Digits(bytes[0], rest);
      assert [bytes[0]] + bytes[1..] == bytes;
    }
  }

  /** Byte `k` of a number is its digit to the base 256. */
  lemma {:induction false} LittleEndianAt(n: nat, width: nat, k: nat)
    requires k < width
    ensures Pow256(k) > 0 && LittleEndian(n, width)[k] == n / Pow256(k) % 256
  {
    PowPositive(k);
    if k > 0 {
      LittleEndianAt(n / 256, width - 1, k - 1);
      DivideTwice(n, 256, Pow256(k - 1));
    }
  }

  lemma {:induction false} PowPositive(k: nat)
    ensures Pow256(k) > 0
  {
    if k > 0 {
      PowPositive(k - 1);
    }
  }

  lemma {:induction false} DecodeUnits(text: seq<Word>)
    ensures FromUnits(Units(text)) == text
  {
    if text != [] {
      assert Units(text)[2..] == Units(text[1..]);
      DecodeUnits(text[1..]);
    }
  }

  lemma {:induction false} EncodeUnits(bytes: Bytes)
    requires |bytes| % 2 == 0
    ensures Units(FromUnits(bytes)) == bytes
  {
    if bytes != [] {
      EncodeUnits(bytes[2..]);
      var text := FromUnits(bytes);
      assert text[1..] == FromUnits(bytes[2..]);
      assert text[0] % 256 == bytes[0] && text[0] / 256 == bytes[1];
      assert bytes == [bytes[0], bytes[1]] + bytes[2..];
    }
  }

  lemma {:induction false} Widths()
    ensures Pow256(4) == 0x1_0000_0000 && Pow256(8) == SIZE_MAX + 1
  {
    assert Pow256(2) == 0x1_0000;
    assert Pow256(5) == 256 * Pow256(4) && Pow256(6) == 256 * Pow256(5) && Pow256(7) == 256 * Pow256(6);
  }

  // ---------- One field ----------

  /** `x` stands at `off`. */
  ghost predicate At(buf: Bytes, off: nat, x: Bytes) {
    off + |x| <= |buf| && buf[off..off + |x|] == x
  }

  lemma {:induction false} AtBoth(buf: Bytes, off: nat, x: Bytes, y: Bytes)
    ensures At(buf, off, x + y) <==> At(buf, off, x) && At(buf, off + |x|, y)
  {
    if At(buf, off, x + y) {
      assert (x + y)[..|x|] == x && (x + y)[|x|..] == y;
      assert buf[off..off + |x|] == buf[off..off + |x + y|][..|x|];
      assert buf[off + |x|..off + |x + y|] == buf[off..off + |x + y|][|x|..];
    }
    if At(buf, off, x) && At(buf, off + |x|, y) {
      assert buf[off..off + |x + y|] == buf[off..off + |x|] + buf[off + |x|..off + |x| + |y|];
    }
  }

  lemma {:induction false} GetRawAt(buf: Bytes, off: nat, x: Bytes)
    requires off <= |buf| && At(buf, off, x)
    ensures off + |x| <= |buf| && GetRaw(buf, off, |x|) == Some(x)
  {
  }

  lemma {:induction false} GetIntPut(i: int, width: nat, buf: Bytes, off: nat)
    requires Fits(i, width) && off <= |buf| && At(buf, off, LittleEndian(Unsigned(i, width), width))
    ensures GetInt(buf, off, width) == Some(i)
  {
    DecodeLittleEndian(Unsigned(i, width), width);
  }

  lemma {:induction false} GetTextFrom(buf: Bytes, off: nat, text: seq<Word>, raw: Bytes, units: Bytes)
    requires off + 8 <= |buf| && |text| <= SIZE_MAX / 2
    requires GetRaw(buf, off, 8) == Some(raw) && FromLittleEndian(raw) == |text|
    requires GetRaw(buf, off + 8, 2 * |text|) == Some(units) && FromUnits(units) == text
    ensures GetText(buf, off) == Some(text)
  {
    hide GetRaw, FromLittleEndian, FromUnits;
  }

  lemma {:induction false} LengthRoundTrip(n: nat)
    requires n <= SIZE_MAX
    ensures FromLittleEndian(LittleEndian(n, 8)) == n
  {
    hide FromLittleEndian, LittleEndian;
    Widths();
    DecodeLittleEndian(n, 8);
  }

  lemma {:induction false} GetTextPut(text: seq<Word>, buf: Bytes, off: nat)
    requires |text| <= SIZE_MAX / 2 && off <= |buf| && At(buf, off, LittleEndian(|text|, 8) + Units(text))
    ensures GetText(buf, off) == Some(text)
  {
    hide LittleEndian, FromLittleEndian, Units, FromUnits, Pow256, At, GetRaw, GetText;
    var raw, units := LittleEndian(|text|, 8), Units(text);
    AtBoth(buf, off, raw, units);
    GetRawAt(buf, off, raw);
    GetRawAt(buf, off + 8, units);
    LengthRoundTrip(|text|);
    DecodeUnits(text);
    GetTextFrom(buf, off, text, raw, units);
  }

  /** A getter of the right kind gets what was put, wherever it stands. */
  lemma {:induction false} GetPut(f: Field, buf: Bytes, off: nat)
    requires FieldOk(f) && off <= |buf| && At(buf, off, EncodeField(f))
    ensures Get(KindOf(f), buf, off) == Some(Got(f, off + |EncodeField(f)|))
  {
    hide LittleEndian, FromLittleEndian, Units, FromUnits, GetInt, GetText, GetRaw, Pow256, At, Fits, Unsigned,
        EncodeField;
    match f
    case Int32(i) =>
      EncodeInt(f);
      TagPut(f, LittleEndian(Unsigned(i, 4), 4), buf, off);
      GetIntPut(i, 4, buf, off + 1);
    case Int64(l) =>
      EncodeInt(f);
      TagPut(f, LittleEndian(Unsigned(l, 8), 8), buf, off);
      GetIntPut(l, 8, buf, off + 1);
    case WString(text) =>
      EncodeText(text);
      TagPut(f, LittleEndian(|text|, 8) + Units(text), buf, off);
      GetTextPut(text, buf, off + 1);
  }

  lemma {:induction false} EncodeText(text: seq<Word>)
    requires |text| <= SIZE_MAX / 2
    ensures EncodeField(WString(text)) == [Tag(KWString)] + (LittleEndian(|text|, 8) + Units(text))
  {
    hide LittleEndian, Units;
  }

  lemma {:induction false} EncodeInt(f: Field)
    requires FieldOk(f)
    ensures f.Int32? ==> EncodeField(f) == [Tag(KInt32)] + LittleEndian(Unsigned(f.i, 4), 4)
    ensures f.Int64? ==> EncodeField(f) == [Tag(KInt64)] + LittleEndian(Unsigned(f.l, 8), 8)
  {
    hide LittleEndian, Unsigned;
  }

  lemma {:induction false} TagPut(f: Field, body: Bytes, buf: Bytes, off: nat)
    requires FieldOk(f) && off <= |buf| && At(buf, off, EncodeField(f)) && EncodeField(f) == [Tag(KindOf(f))] + body
    ensures off + 1 <= |buf| && GetRaw(buf, off, 1) == Some([Tag(KindOf(f))]) && At(buf, off + 1, body)
  {
    hide EncodeField;
    AtBoth(buf, off, [Tag(KindOf(f))], body);
  }

  lemma {:induction false} PutGetInt(buf: Bytes, off: nat, width: nat)
    requires off <= |buf| && GetInt(buf, off, width).Some? && 0 < width
    ensures var i := GetInt(buf, off, width).value;
      Fits(i, width) && At(buf, off, LittleEndian(Unsigned(i, width), width))
  {
    EncodeLittleEndian(buf[off..off + width]);
  }

  lemma {:induction false} PutGetText(buf: Bytes, off: nat)
    requires off <= |buf| && GetText(buf, off).Some?
    ensures var text := GetText(buf, off).value;
      |text| <= SIZE_MAX / 2 && At(buf, off, LittleEndian(|text|, 8) + Units(text))
  {
    hide LittleEndian, FromLittleEndian, Units, FromUnits, Pow256;
    var text := GetText(buf, off).value;
    EncodeLittleEndian(buf[off..off + 8]);
    EncodeUnits(buf[off + 8..off + 8 + 2 * |text|]);
    AtBoth(buf, off, LittleEndian(|text|, 8), Units(text));
  }

  /** What a getter accepts is the encoding of what it returns. */
  lemma {:induction false} PutGet(k: Kind, buf: Bytes, off: nat)
    requires off <= |buf| && Get(k, buf, off).Some?
    ensures var g := Get(k, buf, off).value;
      FieldOk(g.field) && At(buf, off, EncodeField(g.field)) && g.off == off + |EncodeField(g.field)|
  {
    hide LittleEndian, FromLittleEndian, Units, FromUnits, GetInt, GetText, Pow256;
    var tag, g := [Tag(k)], Get(k, buf, off).value;
    match k
    case KInt32 =>
      PutGetInt(buf, off + 1, 4);
      AtBoth(buf, off, tag, LittleEndian(Unsigned(g.field.i, 4), 4));
    case KInt64 =>
      PutGetInt(buf, off + 1, 8);
      AtBoth(buf, off, tag, LittleEndian(Unsigned(g.field.l, 8), 8));
    case KWString =>
      PutGetText(buf, off + 1);
      EncodeText(g.field.text);
      AtBoth(buf, off, tag, LittleEndian(|g.field.text|, 8) + Units(g.field.text));
  }

  /** A getter of another kind than the next field refuses it. */
  lemma {:induction false} WrongKind(f: Field, k: Kind, buf: Bytes, off: nat)
    requires FieldOk(f) && k != KindOf(f) && off <= |buf| && At(buf, off, EncodeField(f))
    ensures Get(k, buf, off) == None
  {
    assert buf[off] == EncodeField(f)[0] == Tag(KindOf(f));
  }

  /** A field cut short anywhere is refused: were some field read, the whole text would hold it as well. */
  lemma {:induction false} CutShort(f: Field, whole: Bytes, off: nat, n: nat)
    requires FieldOk(f) && At(whole, off, EncodeField(f)) && off <= n < off + |EncodeField(f)|
    ensures Get(KindOf(f), whole[..n], off) == None
  {
    hide EncodeField, Get;
    if Get(KindOf(f), whole[..n], off).Some? {
      var g := Get(KindOf(f), whole[..n], off).value;
      PutGet(KindOf(f), whole[..n], off);
      assert whole[..n][off..g.off] == whole[off..g.off];
      GetPut(f, whole, off);
      GetPut(g.field, whole, off);
      assert false;
    }
  }

  // ---------- All fields ----------

  lemma {:induction false} GetAllPut(fields: seq<Field>, buf: Bytes, off: nat)
    requires FieldsOk(fields) && off <= |buf| && At(buf, off, Encode(fields))
    ensures GetAll(Kinds(fields), buf, off) == Some(Decoded(fields, off + |Encode(fields)|))
    decreases |fields|
  {
    hide EncodeField, Get;
    if fields != [] {
      AtBoth(buf, off, EncodeField(fields[0]), Encode(fields[1..]));
      GetPut(fields[0], buf, off);
      GetAllPut(fields[1..], buf, off + |EncodeField(fields[0])|);
      assert Kinds(fields)[1..] == Kinds(fields[1..]);
      assert [fields[0]] + fields[1..] == fields;
    }
  }

  /** The matching getters return the same fields and leave nothing over. */
  lemma {:induction false} RoundTrip(fields: seq<Field>)
    requires FieldsOk(fields)
    ensures Decode(Kinds(fields), Encode(fields)) == Some(fields)
  {
    GetAllPut(fields, Encode(fields), 0);
  }

  lemma {:induction false} PutGetAll(kinds: seq<Kind>, buf: Bytes, off: nat)
    requires off <= |buf| && GetAll(kinds, buf, off).Some?
    ensures var d := GetAll(kinds, buf, off).value;
      && FieldsOk(d.fields) && Kinds(d.fields) == kinds
      && At(buf, off, Encode(d.fields)) && d.off == off + |Encode(d.fields)|
    decreases |kinds|
  {
    hide EncodeField, Get, FieldOk;
    if kinds != [] {
      var g := Get(kinds[0], buf, off).value;
      PutGet(kinds[0], buf, off);
      PutGetAll(kinds[1..], buf, g.off);
      var d := GetAll(kinds, buf, off).value;
      assert d.fields[1..] == GetAll(kinds[1..], buf, g.off).value.fields;
      AtBoth(buf, off, EncodeField(g.field), Encode(d.fields[1..]));
    }
  }

  /** A message is accepted only when it is the encoding of fields of those kinds. */
  lemma {:induction false} AcceptedIsEncoded(kinds: seq<Kind>, buf: Bytes)
    requires Decode(kinds, buf).Some?
    ensures var fields := Decode(kinds, buf).value;
      FieldsOk(fields) && Kinds(fields) == kinds && Encode(fields) == buf
  {
    PutGetAll(kinds, buf, 0);
    assert buf[0..|buf|] == buf;
  }

  /** No strict prefix of a message is read through: some getter fails. */
  lemma {:induction false} PrefixIsRefused(fields: seq<Field>, whole: Bytes, off: nat, n: nat)
    requires FieldsOk(fields) && At(whole, off, Encode(fields)) && off <= n < off + |Encode(fields)|
    ensures GetAll(Kinds(fields), whole[..n], off) == None
    decreases |fields|
  {
    hide EncodeField, Get;
    var first := EncodeField(fields[0]);
    AtBoth(whole, off, first, Encode(fields[1..]));
    assert Kinds(fields)[1..] == Kinds(fields[1..]);
    if n < off + |first| {
      CutShort(fields[0], whole, off, n);
    } else {
      assert whole[..n][off..off + |first|] == first;
      GetPut(fields[0], whole[..n], off);
      PrefixIsRefused(fields[1..], whole, off + |first|, n);
    }
  }

  // ---------- The objects ----------

  lemma {:induction false} Join(a: Bytes, b: Bytes, c: Bytes, d: Bytes)
    ensures a + b + c + d == a + (b + c + d)
  {
  }

  class WriteBuffer {
    var buf: Bytes

    constructor ()
      ensures buf == []
    {
      buf := [];
    }

    method PutRawData(data: Bytes)
      modifies this
      ensures buf == old(buf) + data
    {
      buf := buf + data;
    }

    /** Overwrite bytes already put; the original aborts outside them. */
    method ReplaceRawData(pos: nat, data: Bytes)
      requires pos + |data| <= |buf|
      modifies this
      ensures |buf| == old(|buf|) && buf[pos..pos + |data|] == data
      ensures buf[..pos] == old(buf)[..pos] && buf[pos + |data|..] == old(buf)[pos + |data|..]
    {
      buf := buf[..pos] + data + buf[pos + |data|..];
    }

    method PutInt32(i: int)
      requires Fits(i, 4)
      modifies this
      ensures buf == old(buf) + EncodeField(Int32(i))
    {
      hide LittleEndian;
      PutRawData([Tag(KInt32)]);
      PutRawData(LittleEndian(Unsigned(i, 4), 4));
    }

    method PutInt64(l: int)
      requires Fits(l, 8)
      modifies this
      ensures buf == old(buf) + EncodeField(Int64(l))
    {
      hide LittleEndian;
      PutRawData([Tag(KInt64)]);
      PutRawData(LittleEndian(Unsigned(l, 8), 8));
    }

    method PutWString(text: seq<Word>)
      requires |text| <= SIZE_MAX / 2
      modifies this
      ensures buf == old(buf) + EncodeField(WString(text))
    {
      hide LittleEndian, Units;
      ghost var before := buf;
      PutRawData([Tag(KWString)]);
      PutRawData(LittleEndian(|text|, 8));
      PutRawData(Units(text));
      Join(before, [Tag(KWString)], LittleEndian(|text|, 8), Units(text));
    }
  }

  /** A thrown decode error is `None`; the offset never passes the end, thrown or not. */
  class ReadBuffer {
    const buf: Bytes
    var off: nat

    ghost predicate Valid()
      reads this
    {
      off <= |buf|
    }

    constructor (buf: Bytes)
      ensures Valid() && this.buf == buf && off == 0
    {
      this.buf, off := buf, 0;
    }

    method GetRawData(n: nat) returns (r: Option<Bytes>)
      requires Valid()
      modifies this
      ensures Valid() && r == GetRaw(buf, old(off), n) && off == old(off) + if r.Some? then n else 0
    {
      if n > |buf| - off {
        return None;
      }
      r := Some(buf[off..off + n]);
      off := off + n;
    }

    method CheckTag(k: Kind) returns (ok: bool)
      requires Valid()
      modifies this
      ensures Valid() && ok == (old(off) < |buf| && buf[old(off)] == Tag(k)) && (ok ==> off == old(off) + 1)
    {
      var tag := GetRawData(1);
      ok := tag.Some? && tag.value[0] == Tag(k);
    }

    method GetInt32() returns (r: Option<int>)
      requires Valid()
      modifies this
      ensures Valid()
      ensures var g := Get(KInt32, buf, old(off));
        r == (if g.None? then None else Some(g.value.field.i)) && (g.Some? ==> off == g.value.off)
    {
      var ok := CheckTag(KInt32);
      if !ok {
        return None;
      }
      var raw := GetRawData(4);
      r := if raw.None? then None else Some(Signed(FromLittleEndian(raw.value), 4));
    }

    method GetInt64() returns (r: Option<int>)
      requires Valid()
      modifies this
      ensures Valid()
      ensures var g := Get(KInt64, buf, old(off));
        r == (if g.None? then None else Some(g.value.field.l)) && (g.Some? ==> off == g.value.off)
    {
      var ok := CheckTag(KInt64);
      if !ok {
        return None;
      }
      var raw := GetRawData(8);
      r := if raw.None? then None else Some(Signed(FromLittleEndian(raw.value), 8));
    }

    method GetWString() returns (r: Option<seq<Word>>)
      requires Valid()
      modifies this
      ensures Valid()
      ensures var g := Get(KWString, buf, old(off));
        r == (if g.None? then None else Some(g.value.field.text)) && (g.Some? ==> off == g.value.off)
    {
      var ok := CheckTag(KWString);
      if !ok {
        return None;
      }
      var raw := GetRawData(8);
      if raw.None? || FromLittleEndian(raw.value) > SIZE_MAX / 2 {
        return None;
      }
      var length := FromLittleEndian(raw.value);
      r := Some([]);
      if length > 0 {
        var units := GetRawData(2 * length);
        r := if units.None? then None else Some(FromUnits(units.value));
      }
    }

    method AssertEof() returns (ok: bool)
      requires Valid()
      ensures ok == (off == |buf|)
    {
      ok := off == |buf|;
    }
  }
}
