/** What the oracle makes of the bytes around the characters: strings it skips, bounds it keeps, reports it writes. */
module StreamEffects {
  import opened Basics
  import opened VtScreen
  import opened VtParser
  import opened VtTokens
  import opened ScreenEffects

  // ---------- Operating system commands ----------

  ghost predicate IsTitle(text: Bytes) {
    |text| >= 2 && (text[0] == '0' as int || text[0] == '2' as int) && text[1] == ';' as int
  }

  ghost predicate NoEnd(text: Bytes) {
    forall i :: 0 <= i < |text| ==> text[i] != 7 && text[i] != ESC
  }

  lemma {:induction false} CommandText(vt: Vt, text: Bytes)
    requires VtOk(vt) && vt.parser.Osc? && |vt.parser.sequence| <= 1024 && NoEnd(text)
    ensures Feed(vt, text) ==
      if |vt.parser.sequence| + |text| <= 1024 then Some(vt.(parser := Osc(vt.parser.sequence + text))) else None
    decreases |text|
  {
    hide Dispatch, PutText;
    if text == [] {
      assert vt.parser.sequence + [] == vt.parser.sequence;
    } else {
      FeedHead(vt, text);
      if |vt.parser.sequence| < 1024 {
        var next := vt.(parser := Osc(vt.parser.sequence + [text[0]]));
        assert Consume(vt, text[0]) == Some(next);
        CommandText(next, text[1..]);
        assert vt.parser.sequence + [text[0]] + text[1..] == vt.parser.sequence + text;
      }
    }
  }

  lemma {:induction false} Enter(vt: Vt)
    requires VtOk(vt) && vt.parser.Text?
    ensures Feed(vt, [ESC, ']' as int]) == Some(vt.(parser := Osc([])))
    ensures Feed(vt, [ESC, '[' as int]) == Some(vt.(parser := Csi([])))
  {
    hide Dispatch, PutText, Feed;
    FeedHead(vt, [ESC, ']' as int]);
    FeedHead(vt, [ESC, '[' as int]);
    assert [ESC, ']' as int][1..] == [']' as int] && [ESC, '[' as int][1..] == ['[' as int];
    FeedOne(vt.(parser := Escape), ']' as int);
    FeedOne(vt.(parser := Escape), '[' as int);
  }

  lemma {:induction false} CommandEnds(vt: Vt, ends: Bytes)
    requires VtOk(vt) && vt.parser.Osc? && (ends == [7] || ends == [ESC, '\\' as int])
    ensures Feed(vt, ends) == if IsTitle(vt.parser.sequence) then Some(vt.(parser := Text)) else None
  {
    hide Dispatch, PutText, Feed;
    if ends == [7] {
      FeedOne(vt, 7);
    } else {
      FeedHead(vt, ends);
      assert ends[1..] == ['\\' as int];
      FeedOne(vt.(parser := OscEscape(vt.parser.sequence)), '\\' as int);
    }
  }

  /** A title is skipped, whichever way it ends; any other command, and one of more than 1024 bytes, is refused. */
  lemma {:induction false} TitleIsSkipped(vt: Vt, text: Bytes, ends: Bytes)
    requires VtOk(vt) && vt.parser.Text? && NoEnd(text) && (ends == [7] || ends == [ESC, '\\' as int])
    ensures Feed(vt, [ESC, ']' as int] + text + ends) == if IsTitle(text) && |text| <= 1024 then Some(vt) else None
  {
    hide Feed, IsTitle, NoEnd;
    var entered := vt.(parser := Osc([]));
    Enter(vt);
    FeedConcat(vt, [ESC, ']' as int] + text, ends);
    FeedConcat(vt, [ESC, ']' as int], text);
    CommandText(entered, text);
    assert [] + text == text;
    if |text| <= 1024 {
      CommandEnds(vt.(parser := Osc(text)), ends);
    }
  }

  // ---------- Bounds of a control sequence ----------

  /** A number may have a fifth digit only behind one of at most a thousand. */
  lemma {:induction false} NumberIsBounded(n: nat)
    ensures Parameters(Decimal(n)) == if n < 10010 then Some([n]) else None
  {
    DecimalText(n);
    ReadNumber(n, [], []);
    assert Decimal(n) + [] == Decimal(n) && [] + [n] == [n];
  }

  lemma {:induction false} ReadNumber(n: nat, rest: Bytes, read: seq<nat>)
    ensures ParametersFrom(Decimal(n) + rest, 0, read) == if n < 10010 then ParametersFrom(rest, n, read) else None
    decreases n
  {
    if n < 10 {
      assert (Decimal(n) + rest)[1..] == rest;
    } else {
      var last: Byte := '0' as int + n % 10;
      assert Decimal(n) + rest == Decimal(n / 10) + ([last] + rest);
      ReadNumber(n / 10, [last] + rest, read);
      assert ([last] + rest)[1..] == rest;
    }
  }

  /** A list has room for 33 numbers, here all left out. */
  lemma {:induction false} ListIsBounded(n: nat, read: seq<nat>)
    requires |read| <= 32
    ensures ParametersFrom(seq(n, _ => ';' as int), 0, read) ==
      if |read| + n <= 32 then Some(read + seq(n + 1, _ => 0)) else None
    decreases n
  {
    var text: Bytes := seq(n, _ => ';' as int);
    if n == 0 {
      assert seq(1, _ => 0) == [0];
    } else {
      assert text[1..] == seq(n - 1, _ => ';' as int);
      if |read| < 32 {
        ListIsBounded(n - 1, read + [0]);
        assert read + [0] + seq(n, _ => 0) == read + seq(n + 1, _ => 0);
      }
    }
  }

  /** More than 128 bytes in a sequence are refused, whatever would have come. */
  lemma {:induction false} SequenceIsBounded(vt: Vt, body: Bytes, byte: Byte)
    requires VtOk(vt) && vt.parser.Text? && IsParameterText(body) && |body| == 128 && !(0x40 <= byte <= 0x7e)
    ensures Feed(vt, [ESC, '[' as int] + body + [byte]) == None
  {
    hide Feed, Dispatch, PutText, IsParameterText;
    Enter(vt);
    FeedConcat(vt, [ESC, '[' as int] + body, [byte]);
    FeedConcat(vt, [ESC, '[' as int], body);
    FeedParameterText(vt.(parser := Csi([])), body);
    assert [] + body == body;
    FeedOne(vt.(parser := Csi(body)), byte);
  }

  // ---------- Reports ----------

  /** The body of a report or of a cursor position: the row and then the column, counted from one. */
  function Place(x: nat, y: nat): Bytes {
    Join([y + 1, x + 1])
  }

  lemma {:induction false} PlaceText(x: nat, y: nat)
    ensures Place(x, y) == Decimal(y + 1) + [';' as int] + Decimal(x + 1)
  {
    assert [y + 1, x + 1][1..] == [x + 1] && [x + 1][1..] == [];
    assert Join([x + 1]) == Decimal(x + 1);
  }

  /** Asked for the cursor the terminal reports it, and the same numbers sent back as a position restore it. */
  lemma {:induction false} ReportRestores(vt: Vt, later: Vt)
    requires VtOk(vt) && vt.parser.Text? && VtOk(later) && later.parser.Text?
    requires later.screen.width == vt.screen.width && later.screen.height == vt.screen.height
    ensures var x, y := vt.screen.x, vt.screen.y;
      && Feed(vt, CsiBytes(['6' as int], 'n' as int)) ==
         Some(vt.(replies := vt.replies + [CsiBytes(Place(x, y), 'R' as int)]))
      && Feed(later, CsiBytes(Place(x, y), 'H' as int)) ==
         Some(later.(screen := later.screen.(x := x, y := y, wrap := false)))
  {
    hide Control, Decimal, Join, ScreenOk;
    var x, y := vt.screen.x, vt.screen.y;
    SixText();
    FeedCsi(vt, ['6' as int], 'n' as int);
    NumberIsBounded(6);
    PlaceText(x, y);
    Inhabited(vt.screen);
    Sizes(vt.screen);
    ParametersOfJoined([y + 1, x + 1]);
    FeedCsi(later, Place(x, y), 'H' as int);
    MovesAnywhere(later.screen, 'H' as int, y + 1, x + 1);
    assert CursorReport(x, y) == CsiBytes(Place(x, y), 'R' as int);
  }

  /** No other status is reported. */
  lemma {:induction false} OneStatusOnly(vt: Vt, body: Bytes)
    requires VtOk(vt) && !IsPrivate(body) && Parameters(body) != Some([6])
    ensures Dispatch(vt, body, 'n' as int) == None
  {
  }

  lemma {:induction false} SixText()
    ensures Decimal(6) == ['6' as int] && IsParameterText(['6' as int]) && !IsPrivate(['6' as int])
  {
  }

  lemma {:induction false} Sizes(s: Screen)
    requires ScreenOk(s)
    ensures s.width <= 160 && s.height <= 60
  {
  }

  // ---------- Single bytes ----------

  /** Outside sequences and characters only these bytes are refused, besides a character that does not fit. */
  lemma {:induction false} RefusedBytes(vt: Vt, byte: Byte)
    requires VtOk(vt) && vt.parser.Text?
    ensures Feed(vt, [byte]).None? <==>
      || (byte < 0x20 && byte !in {0, 7, 8, 9, 10, 13, 27}) || 0x80 <= byte < 0xc2 || byte > 0xf4
    ensures byte in {0, 7, 0x7f} ==> Feed(vt, [byte]) == Some(vt)
  {
    hide LineFeed, Tab, EraseCells;
    FeedOne(vt, byte);
    if 0x20 <= byte < 0x7f {
      PutWrites(vt.screen, byte);
    }
  }
}
