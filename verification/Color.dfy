/** How console colours are turned into SGR parameters, and what a terminal makes of those. */
module Color {
  import opened Basics
  import opened VtScreen
  import opened VtParser
  import opened VtTokens

  /** One console cell as read from the console; the attribute word holds colours and line-drawing flags. */
  datatype CharInfo = CharInfo(ch: Word, attributes: Word)

  type Line = seq<CharInfo>

  const LEADING_BYTE := 0x100
  const TRAILING_BYTE := 0x200
  const REVERSE_VIDEO := 0x4000
  const UNDERSCORE := 0x8000

  const BLACK: Nibble := 0
  const DKGRAY: Nibble := 8
  const LTGRAY: Nibble := 7
  const WHITE: Nibble := 15

  /** The bits of an attribute word that are sent: both colours, reverse video and underscore. */
  function ColorOf(attributes: Word): Word {
    attributes % 0x100 + attributes / 0x4000 * 0x4000
  }

  /** The foreground and background of a colour in ANSI bit order, reverse video resolved. */
  function Fore(color: Word): Nibble {
    if HasFlag(color, REVERSE_VIDEO) then SwapRedBlue(color / 16 % 16) else SwapRedBlue(color % 16)
  }

  function Back(color: Word): Nibble {
    if HasFlag(color, REVERSE_VIDEO) then SwapRedBlue(color % 16) else SwapRedBlue(color / 16 % 16)
  }

  /** The parameters that select one colour, with a fallback for terminals without the bright ones. */
  function ColorParameters(isFore: bool, color: Nibble): seq<nat> {
    var base := if isFore then 30 else 40;
    if color >= 8 then [base + (color - 8), base + 60 + (color - 8)] else [base + color]
  }

  function MainParameters(fore: Nibble, back: Nibble): seq<nat> {
    if back == BLACK then
      if fore == LTGRAY then []
      else if fore == WHITE then [1]
      else if fore == DKGRAY then [37, 90]
      else ColorParameters(true, fore)
    else if back == WHITE then
      [7] + if fore == LTGRAY || fore == BLACK then [] else ColorParameters(false, fore)
    else ColorParameters(true, fore) + ColorParameters(false, back)
  }

  function AllParameters(fore: Nibble, back: Nibble, underscore: bool): seq<nat> {
    [0] + MainParameters(fore, back) + (if fore == back then [8] else []) + (if underscore then [4] else [])
  }

  /** Everything `outputSetColor` prints between `CSI` and `m`. */
  function SetColorParameters(color: Word): seq<nat> {
    AllParameters(Fore(color), Back(color), HasFlag(color, UNDERSCORE))
  }

  function SetColorBytes(color: Word): Bytes {
    CsiBytes(Join(SetColorParameters(color)), 'm' as int)
  }

  // ---------- Interpretation ----------

  lemma {:induction false} SgrConcat(p: Pen, a: seq<nat>, b: seq<nat>)
    ensures Sgr(p, a + b) == if Sgr(p, a).Some? then Sgr(Sgr(p, a).value, b) else None
    decreases |a|
  {
    if a == [] {
      assert a + b == b;
    } else {
      assert (a + b)[1..] == a[1..] + b;
      var next := SgrOne(p, a[0]);
      if next.Some? {
        SgrConcat(next.value, a[1..], b);
      }
    }
  }

  lemma {:induction false} SgrSingle(p: Pen, v: nat)
    ensures Sgr(p, [v]) == SgrOne(p, v)
  {
    if SgrOne(p, v).Some? {
      assert Sgr(SgrOne(p, v).value, []) == SgrOne(p, v);
    }
  }

  /** The bright parameter overrides its fallback. */
  lemma {:induction false} SgrColor(p: Pen, isFore: bool, color: Nibble)
    ensures Sgr(p, ColorParameters(isFore, color)) == Some(if isFore then p.(fore := color) else p.(back := color))
  {
    var params := ColorParameters(isFore, color);
    SgrSingle(p, params[0]);
    if color >= 8 {
      SgrConcat(p, [params[0]], [params[1]]);
      SgrSingle(SgrOne(p, params[0]).value, params[1]);
      assert params == [params[0]] + [params[1]];
    } else {
      assert params == [params[0]];
    }
  }

  /** The pen after a colour's main parameters. */
  function MainPen(fore: Nibble, back: Nibble): Pen {
    if back == WHITE then
      DEFAULT_PEN.(inverse := true, back := if fore == LTGRAY || fore == BLACK then BLACK else fore)
    else if back == BLACK && fore == WHITE then DEFAULT_PEN.(bold := true)
    else DEFAULT_PEN.(fore := fore, back := back)
  }

  lemma {:induction false} SgrMain(fore: Nibble, back: Nibble)
    ensures Sgr(DEFAULT_PEN, MainParameters(fore, back)) == Some(MainPen(fore, back))
  {
    if back == BLACK {
      if fore == WHITE {
        SgrSingle(DEFAULT_PEN, 1);
      } else if fore == DKGRAY {
        SgrConcat(DEFAULT_PEN, [37], [90]);
        SgrSingle(DEFAULT_PEN, 37);
        SgrSingle(DEFAULT_PEN, 90);
        assert [37] + [90] == [37, 90];
      } else if fore != LTGRAY {
        SgrColor(DEFAULT_PEN, true, fore);
      }
    } else if back == WHITE {
      SgrSingle(DEFAULT_PEN, 7);
      var rest := if fore == LTGRAY || fore == BLACK then [] else ColorParameters(false, fore);
      SgrConcat(DEFAULT_PEN, [7], rest);
      SgrColor(DEFAULT_PEN.(inverse := true), false, fore);
    } else {
      SgrConcat(DEFAULT_PEN, ColorParameters(true, fore), ColorParameters(false, back));
      SgrColor(DEFAULT_PEN, true, fore);
      SgrColor(DEFAULT_PEN.(fore := fore), false, back);
    }
  }

  function PenFor(fore: Nibble, back: Nibble, underscore: bool): Pen {
    MainPen(fore, back).(conceal := fore == back, underline := underscore)
  }

  lemma {:induction false} SgrAll(p: Pen, fore: Nibble, back: Nibble, underscore: bool)
    ensures Sgr(p, AllParameters(fore, back, underscore)) == Some(PenFor(fore, back, underscore))
  {
    var main := MainParameters(fore, back);
    var conceal := if fore == back then [8] else [];
    var line := if underscore then [4] else [];
    SgrSingle(p, 0);
    SgrConcat(p, [0], main);
    SgrMain(fore, back);
    SgrConcat(p, [0] + main, conceal);
    SgrSingle(MainPen(fore, back), 8);
    SgrConcat(p, [0] + main + conceal, line);
    SgrSingle(MainPen(fore, back).(conceal := fore == back), 4);
  }

  /** The pen a colour selects, whatever the pen was before. */
  function ColorPen(color: Word): Pen {
    PenFor(Fore(color), Back(color), HasFlag(color, UNDERSCORE))
  }

  /** Interpreting what is printed for a colour selects that colour's pen: nothing of the old pen survives. */
  lemma {:induction false} SetColorSelectsPen(p: Pen, color: Word)
    ensures Sgr(p, SetColorParameters(color)) == Some(ColorPen(color))
    ensures 1 <= |SetColorParameters(color)| <= 20
    ensures forall i :: 0 <= i < |SetColorParameters(color)| ==> SetColorParameters(color)[i] < 1000
  {
    SgrAll(p, Fore(color), Back(color), HasFlag(color, UNDERSCORE));
  }

  lemma {:induction false} FeedSetColor(vt: Vt, color: Word)
    requires VtOk(vt) && vt.parser.Text?
    ensures Feed(vt, SetColorBytes(color)) == Some(vt.(screen := vt.screen.(pen := ColorPen(color))))
  {
    SetColorSelectsPen(vt.screen.pen, color);
    FeedSgr(vt, SetColorParameters(color));
  }

  /** The attributes the terminal shows for a cell sent in this colour. */
  function Shown(color: Word): Word {
    Attributes(ColorPen(color))
  }

  function PlainAttributes(fore: Nibble, back: Nibble, underscore: bool): Word {
    SwapRedBlue(fore) + SwapRedBlue(back) * 16 + (if underscore then UNDERSCORE else 0)
  }

  /** The attributes the console shows: reverse video swaps the two colours. */
  function Intended(color: Word): Word {
    PlainAttributes(Fore(color), Back(color), HasFlag(color, UNDERSCORE))
  }

  lemma {:induction false} ExactPair(fore: Nibble, back: Nibble, underscore: bool)
    ensures Attributes(PenFor(fore, back, underscore)) == PlainAttributes(fore, back, underscore) <==> back != WHITE
  {
    if back == WHITE {
      assert SwapRedBlue(back) == 15 && SwapRedBlue(7) == 7;
    }
  }

  /** Colours survive the trip exactly, except on a white background, where they never do. */
  lemma {:induction false} ExactUnlessOnWhite(color: Word)
    ensures Shown(color) == Intended(color) <==> Back(color) != WHITE
  {
    ExactPair(Fore(color), Back(color), HasFlag(color, UNDERSCORE));
  }

  lemma {:induction false} SwapTwice(v: Nibble)
    ensures SwapRedBlue(SwapRedBlue(v)) == v
  {
  }

  lemma {:induction false} LowByte(n: nat)
    ensures n % 0x100 == n % 16 + n / 16 % 16 * 16
  {
    assert n / 16 / 16 == n / 0x100;
  }

  lemma {:induction false} HighBits(n: nat)
    requires n < 0x1_0000 && !HasFlag(n, REVERSE_VIDEO)
    ensures n / 0x4000 * 0x4000 == if HasFlag(n, UNDERSCORE) then UNDERSCORE else 0
  {
    assert n / 0x4000 < 4;
  }

  /** Without reverse video the console's own colour bits are what is intended. */
  lemma {:induction false} IntendedIsTheColor(color: Word)
    requires color == ColorOf(color) && !HasFlag(color, REVERSE_VIDEO)
    ensures Intended(color) == color
  {
    hide SwapRedBlue;
    SwapTwice(color % 16);
    SwapTwice(color / 16 % 16);
    LowByte(color);
    HighBits(color);
  }
}
