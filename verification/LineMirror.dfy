/**
  One line: feeding the emitter's bytes to the oracle makes the target row show the given cells, in full, and
  changes no other row.
 */
module LineMirror {
  import opened Basics
  import opened VtScreen
  import opened VtParser
  import opened VtTokens
  import opened Color
  import opened Emitter
  import U = Utf8

  // ---------- What a console line looks like on the terminal ----------

  /**
    The first character of `cells`, `n` cells wide, is one the console and the terminal agree about: in the basic
    plane, printable, as wide on the terminal as its full-width marks say, both halves in one colour.
   */
  predicate Agreed(cells: Line, n: nat, ch: nat)
    requires 1 <= n <= |cells|
  {
    && !U.IsSurrogate(cells[0].ch)
    && (n == 1 ==> !HasFlag(cells[0].attributes, LEADING_BYTE))
    && (n == 2 ==> ColorOf(cells[1].attributes) == ColorOf(cells[0].attributes))
    && GlyphWidth(FixSpecialCharacters(ch)) == n
    && IsPrintable(FixSpecialCharacters(ch))
    && !IsCombining(FixSpecialCharacters(ch))
  }

  predicate WellMarked(cells: Line)
    decreases |cells|
  {
    cells == []
    || (var (n, ch) := ScanScalar(cells); Agreed(cells, n, ch) && WellMarked(cells[n..]))
  }

  /** The terminal cells that show `cells`. */
  function Render(cells: Line): Row
    decreases |cells|
  {
    if cells == [] then []
    else
      var (n, ch) := ScanScalar(cells);
      Glyph(FixSpecialCharacters(ch), Shown(ColorOf(cells[0].attributes))) + Render(cells[n..])
  }

  function LastColor(cells: Line): Word
    requires cells != []
  {
    ColorOf(cells[|cells| - 1].attributes)
  }

  function BlankIn(color: Word): Cell {
    Cell([0x20], Shown(color), false)
  }

  /** A whole terminal row showing `cells`: beyond them it is blank in the colour of the last one. */
  function FullRow(cells: Line, width: nat): Row
    requires 1 <= |cells| <= width
  {
    Render(cells) + Fill(width - |cells|, BlankIn(LastColor(cells)))
  }

  lemma {:induction false} RenderLength(cells: Line)
    requires WellMarked(cells)
    ensures |Render(cells)| == |cells|
    decreases |cells|
  {
    if cells != [] {
      RenderLength(cells[ScanScalar(cells).0..]);
    }
  }

  lemma {:induction false} ScanOfPrefix(cells: Line, k: nat)
    requires 1 <= k <= |cells|
    requires var (n, ch) := ScanScalar(cells[..k]); Agreed(cells[..k], n, ch)
    ensures ScanScalar(cells) == ScanScalar(cells[..k])
  {
    assert cells[..k][0] == cells[0];
    if k >= 2 {
      assert cells[..k][1] == cells[1];
    }
  }

  /** A well-marked prefix is rendered the same way whatever follows it. */
  lemma {:induction false} RenderSplits(cells: Line, k: nat)
    requires WellMarked(cells) && k <= |cells| && WellMarked(cells[..k])
    ensures WellMarked(cells[k..])
    ensures Render(cells) == Render(cells[..k]) + Render(cells[k..])
    decreases k
  {
    hide Agreed, Glyph, Shown, ColorOf;
    if k == 0 {
      assert cells[0..] == cells;
    } else {
      ScanOfPrefix(cells, k);
      var n := ScanScalar(cells).0;
      assert cells[n..][..k - n] == cells[..k][n..];
      assert cells[n..][k - n..] == cells[k..];
      RenderSplits(cells[n..], k - n);
    }
  }

  // ---------- Writing within one row ----------

  /** The cursor stands after `k` cells; after a full row that is a pending wrap. */
  ghost predicate PosAt(s: Screen, k: nat) {
    && k <= s.width
    && s.wrap == (k == s.width)
    && s.x == (if k == s.width then s.width - 1 else k)
  }

  /** `s` is `base` but for the pen, the cursor's column and the row `row` it stands in. */
  ghost predicate Redrawn(base: Screen, s: Screen, row: Row) {
    && base.y < |base.rows|
    && s == base.(rows := base.rows[base.y := row], x := s.x, pen := s.pen, wrap := s.wrap)
  }

  /** In the row being redrawn `target[..k]` has been written and the cursor stands behind it. */
  ghost predicate Writing(base: Screen, s: Screen, row: Row, k: nat, target: Row) {
    && ScreenOk(base) && ScreenOk(s) && Redrawn(base, s, row)
    && PosAt(s, k) && |target| == s.width == |row|
    && row[..k] == target[..k]
    && (k < s.width ==> !row[k].continuation)
  }

  lemma {:induction false} WriteGlyphAt(row: Row, k: nat, ch: nat, pen: Pen)
    requires RowOk(row, |row|) && k + GlyphWidth(ch) <= |row| && !row[k].continuation
    ensures var r := WriteGlyph(row, k, ch, pen); var n := GlyphWidth(ch);
      && r[..k] == row[..k]
      && r[k..k + n] == Glyph(ch, Attributes(pen))
      && (k + n < |row| ==> !r[k + n].continuation)
      && (r[k + n..] == row[k + n..] || (k + n < |row| && row[k + n].continuation))
  {
  }

  lemma {:induction false} PutStep(base: Screen, s: Screen, row: Row, k: nat, target: Row, ch: nat)
    returns (t: Screen, r: Row)
    requires Writing(base, s, row, k, target)
    requires !IsCombining(ch) && k + GlyphWidth(ch) <= s.width
    requires target[k..k + GlyphWidth(ch)] == Glyph(ch, Attributes(s.pen))
    ensures Put(s, ch) == Some(t)
    ensures Writing(base, t, r, k + GlyphWidth(ch), target) && t.pen == s.pen
    ensures r[k + GlyphWidth(ch)..] == row[k + GlyphWidth(ch)..] ||
      (k + GlyphWidth(ch) < s.width && row[k + GlyphWidth(ch)].continuation)
  {
    hide EraseCells, WriteGlyph, Glyph, Attributes, IsCombining, GlyphWidth;
    GlyphIsWide(ch);
    t := PutHere(s, ch);
    r := WriteGlyph(row, k, ch, s.pen);
    var n := GlyphWidth(ch);
    assert s.rows[s.y] == row && RowOk(row, s.width);
    WriteGlyphAt(row, k, ch, s.pen);
    WrittenFurther(r, target, k, n);
  }

  lemma {:induction false} GlyphIsWide(ch: nat)
    ensures 1 <= GlyphWidth(ch) <= 2
  {
  }

  lemma {:induction false} WrittenFurther(row: Row, target: Row, k: nat, n: nat)
    requires k + n <= |row| == |target| && row[..k] == target[..k] && row[k..k + n] == target[k..k + n]
    ensures row[..k + n] == target[..k + n]
  {
    assert row[..k + n] == row[..k] + row[k..k + n];
    assert target[..k + n] == target[..k] + target[k..k + n];
  }

  lemma {:induction false} EraseStep(base: Screen, s: Screen, row: Row, k: nat, target: Row) returns (t: Screen, r: Row)
    requires Writing(base, s, row, k, target) && k < s.width
    ensures Control(s, 'K' as int, [0]) == Some(t)
    ensures Writing(base, t, r, k, target) && t.pen == s.pen
    ensures r == row[..k] + Fill(s.width - k, Blank(s.pen))
  {
    t := EraseInLine(s.(wrap := false), 0);
    r := row[..k] + Fill(s.width - k, Blank(s.pen));
    assert s.rows[s.y] == row;
    assert EraseCells(row, k, s.width, Blank(s.pen)) == r + [] == r;
  }

  function Spaces(n: nat): Bytes {
    seq(n, _ => 0x20)
  }

  lemma {:induction false} FeedSpace(base: Screen, vt: Vt, row: Row, k: nat, target: Row) returns (r: Vt, row': Row)
    requires VtOk(vt) && vt.parser.Text? && Writing(base, vt.screen, row, k, target)
    requires k < vt.screen.width && target[k] == Blank(vt.screen.pen)
    ensures Feed(vt, [0x20]) == Some(r)
    ensures r == vt.(screen := r.screen) && VtOk(r)
    ensures Writing(base, r.screen, row', k + 1, target) && r.screen.pen == vt.screen.pen
  {
    hide RowOk, Put, ScreenOk;
    assert target[k..k + 1] == Glyph(0x20, Attributes(vt.screen.pen));
    var t, row1 := PutStep(base, vt.screen, row, k, target, 0x20);
    r, row' := vt.(screen := t), row1;
    FeedOne(vt, 0x20);
  }

  lemma {:induction false} RunStep(target: Row, k: nat, n: nat, c: Cell)
    requires n > 0 && k + n <= |target| && target[k..k + n] == Fill(n, c)
    ensures target[k] == c && target[k + 1..k + n] == Fill(n - 1, c)
    ensures Spaces(n) == [0x20] + Spaces(n - 1)
  {
    assert target[k] == target[k..k + n][0];
    assert target[k + 1..k + n] == target[k..k + n][1..];
  }

  lemma {:induction false} FeedNothing(vt: Vt)
    requires VtOk(vt)
    ensures Feed(vt, []) == Some(vt) && Spaces(0) == []
  {
  }

  lemma {:induction false} FeedSpaces(base: Screen, vt: Vt, row: Row, k: nat, n: nat, target: Row)
    returns (r: Vt, row': Row)
    requires VtOk(vt) && vt.parser.Text? && Writing(base, vt.screen, row, k, target)
    requires k + n <= vt.screen.width
    requires target[k..k + n] == Fill(n, Blank(vt.screen.pen))
    ensures Feed(vt, Spaces(n)) == Some(r)
    ensures r == vt.(screen := r.screen) && VtOk(r)
    ensures Writing(base, r.screen, row', k + n, target) && r.screen.pen == vt.screen.pen
    decreases n
  {
    hide RowOk, Feed;
    if n == 0 {
      FeedNothing(vt);
      r, row' := vt, row;
    } else {
      RunStep(target, k, n, Blank(vt.screen.pen));
      FeedConcat(vt, [0x20], Spaces(n - 1));
      var next, row1 := FeedSpace(base, vt, row, k, target);
      assert next.screen.width == vt.screen.width;
      r, row' := FeedSpaces(base, next, row1, k + 1, n - 1, target);
    }
  }

  // ---------- The composing loop ----------

  /** The kept bytes of a draft take `start` to `now`. */
  ghost predicate Kept(d: Draft, start: Vt, now: Vt) {
    && VtOk(start) && VtOk(now) && start.parser.Text?
    && d.keep <= |d.text|
    && Feed(start, d.text[..d.keep]) == Some(now)
    && now == start.(screen := now.screen)
  }

  /** The row still to come from cell `i` on. */
  ghost predicate Ahead(line: Line, i: nat, target: Row) {
    && 1 <= |line| <= |target| && i <= |line|
    && WellMarked(line[i..])
    && target[i..] == Render(line[i..]) + Fill(|target| - |line|, BlankIn(LastColor(line)))
  }

  /** The draft has covered the cells before `i`; those from `d.cells` on are spaces not yet kept. */
  ghost predicate Pending(i: nat, d: Draft, start: Vt, now: Vt, row: Row, target: Row) {
    && Kept(d, start, now)
    && d.cells <= i <= |target|
    && d.text[d.keep..] == Spaces(i - d.cells)
    && Writing(start.screen, now.screen, row, d.cells, target)
    && target[d.cells..i] == Fill(i - d.cells, Blank(now.screen.pen))
  }

  /** The selected colour, if any, is the pen's. */
  ghost predicate InColor(d: Draft, now: Vt) {
    0 <= d.color ==> d.color < 0x1_0000 && now.screen.pen == ColorPen(d.color)
  }

  /** Send the pending spaces too. */
  lemma {:induction false} FlushSpaces(i: nat, d: Draft, start: Vt, now: Vt, row: Row, target: Row)
    returns (r: Vt, row': Row)
    requires Pending(i, d, start, now, row, target)
    ensures Feed(start, d.text) == Some(r) && VtOk(r)
    ensures r == start.(screen := r.screen) && r.screen.pen == now.screen.pen
    ensures Writing(start.screen, r.screen, row', i, target)
  {
    hide Feed, RowOk;
    assert d.text == d.text[..d.keep] + d.text[d.keep..];
    FeedConcat(start, d.text[..d.keep], d.text[d.keep..]);
    r, row' := FeedSpaces(start.screen, now, row, d.cells, i - d.cells, target);
  }

  /** Keep `more`, which takes the flushed draft to `r`. */
  lemma {:induction false} KeepMore(
    i: nat, d: Draft, next: Draft, more: Bytes, start: Vt, flushed: Vt, r: Vt, row: Row, target: Row)
    requires VtOk(start) && VtOk(flushed) && VtOk(r) && start.parser.Text?
    requires Feed(start, d.text) == Some(flushed) && Feed(flushed, more) == Some(r)
    requires r == start.(screen := r.screen)
    requires next.text == d.text + more && next.keep == |next.text| && next.cells == i
    requires Writing(start.screen, r.screen, row, i, target)
    ensures Pending(i, next, start, r, row, target)
  {
    FeedConcat(start, d.text, more);
    assert next.text[..next.keep] == next.text;
  }

  lemma {:induction false} RecolorStep(
    cfg: Config, line: Line, i: nat, d: Draft, start: Vt, now: Vt, row: Row, target: Row)
    returns (r: Vt, row': Row)
    requires Pending(i, d, start, now, row, target) && InColor(d, now)
    requires i < |line| && cfg.outputColor
    ensures Pending(i, Recolored(cfg, line, i, d), start, r, row', target)
    ensures InColor(Recolored(cfg, line, i, d), r)
    ensures Recolored(cfg, line, i, d).color == ColorOf(line[i].attributes)
    ensures OnTrack(line, i, d, row, target) ==> OnTrack(line, i, Recolored(cfg, line, i, d), row', target)
  {
    var color := ColorOf(line[i].attributes);
    if color == d.color {
      r, row' := now, row;
    } else {
      var flushed, row1 := FlushSpaces(i, d, start, now, row, target);
      FeedSetColor(flushed, color);
      r, row' := flushed.(screen := flushed.screen.(pen := ColorPen(color))), row1;
      KeepMore(i, d, WithColor(d, i, color), SetColorBytes(color), start, flushed, r, row', target);
    }
  }

  lemma {:induction false} SpaceStep(i: nat, d: Draft, start: Vt, now: Vt, row: Row, target: Row)
    requires Pending(i, d, start, now, row, target)
    requires i < |target| && target[i] == Blank(now.screen.pen)
    ensures Pending(i + 1, WithSpace(d), start, now, row, target)
  {
    var next := WithSpace(d);
    assert next.text[..next.keep] == d.text[..d.keep];
    assert next.text[next.keep..] == Spaces(i - d.cells) + [0x20] == Spaces(i + 1 - d.cells);
    assert target[d.cells..i + 1] == target[d.cells..i] + [target[i]];
  }

  /** A character the terminal shows in cells `k..` of the target. */
  ghost predicate Drawable(ch: nat, k: nat, pen: Pen, target: Row) {
    var fixed := FixSpecialCharacters(ch);
    var end := k + GlyphWidth(fixed);
    && IsPrintable(fixed) && !IsCombining(fixed) && end <= |target|
    && target[k..end] == Glyph(fixed, Attributes(pen))
  }

  function EndOf(ch: nat, k: nat): nat {
    k + GlyphWidth(FixSpecialCharacters(ch))
  }

  lemma {:induction false} FeedEncoded(vt: Vt, ch: nat)
    requires VtOk(vt) && vt.parser.Text? && IsPrintable(FixSpecialCharacters(ch))
    ensures Feed(vt, Encoded(ch)) == PutText(vt, FixSpecialCharacters(ch))
  {
    U.EncodedLength(FixSpecialCharacters(ch));
    FeedCharacter(vt, FixSpecialCharacters(ch));
  }

  lemma {:induction false} DrawCharacter(base: Screen, vt: Vt, row: Row, k: nat, ch: nat, target: Row)
    returns (r: Vt, row': Row)
    requires VtOk(vt) && vt.parser.Text? && Writing(base, vt.screen, row, k, target)
    requires Drawable(ch, k, vt.screen.pen, target)
    ensures Feed(vt, Encoded(ch)) == Some(r) && VtOk(r)
    ensures r == vt.(screen := r.screen) && r.screen.pen == vt.screen.pen
    ensures Writing(base, r.screen, row', EndOf(ch, k), target)
    ensures row'[EndOf(ch, k)..] == row[EndOf(ch, k)..] || (EndOf(ch, k) < |row| && row[EndOf(ch, k)].continuation)
  {
    hide EraseCells, RowOk, FixSpecialCharacters;
    FeedEncoded(vt, ch);
    var t, row1 := PutStep(base, vt.screen, row, k, target, FixSpecialCharacters(ch));
    r, row' := vt.(screen := t), row1;
  }

  lemma {:induction false} EraseRest(base: Screen, vt: Vt, row: Row, k: nat, target: Row) returns (r: Vt, row': Row)
    requires VtOk(vt) && vt.parser.Text? && Writing(base, vt.screen, row, k, target) && k < |target|
    ensures Feed(vt, EraseToEol()) == Some(r) && VtOk(r)
    ensures r == vt.(screen := r.screen) && r.screen.pen == vt.screen.pen
    ensures Writing(base, r.screen, row', k, target)
    ensures row' == row[..k] + Fill(|target| - k, Blank(vt.screen.pen))
  {
    FeedCsiNumber(vt, 0, 'K' as int);
    var t, row1 := EraseStep(base, vt.screen, row, k, target);
    r, row' := vt.(screen := t), row1;
  }

  /** A character that is not the last of its line. */
  lemma {:induction false} CharacterStep(
    cfg: Config, i: nat, ch: nat, d: Draft, start: Vt, now: Vt, row: Row, target: Row)
    returns (r: Vt, row': Row)
    requires Pending(i, d, start, now, row, target) && Drawable(ch, i, now.screen.pen, target)
    ensures Pending(EndOf(ch, i), WithCharacter(cfg, d, EndOf(ch, i), ch, false), start, r, row', target)
    ensures r.screen.pen == now.screen.pen
  {
    var flushed, row1 := FlushSpaces(i, d, start, now, row, target);
    r, row' := DrawCharacter(start.screen, flushed, row1, i, ch, target);
    var next := WithCharacter(cfg, d, EndOf(ch, i), ch, false);
    assert next.text == d.text + Encoded(ch);
    KeepMore(EndOf(ch, i), d, next, Encoded(ch), start, flushed, r, row', target);
  }

  lemma {:induction false} TailErased(before: Row, after: Row, k: nat, end: nat, blank: Cell, target: Row)
    requires k < end <= |target| == |before| == |after| && !blank.continuation
    requires before == before[..k] + Fill(|target| - k, blank)
    requires after[..end] == target[..end] && target[end..] == Fill(|target| - end, blank)
    requires after[end..] == before[end..] || (end < |before| && before[end].continuation)
    ensures after == target
  {
    assert before[end..] == Fill(|target| - end, blank);
    assert end < |before| ==> before[end] == blank;
    assert after == after[..end] + after[end..] && target == target[..end] + target[end..];
  }

  /** The last character, written after the rest of the row has been erased. */
  lemma {:induction false} LastCharacterStep(
    cfg: Config, i: nat, ch: nat, d: Draft, start: Vt, now: Vt, row: Row, target: Row)
    returns (r: Vt, row': Row)
    requires Pending(i, d, start, now, row, target) && !cfg.plainMode
    requires Drawable(ch, i, now.screen.pen, target)
    requires target[EndOf(ch, i)..] == Fill(|target| - EndOf(ch, i), Blank(now.screen.pen))
    ensures Pending(EndOf(ch, i), WithCharacter(cfg, d, EndOf(ch, i), ch, true), start, r, row', target)
    ensures r.screen.pen == now.screen.pen && row' == target
  {
    hide Feed, RowOk;
    var end := EndOf(ch, i);
    var flushed, row1 := FlushSpaces(i, d, start, now, row, target);
    var erased, row2 := EraseRest(start.screen, flushed, row1, i, target);
    r, row' := DrawCharacter(start.screen, erased, row2, i, ch, target);
    FeedConcat(flushed, EraseToEol(), Encoded(ch));
    var next := WithCharacter(cfg, d, end, ch, true);
    assert next.text == d.text + (EraseToEol() + Encoded(ch));
    KeepMore(end, d, next, EraseToEol() + Encoded(ch), start, flushed, r, row', target);
    TailErased(row2, row', i, end, Blank(now.screen.pen), target);
  }

  /** Once the rest of the row is erased the whole row is right; until then something of the line is still to come. */
  ghost predicate OnTrack(line: Line, i: nat, d: Draft, row: Row, target: Row) {
    if d.erased then i == |line| == d.cells && row == target else d.cells < |line|
  }

  lemma {:induction false} RenderHead(cells: Line)
    requires WellMarked(cells) && cells != []
    ensures var (n, ch) := ScanScalar(cells);
      var glyph := Glyph(FixSpecialCharacters(ch), Shown(ColorOf(cells[0].attributes)));
      && Agreed(cells, n, ch) && |glyph| == n && WellMarked(cells[n..])
      && Render(cells) == glyph + Render(cells[n..])
  {
    hide ScanScalar, Shown, ColorOf, FixSpecialCharacters;
  }

  /** The first character ahead, and what is ahead of that. */
  lemma {:induction false} AheadStep(line: Line, i: nat, target: Row)
    requires Ahead(line, i, target) && i < |line|
    ensures var (n, ch) := ScanScalar(line[i..]);
      && Agreed(line[i..], n, ch) && EndOf(ch, i) == i + n
      && Ahead(line, i + n, target)
      && target[i..i + n] == Glyph(FixSpecialCharacters(ch), Shown(ColorOf(line[i].attributes)))
  {
    hide Shown, IsPrintable, IsCombining, ScanScalar, WellMarked, Render, ColorOf, FixSpecialCharacters, LastColor;
    RenderHead(line[i..]);
    var (n, ch) := ScanScalar(line[i..]);
    assert line[i..][n..] == line[i + n..];
    var glyph := Glyph(FixSpecialCharacters(ch), Shown(ColorOf(line[i].attributes)));
    assert target[i..] == glyph + (Render(line[i + n..]) + Fill(|target| - |line|, BlankIn(LastColor(line))));
    assert target[i..i + n] == target[i..][..n];
    assert target[i + n..] == target[i..][n..];
  }

  /** After the last character only blanks in its colour are ahead. */
  lemma {:induction false} AheadLast(line: Line, i: nat, target: Row)
    requires Ahead(line, i, target) && i < |line| && Ahead(line, |line|, target)
    requires var (n, ch) := ScanScalar(line[i..]); Agreed(line[i..], n, ch) && i + n == |line|
    ensures LastColor(line) == ColorOf(line[i].attributes)
    ensures target[|line|..] == Fill(|target| - |line|, BlankIn(LastColor(line)))
  {
    hide Shown, IsPrintable, IsCombining;
    assert line[i..][|line| - i - 1] == line[|line| - 1];
  }

  /** A turn after its colour change. */
  lemma {:induction false} DrawShows(
    cfg: Config, line: Line, i: nat, ch: nat, d: Draft, start: Vt, now: Vt, row: Row, target: Row)
    returns (r: Vt, row': Row)
    requires !cfg.plainMode && i < |line|
    requires Pending(i, d, start, now, row, target) && OnTrack(line, i, d, row, target)
    requires Drawable(ch, i, now.screen.pen, target) && EndOf(ch, i) <= |line|
    requires ch == 0x20 ==> EndOf(ch, i) == i + 1
    requires EndOf(ch, i) == |line| ==>
      target[EndOf(ch, i)..] == Fill(|target| - EndOf(ch, i), Blank(now.screen.pen))
    ensures var end := EndOf(ch, i);
      var next := if ch == 0x20 then WithSpace(d) else WithCharacter(cfg, d, end, ch, end == |line|);
      && Pending(end, next, start, r, row', target) && OnTrack(line, end, next, row', target)
    ensures r.screen.pen == now.screen.pen
  {
    if ch == 0x20 {
      assert target[i] == target[i..i + 1][0];
      SpaceStep(i, d, start, now, row, target);
      r, row' := now, row;
    } else if EndOf(ch, i) == |line| {
      r, row' := LastCharacterStep(cfg, i, ch, d, start, now, row, target);
    } else {
      r, row' := CharacterStep(cfg, i, ch, d, start, now, row, target);
    }
  }

  /** One turn of the composing loop. */
  lemma {:induction false} TurnShows(
    cfg: Config, line: Line, i: nat, d: Draft, start: Vt, now: Vt, row: Row, target: Row)
    returns (r: Vt, row': Row)
    requires !cfg.plainMode && cfg.outputColor && i < |line|
    requires Pending(i, d, start, now, row, target) && InColor(d, now)
    requires Ahead(line, i, target) && OnTrack(line, i, d, row, target)
    ensures var n, next := ScanScalar(line[i..]).0, Turn(cfg, line, i, d);
      && Pending(i + n, next, start, r, row', target) && InColor(next, r)
      && Ahead(line, i + n, target) && OnTrack(line, i + n, next, row', target)
      && (i + n == |line| ==> next.color == LastColor(line))
  {
    hide Pending, Feed, RowOk, Writing, Kept, OnTrack, Recolored, Render, WellMarked;
    AheadStep(line, i, target);
    if i + ScanScalar(line[i..]).0 == |line| {
      AheadLast(line, i, target);
    }
    var vt1, row1 := RecolorStep(cfg, line, i, d, start, now, row, target);
    r, row' := DrawShows(cfg, line, i, ScanScalar(line[i..]).1, Recolored(cfg, line, i, d), start, vt1, row1, target);
  }

  lemma {:induction false} ComposeShows(
    cfg: Config, line: Line, i: nat, d: Draft, start: Vt, now: Vt, row: Row, target: Row)
    returns (r: Vt, row': Row)
    requires !cfg.plainMode && cfg.outputColor && i <= |line|
    requires Pending(i, d, start, now, row, target) && InColor(d, now)
    requires Ahead(line, i, target) && OnTrack(line, i, d, row, target)
    requires i == |line| ==> d.color == LastColor(line)
    ensures var last := Compose(cfg, line, i, d);
      && Pending(|line|, last, start, r, row', target) && InColor(last, r)
      && OnTrack(line, |line|, last, row', target)
      && last.color == LastColor(line)
    decreases |line| - i
  {
    hide Feed, RowOk, Writing, Kept, Ahead, Turn;
    if i == |line| {
      r, row' := now, row;
    } else {
      var n, next := ScanScalar(line[i..]).0, Turn(cfg, line, i, d);
      var vt1, row1 := TurnShows(cfg, line, i, d, start, now, row, target);
      r, row' := ComposeShows(cfg, line, i + n, next, start, vt1, row1, target);
    }
  }
}
