/** Reading a rectangle of the console in bands small enough for one call, into one row-major vector. */
module LargeConsoleRead {
  import opened Basics
  import opened Color
  import opened Grid

  const MAX_CONSOLE_WIDTH := 2500

  /** `right` and `bottom` of the original are inclusive; a width and a height say the same. */
  datatype Rect = Rect(left: int, top: int, width: int, height: int)

  function Bottom(r: Rect): int {
    r.top + r.height - 1
  }

  /** Which of the two line-drawing flags the console honours; the others always pass. */
  datatype Mask = Mask(reverse: bool, underscore: bool)

  function MaskedAttributes(attributes: Word, mask: Mask): Word {
    attributes
    - (if !mask.reverse && HasFlag(attributes, REVERSE_VIDEO) then REVERSE_VIDEO else 0)
    - (if !mask.underscore && HasFlag(attributes, UNDERSCORE) then UNDERSCORE else 0)
  }

  function MaskedCell(c: CharInfo, mask: Mask): CharInfo {
    c.(attributes := MaskedAttributes(c.attributes, mask))
  }

  function MaskedLine(cells: Line, mask: Mask): Line {
    seq(|cells|, i requires 0 <= i < |cells| => MaskedCell(cells[i], mask))
  }

  /** Masking removes a flag exactly when the console ignores it, and nothing else. */
  lemma {:induction false} MaskRemovesFlags(attributes: Word, mask: Mask)
    ensures var m := MaskedAttributes(attributes, mask);
      && m % 0x4000 == attributes % 0x4000
      && (HasFlag(m, REVERSE_VIDEO) <==> mask.reverse && HasFlag(attributes, REVERSE_VIDEO))
      && (HasFlag(m, UNDERSCORE) <==> mask.underscore && HasFlag(attributes, UNDERSCORE))
  {
    var high := attributes / 0x4000;
    assert attributes == high * 0x4000 + attributes % 0x4000 && high < 4;
    assert attributes / 0x8000 == high / 2;
  }

  /** The console's screen buffer, and a log of the rectangles read from it. */
  class ConsoleBuffer {
    var cells: seq<Line>
    var width: nat
    ghost var log: seq<Rect>

    ghost predicate Valid()
      reads this
    {
      Rectangular(cells, width)
    }

    predicate Contains(area: Rect)
      reads this
    {
      && 0 <= area.left && 1 <= area.width && area.left + area.width <= width
      && 0 <= area.top && 1 <= area.height && area.top + area.height <= |cells|
    }

    constructor (cells: seq<Line>, width: nat)
      requires Rectangular(cells, width)
      ensures Valid() && this.cells == cells && this.width == width && log == []
    {
      this.cells, this.width, log := cells, width, [];
    }

    /** The console fills the caller's block row by row. */
    method Read(area: Rect) returns (block: Line)
      requires Valid() && Contains(area)
      modifies this`log
      ensures log == old(log) + [area]
      ensures block == Flatten(Area(cells, area))
    {
      log := log + [area];
      block := [];
      for r := 0 to area.height
        invariant block == Flatten(Area(cells, area)[..r]) && log == old(log) + [area]
      {
        var row := cells[area.top + r][area.left..area.left + area.width];
        FlattenSnoc(Area(cells, area)[..r], row);
        assert Area(cells, area)[..r] + [row] == Area(cells, area)[..r + 1];
        block := block + row;
      }
      assert Area(cells, area)[..area.height] == Area(cells, area);
    }
  }

  lemma {:induction false} FlattenSnoc(rows: seq<Line>, row: Line)
    ensures Flatten(rows + [row]) == Flatten(rows) + row
  {
    FlattenConcat(rows, [row]);
    assert Flatten([row]) == row + Flatten<CharInfo>([]) == row;
  }

  ghost predicate Inside(cells: seq<Line>, area: Rect) {
    && 0 <= area.left && 1 <= area.width && 0 <= area.top && 1 <= area.height && area.top + area.height <= |cells|
    && forall r :: 0 <= r < |cells| ==> area.left + area.width <= |cells[r]|
  }

  /** The rows of a rectangle. */
  function Area(cells: seq<Line>, area: Rect): (rows: seq<Line>)
    requires 0 <= area.left && 1 <= area.width && 0 <= area.top && 1 <= area.height && area.top + area.height <= |cells|
    requires forall r :: 0 <= r < |cells| ==> area.left + area.width <= |cells[r]|
    ensures |rows| == area.height && Rectangular(rows, area.width)
  {
    seq(area.height, r requires 0 <= r < area.height => cells[area.top + r][area.left..area.left + area.width])
  }

  function MaskedArea(cells: seq<Line>, area: Rect, mask: Mask): (rows: seq<Line>)
    requires 0 <= area.left && 1 <= area.width && 0 <= area.top && 1 <= area.height && area.top + area.height <= |cells|
    requires forall r :: 0 <= r < |cells| ==> area.left + area.width <= |cells[r]|
    ensures |rows| == area.height && Rectangular(rows, area.width)
  {
    seq(area.height, r requires 0 <= r < area.height => MaskedLine(Area(cells, area)[r], mask))
  }

  // ---------- Bands ----------

  function BandHeight(width: int): int
    requires 1 <= width
  {
    Max(1, MAX_CONSOLE_WIDTH / width)
  }

  /** The bands that cover the rows of `area` from `from` on. */
  function Bands(area: Rect, from: int): (bands: seq<Rect>)
    requires 1 <= area.width && area.top <= from <= area.top + area.height
    decreases area.top + area.height - from
  {
    if from > Bottom(area) then []
    else
      var n := Min(BandHeight(area.width), Bottom(area) + 1 - from);
      [Rect(area.left, from, area.width, n)] + Bands(area, from + n)
  }

  /** Band after band, each where the one before ended: every row is covered once. */
  ghost predicate Tiling(bands: seq<Rect>, area: Rect, from: int)
    decreases |bands|
  {
    if bands == [] then from == area.top + area.height
    else
      && bands[0].top == from && bands[0].left == area.left && bands[0].width == area.width
      && 1 <= bands[0].height && from + bands[0].height <= area.top + area.height
      && Tiling(bands[1..], area, from + bands[0].height)
  }

  /** The bands tile the area and none is too big for one call. */
  lemma {:induction false} BandsTile(area: Rect, from: int)
    requires 1 <= area.width <= MAX_CONSOLE_WIDTH && area.top <= from <= area.top + area.height
    ensures Tiling(Bands(area, from), area, from)
    ensures forall i :: 0 <= i < |Bands(area, from)| ==>
      Bands(area, from)[i].width * Bands(area, from)[i].height <= MAX_CONSOLE_WIDTH
    decreases area.top + area.height - from
  {
    if from <= Bottom(area) {
      var n := Min(BandHeight(area.width), Bottom(area) + 1 - from);
      BandFits(area.width, n);
      BandsTile(area, from + n);
    }
  }

  lemma {:induction false} BandFits(width: int, n: int)
    requires 1 <= width <= MAX_CONSOLE_WIDTH && 1 <= n <= BandHeight(width)
    ensures width * n <= MAX_CONSOLE_WIDTH
  {
    var q := MAX_CONSOLE_WIDTH / width;
    assert width * q <= MAX_CONSOLE_WIDTH < width * q + width;
    Grows(width, n, Max(1, q));
  }

  lemma {:induction false} Grows(width: int, n: int, q: int)
    requires 1 <= width && n <= q
    ensures width * n <= width * q
  {
  }

  // ---------- The buffer ----------

  class LargeConsoleReadBuffer {
    var rect: Rect
    var rectWidth: nat
    var data: Line

    /** The rows held, for the specification. */
    ghost var rows: seq<Line>

    ghost predicate Valid()
      reads this
    {
      && rectWidth == rect.width && |rows| == rect.height && Rectangular(rows, rectWidth)
      && |data| >= |Flatten(rows)| && data[..|Flatten(rows)|] == Flatten(rows)
    }

    constructor ()
      ensures Valid() && rows == []
    {
      rect, rectWidth, data, rows := Rect(0, 0, 0, 0), 0, [], [];
    }

    /** The cells of a line; the original aborts on a line outside the rectangle. */
    method LineData(line: int) returns (r: Option<Line>)
      requires Valid()
      ensures r.Some? <==> rect.top <= line <= Bottom(rect)
      ensures r.Some? ==> r.value == rows[line - rect.top]
    {
      if line < rect.top || line > Bottom(rect) {
        return None;
      }
      FlattenRow(rows, rectWidth, line - rect.top);
      var at := (line - rect.top) * rectWidth;
      assert data[at..at + rectWidth] == data[..|Flatten(rows)|][at..at + rectWidth];
      r := Some(data[at..at + rectWidth]);
    }
  }

  /** `front` overwritten at `at`. */
  function Stored(data: Line, at: nat, block: Line): Line
    requires at + |block| <= |data|
  {
    data[..at] + block + data[at + |block|..]
  }

  /**
    Read `area`, in one call or in bands. Either way the buffer then holds each masked console cell at its place.
   */
  method Read(out: LargeConsoleReadBuffer, buffer: ConsoleBuffer, area: Rect, mask: Mask, large: bool)
    requires buffer.Valid() && buffer.Contains(area) && area.width <= MAX_CONSOLE_WIDTH
    modifies out, buffer`log
    ensures out.Valid() && out.rect == area
    ensures out.rows == MaskedArea(buffer.cells, area, mask)
    ensures buffer.log == old(buffer.log) + if large then [area] else Bands(area, area.top)
  {
    hide Flatten, MaskedLine, Bands;
    var count := area.width * area.height;
    if |out.data| < count {
      out.data := out.data + seq(count - |out.data|, _ => CharInfo(0, 0));
    }
    out.rect, out.rectWidth := area, area.width;
    ghost var want := Area(buffer.cells, area);
    FlattenLength(want, area.width);
    if large {
      var block := buffer.Read(area);
      out.data := Stored(out.data, 0, block);
    } else {
      ReadBands(out, buffer, area, count);
    }
    assert out.data[..count] == Flatten(want);
    MaskRows(want, mask);
    MaskAll(out, count, mask);
    ghost var rows := MaskedArea(buffer.cells, area, mask);
    assert rows == seq(|want|, r requires 0 <= r < |want| => MaskedLine(want[r], mask));
    out.rows := rows;
    FlattenLength(rows, area.width);
  }

  method ReadBands(out: LargeConsoleReadBuffer, buffer: ConsoleBuffer, area: Rect, count: nat)
    requires buffer.Valid() && buffer.Contains(area) && area.width <= MAX_CONSOLE_WIDTH
    requires out.rectWidth == area.width && count == area.width * area.height <= |out.data|
    modifies out`data, buffer`log
    ensures |out.data| == old(|out.data|)
    ensures out.data[..count] == Flatten(Area(buffer.cells, area))
    ensures buffer.log == old(buffer.log) + Bands(area, area.top)
  {
    hide Flatten, Area, Stored, Bands;
    var maxReadLines := Max(1, MAX_CONSOLE_WIDTH / area.width);
    var curLine := area.top;
    ghost var want, done := Area(buffer.cells, area), [];
    BandExtends(buffer.cells, area, 0, area.height);
    assert out.data[..0] == Flatten(want[..0]) by { NoRows(want); }
    while curLine <= Bottom(area)
      invariant area.top <= curLine <= area.top + area.height
      invariant |out.data| == old(|out.data|)
      invariant buffer.log == old(buffer.log) + done && Bands(area, area.top) == done + Bands(area, curLine)
      invariant |Flatten(want[..curLine - area.top])| == (curLine - area.top) * area.width <= count
      invariant out.data[..|Flatten(want[..curLine - area.top])|] == Flatten(want[..curLine - area.top])
    {
      var n := Min(maxReadLines, Bottom(area) + 1 - curLine);
      var sub := Rect(area.left, curLine, area.width, n);
      var block := buffer.Read(sub);
      BandExtends(buffer.cells, area, curLine - area.top, n);
      StoredPrefix(out.data, Flatten(want[..curLine - area.top]), block);
      out.data := Stored(out.data, (curLine - area.top) * out.rectWidth, block);
      NextBand(area, curLine, done);
      done := done + [sub];
      curLine := Bottom(sub) + 1;
    }
    assert want[..area.height] == want;
    LastBand(area);
  }

  lemma {:induction false} NextBand(area: Rect, from: int, done: seq<Rect>)
    requires 1 <= area.width && area.top <= from <= Bottom(area)
    ensures var n := Min(Max(1, MAX_CONSOLE_WIDTH / area.width), Bottom(area) + 1 - from);
      done + Bands(area, from) == (done + [Rect(area.left, from, area.width, n)]) + Bands(area, from + n)
  {
  }

  lemma {:induction false} LastBand(area: Rect)
    requires 1 <= area.width && 0 <= area.height
    ensures Bands(area, area.top + area.height) == []
  {
  }

  lemma {:induction false} NoRows(rows: seq<Line>)
    ensures Flatten(rows[..0]) == []
  {
  }

  lemma {:induction false} StoredPrefix(data: Line, front: Line, block: Line)
    requires |front| + |block| <= |data| && data[..|front|] == front
    ensures Stored(data, |front|, block)[..|front| + |block|] == front + block
    ensures |Stored(data, |front|, block)| == |data|
  {
  }

  lemma {:induction false} MaskNone(data: Line, mask: Mask)
    ensures MaskedLine(data[..0], mask) + data[0..] == data
  {
  }

  lemma {:induction false} NothingMasked(data: Line)
    ensures MaskedLine(data, Mask(true, true)) == data
  {
  }

  lemma {:induction false} MaskNext(data: Line, i: nat, mask: Mask)
    requires i < |data|
    ensures var done := MaskedLine(data[..i], mask) + data[i..];
      && |done| == |data|
      && done[i := MaskedCell(done[i], mask)] == MaskedLine(data[..i + 1], mask) + data[i + 1..]
  {
    hide MaskedCell;
  }

  /** The masking loop, skipped when nothing is masked. */
  method MaskAll(out: LargeConsoleReadBuffer, count: nat, mask: Mask)
    requires count <= |out.data|
    modifies out`data
    ensures out.data == MaskedLine(old(out.data)[..count], mask) + old(out.data)[count..]
  {
    hide MaskedLine, MaskedCell;
    if mask != Mask(true, true) {
      MaskNone(out.data, mask);
      for i := 0 to count
        invariant out.data == MaskedLine(old(out.data)[..i], mask) + old(out.data)[i..]
      {
        MaskNext(old(out.data), i, mask);
        out.data := out.data[i := MaskedCell(out.data[i], mask)];
      }
    } else {
      NothingMasked(out.data[..count]);
      assert out.data == out.data[..count] + out.data[count..];
    }
  }

  /** A band appends its rows to those before it. */
  lemma {:induction false} BandExtends(cells: seq<Line>, area: Rect, k: nat, n: nat)
    requires Inside(cells, area) && 1 <= n && k + n <= area.height
    ensures var want := Area(cells, area);
      var block := Flatten(Area(cells, Rect(area.left, area.top + k, area.width, n)));
      && |Flatten(want[..k])| == k * area.width
      && |Flatten(want[..k + n])| == (k + n) * area.width <= area.width * area.height
      && Flatten(want[..k + n]) == Flatten(want[..k]) + block
  {
    hide Flatten;
    var want := Area(cells, area);
    var band := Area(cells, Rect(area.left, area.top + k, area.width, n));
    assert want[..k + n] == want[..k] + band;
    FlattenConcat(want[..k], band);
    FlattenLength(want[..k], area.width);
    FlattenLength(want[..k + n], area.width);
    Grows(area.width, k + n, area.height);
  }

  /** Masking the vector masks every row. */
  lemma {:induction false} MaskRows(rows: seq<Line>, mask: Mask)
    ensures MaskedLine(Flatten(rows), mask)
         == Flatten(seq(|rows|, r requires 0 <= r < |rows| => MaskedLine(rows[r], mask)))
  {
    if rows != [] {
      var all := seq(|rows|, r requires 0 <= r < |rows| => MaskedLine(rows[r], mask));
      var tail := rows[1..];
      MaskRows(tail, mask);
      assert all[1..] == seq(|tail|, r requires 0 <= r < |tail| => MaskedLine(tail[r], mask));
    }
  }
}
