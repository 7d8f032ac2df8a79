/** Change detection for one output line, across changes of its length. */
module ConsoleLine {
  import opened Basics
  import opened VtScreen
  import opened Color
  import opened Emitter
  import opened LineMirror

  /** The cells last seen; beyond `prevLength` they are what a wider line once left there. */
  datatype LineState = LineState(prevLength: nat, prevData: Line)

  const FORGOTTEN := LineState(0, [])

  ghost predicate LineStateOk(st: LineState) {
    st.prevLength <= |st.prevData|
  }

  predicate IsBlankCell(c: CharInfo, attributes: Word) {
    c.attributes == attributes && c.ch == 0x20
  }

  predicate IsLineBlank(cells: Line, attributes: Word) {
    forall i :: 0 <= i < |cells| ==> IsBlankCell(cells[i], attributes)
  }

  /** Overwrite the front of `data`. */
  function Overlay(data: Line, line: Line): Line {
    line + if |data| > |line| then data[|line|..] else []
  }

  function SetLine(st: LineState, line: Line): LineState {
    LineState(|line|, Overlay(st.prevData, line))
  }

  /** Whether the line differs enough from the one last seen to be sent again. */
  predicate Changed(st: LineState, line: Line)
    requires st.prevLength <= |st.prevData| && line != []
  {
    var n, prev, data := |line|, st.prevLength, st.prevData;
    if n == prev then data[..n] != line
    else if prev == 0 then true
    else if n < prev then
      !(data[..n] == line && IsLineBlank(data[n..prev], line[n - 1].attributes))
    else
      var prevBlank := data[prev - 1].attributes;
      !(&& data[..prev] == line[..prev]
        && IsLineBlank(data[prev..Min(|data|, n)], prevBlank)
        && IsLineBlank(line[prev..], prevBlank))
  }

  // ---------- Soundness on a terminal of fixed width ----------

  lemma {:induction false} LastColorOfBlanks(cells: Line, k: nat, attributes: Word)
    requires 0 < k <= |cells| && cells[k - 1].attributes == attributes
    requires IsLineBlank(cells[k..], attributes)
    ensures LastColor(cells) == ColorOf(attributes)
  {
    if k < |cells| {
      assert cells[|cells| - 1] == cells[k..][|cells| - 1 - k];
    }
  }

  /** Well-marked blanks are drawn as blanks. */
  lemma {:induction false} RenderBlanks(cells: Line, attributes: Word)
    requires WellMarked(cells) && IsLineBlank(cells, attributes)
    ensures Render(cells) == Fill(|cells|, BlankIn(ColorOf(attributes)))
    decreases |cells|
  {
    if cells != [] {
      var (n, ch) := ScanScalar(cells);
      assert IsBlankCell(cells[0], attributes);
      assert n == 1 && ch == 0x20;
      forall i | 0 <= i < |cells| - 1
        ensures IsBlankCell(cells[1..][i], attributes)
      {
        assert IsBlankCell(cells[i + 1], attributes);
      }
      RenderBlanks(cells[1..], attributes);
    }
  }

  /** Cutting trailing blanks off a line, or adding them, leaves its full row the same. */
  lemma {:induction false} FullRowOfTrimmed(cells: Line, k: nat, width: nat)
    requires 0 < k <= |cells| <= width && WellMarked(cells) && WellMarked(cells[..k])
    requires IsLineBlank(cells[k..], cells[k - 1].attributes)
    ensures FullRow(cells[..k], width) == FullRow(cells, width)
  {
    hide ScanScalar, WellMarked, Render;
    var attributes := cells[k - 1].attributes;
    RenderSplits(cells, k);
    RenderBlanks(cells[k..], attributes);
    LastColorOfBlanks(cells, k, attributes);
    LastColorOfBlanks(cells[..k], k, attributes);
  }

  function Seen(st: LineState): Line
    requires st.prevLength <= |st.prevData|
  {
    st.prevData[..st.prevLength]
  }

  /** A line reported unchanged would be drawn as the row that is already there, whatever the two lengths are. */
  lemma {:induction false} UnchangedRowIsSame(st: LineState, line: Line, width: nat)
    requires LineStateOk(st) && line != [] && !Changed(st, line)
    requires WellMarked(line) && WellMarked(Seen(st)) && |line| <= width && st.prevLength <= width
    ensures st.prevLength > 0 && FullRow(Seen(st), width) == FullRow(line, width)
  {
    var n, prev := |line|, st.prevLength;
    if n < prev {
      assert Seen(st)[..n] == line && Seen(st)[n..] == st.prevData[n..prev];
      assert Seen(st)[n - 1] == line[n - 1];
      FullRowOfTrimmed(Seen(st), n, width);
    } else if n > prev {
      assert line[..prev] == Seen(st);
      assert line[prev - 1] == Seen(st)[prev - 1];
      FullRowOfTrimmed(line, prev, width);
    }
  }

  /** A line just set is not reported changed again. */
  lemma {:induction false} SetIsUnchanged(st: LineState, line: Line)
    requires LineStateOk(st) && line != []
    ensures LineStateOk(SetLine(st, line)) && !Changed(SetLine(st, line), line)
    ensures SetLine(SetLine(st, line), line) == SetLine(st, line)
  {
    var next := SetLine(st, line);
    assert next.prevData[..|line|] == line;
    assert Overlay(next.prevData, line) == next.prevData;
  }

  // ---------- Soundness on a terminal that keeps what it hides ----------

  /**
    A terminal row that is resized along with the line. Cells beyond the current width are hidden, not erased, and
    come back when the row grows.
   */
  type Memory = seq<CharInfo>

  function Redraw(memory: Memory, line: Line): Memory {
    Overlay(memory, line)
  }

  /** One visit to a line: it is compared, or set without comparing, and sent again if changed or set. */
  datatype Visit = Visit(line: Line, force: bool)

  datatype Tracked = Tracked(st: LineState, memory: Memory)

  function VisitLine(t: Tracked, v: Visit): Tracked
    requires t.st.prevLength <= |t.st.prevData| && v.line != []
  {
    Tracked(SetLine(t.st, v.line), if v.force || Changed(t.st, v.line) then Redraw(t.memory, v.line) else t.memory)
  }

  function VisitAll(t: Tracked, visits: seq<Visit>): (r: Tracked)
    requires t.st.prevLength <= |t.st.prevData| && forall i :: 0 <= i < |visits| ==> visits[i].line != []
    ensures r.st.prevLength <= |r.st.prevData|
    decreases |visits|
  {
    if visits == [] then t else VisitAll(VisitLine(t, visits[0]), visits[1..])
  }

  /** Cell `i` of the terminal's memory, blank if never written. */
  function TextAt(cells: Line, i: nat): Word {
    if i < |cells| then cells[i].ch else 0x20
  }

  /** What is remembered is what the terminal holds, hidden cells included. */
  ghost predicate InStep(t: Tracked) {
    LineStateOk(t.st) && forall i: nat :: TextAt(t.memory, i) == TextAt(t.st.prevData, i)
  }

  lemma {:induction false} OverlayText(data: Line, line: Line, i: nat)
    ensures TextAt(Overlay(data, line), i) == if i < |line| then line[i].ch else TextAt(data, i)
  {
  }

  lemma {:induction false} UnchangedText(st: LineState, line: Line, i: nat)
    requires LineStateOk(st) && line != [] && !Changed(st, line) && i < |line|
    ensures TextAt(st.prevData, i) == line[i].ch
  {
    var n, prev, data := |line|, st.prevLength, st.prevData;
    if i < Min(n, prev) {
      assert data[i] == data[..Min(n, prev)][i] == line[..Min(n, prev)][i];
    } else {
      assert IsBlankCell(line[prev..][i - prev], data[prev - 1].attributes);
      if i < |data| {
        assert IsBlankCell(data[prev..Min(|data|, n)][i - prev], data[prev - 1].attributes);
      }
    }
  }

  lemma {:induction false} VisitKeepsStep(t: Tracked, v: Visit)
    requires InStep(t) && v.line != []
    ensures InStep(VisitLine(t, v))
  {
    var r := VisitLine(t, v);
    forall i: nat
      ensures TextAt(r.memory, i) == TextAt(r.st.prevData, i)
    {
      OverlayText(t.st.prevData, v.line, i);
      OverlayText(t.memory, v.line, i);
      if !v.force && !Changed(t.st, v.line) && i < |v.line| {
        UnchangedText(t.st, v.line, i);
      }
    }
  }

  lemma {:induction false} VisitsKeepStep(t: Tracked, visits: seq<Visit>)
    requires InStep(t) && forall i :: 0 <= i < |visits| ==> visits[i].line != []
    ensures InStep(VisitAll(t, visits))
    ensures visits != [] ==> Seen(VisitAll(t, visits).st) == visits[|visits| - 1].line
    decreases |visits|
  {
    if visits != [] {
      VisitKeepsStep(t, visits[0]);
      VisitsKeepStep(VisitLine(t, visits[0]), visits[1..]);
    }
  }

  /**
    From a cleared row, after any visits with lines of any lengths, the visible part of the terminal row reads as the
    line last visited, sent again or not.
   */
  lemma {:induction false} VisibleTextIsTheLine(visits: seq<Visit>, memory: Memory)
    requires visits != [] && forall i :: 0 <= i < |visits| ==> visits[i].line != []
    requires forall i :: 0 <= i < |memory| ==> memory[i].ch == 0x20
    ensures var last := visits[|visits| - 1].line;
      var r := VisitAll(Tracked(FORGOTTEN, memory), visits);
      forall i :: 0 <= i < |last| ==> TextAt(r.memory, i) == last[i].ch
  {
    var last := visits[|visits| - 1].line;
    var r := VisitAll(Tracked(FORGOTTEN, memory), visits);
    VisitsKeepStep(Tracked(FORGOTTEN, memory), visits);
    forall i | 0 <= i < |last|
      ensures TextAt(r.memory, i) == last[i].ch
    {
      assert Seen(r.st)[i] == r.st.prevData[i];
    }
  }

  // ---------- The class ----------

  class Tracker {
    var prevLength: nat
    var prevData: Line

    ghost function State(): LineState
      reads this
    {
      LineState(prevLength, prevData)
    }

    constructor ()
      ensures State() == FORGOTTEN
    {
      prevLength := 0;
      prevData := [];
    }

    method Reset()
      modifies this
      ensures State() == FORGOTTEN
    {
      prevLength := 0;
      prevData := [];
    }

    /** Compares and sets: the state afterwards is the one `Set` leaves, whatever the answer. */
    method DetectChangeAndSet(line: Line) returns (changed: bool)
      requires line != [] && LineStateOk(State())
      modifies this
      ensures changed == Changed(old(State()), line)
      ensures State() == SetLine(old(State()), line) && LineStateOk(State())
    {
      var n := |line|;
      if n == prevLength {
        changed := prevData[..n] != line;
        if changed {
          Set(line);
        } else {
          assert prevData == prevData[..n] + prevData[n..];
        }
      } else if prevLength == 0 {
        Set(line);
        changed := true;
      } else {
        var prevBlank, newBlank := prevData[prevLength - 1].attributes, line[n - 1].attributes;
        var equal := false;
        if n < prevLength {
          equal := prevData[..n] == line;
          if equal {
            equal := LineIsBlank(prevData[n..prevLength], newBlank);
          }
        } else {
          equal := prevData[..prevLength] == line[..prevLength];
          if equal {
            equal := LineIsBlank(prevData[prevLength..Min(|prevData|, n)], prevBlank);
          }
          if equal {
            equal := LineIsBlank(line[prevLength..], prevBlank);
          }
        }
        Set(line);
        changed := !equal;
      }
    }

    method Set(line: Line)
      modifies this
      ensures State() == SetLine(old(State()), line) && LineStateOk(State())
    {
      if |prevData| < |line| {
        prevData := line;
      } else {
        prevData := line + prevData[|line|..];
      }
      prevLength := |line|;
    }

    method MakeBlank(attributes: Word)
      modifies this
      ensures State() == LineState(1, [CharInfo(0x20, attributes)])
    {
      prevData := [CharInfo(0x20, attributes)];
      prevLength := 1;
    }
  }

  method LineIsBlank(cells: Line, attributes: Word) returns (blank: bool)
    ensures blank == IsLineBlank(cells, attributes)
  {
    for col := 0 to |cells|
      invariant forall i :: 0 <= i < col ==> IsBlankCell(cells[i], attributes)
    {
      if cells[col].attributes != attributes || cells[col].ch != 0x20 {
        assert !IsBlankCell(cells[col], attributes);
        return false;
      }
    }
    return true;
  }
}
