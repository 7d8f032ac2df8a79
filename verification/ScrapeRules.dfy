/** What a scrolling scrape decides: whether it goes through, where the marker goes and what is looked at again. */
module ScrapeRules {
  import opened Basics
  import opened Color
  import opened Emitter
  import opened ConsoleLine
  import opened Scraping
  import opened ScrollMirror
  import opened SyncMarker

  /** Where a marker that was in row `s.syncRow` is found, -1 if there was none or it is gone. */
  function FoundAt(s: Scroll, view: View): int
    requires ViewOk(view)
  {
    if s.syncRow == -1 then -1 else FindMarker(FirstColumn(view.before), s.syncRow, MarkerText(s.syncCounter))
  }

  predicate Lost(s: Scroll, view: View)
    requires ViewOk(view)
  {
    s.syncRow != -1 && FoundAt(s, view) == -1
  }

  /** The window is above where it was, by the numbers still held. */
  predicate Rose(s: Scroll, view: View)
    requires ViewOk(view)
  {
    s.dirtyTop != -1 && view.info.window.top < s.dirtyTop && !Lost(s, view)
  }

  /** The window is so far below the marker that a new one is due: 16 rows for it and 200 to spare, twice. */
  predicate MarkerDue(s: Scroll, view: View)
    requires ViewOk(view)
  {
    view.info.window.top - 216 >= FoundAt(s, view) + 216
  }

  /** The console was seen to change while it was read. */
  predicate Disturbed(s: Scroll, view: View)
    requires ViewOk(view)
  {
    var row := FoundAt(s, view);
    view.infoAfter != view.info
    || (row != -1 && FindMarker(FirstColumn(view.after), row, MarkerText(s.syncCounter)) != row)
  }

  /** A scrape is given up exactly if the console is running and would have to be frozen, or has moved meanwhile. */
  lemma {:induction false} GivesUpExactly(cfg: Config, s: Scroll, view: View)
    requires ScrollOk(s) && ViewOk(view) && Ready(s, view)
    ensures !Scrape(cfg, s, view).ok <==>
      view.tentative && (Lost(s, view) || MarkerDue(s, view) || Rose(s, view) || Disturbed(s, view))
    ensures !Scrape(cfg, s, view).ok ==> Scrape(cfg, s, view).state.sweep == s.sweep
  {
    hide SweepLines, RingOk, StateOk, FirstColumn, ScanDirty, ScrollRows, MarkerText, FindMarker;
  }

  /** A scrape that starts afresh has lost the marker or sees the window above where it was, and is not tentative. */
  lemma {:induction false} ClearsExactly(s: Scroll, view: View)
    requires ScrollOk(s) && ViewOk(view)
    ensures Clears(s, view) <==> !view.tentative && (Lost(s, view) || Rose(s, view))
  {
    hide RingOk, StateOk, FirstColumn, MarkerText, FindMarker;
  }

  /** The console has scrolled, or its window has gone down. */
  predicate Shifted(s: Scroll, view: View)
    requires ViewOk(view)
  {
    FoundAt(s, view) != s.syncRow || (s.dirtyTop != -1 && view.info.window.top > s.dirtyTop)
  }

  /**
    A scrape that goes through leaves the marker where it found it or puts the next one 216 rows above the window; it
    counts the rows the marker has gone up; and after any such move all of the window is looked at again.
   */
  lemma {:induction false} MarkerGoes(cfg: Config, s: Scroll, view: View)
    requires ScrollOk(s) && ViewOk(view) && Ready(s, view) && Scrape(cfg, s, view).ok
    ensures var r, due, info := Scrape(cfg, s, view).state, MarkerDue(s, view), view.info;
      && r.syncRow == (if due then info.window.top - 216 else if Rose(s, view) then -1 else FoundAt(s, view))
      && r.syncCounter == (if due then (s.syncCounter + 1) % 0x1_0000_0000 else s.syncCounter)
      && r.scrolled == (if Lost(s, view) || Rose(s, view) then 0
                        else if s.syncRow == -1 then s.scrolled else s.scrolled + s.syncRow - FoundAt(s, view))
      && r.dirtyTop == info.window.top && info.cursorY + 1 <= r.dirtyCount
      && (!Clears(s, view) ==> s.dirtyCount <= r.dirtyCount)
      && (!Clears(s, view) && Shifted(s, view) ==> info.window.top + info.window.height <= r.dirtyCount)
  {
    hide RingOk, StateOk, ScanDirty, ScrollRows, SweepLines, HideCursor, ShowCursor, Located, FollowMarker, FoundAt,
        Shifted, Lost, Rose, Clears;
    WhereItIs(cfg, s, view);
    WhatIsDue(cfg, s, view);
  }

  /** Marker and window followed, and nothing else done yet. */
  lemma {:induction false} WhereItIs(cfg: Config, s: Scroll, view: View)
    requires ScrollOk(s) && ViewOk(view) && Ready(s, view)
    ensures var located := Located(cfg, s, view);
      located.ok ==>
        && located.state.syncRow == (if Rose(s, view) then -1 else FoundAt(s, view))
        && located.state.syncCounter == s.syncCounter
        && located.state.scrolled == (if Lost(s, view) || Rose(s, view) then 0
                                      else if s.syncRow == -1 then s.scrolled
                                      else s.scrolled + s.syncRow - FoundAt(s, view))
        && Max(located.state.dirtyCount, Max(view.info.cursorY + 1, view.info.window.top)) == SureDirty(s, view)
  {
    hide RingOk, StateOk, FirstColumn, MarkerText, FindMarker;
  }

  lemma {:induction false} WhatIsDue(cfg: Config, s: Scroll, view: View)
    requires ScrollOk(s) && ViewOk(view) && Ready(s, view) && Located(cfg, s, view).ok
    ensures ShouldCreate(FollowMarker(cfg, s, view).state, view) <==> MarkerDue(s, view)
  {
    hide RingOk, StateOk, FirstColumn, MarkerText, FindMarker;
  }

  /** Lines that are dirty without a look: those known, those above the window or its cursor, and what has moved. */
  function SureDirty(s: Scroll, view: View): int
    requires ViewOk(view)
  {
    var known := if Clears(s, view) then 0 else s.dirtyCount;
    var moved := if !Clears(s, view) && Shifted(s, view) then view.info.window.top + view.info.window.height else 0;
    Max(Max(known, moved), Max(view.info.cursorY + 1, view.info.window.top))
  }

  /** No other line is counted as dirty but down to one of the window that is not blank in the colour above it. */
  lemma {:induction false} DirtyExactly(cfg: Config, s: Scroll, view: View)
    requires ScrollOk(s) && ViewOk(view) && Ready(s, view) && Scrape(cfg, s, view).ok
    ensures var n, rows := Scrape(cfg, s, view).state.dirtyCount, ScrollRows(view);
      && SureDirty(s, view) <= n
      && (SureDirty(s, view) < n ==>
            2 <= n <= WindowStop(view.info) && !IsLineBlank(rows[n - 1], LastAttributes(rows[n - 2])))
      && RestBlank(view, n)
  {
    hide RingOk, StateOk, ScanDirty, ScrollRows, SweepLines, HideCursor, ShowCursor, IsLineBlank, LastAttributes,
        RestBlank, SureDirty, Located, FollowMarker, ShouldCreate;
    var sure, stop := SureDirty(s, view), WindowStop(view.info);
    WhereItIs(cfg, s, view);
    PreparedRestBlank(cfg, s, view);
    SureInside(s, view);
    RestIsUniform(ScrollRows(view), sure, stop, sure);
  }

  lemma {:induction false} SureInside(s: Scroll, view: View)
    requires ScrollOk(s) && ViewOk(view)
    ensures 1 <= SureDirty(s, view) <= BUFFER_LINE_COUNT
  {
    hide RingOk, StateOk, Clears, Shifted;
  }

  /** After a scrape of a window that did not rise the marker is near enough: the next one is not due yet. */
  lemma {:induction false} MarkerIsNear(cfg: Config, s: Scroll, view: View)
    requires ScrollOk(s) && ViewOk(view) && Ready(s, view) && Scrape(cfg, s, view).ok && !Rose(s, view)
    ensures view.info.window.top < Scrape(cfg, s, view).state.syncRow + 432
  {
    hide RingOk, StateOk, FirstColumn, MarkerText, FindMarker, Scrape, ViewOk;
    MarkerGoes(cfg, s, view);
  }

  // ---------- The marker in the console ----------

  /** The word, a star after each letter, and then the counter in eight digits. */
  function MarkerCharacter(counter: nat, k: nat): char
    requires k < 16
  {
    if k < 8 then "S*Y*N*C*"[k] else "0123456789abcdef"[counter / Power16(15 - k) % 16]
  }

  /** Read down the first column. */
  ghost predicate Reads(cells: seq<Line>, row: int, counter: nat)
    requires forall r :: 0 <= r < |cells| ==> cells[r] != []
  {
    && 0 <= row && row + 16 <= |cells|
    && forall k :: 0 <= k < 16 ==> cells[row + k][0].ch == MarkerCharacter(counter, k) as int
  }

  lemma {:induction false} DigitIsHex(d: nat)
    requires d < 16
    ensures HexDigit(d) == "0123456789abcdef"[d] as int
  {
  }

  lemma {:induction false} HexDigitsAt(n: nat, count: nat, k: nat)
    requires k < count
    ensures HexDigits(n, count)[k] == "0123456789abcdef"[n / Power16(count - 1 - k) % 16] as int
  {
    hide HexDigit;
    if k == count - 1 {
      DigitIsHex(n % 16);
    } else {
      HexDigitsAt(n / 16, count - 1, k);
      DivideTwice(n, 16, Power16(count - 2 - k));
    }
  }

  lemma {:induction false} MarkerTextAt(counter: nat, k: nat)
    requires k < 16
    ensures MarkerText(counter)[k] == MarkerCharacter(counter, k) as int
  {
    hide HexDigits, Power16;
    if k >= 8 {
      HexDigitsAt(counter, 8, k - 8);
    }
  }

  lemma {:induction false} MarkerIsRead(cells: seq<Line>, row: int, counter: nat)
    requires forall r :: 0 <= r < |cells| ==> cells[r] != []
    ensures MarkerAt(FirstColumn(cells), row, MarkerText(counter)) <==> Reads(cells, row, counter)
  {
    hide MarkerText, MarkerCharacter;
    if 0 <= row && row + 16 <= |cells| {
      var part := FirstColumn(cells)[row..row + 16];
      forall k | 0 <= k < 16
        ensures MarkerText(counter)[k] == MarkerCharacter(counter, k) as int && part[k] == cells[row + k][0].ch
      {
        MarkerTextAt(counter, k);
      }
    }
  }

  /** The marker is looked for from its last row upwards, and the first place where it reads so is taken. */
  lemma {:induction false} FoundIsLowest(s: Scroll, view: View)
    requires ScrollOk(s) && ViewOk(view) && s.syncRow != -1
    ensures var row := FoundAt(s, view);
      && (row != -1 ==> row <= s.syncRow && Reads(view.before, row, s.syncCounter))
      && forall i :: row < i <= s.syncRow ==> !Reads(view.before, i, s.syncCounter)
  {
    hide FirstColumn, MarkerText, FindMarker, Reads, RingOk, StateOk;
    forall i
      ensures MarkerAt(FirstColumn(view.before), i, MarkerText(s.syncCounter)) <==> Reads(view.before, i, s.syncCounter)
    {
      MarkerIsRead(view.before, i, s.syncCounter);
    }
  }
}
