/** The marker in the console's scrollback keeps virtual line numbers true while the console scrolls. */
module SyncMarker {
  import opened Basics
  import opened Color
  import opened Emitter
  import opened Scraping

  // ---------- The text of a marker ----------

  lemma {:induction false} HexDigitInjective(a: nat, b: nat)
    requires a < 16 && b < 16 && HexDigit(a) == HexDigit(b)
    ensures a == b
  {
  }

  function Power16(count: nat): (r: nat)
    ensures r > 0
  {
    if count == 0 then 1 else 16 * Power16(count - 1)
  }

  lemma {:induction false} HexDigitsInjective(a: nat, b: nat, count: nat)
    requires a < Power16(count) && b < Power16(count) && HexDigits(a, count) == HexDigits(b, count)
    ensures a == b
  {
    if count > 0 {
      assert HexDigits(a, count)[..count - 1] == HexDigits(a / 16, count - 1);
      assert HexDigits(b, count)[..count - 1] == HexDigits(b / 16, count - 1);
      assert HexDigits(a, count)[count - 1] == HexDigit(a % 16) && HexDigits(b, count)[count - 1] == HexDigit(b % 16);
      HexDigitInjective(a % 16, b % 16);
      HexDigitsInjective(a / 16, b / 16, count - 1);
    }
  }

  /** A marker left from an earlier tracking is not taken for the present one. */
  lemma {:induction false} MarkersDiffer(a: nat, b: nat)
    requires a < 0x1_0000_0000 && b < 0x1_0000_0000 && MarkerText(a) == MarkerText(b)
    ensures a == b
  {
    assert MarkerText(a)[8..] == HexDigits(a, 8) && MarkerText(b)[8..] == HexDigits(b, 8);
    assert Power16(8) == 0x1_0000_0000 by {
      assert Power16(2) == 256 && Power16(4) == 0x1_0000;
    }
    HexDigitsInjective(a, b, 8);
  }

  // ---------- The console as it scrolls ----------

  /**
    What is really so: how many rows the console has scrolled since its rows were last numbered afresh, and the row
    the marker is in, -1 if there is none. A line that was in row `r` then is now in row `r - scrolled`.
   */
  datatype World = World(scrolled: nat, marker: int)

  /** A row that scrolls up keeps its line: row and count together stay the same. */
  function Shift(w: World, rows: nat): (r: World)
    ensures r.scrolled == w.scrolled + rows
    ensures if w.marker == -1 then r.marker == -1 else r.marker + r.scrolled == w.marker + w.scrolled
  {
    World(w.scrolled + rows, if w.marker == -1 then -1 else w.marker - rows)
  }

  /**
    One scrape, and the rows the console scrolls before it, between its first look and its read, and after the read.
   */
  datatype Moment = Moment(view: View, waiting: nat, reading: nat, checking: nat)

  /** No program writes the marker's text: the marker is where it is and nowhere else above. */
  ghost predicate OnlyMarker(s: Scroll, cells: seq<Line>, row: int)
    requires forall r :: 0 <= r < |cells| ==> cells[r] != []
  {
    forall i :: 0 <= i <= s.syncRow ==> (MarkerAt(FirstColumn(cells), i, MarkerText(s.syncCounter)) <==> i == row)
  }

  function Start(w: World, m: Moment): World {
    Shift(w, m.waiting)
  }

  function End(w: World, m: Moment): World {
    Shift(w, m.waiting + m.reading + m.checking)
  }

  /** The console scrolls no further than the marker allows, and not at all without one or while frozen. */
  ghost predicate MomentOk(s: Scroll, w: World, m: Moment)
    requires ViewOk(m.view)
  {
    && (w.marker == -1 ==> m.waiting + m.reading + m.checking == 0)
    && (w.marker != -1 ==>
          && End(w, m).marker >= 0
          && OnlyMarker(s, m.view.before, Start(w, m).marker) && OnlyMarker(s, m.view.after, End(w, m).marker))
    && (!m.view.tentative ==> m.reading + m.checking == 0)
  }

  /** The tracker is behind by as much as the marker has moved since it last looked. */
  ghost predicate InPlace(s: Scroll, w: World) {
    if w.marker == -1 then s.syncRow == -1 && w.scrolled == s.scrolled
    else 0 <= w.marker <= s.syncRow && s.syncRow - w.marker == w.scrolled - s.scrolled
  }

  /** Whether the scrape numbers the rows afresh. */
  predicate Renumbers(s: Scroll, view: View) {
    s.dirtyTop != -1 && view.info.window.top < s.dirtyTop && !view.tentative
  }

  function Later(cfg: Config, s: Scroll, w: World, m: Moment): World
    requires ScrollOk(s) && ViewOk(m.view) && Ready(s, m.view)
  {
    var followed := FollowMarker(cfg, s, m.view).state;
    var now := if Located(cfg, s, m.view).ok && Renumbers(followed, m.view) then World(0, -1) else End(w, m);
    if Scrape(cfg, s, m.view).ok && ShouldCreate(followed, m.view) then now.(marker := NewSyncRow(m.view)) else now
  }

  /** Looking for the marker finds it in its true row, and counts exactly the rows scrolled. */
  lemma {:induction false} MarkerFollowed(cfg: Config, s: Scroll, w: World, m: Moment)
    requires ScrollOk(s) && ViewOk(m.view) && Ready(s, m.view) && InPlace(s, w) && MomentOk(s, w, m)
    ensures var followed := FollowMarker(cfg, s, m.view);
      && followed.ok && followed.state.sweep == s.sweep && followed.state.dirtyTop == s.dirtyTop
      && followed.state.scrolled == Start(w, m).scrolled && followed.state.syncRow == Start(w, m).marker
      && followed.state.syncCounter == s.syncCounter
  {
    if s.syncRow != -1 {
      var column, marker := FirstColumn(m.view.before), MarkerText(s.syncCounter);
      var row := FindMarker(column, s.syncRow, marker);
      assert MarkerAt(column, Start(w, m).marker, marker);
    }
  }

  /** A tentative scrape that goes through was not overtaken by scrolling. */
  lemma {:induction false} SteadyMeansStill(s: Scroll, marked: Scroll, w: World, m: Moment)
    requires ViewOk(m.view) && MomentOk(s, w, m) && Steady(marked, m.view)
    requires marked.syncRow == Start(w, m).marker && marked.syncCounter == s.syncCounter && InPlace(s, w)
    ensures m.reading == 0 && m.checking == 0
  {
    if marked.syncRow != -1 {
      var column, marker := FirstColumn(m.view.after), MarkerText(s.syncCounter);
      assert MarkerAt(column, FindMarker(column, marked.syncRow, marker), marker);
    }
  }

  /**
    A scrape keeps the tracker in place. One that completes reads row `r` as line `r + scrolled`, and that many rows
    have really been scrolled when it reads them.
   */
  lemma {:induction false} ScrapeKeepsPlace(cfg: Config, s: Scroll, w: World, m: Moment)
    requires ScrollOk(s) && ViewOk(m.view) && Ready(s, m.view) && InPlace(s, w) && MomentOk(s, w, m)
    ensures var r := Scrape(cfg, s, m.view);
      && InPlace(r.state, Later(cfg, s, w, m))
      && (r.ok ==> r.state.scrolled == Later(cfg, s, w, m).scrolled && r.state.syncRow == Later(cfg, s, w, m).marker)
      && (r.ok && !Renumbers(s, m.view) ==> r.state.scrolled == w.scrolled + m.waiting && m.reading + m.checking == 0)
  {
    hide FollowMarker, SweepLines, RingOk, StateOk, Steady, FirstColumn, OnlyMarker, ScanDirty, ResetTracking,
        ScrollRows;
    MarkerFollowed(cfg, s, w, m);
    var followed := FollowMarker(cfg, s, m.view).state;
    var located := Located(cfg, s, m.view);
    if located.ok {
      ResetIsFresh(cfg, followed, m.view);
      var marked := MarkDirty(located.state, m.view);
      if m.view.tentative && Steady(marked, m.view) {
        SteadyMeansStill(s, marked, w, m);
      }
    }
  }

  lemma {:induction false} ResetIsFresh(cfg: Config, s: Scroll, view: View)
    requires ScrollOk(s) && ViewOk(view)
    ensures var r := ResetTracking(cfg, s, true, view.info.window.top); r.syncRow == -1 && r.scrolled == 0
  {
  }

  // ---------- All scrapes ----------

  ghost predicate MomentsOk(cfg: Config, s: Scroll, w: World, moments: seq<Moment>)
    requires ScrollOk(s)
    decreases |moments|
  {
    moments != [] ==>
      && ViewOk(moments[0].view) && Begins(s, moments[0].view) && MomentOk(s, w, moments[0])
      && MomentsOk(cfg, Scrape(cfg, s, moments[0].view).state, Later(cfg, s, w, moments[0]), moments[1..])
  }

  function AfterAll(cfg: Config, s: Scroll, w: World, moments: seq<Moment>): (r: (Scroll, World))
    requires ScrollOk(s) && MomentsOk(cfg, s, w, moments)
    ensures ScrollOk(r.0)
    decreases |moments|
  {
    if moments == [] then (s, w)
    else AfterAll(cfg, Scrape(cfg, s, moments[0].view).state, Later(cfg, s, w, moments[0]), moments[1..])
  }

  /** Over any run of scrapes, completed or given up, the tracker's count and marker stay true. */
  lemma {:induction false} RunKeepsPlace(cfg: Config, s: Scroll, w: World, moments: seq<Moment>)
    requires ScrollOk(s) && MomentsOk(cfg, s, w, moments) && InPlace(s, w)
    ensures InPlace(AfterAll(cfg, s, w, moments).0, AfterAll(cfg, s, w, moments).1)
    decreases |moments|
  {
    hide Scrape, Later, ScrollOk, InPlace;
    if moments != [] {
      ScrapeKeepsPlace(cfg, s, w, moments[0]);
      RunKeepsPlace(cfg, Scrape(cfg, s, moments[0].view).state, Later(cfg, s, w, moments[0]), moments[1..]);
    }
  }
}
