/**
  Double clicks, told from the mouse records alone: which press completes one, over any run of records. The scanner
  keeps only the buttons and one press in mind.
 */
module DoubleClicks {
  import opened Basics
  import opened InputPatterns
  import opened ConsoleInput

  /** A mouse record, and what the system says when it comes. */
  datatype Click = Click(env: Env, record: MouseRecord)

  const AT_REST := MouseState(Buttons(false, false, false), NO_CLICK)

  function Front(h: seq<Click>): seq<Click>
    requires h != []
  {
    h[..|h| - 1]
  }

  function Last(h: seq<Click>): Click
    requires h != []
  {
    h[|h| - 1]
  }

  /** What the scanner keeps in mind after the records `h`. */
  function After(h: seq<Click>): MouseState
    decreases |h|
  {
    if h == [] then AT_REST else MouseStep(Last(h).env, After(Front(h)), Last(h).record).0
  }

  // ---------- What the records say ----------

  predicate IsWheel(m: MouseRecord) {
    HasFlag(m.flags, 0x40)
  }

  /** Flags that name no button release them all. */
  predicate ReleasesAll(m: MouseRecord) {
    !IsWheel(m) && m.flags % 4 == 3
  }

  predicate NamesButton(m: MouseRecord, button: Button) {
    !IsWheel(m) && m.flags % 4 != 3 && ButtonOf(m.flags) == button
  }

  predicate Releases(m: MouseRecord, button: Button) {
    ReleasesAll(m) || (NamesButton(m, button) && m.release)
  }

  predicate Presses(m: MouseRecord, button: Button) {
    NamesButton(m, button) && !m.release
  }

  /** A button is as the last record about it left it. */
  predicate Down(h: seq<Click>, button: Button)
    decreases |h|
  {
    && h != []
    && (Presses(Last(h).record, button) || (!Releases(Last(h).record, button) && Down(Front(h), button)))
  }

  /** Record `k` presses a button that was up. */
  predicate Fresh(h: seq<Click>, k: nat, button: Button) {
    k < |h| && Presses(h[k].record, button) && !Down(h[..k], button)
  }

  predicate IsFresh(h: seq<Click>, k: nat) {
    exists button :: Fresh(h, k, button)
  }

  /** Two presses of one button at one place, close enough in time. */
  predicate Pair(first: Click, second: Click) {
    && ButtonOf(first.record.flags) == ButtonOf(second.record.flags)
    && first.record.x == second.record.x && first.record.y == second.record.y
    && second.env.now - first.env.now < second.env.doubleClickTime
  }

  /**
    Record `i` may become the first press of a double click: it is a fresh press that did not complete one, and since
    then no button has been freshly pressed and none but its own released.
   */
  ghost predicate Candidate(h: seq<Click>, i: nat)
    decreases |h|, 2
  {
    && i < |h| && IsFresh(h, i) && !Completes(h[..i + 1])
    && forall k :: i < k < |h| ==> Between(h, k, ButtonOf(h[i].record.flags))
  }

  ghost predicate Between(h: seq<Click>, k: nat, button: Button)
    requires k < |h|
  {
    !IsFresh(h, k) && forall other :: Releases(h[k].record, other) && other != button ==> ReleasesAll(h[k].record)
  }

  /** The last record is the second press of a double click. */
  ghost predicate Completes(h: seq<Click>)
    decreases |h|, 1
  {
    && h != [] && IsFresh(h, |h| - 1)
    && exists i :: 0 <= i < |h| - 1 && Candidate(Front(h), i) && Pair(h[i], Last(h))
  }

  // ---------- What the scanner keeps ----------

  lemma {:induction false} ButtonsAreKnown(h: seq<Click>, button: Button)
    ensures IsDown(After(h).buttons, button) == Down(h, button)
    decreases |h|
  {
    if h != [] {
      ButtonsAreKnown(Front(h), button);
      ButtonsAreKnown(Front(h), ButtonOf(Last(h).record.flags));
    }
  }

  ghost predicate Recalls(c: DoubleClick, click: Click) {
    && c.button == Some(ButtonOf(click.record.flags))
    && c.x == click.record.x && c.y == click.record.y && c.tick == click.env.now
  }

  /** The press kept in mind is the one candidate there is. */
  ghost predicate Tracks(h: seq<Click>) {
    var c := After(h).doubleClick;
    && (forall i: nat :: i < |h| && Candidate(h, i) ==> Recalls(c, h[i]))
    && (c.button.Some? ==> exists i: nat :: Candidate(h, i))
  }

  lemma {:induction false} FreshInFront(h: seq<Click>, k: nat)
    requires h != [] && k < |h| - 1
    ensures IsFresh(Front(h), k) == IsFresh(h, k)
  {
    assert Front(h)[..k] == h[..k];
    forall button: Button
      ensures Fresh(Front(h), k, button) == Fresh(h, k, button)
    {
    }
  }

  /** A candidate stays one as long as nothing ends it. */
  lemma {:induction false} CandidateInFront(h: seq<Click>, i: nat)
    requires h != [] && i < |h| - 1
    ensures Candidate(h, i) <==> Candidate(Front(h), i) && Between(h, |h| - 1, ButtonOf(h[i].record.flags))
  {
    hide IsFresh, Completes;
    FreshInFront(h, i);
    assert Front(h)[..i + 1] == h[..i + 1];
    forall k | i < k < |h| - 1
      ensures Between(h, k, ButtonOf(h[i].record.flags)) == Between(Front(h), k, ButtonOf(h[i].record.flags))
    {
      FreshInFront(h, k);
    }
  }

  lemma {:induction false} LastIsCandidate(h: seq<Click>)
    requires h != []
    ensures Candidate(h, |h| - 1) <==> IsFresh(h, |h| - 1) && !Completes(h)
  {
    assert h[..|h|] == h;
  }

  lemma {:induction false} FreshButton(h: seq<Click>)
    requires h != []
    ensures IsFresh(h, |h| - 1) <==> Fresh(h, |h| - 1, ButtonOf(Last(h).record.flags))
  {
  }

  /** What the scanner does at the last record. */
  lemma {:induction false} StepOf(h: seq<Click>)
    requires h != []
    ensures var c, m, button := After(Front(h)).doubleClick, Last(h).record, ButtonOf(Last(h).record.flags);
      var pairs := c.button == Some(button) && c.x == m.x && c.y == m.y
        && Last(h).env.now - c.tick < Last(h).env.doubleClickTime;
      After(h).doubleClick ==
        if IsFresh(h, |h| - 1) then
          if pairs then NO_CLICK else c.(button := Some(button), x := m.x, y := m.y, tick := Last(h).env.now)
        else if ReleasesAll(m) then c.(released := true)
        else if Releases(m, button) then if c.button == Some(button) then c.(released := true) else NO_CLICK
        else c
  {
    hide After;
    FreshButton(h);
    ButtonsAreKnown(Front(h), ButtonOf(Last(h).record.flags));
    assert After(h) == MouseStep(Last(h).env, After(Front(h)), Last(h).record).0 by {
      AfterStep(h);
    }
  }

  lemma {:induction false} AfterStep(h: seq<Click>)
    requires h != []
    ensures After(h) == MouseStep(Last(h).env, After(Front(h)), Last(h).record).0
  {
  }

  lemma {:induction false} CompletesOf(h: seq<Click>)
    requires h != [] && Tracks(Front(h))
    ensures var c, m := After(Front(h)).doubleClick, Last(h).record;
      Completes(h) <==>
        && IsFresh(h, |h| - 1) && c.button == Some(ButtonOf(m.flags)) && c.x == m.x && c.y == m.y
        && Last(h).env.now - c.tick < Last(h).env.doubleClickTime
  {
    hide After, IsFresh, Candidate;
    var c := After(Front(h)).doubleClick;
    if c.button.Some? {
      var i: nat :| Candidate(Front(h), i);
      CandidateInside(Front(h), i);
      assert Recalls(c, Front(h)[i]) && Front(h)[i] == h[i];
    }
    if Completes(h) {
      var i :| 0 <= i < |h| - 1 && Candidate(Front(h), i) && Pair(h[i], Last(h));
      assert Recalls(c, Front(h)[i]) && Front(h)[i] == h[i];
    }
  }

  lemma {:induction false} CandidateInside(h: seq<Click>, i: nat)
    requires Candidate(h, i)
    ensures i < |h|
  {
  }

  lemma {:induction false} TracksStep(h: seq<Click>)
    requires h != [] && Tracks(Front(h))
    ensures Tracks(h)
  {
    hide After, IsFresh, Candidate, Completes, Releases, ReleasesAll;
    var c, d := After(Front(h)).doubleClick, After(h).doubleClick;
    StepOf(h);
    CompletesOf(h);
    LastIsCandidate(h);
    forall i: nat | i < |h| && Candidate(h, i)
      ensures Recalls(d, h[i])
    {
      EndedBy(h, ButtonOf(h[i].record.flags));
      if i < |h| - 1 {
        CandidateInFront(h, i);
        assert Recalls(c, Front(h)[i]);
      }
    }
    if d.button.Some? && !IsFresh(h, |h| - 1) {
      var i: nat :| Candidate(Front(h), i);
      CandidateInside(Front(h), i);
      assert Recalls(c, Front(h)[i]);
      EndedBy(h, ButtonOf(h[i].record.flags));
      CandidateInFront(h, i);
    }
  }

  /** What ends a candidate that pressed `button`. */
  lemma {:induction false} EndedBy(h: seq<Click>, button: Button)
    requires h != []
    ensures Between(h, |h| - 1, button) <==>
        && !IsFresh(h, |h| - 1)
        && (ReleasesAll(Last(h).record) || !Releases(Last(h).record, ButtonOf(Last(h).record.flags))
            || ButtonOf(Last(h).record.flags) == button)
  {
    hide IsFresh;
  }

  lemma {:induction false} AlwaysTracks(h: seq<Click>)
    ensures Tracks(h)
    decreases |h|
  {
    hide Tracks;
    if h == [] {
      NothingTracked();
    } else {
      AlwaysTracks(Front(h));
      TracksStep(h);
    }
  }

  lemma {:induction false} NothingTracked()
    ensures Tracks([])
  {
  }

  // ---------- The reports ----------

  /**
    Over any run of records, the event made of the last one is marked as a double click exactly if that record is the
    second press of one.
   */
  lemma {:induction false} DoubleClickIsMarked(h: seq<Click>)
    requires h != []
    ensures var events := MouseStep(Last(h).env, After(Front(h)), Last(h).record).1;
      events == [] || (|events| == 1 && events[0].MouseRecordEvent? && events[0].mouse.doubleClick == Completes(h))
  {
    hide After, Completes, Tracks, Place;
    AlwaysTracks(Front(h));
    CompletesOf(h);
    FreshButton(h);
    ButtonsAreKnown(Front(h), ButtonOf(Last(h).record.flags));
  }

  lemma {:induction false} ReleasedBetween(h: seq<Click>, i: nat, button: Button) returns (k: nat)
    requires i < |h| && Down(h[..i + 1], button) && !Down(h, button)
    ensures i < k < |h| && Releases(h[k].record, button)
    decreases |h|
  {
    assert h[..|h|] == h;
    if Releases(Last(h).record, button) {
      k := |h| - 1;
    } else {
      assert Front(h)[..i + 1] == h[..i + 1];
      k := ReleasedBetween(Front(h), i, button);
    }
  }

  /**
    Between the two presses of a double click the button was released, although the scanner does not look at its own
    note of that.
   */
  lemma {:induction false} DoubleClickHasRelease(h: seq<Click>) returns (i: nat, k: nat)
    requires Completes(h)
    ensures i < k < |h| - 1 && Candidate(Front(h), i) && Pair(h[i], Last(h))
    ensures Releases(h[k].record, ButtonOf(Last(h).record.flags))
  {
    hide Candidate, Releases, Down;
    i :| i < |h| - 1 && Candidate(Front(h), i) && Pair(h[i], Last(h));
    FreshButton(h);
    CandidatePresses(Front(h), i);
    assert Front(h)[..i + 1] == h[..i + 1];
    k := ReleasedBetween(Front(h), i, ButtonOf(Last(h).record.flags));
  }

  lemma {:induction false} CandidatePresses(h: seq<Click>, i: nat)
    requires Candidate(h, i)
    ensures i < |h| && Down(h[..i + 1], ButtonOf(h[i].record.flags))
  {
    assert Last(h[..i + 1]) == h[i];
  }
}
