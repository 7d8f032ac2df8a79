# VT7Pty: a verified model

VT7Pty runs a Windows console program inside an invisible console, scrapes the console's cell grid, and sends a
terminal a VT byte stream that is meant to make it show the same grid. In the other direction it parses a VT input
stream into key and mouse records. A control pipe between a client library and the agent process carries remote
calls. The repository also holds an independent terminal interpreter, `VtState`, which its fidelity tests use as an
oracle.

This project models that logic in Dafny and proves properties of it. `dafny verify dfyconfig.toml` checks
everything. A file holds the module of its name.

## The parts

- **Terminal oracle.** `VtScreen.dfy` and `VtParser.dfy` give `VtState` as functions on rows; `VtOracle.dfy` is the
  class over the flat cell vector, proved equal to them; `VtTokens.dfy` proves that printed characters and control
  sequences are parsed back to themselves, `ScreenEffects.dfy` what each function does cell by cell and
  `StreamEffects.dfy` what is skipped, bounded and reported. A screen of the model also keeps the rows that have
  scrolled off its top, as `history`, so that scrollback can be spoken of. Geometry is bounded as in the oracle (160
  by 60).
- **Output pipeline.** `Emitter.dfy` gives the incremental emitter as functions from state to state and bytes,
  `TerminalObject.dfy` the class. `LineMirror.dfy` and `EmitterMirror.dfy` prove, against the oracle and on the
  level of bytes, that sending a line shows that line and changes no other, `Erasures.dfy` that no erase comes while
  a wrap is pending, `TerminalModes.dfy` the mode sequences letter by letter, `PlainOutput.dfy` what plain mode
  writes. `ConsoleLine.dfy` is change detection, `LargeConsoleRead.dfy` the banded read. `Scraping.dfy` gives both
  scraping modes as functions; `DirectMirror.dfy` and `ScrollMirror.dfy` prove the mirror theorems over all runs,
  `CellMirror.dfy` restates them cell by cell in the console's own terms, and `ScrapeRules.dfy` and
  `IdleConsole.dfy` say exactly what a scrolling scrape decides and that an idle one writes nothing;
  `RingCoherence.dfy` and `SyncMarker.dfy` prove what the ring of lines and the sync marker are for;
  `PhysicalLines.dfy` joins them: while the console scrolls, no line is lost. `ScraperObject.dfy` is the class.
- **Input pipeline.** `KeyBindings.dfy` is what a lookup means; `InputMaps.dfy` is the trie with its two node
  layouts, proved to answer so. `InputPatterns.dfy` has the escape sequences the scanner knows, `ConsoleInput.dfy`
  gives the scanner as functions and proves that chunks do not show; `InputScanner.dfy` is the class;
  `TypedKeys.dfy` and `MouseReports.dfy` say in the records' and the reports' own terms what is typed and reported;
  `CursorReports.dfy` ties the scanner's status report to the oracle's, `MouseAborts.dfy` says exactly which input
  kills the agent, and `DoubleClicks.dfy` which presses are double clicks.
- **Control channel.** `Buffer.dfy` is the tagged codec, `Pipes.dfy` the byte queues over overlapped I/O,
  `Framing.dfy` the packets, `Shutdown.dfy` the drain before close, `Rpc.dfy` both sides of the remote calls and
  `RpcPairing.dfy` their pairing over whole runs.
- **Host dispatch.** `HostDispatch.dfy` is the handshake of controller and hook.
- `Basics.dfy`, `Grid.dfy`, `Utf8.dfy` and `Color.dfy` are shared: integers, row-major grids, UTF-8 and UTF-16 (RFC
  3629 sections 3 and 4, RFC 2781 section 2) and colours.

Code that works in place is a class whose methods are proved against functions of the old state; the theorems are
about those functions.

## How the mirror is stated

`EmitterMirror.Synced` says what it means for the emitter to be in step with a terminal: the line and column it
remembers are the cursor's, a pending wrap stands for the column behind the last one, the colour it remembers is the
terminal's pen, the cells it remembers are the ones shown left of the cursor, and a cursor it thinks hidden is
hidden. `LineMirror.FullRow` is the terminal row that shows a line of cells: each character as the terminal draws
it, then blanks in the colour of the last cell. The mirror theorems assume `WellMarked` lines: characters of the
basic plane that are printable, are no surrogates and no combining marks, are as wide on the terminal as their
full-width marks say, and have both halves in one colour (`CellMirror.PlainTextIsWellMarked` for ASCII text). They
are about normal output, where the agent always outputs colour (src/agent/Agent.cc:162-163); plain mode has its own
theorem, `PlainOutput.SendLineSpeaks`.

In what they claim, the theorems of `CellMirror` name neither the emitter's colours nor its rectangles: they speak
of the attribute words, the characters and the window of the console, and of the cells of the terminal. `TypedKeys`,
`MouseReports`, `ScrapeRules`, `ScreenEffects` and the acceptance rule of `HostDispatch` are independent of the
functions they are about in the same way.

Cell colours are what `Color.Shown` says the terminal makes of the sequence for them. That is the console's own
colour exactly when the background is not white (`Color.ExactUnlessOnWhite`).

In scrolling mode line numbers are virtual: console row `r` is line `r + scrolled`. The terminal's transcript is its
scrollback and its screen together. A tracker that has not scraped yet has to start no lower than the console's
window; this is so when the console is new and when the reading of the console that caused a reset is the one
scraped next (`Scraping.Begins`). Of the console's rows only those a scrape compares or sends have to be well marked
(`ScrollMirror.Printable`). A tentative scrape reads the console while it may be scrolling, so a view holds what
each of its reads saw.

## Where the code is narrower than it looks

- A reply that lists more processes than the caller's array holds does not parse: the fields left unread make the
  final check fail and the pipe is closed (src/libvt7pty/vt7pty.cc:815-826). `Rpc.ReplyIsUnderstood` gives the exact
  condition.
- A coordinate that does not fit 16 bits aborts the agent, and it need not belong to a mouse report: the second
  encoding narrows its first coordinate before it has seen that another one follows
  (src/agent/ConsoleInput.cc:164-165), so `ESC [ 1 ; 40000 ~` is enough (`MouseAborts.KeyKills`).
  `MouseAborts.DiesExactlyIfTooFar` gives the exact condition; that outcome does not depend on chunks either.
- A resize that arrives after a shutdown has closed the output pipes still scrapes, and what it writes is lost
  (src/agent/Agent.cc:440-451, src/agent/NamedPipe.cc:305-309). Only what was written before the close is known to
  arrive (`Shutdown.Agent.ArrivedUnlessLate`).
- Colours on a white background are never exact (src/agent/Terminal.cc:175-189).
- A clearing reset forgets that the cursor is hidden and does not show it (src/agent/Terminal.cc:297-310), so it may
  stay hidden where it should be shown: `EmitterMirror.CursorStaysHidden`. `ScrollMirror.CursorStays` is the
  condition under which that does not happen.
- `m_doubleClick.released` is kept up to date but never consulted (src/agent/ConsoleInput.cc:543-590). It does not
  have to be: `DoubleClicks.DoubleClickHasRelease`.

## Model

| member | source | states |
|---|---|---|
| `EmitterMirror.SendLineShows` | src/agent/Terminal.cc:312-428 | From any state in step with the terminal, the bytes of sendLine make the target line show the given cells in full (trailing blanks come from the erase, in the last cell's colour), leave every other line of screen and scrollback as it was, rows newly scrolled in being spaces, scroll no more than the line needs, and leave the emitter in step; the same row results from appending and from rewriting |
| `CellMirror.SentLineShowsCells` | src/agent/Terminal.cc:312-428 | Cell by cell, without the emitter's own notion of a colour: after sendLine each cell of the line's row shows the console cell's character, or the empty second half of a wide one, with the foreground and background nibbles of its attribute word, exchanged if it is in reverse video, and its underscore; on white it shows what CellMirror.Expected says; the cells behind are spaces in the last cell's colours, and no other line changes |
| `CellMirror.FullRowShows` | src/agent/Terminal.cc:423-427 | The row all mirror theorems speak of shows the console's cells in that sense |
| `CellMirror.ColorIsShown` | src/agent/Terminal.cc:38-48 | For every attribute word the terminal shows its two nibbles, exchanged by the reverse bit, and its underscore bit, off a white background exactly so |
| `PlainOutput.SendLineSpeaks` | src/agent/Terminal.cc:312-428 | In plain mode without colour, from any state in step, the last line of the output after sendLine is the text of the cells, but for spaces at its end, whether the line was continued, started again on a new output line or moved to |
| `PlainOutput.NoEscapes` | src/agent/Terminal.cc:297-529 | In that mode sending a line, placing or hiding the cursor, resetting and switching the mouse write no escape character |
| `PlainOutput.ScrapeRunPlainly` | src/agent/Scraper.cc:482-659 | Nor does any run of scrolling scrapes, completed, given up or resetting |
| `EmitterMirror.ComposedShows` | src/agent/Terminal.cc:356-421 | The bytes kept by the composing loop, with the erase if it was not written early, turn the row remembered up to the cursor into the whole target row, also when the last cell is not blank and the erase has to come before it |
| `Erasures.SendLineCareful` | src/agent/Terminal.cc:363-427 | While the terminal reads the bytes of sendLine it never meets an erase to the end of the row with a wrap pending, whatever line is sent and whatever was there before |
| `Erasures.ComposedCareful` | src/agent/Terminal.cc:384-421 | Nor while it reads the kept bytes of a composed line and the erase after them, up to lines that fill the row |
| `EmitterMirror.MoveShows` | src/agent/Terminal.cc:459-495 | Moving to any line not above the terminal's top row ends with the terminal's cursor on that line and changes no line; the number of rows scrolled off is exact |
| `EmitterMirror.ShowCursorShows` | src/agent/Terminal.cc:430-446 | The terminal's cursor ends at the given column of the given line and no line changes; it is visible exactly if it was already or the emitter, moving included, had it recorded as hidden |
| `EmitterMirror.ClearingResetShows` | src/agent/Terminal.cc:297-310 | From whatever the terminal showed, a clearing reset leaves every row of the screen blank in the default colours and the cursor in its corner, keeps all that has scrolled away and the visibility of the cursor, and puts the emitter in step, the top row being the new line |
| `EmitterMirror.HideShows` | src/agent/Terminal.cc:448-457 | Hiding the cursor makes it invisible, or finds it recorded as hidden, and changes nothing else; the emitter's record that it is hidden is true |
| `EmitterMirror.CursorStaysHidden` | src/agent/Terminal.cc:297-310 | A cursor hidden before a clearing reset is still hidden after it although the record says shown, and showing it writes nothing that would bring it back: the input for which visibility after a reset fails |
| `EmitterMirror.MouseModeShows` | src/agent/Terminal.cc:497-529 | Switching the mouse mode changes nothing on the terminal's screen and leaves the emitter in step |
| `TerminalModes.MouseModeOnTheWire` | src/agent/Terminal.cc:497-529 | The bytes themselves, mode by mode, against literal text: encoding 1005 off and 1000, 1002, 1003, 1015 and 1006 on, or those five off in reverse order; nothing in plain mode or when nothing changes |
| `EmitterMirror.BegunShows` | src/agent/Terminal.cc:319-354 | Whether a line is continued or started again, what is remembered afterwards is a strict prefix of the new cells and is on the screen up to the cursor |
| `EmitterMirror.RowSplits` | src/agent/Terminal.cc:423-427 | A row that shows a line splits at every character boundary into the rendering of the front and what is still to come |
| `LineMirror.ComposeShows` | src/agent/Terminal.cc:363-410 | Over the whole composing loop, fed to the terminal as far as it is kept, the row agrees with the target up to the kept cells, pending spaces included, and the pen is the colour last selected |
| `LineMirror.TurnShows` | src/agent/Terminal.cc:365-409 | One turn of the loop (colour change, tentative space, character, early erase before the last cell) keeps that agreement |
| `LineMirror.RenderSplits` | src/agent/Terminal.cc:267-293 | Grouping cells into characters does not depend on what follows a character boundary |
| `LineMirror.FlushSpaces` | src/agent/Terminal.cc:379-405 | Spaces held back and then sent show exactly the blanks of the target row |
| `TerminalObject.Terminal.Reset` | src/agent/Terminal.cc:297-310 | The object's new state and output are those of the emitter function |
| `TerminalObject.Terminal.SendLine` | src/agent/Terminal.cc:312-428 | The object's new state and output are those of the emitter function, which SendLineShows is about |
| `TerminalObject.Terminal.ComposeLine` | src/agent/Terminal.cc:356-410 | The loop over the cells computes the composed draft: the text, the length kept, the cells kept, the erase flag and the colour |
| `TerminalObject.Terminal.MoveTerminalToLine` | src/agent/Terminal.cc:459-495 | Line feeds downward or one CUU upward, exactly as the emitter function says |
| `TerminalObject.Terminal.ShowTerminalCursor` | src/agent/Terminal.cc:430-446 | The new state and output are those of the emitter function |
| `TerminalObject.Terminal.HideTerminalCursor` | src/agent/Terminal.cc:448-457 | The new state and output are those of the emitter function |
| `TerminalObject.Terminal.EnableMouseMode` | src/agent/Terminal.cc:497-529 | The mode sequences are written exactly when the mode changes, and never in plain mode |
| `TerminalObject.OutUInt` | src/agent/Terminal.cc:68-78 | The loop prints the decimal representation that the oracle's parser reads back |
| `TerminalObject.OutputSetColor` | src/agent/Terminal.cc:99-206 | Built parameter by parameter from the attribute bits, the sequence is the one whose meaning SetColorSelectsPen gives |
| `Color.SetColorSelectsPen` | src/agent/Terminal.cc:99-206 | Interpreting the sequence for a colour selects the pen of that colour from any pen before it, fallback and overriding parameters included |
| `Color.ExactUnlessOnWhite` | src/agent/Terminal.cc:155-195 | The terminal shows the console's own colours exactly when the background is not white: on white it never does |
| `Color.IntendedIsTheColor` | src/agent/Terminal.cc:101-117 | Without reverse video the colours meant by a masked colour are its own nibbles; CellMirror.ColorIsShown says the same of the unmasked attribute word |
| `Color.FeedSetColor` | src/agent/Terminal.cc:155-205 | The printed bytes, parsed byte by byte, change the pen and nothing else on the terminal |
| `DirectMirror.DirectModeMirrors` | src/agent/Scraper.cc:440-480 | From the clearing reset of a mode switch on, whatever the terminal showed before, after any run of direct scrapes of any sizes the terminal shows the last scraped rectangle and has its cursor where the console has it, although unchanged lines are never sent again |
| `CellMirror.DirectModeShowsWindow` | src/agent/Scraper.cc:440-480 | The same in the console's terms: with n = min(window height, terminal rows, 3000) and w = min(window width, terminal columns, 2500), line i below n and column j below w of the terminal show console cell (window.top + i, window.left + j) as far as its flags are honoured, blanks follow, and the cursor is at the console's place relative to the window, visible exactly if the console's is and lies in that part |
| `DirectMirror.DirectScrapeShows` | src/agent/Scraper.cc:458-479 | One scrape keeps the mirror and shows the whole frame, changed or not, and the cursor is visible exactly when the console's is and lies in the rectangle |
| `CellMirror.WindowIsDrawn` | src/agent/Scraper.cc:445-457 | A window inside the console's buffer is what the scrape reads, line by line and from the window's own column on |
| `DirectMirror.IdleScrapeIsQuiet` | src/agent/Scraper.cc:455-479 | Scraping the same frame a second time writes no byte and changes nothing, whatever came before |
| `DirectMirror.SendDirectShows` | src/agent/Scraper.cc:465-475 | The loop over the lines: those visited are shown, the others stay as they were |
| `DirectMirror.VisitShows` | src/agent/Scraper.cc:468-474 | One line, sent because it changed or not sent because it did not, is on the screen afterwards |
| `ScrollMirror.ScrapeShows` | src/agent/Scraper.cc:482-659 | One scrolling scrape, frozen or tentative: the terminal is cleared exactly when the console is frozen and the marker is nowhere or the window stands above where it was; apart from that no line outside those scraped changes and what has scrolled away stays; if the scrape completes, the rows from the first unscraped line to the last dirty one are shown under their virtual line numbers, the terminal is empty below them as the rest of the window is blank in one attribute, no window line lies above the top row, and the cursor is in place, visible exactly if the console's is and lies in the window, where the emitter knew how it was; if it gives up, the terminal is as it was |
| `ScrollMirror.WriteOutShows` | src/agent/Scraper.cc:612-656 | The writing half of a scrape shows every line it visits, keeps what has scrolled away and every line it does not visit, and never needs a line above the terminal's top row |
| `ScrollMirror.UnchangedNotSent` | src/agent/Scraper.cc:632-650 | Lines that compare as unchanged cost no byte and leave the emitter alone, down to the first line that is new or changed |
| `ScrollMirror.SweepShows` | src/agent/Scraper.cc:632-650 | The loop over virtual lines keeps every ring slot equal to what the terminal shows on the slot's line |
| `ScrollMirror.VisitShows` | src/agent/Scraper.cc:633-649 | One visited line is shown afterwards, sent or not, and no other line changes |
| `ScrollMirror.RestIsUniform` | src/agent/Scraper.cc:144-165 | The dirty line count ends just below the last line that is not blank in the attribute the line above it ends with: everything below is spaces in one attribute, and the line at the end is not |
| `ScrollMirror.ScrapeRunShows` | src/agent/Scraper.cc:482-659 | Every run of scrapes, completed or given up, with tracking resets between them, keeps the mirror: each buffered line's slot is what the terminal shows on that line, the terminal is empty below everything found dirty, and all that ever scrolled away is still there |
| `ScrollMirror.NextScrapeShows` | src/agent/Scraper.cc:482-659 | After any run every scrape that completes leaves the terminal showing what it read, empty below it, with the whole scrollback of the run above it |
| `CellMirror.ScrollModeShowsBuffer` | src/agent/Scraper.cc:482-659 | The same cell by cell from a new terminal: buffer row r, from its column 0 to min(buffer width, 2500), is on its transcript line, the rest of the window is spaces in one colour and the terminal empty there, and the cursor is at the console's column on its own line, its visibility exact under the stated condition on resets |
| `IdleConsole.IdleScrapeIsQuiet` | src/agent/Scraper.cc:482-659 | A scrolling scrape of a console that has not changed since the last completed one writes no byte and leaves the emitter and the line count alone, frozen or tentative, completed or given up, also after a reset or a new marker |
| `ScrapeRules.GivesUpExactly` | src/agent/Scraper.cc:489-598 | A scrape is given up if and only if the console is running and the marker is gone, or a new one is due, or the window has risen, or position, size or marker moved while it was read; then nothing is written |
| `ScrapeRules.MarkerGoes` | src/agent/Scraper.cc:489-603 | The exact counters after a completed scrape: a new marker 216 rows above the window exactly when that is 216 rows or more below the one found, with the next counter; the scroll count grown by the rows the marker went up, or zero after a clear; and the whole window looked at again after any scroll or fall of the window |
| `ScrapeRules.DirtyExactly` | src/agent/Scraper.cc:144-165 | The exact dirty line count after a completed scrape: what was known, the cursor's line, everything above the window and a window that moved are dirty without being looked at; beyond that it ends just below a line of the window that is not blank in the attribute above it, and nothing after it is |
| `ScrapeRules.MarkerIsNear` | src/agent/Scraper.cc:516-530 | After any completed scrape whose window did not rise the marker is less than 432 rows above the window's top |
| `ScrapeRules.MarkerIsRead` | src/agent/Scraper.cc:661-671 | The marker stands in a row exactly if the first column reads S*Y*N*C* and the counter in eight lower-case hex digits from there on, 16 rows in all |
| `ScrapeRules.FoundIsLowest` | src/agent/Scraper.cc:673-693 | It is found where it reads so, at or above its last row, and in no row below that up to its last row |
| `ScrollMirror.FromTheStart` | src/agent/Scraper.cc:49-92 | The same for a tracker and terminal as constructed |
| `ScrollMirror.FromAReset` | src/agent/Scraper.cc:353-365 | The same from the clearing reset of a mode switch, whatever the terminal showed |
| `ScrollMirror.ResetTrackingShows` | src/agent/Scraper.cc:118-131 | A tracking reset forgets every line and leaves the terminal's screen cleared and its scrollback kept, its top row having the given line number |
| `ScrollMirror.PreparedShows` | src/agent/Scraper.cc:489-605 | Following marker and window writes nothing and moves no line number, except exactly when the terminal is cleared, and then the screen is blank, the scrollback kept and the top row the window's top line |
| `Scraping.Prepared` | src/agent/Scraper.cc:489-605 | The counter invariant over every branch: no marker means nothing scrolled, a marker lies at least its length and margin above the window last seen and above the lines scraped, and every row number is inside the buffer; only tentative scrapes give up |
| `Scraping.FollowMarker` | src/agent/Scraper.cc:489-512 | Following the marker keeps the counters consistent, whether it is found, moved or lost |
| `Scraping.FollowWindow` | src/agent/Scraper.cc:532-549 | Following the window keeps the counters consistent, whether it stays, moves down or moves up |
| `Scraping.FindMarker` | src/agent/Scraper.cc:673-693 | The lowest row at or above the old one where the whole marker stands, or -1 exactly when there is none |
| `Scraping.Scrape` | src/agent/Scraper.cc:482-659 | A frozen scrape always completes, and every scrape keeps the counter and ring invariants |
| `Scraping.ScrapeRun` | src/agent/Scraper.cc:482-659 | The counter and ring invariants hold after every run of scrapes |
| `RingCoherence.RunKeepsCoherence` | src/agent/Scraper.cc:632-645 | Over every run, whatever the console shows, each line between the first unscraped and the highest buffered one has in its slot the row that very line showed when last visited, never that of a line 3000 away |
| `RingCoherence.ScrapeKeepsCoherence` | src/agent/Scraper.cc:632-652 | One scrape, resets included, keeps that |
| `RingCoherence.SweepKeepsCoherence` | src/agent/Scraper.cc:632-645 | The loop keeps that, each visited line being compared with its own last row |
| `SyncMarker.RunKeepsPlace` | src/agent/Scraper.cc:482-659 | Over any run in which the marker stays in the buffer and no program writes its text, the scroll count and the marker row lag the true ones by exactly the rows scrolled since the last look |
| `SyncMarker.ScrapeKeepsPlace` | src/agent/Scraper.cc:489-603 | A completed scrape has counted exactly the rows scrolled, was not overtaken by scrolling while it read, and its marker row is the true one, so row plus scroll count names one physical line |
| `SyncMarker.MarkerFollowed` | src/agent/Scraper.cc:489-511 | The search finds the marker in its true row and the scroll count grows by exactly the rows scrolled |
| `SyncMarker.SteadyMeansStill` | src/agent/Scraper.cc:588-598 | The final checks of a tentative scrape let it through only if nothing scrolled meanwhile |
| `SyncMarker.MarkersDiffer` | src/agent/Scraper.cc:661-671 | Markers of different counters have different texts, so a stale marker is never taken for the present one |
| `PhysicalLines.RunKeepsLines` | src/agent/Scraper.cc:482-659 | Over any run of scrapes while the console scrolls before and during them, every line read since the last clear, numbered by its row when read plus the rows really scrolled by then, is on the terminal as last read, and every line down to the window's top has been read |
| `PhysicalLines.ScrapeKeepsLines` | src/agent/Scraper.cc:482-659 | One scrape, completed, given up or clearing the terminal, keeps that |
| `PhysicalLines.NothingIsLost` | src/agent/Scraper.cc:49-62 | The same from the first scrape of a new scraper on a new terminal: no line that has scrolled away is missing or out of date |
| `ScraperObject.Scraper.constructor` | src/agent/Scraper.cc:49-62 | A new scraper has reset its tracking without clearing the terminal |
| `ScraperObject.Scraper.ResetConsoleTracking` | src/agent/Scraper.cc:118-131 | The whole new state, terminal included |
| `ScraperObject.Scraper.DirectScrapeOutput` | src/agent/Scraper.cc:440-480 | The object's state and output after a direct scrape, every line read from the read buffer in range |
| `ScraperObject.Scraper.ScrollingScrapeOutput` | src/agent/Scraper.cc:482-659 | The object's state, output and result after a scrolling scrape; the console's buffer is as it was, or has a new marker above the window |
| `ScraperObject.Scraper.ReadLines` | src/agent/Scraper.cc:559-582 | The rectangle read starts at a row that is not negative, lies inside the buffer and holds every line the rest of the scrape looks at |
| `ScraperObject.Scraper.ScanForDirtyLines` | src/agent/Scraper.cc:144-165 | The loop computes the dirty line count that RestIsUniform is about |
| `ScraperObject.Scraper.FindSyncMarker` | src/agent/Scraper.cc:673-693 | The nested loops find the marker's lowest row |
| `ScraperObject.Scraper.CreateSyncMarker` | src/agent/Scraper.cc:695-713 | The counter advances modulo 2^32 and the console gets the marker with cleared rows around it |
| `ScraperObject.MarkerIsFound` | src/agent/Scraper.cc:695-713 | A marker just written is found where it was put, and no row from its end on is touched |
| `ScraperObject.Scraper.SweepVirtualLines` | src/agent/Scraper.cc:629-650 | The loop over virtual lines, with the ring, the highest buffered line and the output it leaves |
| `ConsoleLine.VisibleTextIsTheLine` | src/agent/ConsoleLine.cc:77-149 | From a cleared row, after any sequence of comparisons and forced sets with lines of any lengths, the visible part of a terminal row that keeps hidden cells reads as the last line, sent again or not |
| `ConsoleLine.UnchangedRowIsSame` | src/agent/ConsoleLine.cc:86-139 | A line reported unchanged would be drawn as the row that is already there, attributes included, whatever the two lengths |
| `ConsoleLine.SetIsUnchanged` | src/agent/ConsoleLine.cc:81-149 | A line just set is not reported changed, and setting it again changes nothing |
| `ConsoleLine.VisitKeepsStep` | src/agent/ConsoleLine.cc:81-149 | One comparison or forced set keeps the remembered cells equal to the terminal's text, hidden cells included |
| `ConsoleLine.Tracker.DetectChangeAndSet` | src/agent/ConsoleLine.cc:81-140 | The answer, and a state that is the one setLine leaves whatever the answer |
| `ConsoleLine.Tracker.Set` | src/agent/ConsoleLine.cc:142-149 | The front is overwritten and cells beyond it are kept |
| `ConsoleLine.LineIsBlank` | src/agent/ConsoleLine.cc:48-57 | True exactly when every cell is a space in the given attribute |
| `VtParser.Feed` | tests/fidelity/VtState.h:60-62 | For every byte stream that does not throw: cursor in bounds, every row as wide as the screen, every continuation cell to the right of a cell that is none |
| `VtParser.Run` | tests/fidelity/VtState.h:26-62 | The same for every interleaving of feeding and resizing |
| `VtParser.Consume` | tests/fidelity/VtState.h:206-255 | One byte in any parser state keeps the screen well formed |
| `VtScreen.EraseCells` | tests/fidelity/VtState.h:91-98 | Erasing any range leaves no continuation cell without its left half, inside or at the edges |
| `VtScreen.Resize` | tests/fidelity/VtState.h:26-36 | Resizing fails exactly outside the bounds and leaves a well-formed screen of the new size |
| `ScreenEffects.EraseInDisplayErases` | tests/fidelity/VtState.h:190-194 | Cell by cell: erasing from the cursor, to the cursor or all of the display blanks exactly the cells at or after, at or before, or anywhere in reading order and the other halves of wide glyphs cut, in the pen's colours, and changes nothing else |
| `ScreenEffects.EraseInLineErases` | tests/fidelity/VtState.h:195-198 | The same within the cursor's row |
| `ScreenEffects.PutWrites` | tests/fidelity/VtState.h:111-123 | A character takes its one or two cells at the cursor, or at the start of the next line if a wrap is pending or there is no room; what it cuts is blanked, nothing else changes, the cursor goes behind it or waits on the last column; it is refused exactly if it is wider than the screen |
| `ScreenEffects.MarkJoins` | tests/fidelity/VtState.h:106-110 | A combining mark joins the last glyph before the cursor, across the line's start if need be, and is refused exactly at the start of the screen |
| `ScreenEffects.MarkFollows` | tests/fidelity/VtState.h:105-123 | A mark sent after a character joins that character, wrapped or wide |
| `ScreenEffects.LineFeedMoves` | tests/fidelity/VtState.h:99-104 | The cursor goes down a line, keeping its column; at the bottom the rows move up and a row in the pen's colours comes in |
| `ScreenEffects.MovesDown` | tests/fidelity/VtState.h:184-189 | Up, down and to a row: by or to the number given, zero counting as one, no further than the edge |
| `ScreenEffects.MovesAcross` | tests/fidelity/VtState.h:186-188 | Right, left and to a column, likewise |
| `ScreenEffects.MovesAnywhere` | tests/fidelity/VtState.h:179-182 | To a row and a column, one left out counting as one |
| `ScreenEffects.RefusedExactly` | tests/fidelity/VtState.h:178-199 | The control functions with their numbers of parameters that are accepted; every other one is refused |
| `ScreenEffects.TabStops` | tests/fidelity/VtState.h:251 | To the next multiple of eight, or to the last column before it |
| `ScreenEffects.ResizeBack` | tests/fidelity/VtState.h:26-36 | Making the screen larger and then as it was restores every cell and the cursor, but not a pending wrap |
| `ScreenEffects.PenRefuses` | tests/fidelity/VtState.h:139-160 | A list of rendition numbers is accepted exactly if each is one of the 43 known |
| `ScreenEffects.PenSwitches` | tests/fidelity/VtState.h:139-160 | Each switch of the pen is set by one number and unset by another and touches nothing else |
| `StreamEffects.TitleIsSkipped` | tests/fidelity/VtState.h:201-205 | An operating system command changes nothing exactly if it sets a title and has at most 1024 bytes, whichever way it ends; any other is refused |
| `StreamEffects.NumberIsBounded` | tests/fidelity/VtState.h:130-134 | A printed number is read back exactly if it is below 10010 |
| `StreamEffects.ListIsBounded` | tests/fidelity/VtState.h:129-137 | A list has room for 33 numbers |
| `StreamEffects.SequenceIsBounded` | tests/fidelity/VtState.h:215-221 | A control sequence of more than 128 bytes is refused |
| `StreamEffects.ReportRestores` | tests/fidelity/VtState.h:174-182 | The status report names the cursor's row and column: sent back as a position it restores the cursor |
| `StreamEffects.RefusedBytes` | tests/fidelity/VtState.h:235-254 | Outside sequences and characters exactly the control bytes without a function and the bytes that lead no character are refused, and NUL, BEL and DEL do nothing |
| `VtOracle.VtState.Feed` | tests/fidelity/VtState.h:60-62 | The flat cell vector and its registers after a byte string are those of the interpreter the mirror theorems use |
| `VtOracle.VtState.Consume` | tests/fidelity/VtState.h:206-255 | One byte: it throws, or the new state is the interpreter's |
| `VtOracle.VtState.Put` | tests/fidelity/VtState.h:105-123 | Combining marks, wrapping, wide characters and the pending wrap on the flat vector |
| `VtOracle.VtState.EraseRange` | tests/fidelity/VtState.h:91-98 | Erasing an index range in the flat vector is erasing in the row that holds it |
| `VtOracle.VtState.LineFeed` | tests/fidelity/VtState.h:99-104 | Moving the vector up by one row is scrolling |
| `VtOracle.VtState.ControlFunction` | tests/fidelity/VtState.h:178-199 | Every control function: its parameters, its bounds and its errors |
| `VtOracle.VtState.SelectRendition` | tests/fidelity/VtState.h:139-160 | The pen after a list of SGR parameters, or the error |
| `VtOracle.VtState.ReadParameters` | tests/fidelity/VtState.h:124-138 | The loop reads the parameters and finds the errors that the recursive parser does |
| `VtOracle.VtState.Resize` | tests/fidelity/VtState.h:26-36 | Copying into the new vector is the interpreter's resize |
| `VtTokens.FeedConcat` | tests/fidelity/VtState.h:60-62 | The oracle cannot tell how its input was cut up |
| `VtTokens.FeedCsi` | tests/fidelity/VtState.h:206-221 | A printed control sequence is parsed back to its body and final byte and dispatched once |
| `VtTokens.ParametersOfJoined` | tests/fidelity/VtState.h:124-138 | Parsing printed parameters gives the parameters |
| `VtTokens.DecodersAgree` | tests/fidelity/VtState.h:235-247 | The byte-at-a-time decoder and the whole-character decoder accept the same multi-byte strings and read the same scalar |
| `VtTokens.FeedString` | tests/fidelity/VtState.h:235-253 | Fed an encoded string of printable characters the oracle puts exactly those characters |
| `Utf8.DecodeInvertsEncode` | src/agent/UnicodeEncoding.h:28-151 | Every scalar value decodes from its encoding, whose lead byte announces its length |
| `Utf8.EncodeInvertsDecode` | src/agent/UnicodeEncoding.h:82-151 | What the decoder accepts is a scalar value and its shortest encoding |
| `Utf8.WalkIsTheInverse` | src/agent/UnicodeEncoding.h:28-151 | Walking a byte string by lead bytes succeeds exactly on the encodings of scalar values and returns them |
| `Utf8.SurrogatePairRoundTrip` | src/agent/UnicodeEncoding.h:60-156 | A code is encoded as a surrogate pair exactly when the pair decodes to it |
| `Utf8.EncodedLength` | src/agent/UnicodeEncoding.h:28-98 | Nothing is encoded exactly off the scalar values |
| `ConsoleInput.ChunksDoNotShow` | src/agent/ConsoleInput.cc:236-346 | However a byte stream is cut into writes, the same events come out in the same order with the same bytes left over and the same mouse state, or the scanner aborts in both cases after the same events |
| `ConsoleInput.ScanIsStable` | src/agent/ConsoleInput.cc:380-486 | Any result but a wait for more, aborts included, stays the same when more input follows |
| `ConsoleInput.ScanInput` | src/agent/ConsoleInput.cc:380-486 | What is consumed is at least one byte and at most what there is |
| `InputPatterns.MouseIsStable` | src/agent/ConsoleInput.cc:119-186 | The three mouse encodings tried in turn are stable as one |
| `InputPatterns.MatchIsStable` | src/agent/ConsoleInput.cc:64-99 | So is every sequence of literal bytes, bounded numbers and coordinates |
| `ConsoleInput.RestWaits` | src/agent/ConsoleInput.cc:331-346 | What a write leaves in the queue waits for more however often it is looked at |
| `CursorReports.ReportIsMatched` | src/agent/ConsoleInput.cc:105-117 | Every report with one to seven digits in each number is matched whole, whatever follows it |
| `CursorReports.MatchIsReport` | src/agent/ConsoleInput.cc:105-117 | Nothing else is matched |
| `CursorReports.ReportIsConsumed` | src/agent/ConsoleInput.cc:405-417 | The oracle's own status report is consumed whole without an event and clears the request |
| `MouseAborts.DiesExactlyIfTooFar` | src/agent/ConsoleInput.cc:135-172 | For every input and mode the scan aborts if and only if the input is no status report and begins with ESC [ or ESC [ <, a number of one to seven digits, a semicolon and one or two signed coordinates of which the last, followed by any byte but a digit, is outside 16 bits after subtracting one; no mouse report need follow |
| `MouseAborts.MouseAborts` | src/agent/ConsoleInput.cc:176-186 | Over the three encodings in turn the match aborts exactly on such an input |
| `MouseAborts.CoordinateScan` | src/agent/ConsoleInput.cc:87-99 | Scanning a coordinate aborts exactly where a signed number of one to seven digits, ended by another byte, does not fit |
| `MouseAborts.KeyKills` | src/agent/ConsoleInput.cc:155-165 | ESC [ 1 ; 40000 ~, which is no mouse report, aborts the agent in every mode |
| `MouseAborts.MouseKills` | src/agent/ConsoleInput.cc:135-146 | So does the report ESC [ < 0 ; 40000 ; 1 M |
| `InputScanner.Scanner.WriteInput` | src/agent/ConsoleInput.cc:236-277 | The events, the leftover queue and the mouse state are those of scanning queue and input; one status request more is sent exactly if something is left over and no request is outstanding, a report read meanwhile having answered the last one; and the time is noted |
| `InputScanner.Scanner.DoWrite` | src/agent/ConsoleInput.cc:331-346 | The loop over the queue computes the drain of the queue |
| `InputScanner.Scanner.ScanInput` | src/agent/ConsoleInput.cc:380-486 | One scan with its flushes computes the specified result, in order |
| `InputScanner.Scanner.FlushIncompleteEscapeCode` | src/agent/ConsoleInput.cc:279-286 | After the timeout the queue is taken as it stands and emptied, a status report in it answering the request outstanding; before the timeout nothing changes |
| `InputScanner.Scanner.ScanMouse` | src/agent/ConsoleInput.cc:488-599 | Buttons, double click and wheel of a mouse record |
| `DoubleClicks.DoubleClickIsMarked` | src/agent/ConsoleInput.cc:538-590 | Over any run of mouse records the event of a record is marked as a double click exactly if the record freshly presses a button and an earlier fresh press of it, which completed no double click itself, was at the same place and recent enough, with no other fresh press and no named release of another button between |
| `DoubleClicks.DoubleClickHasRelease` | src/agent/ConsoleInput.cc:548-562 | Between the two presses the button was released, although the note of that is never consulted |
| `DoubleClicks.ButtonsAreKnown` | src/agent/ConsoleInput.cc:544-571 | The buttons held are those whose last record was a press |
| `InputScanner.ScanNumber` | src/agent/ConsoleInput.cc:75-85 | The digit loop: at most seven digits, and a byte after them |
| `InputScanner.MatchMouseRecord` | src/agent/ConsoleInput.cc:178-186 | The first encoding that is not a plain mismatch decides |
| `MouseReports.SaidIsUnderstood` | src/agent/ConsoleInput.cc:119-186 | Every report written in one of the three encodings is understood as the flags, column, row and release it says, whatever follows it |
| `MouseReports.UnderstoodIsSaid` | src/agent/ConsoleInput.cc:119-186 | Whatever is understood has been written so |
| `MouseReports.RecordIsReported` | src/agent/ConsoleInput.cc:488-599 | The event has the place clamped to the window, column and row each for itself, Shift, Alt and Control from the bits 4, 8 and 16, motion from 32, wheel up or down from 64, and the buttons held then |
| `MouseReports.ReportIsScanned` | src/agent/ConsoleInput.cc:412-430 | From the bytes to the event: a report at the front of the input is taken whole |
| `ConsoleInput.ModifiersAreReleased` | src/agent/ConsoleInput.cc:660-746 | For every key press and every key the records press it as often as they release it, apart from the pressed key's own records: the modifiers put around them are all taken back, whatever the modes, the key and the escapes a program is sent for it |
| `ConsoleInput.OwnRecordsNet` | src/agent/ConsoleInput.cc:721-726 | Those own records touch no other key, save what a program that reads escapes gets for the press; for the key itself they count the code units going down and up |
| `ConsoleInput.PlaceIsInside` | src/agent/ConsoleInput.cc:508-518 | A mouse place inside the window is itself, any other is the nearest cell of the window |
| `InputScanner.AppendKeyPress` | src/agent/ConsoleInput.cc:660-746 | Modifiers down, key down and up, modifiers up in reverse, each record with the state then held |
| `InputScanner.AppendUtf8Char` | src/agent/ConsoleInput.cc:601-658 | The records for a character, with the keyboard layout's modifiers and the terminal's Alt |
| `TypedKeys.CharacterIsTyped` | src/agent/ConsoleInput.cc:449-486 | In the input's and the records' own terms: a character no binding claims, with an escape before it or not, is taken whole, and its records press exactly the layout's Shift, Control and right Alt and the terminal's left Alt, then the layout's key going down with the character's UTF-16 units (zero for Alt with Control), then up with them (zero for Alt), then take the modifiers back, each record naming exactly the modifiers held |
| `TypedKeys.CharacterEvents` | src/agent/ConsoleInput.cc:601-658 | The records of one character, also for programs that read escapes, where a bare cursor key goes to the window and any other press is re-encoded |
| `TypedKeys.BoundKeyIsTyped` | src/agent/ConsoleInput.cc:422-447 | The longest bound encoding at the front is taken and its key is typed with the binding's modifiers and character |
| `TypedKeys.EscapeIsTyped` | src/agent/ConsoleInput.cc:449-486 | An escape before another one or before a byte that begins no character is typed for itself |
| `TypedKeys.MalformedIsDropped` | src/agent/ConsoleInput.cc:469-486 | A byte that begins no character, and a character that does not decode, are dropped whole |
| `TypedKeys.ControlCIsSignalled` | src/agent/ConsoleInput.cc:380-400 | Control-C is signalled instead of typed exactly where the console processes it |
| `Emitter.ScanReadsCharacter` | src/agent/Terminal.cc:243-293 | Any scalar value the console has put into one, two or four cells, surrogates and full-width halves included, is scanned back whole whatever follows |
| `Emitter.HalvesMatch` | src/agent/Terminal.cc:267-293 | Two cells are one character exactly if they are marked as its halves and hold the same unit |
| `Emitter.LoneSurrogate` | src/agent/Terminal.cc:243-293 | A surrogate is shown as a question mark unless the cell behind its own completes the pair |
| `InputMaps.InputMap.LookupKey` | src/agent/InputMap.cc:184-209 | After any sequence of set calls the answer is that of a finite map: the longest prefix bound to a key, that key, and whether some encoding set goes on from the input |
| `InputMaps.InputMap.Set` | src/agent/InputMap.cc:137-148 | The bindings are the old ones with the new one, and the trie still represents them |
| `InputMaps.InputMap.GetOrCreateChild` | src/agent/InputMap.cc:150-182 | The child exists afterwards and nothing else has changed, through sorted insertion, promotion at the ninth child and the 256-way branch |
| `InputMaps.InputMap.AddToTable` | src/agent/InputMap.cc:155-173 | Shifting insertion keeps the table sorted and every other lookup as it was |
| `InputMaps.InputMap.Promote` | src/agent/InputMap.cc:174-181 | The branch answers every byte as the full table did, and the new child |
| `InputMaps.InputMap.GetChild` | src/agent/InputMap.h:92-103 | The loop over the table, or the array, finds the child |
| `KeyBindings.LongestIsLongest` | src/agent/InputMap.cc:184-209 | The match is bound to a key and no longer prefix is |
| `KeyBindings.LookupIsStable` | src/agent/InputMap.cc:184-209 | An answer that waits for nothing is the answer for every longer input |
| `InputMaps.InputMap.IncompleteIffChild` | src/agent/InputMap.cc:206-208 | A node has children exactly when some encoding set goes on from there |
| `Buffer.RoundTrip` | src/shared/Buffer.cc:40-104 | For every list of fields the matching getters return the same fields and nothing is left over |
| `Buffer.PrefixIsRefused` | src/shared/Buffer.cc:69-100 | Reading any strict prefix of a message ends in a decode error |
| `Buffer.WrongKind` | src/shared/Buffer.cc:78-100 | A getter of another type than the next field's tag refuses it |
| `Buffer.AcceptedIsEncoded` | src/shared/Buffer.cc:69-104 | What is read to the end is the encoding of exactly the fields returned |
| `Buffer.PutGet` | src/shared/Buffer.cc:69-100 | What one getter accepts is the encoding of what it returns |
| `Buffer.LittleEndianAt` | src/shared/Buffer.cc:40-67 | Byte k of a number on the wire is its digit k to the base 256 |
| `Buffer.WriteBuffer.PutInt32` | src/shared/Buffer.cc:52-55 | The bytes appended are the encoding of the field |
| `Buffer.WriteBuffer.PutInt64` | src/shared/Buffer.cc:57-60 | The bytes appended are the encoding of the field |
| `Buffer.WriteBuffer.PutWString` | src/shared/Buffer.cc:63-67 | The bytes appended are the encoding of the field |
| `Buffer.WriteBuffer.ReplaceRawData` | src/shared/Buffer.cc:45-50 | Only the given range changes |
| `Buffer.ReadBuffer.GetInt32` | src/shared/Buffer.cc:78-81 | The value or the decode error, and the offset, which never passes the end |
| `Buffer.ReadBuffer.GetInt64` | src/shared/Buffer.cc:83-86 | The value or the decode error, and the offset, which never passes the end |
| `Buffer.ReadBuffer.GetWString` | src/shared/Buffer.cc:88-100 | The text or the decode error, and the offset, which never passes the end |
| `Framing.PacketsAreDelivered` | src/agent/Agent.cc:279-325 | Whatever chunks a stream of well-sized packets arrives in, exactly their payloads are delivered, in order, and nothing is left |
| `Framing.ChunksDoNotShow` | src/agent/Agent.cc:287-324 | For any bytes at all the payloads delivered and the end of the pipe do not depend on the chunks |
| `Framing.ControlChannel.PollControlPipe` | src/agent/Agent.cc:279-325 | The poll delivers what the specification says; if the pipe stays open the queue is shorter than the read buffer, so the pipe cannot stall; the read buffer never grows past the packet limit |
| `Pipes.NamedPipe.ServiceInput` | src/agent/NamedPipe.cc:104-187 | Exactly the bytes the system brings meanwhile are appended, in order; the input worker fails exactly on a failed read it has asked for, makes progress exactly if the first read asked for is complete, stops only when a read is pending or the queue is full, and the queue overshoots its bound by less than one read |
| `Pipes.NamedPipe.ServiceOutput` | src/agent/NamedPipe.cc:104-213 | Completed, in flight and queued bytes together are always all that was written, in order; the worker completes exactly the writes the system reports, fails exactly on a failed one, is unsound exactly on a miscounted one, and stops only with a write pending or nothing left |
| `Pipes.NamedPipe.ServiceIo` | src/agent/NamedPipe.cc:41-93 | A turn of the event loop: what arrives and what is completed is exact; it closes the pipe exactly when one of its workers meets an error, reports that something happened exactly on a new connection, an error or progress, and leaves a closed pipe alone |
| `Pipes.NamedPipe.ServiceWorkers` | src/agent/NamedPipe.cc:74-89 | The same for the two workers of a connected pipe |
| `Pipes.NamedPipe.BytesToSend` | src/agent/NamedPipe.cc:295-303 | Exactly the bytes written and not completed, so it is zero exactly when all have arrived |
| `Pipes.NamedPipe.Read` | src/agent/NamedPipe.cc:334-348 | The front of the queue is returned and removed |
| `Pipes.NamedPipe.ClosePipe` | src/agent/NamedPipe.cc:367-389 | The workers end, and what was in flight or queued is what is lost; if that is nothing, all but later writes has arrived |
| `Pipes.NamedPipe.Write` | src/agent/NamedPipe.cc:305-309 | The bytes join the queue, open or closed, and on a closed pipe they are late |
| `Shutdown.Agent.OnPollTimeout` | src/agent/Agent.cc:499-536 | The exact state after a poll: whether each pipe is open, whether the agent exits, whether the child still runs and the mouse mode; a pipe closed here has delivered every byte written to it, including what was written in this turn, and a shutdown's timer writes nothing more |
| `Shutdown.Agent.ResizeWindow` | src/agent/Agent.cc:440-451 | A resize writes what it scrapes to the output pipes in every phase; what it writes to a pipe already closed is late and never arrives |
| `Shutdown.Agent.ArrivedUnlessLate` | src/agent/Agent.cc:538-562 | From a pipe closed by a shutdown everything written has arrived if and only if nothing was written after the close |
| `Shutdown.Agent.AutoClosePipesForShutdown` | src/agent/Agent.cc:538-562 | Each output pipe is closed exactly during a shutdown, when connected and drained, and is otherwise as it was; the agent exits exactly if it was exiting, or is told to exit after shutdown and all its output pipes are closed by then |
| `Shutdown.Agent.CloseIfSent` | src/agent/Agent.cc:544-554 | A pipe is closed exactly when it is connected and everything written has arrived |
| `Shutdown.Agent.SendDsr` | src/agent/Agent.cc:234-239 | Nothing is written to a closed pipe |
| `Shutdown.Agent.StartProcess` | src/agent/Agent.cc:362-437 | A second child, or one during a shutdown, is refused; a child the system cannot create leaves the agent as it was; one that is created sets both flags |
| `Rpc.RequestIsUnderstood` | src/agent/Agent.cc:327-455 | The agent acts on exactly the request the client encoded |
| `Rpc.UnderstoodIsRequest` | src/agent/Agent.cc:327-455 | Every packet the agent acts on is the encoding of a valid request |
| `Rpc.ReplyIsUnderstood` | src/libvt7pty/vt7pty.cc:710-828 | The client returns what the agent did, exactly unless a list of processes is longer than the caller's array |
| `Rpc.CallIsCarriedOut` | src/agent/Agent.cc:327-455 | A call from end to end, without the codec's own terms: the agent refuses exactly a second child, a child during a shutdown and an answer too long; otherwise the client gets the process and thread handles it asked for, each its own, the system's error, or the list |
| `Rpc.SetSizeOnTheWire` | src/libvt7pty/vt7pty.cc:783-798 | One packet byte by byte |
| `RpcPairing.RepliesAnswerTheirCalls` | src/libvt7pty/vt7pty.cc:613-632 | In every run of client and agent the k-th result returned is the agent's answer to the k-th call, the agent acts on each call at most once and in order, and an open idle pipe holds no reply |
| `RpcPairing.StepKeepsPairing` | src/libvt7pty/vt7pty.cc:615-828 | Calls, agent turns, receipts, failures and closings keep at most one call under way |
| `RpcPairing.CallCompletes` | src/libvt7pty/vt7pty.cc:710-828 | From any state of any run, if pipe and agent are up and nothing stands in the way, call, turn and receipt are possible one after another, and leave exactly the agent's answer as the result, nothing in the pipe and the client ready for the next call |
| `RpcPairing.BreaksExactly` | src/libvt7pty/vt7pty.cc:613-632 | The pipe breaks exactly on a call that cannot be sent, on giving up and on a reply that does not parse; the agent goes down exactly when it closes or refuses, and then acts no more |
| `RpcPairing.Client.Call` | src/libvt7pty/vt7pty.cc:710-828 | A call that returns no result leaves the pipe closed, a result comes from exactly one reply, and if a whole reply comes in, the call returns what it says |
| `RpcPairing.Client.ReadPacket` | src/libvt7pty/vt7pty.cc:360-372 | Exactly one packet is taken from the stream, whatever has arrived after it, and a packet that comes in whole is returned |
| `RpcPairing.Client.ReadAll` | src/libvt7pty/vt7pty.cc:345-352 | The loop returns exactly the amount asked for, in order, however it arrives, and does return it if the reads go on |
| `HostDispatch.AtMostOnce` | tests/fidelity/HostDispatchProbe.cc:191-212 | In every run the sequence numbers accepted are 1 to n, once each and in order, all with the nonce and identities of the first; while the controller may send its number is the one the hook expects |
| `HostDispatch.AcceptedInLease` | tests/fidelity/HostDispatchProtocol.h:29-38 | In every run each request ever accepted was acceptable when the hook ran for it: well schemed, of the bound nonce and identity, next in turn, before its deadline and at most 5000 ms before it, a ping, close or acknowledgement test (or the first bind), its processes still the ones bound |
| `HostDispatch.AcceptedIffAcceptable` | tests/fidelity/HostDispatchHook.cc:77-133 | A hook that has not retired accepts a request if and only if it is acceptable in that sense; the log then grows by it, and otherwise nothing changes but that the hook may retire |
| `HostDispatch.AnswerIsTrue` | tests/fidelity/HostDispatchProtocol.h:29-38 | Each answer of a bound hook is true of the request, and a request with only one thing wrong is answered with just that |
| `HostDispatch.RetiresExactly` | tests/fidelity/HostDispatchHook.cc:105-133 | The hook retires exactly when it cannot answer, accepts a close or fails in checking a bind, and answers exactly when it is not retired and can |
| `HostDispatch.SurvivesExactly` | tests/fidelity/HostDispatchProbe.cc:194-212 | An open channel in step survives an exchange if and only if the request reaches the hook and is answered as expected: an acceptance exactly where it is acceptable; otherwise it is disabled and has counted nothing |
| `HostDispatch.ConcludesExactly` | tests/fidelity/HostDispatchProbe.cc:206-210 | Whatever answers, the controller goes on exactly if the answer is to this very request, is the expected one and names the right last number |
| `HostDispatch.ClosesAndWakes` | tests/fidelity/HostDispatchProbe.cc:227-229 | A close succeeds exactly if it is acceptable and answered, and leaves the hook retired |
| `HostDispatch.LateWakeOnce` | tests/fidelity/HostDispatchHook.cc:105-133 | A request left in the pipe is run for once, however often the hook is woken late |
| `HostDispatch.ExchangeKeepsStep` | tests/fidelity/HostDispatchProbe.cc:194-212 | An exchange, whatever is lost on the way, leaves the two in step or the controller disabled |
| `HostDispatch.RejectionChangesNothing` | tests/fidelity/HostDispatchHook.cc:105-133 | A rejection seen by both changes the sequence of neither |
| `HostDispatch.AcceptanceAdvancesBoth` | tests/fidelity/HostDispatchProtocol.h:29-38 | An acceptance seen by both is of an acceptable request with the number both expected; it is entered in the log and advances both by one |
| `HostDispatch.BlockedStaysSilent` | tests/fidelity/HostDispatchProbe.cc:194-240 | After a close or an outcome it cannot know the controller sends nothing more |
| `HostDispatch.BlockedRunStaysSilent` | tests/fidelity/HostDispatchProbe.cc:194-240 | The same over every further run |
| `HostDispatch.DispatchKeepsLog` | tests/fidelity/HostDispatchHook.cc:77-133 | The hook accepts the next number and says so, or keeps its sequence |
| `HostDispatch.Hook.Process` | tests/fidelity/HostDispatchHook.cc:105-133 | The hook's new state and its answer are those of the function that AcceptedIffAcceptable, AnswerIsTrue and RetiresExactly characterise |
| `HostDispatch.Hook.BindRequest` | tests/fidelity/HostDispatchHook.cc:77-104 | Binding happens exactly when every check holds, and sets the sequence to one |
| `HostDispatch.Channel.Exchange` | tests/fidelity/HostDispatchProbe.cc:194-212 | The state of both sides after an exchange; any failure disables the channel |
| `HostDispatch.Channel.Close` | tests/fidelity/HostDispatchProbe.cc:227 | A close that succeeds blocks the channel |
| `LargeConsoleRead.Read` | src/agent/LargeConsoleRead.cc:36-74 | In one call or in bands, every line of the buffer is the masked console row at its place, and the console saw one read or exactly the bands |
| `LargeConsoleRead.BandsTile` | src/agent/LargeConsoleRead.cc:56-67 | The bands follow each other without gap or overlap to the last row, and none has more cells than one call may ask for |
| `LargeConsoleRead.ReadBands` | src/agent/LargeConsoleRead.cc:56-67 | The loop fills the row-major vector as one read would |
| `LargeConsoleRead.LargeConsoleReadBuffer.LineData` | src/agent/LargeConsoleRead.h:39-56 | The row at that line, or the abort exactly outside the rectangle |
| `LargeConsoleRead.MaskAll` | src/agent/LargeConsoleRead.cc:69-73 | Every cell is masked once, in place |
| `LargeConsoleRead.MaskRemovesFlags` | src/agent/Scraper.cc:403-438 | The mask removes a flag exactly when the console does not honour it, and no other bit |

## Left out

- Win32 itself: console handles, overlapped I/O, window messages, fonts, window sizing, security descriptors and
  process creation are parameters of the methods, or are left out.
- `Scraper::resizeImpl` and `clearBufferLines`: the result depends on how the console host rewraps lines. The
  scraper theorems hold between resizes; `MakeBlank` models the blanked line but no theorem uses it.
- Plain output mode with colour: only plain output without colour has theorems, and these are about the line being
  written, since plain output repeats lines by design.
- Cursor visibility after a clearing reset of a terminal whose cursor is hidden is not claimed, since it fails
  (`EmitterMirror.CursorStaysHidden`); otherwise it is exact in both scraping modes.
- Cells with raw control characters, combining marks, lone surrogates or characters outside the basic plane, and
  full-width marks that disagree with the oracle's width rule: excluded by `WellMarked`.
- EmitterMirror.SendLineShows: asks for well-marked cells, because appending and rewriting differ on cells the
  console and the terminal disagree about.
- ScrollMirror.ScrapeShows: claims the cursor's visibility where the emitter's record of it was exact.
- SyncMarker.RunKeepsPlace: assumes that no program writes the marker's text above the marker and that the console
  does not scroll while there is no marker; the source names the first as an open question.
- PhysicalLines.RunKeepsLines: makes the same assumptions about the marker.
- RingCoherence.RunKeepsCoherence: says nothing of lines blanked by a resize.
- The console title sequences, the separate error buffer's scraper, tracing and debug flags.
- Heap layout: trie nodes are numbers into a sequence instead of pointers into a pool, the scraper's ring holds line
  states as values, the terminal's output is a field instead of a pipe. Aliasing between them is not modelled.
- An object on which a method has thrown: the oracle's state after an error, the scanner's after an abort and the
  read buffer's offset after a decode error are not specified beyond their bounds.
- `DefaultInputMap` and `ConsoleInputReencoding`: tables. The bindings are arbitrary and the re-encoding is a
  parameter.
- Scan codes of key records, the keyboard layout and the double-click time: parameters or left out.
- Allocation failure for a string length that passes the codec's check and exceeds memory.
- Buffer.ReadBuffer.GetWString: an announced length is checked against the buffer without first reserving space for
  it.
- Pipes.NamedPipe.ClosePipe: counts a write in flight as lost, though the other side may have got it after all.
- Pipes.NamedPipe.ServiceOutput: a write shorter than its chunk is reported as unsound, where the original aborts.
- Handle duplication, the agent handshake and pipe names of the client library; the environment block scan.
- Rpc.ReplyIsUnderstood: does not model the handles a client takes over from the agent, only their values.
- Timeouts of the client's waits: a call that gives up is one outcome among others.
- Typed escape sequences that might begin a status or mouse report, an escape before `[`: TypedKeys.CharacterIsTyped
  leaves them to the theorems about reports and bindings.
- The hook's framing check on the pipe and the discovery of the hook's thread; the response's identity fields.
- Selection of fonts, packaging, manual tests and fixtures.
