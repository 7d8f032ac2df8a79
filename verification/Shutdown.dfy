/**
  Shutting down after the child has exited: an output pipe is closed only when everything written to it has arrived.
  Only a resize still writes to it afterwards.
 */
module Shutdown {
  import opened Basics
  import opened Pipes
  import E = Emitter

  /** What switching the terminal's mouse mode writes. */
  function MouseBytes(plainMode: bool, was: bool, now: bool): Bytes {
    var state := E.START.(mouseModeEnabled := was);
    E.EnableMouseMode(E.Config(plainMode, true), state, now).output
  }

  datatype StartResult = Refused | CreateProcessFailed | ProcessCreated

  class Agent {
    const plainMode: bool
    const conout: NamedPipe
    const conerr: NamedPipe?
    var childRunning: bool
    var autoShutdown: bool
    var exitAfterShutdown: bool
    var closingOutputPipes: bool
    var exiting: bool
    var mouseMode: bool

    /** The pipes that a shutdown, not an error, has closed. */
    ghost var drained: set<NamedPipe>

    ghost function Outputs(): set<NamedPipe>
      reads this
    {
      {conout} + if conerr == null then {} else {conerr}
    }

    /** From a pipe closed by a shutdown nothing is missing but what was written to it after it was closed. */
    ghost predicate Sound()
      reads this, conout, conerr
    {
      && conout != conerr && conout.Valid() && (conerr != null ==> conerr.Valid())
      && (closingOutputPipes ==> autoShutdown && !childRunning)
      && (plainMode ==> !mouseMode)
      && drained <= Outputs()
      && (drained != {} ==> closingOutputPipes && !mouseMode)
      && (conout in drained ==> Drained(conout))
      && (conerr != null && conerr in drained ==> Drained(conerr))
    }

    /** While shutting down, the terminal's mouse mode is off. */
    ghost predicate Valid()
      reads this, conout, conerr
    {
      Sound() && (closingOutputPipes ==> !mouseMode)
    }

    ghost predicate Drained(pipe: NamedPipe)
      reads pipe
    {
      !pipe.isOpen && pipe.lost == [] && pipe.written == pipe.completed + pipe.late
    }

    constructor (plainMode: bool, conout: NamedPipe, conerr: NamedPipe?)
      requires conout != conerr && conout.Valid() && (conerr != null ==> conerr.Valid())
      ensures Valid() && this.conout == conout && this.conerr == conerr && this.plainMode == plainMode
      ensures !closingOutputPipes && !childRunning && !exiting && !mouseMode && drained == {}
      ensures !autoShutdown && !exitAfterShutdown
    {
      this.plainMode, this.conout, this.conerr := plainMode, conout, conerr;
      childRunning, autoShutdown, exitAfterShutdown := false, false, false;
      closingOutputPipes, exiting, mouseMode, drained := false, false, false, {};
    }

    /**
      A second child, or one during a shutdown, is refused. `created` is the system's answer otherwise; a child that
      cannot be created leaves nothing behind, and another may be tried.
     */
    method StartProcess(auto: bool, exitAfter: bool, created: bool) returns (r: StartResult)
      requires Valid()
      modifies this`childRunning, this`autoShutdown, this`exitAfterShutdown
      ensures Valid()
      ensures r.Refused? <==> old(childRunning) || closingOutputPipes
      ensures !r.Refused? ==> (r.ProcessCreated? <==> created)
      ensures if r.ProcessCreated? then childRunning && autoShutdown == auto && exitAfterShutdown == exitAfter
              else
                && childRunning == old(childRunning) && autoShutdown == old(autoShutdown)
                && exitAfterShutdown == old(exitAfterShutdown)
    {
      if childRunning || closingOutputPipes {
        return Refused;
      }
      if !created {
        return CreateProcessFailed;
      }
      childRunning, autoShutdown, exitAfterShutdown := true, auto, exitAfter;
      r := ProcessCreated;
    }

    method SendDsr()
      requires Valid()
      modifies conout
      ensures Valid() && conout.isOpen == old(conout.isOpen) && conout.late == old(conout.late)
      ensures conout.written == old(conout.written) +
        if !plainMode && conout.isOpen then [0x1b, '[' as int, '6' as int, 'n' as int] else []
    {
      if !plainMode && conout.isOpen {
        conout.Write([0x1b, '[' as int, '6' as int, 'n' as int]);
      }
    }

    /** Close a pipe that is connected and has nothing left to send. */
    method CloseIfSent(pipe: NamedPipe)
      requires Valid() && closingOutputPipes && pipe in Outputs()
      modifies this`drained, pipe
      ensures Valid() && pipe.written == old(pipe.written) && pipe.completed == old(pipe.completed)
      ensures pipe.isOpen == (old(pipe.isOpen) && (old(pipe.connecting) || pipe.completed != pipe.written))
      ensures drained == old(drained) + if old(pipe.isOpen) && !pipe.isOpen then {pipe} else {}
      ensures pipe.late == old(pipe.late)
      ensures forall p :: p in Outputs() && p != pipe ==> p.isOpen == old(p.isOpen)
    {
      hide NamedPipe.Valid, NamedPipe.InFlight;
      if pipe.isOpen && !pipe.connecting {
        var n := pipe.BytesToSend();
        if n == 0 {
          pipe.ClosePipe();
          drained := drained + {pipe};
        }
      }
    }

    /** The other end is there and everything written has reached it. */
    ghost predicate Sent(pipe: NamedPipe)
      reads pipe
    {
      !pipe.connecting && pipe.completed == pipe.written
    }

    ghost predicate AllClosed()
      reads conout, conerr
    {
      !conout.isOpen && (conerr == null || !conerr.isOpen)
    }

    /**
      During a shutdown a pipe is closed exactly when all of it is sent, and the agent exits, if it was told to, exactly
      when every pipe is closed.
     */
    method AutoClosePipesForShutdown()
      requires Valid()
      modifies this`drained, this`exiting, conout, conerr
      ensures Valid() && old(drained) <= drained
      ensures conout.written == old(conout.written) && conout.completed == old(conout.completed)
      ensures conout.late == old(conout.late)
      ensures conerr != null ==>
        && conerr.written == old(conerr.written) && conerr.completed == old(conerr.completed)
        && conerr.late == old(conerr.late)
      ensures old(conout.isOpen) && !conout.isOpen ==>
        closingOutputPipes && conout in drained && conout.completed == conout.written
      ensures conerr != null && old(conerr.isOpen) && !conerr.isOpen ==>
        closingOutputPipes && conerr in drained && conerr.completed == conerr.written
      ensures conout.isOpen == (old(conout.isOpen) && !(closingOutputPipes && old(Sent(conout))))
      ensures conerr != null ==> conerr.isOpen == (old(conerr.isOpen) && !(closingOutputPipes && old(Sent(conerr))))
      ensures exiting == (old(exiting) || (closingOutputPipes && exitAfterShutdown && AllClosed()))
    {
      if closingOutputPipes {
        CloseIfSent(conout);
        if conerr != null {
          CloseIfSent(conerr);
        }
        if exitAfterShutdown && !conout.isOpen && (conerr == null || !conerr.isOpen) {
          exiting := true;
        }
      }
    }

    method WriteOutput(pipe: NamedPipe, bytes: Bytes)
      requires Sound() && (pipe == conout || pipe == conerr)
      modifies pipe
      ensures Sound() && pipe.isOpen == old(pipe.isOpen) && pipe.completed == old(pipe.completed)
      ensures pipe.connecting == old(pipe.connecting)
      ensures pipe.written == old(pipe.written) + bytes
      ensures pipe.late == old(pipe.late) + if pipe.isOpen then [] else bytes
    {
      Associate(pipe.completed, pipe.late, bytes);
      pipe.Write(bytes);
    }

    /** Scraping writes to the output pipes whether they are open or not. */
    method ScrapeBuffers(scraped: Bytes, scrapedErr: Bytes)
      requires Sound()
      modifies conout, conerr
      ensures Sound()
      ensures conout.written == old(conout.written) + scraped && conout.isOpen == old(conout.isOpen)
      ensures conout.completed == old(conout.completed) && conout.connecting == old(conout.connecting)
      ensures conout.late == old(conout.late) + if conout.isOpen then [] else scraped
      ensures conerr != null ==>
        && conerr.written == old(conerr.written) + scrapedErr && conerr.isOpen == old(conerr.isOpen)
        && conerr.connecting == old(conerr.connecting) && conerr.completed == old(conerr.completed)
        && conerr.late == old(conerr.late) + if conerr.isOpen then [] else scrapedErr
    {
      assert conout != conerr;
      hide Sound;
      WriteOutput(conout, scraped);
      if conerr != null {
        WriteOutput(conerr, scrapedErr);
      }
    }

    /**
      The client resizes the window: both buffers are scraped, a shutdown or not. What is scraped after a pipe was
      closed never arrives.
     */
    method ResizeWindow(scraped: Bytes, scrapedErr: Bytes)
      requires Valid()
      modifies conout, conerr
      ensures Valid() && conout.isOpen == old(conout.isOpen) && conout.completed == old(conout.completed)
      ensures conout.written == old(conout.written) + scraped
      ensures conout.late == old(conout.late) + if conout.isOpen then [] else scraped
      ensures conerr != null ==>
        && conerr.isOpen == old(conerr.isOpen) && conerr.completed == old(conerr.completed)
        && conerr.written == old(conerr.written) + scrapedErr
        && conerr.late == old(conerr.late) + if conerr.isOpen then [] else scrapedErr
    {
      ScrapeBuffers(scraped, scrapedErr);
    }

    /** Everything written to a pipe closed by a shutdown has arrived, exactly if nothing was written after that. */
    lemma {:induction false} ArrivedUnlessLate(pipe: NamedPipe)
      requires Valid() && pipe in drained
      ensures pipe.completed == pipe.written <==> pipe.late == []
    {
      assert |pipe.written| == |pipe.completed| + |pipe.late|;
    }

    lemma {:induction false} MouseIsOff()
      requires Valid() && closingOutputPipes
      ensures !mouseMode && MouseBytes(plainMode, mouseMode, false) == []
    {
    }

    method SwitchMouse(now: bool)
      requires Sound() && (closingOutputPipes ==> !now)
      modifies this`mouseMode, conout
      ensures Valid() && conout.written == old(conout.written) + MouseBytes(plainMode, old(mouseMode), now)
      ensures conout.isOpen == old(conout.isOpen) && (!old(mouseMode) && !now ==> conout.late == old(conout.late))
      ensures conout.completed == old(conout.completed) && conout.connecting == old(conout.connecting)
      ensures mouseMode == (now && !plainMode)
    {
      hide E.PrivateModes;
      WriteOutput(conout, MouseBytes(plainMode, mouseMode, now));
      if !plainMode {
        mouseMode := now;
      }
    }

    method NoticeExit(childExited: bool)
      requires Valid()
      modifies this`childRunning, this`closingOutputPipes
      ensures Sound() && (!old(closingOutputPipes) ==> drained == {})
      ensures closingOutputPipes == (old(closingOutputPipes) || (autoShutdown && old(childRunning) && childExited))
      ensures childRunning == (old(childRunning) && !(autoShutdown && childExited))
    {
      if autoShutdown && childRunning && childExited {
        childRunning := false;
        closingOutputPipes := true;
      }
    }

    /**
      The timer. The exit of the child is looked for before the console is scraped, so what is scraped then is the
      child's last output; it and the end of the mouse mode are written before a pipe can be closed. Once a shutdown
      has begun the timer writes nothing more.
     */
    method OnPollTimeout(childExited: bool, wantMouse: bool, scraped: Bytes, scrapedErr: Bytes)
      requires Valid()
      modifies this`childRunning, this`closingOutputPipes, this`mouseMode, this`drained, this`exiting, conout, conerr
      ensures Valid()
      ensures closingOutputPipes == (old(closingOutputPipes) || (autoShutdown && old(childRunning) && childExited))
      ensures conout.written == old(conout.written) + (if old(closingOutputPipes) then [] else scraped)
                                + MouseBytes(plainMode, old(mouseMode), wantMouse && !closingOutputPipes)
      ensures conerr != null ==>
        conerr.written == old(conerr.written) + if old(closingOutputPipes) then [] else scrapedErr
      ensures old(closingOutputPipes) ==> conout.written == old(conout.written) && conout.late == old(conout.late)
      ensures old(closingOutputPipes) && conerr != null ==> conerr.late == old(conerr.late)
      ensures childRunning == (old(childRunning) && !(autoShutdown && childExited))
      ensures mouseMode == (wantMouse && !closingOutputPipes && !plainMode)
      ensures conout.completed == old(conout.completed)
      ensures conout.isOpen == (old(conout.isOpen)
                && !(closingOutputPipes && !old(conout.connecting) && conout.completed == conout.written))
      ensures conerr != null ==>
        && conerr.completed == old(conerr.completed)
        && conerr.isOpen == (old(conerr.isOpen)
             && !(closingOutputPipes && !old(conerr.connecting) && conerr.completed == conerr.written))
      ensures exiting == (old(exiting) || (closingOutputPipes && exitAfterShutdown && AllClosed()))
    {
      hide Sound, Valid, MouseBytes;
      if closingOutputPipes {
        MouseIsOff();
      }
      var shouldScrape := !closingOutputPipes;
      NoticeExit(childExited);
      ghost var before := conout.written;
      if shouldScrape {
        ScrapeBuffers(scraped, scrapedErr);
      }
      assert before + [] == before;
      SwitchMouse(wantMouse && !closingOutputPipes);
      AutoClosePipesForShutdown();
    }
  }
}
