/** A pipe of the agent: byte queues on both sides of overlapped reads and writes. */
module Pipes {
  import opened Basics

  const IO_SIZE := 0x1_0000

  /** What the system says about one read or write, when asked. */
  datatype ReadOutcome = Arrived(data: Bytes) | NoneYet | ReadFailed

  datatype WriteOutcome = Wrote(size: nat) | NotYet | WriteFailed

  datatype ServiceResult = NoProgress | Progress | Error

  /** Reads never bring more than the buffer they are given holds. */
  predicate ReadsFit(os: seq<ReadOutcome>) {
    forall i :: 0 <= i < |os| ==> os[i].Arrived? ==> |os[i].data| <= IO_SIZE
  }

  /**
    Whether the input worker meets an error, `pending` telling if a read is under way and `queued` how many bytes wait
    in a queue that takes more below `size`.
   */
  predicate ReadFails(pending: bool, queued: nat, size: nat, os: seq<ReadOutcome>)
    decreases |os|
  {
    && (pending || queued < size) && os != []
    && match os[0] {
         case Arrived(data) => ReadFails(false, queued + |data|, size, os[1..])
         case NoneYet => false
         case ReadFailed => true
       }
  }

  lemma {:induction false} NextRead(pending: bool, queued: nat, size: nat, os: seq<ReadOutcome>, i: nat)
    requires (pending || queued < size) && i <= |os|
    ensures ReadFails(pending, queued, size, os[i..]) <==>
      && i < |os|
      && (os[i].ReadFailed? || (os[i].Arrived? && ReadFails(false, queued + |os[i].data|, size, os[i + 1..])))
  {
    if i < |os| {
      assert os[i..][0] == os[i] && os[i..][1..] == os[i + 1..];
    }
  }

  lemma {:induction false} FullReads(queued: nat, size: nat, os: seq<ReadOutcome>)
    requires queued >= size
    ensures !ReadFails(false, queued, size, os) && Incoming(false, queued, size, os) == []
  {
  }

  /** Whether the output worker meets an error, with `flying` bytes under way (0 for none) and `queued` behind them. */
  predicate WriteFails(flying: nat, queued: nat, os: seq<WriteOutcome>)
    decreases |os|
  {
    var next := if flying > 0 then flying else Min(queued, IO_SIZE);
    && next > 0 && os != []
    && match os[0] {
         case Wrote(size) => size == next && WriteFails(0, if flying > 0 then queued else queued - next, os[1..])
         case NotYet => false
         case WriteFailed => true
       }
  }

  /** The bytes that the input worker takes in meanwhile. */
  function Incoming(pending: bool, queued: nat, size: nat, os: seq<ReadOutcome>): Bytes
    decreases |os|
  {
    if (pending || queued < size) && os != [] && os[0].Arrived? then
      os[0].data + Incoming(false, queued + |os[0].data|, size, os[1..])
    else []
  }

  /** Whether the input worker takes in anything at all. */
  predicate TakesIn(pending: bool, queued: nat, size: nat, os: seq<ReadOutcome>) {
    (pending || queued < size) && os != [] && os[0].Arrived?
  }

  /** Whether the output worker gets rid of anything at all. */
  predicate GetsRid(flying: nat, queued: nat, os: seq<WriteOutcome>) {
    (flying > 0 || queued > 0) && os != [] && os[0] == Wrote(if flying > 0 then flying else Min(queued, IO_SIZE))
  }

  lemma {:induction false} NextIncoming(pending: bool, queued: nat, size: nat, os: seq<ReadOutcome>, i: nat)
    requires (pending || queued < size) && i <= |os|
    ensures Incoming(pending, queued, size, os[i..]) ==
      if i < |os| && os[i].Arrived? then os[i].data + Incoming(false, queued + |os[i].data|, size, os[i + 1..]) else []
  {
    if i < |os| {
      assert os[i..][0] == os[i] && os[i..][1..] == os[i + 1..];
    }
  }

  /** How many bytes the output worker is rid of meanwhile. */
  function Outgoing(flying: nat, queued: nat, os: seq<WriteOutcome>): nat
    decreases |os|
  {
    var next := if flying > 0 then flying else Min(queued, IO_SIZE);
    if next > 0 && os != [] && os[0] == Wrote(next) then
      next + Outgoing(0, if flying > 0 then queued else queued - next, os[1..])
    else 0
  }

  /** Whether the system says that it has written another number of bytes than it was given. */
  predicate Miscounts(flying: nat, queued: nat, os: seq<WriteOutcome>)
    decreases |os|
  {
    var next := if flying > 0 then flying else Min(queued, IO_SIZE);
    && next > 0 && os != [] && os[0].Wrote?
    && (os[0].size == next ==> Miscounts(0, if flying > 0 then queued else queued - next, os[1..]))
  }

  lemma {:induction false} NextWrite(flying: nat, queued: nat, os: seq<WriteOutcome>, i: nat)
    requires i <= |os|
    ensures var next := if flying > 0 then flying else Min(queued, IO_SIZE);
      var rest := if flying > 0 then queued else queued - next;
      if next > 0 && i < |os| && os[i].Wrote? && os[i].size == next then
        && WriteFails(flying, queued, os[i..]) == WriteFails(0, rest, os[i + 1..])
        && Miscounts(flying, queued, os[i..]) == Miscounts(0, rest, os[i + 1..])
        && Outgoing(flying, queued, os[i..]) == next + Outgoing(0, rest, os[i + 1..])
      else
        && WriteFails(flying, queued, os[i..]) == (next > 0 && i < |os| && os[i].WriteFailed?)
        && Miscounts(flying, queued, os[i..]) == (next > 0 && i < |os| && os[i].Wrote?)
        && Outgoing(flying, queued, os[i..]) == 0
  {
    if i < |os| {
      assert os[i..][0] == os[i] && os[i..][1..] == os[i + 1..];
    }
  }

  lemma {:induction false} Associate(a: Bytes, b: Bytes, c: Bytes)
    ensures a + (b + c) == (a + b) + c
  {
  }

  class NamedPipe {
    const reading: bool
    const writing: bool
    var isOpen: bool
    var connecting: bool
    var readBufferSize: nat
    var inQueue: Bytes
    var outQueue: Bytes
    var hasInput: bool
    var hasOutput: bool
    var readPending: bool
    var writePending: bool
    var writeBuffer: Bytes

    /** Everything that ever arrived, was read by the agent, was written by the agent, and reached the other side. */
    ghost var arrived: Bytes
    ghost var taken: Bytes
    ghost var written: Bytes
    ghost var completed: Bytes

    /** What was not known to have arrived when the pipe was closed, and what has been written to it since. */
    ghost var lost: Bytes
    ghost var late: Bytes

    ghost function InFlight(): Bytes
      reads this`writePending, this`writeBuffer
    {
      if writePending then writeBuffer else []
    }

    ghost function Unsent(): Bytes
      reads this`isOpen, this`writePending, this`writeBuffer, this`outQueue, this`lost, this`late
    {
      if isOpen then InFlight() + outQueue else lost + late
    }

    /** No byte is lost, doubled or overtaken, in either direction. */
    ghost predicate Valid()
      reads this
    {
      && arrived == taken + inQueue
      && completed + Unsent() == written
      && (isOpen ==> lost == late == []) && (writePending ==> writeBuffer != [])
      && (writePending ==> isOpen && hasOutput) && (readPending ==> isOpen && hasInput)
      && (!isOpen ==> !connecting && !hasInput && !hasOutput)
      && (connecting ==> !hasInput && !hasOutput)
      && (hasInput ==> reading) && (hasOutput ==> writing)
    }

    /** How large the read buffer has been at most, as far as the queue shows. */
    ghost function Reach(): nat
      reads this`readBufferSize, this`inQueue, this`readPending
    {
      Max(readBufferSize, Max(|inQueue| + 1 - IO_SIZE, if readPending then |inQueue| + 1 else 0))
    }

    constructor (reading: bool, writing: bool, connecting: bool)
      ensures this.reading == reading && this.writing == writing
      ensures Valid() && isOpen && this.connecting == connecting && readBufferSize == IO_SIZE
      ensures inQueue == [] && written == [] && completed == [] && arrived == [] && taken == []
      ensures hasInput == (reading && !connecting) && hasOutput == (writing && !connecting)
    {
      this.reading, this.writing := reading, writing;
      isOpen, this.connecting, readBufferSize := true, connecting, IO_SIZE;
      inQueue, outQueue, writeBuffer := [], [], [];
      hasInput, hasOutput := reading && !connecting, writing && !connecting;
      readPending, writePending := false, false;
      arrived, taken, written, completed, lost, late := [], [], [], [], [], [];
    }

    // ---------- The agent's side ----------

    /** A closed pipe takes what is written to it too; it never goes anywhere. */
    method Write(data: Bytes)
      requires Valid()
      modifies this`outQueue, this`written, this`late
      ensures Valid() && written == old(written) + data && outQueue == old(outQueue) + data
      ensures late == old(late) + if isOpen then [] else data
    {
      Associate(completed, Unsent(), data);
      Associate(InFlight(), outQueue, data);
      Associate(lost, late, data);
      outQueue := outQueue + data;
      written := written + data;
      late := late + if isOpen then [] else data;
    }

    /** The bytes not yet known to have reached the other side. */
    method BytesToSend() returns (n: nat)
      requires Valid()
      ensures isOpen ==> n == |written| - |completed|
      ensures isOpen ==> (n == 0 <==> completed == written)
      ensures isOpen && n == 0 ==> InFlight() + outQueue == [] == late
    {
      n := |outQueue| + if hasOutput && writePending then |writeBuffer| else 0;
      assert |completed + Unsent()| == |written|;
    }

    method Peek(size: nat) returns (data: Bytes)
      ensures data == inQueue[..Min(size, |inQueue|)]
    {
      data := inQueue[..Min(size, |inQueue|)];
    }

    method Read(size: nat) returns (data: Bytes)
      requires Valid()
      modifies this`inQueue, this`taken
      ensures Valid() && data == old(inQueue)[..Min(size, |old(inQueue)|)] && old(inQueue) == data + inQueue
      ensures taken == old(taken) + data
    {
      data := Peek(size);
      inQueue := inQueue[|data|..];
      taken := taken + data;
    }

    method ReadAll() returns (data: Bytes)
      requires Valid()
      modifies this`inQueue, this`taken
      ensures Valid() && data == old(inQueue) && inQueue == [] && taken == arrived
    {
      data := inQueue;
      inQueue := [];
      taken := taken + data;
    }

    method SetReadBufferSize(size: nat)
      requires Valid()
      modifies this`readBufferSize
      ensures Valid() && readBufferSize == size && Reach() <= Max(old(Reach()), size)
    {
      readBufferSize := size;
    }

    // ---------- The system's side ----------

    method Arrive(data: Bytes)
      requires Valid() && |data| <= IO_SIZE && (readPending || |inQueue| < readBufferSize)
      modifies this`inQueue, this`arrived, this`readPending
      ensures Valid() && !readPending && inQueue == old(inQueue) + data && arrived == old(arrived) + data
      ensures Reach() <= old(Reach())
    {
      assert taken + (inQueue + data) == taken + inQueue + data;
      inQueue := inQueue + data;
      arrived := arrived + data;
      readPending := false;
    }

    method StartRead()
      requires Valid() && isOpen && hasInput && !readPending && |inQueue| < readBufferSize
      modifies this`readPending
      ensures Valid() && readPending && Reach() <= old(Reach())
    {
      readPending := true;
    }

    /** Ask for more while the queue is below its size. One read more than fills it is possible, no further. */
    method ServiceInput(os: seq<ReadOutcome>) returns (r: ServiceResult)
      requires Valid() && isOpen && hasInput && ReadsFit(os)
      modifies this`inQueue, this`arrived, this`readPending
      ensures Valid() && |old(arrived)| <= |arrived|
      ensures Reach() <= old(Reach())
      ensures r == Error <==> ReadFails(old(readPending), |old(inQueue)|, readBufferSize, os)
      ensures r != Error ==> readPending || |inQueue| >= readBufferSize
      ensures inQueue == old(inQueue) + Incoming(old(readPending), |old(inQueue)|, readBufferSize, os)
      ensures r == NoProgress ==> inQueue == old(inQueue)
      ensures r == Progress <==> r != Error && TakesIn(old(readPending), |old(inQueue)|, readBufferSize, os)
    {
      hide ReadFails, Incoming, Reach, InFlight, Unsent, Valid;
      r := NoProgress;
      var i := 0;
      ghost var fails := ReadFails(readPending, |inQueue|, readBufferSize, os);
      ghost var takes := TakesIn(readPending, |inQueue|, readBufferSize, os);
      ghost var all := inQueue + Incoming(readPending, |inQueue|, readBufferSize, os);
      assert os[0..] == os;
      if readPending {
        NextRead(true, |inQueue|, readBufferSize, os, 0);
        NextIncoming(true, |inQueue|, readBufferSize, os, 0);
        if |os| == 0 || os[0].NoneYet? {
          return NoProgress;
        } else if os[0].ReadFailed? {
          return Error;
        }
        Associate(inQueue, os[0].data, Incoming(false, |inQueue| + |os[0].data|, readBufferSize, os[1..]));
        Arrive(os[0].data);
        r, i := Progress, 1;
      }
      while |inQueue| < readBufferSize
        invariant 0 <= i <= |os| && Valid() && !readPending && |old(arrived)| <= |arrived|
        invariant fails == ReadFails(false, |inQueue|, readBufferSize, os[i..])
        invariant all == inQueue + Incoming(false, |inQueue|, readBufferSize, os[i..])
        invariant Reach() <= old(Reach())
        invariant r == (if i == 0 then NoProgress else Progress) && (i == 0 ==> inQueue == old(inQueue))
        invariant if i == 0 then !old(readPending) else takes
        decreases |os| - i
      {
        NextRead(false, |inQueue|, readBufferSize, os, i);
        NextIncoming(false, |inQueue|, readBufferSize, os, i);
        assert inQueue + [] == inQueue;
        if i >= |os| || os[i].NoneYet? {
          StartRead();
          return;
        } else if os[i].ReadFailed? {
          return Error;
        }
        Associate(inQueue, os[i].data, Incoming(false, |inQueue| + |os[i].data|, readBufferSize, os[i + 1..]));
        Arrive(os[i].data);
        r, i := Progress, i + 1;
      }
      FullReads(|inQueue|, readBufferSize, os[i..]);
      assert inQueue + [] == inQueue;
    }

    lemma {:induction false} NothingLeft()
      requires Valid() && isOpen && !writePending && outQueue == []
      ensures completed == written
    {
      assert completed + [] + [] == completed;
    }

    lemma {:induction false} SomethingFlies()
      requires Valid() && writePending
      ensures isOpen && writeBuffer != [] && InFlight() == writeBuffer
    {
    }

    /**
      Hand over queued bytes chunk by chunk. The original aborts when the system writes less than a whole chunk
      (`sound` is then false).
     */
    method ServiceOutput(os: seq<WriteOutcome>) returns (r: ServiceResult, sound: bool)
      requires Valid() && isOpen && hasOutput
      modifies this`outQueue, this`completed, this`writePending, this`writeBuffer
      ensures Valid() && |old(completed)| <= |completed|
      ensures sound <==> !Miscounts(|old(InFlight())|, |old(outQueue)|, os)
      ensures sound ==> (r == Error <==> WriteFails(|old(InFlight())|, |old(outQueue)|, os))
      ensures sound ==> (r == Progress <==> r != Error && GetsRid(|old(InFlight())|, |old(outQueue)|, os))
      ensures sound && r != Error ==> writePending || completed == written
      ensures |completed| == |old(completed)| + Outgoing(|old(InFlight())|, |old(outQueue)|, os)
      ensures r == NoProgress ==> completed == old(completed)
    {
      hide WriteFails, Miscounts, Outgoing, Valid, Unsent;
      r, sound := NoProgress, true;
      var i := 0;
      ghost var flying, queued := |InFlight()|, |outQueue|;
      assert os[0..] == os;
      NextWrite(|InFlight()|, |outQueue|, os, 0);
      if writePending {
        SomethingFlies();
        if |os| == 0 || os[0].NotYet? {
          return;
        } else if os[0].WriteFailed? {
          return Error, true;
        } else if os[0].size != |writeBuffer| {
          return Progress, false;
        }
        CompleteIo();
        r, i := Progress, 1;
      }
      while |outQueue| > 0
        invariant 0 <= i <= |os| && |old(completed)| <= |completed| && sound
        invariant Valid() && !writePending && isOpen && hasOutput
        invariant WriteFails(flying, queued, os) == WriteFails(0, |outQueue|, os[i..])
        invariant Miscounts(flying, queued, os) == Miscounts(0, |outQueue|, os[i..])
        invariant |old(completed)| + Outgoing(flying, queued, os) == |completed| + Outgoing(0, |outQueue|, os[i..])
        invariant r == (if i == 0 then NoProgress else Progress)
        invariant i == 0 ==> completed == old(completed) && !old(writePending) && outQueue == old(outQueue)
        invariant i > 0 ==> GetsRid(flying, queued, os)
        decreases |outQueue|
      {
        NextWrite(0, |outQueue|, os, i);
        TakeChunk();
        if i >= |os| || os[i].NotYet? {
          return;
        } else if os[i].WriteFailed? {
          return Error, true;
        } else if os[i].size != |writeBuffer| {
          return Progress, false;
        }
        CompleteIo();
        r, i := Progress, i + 1;
      }
      NextWrite(0, 0, os, i);
      NothingLeft();
    }

    /** Put the next chunk of the queue in flight. */
    method TakeChunk()
      requires Valid() && isOpen && hasOutput && !writePending && |outQueue| > 0
      modifies this`outQueue, this`writeBuffer, this`writePending
      ensures Valid() && writePending && |writeBuffer| == Min(|old(outQueue)|, IO_SIZE)
      ensures |outQueue| == |old(outQueue)| - |writeBuffer|
    {
      var size := Min(|outQueue|, IO_SIZE);
      assert outQueue[..size] + outQueue[size..] == [] + outQueue;
      writeBuffer := outQueue[..size];
      outQueue := outQueue[size..];
      writePending := true;
    }

    method CompleteIo()
      requires Valid() && writePending
      modifies this`completed, this`writePending
      ensures Valid() && !writePending && completed == old(completed) + writeBuffer
    {
      assert completed + (writeBuffer + outQueue) == (completed + writeBuffer) + ([] + outQueue);
      completed := completed + writeBuffer;
      writePending := false;
    }

    /** Forget the workers. What is in flight or queued is lost; what has arrived stays as it is from here on. */
    method ClosePipe()
      requires Valid()
      modifies this`isOpen, this`connecting, this`hasInput, this`hasOutput, this`readPending, this`writePending
      modifies this`lost
      ensures Valid() && !isOpen && !writePending && Reach() <= old(Reach())
      ensures lost == if old(isOpen) then old(InFlight() + outQueue) else old(lost)
      ensures lost == [] ==> written == completed + late
    {
      lost := if isOpen then InFlight() + outQueue else lost;
      assert lost + [] == lost && [] + late == late;
      isOpen, connecting := false, false;
      readPending, writePending := false, false;
      hasInput, hasOutput := false, false;
    }

    method StartPipeWorkers()
      requires Valid() && isOpen && !connecting
      modifies this`hasInput, this`hasOutput
      ensures Valid() && hasInput == reading && hasOutput == writing
    {
      hasInput, hasOutput := hasInput || reading, hasOutput || writing;
    }

    /** Whether a worker that runs in the next turn of the event loop meets an error. */
    ghost predicate MeetsError(connected: bool, arriving: seq<ReadOutcome>, leaving: seq<WriteOutcome>)
      reads this
    {
      var starts := connecting && connected;
      || ((hasInput || (starts && reading)) && ReadFails(readPending, |inQueue|, readBufferSize, arriving))
      || ((hasOutput || (starts && writing)) && WriteFails(|InFlight()|, |outQueue|, leaving))
    }

    /** Whether the output worker, if it runs, is told a wrong count. */
    ghost predicate Miscounted(starts: bool, leaving: seq<WriteOutcome>)
      reads this
    {
      (hasOutput || (starts && writing)) && Miscounts(|InFlight()|, |outQueue|, leaving)
    }

    /** Whether a worker that runs takes in or gets rid of anything. */
    ghost predicate MovesBytes(starts: bool, arriving: seq<ReadOutcome>, leaving: seq<WriteOutcome>)
      reads this
    {
      || ((hasInput || (starts && reading)) && TakesIn(readPending, |inQueue|, readBufferSize, arriving))
      || ((hasOutput || (starts && writing)) && GetsRid(|InFlight()|, |outQueue|, leaving))
    }

    /** What the input worker, if it runs, takes in. */
    ghost function TakenIn(starts: bool, arriving: seq<ReadOutcome>): Bytes
      reads this
    {
      if hasInput || (starts && reading) then Incoming(readPending, |inQueue|, readBufferSize, arriving) else []
    }

    /** How much the output worker, if it runs, gets rid of. */
    ghost function GotRid(starts: bool, leaving: seq<WriteOutcome>): nat
      reads this
    {
      if hasOutput || (starts && writing) then Outgoing(|InFlight()|, |outQueue|, leaving) else 0
    }

    /**
      One turn of the event loop for this pipe: true if anything happened. An error of either worker closes the pipe,
      and nothing else does.
     */
    method ServiceIo(connected: bool, arriving: seq<ReadOutcome>, leaving: seq<WriteOutcome>)
      returns (happened: bool, sound: bool)
      requires Valid() && ReadsFit(arriving)
      modifies this`isOpen, this`connecting, this`hasInput, this`hasOutput, this`readPending, this`writePending
      modifies this`inQueue, this`arrived, this`outQueue, this`completed, this`writeBuffer, this`lost
      ensures Valid() && |old(completed)| <= |completed| && |old(arrived)| <= |arrived|
      ensures sound ==> Reach() <= old(Reach())
      ensures sound && old(isOpen) ==> (isOpen <==> !old(MeetsError(connected, arriving, leaving)))
      ensures !old(isOpen) ==> !happened && sound && !isOpen
      ensures old(isOpen) ==> (sound <==> !old(Miscounted(connecting && connected, leaving)))
      ensures sound ==> (happened <==> old(isOpen && (
          || (connecting && connected) || MeetsError(connected, arriving, leaving)
          || MovesBytes(connecting && connected, arriving, leaving))))
      ensures sound && isOpen ==> connecting == (old(connecting) && !connected)
      ensures inQueue == old(inQueue + if isOpen then TakenIn(connecting && connected, arriving) else [])
      ensures |completed| == old(|completed| + if isOpen then GotRid(connecting && connected, leaving) else 0)
      ensures sound && isOpen && hasOutput ==> writePending || completed == written
      ensures sound && isOpen && hasInput ==> readPending || |inQueue| >= readBufferSize
    {
      hide ReadFails, WriteFails, Miscounts, Incoming, Outgoing, TakesIn, GetsRid, Unsent, Reach;
      happened, sound := false, true;
      if !isOpen {
        return;
      }
      var justConnected := connecting && connected;
      if justConnected {
        connecting := false;
        StartPipeWorkers();
      }
      happened, sound := ServiceWorkers(arriving, leaving);
      happened := happened || (sound && justConnected);
    }

    /** Let both workers do what they can; an error of either closes the pipe. */
    method ServiceWorkers(arriving: seq<ReadOutcome>, leaving: seq<WriteOutcome>) returns (happened: bool, sound: bool)
      requires Valid() && ReadsFit(arriving) && isOpen
      modifies this`isOpen, this`connecting, this`hasInput, this`hasOutput, this`readPending, this`writePending
      modifies this`inQueue, this`arrived, this`outQueue, this`completed, this`writeBuffer, this`lost
      ensures Valid() && |old(completed)| <= |completed| && |old(arrived)| <= |arrived|
      ensures sound ==> Reach() <= old(Reach())
      ensures sound ==> (isOpen <==> !old(MeetsError(false, arriving, leaving)))
      ensures sound && isOpen && hasOutput ==> writePending || completed == written
      ensures sound && isOpen && hasInput ==> readPending || |inQueue| >= readBufferSize
      ensures sound <==> !old(Miscounted(false, leaving))
      ensures sound ==> (happened <==>
                           old(MeetsError(false, arriving, leaving) || MovesBytes(false, arriving, leaving)))
      ensures inQueue == old(inQueue + TakenIn(false, arriving))
      ensures |completed| == old(|completed| + GotRid(false, leaving)) && (isOpen ==> connecting == old(connecting))
    {
      hide ReadFails, WriteFails, Miscounts, Incoming, Outgoing, TakesIn, GetsRid, Unsent, Reach;
      happened, sound := false, true;
      var read, write := NoProgress, NoProgress;
      if hasInput {
        read := ServiceInput(arriving);
      }
      if hasOutput {
        write, sound := ServiceOutput(leaving);
        if !sound {
          return;
        }
      }
      if read == Error || write == Error {
        ClosePipe();
        return true, true;
      }
      happened := read == Progress || write == Progress;
    }
  }
}
