/** Length-prefixed packets on the control pipe. */
module Framing {
  import opened Basics
  import opened Buffer
  import opened Pipes

  const SIZE_FIELD := 8
  const MAX_PACKET := 1024 * 1024

  predicate Fitting(payload: Bytes) {
    SIZE_FIELD + |payload| <= MAX_PACKET
  }

  predicate AllFitting(payloads: seq<Bytes>) {
    forall i :: 0 <= i < |payloads| ==> Fitting(payloads[i])
  }

  /** A packet: its whole size, and then its payload. */
  function Frame(payload: Bytes): (r: Bytes)
    ensures |r| == SIZE_FIELD + |payload|
  {
    LittleEndian(SIZE_FIELD + |payload|, SIZE_FIELD) + payload
  }

  function Frames(payloads: seq<Bytes>): Bytes {
    if payloads == [] then [] else Frame(payloads[0]) + Frames(payloads[1..])
  }

  // ---------- What a poll takes from the queue ----------

  datatype Head = Short(wanted: nat) | Malformed | Packet(size: nat)

  /** What is at the head of the queue: too little, how much being wanted, or a packet, or nothing that can be one. */
  function HeadOf(queue: Bytes): (r: Head)
    ensures r.Packet? ==> SIZE_FIELD <= r.size <= |queue|
    ensures r.Short? ==> |queue| < r.wanted <= MAX_PACKET
  {
    if |queue| < SIZE_FIELD then Short(SIZE_FIELD)
    else
      var size := FromLittleEndian(queue[..SIZE_FIELD]);
      if size < SIZE_FIELD || size > MAX_PACKET then Malformed
      else if |queue| < size then Short(size)
      else Packet(size)
  }

  /** Payloads delivered, the bytes left, and whether the pipe stays open. */
  datatype Polled = Polled(delivered: seq<Bytes>, rest: Bytes, open: bool)

  /** `accepts` says whether the last of the payloads delivered so far can be handled. */
  function Poll(accepts: seq<Bytes> -> bool, before: seq<Bytes>, queue: Bytes): Polled
    decreases |queue|
  {
    match HeadOf(queue)
    case Short(_) => Polled([], queue, true)
    case Malformed => Polled([], queue, false)
    case Packet(size) =>
      var payload := queue[SIZE_FIELD..size];
      if !accepts(before + [payload]) then Polled([payload], queue[size..], false)
      else Before(payload, Poll(accepts, before + [payload], queue[size..]))
  }

  function Before(payload: Bytes, rest: Polled): Polled {
    rest.(delivered := [payload] + rest.delivered)
  }

  function Both(first: Polled, second: Polled): Polled {
    Polled(first.delivered + second.delivered, second.rest, second.open)
  }

  lemma {:induction false} PollStep(accepts: seq<Bytes> -> bool, before: seq<Bytes>, queue: Bytes)
    ensures var head, r := HeadOf(queue), Poll(accepts, before, queue);
      if head.Short? then r == Polled([], queue, true)
      else if head.Malformed? then r == Polled([], queue, false)
      else
        var payload := queue[SIZE_FIELD..head.size];
        r == if accepts(before + [payload]) then Before(payload, Poll(accepts, before + [payload], queue[head.size..]))
             else Polled([payload], queue[head.size..], false)
  {
  }

  // ---------- Chunks ----------

  lemma {:induction false} HeadIsStable(queue: Bytes, more: Bytes)
    ensures !HeadOf(queue).Short? ==> HeadOf(queue + more) == HeadOf(queue)
  {
    if |queue| >= SIZE_FIELD {
      assert (queue + more)[..SIZE_FIELD] == queue[..SIZE_FIELD];
    }
  }

  ghost predicate InTwo(accepts: seq<Bytes> -> bool, before: seq<Bytes>, a: Bytes, b: Bytes) {
    var first := Poll(accepts, before, a);
    Poll(accepts, before, a + b) ==
    if first.open then Both(first, Poll(accepts, before + first.delivered, first.rest + b))
    else first.(rest := first.rest + b)
  }

  lemma {:induction false} StepInTwo(accepts: seq<Bytes> -> bool, before: seq<Bytes>, a: Bytes, b: Bytes, size: nat)
    requires HeadOf(a) == Packet(size) && accepts(before + [a[SIZE_FIELD..size]])
    requires InTwo(accepts, before + [a[SIZE_FIELD..size]], a[size..], b)
    ensures InTwo(accepts, before, a, b)
  {
    hide HeadOf;
    var payload := a[SIZE_FIELD..size];
    HeadIsStable(a, b);
    assert (a + b)[SIZE_FIELD..size] == payload && (a + b)[size..] == a[size..] + b;
    var later := Poll(accepts, before + [payload], a[size..]);
    assert before + [payload] + later.delivered == before + ([payload] + later.delivered);
    if later.open {
      var last := Poll(accepts, before + [payload] + later.delivered, later.rest + b);
      assert [payload] + (later.delivered + last.delivered) == ([payload] + later.delivered) + last.delivered;
    }
  }

  lemma {:induction false} PollInTwo(accepts: seq<Bytes> -> bool, before: seq<Bytes>, a: Bytes, b: Bytes)
    ensures InTwo(accepts, before, a, b)
    decreases |a|
  {
    hide HeadOf, InTwo;
    var head := HeadOf(a);
    if head.Packet? && accepts(before + [a[SIZE_FIELD..head.size]]) {
      PollInTwo(accepts, before + [a[SIZE_FIELD..head.size]], a[head.size..], b);
      StepInTwo(accepts, before, a, b, head.size);
    } else {
      EndInTwo(accepts, before, a, b);
    }
  }

  lemma {:induction false} EndInTwo(accepts: seq<Bytes> -> bool, before: seq<Bytes>, a: Bytes, b: Bytes)
    requires var head := HeadOf(a); head.Packet? ==> !accepts(before + [a[SIZE_FIELD..head.size]])
    ensures InTwo(accepts, before, a, b)
  {
    HeadIsStable(a, b);
    var head := HeadOf(a);
    if head.Packet? {
      assert (a + b)[SIZE_FIELD..head.size] == a[SIZE_FIELD..head.size];
      assert (a + b)[head.size..] == a[head.size..] + b;
    } else if head.Short? {
      assert before + [] == before;
      var all := Poll(accepts, before, a + b);
      assert [] + all.delivered == all.delivered;
    }
  }

  /** One poll after each chunk, until the pipe is closed. */
  function PollChunks(accepts: seq<Bytes> -> bool, before: seq<Bytes>, rest: Bytes, chunks: seq<Bytes>): Polled
    decreases |chunks|
  {
    if chunks == [] then Polled([], rest, true)
    else
      var first := Poll(accepts, before, rest + chunks[0]);
      if first.open then Both(first, PollChunks(accepts, before + first.delivered, first.rest, chunks[1..])) else first
  }

  /** A poll leaves nothing another poll could take. */
  lemma {:induction false} PollIsDone(accepts: seq<Bytes> -> bool, before: seq<Bytes>, queue: Bytes)
    requires Poll(accepts, before, queue).open
    ensures HeadOf(Poll(accepts, before, queue).rest).Short?
    decreases |queue|
  {
    hide HeadOf;
    var head := HeadOf(queue);
    if head.Packet? {
      PollIsDone(accepts, before + [queue[SIZE_FIELD..head.size]], queue[head.size..]);
    }
  }

  /** However the bytes are cut into chunks, the same payloads are delivered and the pipe ends in the same state. */
  lemma {:induction false} ChunksDoNotShow(
    accepts: seq<Bytes> -> bool, before: seq<Bytes>, rest: Bytes, chunks: seq<Bytes>)
    requires HeadOf(rest).Short?
    ensures var cut, whole := PollChunks(accepts, before, rest, chunks), Poll(accepts, before, rest + Concat(chunks));
      cut.delivered == whole.delivered && cut.open == whole.open && (cut.open ==> cut.rest == whole.rest)
    decreases |chunks|
  {
    hide HeadOf;
    if chunks == [] {
      assert rest + Concat(chunks) == rest;
    } else {
      hide Poll;
      var all := rest + chunks[0];
      var first := Poll(accepts, before, all);
      assert rest + Concat(chunks) == all + Concat(chunks[1..]);
      PollInTwo(accepts, before, all, Concat(chunks[1..]));
      if first.open {
        PollIsDone(accepts, before, all);
        ChunksDoNotShow(accepts, before + first.delivered, first.rest, chunks[1..]);
      }
    }
  }

  // ---------- Well-formed packets ----------

  lemma {:induction false} HeadOfFrame(payload: Bytes, more: Bytes)
    requires Fitting(payload)
    ensures HeadOf(Frame(payload) + more) == Packet(SIZE_FIELD + |payload|)
    ensures (Frame(payload) + more)[SIZE_FIELD..SIZE_FIELD + |payload|] == payload
    ensures (Frame(payload) + more)[SIZE_FIELD + |payload|..] == more
  {
    hide LittleEndian, FromLittleEndian;
    var queue := Frame(payload) + more;
    assert queue[..SIZE_FIELD] == LittleEndian(SIZE_FIELD + |payload|, SIZE_FIELD);
    LengthRoundTrip(SIZE_FIELD + |payload|);
  }

  /** Each payload is accepted after those before it. */
  ghost predicate AllAccepted(accepts: seq<Bytes> -> bool, before: seq<Bytes>, payloads: seq<Bytes>)
    decreases |payloads|
  {
    payloads != [] ==> accepts(before + [payloads[0]]) && AllAccepted(accepts, before + [payloads[0]], payloads[1..])
  }

  lemma {:induction false} PollOfFrames(accepts: seq<Bytes> -> bool, before: seq<Bytes>, payloads: seq<Bytes>)
    requires AllFitting(payloads) && AllAccepted(accepts, before, payloads)
    ensures Poll(accepts, before, Frames(payloads)) == Polled(payloads, [], true)
    decreases |payloads|
  {
    hide HeadOf, Frame;
    if payloads == [] {
      EmptyHead();
    } else {
      assert Fitting(payloads[0]);
      HeadOfFrame(payloads[0], Frames(payloads[1..]));
      PollOfFrames(accepts, before + [payloads[0]], payloads[1..]);
      assert [payloads[0]] + payloads[1..] == payloads;
    }
  }

  lemma {:induction false} EmptyHead()
    ensures HeadOf([]).Short?
  {
  }

  /** Whatever chunks a stream of well-sized packets arrives in, exactly their payloads are delivered, in order. */
  lemma {:induction false} PacketsAreDelivered(accepts: seq<Bytes> -> bool, payloads: seq<Bytes>, chunks: seq<Bytes>)
    requires AllFitting(payloads) && AllAccepted(accepts, [], payloads) && Concat(chunks) == Frames(payloads)
    ensures PollChunks(accepts, [], [], chunks) == Polled(payloads, [], true)
  {
    hide Poll, HeadOf;
    EmptyHead();
    ChunksDoNotShow(accepts, [], [], chunks);
    assert [] + Concat(chunks) == Frames(payloads);
    PollOfFrames(accepts, [], payloads);
  }

  // ---------- The object ----------

  class ControlChannel {
    const pipe: NamedPipe
    const accepts: seq<Bytes> -> bool
    var exiting: bool
    var delivered: seq<Bytes>

    constructor (pipe: NamedPipe, accepts: seq<Bytes> -> bool)
      ensures this.pipe == pipe && this.accepts == accepts && !exiting && delivered == []
    {
      this.pipe, this.accepts, exiting, delivered := pipe, accepts, false, [];
    }

    /** The handler of a packet: a decode error is `false`. */
    method HandlePacket(payload: Bytes) returns (ok: bool)
      modifies this`delivered
      ensures delivered == old(delivered) + [payload] && ok == accepts(delivered)
    {
      delivered := delivered + [payload];
      ok := accepts(delivered);
    }

    method CloseAndExit()
      requires pipe.Valid()
      modifies this`exiting, pipe
      ensures pipe.Valid() && exiting && !pipe.isOpen && pipe.inQueue == old(pipe.inQueue)
      ensures pipe.readBufferSize == old(pipe.readBufferSize) && pipe.Reach() <= old(pipe.Reach())
    {
      pipe.ClosePipe();
      exiting := true;
    }

    method TakePacket(size: nat) returns (payload: Bytes, ok: bool)
      requires pipe.Valid() && SIZE_FIELD <= size <= |pipe.inQueue|
      modifies this`delivered, pipe`inQueue, pipe`taken
      ensures pipe.Valid() && pipe.Reach() <= old(pipe.Reach())
      ensures payload == old(pipe.inQueue)[SIZE_FIELD..size] && pipe.inQueue == old(pipe.inQueue)[size..]
      ensures delivered == old(delivered) + [payload] && ok == accepts(delivered)
    {
      ghost var queue := pipe.inQueue;
      var packet := pipe.Read(size);
      assert packet == queue[..size] && pipe.inQueue == queue[size..];
      payload := packet[SIZE_FIELD..];
      ok := HandlePacket(payload);
    }

    /**
      Take every complete packet. If the pipe stays open its input worker is willing to read on, since what is left is
      less than the read buffer holds.
     */
    method PollControlPipe()
      requires pipe.Valid() && IO_SIZE <= pipe.readBufferSize
      modifies this`exiting, this`delivered, pipe
      ensures pipe.Valid() && IO_SIZE <= pipe.readBufferSize
      ensures !old(pipe.isOpen) ==> exiting && delivered == old(delivered)
      ensures old(pipe.isOpen) ==>
        var r := Poll(accepts, old(delivered), old(pipe.inQueue));
        && delivered == old(delivered) + r.delivered && pipe.inQueue == r.rest && pipe.isOpen == r.open
        && (!r.open ==> exiting) && (r.open ==> exiting == old(exiting))
      ensures pipe.isOpen ==> |pipe.inQueue| < pipe.readBufferSize
      ensures pipe.Reach() <= Max(old(pipe.Reach()), MAX_PACKET)
    {
      hide HeadOf, Poll, Before, Prepended, NamedPipe.Reach, NamedPipe.Unsent, NamedPipe.InFlight;
      if !pipe.isOpen {
        exiting := true;
        return;
      }
      ghost var done: seq<Bytes> := [];
      PrependedFacts(done, Poll(accepts, delivered, pipe.inQueue));
      while true
        invariant pipe.Valid() && pipe.isOpen && IO_SIZE <= pipe.readBufferSize && exiting == old(exiting)
        invariant delivered == old(delivered) + done
        invariant Poll(accepts, old(delivered), old(pipe.inQueue)) ==
          Prepended(done, Poll(accepts, delivered, pipe.inQueue))
        invariant pipe.Reach() <= old(pipe.Reach())
        decreases |pipe.inQueue|
      {
        var head := Head();
        PollStep(accepts, delivered, pipe.inQueue);
        PrependedFacts(done, Poll(accepts, delivered, pipe.inQueue));
        if head.Short? {
          if pipe.readBufferSize < head.wanted {
            pipe.SetReadBufferSize(head.wanted);
          }
          return;
        }
        if head.Malformed? {
          CloseAndExit();
          return;
        }
        var payload, ok := TakePacket(head.size);
        PrependedTwice(done, payload, Poll(accepts, delivered, pipe.inQueue));
        PrependedTwice(done, payload, Polled([], pipe.inQueue, false));
        done := done + [payload];
        PrependedFacts(done, Polled([], pipe.inQueue, false));
        if !ok {
          CloseAndExit();
          return;
        }
      }
    }

    /** What is at the head of the queue. */
    method Head() returns (head: Head)
      ensures head == HeadOf(pipe.inQueue)
    {
      var sizeBytes := pipe.Peek(SIZE_FIELD);
      if |sizeBytes| < SIZE_FIELD {
        return Short(SIZE_FIELD);
      }
      var packetSize := FromLittleEndian(sizeBytes);
      if packetSize < SIZE_FIELD || packetSize > MAX_PACKET {
        return Malformed;
      }
      head := if |pipe.inQueue| < packetSize then Short(packetSize) else Packet(packetSize);
    }
  }

  function Prepended(done: seq<Bytes>, rest: Polled): Polled {
    rest.(delivered := done + rest.delivered)
  }

  lemma {:induction false} PrependedFacts(done: seq<Bytes>, rest: Polled)
    ensures var r := Prepended(done, rest);
      r.delivered == done + rest.delivered && r.rest == rest.rest && r.open == rest.open
    ensures done == [] ==> Prepended(done, rest) == rest
  {
  }

  lemma {:induction false} PrependedTwice(done: seq<Bytes>, payload: Bytes, rest: Polled)
    ensures Prepended(done, Before(payload, rest)) == Prepended(done + [payload], rest)
    ensures Prepended(done, rest.(delivered := [payload] + rest.delivered)) == Prepended(done + [payload], rest)
  {
    assert done + ([payload] + rest.delivered) == (done + [payload]) + rest.delivered;
  }
}
