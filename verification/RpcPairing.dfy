/** Calls and replies over whole runs: the k-th reply the client consumes answers its k-th call. */
module RpcPairing {
  import opened Basics
  import opened Buffer
  import opened Framing
  import opened Rpc

  // ---------- Client, agent and the pipe between them ----------

  /** A packet on its way, and the number of the call it belongs to. The number is not part of the packet. */
  datatype Message = Message(call: nat, packet: Bytes)

  datatype Phase = Idle | Waiting(room: int)

  /** What the agent did for a call. */
  datatype Deed = Deed(call: nat, request: Request, sys: System)

  /** A result returned to the caller of call `call`, read from the reply to call `answered`. */
  datatype Returned = Returned(call: nat, answered: nat, result: Result)

  datatype Net = Net(
    pipeOpen: bool, phase: Phase, toAgent: seq<Message>, toClient: seq<Message>, agentUp: bool, agent: AgentState,
    calls: seq<Request>, deeds: seq<Deed>, results: seq<Returned>)

  const START := Net(true, Idle, [], [], true, AgentState(false, false), [], [], [])

  datatype Step =
    | Call(request: Request, room: int, sent: bool)
    | AgentTurn(sys: System)
    | AgentCloses
    | Receive
    | GiveUp

  predicate Enabled(n: Net, step: Step) {
    match step
    case Call(request, _, _) => n.pipeOpen && n.phase.Idle? && RequestOk(request)
    case AgentTurn(sys) => n.agentUp && n.toAgent != [] && SystemOk(sys)
    case AgentCloses => n.agentUp
    case Receive => n.pipeOpen && n.phase.Waiting? && n.toClient != [] && n.calls != []
    case GiveUp => n.pipeOpen && n.phase.Waiting?
  }

  function Next(n: Net, step: Step): Net
    requires Enabled(n, step)
  {
    match step
    case Call(request, room, sent) =>
      var packet := RequestPacket(request);
      if !sent || !Fitting(packet) then n.(pipeOpen := false)
      else n.(phase := Waiting(room), toAgent := n.toAgent + [Message(|n.calls|, packet)], calls := n.calls + [request])
    case AgentTurn(sys) =>
      var m := n.toAgent[0];
      var h := Handle(n.agent, m.packet, sys);
      if h.Refused? then n.(agentUp := false, toAgent := [])
      else n.(toAgent := n.toAgent[1..], toClient := n.toClient + [Message(m.call, h.reply)], agent := h.agent,
              deeds := n.deeds + [Deed(m.call, h.request, sys)])
    case AgentCloses => n.(agentUp := false, toAgent := [], agent := n.agent.(closing := true))
    case Receive =>
      var m := n.toClient[0];
      var result := Parse(n.calls[|n.calls| - 1], m.packet, n.phase.room);
      if result.None? then n.(pipeOpen := false, phase := Idle, toClient := n.toClient[1..])
      else n.(phase := Idle, toClient := n.toClient[1..],
              results := n.results + [Returned(|n.calls| - 1, m.call, result.value)])
    case GiveUp => n.(pipeOpen := false, phase := Idle)
  }

  /** Every result is the agent's answer to the very call it was returned for. */
  ghost predicate Answered(n: Net) {
    && |n.results| <= |n.deeds| <= |n.calls|
    && (forall k :: 0 <= k < |n.deeds| ==>
          n.deeds[k].call == k && n.deeds[k].request == n.calls[k] && SystemOk(n.deeds[k].sys))
    && (forall k :: 0 <= k < |n.results| ==>
          n.results[k] == Returned(k, k, Answer(n.calls[k], n.deeds[k].sys)))
  }

  /** A call at the agent's end of the pipe is the last one made and has not been dealt with. */
  ghost predicate AwaitsAgent(n: Net) {
    && |n.toAgent| == 1 && n.toClient == []
    && |n.calls| == |n.deeds| + 1
    && RequestOk(n.calls[|n.deeds|])
    && n.toAgent[0] == Message(|n.deeds|, RequestPacket(n.calls[|n.deeds|]))
  }

  ghost predicate AwaitsClient(n: Net) {
    && n.toAgent == [] && |n.toClient| == 1
    && |n.calls| == |n.deeds| == |n.results| + 1
    && var last := n.deeds[|n.results|];
      SystemOk(last.sys) && n.toClient[0] == Message(|n.results|, ReplyPacket(last.request, last.sys))
  }

  /** At most one call is under way, and nothing is left over from the calls before. */
  ghost predicate Paired(n: Net) {
    && Answered(n)
    && (n.toAgent != [] ==> AwaitsAgent(n))
    && (n.pipeOpen && n.phase.Idle? ==> n.toAgent == [] && n.toClient == [] && |n.results| == |n.calls|)
    && (n.pipeOpen && n.phase.Waiting? ==> |n.calls| == |n.results| + 1 && (n.toClient != [] ==> AwaitsClient(n)))
  }

  lemma {:induction false} CallKeepsPairing(n: Net, step: Step)
    requires Paired(n) && step.Call? && Enabled(n, step)
    ensures Paired(Next(n, step))
  {
    hide RequestPacket, Fitting, RequestOk;
  }

  lemma {:induction false} AgentKeepsPairing(n: Net, step: Step)
    requires Paired(n) && step.AgentTurn? && Enabled(n, step)
    ensures Paired(Next(n, step))
  {
    hide RequestPacket, ReplyPacket, Understand, RequestOk, SystemOk, Answer;
    RequestIsUnderstood(n.calls[|n.deeds|]);
  }

  lemma {:induction false} ReceiveKeepsPairing(n: Net, step: Step)
    requires Paired(n) && step.Receive? && Enabled(n, step)
    ensures Paired(Next(n, step))
  {
    hide ReplyPacket, RequestPacket, RequestOk, SystemOk, Answer, Parse;
    var last := n.deeds[|n.results|];
    ParsedOrRefused(last.request, last.sys, n.phase.room);
  }

  /** A list the caller has no room for is not taken for anything else: the reply does not parse. */
  lemma {:induction false} ParsedOrRefused(r: Request, sys: System, room: int)
    requires SystemOk(sys)
    ensures var result := Parse(r, ReplyPacket(r, sys), room); result == None || result == Some(Answer(r, sys))
  {
    ReplyIsUnderstood(r, sys, room);
    if r.ProcessList? && !(|sys.processes| <= room || sys.processes == []) {
      LongListIsRefused(sys.processes, room, sys);
    }
  }

  lemma {:induction false} LongListIsRefused(ids: seq<int>, room: int, sys: System)
    requires SystemOk(sys) && ids == sys.processes && |ids| > room && ids != []
    ensures Parse(ProcessList, ReplyPacket(ProcessList, sys), room) == None
  {
    hide Encode;
    ReplyFieldsOk(ProcessList, sys);
    var fields := ReplyFields(Processes(ids));
    DecodeEncoded(fields);
    Unread(fields);
  }

  lemma {:induction false} StepKeepsPairing(n: Net, step: Step)
    requires Paired(n) && Enabled(n, step)
    ensures Paired(Next(n, step))
  {
    match step
    case Call(_, _, _) => CallKeepsPairing(n, step);
    case AgentTurn(_) => AgentKeepsPairing(n, step);
    case Receive => ReceiveKeepsPairing(n, step);
    case AgentCloses =>
    case GiveUp =>
  }

  // ---------- A call that meets no failure ----------

  /** Nothing stands in the way: pipe and agent are up, the agent may do it, and its answer fits. */
  ghost predicate MayComplete(n: Net, request: Request, room: int, sys: System) {
    && n.pipeOpen && n.phase.Idle? && n.agentUp && RequestOk(request) && SystemOk(sys)
    && Fitting(RequestPacket(request)) && Fitting(ReplyPacket(request, sys))
    && !(request.Spawn? && (n.agent.hasChild || n.agent.closing))
    && (request.ProcessList? ==> |sys.processes| <= room || sys.processes == [])
  }

  /** Then the call, the agent's turn and the reading are possible one after another, and the result is returned. */
  lemma {:induction false} CallCompletes(n: Net, request: Request, room: int, sys: System)
    requires Paired(n) && MayComplete(n, request, room, sys)
    ensures RunOk(n, [Call(request, room, true), AgentTurn(sys), Receive])
    ensures var k, done := |n.calls|, Run(n, [Call(request, room, true), AgentTurn(sys), Receive]);
      && Granted(request, sys, Answer(request, sys))
      && done == n.(
          agent := n.agent.(hasChild := n.agent.hasChild || (request.Spawn? && sys.created)),
          calls := n.calls + [request], deeds := n.deeds + [Deed(k, request, sys)],
          results := n.results + [Returned(k, k, Answer(request, sys))])
  {
    hide RequestPacket, ReplyPacket, Understand, Parse, RequestOk, SystemOk, Answer, Granted;
    var called := Next(n, Call(request, room, true));
    var turned := Next(called, AgentTurn(sys));
    var steps: seq<Step> := [Call(request, room, true), AgentTurn(sys), Receive];
    RequestIsUnderstood(request);
    ReplyIsUnderstood(request, sys, room);
    CallIsCarriedOut(n.agent, request, sys, room);
    assert Enabled(n, steps[0]) && Enabled(called, AgentTurn(sys)) && Enabled(turned, Receive);
    ThreeSteps(n, steps[0], steps[1], steps[2]);
  }

  lemma {:induction false} ThreeSteps(n: Net, a: Step, b: Step, c: Step)
    requires Enabled(n, a) && Enabled(Next(n, a), b) && Enabled(Next(Next(n, a), b), c)
    ensures RunOk(n, [a, b, c]) && Run(n, [a, b, c]) == Next(Next(Next(n, a), b), c)
  {
    hide Next, Enabled, Run, RunOk;
    assert [c] + [] == [c] && [b] + [c] == [b, c] && [a] + [b, c] == [a, b, c];
    NoSteps(Next(Next(Next(n, a), b), c));
    OneStep(Next(Next(n, a), b), c, []);
    OneStep(Next(n, a), b, [c]);
    OneStep(n, a, [b, c]);
  }

  lemma {:induction false} NoSteps(n: Net)
    ensures RunOk(n, []) && Run(n, []) == n
  {
  }

  lemma {:induction false} OneStep(n: Net, step: Step, rest: seq<Step>)
    requires Enabled(n, step) && RunOk(Next(n, step), rest)
    ensures RunOk(n, [step] + rest) && Run(n, [step] + rest) == Run(Next(n, step), rest)
  {
    hide Next, Enabled;
    assert ([step] + rest)[1..] == rest;
  }

  /**
    What breaks the pipe and what takes the agent down. The client closes its end exactly when a call cannot be sent,
    when it gives up and when a reply does not parse; an agent that goes leaves nothing unread and acts no more.
   */
  lemma {:induction false} BreaksExactly(n: Net, step: Step)
    requires Paired(n) && Enabled(n, step)
    ensures var next := Next(n, step);
      && (next.pipeOpen <==> n.pipeOpen && !step.GiveUp?
                             && (step.Call? ==> step.sent && Fitting(RequestPacket(step.request)))
                             && (step.Receive? ==> |next.results| == |n.results| + 1))
      && (next.agentUp <==> n.agentUp && !step.AgentCloses? && (step.AgentTurn? ==> |next.deeds| == |n.deeds| + 1))
      && (n.agentUp && !next.agentUp ==> next.toAgent == [])
      && (step.AgentCloses? ==> next.agent == n.agent.(closing := true))
      && (!next.pipeOpen && n.pipeOpen ==>
            next.phase.Idle? && |next.toClient| == |n.toClient| - (if step.Receive? then 1 else 0))
      && (!n.pipeOpen ==> next.calls == n.calls && next.results == n.results)
      && (!n.agentUp ==> next.deeds == n.deeds && next.agent == n.agent)
  {
    hide RequestPacket, ReplyPacket, Understand, Parse, RequestOk, SystemOk;
  }

  ghost predicate RunOk(n: Net, steps: seq<Step>)
    decreases |steps|
  {
    steps != [] ==> Enabled(n, steps[0]) && RunOk(Next(n, steps[0]), steps[1..])
  }

  function Run(n: Net, steps: seq<Step>): Net
    requires RunOk(n, steps)
    decreases |steps|
  {
    if steps == [] then n else Run(Next(n, steps[0]), steps[1..])
  }

  lemma {:induction false} RunKeepsPairing(n: Net, steps: seq<Step>)
    requires Paired(n) && RunOk(n, steps)
    ensures Paired(Run(n, steps))
    decreases |steps|
  {
    hide Next, Enabled, Paired;
    if steps != [] {
      StepKeepsPairing(n, steps[0]);
      RunKeepsPairing(Next(n, steps[0]), steps[1..]);
    }
  }

  /** From the start on: the k-th result is the agent's answer to the k-th call, and the agent acted on each once. */
  lemma {:induction false} RepliesAnswerTheirCalls(steps: seq<Step>)
    requires RunOk(START, steps)
    ensures Answered(Run(START, steps))
    ensures var n := Run(START, steps); n.pipeOpen && n.phase.Idle? ==> n.toClient == [] && |n.results| == |n.calls|
  {
    RunKeepsPairing(START, steps);
  }

  // ---------- The client as an object ----------

  /** There are enough reads for `n` bytes, and each brings something. */
  predicate Flows(chunks: seq<nat>, n: int) {
    n <= |chunks| && forall i :: 0 <= i < |chunks| ==> chunks[i] > 0
  }

  /** The client's end of the control pipe. `incoming` is what the agent has sent and will send. */
  class Client {
    var pipeOpen: bool
    var incoming: Bytes
    var sent: Bytes

    constructor (incoming: Bytes)
      ensures pipeOpen && this.incoming == incoming && sent == []
    {
      pipeOpen, this.incoming, sent := true, incoming, [];
    }

    /** Read until there is enough; `chunks` says how much each read brings, and the pipe fails after the last. */
    method ReadAll(amount: nat, chunks: seq<nat>) returns (data: Option<Bytes>, rest: seq<nat>)
      modifies this`incoming
      ensures data.Some? ==> |data.value| == amount && old(incoming) == data.value + incoming
      ensures amount <= |old(incoming)| && Flows(chunks, amount) ==> data.Some? && Flows(rest, |chunks| - amount)
    {
      var got: Bytes, i := [], 0;
      while |got| < amount
        invariant |got| <= amount && 0 <= i <= |chunks| && old(incoming) == got + incoming
        invariant amount <= |old(incoming)| && Flows(chunks, amount) ==> i <= |got|
        decreases |chunks| - i
      {
        if i == |chunks| {
          return None, [];
        }
        var n := Min(Min(chunks[i], amount - |got|), |incoming|);
        got, incoming := got + incoming[..n], incoming[n..];
        i := i + 1;
      }
      return Some(got), chunks[i..];
    }

    /** Exactly one packet is taken from the pipe, whatever else has arrived. */
    method ReadPacket(chunks: seq<nat>) returns (payload: Option<Bytes>)
      modifies this`incoming
      ensures payload.Some? ==> Fitting(payload.value) && old(incoming) == Frame(payload.value) + incoming
      ensures var head := HeadOf(old(incoming)); head.Packet? && Flows(chunks, head.size) ==> payload.Some?
    {
      var head, rest := ReadAll(SIZE_FIELD, chunks);
      if head.None? {
        return None;
      }
      var size := FromLittleEndian(head.value);
      if size < SIZE_FIELD || size > MAX_PACKET {
        return None;
      }
      var unused;
      payload, unused := ReadAll(size - SIZE_FIELD, rest);
      EncodeLittleEndian(head.value);
      assert payload.Some? ==> old(incoming) == head.value + (payload.value + incoming);
      assert payload.Some? ==> head.value == LittleEndian(SIZE_FIELD + |payload.value|, SIZE_FIELD);
      assert payload.Some? ==> head.value + (payload.value + incoming) == Frame(payload.value) + incoming;
    }

    /**
      One remote call. It fails closed: unless it returns a result the pipe is closed, so that no later call can read
      what was meant for this one. A result comes from exactly one packet.
     */
    method Call(request: Request, room: int, written: bool, chunks: seq<nat>) returns (result: Option<Result>)
      requires RequestOk(request)
      modifies this
      ensures !old(pipeOpen) ==> result == None && sent == old(sent) && incoming == old(incoming) && !pipeOpen
      ensures result.None? ==> !pipeOpen
      ensures result.Some? ==>
        && pipeOpen && Fitting(RequestPacket(request)) && sent == old(sent) + Frame(RequestPacket(request))
        && exists reply :: old(incoming) == Frame(reply) + incoming && Parse(request, reply, room) == result
      ensures var head := HeadOf(old(incoming));
        old(pipeOpen) && written && Fitting(RequestPacket(request)) && head.Packet? && Flows(chunks, head.size) ==>
          result == Parse(request, old(incoming)[SIZE_FIELD..head.size], room)
    {
      hide RequestPacket, Parse, Frame, HeadOf;
      if !pipeOpen {
        return None;
      }
      var packet := RequestPacket(request);
      if !Fitting(packet) || !written {
        pipeOpen := false;
        return None;
      }
      sent := sent + Frame(packet);
      var reply := ReadPacket(chunks);
      if reply.None? {
        pipeOpen := false;
        return None;
      }
      HeadOfFrame(reply.value, incoming);
      result := Parse(request, reply.value, room);
      if result.None? {
        pipeOpen := false;
      }
    }
  }
}
