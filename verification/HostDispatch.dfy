/**
  The host dispatch handshake: a controller and a hook agree on a sequence, each number is accepted at most once, and
  after an outcome the controller cannot know it sends nothing more.
 */
module HostDispatch {
  import opened Basics

  const MAGIC := 0x32444856
  const VERSION := 1
  const REQUEST_BYTES := 112
  const MAX_LEASE := 5000
  const TWO64 := 0x1_0000_0000_0000_0000

  const OP_BIND := 1
  const OP_PING := 2
  const OP_CLOSE := 3
  const OP_SUPPRESS_ACK := 4

  datatype Result = Accepted | Schema | Nonce | Identity | Sequence | Expired | Operation | Closed | Received

  datatype Identities = Identities(
    controller: nat, controllerThread: nat, host: nat, thread: nat, agent: nat, fixture: nat,
    controllerCreated: nat, hostCreated: nat, agentCreated: nat, fixtureCreated: nat, window: nat)

  datatype Request = Request(
    signature: nat, schema: nat, bytes: nat, operation: nat, nonce: (nat, nat), sequence: nat, deadline: nat,
    identity: Identities)

  predicate WellSchemed(r: Request) {
    r.signature == MAGIC && r.schema == VERSION && r.bytes == REQUEST_BYTES
  }

  /** The acceptance rule of a bound hook; sequence numbers are 64 bits wide. */
  function Validate(r: Request, bound: Request, last: nat, now: nat, closed: bool): Result {
    if !WellSchemed(r) then Schema
    else if r.nonce != bound.nonce then Nonce
    else if r.identity != bound.identity then Identity
    else if closed then Closed
    else if r.sequence != (last + 1) % TWO64 || r.sequence == 0 then Sequence
    else if r.deadline <= now || r.deadline - now > MAX_LEASE then Expired
    else if r.operation != OP_PING && r.operation != OP_CLOSE && r.operation != OP_SUPPRESS_ACK then Operation
    else Accepted
  }

  datatype Response = Response(result: Result, sequence: nat, acceptedSequence: nat, operation: nat)

  // ---------- The hook ----------

  /** `log` is every request accepted, in order. */
  datatype HookState = HookState(last: nat, bound: bool, retired: bool, binding: Request, log: seq<Request>)

  /**
    What the hook finds when it runs: the time, its own thread and process, whether a bind request names the processes
    it says it does, whether checking that fails altogether, whether a bound request's processes are still the ones
    bound, and whether its answer can be written.
   */
  datatype HookEnv = HookEnv(
    now: nat, host: nat, thread: nat, hostCreated: nat, window: nat, bindFails: bool, associated: bool,
    answerable: bool)

  predicate CanBind(h: HookState, r: Request, env: HookEnv) {
    && WellSchemed(r) && r.operation == OP_BIND && r.sequence == 1 && r.nonce == h.binding.nonce
    && r.identity.controller == h.binding.identity.controller
    && r.identity.controllerCreated == h.binding.identity.controllerCreated
    && r.identity.host == env.host && r.identity.thread == env.thread
    && r.identity.hostCreated == env.hostCreated && r.identity.window == env.window
    && env.now < r.deadline <= env.now + MAX_LEASE
  }

  function Answer(h: HookState, result: Result, r: Request, env: HookEnv): (HookState, Option<Response>) {
    if env.answerable then (h, Some(Response(result, r.sequence, h.last, r.operation))) else (h.(retired := true), None)
  }

  /** What the hook makes of a request, and the state it is left in before it answers. */
  function Judge(h: HookState, r: Request, env: HookEnv): (HookState, Result) {
    if !h.bound then
      if CanBind(h, r, env) && !env.bindFails then
        (h.(bound := true, last := 1, binding := r, log := h.log + [r]), Accepted)
      else (h, Identity)
    else
      var result := Validate(r, h.binding, h.last, env.now, h.retired);
      if result == Accepted && env.associated then (h.(last := r.sequence, log := h.log + [r]), Accepted)
      else (h, if result == Accepted then Identity else result)
  }

  function Dispatch(h: HookState, r: Request, env: HookEnv): (HookState, Option<Response>) {
    if h.retired then (h, None)
    else
      var (judged, result) := Judge(h, r, env);
      if result == Accepted && r.operation == OP_SUPPRESS_ACK then Answer(judged, Received, r, env)
      else
        var (answered, response) := Answer(judged, result, r, env);
        var closes :=
          (result == Accepted && r.operation == OP_CLOSE) || (!h.bound && CanBind(h, r, env) && env.bindFails);
        (if closes then answered.(retired := true) else answered, response)
  }

  // ---------- The controller ----------

  datatype ChannelState = ChannelState(sequence: nat, disabled: bool, closed: bool, accepted: nat, rejected: nat)

  predicate Blocked(c: ChannelState) {
    c.disabled || c.closed
  }

  /** What the controller meets: a live session, a delivered signal, and an answer within its time. */
  datatype ChannelEnv = ChannelEnv(live: bool, woken: bool, signalled: bool, answered: bool)

  /** What the controller makes of an answer, or of none. */
  function Conclude(c: ChannelState, r: Request, expected: Result, response: Option<Response>): ChannelState {
    if response.None? then c.(disabled := true)
    else
      var p := response.value;
      if p.result != expected || p.sequence != r.sequence || p.operation != r.operation then c.(disabled := true)
      else
        var next :=
          if expected == Accepted then c.(accepted := c.accepted + 1, sequence := (c.sequence + 1) % TWO64)
          else if expected == Received then c.(sequence := (c.sequence + 1) % TWO64)
          else c.(rejected := c.rejected + 1);
        if (p.acceptedSequence + 1) % TWO64 != next.sequence then next.(disabled := true) else next
  }

  // ---------- Both together ----------

  /** `pending` is a request written that the hook has not run for; `sent` counts the requests ever written. */
  datatype World = World(channel: ChannelState, hook: HookState, pending: Option<Request>, sent: nat)

  datatype Action =
    | Exchange(request: Request, expected: Result, env: ChannelEnv, hookEnv: HookEnv)
    | CloseChannel(request: Request, env: ChannelEnv, hookEnv: HookEnv)
    | Detach
    | LateWake(hookEnv: HookEnv)

  /** One exchange. A blocked channel writes nothing. */
  function AfterExchange(w: World, r: Request, expected: Result, env: ChannelEnv, hookEnv: HookEnv): World {
    if Blocked(w.channel) || !env.live then w.(channel := w.channel.(disabled := true))
    else
      var (hook, response) := if env.woken then Dispatch(w.hook, r, hookEnv) else (w.hook, None);
      var heard := if env.signalled && env.answered then response else None;
      World(Conclude(w.channel, r, expected, heard), hook, if env.woken then None else Some(r), w.sent + 1)
  }

  function After(w: World, a: Action): World {
    match a
    case Exchange(r, expected, env, hookEnv) => AfterExchange(w, r, expected, env, hookEnv)
    case CloseChannel(r, env, hookEnv) =>
      var next := AfterExchange(w, r.(operation := OP_CLOSE), Accepted, env, hookEnv);
      if next.channel.disabled then next else next.(channel := next.channel.(closed := true, disabled := true))
    case Detach => w.(channel := w.channel.(disabled := true))
    case LateWake(hookEnv) =>
      if w.pending.None? then w
      else w.(hook := Dispatch(w.hook, w.pending.value, hookEnv).0, pending := None)
  }

  /** The first request accepted binds, and every later one comes from the same party and does not. */
  ghost predicate OneParty(log: seq<Request>, binding: Request) {
    forall i :: 0 <= i < |log| ==>
      log[i].nonce == binding.nonce && log[i].identity == binding.identity && (log[i].operation == OP_BIND <==> i == 0)
  }

  /** The numbers accepted are 1, 2, 3 and so on. */
  ghost predicate Numbered(log: seq<Request>) {
    forall i :: 0 <= i < |log| ==> log[i].sequence == i + 1
  }

  ghost predicate HookOk(h: HookState) {
    && h.last == |h.log| < TWO64 && (h.bound <==> h.last > 0)
    && Numbered(h.log) && OneParty(h.log, h.binding)
  }

  /** The two are in step as long as the controller may still send, and then nothing is left in the pipe. */
  ghost predicate InStep(w: World) {
    && HookOk(w.hook)
    && (!Blocked(w.channel) ==> w.channel.sequence == (w.hook.last + 1) % TWO64 && w.pending == None)
  }

  /** Judging accepts the next number or leaves everything as it was. */
  lemma {:induction false} JudgeKeepsLog(h: HookState, r: Request, env: HookEnv)
    requires HookOk(h)
    ensures var (judged, result) := Judge(h, r, env);
      && HookOk(judged) && h.log <= judged.log
      && (if result == Accepted then judged.last == h.last + 1 == r.sequence else judged == h)
      && result != Received
  {
  }

  /** A hook that is asked accepts the next number, and says so, or keeps its sequence. */
  lemma {:induction false} DispatchKeepsLog(h: HookState, r: Request, env: HookEnv)
    requires HookOk(h)
    ensures var (next, response) := Dispatch(h, r, env);
      && HookOk(next) && h.log <= next.log && h.last <= next.last <= h.last + 1
      && (next.last == h.last ==> next == h.(retired := next.retired))
      && (response.Some? ==>
            && response.value.acceptedSequence == next.last && response.value.sequence == r.sequence
            && ((response.value.result == Accepted || response.value.result == Received) <==> next.last == h.last + 1))
  {
    hide Judge, CanBind;
    JudgeKeepsLog(h, r, env);
  }

  // ---------- The acceptance rule ----------

  /** A request is good for at most five seconds before its deadline, and not at it. */
  predicate InLease(r: Request, now: nat) {
    now < r.deadline <= now + 5000
  }

  /** The first request has to come from the controller that opened the channel and to name this very hook. */
  predicate IsOurBind(h: HookState, r: Request, env: HookEnv) {
    && r.operation == 1 && r.sequence == 1
    && r.identity.controller == h.binding.identity.controller
    && r.identity.controllerCreated == h.binding.identity.controllerCreated
    && r.identity.host == env.host && r.identity.hostCreated == env.hostCreated
    && r.identity.thread == env.thread && r.identity.window == env.window
  }

  /** Later ones have to come from the party bound, in turn, while its processes are still the ones bound. */
  predicate IsNext(h: HookState, r: Request, env: HookEnv) {
    && r.identity == h.binding.identity && env.associated
    && r.sequence == h.last + 1 < 0x1_0000_0000_0000_0000 && 2 <= r.operation <= 4
  }

  predicate Acceptable(h: HookState, r: Request, env: HookEnv) {
    && r.signature == 0x32444856 && r.schema == 1 && r.bytes == 112 && r.nonce == h.binding.nonce
    && InLease(r, env.now)
    && if h.bound then IsNext(h, r, env) else IsOurBind(h, r, env) && !env.bindFails
  }

  /** A hook that has not retired accepts exactly the acceptable, and nothing it does not accept leaves a trace. */
  lemma {:induction false} AcceptedIffAcceptable(h: HookState, r: Request, env: HookEnv)
    requires HookOk(h)
    ensures var next := Dispatch(h, r, env).0;
      if !h.retired && Acceptable(h, r, env) then
        next.log == h.log + [r] && next.last == r.sequence && next.bound && (!h.bound ==> next.binding == r)
      else next == h.(retired := next.retired)
  {
  }

  /** A hook that cannot answer retires, and so does one that has closed or has failed to bind; no other does. */
  lemma {:induction false} RetiresExactly(h: HookState, r: Request, env: HookEnv)
    requires HookOk(h)
    ensures Dispatch(h, r, env).0.retired <==>
      || h.retired || !env.answerable || (Acceptable(h, r, env) && r.operation == 3)
      || (!h.bound && env.bindFails && Acceptable(h, r, env.(bindFails := false)))
    ensures Dispatch(h, r, env).1.Some? <==> !h.retired && env.answerable
  {
  }

  /** What a bound hook answers is true of the request, and what alone is wrong with a request is answered. */
  lemma {:induction false} AnswerIsTrue(h: HookState, r: Request, env: HookEnv)
    requires HookOk(h) && h.bound && !h.retired && env.answerable
    ensures var wellSchemed, sameNonce := r.signature == 0x32444856 && r.schema == 1 && r.bytes == 112,
                                          r.nonce == h.binding.nonce;
      var sameParty := r.identity == h.binding.identity;
      var inTurn, leased := r.sequence == h.last + 1 < 0x1_0000_0000_0000_0000, InLease(r, env.now);
      var known, associated := 2 <= r.operation <= 4, env.associated;
      var result := Dispatch(h, r, env).1.value.result;
      && (result == Schema ==> !wellSchemed)
      && (!wellSchemed && sameNonce && sameParty && inTurn && leased && known && associated ==> result == Schema)
      && (result == Nonce ==> !sameNonce)
      && (wellSchemed && !sameNonce && sameParty && inTurn && leased && known && associated ==> result == Nonce)
      && (result == Identity ==> !sameParty || !associated)
      && (wellSchemed && sameNonce && !(sameParty && associated) && inTurn && leased && known ==> result == Identity)
      && (result == Sequence ==> !inTurn)
      && (wellSchemed && sameNonce && sameParty && !inTurn && leased && known && associated ==> result == Sequence)
      && (result == Expired ==> !leased)
      && (wellSchemed && sameNonce && sameParty && inTurn && !leased && known && associated ==> result == Expired)
      && (result == Operation ==> !known)
      && (wellSchemed && sameNonce && sameParty && inTurn && leased && !known && associated ==> result == Operation)
      && (result == Accepted <==> Acceptable(h, r, env) && r.operation != 4)
      && (result == Received <==> Acceptable(h, r, env) && r.operation == 4)
      && result != Closed
  {
  }

  lemma {:induction false} ExchangeKeepsStep(w: World, r: Request, expected: Result, env: ChannelEnv, hookEnv: HookEnv)
    requires InStep(w)
    ensures InStep(AfterExchange(w, r, expected, env, hookEnv))
    ensures w.hook.log <= AfterExchange(w, r, expected, env, hookEnv).hook.log
  {
    hide Dispatch, HookOk;
    DispatchKeepsLog(w.hook, r, hookEnv);
    var next := AfterExchange(w, r, expected, env, hookEnv);
    if !Blocked(w.channel) && env.live && env.woken {
      assert next.hook == Dispatch(w.hook, r, hookEnv).0;
      if !Blocked(next.channel) {
        assert next.channel.sequence == (Dispatch(w.hook, r, hookEnv).1.value.acceptedSequence + 1) % TWO64;
      }
    }
  }

  lemma {:induction false} ActionKeepsStep(w: World, a: Action)
    requires InStep(w)
    ensures InStep(After(w, a)) && w.hook.log <= After(w, a).hook.log
  {
    hide Dispatch, AfterExchange, HookOk;
    match a
    case Exchange(r, expected, env, hookEnv) => ExchangeKeepsStep(w, r, expected, env, hookEnv);
    case CloseChannel(r, env, hookEnv) => ExchangeKeepsStep(w, r.(operation := OP_CLOSE), Accepted, env, hookEnv);
    case Detach =>
    case LateWake(hookEnv) =>
      if w.pending.Some? {
        DispatchKeepsLog(w.hook, w.pending.value, hookEnv);
      }
  }

  /** A blocked controller stays blocked and never sends again. */
  lemma {:induction false} BlockedStaysSilent(w: World, a: Action)
    requires Blocked(w.channel)
    ensures Blocked(After(w, a).channel) && After(w, a).sent == w.sent
    ensures After(w, a).channel.sequence == w.channel.sequence
  {
    hide Dispatch;
  }

  /** A rejection that both sides have seen changes the sequence of neither. */
  lemma {:induction false} RejectionChangesNothing(
    w: World, r: Request, expected: Result, env: ChannelEnv, hookEnv: HookEnv)
    requires InStep(w) && !Blocked(w.channel) && expected != Accepted && expected != Received
    requires !AfterExchange(w, r, expected, env, hookEnv).channel.disabled
    ensures var next := AfterExchange(w, r, expected, env, hookEnv);
      && next.channel == w.channel.(rejected := w.channel.rejected + 1)
      && next.hook == w.hook.(retired := next.hook.retired)
  {
    hide Dispatch, HookOk;
    DispatchKeepsLog(w.hook, r, hookEnv);
    var response := Dispatch(w.hook, r, hookEnv).1;
    assert AfterExchange(w, r, expected, env, hookEnv).channel == Conclude(w.channel, r, expected, response);
  }

  /** An acceptance that both sides have seen is of the controller's own next number. */
  lemma {:induction false} AcceptanceAdvancesBoth(
    w: World, r: Request, expected: Result, env: ChannelEnv, hookEnv: HookEnv)
    requires InStep(w) && !Blocked(w.channel) && (expected == Accepted || expected == Received)
    requires !AfterExchange(w, r, expected, env, hookEnv).channel.disabled
    ensures var next := AfterExchange(w, r, expected, env, hookEnv);
      && next.hook.last == w.hook.last + 1 == r.sequence == w.channel.sequence
      && next.hook.log == w.hook.log + [r] && Acceptable(w.hook, r, hookEnv)
      && next.channel == w.channel.(
          sequence := (r.sequence + 1) % TWO64, accepted := w.channel.accepted + if expected == Accepted then 1 else 0)
  {
    hide CanBind, Validate, HookOk, Acceptable;
    AcceptedIffAcceptable(w.hook, r, hookEnv);
    JudgeKeepsLog(w.hook, r, hookEnv);
    JudgeAppends(w.hook, r, hookEnv);
    AcceptedBelow(w.hook, r, hookEnv);
  }

  /** A request that the controller has sent, that the hook was woken for and that the hook answered in time. */
  predicate Reaches(w: World, env: ChannelEnv, hookEnv: HookEnv) {
    env.live && env.woken && env.signalled && env.answered && !w.hook.retired && hookEnv.answerable
  }

  /**
    An open channel survives an exchange exactly when the request reaches the hook and its answer is the one expected:
    an acceptance where it is acceptable. A channel that does not survive has counted nothing, whatever the hook did.
   */
  lemma {:induction false} SurvivesExactly(w: World, r: Request, expected: Result, env: ChannelEnv, hookEnv: HookEnv)
    requires InStep(w) && !Blocked(w.channel)
    ensures var next, answer := AfterExchange(w, r, expected, env, hookEnv), Dispatch(w.hook, r, hookEnv);
      && (!next.channel.disabled <==> Reaches(w, env, hookEnv) && answer.1.value.result == expected)
      && (next.channel.disabled ==> next.channel == w.channel.(disabled := true))
      && (expected == Accepted ==> (!next.channel.disabled <==>
              Reaches(w, env, hookEnv) && Acceptable(w.hook, r, hookEnv) && r.operation != 4))
      && (expected == Received ==> (!next.channel.disabled <==>
              Reaches(w, env, hookEnv) && Acceptable(w.hook, r, hookEnv) && r.operation == 4))
      && next.sent == w.sent + (if env.live then 1 else 0)
      && next.pending == (if env.live && !env.woken then Some(r) else None)
      && next.hook == if env.live && env.woken then answer.0 else w.hook
  {
    hide Dispatch, Acceptable, HookOk;
    DispatchKeepsLog(w.hook, r, hookEnv);
    RetiresExactly(w.hook, r, hookEnv);
    if !w.hook.retired && hookEnv.answerable {
      Echoes(w.hook, r, hookEnv);
    }
  }

  /**
    Whatever answers, a hook in step or not: the controller goes on exactly if the answer is the one expected, to this
    very request, and names the number before the controller's next one as the last accepted.
   */
  lemma {:induction false} ConcludesExactly(c: ChannelState, r: Request, expected: Result, response: Option<Response>)
    requires !Blocked(c) && c.sequence < 0x1_0000_0000_0000_0000
    ensures var next := if expected == Accepted || expected == Received then c.sequence + 1 else c.sequence;
      !Blocked(Conclude(c, r, expected, response)) <==>
        && response.Some?
        && var p := response.value;
          && p.result == expected && p.sequence == r.sequence && p.operation == r.operation
          && (p.acceptedSequence + 1) % 0x1_0000_0000_0000_0000 == next % 0x1_0000_0000_0000_0000
  {
  }

  /** An answer repeats what was asked, and accepts what is acceptable. */
  lemma {:induction false} Echoes(h: HookState, r: Request, env: HookEnv)
    requires HookOk(h) && !h.retired && env.answerable
    ensures Dispatch(h, r, env).1.Some?
    ensures var p := Dispatch(h, r, env).1.value;
      && p.sequence == r.sequence && p.operation == r.operation
      && (p.result == Accepted <==> Acceptable(h, r, env) && r.operation != 4)
      && (p.result == Received <==> Acceptable(h, r, env) && r.operation == 4)
  {
  }

  /** A close that succeeds leaves the channel closed and the hook retired; detaching only stops the controller. */
  lemma {:induction false} ClosesAndWakes(w: World, r: Request, env: ChannelEnv, hookEnv: HookEnv)
    requires InStep(w) && !Blocked(w.channel)
    ensures var close, sent := After(w, CloseChannel(r, env, hookEnv)), r.(operation := 3);
      && close.channel.disabled
      && (close.channel.closed <==> Reaches(w, env, hookEnv) && Acceptable(w.hook, sent, hookEnv))
      && (close.channel.closed ==> close.hook.retired && close.hook.log == w.hook.log + [sent])
    ensures After(w, Detach) == w.(channel := w.channel.(disabled := true))
  {
    hide Dispatch, Acceptable, HookOk, AfterExchange;
    var sent := r.(operation := 3);
    SurvivesExactly(w, sent, Accepted, env, hookEnv);
    RetiresExactly(w.hook, sent, hookEnv);
    AcceptedIffAcceptable(w.hook, sent, hookEnv);
  }

  /** A request left in the pipe is run for once, however often the hook is woken late. */
  lemma {:induction false} LateWakeOnce(w: World, first: HookEnv, second: HookEnv)
    ensures var next := After(w, LateWake(first));
      next.pending == None && next.channel == w.channel && After(next, LateWake(second)) == next
  {
    hide Dispatch;
  }

  lemma {:induction false} JudgeAppends(h: HookState, r: Request, env: HookEnv)
    requires HookOk(h) && Judge(h, r, env).1 == Accepted
    ensures Judge(h, r, env).0.log == h.log + [r]
  {
  }

  lemma {:induction false} AcceptedBelow(h: HookState, r: Request, env: HookEnv)
    requires HookOk(h) && Judge(h, r, env).1 == Accepted
    ensures h.last + 1 < TWO64
  {
    JudgeKeepsLog(h, r, env);
  }

  function Run(w: World, actions: seq<Action>): World
    decreases |actions|
  {
    if actions == [] then w else Run(After(w, actions[0]), actions[1..])
  }

  /** Before the first exchange: the channel is open and nothing has been accepted. */
  function Opened(binding: Request): World {
    World(ChannelState(1, false, false, 0, 0), HookState(0, false, false, binding, []), None, 0)
  }

  lemma {:induction false} RunKeepsStep(w: World, actions: seq<Action>)
    requires InStep(w)
    ensures InStep(Run(w, actions)) && w.hook.log <= Run(w, actions).hook.log
    decreases |actions|
  {
    hide After, InStep;
    if actions != [] {
      ActionKeepsStep(w, actions[0]);
      RunKeepsStep(After(w, actions[0]), actions[1..]);
    }
  }

  lemma {:induction false} BlockedRunStaysSilent(w: World, actions: seq<Action>)
    requires Blocked(w.channel)
    ensures Blocked(Run(w, actions).channel) && Run(w, actions).sent == w.sent
    decreases |actions|
  {
    hide After;
    if actions != [] {
      BlockedStaysSilent(w, actions[0]);
      BlockedRunStaysSilent(After(w, actions[0]), actions[1..]);
    }
  }

  /**
    At most once. In every run the numbers accepted are 1 to n, once each and in order, all from the party that bound
    the channel; while the controller may send, its number is the one the hook expects.
   */
  lemma {:induction false} AtMostOnce(binding: Request, actions: seq<Action>)
    ensures var w := Run(Opened(binding), actions);
      && (forall i :: 0 <= i < |w.hook.log| ==> w.hook.log[i].sequence == i + 1)
      && (forall i :: 0 <= i < |w.hook.log| ==>
            w.hook.log[i].nonce == w.hook.log[0].nonce && w.hook.log[i].identity == w.hook.log[0].identity)
      && w.hook.last == |w.hook.log|
      && (!Blocked(w.channel) ==> w.channel.sequence == (w.hook.last + 1) % TWO64)
  {
    RunKeepsStep(Opened(binding), actions);
  }

  // ---------- No request is accepted outside its lease ----------

  /** The request an action has the hook run for, and what the hook finds then. */
  function RunsFor(w: World, a: Action): Option<(Request, HookEnv)> {
    match a
    case Exchange(r, _, env, hookEnv) =>
      if Blocked(w.channel) || !env.live || !env.woken then None else Some((r, hookEnv))
    case CloseChannel(r, env, hookEnv) =>
      if Blocked(w.channel) || !env.live || !env.woken then None else Some((r.(operation := 3), hookEnv))
    case Detach => None
    case LateWake(hookEnv) => if w.pending.None? then None else Some((w.pending.value, hookEnv))
  }

  lemma {:induction false} ActionAccepts(w: World, a: Action)
    requires InStep(w)
    ensures var next, run := After(w, a).hook.log, RunsFor(w, a);
      next ==
        if run.Some? && !w.hook.retired && Acceptable(w.hook, run.value.0, run.value.1) then w.hook.log + [run.value.0]
        else w.hook.log
  {
    hide Dispatch, Acceptable, HookOk;
    var run := RunsFor(w, a);
    if run.Some? {
      AcceptedIffAcceptable(w.hook, run.value.0, run.value.1);
    }
  }

  lemma {:induction false} RunSnoc(w: World, actions: seq<Action>)
    requires actions != []
    ensures Run(w, actions) == After(Run(w, actions[..|actions| - 1]), actions[|actions| - 1])
    decreases |actions|
  {
    hide After;
    if |actions| > 1 {
      var n := |actions| - 1;
      RunSnoc(After(w, actions[0]), actions[1..]);
      assert actions[1..][..n - 1] == actions[..n][1..];
    }
  }

  /** Request `r` was accepted by action `i`, which found it acceptable at the time. */
  ghost predicate AcceptedBy(w: World, actions: seq<Action>, i: nat, r: Request)
    requires i < |actions|
  {
    var before := Run(w, actions[..i]);
    var run := RunsFor(before, actions[i]);
    run.Some? && run.value.0 == r && Acceptable(before.hook, r, run.value.1) && InLease(r, run.value.1.now)
  }

  /**
    Every request ever accepted was acceptable when the hook ran for it: in its lease, in turn, from the party bound and
    with an operation the hook knows.
   */
  lemma {:induction false} AcceptedInLease(binding: Request, actions: seq<Action>, k: nat) returns (i: nat)
    requires k < |Run(Opened(binding), actions).hook.log|
    ensures i < |actions| && AcceptedBy(Opened(binding), actions, i, Run(Opened(binding), actions).hook.log[k])
    decreases |actions|
  {
    hide After, RunsFor, InStep, IsNext, IsOurBind, InLease;
    var w, n := Opened(binding), |actions| - 1;
    OpenedInStep(binding);
    RunSnoc(w, actions);
    RunKeepsStep(w, actions[..n]);
    var before := Run(w, actions[..n]);
    ActionAccepts(before, actions[n]);
    if k < |before.hook.log| {
      i := AcceptedInLease(binding, actions[..n], k);
      assert actions[..n][..i] == actions[..i];
    } else {
      i := n;
    }
  }

  lemma {:induction false} OpenedInStep(binding: Request)
    ensures InStep(Opened(binding)) && Run(Opened(binding), []).hook.log == []
    ensures !Blocked(Opened(binding).channel) && !Opened(binding).hook.retired && Opened(binding).sent == 0
    ensures Opened(binding).channel.accepted == Opened(binding).channel.rejected == |Opened(binding).hook.log|
    ensures Opened(binding).channel.sequence == 1 && Opened(binding).hook.binding == binding
  {
  }

  // ---------- The two as objects ----------

  class Hook {
    var lastSequence: nat
    var bound: bool
    var retired: bool
    var binding: Request
    ghost var log: seq<Request>

    ghost function State(): HookState
      reads this
    {
      HookState(lastSequence, bound, retired, binding, log)
    }

    constructor (binding: Request)
      ensures State() == HookState(0, false, false, binding, [])
    {
      lastSequence, bound, retired, this.binding, log := 0, false, false, binding, [];
    }

    method CloseChannel()
      modifies this`retired
      ensures retired
    {
      retired := true;
    }

    method SendResponse(result: Result, r: Request, env: HookEnv) returns (response: Option<Response>)
      modifies this`retired
      ensures (State(), response) == Answer(old(State()), result, r, env)
    {
      if !env.answerable {
        CloseChannel();
        return None;
      }
      response := Some(Response(result, r.sequence, lastSequence, r.operation));
    }

    /** `None` is a check that failed with an exception. */
    method BindRequest(r: Request, env: HookEnv) returns (ok: Option<bool>)
      requires !bound
      modifies this`bound, this`lastSequence, this`binding, this`log
      ensures ok.None? <==> CanBind(old(State()), r, env) && env.bindFails
      ensures ok.Some? ==> (State(), if ok.value then Accepted else Identity) == Judge(old(State()), r, env)
      ensures ok.None? ==> State() == old(State())
    {
      if !CanBind(HookState(lastSequence, bound, retired, binding, []), r, env) {
        return Some(false);
      }
      if env.bindFails {
        return None;
      }
      binding, bound, lastSequence := r, true, 1;
      log := log + [r];
      ok := Some(true);
    }

    method Process(r: Request, env: HookEnv) returns (response: Option<Response>)
      modifies this
      ensures (State(), response) == Dispatch(old(State()), r, env)
    {
      response := None;
      if retired {
        return;
      }
      var result := Identity;
      if !bound {
        var ok := BindRequest(r, env);
        if ok.None? {
          response := SendResponse(Identity, r, env);
          CloseChannel();
          return;
        }
        result := if ok.value then Accepted else Identity;
      } else {
        result := Validate(r, binding, lastSequence, env.now, retired);
        if result == Accepted && !env.associated {
          result := Identity;
        }
        if result == Accepted {
          lastSequence := r.sequence;
          log := log + [r];
        }
      }
      if result == Accepted && r.operation == OP_SUPPRESS_ACK {
        response := SendResponse(Received, r, env);
        return;
      }
      response := SendResponse(result, r, env);
      if result == Accepted && r.operation == OP_CLOSE {
        CloseChannel();
      }
    }
  }

  class Channel {
    const hook: Hook
    var sequence: nat
    var disabled: bool
    var closed: bool
    var accepted: nat
    var rejected: nat
    var pending: Option<Request>
    var sent: nat

    ghost function State(): World
      reads this, hook
    {
      World(ChannelState(sequence, disabled, closed, accepted, rejected), hook.State(), pending, sent)
    }

    constructor (hook: Hook)
      ensures this.hook == hook && State() == World(ChannelState(1, false, false, 0, 0), hook.State(), None, 0)
    {
      this.hook, sequence, disabled, closed := hook, 1, false, false;
      accepted, rejected, pending, sent := 0, 0, None, 0;
    }

    method Wake(r: Request, env: ChannelEnv, hookEnv: HookEnv) returns (heard: Option<Response>)
      modifies this`pending, this`sent, hook
      ensures var (h, response) :=
          if env.woken then Dispatch(old(hook.State()), r, hookEnv) else (old(hook.State()), None);
        && hook.State() == h && heard == (if env.signalled && env.answered then response else None)
      ensures pending == (if env.woken then None else Some(r)) && sent == old(sent) + 1
    {
      hide Dispatch;
      pending, sent := Some(r), sent + 1;
      heard := None;
      if env.woken {
        heard := hook.Process(r, hookEnv);
        pending := None;
      }
      if !env.signalled || !env.answered {
        heard := None;
      }
    }

    /** Any failure on the way, known or not, disables the channel. */
    method Exchange(r: Request, expected: Result, env: ChannelEnv, hookEnv: HookEnv) returns (ok: bool)
      modifies this, hook
      ensures State() == AfterExchange(old(State()), r, expected, env, hookEnv)
      ensures ok == !disabled
    {
      hide Dispatch;
      if disabled || closed || !env.live {
        disabled := true;
        return false;
      }
      var heard := Wake(r, env, hookEnv);
      if heard.None? {
        disabled := true;
        return false;
      }
      var response := heard.value;
      if response.result != expected || response.sequence != r.sequence || response.operation != r.operation {
        disabled := true;
        return false;
      }
      if expected == Accepted {
        accepted, sequence := accepted + 1, (sequence + 1) % TWO64;
      } else if expected == Received {
        sequence := (sequence + 1) % TWO64;
      } else {
        rejected := rejected + 1;
      }
      ok := (response.acceptedSequence + 1) % TWO64 == sequence;
      if !ok {
        disabled := true;
      }
    }

    method Close(r: Request, env: ChannelEnv, hookEnv: HookEnv) returns (ok: bool)
      modifies this, hook
      ensures State() == After(old(State()), CloseChannel(r, env, hookEnv))
    {
      hide AfterExchange;
      ok := Exchange(r.(operation := OP_CLOSE), Accepted, env, hookEnv);
      if ok {
        closed, disabled := true, true;
      }
    }
  }
}
