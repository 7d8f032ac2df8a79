/**
  Remote calls over the control pipe: what the client sends is what the agent acts on, what it answers is what the
  client returns, and every reply answers the call that reads it.
 */
module Rpc {
  import opened Basics
  import opened Buffer
  import opened Framing

  datatype Request =
    | Spawn(flags: int, wantProcess: bool, wantThread: bool, program: seq<Word>, cmdline: seq<Word>, cwd: seq<Word>,
            env: seq<Word>)
    | SetSize(cols: int, rows: int)
    | ProcessList

  datatype Result = Created(process: int, thread: int) | CreateFailed(error: int) | Resized | Processes(ids: seq<int>)

  const START_PROCESS := 0
  const SET_SIZE := 1
  const GET_CONSOLE_PROCESS_LIST := 2

  const CREATE_PROCESS_FAILED := 0
  const PROCESS_CREATED := 1

  /** The spawn flags that mean anything. */
  const FLAG_MASK := 3

  predicate TextOk(text: seq<Word>) {
    |text| <= SIZE_MAX / 2
  }

  predicate RequestOk(r: Request) {
    match r
    case Spawn(flags, _, _, program, cmdline, cwd, env) =>
      0 <= flags <= FLAG_MASK && TextOk(program) && TextOk(cmdline) && TextOk(cwd) && TextOk(env)
    case SetSize(cols, rows) => cols >= 1 && rows >= 1 && Fits(cols, 4) && Fits(rows, 4)
    case ProcessList => true
  }

  function Truth(b: bool): int {
    if b then 1 else 0
  }

  // ---------- The client's request ----------

  function RequestFields(r: Request): (fields: seq<Field>)
    ensures RequestOk(r) ==> FieldsOk(fields)
  {
    SmallFits();
    match r
    case Spawn(flags, wantProcess, wantThread, program, cmdline, cwd, env) =>
      [Int32(START_PROCESS), Int64(flags), Int32(Truth(wantProcess)), Int32(Truth(wantThread)),
       WString(program), WString(cmdline), WString(cwd), WString(env)]
    case SetSize(cols, rows) => [Int32(SET_SIZE), Int32(cols), Int32(rows)]
    case ProcessList => [Int32(GET_CONSOLE_PROCESS_LIST)]
  }

  lemma {:induction false} SmallFits()
    ensures forall i {:trigger Fits(i, 4)} :: -0x8000_0000 <= i < 0x8000_0000 <==> Fits(i, 4)
    ensures forall i {:trigger Fits(i, 8)} :: -0x8000_0000_0000_0000 <= i < 0x8000_0000_0000_0000 <==> Fits(i, 8)
  {
    Widths();
  }

  // ---------- The agent's side ----------

  const SPAWN_KINDS: seq<Kind> := [KInt64, KInt32, KInt32, KWString, KWString, KWString, KWString]

  /** The rest of a packet after its type. */
  function DecodeRest(kinds: seq<Kind>, packet: Bytes): (r: Option<seq<Field>>)
    ensures r.Some? ==> |r.value| == |kinds|
  {
    var head := Get(KInt32, packet, 0);
    if head.None? then None
    else
      var rest := GetAll(kinds, packet, head.value.off);
      if rest.None? || rest.value.off != |packet| then None else Some(rest.value.fields)
  }

  function TypeOf(packet: Bytes): Option<int> {
    var head := Get(KInt32, packet, 0);
    if head.None? then None else Some(head.value.field.i)
  }

  function SpawnOf(f: seq<Field>): Option<Request>
    requires Kinds(f) == SPAWN_KINDS
  {
    KindsOfSpawn(f);
    var flags, process, thread := f[0].l, f[1].i, f[2].i;
    if !(0 <= flags <= FLAG_MASK) || !(0 <= process <= 1) || !(0 <= thread <= 1) then None
    else Some(Spawn(flags, process == 1, thread == 1, f[3].text, f[4].text, f[5].text, f[6].text))
  }

  lemma {:induction false} KindsOfSpawn(f: seq<Field>)
    requires Kinds(f) == SPAWN_KINDS
    ensures |f| == 7 && f[0].Int64? && f[1].Int32? && f[2].Int32?
    ensures f[3].WString? && f[4].WString? && f[5].WString? && f[6].WString?
  {
    forall i | 0 <= i < 7
      ensures KindOf(f[i]) == SPAWN_KINDS[i]
    {
      assert Kinds(f)[i] == KindOf(f[i]);
    }
  }

  lemma {:induction false} DecodedKinds(kinds: seq<Kind>, packet: Bytes)
    ensures DecodeRest(kinds, packet).Some? ==> Kinds(DecodeRest(kinds, packet).value) == kinds
  {
    if DecodeRest(kinds, packet).Some? {
      PutGetAll(kinds, packet, Get(KInt32, packet, 0).value.off);
    }
  }

  /** What the agent makes of a packet; `None` is its decode error. */
  function Understand(packet: Bytes): Option<Request> {
    var head := TypeOf(packet);
    if head == Some(START_PROCESS) then
      var rest := DecodeRest(SPAWN_KINDS, packet);
      DecodedKinds(SPAWN_KINDS, packet);
      if rest.None? then None else SpawnOf(rest.value)
    else if head == Some(SET_SIZE) then
      var rest := DecodeRest([KInt32, KInt32], packet);
      DecodedKinds([KInt32, KInt32], packet);
      if rest.None? then None
      else
        assert Kinds(rest.value)[0] == KInt32 && Kinds(rest.value)[1] == KInt32;
        var cols, rows := rest.value[0].i, rest.value[1].i;
        if cols < 1 || rows < 1 then None else Some(SetSize(cols, rows))
    else if head == Some(GET_CONSOLE_PROCESS_LIST) then
      if DecodeRest([], packet).None? then None else Some(ProcessList)
    else None
  }

  /** What the system answers when asked to create a process or to list the console's. */
  datatype System = System(created: bool, error: int, process: int, thread: int, processes: seq<int>)

  predicate SystemOk(sys: System) {
    && Fits(sys.error, 4) && Fits(sys.process, 8) && Fits(sys.thread, 8) && Fits(|sys.processes|, 4)
    && forall i :: 0 <= i < |sys.processes| ==> Fits(sys.processes[i], 4)
  }

  function IdFields(ids: seq<int>): (fields: seq<Field>)
    ensures |fields| == |ids|
  {
    seq(|ids|, i requires 0 <= i < |ids| => Int32(ids[i]))
  }

  /** What a request comes to. */
  function Answer(r: Request, sys: System): Result {
    match r
    case Spawn(_, wantProcess, wantThread, _, _, _, _) =>
      if sys.created then Created(if wantProcess then sys.process else 0, if wantThread then sys.thread else 0)
      else CreateFailed(sys.error)
    case SetSize(_, _) => Resized
    case ProcessList => Processes(sys.processes)
  }

  function ReplyFields(result: Result): seq<Field> {
    match result
    case Created(process, thread) => [Int32(PROCESS_CREATED), Int64(process), Int64(thread)]
    case CreateFailed(error) => [Int32(CREATE_PROCESS_FAILED), Int32(error)]
    case Resized => []
    case Processes(ids) => [Int32(|ids|)] + IdFields(ids)
  }

  lemma {:induction false} ReplyFieldsOk(r: Request, sys: System)
    requires SystemOk(sys)
    ensures FieldsOk(ReplyFields(Answer(r, sys)))
  {
    SmallFits();
  }

  function RequestPacket(r: Request): Bytes
    requires RequestOk(r)
  {
    Encode(RequestFields(r))
  }

  function ReplyPacket(r: Request, sys: System): Bytes
    requires SystemOk(sys)
  {
    ReplyFieldsOk(r, sys);
    Encode(ReplyFields(Answer(r, sys)))
  }

  datatype AgentState = AgentState(hasChild: bool, closing: bool)

  datatype Handled = Refused | Replied(request: Request, reply: Bytes, agent: AgentState)

  /** One packet at the agent: it is refused and the agent shuts down, or it is acted on and answered once. */
  function Handle(agent: AgentState, packet: Bytes, sys: System): (h: Handled)
    requires SystemOk(sys)
    ensures h.Replied? ==> Fitting(h.reply)
  {
    var r := Understand(packet);
    if r.None? || (r.value.Spawn? && (agent.hasChild || agent.closing)) then Refused
    else
      var reply := ReplyPacket(r.value, sys);
      if !Fitting(reply) then Refused
      else Replied(r.value, reply, agent.(hasChild := agent.hasChild || (r.value.Spawn? && sys.created)))
  }

  // ---------- The client's side of a reply ----------

  /**
    The result a client returns for its request; `None` is a decode error. `room` is how many processes it has room
    for.
   */
  function Parse(r: Request, reply: Bytes, room: int): Option<Result> {
    match r
    case Spawn(_, _, _, _, _, _, _) =>
      var head := TypeOf(reply);
      if head == Some(CREATE_PROCESS_FAILED) then
        var rest := DecodeRest([KInt32], reply);
        DecodedKinds([KInt32], reply);
        if rest.None? then None
        else
          assert Kinds(rest.value)[0] == KInt32;
          Some(CreateFailed(rest.value[0].i))
      else if head == Some(PROCESS_CREATED) then
        var rest := DecodeRest([KInt64, KInt64], reply);
        DecodedKinds([KInt64, KInt64], reply);
        if rest.None? then None
        else
          assert Kinds(rest.value)[0] == KInt64 && Kinds(rest.value)[1] == KInt64;
          Some(Created(rest.value[0].l, rest.value[1].l))
      else None
    case SetSize(_, _) => if reply == [] then Some(Resized) else None
    case ProcessList =>
      var count := TypeOf(reply);
      if count.None? then None
      else
        var kinds := if 0 <= count.value <= room then seq(count.value, _ => KInt32) else [];
        var rest := DecodeRest(kinds, reply);
        if rest.None? then None else Some(Processes(Ids(rest.value)))
  }

  function Ids(fields: seq<Field>): seq<int> {
    seq(|fields|, i requires 0 <= i < |fields| => if fields[i].Int32? then fields[i].i else 0)
  }

  // ---------- The two sides agree ----------

  lemma {:induction false} DecodeEncoded(fields: seq<Field>)
    requires FieldsOk(fields) && fields != [] && fields[0].Int32?
    ensures TypeOf(Encode(fields)) == Some(fields[0].i)
    ensures DecodeRest(Kinds(fields[1..]), Encode(fields)) == Some(fields[1..])
  {
    hide EncodeField, Get;
    var packet := Encode(fields);
    assert FieldOk(fields[0]) && FieldsOk(fields[1..]);
    AtBoth(packet, 0, EncodeField(fields[0]), Encode(fields[1..]));
    GetPut(fields[0], packet, 0);
    GetAllPut(fields[1..], packet, |EncodeField(fields[0])|);
  }

  lemma {:induction false} EncodeDecoded(kinds: seq<Kind>, packet: Bytes)
    requires DecodeRest(kinds, packet).Some?
    ensures var fields := [Int32(TypeOf(packet).value)] + DecodeRest(kinds, packet).value;
      FieldsOk(fields) && Encode(fields) == packet
  {
    hide EncodeField, FieldOk;
    var head := Get(KInt32, packet, 0).value;
    PutGet(KInt32, packet, 0);
    PutGetAll(kinds, packet, head.off);
    var rest := DecodeRest(kinds, packet).value;
    var fields := [head.field] + rest;
    assert fields[1..] == rest;
    assert FieldsOk(rest);
    assert packet == packet[0..head.off] + packet[head.off..|packet|];
  }

  /** The agent acts on exactly what the client asked. */
  lemma {:induction false} RequestIsUnderstood(r: Request)
    requires RequestOk(r)
    ensures Understand(RequestPacket(r)) == Some(r)
  {
    hide Encode, DecodeRest, TypeOf, FieldsOk, FieldOk, TextOk;
    var fields := RequestFields(r);
    DecodeEncoded(fields);
    RequestKinds(r);
  }

  function KindsOf(r: Request): seq<Kind> {
    match r
    case Spawn(_, _, _, _, _, _, _) => SPAWN_KINDS
    case SetSize(_, _) => [KInt32, KInt32]
    case ProcessList => []
  }

  lemma {:induction false} RequestKinds(r: Request)
    requires RequestOk(r)
    ensures RequestFields(r) != [] && Kinds(RequestFields(r)[1..]) == KindsOf(r)
  {
    hide FieldsOk, FieldOk, TextOk;
  }

  lemma {:induction false} SpawnIsRequest(packet: Bytes)
    requires TypeOf(packet) == Some(START_PROCESS) && Understand(packet).Some?
    ensures var r := Understand(packet).value; RequestOk(r) && RequestPacket(r) == packet
  {
    hide Encode, DecodeRest, TypeOf, FieldsOk;
    EncodeDecoded(SPAWN_KINDS, packet);
    var rest := DecodeRest(SPAWN_KINDS, packet).value;
    DecodedKinds(SPAWN_KINDS, packet);
    KindsOfSpawn(rest);
    AllOk([Int32(START_PROCESS)] + rest);
    TextsOk([Int32(START_PROCESS)] + rest);
    assert RequestFields(Understand(packet).value) == [Int32(START_PROCESS)] + rest;
  }

  lemma {:induction false} TextsOk(fields: seq<Field>)
    requires |fields| == 8 && forall i :: 0 <= i < |fields| ==> FieldOk(fields[i])
    requires fields[4].WString? && fields[5].WString? && fields[6].WString? && fields[7].WString?
    ensures TextOk(fields[4].text) && TextOk(fields[5].text) && TextOk(fields[6].text) && TextOk(fields[7].text)
  {
    assert FieldOk(fields[4]) && FieldOk(fields[5]) && FieldOk(fields[6]) && FieldOk(fields[7]);
  }

  lemma {:induction false} SizeIsRequest(packet: Bytes)
    requires TypeOf(packet) == Some(SET_SIZE) && Understand(packet).Some?
    ensures var r := Understand(packet).value; RequestOk(r) && RequestPacket(r) == packet
  {
    hide Encode, DecodeRest, TypeOf, FieldsOk;
    var kinds := [KInt32, KInt32];
    EncodeDecoded(kinds, packet);
    var fields := [Int32(SET_SIZE)] + DecodeRest(kinds, packet).value;
    DecodedKinds(kinds, packet);
    assert Kinds(fields[1..])[0] == KInt32 && Kinds(fields[1..])[1] == KInt32;
    AllOk(fields);
    assert FieldOk(fields[1]) && FieldOk(fields[2]);
    assert RequestFields(Understand(packet).value) == fields;
  }

  /** And it acts on nothing else: a packet that is understood is the encoding of a valid request. */
  lemma {:induction false} UnderstoodIsRequest(packet: Bytes)
    requires Understand(packet).Some?
    ensures var r := Understand(packet).value; RequestOk(r) && RequestPacket(r) == packet
  {
    hide Encode, DecodeRest, TypeOf, FieldsOk;
    if TypeOf(packet) == Some(START_PROCESS) {
      SpawnIsRequest(packet);
    } else if TypeOf(packet) == Some(SET_SIZE) {
      SizeIsRequest(packet);
    } else {
      EncodeDecoded([], packet);
      assert [Int32(GET_CONSOLE_PROCESS_LIST)] + [] == RequestFields(ProcessList);
    }
  }

  lemma {:induction false} AllOk(fields: seq<Field>)
    requires FieldsOk(fields)
    ensures forall i :: 0 <= i < |fields| ==> FieldOk(fields[i])
  {
  }

  /**
    The client returns what the agent did. Only for a list of processes there is a condition: it must not be longer than
    the client has room for.
   */
  lemma {:induction false} ReplyIsUnderstood(r: Request, sys: System, room: int)
    requires SystemOk(sys)
    ensures Parse(r, ReplyPacket(r, sys), room) == Some(Answer(r, sys)) <==>
      (r.ProcessList? ==> |sys.processes| <= room || sys.processes == [])
  {
    hide Encode;
    var result := Answer(r, sys);
    var fields := ReplyFields(result);
    ReplyFieldsOk(r, sys);
    if result.Resized? {
      assert fields == [];
      NothingEncoded();
    } else {
      DecodeEncoded(fields);
      match result
      case Created(_, _) => assert Kinds(fields[1..]) == [KInt64, KInt64];
      case CreateFailed(_) => assert Kinds(fields[1..]) == [KInt32];
      case Processes(ids) => ListIsUnderstood(ids, room);
    }
  }

  lemma {:induction false} NothingEncoded()
    ensures Encode([]) == []
  {
  }

  lemma {:induction false} ListIsUnderstood(ids: seq<int>, room: int)
    requires FieldsOk(ReplyFields(Processes(ids)))
    ensures var result := Parse(ProcessList, Encode(ReplyFields(Processes(ids))), room);
      result == Some(Processes(ids)) <==> |ids| <= room || ids == []
  {
    hide Encode;
    var fields := ReplyFields(Processes(ids));
    var reply := Encode(fields);
    DecodeEncoded(fields);
    assert fields[1..] == IdFields(ids);
    assert Kinds(IdFields(ids)) == seq(|ids|, _ => KInt32);
    assert Ids(IdFields(ids)) == ids;
    if |ids| <= room {
      assert Parse(ProcessList, reply, room) == Some(Processes(ids));
    } else if ids == [] {
      assert Kinds(IdFields(ids)) == [];
    } else {
      Unread(fields);
    }
  }

  /** Fields left unread are a decode error. */
  lemma {:induction false} Unread(fields: seq<Field>)
    requires FieldsOk(fields) && |fields| > 1 && fields[0].Int32?
    ensures DecodeRest([], Encode(fields)) == None
  {
    var packet := Encode(fields);
    assert FieldOk(fields[0]) && FieldOk(fields[1]) && FieldsOk(fields[1..]);
    AtBoth(packet, 0, EncodeField(fields[0]), Encode(fields[1..]));
    GetPut(fields[0], packet, 0);
    assert Encode(fields[1..]) == EncodeField(fields[1]) + Encode(fields[2..]);
  }

  // ---------- A call from end to end ----------

  /** What a client gets for its request, told without the messages: the handles it asked for, or the system's error. */
  ghost predicate Granted(r: Request, sys: System, result: Result) {
    match r
    case Spawn(_, wantProcess, wantThread, _, _, _, _) =>
      if sys.created then
        && result.Created?
        && result.process == (if wantProcess then sys.process else 0)
        && result.thread == (if wantThread then sys.thread else 0)
      else result == CreateFailed(sys.error)
    case SetSize(_, _) => result == Resized
    case ProcessList => result == Processes(sys.processes)
  }

  /**
    A call from end to end. The agent refuses a request exactly if it has a child already or is shutting down, or if the
    answer is too long for a packet; otherwise it has a child from then on if it created one, and the client gets what
    was granted, if it has room for it.
   */
  lemma {:induction false} CallIsCarriedOut(agent: AgentState, r: Request, sys: System, room: int)
    requires RequestOk(r) && SystemOk(sys)
    ensures var h := Handle(agent, RequestPacket(r), sys);
      && (h.Refused? <==> (r.Spawn? && (agent.hasChild || agent.closing)) || !Fitting(ReplyPacket(r, sys)))
      && (h.Replied? ==>
            && h.request == r && h.agent.closing == agent.closing
            && h.agent.hasChild == (agent.hasChild || (r.Spawn? && sys.created))
            && (r.ProcessList? ==> |sys.processes| <= room || sys.processes == [] ==>
                  Parse(r, h.reply, room).Some? && Granted(r, sys, Parse(r, h.reply, room).value))
            && (!r.ProcessList? ==> Parse(r, h.reply, room).Some? && Granted(r, sys, Parse(r, h.reply, room).value)))
  {
    hide RequestPacket, ReplyPacket, Understand, Parse, RequestOk, SystemOk;
    RequestIsUnderstood(r);
    ReplyIsUnderstood(r, sys, room);
  }

  /** How long an answer is: only a list can be too long for a packet. */
  lemma {:induction false} ReplySize(r: Request, sys: System)
    requires SystemOk(sys)
    ensures |ReplyPacket(r, sys)| ==
      match r {
        case Spawn(_, _, _, _, _, _, _) => if sys.created then 23 else 10
        case SetSize(_, _) => 0
        case ProcessList => 5 + 5 * |sys.processes|
      }
  {
    hide EncodeField, Fits;
    var fields := ReplyFields(Answer(r, sys));
    ReplyFieldsOk(r, sys);
    EncodedSize(fields);
    match r
    case Spawn(_, _, _, _, _, _, _) =>
      if sys.created {
        SizeOfBehind(fields[0], [fields[1], fields[2]]);
        SizeOfBehind(fields[1], [fields[2]]);
        SizeOfBehind(fields[2], []);
      } else {
        SizeOfBehind(fields[0], [fields[1]]);
        SizeOfBehind(fields[1], []);
      }
    case SetSize(_, _) =>
    case ProcessList => IdsSize(sys.processes);
  }

  function SizeOf(f: Field): nat {
    match f
    case Int32(_) => 5
    case Int64(_) => 9
    case WString(text) => 9 + 2 * |text|
  }

  function SizeOfAll(fields: seq<Field>): nat {
    if fields == [] then 0 else SizeOf(fields[0]) + SizeOfAll(fields[1..])
  }

  lemma {:induction false} SizeOfBehind(f: Field, fields: seq<Field>)
    ensures SizeOfAll([f] + fields) == SizeOf(f) + SizeOfAll(fields)
  {
    assert ([f] + fields)[1..] == fields;
  }

  lemma {:induction false} EncodedSize(fields: seq<Field>)
    requires FieldsOk(fields)
    ensures |Encode(fields)| == SizeOfAll(fields)
  {
    if fields != [] {
      EncodedSize(fields[1..]);
    }
  }

  lemma {:induction false} IdsSize(ids: seq<int>)
    ensures SizeOfAll(IdFields(ids)) == 5 * |ids|
  {
    if ids != [] {
      assert IdFields(ids)[1..] == IdFields(ids[1..]);
      IdsSize(ids[1..]);
    }
  }

  /** One packet byte by byte: a resize to 80 by 25. */
  lemma {:induction false} SetSizeOnTheWire()
    ensures RequestPacket(SetSize(80, 25)) == [0, 1, 0, 0, 0, 0, 80, 0, 0, 0, 0, 25, 0, 0, 0]
  {
    var fields := RequestFields(SetSize(80, 25));
    assert fields[1..] == [Int32(80), Int32(25)] && fields[1..][1..] == [Int32(25)];
    SmallNumber(1);
    SmallNumber(80);
    SmallNumber(25);
    assert Encode(fields) == EncodeField(Int32(1)) + (EncodeField(Int32(80)) + (EncodeField(Int32(25)) + []));
  }

  lemma {:induction false} SmallNumber(n: nat)
    requires n < 256
    ensures Fits(n, 4) && EncodeField(Int32(n)) == [0, n, 0, 0, 0]
  {
    SmallFits();
    assert LittleEndian(n, 4) == [n] + LittleEndian(0, 3);
    assert LittleEndian(0, 3) == [0] + LittleEndian(0, 2);
    assert LittleEndian(0, 2) == [0] + LittleEndian(0, 1);
    assert LittleEndian(0, 1) == [0] + LittleEndian(0, 0);
  }
}
