/**
 * The connection protocol as interleaved steps. Transport threads and the Server control thread
 * share one FIFO control queue, a channel per connection, the set of outstanding request ids of
 * each connection, an intrusive reference count and a registry of connections. Every locked section
 * and every atomic operation is one step; between two steps any thread may run.
 */
module Protocol {
  import opened Bytes
  import opened Wrappers
  import opened Outbound
  import Framing

  const OUTBOUND_BUDGET := 4 * 1024 * 1024
  const MAX_NAME := 128

  /** A session id; never reused. */
  type Id = nat

  datatype Op =
    | Load
    | Publish
    | Build
    | Rebuild
    | Unload
    | RunProject
    | FreezeProject
    | GetState
    | GetValue
    | SnapIc
    | ResetIc
    | Shutdown

  datatype ClientMessage = ClientMessage(login: bytes, arg: bytes, parameters: bytes)

  /** What a decoded frame asks for. */
  datatype Ask = AskLogin(name: bytes) | AskClient(message: ClientMessage) | AskServer(op: Op)

  /** A control message. Those of a connection hold one reference to it. */
  datatype Control =
    | Asked(c: Id, request: U64, ask: Ask)
    | Gone(c: Id)
    | Console(op: Op)

  // ----- connections -----

  /** Where the transport thread stands with one of its peers. */
  datatype Io =
    | Idle
    | Reserved(request: U64, ask: Ask)
    | Cleared(request: U64, ask: Ask)
    | Holding(request: U64, ask: Ask)
    | Answering(reply: Message)
    | Dequeued(write: Write)
    | Encoding(write: Write)
    | Marking
    | ClosingChannel
    | ShutMarking
    | ShutClosing
    | ShutHolding
    | ShutPosting
    | ShutGate
    | ShutReleasing
    | Erased

  datatype Connection = Connection(
    references: nat,
    committed: bool,
    name: bytes,
    closeStarted: bool,
    channel: Channel,
    outstanding: set<nat>,
    io: Io,
    gateAcquired: bool,
    sendBuffer: bytes,
    sendOffset: nat,
    sending: Option<Write>,
    wire: bytes)

  function Created(): (r: Connection) {
    Connection(1, false, [], false, Fresh(OUTBOUND_BUDGET), {}, Idle, true, [], 0, None, [])
  }

  predicate IsDuplicate(k: Connection, request: U64) { k.closeStarted || request in k.outstanding }

  /** A JSON text, which is never empty. */
  type Json = s: bytes | s != [] witness [0x7B]

  /** How a taken message is written out; the encoder may refuse it. */
  type Encoder = Write -> Option<Json>

  /** A text that is too long for a frame counts as refused. */
  function TextOf(encode: Encoder, write: Write): (r: Option<bytes>)
    ensures r.Some? ==> Framing.Framed(r.value)
  {
    match encode(write)
    case None => None
    case Some(json) => if |json| > Framing.MAX_FRAME then None else Some(json)
  }

  datatype IoAct =
    | Reserve(request: U64, ask: Ask)
    | CheckLogin
    | Hold
    | Push
    | Answer
    | Take
    | ReleaseId
    | Encode
    | Send(count: nat)
    | Finish
    | StartClose
    | MarkClosed
    | CloseOutbound
    | StartShut
    | PostHold
    | PostGone
    | ReleaseGate
    | Erase

  /** What a transport step does to the connection, and what it pushes to the control queue. */
  datatype IoResult = Blocked | Moved(k: Connection, pushed: seq<Control>)

  function Stay(k: Connection): (r: IoResult) { Moved(k, []) }

  function ReserveStep(k: Connection, request: U64, ask: Ask): (r: IoResult) {
    if !k.io.Idle? || request == 0 then Blocked
    else if IsDuplicate(k, request) then Stay(k.(io := Answering(Response(request, false, false, NoPayload, []))))
    else Stay(k.(outstanding := k.outstanding + {request}, io := Reserved(request, ask)))
  }

  /** LOGIN goes straight to the queue; anything else needs a committed login. */
  function CheckLoginStep(k: Connection): (r: IoResult) {
    match k.io
    case Reserved(request, ask) =>
      if ask.AskLogin? || k.committed then Stay(k.(io := Cleared(request, ask)))
      else Stay(k.(io := Answering(Response(request, true, false, NoPayload, []))))
    case _ => Blocked
  }

  function AnswerStep(k: Connection): (r: IoResult) {
    match k.io
    case Answering(reply) =>
      var channel := Enqueue(k.channel, reply);
      Stay(k.(channel := channel, io := if channel.closing then Marking else Idle))
    case _ => Blocked
  }

  function TakeStep(k: Connection): (r: IoResult) {
    if !k.io.Idle? || k.sendBuffer != [] || k.sending.Some? then Blocked
    else
      match TryNext(k.channel)
      case None => Stay(k)
      case Some(write) => Stay(k.(channel := AfterNext(k.channel), io := Dequeued(write)))
  }

  function ReleaseIdStep(k: Connection): (r: IoResult) {
    match k.io
    case Dequeued(write) =>
      var done := k.(io := Encoding(write));
      Stay(if write.message.Response? && write.message.release
           then done.(outstanding := k.outstanding - {write.message.request}) else done)
    case _ => Blocked
  }

  function EncodeStep(encode: Encoder, k: Connection): (r: IoResult) {
    match k.io
    case Encoding(write) =>
      (match TextOf(encode, write)
       case None => Stay(k.(io := Marking))
       case Some(json) =>
         Stay(k.(sendBuffer := Framing.Frame(json), sendOffset := 0, sending := Some(write), io := Idle)))
    case _ => Blocked
  }

  function SendStep(k: Connection, count: nat): (r: IoResult) {
    if !k.io.Idle? || k.sendOffset + count > |k.sendBuffer| then Blocked
    else Stay(k.(sendOffset := k.sendOffset + count, wire := k.wire + k.sendBuffer[k.sendOffset..k.sendOffset + count]))
  }

  function FinishStep(k: Connection): (r: IoResult) {
    if !k.io.Idle? || k.sending.None? || k.sendOffset != |k.sendBuffer| then Blocked
    else
      var channel := MarkWritten(k.channel, k.sending.value.sequence);
      Stay(k.(channel := channel, sending := None, sendBuffer := [], sendOffset := 0))
  }

  /** Steps that close: the flag first, then the channel, and for a peer that is gone the message to the Server. */
  function CloseStep(c: Id, k: Connection, act: IoAct): (r: IoResult) {
    match act
    case StartClose => if k.io.Idle? then Stay(k.(io := Marking)) else Blocked
    case StartShut => if k.io.Idle? then Stay(k.(io := ShutMarking)) else Blocked
    case MarkClosed =>
      if k.io.Marking? then Stay(k.(closeStarted := true, io := ClosingChannel))
      else if k.io.ShutMarking? then Stay(k.(closeStarted := true, io := ShutClosing)) else Blocked
    case CloseOutbound =>
      if k.io.ClosingChannel? then Stay(k.(channel := Close(k.channel), io := Idle))
      else if k.io.ShutClosing? then Stay(k.(channel := Close(k.channel), io := ShutHolding)) else Blocked
    case PostHold => if k.io.ShutHolding? then Stay(k.(references := k.references + 1, io := ShutPosting)) else Blocked
    case PostGone => if k.io.ShutPosting? then Moved(k.(io := ShutGate), [Gone(c)]) else Blocked
    case ReleaseGate => if k.io.ShutGate? then Stay(k.(gateAcquired := false, io := ShutReleasing)) else Blocked
    case _ => if k.io.ShutReleasing? && k.references > 0 then Stay(k.(references := k.references - 1, io := Erased))
        else Blocked
  }

  function IoNext(encode: Encoder, c: Id, k: Connection, act: IoAct): (r: IoResult) {
    match act
    case Reserve(request, ask) => ReserveStep(k, request, ask)
    case CheckLogin => CheckLoginStep(k)
    case Hold =>
      (match k.io
       case Cleared(request, ask) => Stay(k.(references := k.references + 1, io := Holding(request, ask)))
       case _ => Blocked)
    case Push =>
      (match k.io
       case Holding(request, ask) => Moved(k.(io := Idle), [Asked(c, request, ask)])
       case _ => Blocked)
    case Answer => AnswerStep(k)
    case Take => TakeStep(k)
    case ReleaseId => ReleaseIdStep(k)
    case Encode => EncodeStep(encode, k)
    case Send(count) => SendStep(k, count)
    case Finish => FinishStep(k)
    case _ => CloseStep(c, k, act)
  }

  // ----- the Server thread -----

  /** Where the Server thread stands with the message in hand. */
  datatype Stage =
    | Got
    | Registering
    | Routing(next: nat)
    | Responding(reply: Message, old_: ProjectState)
    | Publishing(old_: ProjectState, next: nat)
    | Unregistering
    | MarkingClosed(target: Id, then_: Stage)
    | ClosingOutbound(target: Id, then_: Stage)
    | Leaving

  datatype Server = Looping | Serving(m: Control, at: Stage) | Exited

  datatype State = State(
    connections: map<Id, Connection>,
    nextId: Id,
    queue: seq<Control>,
    registry: seq<Id>,
    server: Server,
    project: ProjectState,
    hasProject: bool,
    running: bool,
    gateLimit: nat,
    gateActive: nat,
    admitted: nat)

  function Initial(gateLimit: nat): (r: State) {
    State(map[], 1, [], [], Looping, Unloaded, false, true, gateLimit, 0, 0)
  }

  datatype Changed = Changed(project: ProjectState, hasProject: bool, ok: bool)

  /** The operations on the Project; one that fails changes nothing. */
  function Operate(op: Op, project: ProjectState, hasProject: bool, succeeds: bool): (r: Changed) {
    var same := Changed(project, hasProject, false);
    var idle := project.Loaded? || project.Freeze?;
    match op
    case Unload => if !hasProject || !idle then same else Changed(Unloaded, false, true)
    case RunProject => if !hasProject || !idle then same else Changed(Run, hasProject, true)
    case FreezeProject => if !hasProject || !project.Run? then same else Changed(Freeze, hasProject, true)
    case GetState => same.(ok := true)
    case GetValue => same.(ok := hasProject && succeeds)
    case SnapIc => same.(ok := succeeds)
    case ResetIc => same.(ok := succeeds)
    case Shutdown => same.(ok := true)
    case _ => if hasProject then same else if succeeds then Changed(Loaded, true, true)
        else Changed(Unloaded, false, false)
  }

  /** A Server step; the arguments are what the step reads from the outside or read earlier without a lock. */
  datatype ServeAct =
    | Pop
    | CommitLogin(sawClosing: bool)
    | Register
    | CheckClient(sawClosing: bool, closedSince: bool)
    | RouteNext(sawClosing: bool)
    | Execute(allowed: bool, succeeds: bool, value: RuntimeValue, diagnostics: seq<Diagnostic>)
    | Respond
    | PublishNext
    | StartUnregister
    | Unregister
    | MarkTarget
    | CloseTarget
    | Leave
    | Exit

  function Put(s: State, c: Id, k: Connection): (r: State) { s.(connections := s.connections[c := k]) }

  function At(s: State, at: Stage): (r: State)
    requires s.server.Serving?
  {
    s.(server := s.server.(at := at))
  }

  function Failure(request: U64, diagnostics: seq<Diagnostic>): (r: Message) {
    Response(request, true, false, NoPayload, diagnostics)
  }

  /** An enqueue by the Server thread; a refused one is followed by closing the connection. */
  function Deliver(s: State, target: Id, m: Message, then_: Stage): (r: State)
    requires s.server.Serving? && target in s.connections
  {
    var k := s.connections[target];
    var channel := Enqueue(k.channel, m);
    At(Put(s, target, k.(channel := channel)), if channel.closing then MarkingClosed(target, then_) else then_)
  }

  function CommitStep(s: State, sawClosing: bool): (r: Option<State>) {
    match s.server
    case Serving(Asked(c, request, AskLogin(name)), Got) =>
      if c !in s.connections || (sawClosing && !s.connections[c].closeStarted) then None
      else
        var k := s.connections[c];
        if sawClosing || k.committed || name == [] || |name| > MAX_NAME then
          Some(At(s, Responding(Failure(request, []), s.project)))
        else Some(At(Put(s, c, k.(committed := true, name := name)), Registering))
    case _ => None
  }

  function RegisterStep(s: State): (r: Option<State>) {
    match s.server
    case Serving(Asked(c, request, _), Registering) =>
      if c in s.registry then Some(At(s, Responding(Failure(request, []), s.project)))
      else
        var reply := Response(request, true, true, StateOf(s.project), []);
        Some(At(s, Responding(reply, s.project)).(registry := s.registry + [c]))
    case _ => None
  }

  /** The sender is checked once by the Server and once more when routing starts. */
  function CheckClientStep(s: State, sawClosing: bool, closedSince: bool): (r: Option<State>) {
    match s.server
    case Serving(Asked(c, request, AskClient(_)), Got) =>
      if c !in s.connections || ((sawClosing || closedSince) && !s.connections[c].closeStarted) then None
      else if !s.connections[c].committed || sawClosing then Some(At(s, Responding(Failure(request, []), s.project)))
      else if closedSince then Some(At(s, Responding(Response(request, true, true, NoPayload, []), s.project)))
      else Some(At(s, Routing(0)))
    case _ => None
  }

  function RouteStep(s: State, sawClosing: bool): (r: Option<State>) {
    match s.server
    case Serving(Asked(c, request, AskClient(message)), Routing(next)) =>
      if next >= |s.registry| then Some(At(s, Responding(Response(request, true, true, NoPayload, []), s.project)))
      else
        var target := s.registry[next];
        if c !in s.connections || target !in s.connections
            || (sawClosing && !s.connections[target].closeStarted) then None
        else
          var k := s.connections[target];
          var action := ClientAction(s.connections[c].name, message.arg, message.parameters);
          if !k.committed || sawClosing || (message.login != [] && k.name != message.login) then
            Some(At(s, Routing(next + 1)))
          else Some(Deliver(s, target, action, Routing(next + 1)))
    case _ => None
  }

  /** What a request that succeeds answers with beside its status. */
  function Answered(op: Op, changed: Changed, value: RuntimeValue): (r: Payload) {
    if op.GetState? then StateOf(changed.project)
    else if op.GetValue? && changed.ok then ValueOf(value) else NoPayload
  }

  function ExecuteStep(s: State, allowed: bool, succeeds: bool, value: RuntimeValue, diagnostics: seq<Diagnostic>)
      : (r: Option<State>)
  {
    match s.server
    case Serving(m, Got) =>
      if m.Gone? || (m.Asked? && !m.ask.AskServer?) then None
      else
        var op := if m.Asked? then m.ask.op else m.op;
        var request := if m.Asked? then m.request else 0;
        if !allowed then Some(At(s, Responding(Failure(request, diagnostics), s.project)))
        else
          var changed := Operate(op, s.project, s.hasProject, succeeds);
          var payload := Answered(op, changed, value);
          Some(At(s, Responding(Response(request, true, changed.ok, payload, diagnostics), s.project)).(
            project := changed.project, hasProject := changed.hasProject, running := s.running && !op.Shutdown?))
    case _ => None
  }

  /** Requests publish a change of state after their response. */
  function AfterResponse(m: Control, old_: ProjectState): (r: Stage) {
    if m.Console? || (m.Asked? && m.ask.AskServer?) then Publishing(old_, 0) else Leaving
  }

  function RespondStep(s: State): (r: Option<State>) {
    match s.server
    case Serving(m, Responding(reply, old_)) =>
      (match m
       case Asked(c, _, _) => if c !in s.connections then None else Some(Deliver(s, c, reply, AfterResponse(m, old_)))
       case _ => Some(At(s, AfterResponse(m, old_))))
    case _ => None
  }

  function PublishStep(s: State): (r: Option<State>) {
    match s.server
    case Serving(_, Publishing(old_, next)) =>
      if old_ == s.project || next >= |s.registry| then Some(At(s, Leaving))
      else
        var target := s.registry[next];
        if target !in s.connections then None
        else if !s.connections[target].committed then Some(At(s, Publishing(old_, next + 1)))
        else Some(Deliver(s, target, ServerState(old_, s.project), Publishing(old_, next + 1)))
    case _ => None
  }

  function Without(registry: seq<Id>, c: Id): (r: seq<Id>) {
    if registry == [] then [] else if registry[0] == c then registry[1..] else [registry[0]] + Without(registry[1..], c)
  }

  function CloseTargetStep(s: State, act: ServeAct): (r: Option<State>) {
    match s.server
    case Serving(m, MarkingClosed(target, then_)) =>
      if !act.MarkTarget? || target !in s.connections then None
      else Some(At(Put(s, target, s.connections[target].(closeStarted := true)), ClosingOutbound(target, then_)))
    case Serving(m, ClosingOutbound(target, then_)) =>
      if !act.CloseTarget? || target !in s.connections then None
      else
        var k := s.connections[target];
        Some(At(Put(s, target, k.(channel := Close(k.channel))), then_))
    case _ => None
  }

  function UnregisterStep(s: State, act: ServeAct): (r: Option<State>) {
    match s.server
    case Serving(Gone(c), Got) => if act.StartUnregister? then Some(At(s, MarkingClosed(c, Unregistering))) else None
    case Serving(Gone(c), Unregistering) =>
      if act.Unregister? then Some(At(s, Leaving).(registry := Without(s.registry, c))) else None
    case _ => None
  }

  /** A message is destroyed, and with it its reference. */
  function Released(connections: map<Id, Connection>, m: Control): (r: Option<map<Id, Connection>>) {
    if m.Console? then Some(connections)
    else if m.c !in connections || connections[m.c].references == 0 then None
    else Some(connections[m.c := connections[m.c].(references := connections[m.c].references - 1)])
  }

  function DestroyMessage(s: State, m: Control): (r: Option<State>) {
    match Released(s.connections, m)
    case None => None
    case Some(connections) => Some(s.(connections := connections))
  }

  /** After a shutdown request the loop ends with the message that brought it. */
  function LeaveStep(s: State): (r: Option<State>) {
    match s.server
    case Serving(m, Leaving) => DestroyMessage(s.(server := if s.running then Looping else Exited), m)
    case _ => None
  }

  /** The lease runs out before a message is taken, or before the one taken is looked at. */
  function ExitStep(s: State): (r: Option<State>) {
    match s.server
    case Looping => Some(s.(server := Exited))
    case Serving(m, Got) => DestroyMessage(s.(server := Exited), m)
    case _ => None
  }

  function ServeNext(s: State, act: ServeAct): (r: Option<State>) {
    match act
    case Pop =>
      if !s.server.Looping? || s.queue == [] then None
          else Some(s.(server := Serving(s.queue[0], Got), queue := s.queue[1..]))
    case CommitLogin(sawClosing) => CommitStep(s, sawClosing)
    case Register => RegisterStep(s)
    case CheckClient(sawClosing, closedSince) => CheckClientStep(s, sawClosing, closedSince)
    case RouteNext(sawClosing) => RouteStep(s, sawClosing)
    case Execute(allowed, succeeds, value, diagnostics) => ExecuteStep(s, allowed, succeeds, value, diagnostics)
    case Respond => RespondStep(s)
    case PublishNext => PublishStep(s)
    case StartUnregister => UnregisterStep(s, act)
    case Unregister => UnregisterStep(s, act)
    case MarkTarget => CloseTargetStep(s, act)
    case CloseTarget => CloseTargetStep(s, act)
    case Leave => LeaveStep(s)
    case Exit => ExitStep(s)
  }

  // ----- all steps -----

  datatype Action =
    | Admit
    | Connect
    | OfConsole(op: Op)
    | OfPeer(c: Id, io: IoAct)
    | OfServer(act: ServeAct)

  function Next(encode: Encoder, s: State, a: Action): (r: Option<State>) {
    if s.server.Exited? then None
    else
      match a
      case Admit =>
        if s.gateActive >= s.gateLimit then None
        else Some(s.(gateActive := s.gateActive + 1, admitted := s.admitted + 1))
      case Connect =>
        if s.admitted == 0 then None
        else Some(Put(s, s.nextId, Created()).(nextId := s.nextId + 1, admitted := s.admitted - 1))
      case OfConsole(op) => Some(s.(queue := s.queue + [Console(op)]))
      case OfPeer(c, io) =>
        if c !in s.connections then None
        else
          (match IoNext(encode, c, s.connections[c], io)
           case Blocked => None
           case Moved(k, pushed) =>
             var moved := Put(s, c, k).(queue := s.queue + pushed);
             Some(if io.ReleaseGate? then moved.(gateActive := if s.gateActive == 0 then 0 else s.gateActive - 1)
                 else moved))
      case OfServer(act) => ServeNext(s, act)
  }

  /** The state after a run, if every step of it can be taken. */
  function RunOf(encode: Encoder, s: State, actions: seq<Action>): (r: Option<State>)
    decreases |actions|
  {
    if actions == [] then Some(s)
    else
      match Next(encode, s, actions[0])
      case None => None
      case Some(next) => RunOf(encode, next, actions[1..])
  }

  lemma {:induction false} RunSum(encode: Encoder, s: State, a: seq<Action>, b: seq<Action>)
    requires RunOf(encode, s, a).Some?
    ensures RunOf(encode, s, a + b) == RunOf(encode, RunOf(encode, s, a).value, b)
    decreases |a|
  {
    hide Next;
    if a == [] {
      assert a + b == b;
    } else {
      assert (a + b)[1..] == a[1..] + b;
      RunSum(encode, Next(encode, s, a[0]).value, a[1..], b);
    }
  }

  /** Runs put together step by step, from their end. */
  lemma RunOfNothing(encode: Encoder, s: State)
    ensures RunOf(encode, s, []) == Some(s)
  {
  }

  lemma Then(encode: Encoder, s: State, a: Action, next: State, rest: seq<Action>, last: State)
    requires Next(encode, s, a) == Some(next) && RunOf(encode, next, rest) == Some(last)
    ensures RunOf(encode, s, [a] + rest) == Some(last)
  {
    hide Next;
    assert ([a] + rest)[1..] == rest;
  }
}
