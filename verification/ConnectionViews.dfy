/**
 * The part of a connection that its own object keeps, what each operation of the object does to it,
 * and the steps of the protocol that the operation is made of. What the transport thread keeps of
 * its peer is not touched by any of them.
 */
module ConnectionViews {
  import opened Bytes
  import opened Wrappers
  import opened Sequences
  import opened Outbound
  import opened Protocol
  import opened ProtocolLifetime

  datatype Shared =
    Shared(committed: bool, name: bytes, closeStarted: bool, channel: Channel, outstanding: set<nat>)

  function SharedOf(k: Connection): (v: Shared) {
    Shared(k.committed, k.name, k.closeStarted, k.channel, k.outstanding)
  }

  function With(k: Connection, v: Shared): (r: Connection) {
    k.(committed := v.committed, name := v.name, closeStarted := v.closeStarted, channel := v.channel,
       outstanding := v.outstanding)
  }

  // ----- operations -----

  predicate MayReserve(v: Shared, request: U64) { request != 0 && !v.closeStarted && request !in v.outstanding }

  function AfterReserve(v: Shared, request: U64): (r: Shared) {
    if MayReserve(v, request) then v.(outstanding := v.outstanding + {request}) else v
  }

  /** What taking the next message leaves behind: its id is free again if it was the response to it. */
  function AfterTake(v: Shared): (r: Shared) {
    match TryNext(v.channel)
    case None => v
    case Some(write) =>
      var rest := v.(channel := AfterNext(v.channel));
      if write.message.Response? && write.message.release
      then rest.(outstanding := v.outstanding - {write.message.request}) else rest
  }

  function AfterClose(v: Shared): (r: Shared) { v.(closeStarted := true, channel := Close(v.channel)) }

  /** A message is in the channel, or the connection is closing. */
  function AfterSend(v: Shared, m: Message): (r: Shared) {
    var sent := v.(channel := Enqueue(v.channel, m));
    if sent.channel.closing then AfterClose(sent) else sent
  }

  predicate MayLogIn(v: Shared, name: bytes) {
    !v.closeStarted && !v.committed && name != [] && |name| <= MAX_NAME
  }

  function AfterLogin(v: Shared, name: bytes): (r: Shared) {
    if MayLogIn(v, name) then v.(committed := true, name := name) else v
  }

  // ----- transport steps -----

  /** Where the transport thread stands once it has tried to reserve an id. */
  function IoAfterReserve(ok: bool, request: U64, ask: Ask): (r: Io) {
    if ok then Reserved(request, ask) else Answering(Response(request, false, false, NoPayload, []))
  }

  lemma ReserveIsStep(k: Connection, request: U64, ask: Ask)
    requires k.io.Idle? && request != 0
    ensures var io := IoAfterReserve(MayReserve(SharedOf(k), request), request, ask);
            ReserveStep(k, request, ask) == Stay(With(k, AfterReserve(SharedOf(k), request)).(io := io))
  {
  }

  /** A step and, when it moves the connection, what another makes of it. */
  function TakeSteps(k: Connection): (r: IoResult) {
    var taken := TakeStep(k);
    if taken.Moved? && taken.k.io.Dequeued? then ReleaseIdStep(taken.k) else taken
  }

  function CloseSteps(c: Id, k: Connection): (r: IoResult) {
    var marked := CloseStep(c, k, MarkClosed);
    if marked.Moved? then CloseStep(c, marked.k, CloseOutbound) else marked
  }

  function AnswerSteps(c: Id, k: Connection): (r: IoResult) {
    var answered := AnswerStep(k);
    if answered.Moved? && answered.k.io.Marking? then CloseSteps(c, answered.k) else answered
  }

  /** Taking a message and releasing its id are two steps, with nothing of the object in between. */
  lemma TakeIsTwoSteps(k: Connection)
    requires k.io.Idle? && k.sendBuffer == [] && k.sending.None?
    ensures var io := if TryNext(k.channel).Some? then Encoding(TryNext(k.channel).value) else Idle;
            TakeSteps(k) == Stay(With(k, AfterTake(SharedOf(k))).(io := io))
  {
  }

  lemma CloseIsTwoSteps(c: Id, k: Connection)
    requires k.io.Marking?
    ensures CloseSteps(c, k) == Stay(With(k, AfterClose(SharedOf(k))).(io := Idle))
  {
  }

  /** An answer from the transport thread itself; a refused one is followed by the two steps of closing. */
  lemma AnswerIsSend(c: Id, k: Connection)
    requires k.io.Answering?
    ensures AnswerSteps(c, k) == Stay(With(k, AfterSend(SharedOf(k), k.io.reply)).(io := Idle))
  {
    hide Enqueue;
  }

  // ----- Server steps -----

  /** The Server thread has taken a LOGIN of some connection. */
  predicate LogsIn(s: State, c: Id, name: bytes) {
    s.server.Serving? && s.server.at.Got? && s.server.m.Asked? && s.server.m.c == c && s.server.m.ask == AskLogin(name)
    && c in s.connections
  }

  /** The state after the commit of a login that left a view behind. */
  function AfterCommit(s: State, c: Id, ok: bool, v: Shared): (r: State)
    requires s.server.Serving? && s.server.m.Asked? && c in s.connections
  {
    if ok then At(Put(s, c, With(s.connections[c], v)), Registering)
    else At(s, Responding(Failure(s.server.m.request, []), s.project))
  }

  lemma CommitIsStep(s: State, c: Id, name: bytes)
    requires LogsIn(s, c, name)
    ensures var v := SharedOf(s.connections[c]);
            CommitStep(s, v.closeStarted) == Some(AfterCommit(s, c, MayLogIn(v, name), AfterLogin(v, name)))
  {
  }

  /** The steps of one delivery by the Server thread that nothing interrupts. */
  function DeliverActions(s: State, target: Id, m: Message): (r: seq<ServeAct>)
    requires target in s.connections
  {
    if Enqueue(s.connections[target].channel, m).closing then [MarkTarget, CloseTarget] else []
  }

  /** Steps that do not end the serving of the message in hand. */
  predicate Keeps(acts: seq<ServeAct>) { forall i | 0 <= i < |acts| :: !acts[i].Leave? && !acts[i].Exit? }

  function Serve(s: State, acts: seq<ServeAct>): (r: Option<State>)
    decreases |acts|
  {
    if acts == [] then Some(s)
    else
      match ServeNext(s, acts[0])
      case None => None
      case Some(next) => Serve(next, acts[1..])
  }

  function Server(acts: seq<ServeAct>): (r: seq<Action>) {
    seq(|acts|, i requires 0 <= i < |acts| => OfServer(acts[i]))
  }

  /** Server steps alone are a run of the machine. */
  lemma {:induction false} ServeIsRun(encode: Encoder, s: State, acts: seq<ServeAct>)
    requires !s.server.Exited? && Serve(s, acts).Some? && Keeps(acts)
    ensures RunOf(encode, s, Server(acts)) == Serve(s, acts)
    decreases |acts|
  {
    hide ServeNext;
    if acts != [] {
      assert Server(acts)[1..] == Server(acts[1..]);
      StaysInLoop(s, acts[0]);
      ServeIsRun(encode, ServeNext(s, acts[0]).value, acts[1..]);
    }
  }

  lemma StaysInLoop(s: State, act: ServeAct)
    requires ServeNext(s, act).Some? && !act.Leave? && !act.Exit? && !s.server.Exited?
    ensures !ServeNext(s, act).value.server.Exited?
  {
    hide Operate, Enqueue, Without, Close;
  }

  lemma {:induction false} ServeSum(s: State, a: seq<ServeAct>, b: seq<ServeAct>)
    requires Serve(s, a).Some?
    ensures Serve(s, a + b) == Serve(Serve(s, a).value, b)
    decreases |a|
  {
    hide ServeNext;
    if a == [] {
      assert a + b == b;
    } else {
      assert (a + b)[1..] == a[1..] + b;
      ServeSum(ServeNext(s, a[0]).value, a[1..], b);
    }
  }

  lemma ServeTwo(s: State, a: ServeAct, b: ServeAct)
    requires ServeNext(s, a).Some?
    ensures Serve(s, [a, b]) == ServeNext(ServeNext(s, a).value, b)
  {
    hide ServeNext;
    var next := ServeNext(s, a).value;
    assert [a, b][1..] == [b] && [b][1..] == [];
    assert Serve(next, [b]) == ServeNext(next, b);
  }

  lemma ServeNothing(s: State)
    ensures Serve(s, []) == Some(s)
  {
  }

  lemma MarkStep(s: State, target: Id, then_: Stage)
    requires s.server.Serving? && s.server.at == MarkingClosed(target, then_) && target in s.connections
    ensures ServeNext(s, MarkTarget)
         == Some(At(Put(s, target, s.connections[target].(closeStarted := true)), ClosingOutbound(target, then_)))
  {
  }

  lemma CloseOutboundStep(s: State, target: Id, then_: Stage)
    requires s.server.Serving? && s.server.at == ClosingOutbound(target, then_) && target in s.connections
    ensures ServeNext(s, CloseTarget)
         == Some(At(Put(s, target, s.connections[target].(channel := Close(s.connections[target].channel))), then_))
  {
  }

  lemma CloseTargetIsClose(s: State, target: Id, then_: Stage)
    requires s.server.Serving? && s.server.at == MarkingClosed(target, then_) && target in s.connections
    ensures Serve(s, [MarkTarget, CloseTarget])
         == Some(At(Put(s, target, With(s.connections[target], AfterClose(SharedOf(s.connections[target])))), then_))
  {
    hide Close, Serve, ServeNext;
    var k := s.connections[target];
    var marked := At(Put(s, target, k.(closeStarted := true)), ClosingOutbound(target, then_));
    MarkStep(s, target, then_);
    CloseOutboundStep(marked, target, then_);
    ServeTwo(s, MarkTarget, CloseTarget);
    assert marked.connections[target := k.(closeStarted := true, channel := Close(k.channel))]
        == s.connections[target := With(k, AfterClose(SharedOf(k)))];
  }

  /** A delivery leaves in the connection what sending leaves in the object, and the stage goes on. */
  lemma DeliverIsSend(s: State, target: Id, m: Message, then_: Stage)
    requires s.server.Serving? && target in s.connections
    ensures Serve(Deliver(s, target, m, then_), DeliverActions(s, target, m))
         == Some(At(Put(s, target, With(s.connections[target], AfterSend(SharedOf(s.connections[target]), m))), then_))
  {
    hide Enqueue, Close;
    hide Serve;
    var k := s.connections[target];
    var next := Deliver(s, target, m, then_);
    if Enqueue(k.channel, m).closing {
      CloseTargetIsClose(next, target, then_);
      assert next.connections[target := With(k, AfterSend(SharedOf(k), m))]
          == s.connections[target := With(k, AfterSend(SharedOf(k), m))];
    } else {
      ServeNothing(next);
    }
  }

  // ----- messages to the registered -----

  type Receiver = Shared -> bool

  /** The connections once a message has been sent to those of some ids that are to receive it. */
  function SentTo(connections: map<Id, Connection>, ids: seq<Id>, receives: Receiver,
      m: Message): (r: map<Id, Connection>) {
    map c | c in connections ::
      if c in ids && receives(SharedOf(connections[c]))
      then With(connections[c], AfterSend(SharedOf(connections[c]), m)) else connections[c]
  }

  /** Sending to the first of some ids and then to the rest. */
  lemma SentToFirst(connections: map<Id, Connection>, ids: seq<Id>, receives: Receiver, m: Message)
    requires ids != [] && ids[0] in connections && ids[0] !in ids[1..]
    ensures var k := connections[ids[0]];
            var after := With(k, AfterSend(SharedOf(k), m));
            SentTo(connections, ids, receives, m)
            == SentTo(if receives(SharedOf(k)) then connections[ids[0] := after] else connections,
                      ids[1..], receives, m)
  {
    hide AfterSend;
    assert ids == [ids[0]] + ids[1..];
  }

  lemma SentToNobody(connections: map<Id, Connection>, ids: seq<Id>, receives: Receiver, m: Message)
    requires ids == [] || forall v :: !receives(v)
    ensures SentTo(connections, ids, receives, m) == connections
  {
  }

  /** The views of the connections with some ids, in their order. */
  function ViewsOf(connections: map<Id, Connection>, ids: seq<Id>): (r: seq<Shared>)
    requires forall i | 0 <= i < |ids| :: ids[i] in connections
  {
    seq(|ids|, i requires 0 <= i < |ids| => SharedOf(connections[ids[i]]))
  }

  /** Nothing of a connection changes but its view, and that only of those with some ids. */
  predicate OnlyViews(before: map<Id, Connection>, after: map<Id, Connection>, ids: seq<Id>) {
    after.Keys == before.Keys && forall c | c in before ::
      after[c] == if c in ids then With(before[c], SharedOf(after[c])) else before[c]
  }

  /** What is sent to the connections of the machine is what is sent to the objects they are the views of. */
  lemma SentToIsSentEach(connections: map<Id, Connection>, ids: seq<Id>, receives: Receiver, m: Message)
    requires (forall i | 0 <= i < |ids| :: ids[i] in connections) && Unique(ids)
    ensures OnlyViews(connections, SentTo(connections, ids, receives, m), ids)
    ensures ViewsOf(SentTo(connections, ids, receives, m), ids) == SentEach(ViewsOf(connections, ids), receives, m)
  {
    hide AfterSend;
  }

  function SentIf(v: Shared, receives: Receiver, m: Message): (r: Shared) { if receives(v) then AfterSend(v, m) else v }

  function SentEach(views: seq<Shared>, receives: Receiver, m: Message): (r: seq<Shared>) {
    seq(|views|, i requires 0 <= i < |views| => SentIf(views[i], receives, m))
  }

  predicate Accepts(v: Shared, receives: Receiver, m: Message) { receives(v) && !Enqueue(v.channel, m).closing }

  /** How many of some connections receive a message and have room for it. */
  function Accepting(views: seq<Shared>, receives: Receiver, m: Message): (r: nat) {
    if views == [] then 0 else Accepting(Init(views), receives, m) + if Accepts(Last(views), receives, m) then 1 else 0
  }

  lemma NobodyAccepts(receives: Receiver, m: Message)
    ensures Accepting([], receives, m) == 0
  {
  }

  lemma OneMoreAccepts(views: seq<Shared>, i: nat, receives: Receiver, m: Message)
    requires i < |views|
    ensures Accepting(views[..i + 1], receives, m)
         == Accepting(views[..i], receives, m) + if Accepts(views[i], receives, m) then 1 else 0
  {
    assert Init(views[..i + 1]) == views[..i];
  }

  lemma EachIsSent(views: seq<Shared>, was: seq<Shared>, receives: Receiver, m: Message)
    requires |views| == |was| && forall i | 0 <= i < |was| :: views[i] == SentIf(was[i], receives, m)
    ensures views == SentEach(was, receives, m)
  {
    hide SentIf;
  }

  /** A change of state reaches whoever is logged in; one that is none reaches nobody. */
  function HearsOf(before: ProjectState, after: ProjectState): (r: Receiver) {
    (v: Shared) => before != after && v.committed
  }

  lemma NobodyHears(views: seq<Shared>, state: ProjectState, m: Message)
    ensures SentEach(views, HearsOf(state, state), m) == views
  {
  }

  /** Whom a client message is for: one login name, or everybody who is logged in. */
  predicate Receives(message: ClientMessage, v: Shared) {
    v.committed && !v.closeStarted && (message.login == [] || v.name == message.login)
  }

  function Hears(message: ClientMessage): (r: Receiver) { (v: Shared) => Receives(message, v) }

  ghost predicate Registry(s: State) {
    (forall i | 0 <= i < |s.registry| :: s.registry[i] in s.connections) && Unique(s.registry)
  }

  lemma RegistryRest(s: State, next: nat)
    requires Registry(s) && next < |s.registry|
    ensures s.registry[next] in s.connections && s.registry[next] !in s.registry[next + 1..]
    ensures s.registry[next..] != [] && s.registry[next..][0] == s.registry[next]
    ensures s.registry[next..][1..] == s.registry[next + 1..]
  {
  }

  /** One connection more, whether or not it receives the message: an uninterrupted run of Server steps. */
  lemma OneMore(s: State, act: ServeAct, target: Id, m: Message, skips: bool, then_: Stage)
      returns (acts: seq<ServeAct>)
    requires s.server.Serving? && target in s.connections && (act.PublishNext? || act.RouteNext?)
    requires ServeNext(s, act) == Some(if skips then At(s, then_) else Deliver(s, target, m, then_))
    ensures var k := s.connections[target];
            Serve(s, acts) == Some(if skips then At(s, then_)
                                   else At(Put(s, target, With(k, AfterSend(SharedOf(k), m))), then_))
    ensures Keeps(acts)
  {
    hide ServeNext, Deliver, AfterSend;
    assert [act][1..] == [];
    if skips {
      acts := [act];
    } else {
      var more := DeliverActions(s, target, m);
      DeliverIsSend(s, target, m, then_);
      ServeSum(s, [act], more);
      acts := [act] + more;
    }
  }

  lemma {:induction false} PublishServes(s: State, old_: ProjectState, next: nat) returns (acts: seq<ServeAct>)
    requires s.server.Serving? && s.server.at == Publishing(old_, next) && next <= |s.registry| && Registry(s)
    ensures var told := SentTo(s.connections, s.registry[next..], HearsOf(old_, s.project),
            ServerState(old_, s.project));
            Serve(s, acts) == Some(At(s, Leaving).(connections := told))
    ensures Keeps(acts)
    decreases |s.registry| - next
  {
    hide ServeNext, Deliver, AfterSend;
    var m, hears := ServerState(old_, s.project), HearsOf(old_, s.project);
    if old_ == s.project || next == |s.registry| {
      assert ServeNext(s, PublishNext) == Some(At(s, Leaving)) by {
        PublishEnds(s);
      }
      acts := [PublishNext];
      assert acts[1..] == [];
      SentToNobody(s.connections, s.registry[next..], hears, m);
    } else {
      var target := s.registry[next];
      RegistryRest(s, next);
      SentToFirst(s.connections, s.registry[next..], hears, m);
      PublishGoesOn(s);
      var first := OneMore(s, PublishNext, target, m, !s.connections[target].committed, Publishing(old_, next + 1));
      var after := Serve(s, first).value;
      var more := PublishServes(after, old_, next + 1);
      ServeSum(s, first, more);
      acts := first + more;
    }
  }

  lemma PublishEnds(s: State)
    requires s.server.Serving? && s.server.at.Publishing?
    requires s.server.at.old_ == s.project || s.server.at.next >= |s.registry|
    ensures ServeNext(s, PublishNext) == Some(At(s, Leaving))
  {
  }

  lemma PublishGoesOn(s: State)
    requires s.server.Serving? && s.server.at.Publishing? && s.server.at.old_ != s.project
    requires s.server.at.next < |s.registry| && s.registry[s.server.at.next] in s.connections
    ensures var old_, next := s.server.at.old_, s.server.at.next;
            var target := s.registry[next];
            ServeNext(s, PublishNext)
            == Some(if !s.connections[target].committed then At(s, Publishing(old_, next + 1))
                    else Deliver(s, target, ServerState(old_, s.project), Publishing(old_, next + 1)))
  {
    hide Deliver;
  }

  lemma {:induction false} RouteServes(s: State, message: ClientMessage, next: nat) returns (acts: seq<ServeAct>)
    requires s.server.Serving? && s.server.at == Routing(next) && next <= |s.registry| && Registry(s)
    requires s.server.m.Asked? && s.server.m.ask == AskClient(message) && s.server.m.c in s.connections
    ensures var m := ClientAction(s.connections[s.server.m.c].name, message.arg, message.parameters);
            var told := SentTo(s.connections, s.registry[next..], Hears(message), m);
            var done := Responding(Response(s.server.m.request, true, true, NoPayload, []), s.project);
            Serve(s, acts) == Some(At(s, done).(connections := told))
    ensures Keeps(acts)
    decreases |s.registry| - next
  {
    hide ServeNext, Deliver, AfterSend, Receives;
    var m, hears := ClientAction(s.connections[s.server.m.c].name, message.arg, message.parameters), Hears(message);
    if next == |s.registry| {
      RouteEnds(s);
      acts := [RouteNext(false)];
      assert acts[1..] == [];
      SentToNobody(s.connections, s.registry[next..], hears, m);
    } else {
      var target := s.registry[next];
      RegistryRest(s, next);
      SentToFirst(s.connections, s.registry[next..], hears, m);
      RouteGoesOn(s);
      var k := s.connections[target];
      var first := OneMore(s, RouteNext(k.closeStarted), target, m, !Receives(message, SharedOf(k)), Routing(next + 1));
      SendKeepsName(k, m);
      var after := Serve(s, first).value;
      var more := RouteServes(after, message, next + 1);
      ServeSum(s, first, more);
      acts := first + more;
    }
  }

  lemma SendKeepsName(k: Connection, m: Message)
    ensures With(k, AfterSend(SharedOf(k), m)).name == k.name
  {
    hide Enqueue;
  }

  lemma RouteEnds(s: State)
    requires s.server.Serving? && s.server.at.Routing? && s.server.m.Asked? && s.server.m.ask.AskClient?
    requires s.server.at.next >= |s.registry|
    ensures ServeNext(s, RouteNext(false))
         == Some(At(s, Responding(Response(s.server.m.request, true, true, NoPayload, []), s.project)))
  {
  }

  lemma RouteGoesOn(s: State)
    requires s.server.Serving? && s.server.at.Routing? && s.server.m.Asked? && s.server.m.ask.AskClient?
    requires s.server.m.c in s.connections
    requires s.server.at.next < |s.registry| && s.registry[s.server.at.next] in s.connections
    ensures var message, next := s.server.m.ask.message, s.server.at.next;
            var k := s.connections[s.registry[next]];
            var m := ClientAction(s.connections[s.server.m.c].name, message.arg, message.parameters);
            ServeNext(s, RouteNext(k.closeStarted))
            == Some(if !Receives(message, SharedOf(k)) then At(s, Routing(next + 1))
                    else Deliver(s, s.registry[next], m, Routing(next + 1)))
  {
    hide Deliver;
  }

  // ----- runs of the machine -----

  /**
   * When nothing comes between its steps, publishing is a run of the machine that does to the views
   * of the registered connections what publishing does to the objects, and nothing else.
   */
  lemma PublishIsSend(encode: Encoder, s: State, old_: ProjectState) returns (acts: seq<ServeAct>)
    requires s.server.Serving? && s.server.at == Publishing(old_, 0) && Registry(s)
    ensures RunOf(encode, s, Server(acts)).Some?
    ensures var end := RunOf(encode, s, Server(acts)).value;
            && end == At(s, Leaving).(connections := end.connections)
            && OnlyViews(s.connections, end.connections, s.registry)
            && ViewsOf(end.connections, s.registry)
               == SentEach(ViewsOf(s.connections, s.registry), HearsOf(old_, s.project), ServerState(old_, s.project))
  {
    hide Serve, RunOf, SentTo, SentEach, OnlyViews, AfterSend;
    acts := PublishServes(s, old_, 0);
    assert s.registry[0..] == s.registry;
    ServeIsRun(encode, s, acts);
    SentToIsSentEach(s.connections, s.registry, HearsOf(old_, s.project), ServerState(old_, s.project));
  }

  /** So is routing, which ends with the answer to the sender. */
  lemma RouteIsSend(encode: Encoder, s: State, message: ClientMessage) returns (acts: seq<ServeAct>)
    requires s.server.Serving? && s.server.at == Routing(0) && Registry(s)
    requires s.server.m.Asked? && s.server.m.ask == AskClient(message) && s.server.m.c in s.connections
    ensures RunOf(encode, s, Server(acts)).Some?
    ensures var end := RunOf(encode, s, Server(acts)).value;
            var done := Responding(Response(s.server.m.request, true, true, NoPayload, []), s.project);
            var m := ClientAction(s.connections[s.server.m.c].name, message.arg, message.parameters);
            && end == At(s, done).(connections := end.connections)
            && OnlyViews(s.connections, end.connections, s.registry)
            && ViewsOf(end.connections, s.registry) == SentEach(ViewsOf(s.connections, s.registry), Hears(message), m)
  {
    hide Serve, RunOf, SentTo, SentEach, OnlyViews, AfterSend;
    acts := RouteServes(s, message, 0);
    assert s.registry[0..] == s.registry;
    ServeIsRun(encode, s, acts);
    SentToIsSentEach(s.connections, s.registry, Hears(message),
      ClientAction(s.connections[s.server.m.c].name, message.arg, message.parameters));
  }
}
