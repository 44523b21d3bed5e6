/**
 * The connection object, the control queue and the registry. ConnectionViews says of which steps of
 * the protocol each operation is made.
 */
module Connections {
  import opened Bytes
  import opened Wrappers
  import opened Outbound
  import opened OutboundChannel
  import opened ConnectionViews
  import Protocol

  /** The FIFO control queue. */
  class RequestQueue {
    var queue: seq<Protocol.Control>
    var accepting: bool

    constructor ()
      ensures queue == [] && accepting
    {
      queue, accepting := [], true;
    }

    method Push(request: Protocol.Control) returns (ok: bool)
      modifies this
      ensures ok == old(accepting) == accepting
      ensures queue == if ok then old(queue) + [request] else old(queue)
    {
      if !accepting {
        return false;
      }
      queue := queue + [request];
      return true;
    }

    /** The locked part of waiting: what the wait returns once it may. */
    method Pop() returns (output: Option<Protocol.Control>)
      modifies this
      ensures accepting == old(accepting)
      ensures if old(queue) == [] then output == None && queue == []
              else output.Some? && [output.value] + queue == old(queue)
      ensures forall s: Protocol.State | s.queue == old(queue) && s.server.Looping? ::
        Protocol.ServeNext(s, Protocol.Pop)
        == match output
           case None => None
           case Some(m) => Some(s.(server := Protocol.Serving(m, Protocol.Got), queue := queue))
    {
      if |queue| == 0 {
        return None;
      }
      output := Some(queue[0]);
      queue := queue[1..];
    }

    method StopAcceptingAndDiscard()
      modifies this
      ensures !accepting && queue == []
    {
      accepting := false;
      queue := [];
    }
  }

  class ConnectionObject {
    const id: Protocol.Id
    const outbound: ChannelObject
    var committed: bool
    var name: bytes
    var closeStarted: bool
    var outstanding: set<nat>

    /** What the protocol's connection shares with this object. */
    ghost function View(): (v: Shared)
      reads this, outbound
    {
      Shared(committed, name, closeStarted, outbound.Value(), outstanding)
    }

    ghost predicate Valid()
      reads this, outbound
    {
      outbound.Valid() && 0 !in outstanding
    }

    constructor (id: Protocol.Id)
      ensures Valid() && this.id == id && View() == SharedOf(Protocol.Created()) && fresh(outbound)
    {
      hide ChannelOk, Fresh;
      this.id := id;
      outbound := new ChannelObject(Protocol.OUTBOUND_BUDGET);
      committed, name, closeStarted, outstanding := false, [], false, {};
    }

    method BeginClose() returns (first: bool)
      requires Valid()
      modifies this`closeStarted, outbound
      ensures Valid() && View() == AfterClose(old(View())) && first == !old(closeStarted)
      ensures forall c, k: Protocol.Connection | k.io.Marking? && SharedOf(k) == old(View()) ::
        CloseSteps(c, k) == Protocol.Stay(With(k, View()).(io := Protocol.Io.Idle))
    {
      forall c, k: Protocol.Connection | k.io.Marking?
        ensures CloseSteps(c, k) == Protocol.Stay(With(k, AfterClose(SharedOf(k))).(io := Protocol.Io.Idle))
      {
        CloseIsTwoSteps(c, k);
      }
      first := !closeStarted;
      closeStarted := true;
      var _ := outbound.Close();
    }

    method EnqueueMessage(m: Message) returns (ok: bool)
      requires Valid()
      modifies this`closeStarted, outbound
      ensures Valid() && View() == AfterSend(old(View()), m) && ok == !outbound.isClosing
      ensures forall c, k: Protocol.Connection | k.io == Protocol.Answering(m) && SharedOf(k) == old(View()) ::
        AnswerSteps(c, k) == Protocol.Stay(With(k, View()).(io := Protocol.Io.Idle))
    {
      forall c, k: Protocol.Connection | k.io == Protocol.Answering(m)
        ensures AnswerSteps(c, k) == Protocol.Stay(With(k, AfterSend(SharedOf(k), m)).(io := Protocol.Io.Idle))
      {
        AnswerIsSend(c, k);
      }
      hide AnswerSteps, CloseSteps;
      ok := outbound.EnqueueMessage(m);
      if !ok {
        var _ := BeginClose();
      }
    }

    method EnqueueResponse(request: U64, succeeded: bool, payload: Payload, diagnostics: seq<Diagnostic>, release: bool)
      returns (ok: bool)
      requires Valid()
      modifies this`closeStarted, outbound
      ensures Valid() && ok == !outbound.isClosing
      ensures View() == AfterSend(old(View()), Response(request, release, succeeded, payload, diagnostics))
    {
      ok := EnqueueMessage(Response(request, release, succeeded, payload, diagnostics));
    }

    method EnqueueServerState(before: ProjectState, after: ProjectState) returns (ok: bool)
      requires Valid()
      modifies this`closeStarted, outbound
      ensures Valid() && ok == (committed && !outbound.isClosing)
      ensures View() == if committed then AfterSend(old(View()), ServerState(before, after)) else old(View())
    {
      if !committed {
        return false;
      }
      ok := EnqueueMessage(ServerState(before, after));
    }

    method EnqueueClientAction(from: bytes, arg: bytes, parameters: bytes) returns (ok: bool)
      requires Valid()
      modifies this`closeStarted, outbound
      ensures Valid() && ok == (committed && !outbound.isClosing)
      ensures View() == if committed then AfterSend(old(View()), ClientAction(from, arg, parameters)) else old(View())
    {
      if !committed {
        return false;
      }
      ok := EnqueueMessage(ClientAction(from, arg, parameters));
    }

    method ReserveRequest(request: U64) returns (ok: bool)
      modifies this`outstanding
      ensures View() == AfterReserve(old(View()), request) && ok == MayReserve(old(View()), request)
      ensures forall k: Protocol.Connection, ask | k.io.Idle? && request != 0 && SharedOf(k) == old(View()) ::
        Protocol.ReserveStep(k, request, ask) == Protocol.Stay(With(k, View()).(io := IoAfterReserve(ok, request, ask)))
      ensures old(Valid()) ==> Valid()
    {
      forall k: Protocol.Connection, ask | k.io.Idle? && request != 0
        ensures Protocol.ReserveStep(k, request, ask)
             == Protocol.Stay(With(k, AfterReserve(SharedOf(k), request))
                              .(io := IoAfterReserve(MayReserve(SharedOf(k), request), request, ask)))
      {
        ReserveIsStep(k, request, ask);
      }
      hide Protocol.ReserveStep;
      if request == 0 || closeStarted || request in outstanding {
        return false;
      }
      outstanding := outstanding + {request};
      return true;
    }

    method ReleaseRequest(request: U64)
      modifies this`outstanding
      ensures View() == if request == 0 then old(View()) else old(View()).(outstanding := old(outstanding) - {request})
      ensures old(Valid()) ==> Valid()
    {
      if request == 0 {
        return;
      }
      outstanding := outstanding - {request};
    }

    /** The two locked sections of taking a message: out of the channel, then its id out of the set. */
    method TryNextMessage() returns (output: Option<Write>)
      requires Valid()
      modifies this`outstanding, outbound
      ensures Valid() && output == TryNext(old(outbound.Value())) && View() == AfterTake(old(View()))
      ensures forall k: Protocol.Connection
        | k.io.Idle? && k.sendBuffer == [] && k.sending.None? && SharedOf(k) == old(View()) ::
        TakeSteps(k) == Protocol.Stay(With(k, View()).(
          io := if output.Some? then Protocol.Encoding(output.value) else Protocol.Io.Idle))
    {
      forall k: Protocol.Connection | k.io.Idle? && k.sendBuffer == [] && k.sending.None?
        ensures TakeSteps(k) == Protocol.Stay(With(k, AfterTake(SharedOf(k))).(
          io := if TryNext(k.channel).Some? then Protocol.Encoding(TryNext(k.channel).value) else Protocol.Io.Idle))
      {
        TakeIsTwoSteps(k);
      }
      hide TakeSteps;
      output := outbound.TryNextMessage();
      if output.Some? && output.value.message.Response? && output.value.message.release {
        ReleaseRequest(output.value.message.request);
      }
    }

    method CommitLogin(value: bytes) returns (ok: bool)
      modifies this`committed, this`name
      ensures View() == AfterLogin(old(View()), value) && ok == MayLogIn(old(View()), value)
      ensures forall s: Protocol.State, c | LogsIn(s, c, value) && SharedOf(s.connections[c]) == old(View()) ::
        Protocol.CommitStep(s, old(closeStarted)) == Some(AfterCommit(s, c, ok, View()))
    {
      forall s: Protocol.State, c | LogsIn(s, c, value)
        ensures var v := SharedOf(s.connections[c]);
                Protocol.CommitStep(s, v.closeStarted)
                == Some(AfterCommit(s, c, MayLogIn(v, value), AfterLogin(v, value)))
      {
        CommitIsStep(s, c, value);
      }
      hide Protocol.CommitStep, AfterCommit;
      if closeStarted || committed || value == [] || |value| > Protocol.MAX_NAME {
        return false;
      }
      name := value;
      committed := true;
      return true;
    }
  }

  /** No two are one connection, nor have one id or one channel. */
  ghost predicate Apart(connections: seq<ConnectionObject>) {
    forall i, j | 0 <= i < j < |connections| ::
      connections[i] != connections[j] && connections[i].outbound != connections[j].outbound
      && connections[i].id != connections[j].id
  }

  /** The registry of logged-in connections; it does not own them. */
  class Registry {
    var connections: seq<ConnectionObject>

    ghost predicate Valid()
      reads this, connections, Channels()
    {
      Apart(connections) && forall i | 0 <= i < |connections| :: connections[i].Valid()
    }

    ghost function Channels(): (r: set<object>)
      reads this
    {
      set k | k in connections :: k.outbound
    }

    /** The ids in the order of registration, as the protocol's registry holds them. */
    function Ids(): (r: seq<Protocol.Id>)
      reads this
    {
      seq(|connections|, i requires 0 <= i < |connections| reads this => connections[i].id)
    }

    constructor ()
      ensures Valid() && connections == []
    {
      connections := [];
    }

    method RegisterConnection(connection: ConnectionObject) returns (ok: bool)
      requires Valid() && connection.Valid()
      requires forall i | 0 <= i < |connections| ::
        connections[i].outbound == connection.outbound ==> connections[i] == connection
      modifies this
      ensures Valid() && (ok <==> connection.id !in old(Ids()))
      ensures connections == if ok then old(connections) + [connection] else old(connections)
      ensures Ids() == if ok then old(Ids()) + [connection.id] else old(Ids())
    {
      var i := 0;
      while i < |connections|
        invariant 0 <= i <= |connections|
        invariant forall j | 0 <= j < i :: connections[j].id != connection.id
      {
        if connections[i] == connection || connections[i].id == connection.id {
          assert Ids()[i] == connection.id;
          return false;
        }
        i := i + 1;
      }
      connections := connections + [connection];
      return true;
    }

    method UnregisterConnection(id: Protocol.Id)
      requires Valid()
      modifies this
      ensures Valid() && Ids() == Protocol.Without(old(Ids()), id)
      ensures if id !in old(Ids()) then connections == old(connections)
              else exists i :: 0 <= i < |old(connections)| && old(connections)[i].id == id
                     && connections == old(connections)[..i] + old(connections)[i + 1..]
    {
      hide ChannelOk, Protocol.Without;
      var i := 0;
      while i < |connections|
        invariant 0 <= i <= |connections|
        invariant forall j | 0 <= j < i :: connections[j].id != id
      {
        if connections[i].id == id {
          WithoutFirst(Ids(), i, id);
          assert connections == connections[..i] + [connections[i]] + connections[i + 1..];
          connections := connections[..i] + connections[i + 1..];
          assert Ids() == old(Ids())[..i] + old(Ids())[i + 1..];
          return;
        }
        i := i + 1;
      }
      WithoutFirst(Ids(), i, id);
    }

    ghost function Views(): (r: seq<Shared>)
      reads this, connections, Channels()
    {
      seq(|connections|, i requires 0 <= i < |connections| reads this, connections, Channels() => connections[i].View())
    }

    /** Each logged-in connection is sent the change once; nobody is when nothing changed. */
    method PublishServerState(before: ProjectState, after: ProjectState)
      requires Valid()
      modifies connections, Channels()
      ensures connections == old(connections) && Valid()
      ensures Views() == SentEach(old(Views()), HearsOf(before, after), ServerState(before, after))
    {
      hide SentIf, SentEach, ChannelOk, Apart, HearsOf, ConnectionObject.Valid;
      ghost var was, m := Views(), ServerState(before, after);
      if before == after {
        NobodyHears(was, before, m);
        return;
      }
      var i := 0;
      while i < |connections|
        invariant 0 <= i <= |connections|
        invariant forall j | 0 <= j < |connections| ::
          && connections[j].Valid()
          && connections[j].View() == if j < i then SentIf(was[j], HearsOf(before, after), m) else was[j]
      {
        ghost var now := Views();
        OneOf(connections, i);
        PublishOne(connections[i], before, after);
        assert forall j | 0 <= j < |connections| && j != i :: connections[j].View() == now[j];
        i := i + 1;
      }
      EachIsSent(Views(), was, HearsOf(before, after), m);
    }

    /** One turn of the publishing loop. */
    method PublishOne(k: ConnectionObject, before: ProjectState, after: ProjectState)
      requires k.Valid() && before != after
      modifies k`closeStarted, k.outbound
      ensures k.Valid() && k.View() == SentIf(old(k.View()), HearsOf(before, after), ServerState(before, after))
    {
      hide AfterSend, ChannelOk;
      if k.committed {
        var _ := k.EnqueueServerState(before, after);
      }
    }

    /** The action goes to each connection it is for, and those that accept it are counted. */
    method RouteClient(sender: ConnectionObject, message: Protocol.ClientMessage) returns (routed: nat)
      requires Valid()
      modifies connections, Channels()
      ensures connections == old(connections) && Valid()
      ensures var m, sends :=
              ClientAction(old(sender.name), message.arg, message.parameters),
                  old(sender.committed && !sender.closeStarted);
              && Views() == (if sends then SentEach(old(Views()), Hears(message), m) else old(Views()))
              && routed == if sends then Accepting(old(Views()), Hears(message), m) else 0
    {
      hide SentIf, SentEach, ChannelOk, Hears, Accepting, Apart, ConnectionObject.Valid, ConnectionObject.View;
      if !sender.committed || sender.closeStarted {
        return 0;
      }
      routed := RouteFrom(sender.name, message);
    }

    /** The routing loop; the sender's name has been copied before it. */
    method RouteFrom(from: bytes, message: Protocol.ClientMessage) returns (routed: nat)
      requires Valid()
      modifies connections, Channels()
      ensures connections == old(connections) && Valid()
      ensures var m := ClientAction(from, message.arg, message.parameters);
              Views() == SentEach(old(Views()), Hears(message), m)
                  && routed == Accepting(old(Views()), Hears(message), m)
    {
      hide SentIf, SentEach, ChannelOk, Hears, Accepts, Accepting, Apart, ConnectionObject.Valid;
      routed := 0;
      ghost var was := Views();
      ghost var m := ClientAction(from, message.arg, message.parameters);
      var i := 0;
      NobodyAccepts(Hears(message), m);
      while i < |connections|
        invariant 0 <= i <= |connections|
        invariant forall j | 0 <= j < |connections| ::
          connections[j].Valid() && connections[j].View() == if j < i then SentIf(was[j], Hears(message), m) else was[j]
        invariant routed == Accepting(was[..i], Hears(message), m)
      {
        ghost var now := Views();
        OneOf(connections, i);
        OneMoreAccepts(was, i, Hears(message), m);
        var ok := RouteOne(connections[i], from, message);
        assert forall j | 0 <= j < |connections| && j != i :: connections[j].View() == now[j];
        if ok {
          routed := routed + 1;
        }
        i := i + 1;
      }
      assert was[..i] == was;
      EachIsSent(Views(), was, Hears(message), m);
    }

    /** One turn of the routing loop. */
    method RouteOne(k: ConnectionObject, from: bytes, message: Protocol.ClientMessage) returns (ok: bool)
      requires k.Valid()
      modifies k`closeStarted, k.outbound
      ensures k.Valid()
              && k.View() == SentIf(old(k.View()), Hears(message), ClientAction(from, message.arg, message.parameters))
      ensures ok == Accepts(old(k.View()), Hears(message), ClientAction(from, message.arg, message.parameters))
    {
      hide Enqueue, ChannelOk;
      if !k.committed || k.closeStarted {
        return false;
      }
      if message.login != [] && k.name != message.login {
        return false;
      }
      ok := k.EnqueueClientAction(from, message.arg, message.parameters);
    }
  }

  lemma OneOf(connections: seq<ConnectionObject>, i: nat)
    requires Apart(connections) && i < |connections|
    ensures connections[i] in connections && connections[i].outbound in set k | k in connections :: k.outbound
    ensures forall j | 0 <= j < |connections| && j != i ::
      connections[j] != connections[i] && connections[j].outbound != connections[i].outbound
  {
  }

  lemma {:induction false} WithoutFirst(ids: seq<Protocol.Id>, i: nat, id: Protocol.Id)
    requires i <= |ids| && (i < |ids| ==> ids[i] == id) && forall j | 0 <= j < i :: ids[j] != id
    ensures Protocol.Without(ids, id) == if i < |ids| then ids[..i] + ids[i + 1..] else ids
    decreases |ids|
  {
    if i > 0 {
      WithoutFirst(ids[1..], i - 1, id);
      assert ids == [ids[0]] + ids[1..];
      if i < |ids| {
        assert ids[..i] == [ids[0]] + ids[1..][..i - 1] && ids[1..][i..] == ids[i + 1..];
      }
    }
  }
}
