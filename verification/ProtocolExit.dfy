/**
 * The end of the run loop. The queue then refuses messages and drops those that wait in it, close
 * messages among them, while transport threads go on; afterwards every registered connection is
 * closed through its raw pointer. From the drop on a connection is referred to by its own peer and
 * by nothing else, so the pointer is good exactly as long as the peer has not been erased, and a
 * peer whose close message was still waiting may have been.
 */
module ProtocolExit {
  import opened Wrappers
  import opened Outbound
  import opened Protocol
  import opened ProtocolLifetime

  /** What is left of the machine once the Server thread is out of its loop. */
  datatype Ending = Ending(connections: map<Id, Connection>, queue: seq<Control>, registry: seq<Id>, accepting: bool)

  function EndingOf(s: State): (r: Ending) { Ending(s.connections, s.queue, s.registry, true) }

  datatype EndAct = Discard | EndOfPeer(c: Id, io: IoAct)

  /** The messages of a queue are destroyed one after the other. */
  function ReleaseAll(connections: map<Id, Connection>, queue: seq<Control>): (r: Option<map<Id, Connection>>)
    decreases |queue|
  {
    if queue == [] then Some(connections)
    else
      match Released(connections, queue[0])
      case None => None
      case Some(next) => ReleaseAll(next, queue[1..])
  }

  /**
   * A message that the queue refuses is destroyed; the id it carried is free again and the peer is
   * closed. A refused close message leaves the peer to be closed without one.
   */
  function RefusedPush(k: Connection, m: Control): (r: Option<Connection>) {
    if k.references == 0 then None
    else
      var dropped := k.(references := k.references - 1);
      Some(match m
           case Asked(_, request, _) => dropped.(outstanding := k.outstanding - {request}, io := ShutMarking)
           case _ => dropped)
  }

  function EndPeerNext(encode: Encoder, e: Ending, c: Id, io: IoAct): (r: Option<Ending>) {
    if c !in e.connections then None
    else
      match IoNext(encode, c, e.connections[c], io)
      case Blocked => None
      case Moved(k, pushed) =>
        if pushed == [] || e.accepting then Some(e.(connections := e.connections[c := k], queue := e.queue + pushed))
        else
          match RefusedPush(k, pushed[0])
          case None => None
          case Some(refused) => Some(e.(connections := e.connections[c := refused]))
  }

  function DiscardNext(e: Ending): (r: Option<Ending>) {
    match ReleaseAll(e.connections, e.queue)
    case None => None
    case Some(connections) => Some(e.(connections := connections, queue := [], accepting := false))
  }

  function EndNext(encode: Encoder, e: Ending, a: EndAct): (r: Option<Ending>) {
    match a
    case Discard => DiscardNext(e)
    case EndOfPeer(c, io) => EndPeerNext(encode, e, c, io)
  }

  function EndRun(encode: Encoder, e: Ending, acts: seq<EndAct>): (r: Option<Ending>)
    decreases |acts|
  {
    if acts == [] then Some(e)
    else
      match EndNext(encode, e, acts[0])
      case None => None
      case Some(next) => EndRun(encode, next, acts[1..])
  }

  // ----- references once the loop has ended -----

  predicate CountedOne(k: Connection, c: Id, queue: seq<Control>) { k.references == IoTokens(k.io) + |Of(queue, c)| }

  /** Each reference is the peer's own, or that of a message in the queue. */
  ghost predicate Counted(connections: map<Id, Connection>, queue: seq<Control>) {
    && (forall i | 0 <= i < |queue| && !queue[i].Console? :: queue[i].c in connections)
    && forall c | c in connections :: CountedOne(connections[c], c, queue)
  }

  ghost predicate EndOk(e: Ending) {
    && Counted(e.connections, e.queue) && (!e.accepting ==> e.queue == [])
    && forall i | 0 <= i < |e.registry| :: e.registry[i] in e.connections
  }

  /** Leaving the loop releases the message in hand, and only the queue's references are left. */
  lemma ExitCounts(s: State, act: ServeAct)
    requires LifetimeInv(s) && !s.server.Exited? && ServeNext(s, act).Some? && ServeNext(s, act).value.server.Exited?
    ensures EndOk(EndingOf(ServeNext(s, act).value))
  {
    hide Of, TargetsOk, GoneStage, NoGone, Posted, IoTokens;
    OnlyLeavingEnds(s, act);
    var next := ServeNext(s, act).value;
    forall c | c in next.connections ensures CountedOne(next.connections[c], c, next.queue) {
      var k := s.connections[c];
      assert Living(c, k.io, k.references, Of(s.queue, c), HandOf(s, c), c in s.registry);
    }
  }

  lemma OnlyLeavingEnds(s: State, act: ServeAct)
    requires ServeNext(s, act).Some? && ServeNext(s, act).value.server.Exited? && !s.server.Exited?
    ensures act.Leave? || act.Exit?
  {
    hide Enqueue, Operate, Without, Close;
  }

  lemma {:induction false} RunsEndCounted(encode: Encoder, s: State, actions: seq<Action>)
    requires LifetimeInv(s) && !s.server.Exited?
    requires RunOf(encode, s, actions).Some? && RunOf(encode, s, actions).value.server.Exited?
    ensures EndOk(EndingOf(RunOf(encode, s, actions).value))
    decreases |actions|
  {
    hide ServeNext, IoNext, LifetimeInv, EndOk;
    var next := Next(encode, s, actions[0]).value;
    StepKeepsLifetime(encode, s, actions[0]);
    if next.server.Exited? {
      ExitedIsStill(encode, next, actions[1..]);
      ExitCounts(s, actions[0].act);
    } else {
      RunsEndCounted(encode, next, actions[1..]);
    }
  }

  lemma ExitedIsStill(encode: Encoder, s: State, actions: seq<Action>)
    requires s.server.Exited? && RunOf(encode, s, actions).Some?
    ensures RunOf(encode, s, actions) == Some(s)
  {
  }

  // ----- steps after the loop -----

  lemma ReleasedCounts(connections: map<Id, Connection>, m: Control, rest: seq<Control>)
    requires Counted(connections, [m] + rest)
    ensures Released(connections, m).Some? && Counted(Released(connections, m).value, rest)
    ensures Released(connections, m).value.Keys == connections.Keys
    ensures forall c | c in connections :: Released(connections, m).value[c].io == connections[c].io
  {
    var queue := [m] + rest;
    assert queue[0] == m && queue[1..] == rest;
    if !m.Console? {
      assert m.c in connections && CountedOne(connections[m.c], m.c, queue);
    }
    var next := Released(connections, m).value;
    forall c | c in next ensures CountedOne(next[c], c, rest) {
      assert CountedOne(connections[c], c, queue);
      assert [] + Of(rest, c) == Of(rest, c);
    }
    forall i | 0 <= i < |rest| && !rest[i].Console? ensures rest[i].c in next {
      assert queue[i + 1] == rest[i];
    }
  }

  lemma {:induction false} ReleaseAllCounts(connections: map<Id, Connection>, queue: seq<Control>)
    requires Counted(connections, queue)
    ensures ReleaseAll(connections, queue).Some? && Counted(ReleaseAll(connections, queue).value, [])
    ensures ReleaseAll(connections, queue).value.Keys == connections.Keys
    ensures forall c | c in connections :: ReleaseAll(connections, queue).value[c].io == connections[c].io
    decreases |queue|
  {
    hide Counted, Released;
    if queue != [] {
      assert queue == [queue[0]] + queue[1..];
      ReleasedCounts(connections, queue[0], queue[1..]);
      ReleaseAllCounts(Released(connections, queue[0]).value, queue[1..]);
    }
  }

  /** A step of a transport thread, as far as the references to its own connection are concerned. */
  lemma PeerMoveCounts(encode: Encoder, c: Id, k: Connection, io: IoAct, queue: seq<Control>)
    requires CountedOne(k, c, queue) && IoNext(encode, c, k, io).Moved?
    ensures var r := IoNext(encode, c, k, io);
            && CountedOne(r.k, c, queue + r.pushed) && |r.pushed| <= 1 && (r.pushed != [] ==> IsOf(r.pushed[0], c))
            && (r.pushed != []
               ==> RefusedPush(r.k, r.pushed[0]).Some? && CountedOne(RefusedPush(r.k, r.pushed[0]).value, c, queue))
  {
    hide IoNext, IoTokens, Posted;
    IoMoves(encode, c, k, io);
    var r := IoNext(encode, c, k, io);
    OfConcat(queue, r.pushed, c);
    if r.pushed == [] {
      assert queue + r.pushed == queue;
    } else {
      assert r.pushed == [r.pushed[0]];
      OfOne(r.pushed[0], c);
      PushLeaves(encode, c, k, io);
    }
  }

  /** After a push the transport holds no message, and a peer that is to be closed holds one reference like it. */
  lemma PushLeaves(encode: Encoder, c: Id, k: Connection, io: IoAct)
    requires IoNext(encode, c, k, io).Moved? && IoNext(encode, c, k, io).pushed != []
    ensures IoTokens(IoNext(encode, c, k, io).k.io) == 1 == IoTokens(ShutMarking)
  {
    hide Enqueue, TryNext, AfterNext, Close, MarkWritten, IsDuplicate;
  }

  lemma EndPeerKeeps(encode: Encoder, e: Ending, c: Id, io: IoAct)
    requires EndOk(e) && EndPeerNext(encode, e, c, io).Some?
    ensures EndOk(EndPeerNext(encode, e, c, io).value)
  {
    hide IoNext, RefusedPush, CountedOne, Of;
    var r := IoNext(encode, c, e.connections[c], io);
    var next := EndPeerNext(encode, e, c, io).value;
    PeerMoveCounts(encode, c, e.connections[c], io, e.queue);
    assert e.queue + [] == e.queue;
    forall d | d in next.connections ensures CountedOne(next.connections[d], d, next.queue) {
      assert CountedOne(e.connections[d], d, e.queue);
      if d != c && next.queue != e.queue {
        OfConcat(e.queue, r.pushed, d);
        OfOthers(r.pushed, c, d);
        SameCount(next.connections[d], d, e.queue, next.queue);
      }
    }
  }

  lemma SameCount(k: Connection, c: Id, queue: seq<Control>, next: seq<Control>)
    requires CountedOne(k, c, queue) && Of(next, c) == Of(queue, c) + []
    ensures CountedOne(k, c, next)
  {
  }

  lemma EndStepKeeps(encode: Encoder, e: Ending, a: EndAct)
    requires EndOk(e) && EndNext(encode, e, a).Some?
    ensures EndOk(EndNext(encode, e, a).value)
    ensures a.Discard? || !e.accepting ==> !EndNext(encode, e, a).value.accepting
    ensures EndNext(encode, e, a).value.registry == e.registry
  {
    hide IoNext, Counted, RefusedPush;
    match a
    case Discard => ReleaseAllCounts(e.connections, e.queue);
    case EndOfPeer(c, io) => EndPeerKeeps(encode, e, c, io);
  }

  lemma {:induction false} EndRunKeeps(encode: Encoder, e: Ending, acts: seq<EndAct>)
    requires EndOk(e) && EndRun(encode, e, acts).Some?
    ensures EndOk(EndRun(encode, e, acts).value)
    decreases |acts|
  {
    hide EndNext, EndOk;
    if acts != [] {
      EndStepKeeps(encode, e, acts[0]);
      EndRunKeeps(encode, EndNext(encode, e, acts[0]).value, acts[1..]);
    }
  }

  /**
   * Every run that leaves the loop, and every further run of the transport threads: the queue can be
   * dropped without releasing anything twice, and once it has been, a registered connection still has
   * a reference if and only if its peer has not been erased.
   */
  lemma RegisteredAfterDiscard(encode: Encoder, gateLimit: nat, actions: seq<Action>, acts: seq<EndAct>)
    requires RunOf(encode, Initial(gateLimit), actions).Some?
             && RunOf(encode, Initial(gateLimit), actions).value.server.Exited?
    requires EndRun(encode, EndingOf(RunOf(encode, Initial(gateLimit), actions).value), acts).Some?
    ensures var e := EndRun(encode, EndingOf(RunOf(encode, Initial(gateLimit), actions).value), acts).value;
            && EndNext(encode, e, Discard).Some?
            && (!e.accepting
               ==> forall c | c in e.connections :: e.connections[c].references == IoTokens(e.connections[c].io))
            && (!e.accepting ==> forall c | c in e.registry ::
                  c in e.connections && (e.connections[c].references >= 1 <==> !e.connections[c].io.Erased?))
  {
    hide RunOf, EndRun, Counted;
    RunsEndCounted(encode, Initial(gateLimit), actions);
    var start := EndingOf(RunOf(encode, Initial(gateLimit), actions).value);
    EndRunKeeps(encode, start, acts);
    var e := EndRun(encode, start, acts).value;
    ReleaseAllCounts(e.connections, e.queue);
    if !e.accepting {
      forall c | c in e.connections ensures e.connections[c].references == IoTokens(e.connections[c].io) {
        PeerAlone(e.connections, c);
      }
    }
  }

  lemma PeerAlone(connections: map<Id, Connection>, c: Id)
    requires Counted(connections, []) && c in connections
    ensures connections[c].references == IoTokens(connections[c].io)
  {
    assert CountedOne(connections[c], c, []);
  }

  // ----- a run after which a registered pointer is no longer good -----

  const CLIENT: Id := 1
  const LOGIN: Ask := AskLogin([0x61])
  const GREETING: Message := Response(1, true, true, StateOf(Unloaded), [])

  function OnePeer(k: Connection, queue: seq<Control>, server: Server, registry: seq<Id>, gateActive: nat): (r: State) {
    State(map[CLIENT := k], 2, queue, registry, server, Unloaded, false, true, 1, gateActive, 0)
  }

  /** The peer as it has asked to log in, once its answer waits in the channel, and once it has been erased. */
  const ASKING: Connection := Created().(references := 2, outstanding := {1})
  const ANSWERED: Connection :=
    Created().(committed := true, name := [0x61], outstanding := {1},
               channel := Enqueue(Fresh(OUTBOUND_BUDGET), GREETING))
  const ERASED: Connection :=
      ANSWERED.(closeStarted := true, channel := Close(ANSWERED.channel), gateAcquired := false, io := Erased)

  lemma OnlyPeer()
    ensures forall k: Connection, next: Connection :: map[CLIENT := k][CLIENT := next] == map[CLIENT := next]
  {
  }

  /** A step of the only peer, and what follows it. */
  lemma PeerThen(encode: Encoder, k: Connection, io: IoAct, next: Connection, pushed: seq<Control>, registry: seq<Id>,
      rest: seq<Action>, last: State)
    requires IoNext(encode, CLIENT, k, io) == Moved(next, pushed) && !io.ReleaseGate?
    requires RunOf(encode, OnePeer(next, pushed, Looping, registry, 1), rest) == Some(last)
    ensures RunOf(encode, OnePeer(k, [], Looping, registry, 1), [OfPeer(CLIENT, io)] + rest) == Some(last)
  {
    hide IoNext, RunOf;
    OnlyPeer();
    assert [] + pushed == pushed;
    Then(encode, OnePeer(k, [], Looping, registry, 1), OfPeer(CLIENT, io),
         OnePeer(next, pushed, Looping, registry, 1), rest, last);
  }

  /** A step of the Server with the only peer's message, and what follows it. */
  lemma ServerThen(encode: Encoder, k: Connection, at: Stage, registry: seq<Id>, act: ServeAct, next: Connection,
      then_: Stage, more: seq<Id>, rest: seq<Action>, last: State)
    requires var m := Asked(CLIENT, 1, LOGIN);
             && ServeNext(OnePeer(k, [], Serving(m, at), registry, 1), act)
                == Some(OnePeer(k, [], Serving(m, then_), more, 1).(connections := map[CLIENT := k][CLIENT := next]))
             && RunOf(encode, OnePeer(next, [], Serving(m, then_), more, 1), rest) == Some(last)
    ensures RunOf(encode, OnePeer(k, [], Serving(Asked(CLIENT, 1, LOGIN), at), registry, 1), [OfServer(act)] + rest)
            == Some(last)
  {
    hide ServeNext, RunOf;
    OnlyPeer();
    var m := Asked(CLIENT, 1, LOGIN);
    Then(encode, OnePeer(k, [], Serving(m, at), registry, 1), OfServer(act),
        OnePeer(next, [], Serving(m, then_), more, 1), rest, last);
  }

  lemma Arrives(encode: Encoder, rest: seq<Action>, last: State)
    requires RunOf(encode, OnePeer(Created(), [], Looping, [], 1), rest) == Some(last)
    ensures RunOf(encode, Initial(1), [Admit] + ([Connect] + rest)) == Some(last)
  {
    hide RunOf;
    var admitted := Initial(1).(gateActive := 1, admitted := 1);
    assert Put(admitted, 1, Created()).connections == map[CLIENT := Created()];
    Then(encode, admitted, Connect, OnePeer(Created(), [], Looping, [], 1), rest, last);
    Then(encode, Initial(1), Admit, admitted, [Connect] + rest, last);
  }

  lemma AsksToLogIn(encode: Encoder) returns (actions: seq<Action>)
    ensures RunOf(encode, Initial(1), actions) == Some(OnePeer(ASKING, [Asked(CLIENT, 1, LOGIN)], Looping, [], 1))
  {
    hide RunOf;
    var k, m := Created(), Asked(CLIENT, 1, LOGIN);
    var last := OnePeer(ASKING, [m], Looping, [], 1);
    var reserved := k.(outstanding := {1}, io := Reserved(1, LOGIN));
    var cleared := reserved.(io := Cleared(1, LOGIN));
    var held := cleared.(references := 2, io := Holding(1, LOGIN));
    RunOfNothing(encode, last);
    PeerThen(encode, held, Push, ASKING, [m], [], [], last);
    actions := [OfPeer(CLIENT, Push)] + [];
    PeerThen(encode, cleared, IoAct.Hold, held, [], [], actions, last);
    actions := [OfPeer(CLIENT, IoAct.Hold)] + actions;
    PeerThen(encode, reserved, CheckLogin, cleared, [], [], actions, last);
    actions := [OfPeer(CLIENT, CheckLogin)] + actions;
    PeerThen(encode, k, Reserve(1, LOGIN), reserved, [], [], actions, last);
    actions := [OfPeer(CLIENT, Reserve(1, LOGIN))] + actions;
    Arrives(encode, actions, last);
    actions := [Admit] + ([Connect] + actions);
  }

  lemma IsLoggedIn(encode: Encoder) returns (actions: seq<Action>)
    ensures RunOf(encode, OnePeer(ASKING, [Asked(CLIENT, 1, LOGIN)], Looping, [], 1), actions)
         == Some(OnePeer(ANSWERED, [], Looping, [CLIENT], 1))
  {
    hide RunOf;
    var m := Asked(CLIENT, 1, LOGIN);
    var named := ASKING.(committed := true, name := [0x61]);
    var told := ANSWERED.(references := 2);
    var last := OnePeer(ANSWERED, [], Looping, [CLIENT], 1);
    RunOfNothing(encode, last);
    OnlyPeer();
    Then(encode, OnePeer(told, [], Serving(m, Leaving), [CLIENT], 1), OfServer(Leave), last, [], last);
    actions := [OfServer(Leave)] + [];
    RespondsToLogin(named, told);
    ServerThen(encode, named, Responding(GREETING, Unloaded), [CLIENT], Respond, told, Leaving, [CLIENT], actions,
        last);
    actions := [OfServer(Respond)] + actions;
    assert map[CLIENT := named][CLIENT := named] == map[CLIENT := named] && [] + [CLIENT] == [CLIENT];
    ServerThen(encode, named, Registering, [], Register, named, Responding(GREETING, Unloaded), [CLIENT], actions,
        last);
    actions := [OfServer(Register)] + actions;
    ServerThen(encode, ASKING, Got, [], CommitLogin(false), named, Registering, [], actions, last);
    actions := [OfServer(CommitLogin(false))] + actions;
    assert [m][1..] == [];
    Then(encode, OnePeer(ASKING, [m], Looping, [], 1), OfServer(Pop), OnePeer(ASKING, [], Serving(m, Got), [], 1),
        actions, last);
    actions := [OfServer(Pop)] + actions;
  }

  lemma RespondsToLogin(named: Connection, told: Connection)
    requires named == ASKING.(committed := true, name := [0x61]) && told == ANSWERED.(references := 2)
    ensures var m := Asked(CLIENT, 1, LOGIN);
            ServeNext(OnePeer(named, [], Serving(m, Responding(GREETING, Unloaded)), [CLIENT], 1), Respond)
            == Some(OnePeer(named, [], Serving(m, Leaving), [CLIENT], 1)
                    .(connections := map[CLIENT := named][CLIENT := told]))
  {
    assert !Enqueue(Fresh(OUTBOUND_BUDGET), GREETING).closing;
  }

  /** The peer goes: it is closed and its close message is posted, and then it is erased and the loop ends. */
  const POSTED: Connection :=
    ANSWERED.(references := 2, closeStarted := true, channel := Close(ANSWERED.channel), io := ShutGate)

  lemma PeerGoes(encode: Encoder) returns (actions: seq<Action>)
    ensures RunOf(encode, OnePeer(ANSWERED, [], Looping, [CLIENT], 1), actions)
         == Some(OnePeer(POSTED, [Gone(CLIENT)], Looping, [CLIENT], 1))
  {
    hide RunOf, Enqueue;
    var last := OnePeer(POSTED, [Gone(CLIENT)], Looping, [CLIENT], 1);
    var marking := ANSWERED.(io := ShutMarking);
    var closing := marking.(closeStarted := true, io := ShutClosing);
    var closed := closing.(channel := Close(ANSWERED.channel), io := ShutHolding);
    var holding := closed.(references := 2, io := ShutPosting);
    RunOfNothing(encode, last);
    PeerThen(encode, holding, PostGone, POSTED, [Gone(CLIENT)], [CLIENT], [], last);
    actions := [OfPeer(CLIENT, PostGone)] + [];
    PeerThen(encode, closed, PostHold, holding, [], [CLIENT], actions, last);
    actions := [OfPeer(CLIENT, PostHold)] + actions;
    PeerThen(encode, closing, CloseOutbound, closed, [], [CLIENT], actions, last);
    actions := [OfPeer(CLIENT, CloseOutbound)] + actions;
    PeerThen(encode, marking, MarkClosed, closing, [], [CLIENT], actions, last);
    actions := [OfPeer(CLIENT, MarkClosed)] + actions;
    PeerThen(encode, ANSWERED, StartShut, marking, [], [CLIENT], actions, last);
    actions := [OfPeer(CLIENT, StartShut)] + actions;
  }

  lemma LoopEnds(encode: Encoder) returns (actions: seq<Action>)
    ensures RunOf(encode, OnePeer(POSTED, [Gone(CLIENT)], Looping, [CLIENT], 1), actions)
         == Some(OnePeer(ERASED, [Gone(CLIENT)], Exited, [CLIENT], 0))
  {
    hide RunOf, Enqueue, Close;
    var queue, registry := [Gone(CLIENT)], [CLIENT];
    var last := OnePeer(ERASED, queue, Exited, registry, 0);
    var released := POSTED.(gateAcquired := false, io := ShutReleasing);
    RunOfNothing(encode, last);
    OnlyPeer();
    assert queue + [] == queue;
    Then(encode, OnePeer(ERASED, queue, Looping, registry, 0), OfServer(Exit), last, [], last);
    actions := [OfServer(Exit)] + [];
    ErasesPeer(encode, released, queue);
    Then(encode, OnePeer(released, queue, Looping, registry, 0), OfPeer(CLIENT, IoAct.Erase),
         OnePeer(ERASED, queue, Looping, registry, 0), actions, last);
    actions := [OfPeer(CLIENT, IoAct.Erase)] + actions;
    ReleasesGate(encode, released, queue);
    Then(encode, OnePeer(POSTED, queue, Looping, registry, 1), OfPeer(CLIENT, ReleaseGate),
         OnePeer(released, queue, Looping, registry, 0), actions, last);
    actions := [OfPeer(CLIENT, ReleaseGate)] + actions;
  }

  lemma ErasesPeer(encode: Encoder, released: Connection, queue: seq<Control>)
    requires released == POSTED.(gateAcquired := false, io := ShutReleasing)
    ensures Next(encode, OnePeer(released, queue, Looping, [CLIENT], 0), OfPeer(CLIENT, IoAct.Erase))
         == Some(OnePeer(ERASED, queue, Looping, [CLIENT], 0))
  {
    hide Enqueue, Close;
    OnlyPeer();
    assert queue + [] == queue;
  }

  lemma ReleasesGate(encode: Encoder, released: Connection, queue: seq<Control>)
    requires released == POSTED.(gateAcquired := false, io := ShutReleasing)
    ensures Next(encode, OnePeer(POSTED, queue, Looping, [CLIENT], 1), OfPeer(CLIENT, ReleaseGate))
         == Some(OnePeer(released, queue, Looping, [CLIENT], 0))
  {
    hide Enqueue, Close;
    OnlyPeer();
    assert queue + [] == queue;
  }

  /**
   * Safety ends with the loop. A client logs in and goes; before the Server gets to its close message
   * the lease runs out. The queue is dropped, and the connection still in the registry has no
   * reference left.
   */
  lemma RegisteredMayDie(encode: Encoder) returns (actions: seq<Action>)
    ensures RunOf(encode, Initial(1), actions).Some?
    ensures var s := RunOf(encode, Initial(1), actions).value;
            && s.server.Exited? && CLIENT in s.registry && CLIENT in s.connections
               && s.connections[CLIENT].references == 1
            && EndRun(encode, EndingOf(s), [Discard]).Some?
            && var e := EndRun(encode, EndingOf(s), [Discard]).value;
               CLIENT in e.registry && CLIENT in e.connections && e.connections[CLIENT].references == 0
  {
    hide RunOf;
    var asked := AsksToLogIn(encode);
    var answered := IsLoggedIn(encode);
    var gone := PeerGoes(encode);
    var ended := LoopEnds(encode);
    RunSum(encode, Initial(1), asked, answered);
    RunSum(encode, Initial(1), asked + answered, gone);
    RunSum(encode, Initial(1), (asked + answered) + gone, ended);
    actions := ((asked + answered) + gone) + ended;
    DropsLastReference(encode, EndingOf(OnePeer(ERASED, [Gone(CLIENT)], Exited, [CLIENT], 0)));
  }

  lemma DropsLastReference(encode: Encoder, e: Ending)
    requires e == Ending(map[CLIENT := ERASED], [Gone(CLIENT)], [CLIENT], true)
    ensures EndRun(encode, e, [Discard]) == Some(Ending(map[CLIENT := ERASED.(references := 0)], [], [CLIENT], false))
  {
    hide Enqueue, Close;
    var dropped := map[CLIENT := ERASED.(references := 0)];
    OnlyPeer();
    assert Released(e.connections, Gone(CLIENT)) == Some(dropped);
    assert [Gone(CLIENT)][1..] == [] && [Discard][1..] == [];
    assert ReleaseAll(dropped, []) == Some(dropped);
    var next := Ending(dropped, [], [CLIENT], false);
    assert EndNext(encode, e, Discard) == Some(next);
    assert EndRun(encode, next, []) == Some(next);
  }
}
