/** The connection gate: a counter shared by all endpoints bounds the connections admitted at one time. */
module ProtocolGate {
  import opened Outbound
  import opened Protocol
  import ProtocolWire

  ghost function Inside(s: State): (r: set<Id>) { set c | c in s.connections && s.connections[c].gateAcquired }

  /** Every admission is a connection about to be made or one that has not released the gate. */
  ghost predicate Gated(s: State) {
    && s.gateActive == s.admitted + |Inside(s)| && s.gateActive <= s.gateLimit
    && forall c | c in s.connections ::
         c < s.nextId
             && (s.connections[c].gateAcquired <==> !s.connections[c].io.ShutReleasing? && !s.connections[c].io.Erased?)
  }

  lemma IoGate(encode: Encoder, c: Id, k: Connection, act: IoAct)
    requires IoNext(encode, c, k, act).Moved?
    requires k.gateAcquired <==> !k.io.ShutReleasing? && !k.io.Erased?
    ensures var next := IoNext(encode, c, k, act).k;
            && (next.gateAcquired <==> !next.io.ShutReleasing? && !next.io.Erased?)
            && next.gateAcquired == (k.gateAcquired && !act.ReleaseGate?) && (act.ReleaseGate? ==> k.gateAcquired)
  {
  }

  ghost predicate SameGate(s: State, next: State) {
    next.gateActive == s.gateActive && next.admitted == s.admitted && next.gateLimit == s.gateLimit
        && next.nextId == s.nextId
  }

  lemma DeliverGate(s: State, target: Id, m: Message, then_: Stage)
    requires s.server.Serving? && target in s.connections
    ensures SameGate(s, Deliver(s, target, m, then_))
  {
    hide Enqueue;
  }

  lemma ServerGate(s: State, act: ServeAct)
    requires ServeNext(s, act).Some?
    ensures SameGate(s, ServeNext(s, act).value)
  {
    hide Operate, Without, Deliver, Close;
    forall target: Id, m: Message, then_: Stage | s.server.Serving? && target in s.connections
      ensures SameGate(s, Deliver(s, target, m, then_))
    {
      DeliverGate(s, target, m, then_);
    }
  }

  lemma PeerKeepsGate(encode: Encoder, s: State, c: Id, io: IoAct)
    requires Gated(s) && Next(encode, s, OfPeer(c, io)).Some?
    ensures Gated(Next(encode, s, OfPeer(c, io)).value)
  {
    hide IoNext;
    var next := Next(encode, s, OfPeer(c, io)).value;
    IoGate(encode, c, s.connections[c], io);
    if io.ReleaseGate? {
      assert Inside(s) == Inside(next) + {c} && c !in Inside(next) && c in Inside(s);
    } else {
      assert Inside(next) == Inside(s);
    }
  }

  lemma ServerKeepsGate(s: State, act: ServeAct)
    requires Gated(s) && ServeNext(s, act).Some?
    ensures Gated(ServeNext(s, act).value)
  {
    hide ServeNext, ProtocolWire.Disturbed;
    ServerGate(s, act);
    ProtocolWire.ServerStepDisturbs(s, act);
    assert Inside(ServeNext(s, act).value) == Inside(s);
  }

  lemma ArrivalKeepsGate(encode: Encoder, s: State, a: Action)
    requires Gated(s) && Next(encode, s, a).Some? && (a.Admit? || a.Connect? || a.OfConsole?)
    ensures Gated(Next(encode, s, a).value)
  {
    var next := Next(encode, s, a).value;
    if a.Connect? {
      assert Inside(next) == Inside(s) + {s.nextId} && s.nextId !in Inside(s);
    } else {
      assert next.connections == s.connections && Inside(next) == Inside(s);
    }
  }

  lemma StepKeepsGate(encode: Encoder, s: State, a: Action)
    requires Gated(s) && Next(encode, s, a).Some?
    ensures Gated(Next(encode, s, a).value)
  {
    hide IoNext, ServeNext, Gated;
    match a
    case OfPeer(c, io) => PeerKeepsGate(encode, s, c, io);
    case OfServer(act) => ServerKeepsGate(s, act);
    case _ => ArrivalKeepsGate(encode, s, a);
  }

  lemma {:induction false} RunsKeepGate(encode: Encoder, s: State, actions: seq<Action>)
    requires Gated(s) && RunOf(encode, s, actions).Some?
    ensures Gated(RunOf(encode, s, actions).value)
    decreases |actions|
  {
    hide Next, Gated;
    if actions != [] {
      StepKeepsGate(encode, s, actions[0]);
      RunsKeepGate(encode, Next(encode, s, actions[0]).value, actions[1..]);
    }
  }

  /** Never more connections hold the gate than the limit, and a release never finds the counter at zero. */
  lemma GateBounds(encode: Encoder, gateLimit: nat, actions: seq<Action>)
    requires RunOf(encode, Initial(gateLimit), actions).Some?
    ensures var s := RunOf(encode, Initial(gateLimit), actions).value;
            && s.admitted + |Inside(s)| == s.gateActive <= s.gateLimit
            && forall c | c in s.connections && s.connections[c].gateAcquired :: s.gateActive > 0
  {
    hide RunOf;
    RunsKeepGate(encode, Initial(gateLimit), actions);
    var s := RunOf(encode, Initial(gateLimit), actions).value;
    forall c | c in s.connections && s.connections[c].gateAcquired ensures s.gateActive > 0 {
      assert c in Inside(s);
    }
  }
}
