/**
 * Lifetime safety: in every state reached before the run loop ends, a connection in the registry has
 * at least one reference, because a peer that is gone has posted a close message behind everything
 * else it sent, and that message holds a reference until the connection has left the registry.
 */
module ProtocolLifetime {
  import opened Sequences
  import opened Outbound
  import opened Protocol

  predicate IsOf(m: Control, c: Id) { !m.Console? && m.c == c }

  /** The messages of one connection in the queue, in order. */
  function Of(queue: seq<Control>, c: Id): (r: seq<Control>) {
    if queue == [] then [] else (if IsOf(queue[0], c) then [queue[0]] else []) + Of(queue[1..], c)
  }

  lemma {:induction false} OfConcat(a: seq<Control>, b: seq<Control>, c: Id)
    ensures Of(a + b, c) == Of(a, c) + Of(b, c)
    decreases |a|
  {
    if a == [] {
      NothingAdded(b);
      NothingAdded(Of(b, c));
    } else {
      assert (a + b)[0] == a[0] && (a + b)[1..] == a[1..] + b;
      OfConcat(a[1..], b, c);
      Associates(if IsOf(a[0], c) then [a[0]] else [], Of(a[1..], c), Of(b, c));
    }
  }

  lemma OfOne(m: Control, c: Id)
    ensures Of([m], c) == if IsOf(m, c) then [m] else []
  {
    assert [m][1..] == [];
  }

  datatype Hand = Free | InHand(m: Control, at: Stage)

  function HandOf(s: State, c: Id): (r: Hand) {
    if s.server.Serving? && IsOf(s.server.m, c) then InHand(s.server.m, s.server.at) else Free
  }

  // ----- what holds of each connection -----

  function IoTokens(io: Io): (r: nat) {
    (if io.Erased? then 0 else 1) + (if io.Holding? || io.ShutPosting? then 1 else 0)
  }

  predicate Posted(io: Io) { io.ShutGate? || io.ShutReleasing? || io.Erased? }

  predicate NoGone(pending: seq<Control>) { forall i | 0 <= i < |pending| :: !pending[i].Gone? }

  predicate HandGone(hand: Hand) { hand.InHand? && hand.m.Gone? }

  /** Where the close message of a connection is. */
  predicate CloseIsBehind(pending: seq<Control>, hand: Hand) {
    pending != [] && pending[|pending| - 1].Gone? && NoGone(pending[..|pending| - 1]) && !HandGone(hand)
  }

  predicate CloseInHand(pending: seq<Control>, hand: Hand) { pending == [] && HandGone(hand) && !hand.at.Leaving? }

  predicate CloseDone(pending: seq<Control>, hand: Hand, registered: bool) {
    pending == [] && !registered && (hand.Free? || (HandGone(hand) && hand.at.Leaving?))
  }

  predicate GoneStage(c: Id, at: Stage) {
    at.Got? || at == MarkingClosed(c, Unregistering) || at == ClosingOutbound(c, Unregistering) || at.Unregistering?
        || at.Leaving?
  }

  predicate Living(c: Id, io: Io, references: nat, pending: seq<Control>, hand: Hand, registered: bool) {
    && references == IoTokens(io) + |pending| + (if hand.InHand? then 1 else 0)
    && (HandGone(hand) ==> GoneStage(c, hand.at))
    && if Posted(io) then CloseIsBehind(pending, hand) || CloseInHand(pending, hand)
       || CloseDone(pending, hand, registered)
       else NoGone(pending) && !HandGone(hand)
  }

  // ----- what holds of the whole state -----

  predicate Unique(registry: seq<Id>) { forall i, j | 0 <= i < j < |registry| :: registry[i] != registry[j] }

  /** Connections a stage will still touch are registered, or the sender's own. */
  predicate TargetsOk(s: State, m: Control, at: Stage) {
    match at
    case MarkingClosed(target, then_) => (target in s.registry || IsOf(m, target)) && TargetsOk(s, m, then_)
    case ClosingOutbound(target, then_) => (target in s.registry || IsOf(m, target)) && TargetsOk(s, m, then_)
    case _ => true
  }

  ghost predicate Known(s: State) {
    && (forall c | c in s.connections :: 0 < c < s.nextId) && s.nextId > 0
    && (forall i | 0 <= i < |s.queue| && !s.queue[i].Console? :: s.queue[i].c in s.connections)
    && (forall i | 0 <= i < |s.registry| :: s.registry[i] in s.connections) && Unique(s.registry)
    && (s.server.Serving?
       ==> (!s.server.m.Console? ==> s.server.m.c in s.connections) && TargetsOk(s, s.server.m, s.server.at))
  }

  ghost predicate AllLiving(s: State) {
    forall c | c in s.connections ::
      Living(c, s.connections[c].io, s.connections[c].references, Of(s.queue, c), HandOf(s, c), c in s.registry)
  }

  ghost predicate LifetimeInv(s: State) { Known(s) && (!s.server.Exited? ==> AllLiving(s)) }

  // ----- transport steps -----

  ghost predicate MovesTokens(c: Id, k: Connection, r: IoResult) {
    r.Moved? ==>
      && |r.pushed| <= 1 && r.k.references - IoTokens(r.k.io) == k.references - IoTokens(k.io) + |r.pushed|
      && (Posted(k.io) ==> Posted(r.k.io))
      && (r.pushed != [] ==> IsOf(r.pushed[0], c) && !Posted(k.io) && Posted(r.k.io) == r.pushed[0].Gone?)
      && (r.pushed == [] ==> Posted(r.k.io) == Posted(k.io))
  }

  lemma CloseMoves(c: Id, k: Connection, act: IoAct)
    ensures MovesTokens(c, k, CloseStep(c, k, act))
  {
    hide Close;
  }

  lemma DispatchMoves(c: Id, k: Connection, request: U64, ask: Ask)
    ensures MovesTokens(c, k, ReserveStep(k, request, ask)) && MovesTokens(c, k, CheckLoginStep(k))
    ensures MovesTokens(c, k, AnswerStep(k))
  {
    hide Enqueue, IsDuplicate;
  }

  lemma OutputMoves(encode: Encoder, c: Id, k: Connection, count: nat)
    ensures MovesTokens(c, k, TakeStep(k)) && MovesTokens(c, k, ReleaseIdStep(k))
            && MovesTokens(c, k, EncodeStep(encode, k))
    ensures MovesTokens(c, k, SendStep(k, count)) && MovesTokens(c, k, FinishStep(k))
  {
    hide TryNext, AfterNext, MarkWritten;
  }

  /** A transport step moves references with its own tokens, and pushes at most one message that takes a token along. */
  lemma IoMoves(encode: Encoder, c: Id, k: Connection, act: IoAct)
    requires IoNext(encode, c, k, act).Moved?
    ensures MovesTokens(c, k, IoNext(encode, c, k, act))
  {
    hide ReserveStep, CheckLoginStep, AnswerStep, TakeStep, ReleaseIdStep, EncodeStep, SendStep, FinishStep, CloseStep;
    match act
    case Reserve(request, ask) => DispatchMoves(c, k, request, ask);
    case CheckLogin => DispatchMoves(c, k, 0, AskServer(Load));
    case Answer => DispatchMoves(c, k, 0, AskServer(Load));
    case Hold =>
    case Push =>
    case Send(count) => OutputMoves(encode, c, k, count);
    case Take => OutputMoves(encode, c, k, 0);
    case ReleaseId => OutputMoves(encode, c, k, 0);
    case Encode => OutputMoves(encode, c, k, 0);
    case Finish => OutputMoves(encode, c, k, 0);
    case _ => CloseMoves(c, k, act);
  }

  lemma IoKeepsLiving(encode: Encoder, c: Id, k: Connection, act: IoAct, pending: seq<Control>, hand: Hand,
      registered: bool)
    requires Living(c, k.io, k.references, pending, hand, registered) && IoNext(encode, c, k, act).Moved?
    ensures var r := IoNext(encode, c, k, act);
            && Living(c, r.k.io, r.k.references, pending + r.pushed, hand, registered)
            && Of(r.pushed, c) == r.pushed && |r.pushed| <= 1 && forall i | 0 <= i < |r.pushed| :: IsOf(r.pushed[i], c)
  {
    hide IoNext, IoTokens, Posted, GoneStage;
    IoMoves(encode, c, k, act);
    var r := IoNext(encode, c, k, act);
    if r.pushed == [] {
      assert pending + r.pushed == pending;
    } else {
      assert r.pushed == [r.pushed[0]];
      OfOne(r.pushed[0], c);
      assert (pending + r.pushed)[..|pending|] == pending;
    }
  }

  lemma OfOthers(pushed: seq<Control>, c: Id, d: Id)
    requires |pushed| <= 1 && (forall i | 0 <= i < |pushed| :: IsOf(pushed[i], c)) && c != d
    ensures Of(pushed, d) == []
  {
    if pushed != [] {
      assert pushed == [pushed[0]];
      OfOne(pushed[0], d);
    }
  }

  lemma PeerKeepsLifetime(encode: Encoder, s: State, c: Id, act: IoAct)
    requires LifetimeInv(s) && Next(encode, s, OfPeer(c, act)).Some?
    ensures LifetimeInv(Next(encode, s, OfPeer(c, act)).value)
  {
    hide IoNext, Living, Of, TargetsOk;
    var next := Next(encode, s, OfPeer(c, act)).value;
    var r := IoNext(encode, c, s.connections[c], act);
    IoKeepsLiving(encode, c, s.connections[c], act, Of(s.queue, c), HandOf(s, c), c in s.registry);
    if s.server.Serving? {
      TargetsFrame(s, next, s.server.m, s.server.at);
    }
    forall d | d in next.connections
      ensures Living(d, next.connections[d].io, next.connections[d].references, Of(next.queue, d), HandOf(next, d),
              d in next.registry)
    {
      OfConcat(s.queue, r.pushed, d);
      if d != c {
        OfOthers(r.pushed, c, d);
        assert Of(s.queue, d) + [] == Of(s.queue, d);
      }
    }
  }

  lemma {:induction false} TargetsFrame(s: State, next: State, m: Control, at: Stage)
    requires TargetsOk(s, m, at) && forall c | c in s.registry :: c in next.registry
    ensures TargetsOk(next, m, at)
    decreases at
  {
    if at.MarkingClosed? || at.ClosingOutbound? {
      TargetsFrame(s, next, m, at.then_);
    }
  }

  // ----- Server steps -----

  lemma PopKeepsLifetime(s: State)
    requires LifetimeInv(s) && ServeNext(s, Pop).Some?
    ensures LifetimeInv(ServeNext(s, Pop).value)
  {
    hide TargetsOk, Living;
    var next := ServeNext(s, Pop).value;
    var m := s.queue[0];
    forall d | d in next.connections
      ensures Living(d, next.connections[d].io, next.connections[d].references, Of(next.queue, d), HandOf(next, d),
              d in next.registry)
    {
      var k := s.connections[d];
      assert Living(d, k.io, k.references, Of(s.queue, d), HandOf(s, d), d in s.registry);
      if IsOf(m, d) {
        PopLives(d, k.io, k.references, m, Of(next.queue, d), d in s.registry);
      } else {
        assert [] + Of(next.queue, d) == Of(next.queue, d);
      }
    }
    assert TargetsOk(next, m, Got) by {
      GotHasNoTarget(next, m);
    }
  }

  lemma GotHasNoTarget(s: State, m: Control)
    ensures TargetsOk(s, m, Got)
  {
  }

  lemma PopLives(c: Id, io: Io, references: nat, m: Control, rest: seq<Control>, registered: bool)
    requires Living(c, io, references, [m] + rest, Free, registered)
    ensures Living(c, io, references, rest, InHand(m, Got), registered)
  {
    var pending := [m] + rest;
    if Posted(io) {
      assert CloseIsBehind(pending, Free);
      if rest != [] {
        assert pending[|pending| - 1] == rest[|rest| - 1];
        assert pending[..|pending| - 1] == [m] + rest[..|rest| - 1];
        forall i | 0 <= i < |rest| - 1 ensures !rest[i].Gone? {
          assert pending[..|pending| - 1][i + 1] == rest[i];
        }
        assert !pending[..|pending| - 1][0].Gone?;
      }
    } else {
      assert !pending[0].Gone?;
      forall i | 0 <= i < |rest| ensures !rest[i].Gone? {
        assert pending[i + 1] == rest[i];
      }
    }
  }

  /** Two states that differ in nothing lifetimes depend on but the stage, and possibly new registrations by a LOGIN. */
  ghost predicate SameLife(s: State, next: State) {
    && next.connections.Keys == s.connections.Keys && next.nextId == s.nextId && next.queue == s.queue
    && (forall c | c in s.connections ::
          && next.connections[c].io == s.connections[c].io
          && next.connections[c].references == s.connections[c].references)
    && s.server.Serving? && next.server.Serving? && next.server.m == s.server.m
  }

  lemma StageKeepsLifetime(s: State, next: State)
    requires LifetimeInv(s) && SameLife(s, next) && next.registry == s.registry
    requires TargetsOk(next, next.server.m, next.server.at)
    requires s.server.m.Gone?
             ==> GoneStage(s.server.m.c, next.server.at) && next.server.at.Leaving? == s.server.at.Leaving?
    ensures LifetimeInv(next)
  {
    hide TargetsOk, Of, GoneStage, NoGone, IoTokens, Posted;
    forall d | d in next.connections
      ensures Living(d, next.connections[d].io, next.connections[d].references, Of(next.queue, d), HandOf(next, d),
              d in next.registry)
    {
      var k := s.connections[d];
      assert Living(d, k.io, k.references, Of(s.queue, d), HandOf(s, d), d in s.registry);
    }
  }

  lemma GoneInHand(s: State)
    requires LifetimeInv(s) && s.server.Serving? && s.server.m.Gone?
    ensures GoneStage(s.server.m.c, s.server.at)
  {
    var c := s.server.m.c;
    assert Living(c, s.connections[c].io, s.connections[c].references, Of(s.queue, c), HandOf(s, c), c in s.registry);
  }

  predicate Plain(act: ServeAct) { !act.Pop? && !act.Leave? && !act.Exit? && !act.Unregister? && !act.Register? }

  /** A step that leaves queue, registry and references alone, and names no new target outside the registry. */
  ghost predicate Keeps(s: State, next: State) {
    && SameLife(s, next) && next.registry == s.registry
    && (s.server.m.Gone? && GoneStage(s.server.m.c, s.server.at) ==>
          GoneStage(s.server.m.c, next.server.at) && next.server.at.Leaving? == s.server.at.Leaving?)
    && (TargetsOk(s, s.server.m, s.server.at) ==> TargetsOk(s, s.server.m, next.server.at))
  }

  lemma DecisionsKeep(s: State, act: ServeAct)
    requires ServeNext(s, act).Some? && (act.CommitLogin? || act.CheckClient? || act.Execute?)
    ensures Keeps(s, ServeNext(s, act).value)
  {
    hide Operate;
  }

  lemma DeliverKeeps(s: State, target: Id, m: Message, then_: Stage)
    requires s.server.Serving? && target in s.connections && (target in s.registry || IsOf(s.server.m, target))
    requires !s.server.m.Gone? && (then_.Routing? || then_.Publishing? || then_.Leaving?)
    ensures Keeps(s, Deliver(s, target, m, then_))
  {
    hide Enqueue;
    assert TargetsOk(s, s.server.m, then_);
  }

  lemma DeliveriesKeep(s: State, act: ServeAct)
    requires ServeNext(s, act).Some? && (act.RouteNext? || act.Respond? || act.PublishNext?)
    requires s.server.Serving? && (s.server.m.Gone? ==> GoneStage(s.server.m.c, s.server.at))
    ensures Keeps(s, ServeNext(s, act).value)
  {
    hide Deliver;
    forall target: Id, m: Message, then_: Stage | target in s.connections
        && (target in s.registry || IsOf(s.server.m, target)) && !s.server.m.Gone?
        && (then_.Routing? || then_.Publishing? || then_.Leaving?)
      ensures Keeps(s, Deliver(s, target, m, then_))
    {
      DeliverKeeps(s, target, m, then_);
    }
  }

  lemma ClosesKeep(s: State, act: ServeAct)
    requires ServeNext(s, act).Some? && (act.MarkTarget? || act.CloseTarget? || act.StartUnregister?)
    ensures Keeps(s, ServeNext(s, act).value)
  {
    hide Close, Without;
    if s.server.Serving? {
      assert TargetsOk(s, s.server.m, Unregistering);
    }
  }

  lemma PlainKeeps(s: State, act: ServeAct)
    requires ServeNext(s, act).Some? && Plain(act)
    requires s.server.Serving? && (s.server.m.Gone? ==> GoneStage(s.server.m.c, s.server.at))
    ensures Keeps(s, ServeNext(s, act).value)
  {
    hide Keeps, ServeNext;
    match act
    case CommitLogin(_) => DecisionsKeep(s, act);
    case CheckClient(_, _) => DecisionsKeep(s, act);
    case Execute(_, _, _, _) => DecisionsKeep(s, act);
    case MarkTarget => ClosesKeep(s, act);
    case CloseTarget => ClosesKeep(s, act);
    case StartUnregister => ClosesKeep(s, act);
    case _ => DeliveriesKeep(s, act);
  }

  lemma PlainIsServing(s: State, act: ServeAct)
    requires ServeNext(s, act).Some? && Plain(act)
    ensures s.server.Serving?
  {
    hide Enqueue, Operate, Close, Without;
  }

  /** The steps of serving a message, up to leaving it, change no reference and no registration but those named. */
  lemma PlainKeepsLifetime(s: State, act: ServeAct)
    requires LifetimeInv(s) && ServeNext(s, act).Some? && Plain(act)
    ensures LifetimeInv(ServeNext(s, act).value)
  {
    hide AllLiving, ServeNext, Of, TargetsOk, GoneStage;
    var next := ServeNext(s, act).value;
    PlainIsServing(s, act);
    if s.server.m.Gone? {
      GoneInHand(s);
    }
    PlainKeeps(s, act);
    TargetsFrame(s, next, s.server.m, next.server.at);
    StageKeepsLifetime(s, next);
  }

  /** A LOGIN registers its sender, whose close message cannot have been served yet. */
  lemma RegisterKeepsLifetime(s: State)
    requires LifetimeInv(s) && ServeNext(s, Register).Some?
    ensures LifetimeInv(ServeNext(s, Register).value)
  {
    hide TargetsOk, Of, GoneStage, IoTokens, Posted;
    var next := ServeNext(s, Register).value;
    assert Known(next) by {
      hide AllLiving;
      RegisterKeepsKnown(s);
    }
    hide Known;
    forall d | d in next.connections
      ensures Living(d, next.connections[d].io, next.connections[d].references, Of(next.queue, d), HandOf(next, d),
              d in next.registry)
    {
      var k := s.connections[d];
      assert Living(d, k.io, k.references, Of(s.queue, d), HandOf(s, d), d in s.registry);
    }
  }

  lemma RegisterKeepsKnown(s: State)
    requires Known(s) && ServeNext(s, Register).Some?
    ensures Known(ServeNext(s, Register).value)
  {
    hide TargetsOk;
    var next := ServeNext(s, Register).value;
    TargetsOfResponding(next, next.server.m, next.server.at);
  }

  lemma TargetsOfResponding(s: State, m: Control, at: Stage)
    requires at.Responding? || at.Leaving?
    ensures TargetsOk(s, m, at)
  {
  }

  lemma {:induction false} WithoutRemoves(registry: seq<Id>, c: Id)
    requires Unique(registry)
    ensures var r := Without(registry, c); Unique(r) && forall d :: d in r <==> d in registry && d != c
    decreases |registry|
  {
    if registry != [] {
      var rest := registry[1..];
      WithoutRemoves(rest, c);
      assert registry == [registry[0]] + rest;
      assert registry[0] !in rest;
    }
  }

  lemma UnregisterKeepsLifetime(s: State)
    requires LifetimeInv(s) && ServeNext(s, Unregister).Some?
    ensures LifetimeInv(ServeNext(s, Unregister).value)
  {
    hide TargetsOk, Of, IoTokens, Posted, Without, NoGone;
    var next := ServeNext(s, Unregister).value;
    var c := s.server.m.c;
    WithoutRemoves(s.registry, c);
    TargetsOfResponding(next, next.server.m, next.server.at);
    assert forall i | 0 <= i < |next.registry| :: next.registry[i] in s.registry;
    assert Known(next);
    forall d | d in next.connections
      ensures Living(d, next.connections[d].io, next.connections[d].references, Of(next.queue, d), HandOf(next, d),
              d in next.registry)
    {
      var k := s.connections[d];
      assert Living(d, k.io, k.references, Of(s.queue, d), HandOf(s, d), d in s.registry);
    }
  }

  lemma LeaveKeepsLifetime(s: State)
    requires LifetimeInv(s) && ServeNext(s, Leave).Some?
    ensures LifetimeInv(ServeNext(s, Leave).value)
  {
    hide TargetsOk, Of, GoneStage, IoTokens, Posted, NoGone;
    var next := ServeNext(s, Leave).value;
    if !next.server.Exited? {
      forall d | d in next.connections
        ensures Living(d, next.connections[d].io, next.connections[d].references, Of(next.queue, d), HandOf(next, d),
                d in next.registry)
      {
        var k := s.connections[d];
        assert Living(d, k.io, k.references, Of(s.queue, d), HandOf(s, d), d in s.registry);
      }
    }
  }

  lemma ConnectKeepsLifetime(encode: Encoder, s: State, a: Action)
    requires LifetimeInv(s) && Next(encode, s, a).Some? && (a.Admit? || a.Connect? || a.OfConsole?)
    ensures LifetimeInv(Next(encode, s, a).value)
  {
    hide TargetsOk, Living;
    var next := Next(encode, s, a).value;
    if s.server.Serving? {
      TargetsFrame(s, next, s.server.m, s.server.at);
    }
    forall d | d in next.connections
      ensures Living(d, next.connections[d].io, next.connections[d].references, Of(next.queue, d), HandOf(next, d),
              d in next.registry)
    {
      if a.OfConsole? {
        OfConcat(s.queue, [Console(a.op)], d);
        OfOne(Console(a.op), d);
        assert Of(s.queue, d) + [] == Of(s.queue, d);
      }
      if d !in s.connections {
        OfUnknown(s.queue, d);
        NewbornLives(d);
      }
    }
  }

  lemma NewbornLives(c: Id)
    ensures Living(c, Created().io, Created().references, [], Free, false)
  {
  }

  lemma {:induction false} OfUnknown(queue: seq<Control>, c: Id)
    requires forall i | 0 <= i < |queue| && !queue[i].Console? :: queue[i].c != c
    ensures Of(queue, c) == []
    decreases |queue|
  {
    if queue != [] {
      OfUnknown(queue[1..], c);
    }
  }

  lemma StepKeepsLifetime(encode: Encoder, s: State, a: Action)
    requires LifetimeInv(s) && Next(encode, s, a).Some?
    ensures LifetimeInv(Next(encode, s, a).value)
  {
    hide LifetimeInv, ServeNext;
    match a
    case Admit => ConnectKeepsLifetime(encode, s, a);
    case Connect => ConnectKeepsLifetime(encode, s, a);
    case OfConsole(_) => ConnectKeepsLifetime(encode, s, a);
    case OfPeer(c, act) => PeerKeepsLifetime(encode, s, c, act);
    case OfServer(act) =>
      match act
      case Pop => PopKeepsLifetime(s);
      case Register => RegisterKeepsLifetime(s);
      case Unregister => UnregisterKeepsLifetime(s);
      case Leave => LeaveKeepsLifetime(s);
      case Exit => ExitKeepsLifetime(s);
      case _ => PlainKeepsLifetime(s, act);
  }

  lemma ExitKeepsLifetime(s: State)
    requires LifetimeInv(s) && ServeNext(s, Exit).Some?
    ensures LifetimeInv(ServeNext(s, Exit).value)
  {
    hide AllLiving, TargetsOk;
  }

  // ----- every run -----

  lemma {:induction false} RunsKeepLifetime(encode: Encoder, s: State, actions: seq<Action>)
    requires LifetimeInv(s) && RunOf(encode, s, actions).Some?
    ensures LifetimeInv(RunOf(encode, s, actions).value)
    decreases |actions|
  {
    hide Next, LifetimeInv;
    if actions != [] {
      StepKeepsLifetime(encode, s, actions[0]);
      RunsKeepLifetime(encode, Next(encode, s, actions[0]).value, actions[1..]);
    }
  }

  /** No registered pointer dangles: in every reachable state each registered connection still has a reference. */
  lemma RegisteredAreAlive(encode: Encoder, gateLimit: nat, actions: seq<Action>)
    requires RunOf(encode, Initial(gateLimit), actions).Some?
             && !RunOf(encode, Initial(gateLimit), actions).value.server.Exited?
    ensures var s := RunOf(encode, Initial(gateLimit), actions).value;
            && (forall c | c in s.registry :: c in s.connections && s.connections[c].references >= 1)
            && (forall i | 0 <= i < |s.queue| && !s.queue[i].Console? ::
                  s.queue[i].c in s.connections && s.connections[s.queue[i].c].references >= 1)
            && (s.server.Serving? && !s.server.m.Console? ==>
                  s.server.m.c in s.connections && s.connections[s.server.m.c].references >= 1)
  {
    hide RunOf, Of;
    RunsKeepLifetime(encode, Initial(gateLimit), actions);
    var s := RunOf(encode, Initial(gateLimit), actions).value;
    forall c | c in s.registry ensures c in s.connections && s.connections[c].references >= 1 {
      assert Living(c, s.connections[c].io, s.connections[c].references, Of(s.queue, c), HandOf(s, c), c in s.registry);
    }
    forall i | 0 <= i < |s.queue| && !s.queue[i].Console?
      ensures s.queue[i].c in s.connections && s.connections[s.queue[i].c].references >= 1
    {
      var c := s.queue[i].c;
      OfMember(s.queue, i);
      assert Living(c, s.connections[c].io, s.connections[c].references, Of(s.queue, c), HandOf(s, c), c in s.registry);
    }
    if s.server.Serving? && !s.server.m.Console? {
      var c := s.server.m.c;
      assert Living(c, s.connections[c].io, s.connections[c].references, Of(s.queue, c), HandOf(s, c), c in s.registry);
    }
  }

  lemma {:induction false} OfMember(queue: seq<Control>, i: nat)
    requires i < |queue| && !queue[i].Console?
    ensures Of(queue, queue[i].c) != []
    decreases |queue|
  {
    if i > 0 {
      OfMember(queue[1..], i - 1);
    }
  }

  /** The connections a step dereferences: the transport's own peer, the sender in hand, and those a stage names. */
  function Touched(s: State, a: Action): (r: set<Id>) {
    match a
    case OfPeer(c, _) => {c}
    case OfServer(_) => if s.server.Serving?
        then (set c | c in s.registry) + HandSet(s.server.m) + Targets(s.server.at) else {}
    case _ => {}
  }

  function HandSet(m: Control): (r: set<Id>) { if m.Console? then {} else {m.c} }

  function Targets(at: Stage): (r: set<Id>) {
    match at
    case MarkingClosed(target, then_) => {target} + Targets(then_)
    case ClosingOutbound(target, then_) => {target} + Targets(then_)
    case _ => {}
  }

  /** No step of any run touches a connection whose last reference is gone. */
  lemma StepsTouchLiving(encode: Encoder, gateLimit: nat, actions: seq<Action>, a: Action)
    requires RunOf(encode, Initial(gateLimit), actions).Some?
    requires Next(encode, RunOf(encode, Initial(gateLimit), actions).value, a).Some?
    ensures var s := RunOf(encode, Initial(gateLimit), actions).value;
            forall c | c in Touched(s, a) :: c in s.connections && s.connections[c].references >= 1
  {
    hide RunOf, Of, IoNext, ServeNext;
    RegisteredAreAlive(encode, gateLimit, actions);
    RunsKeepLifetime(encode, Initial(gateLimit), actions);
    var s := RunOf(encode, Initial(gateLimit), actions).value;
    if s.server.Serving? {
      TargetsAreKnown(s, s.server.m, s.server.at);
    }
    if a.OfPeer? {
      assert Living(a.c, s.connections[a.c].io, s.connections[a.c].references, Of(s.queue, a.c), HandOf(s, a.c),
             a.c in s.registry);
      if s.connections[a.c].io.Erased? {
        ErasedIsStill(encode, a.c, s.connections[a.c], a.io);
      }
    }
  }

  lemma ErasedIsStill(encode: Encoder, c: Id, k: Connection, act: IoAct)
    requires k.io.Erased?
    ensures IoNext(encode, c, k, act).Blocked?
  {
  }

  lemma {:induction false} TargetsAreKnown(s: State, m: Control, at: Stage)
    requires TargetsOk(s, m, at)
    ensures forall c | c in Targets(at) :: c in s.registry || IsOf(m, c)
    decreases at
  {
    if at.MarkingClosed? || at.ClosingOutbound? {
      TargetsAreKnown(s, m, at.then_);
    }
  }
}
