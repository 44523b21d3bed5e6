/**
 * Request conservation: until the run loop ends, and while a connection's channel is open, a request
 * id is outstanding exactly when one unanswered unit of work carries it. An id is accepted again
 * only after its response was taken for writing.
 */
module ProtocolRequests {
  import opened Outbound
  import opened Protocol
  import opened ProtocolLifetime
  import ProtocolWire

  function One(b: bool): (r: nat) { if b then 1 else 0 }

  predicate Releases(m: Message, r: nat) { m.Response? && m.release && m.request == r }

  /** In dispatch, or dequeued and not yet released. */
  predicate IoCarries(io: Io, r: nat) {
    match io
    case Reserved(request, _) => request == r
    case Cleared(request, _) => request == r
    case Holding(request, _) => request == r
    case Answering(reply) => Releases(reply, r)
    case Dequeued(write) => Releases(write.message, r)
    case _ => false
  }

  predicate Carries(m: Control, r: nat) { m.Asked? && m.request == r }

  function InQueue(pending: seq<Control>, r: nat): (result: nat) {
    if pending == [] then 0 else One(Carries(pending[0], r)) + InQueue(pending[1..], r)
  }

  /** Whether the message in hand is still to be answered. */
  predicate Unanswered(at: Stage) {
    match at
    case Got => true
    case Registering => true
    case Routing(_) => true
    case Responding(_, _) => true
    case MarkingClosed(_, then_) => Unanswered(then_)
    case ClosingOutbound(_, then_) => Unanswered(then_)
    case _ => false
  }

  predicate HandCarries(hand: Hand, r: nat) { hand.InHand? && Carries(hand.m, r) && Unanswered(hand.at) }

  function InChannel(queue: seq<Message>, r: nat): (result: nat) {
    if queue == [] then 0 else One(Releases(queue[0], r)) + InChannel(queue[1..], r)
  }

  /** The units of work that carry an id. */
  function Units(k: Connection, pending: seq<Control>, hand: Hand, r: nat): (result: nat) {
    One(IoCarries(k.io, r)) + InQueue(pending, r) + One(HandCarries(hand, r)) + InChannel(k.channel.queue, r)
  }

  /** The stage once closing some connection is done with. */
  function Onward(at: Stage): (r: Stage) {
    match at
    case MarkingClosed(_, then_) => Onward(then_)
    case ClosingOutbound(_, then_) => Onward(then_)
    case _ => at
  }

  /** The response about to be given answers the message in hand. */
  predicate AnswersHand(hand: Hand) {
    hand.InHand? && hand.m.Asked? && Onward(hand.at).Responding? ==> Releases(Onward(hand.at).reply, hand.m.request)
  }

  ghost predicate Conserved(k: Connection, pending: seq<Control>, hand: Hand) {
    && AnswersHand(hand)
    && forall r {:trigger r in k.outstanding} {:trigger Units(k, pending, hand, r)} ::
         if k.channel.closing then Units(k, pending, hand, r) <= One(r in k.outstanding)
         else Units(k, pending, hand, r) == One(r in k.outstanding)
  }

  lemma {:induction false} InQueueConcat(a: seq<Control>, b: seq<Control>, r: nat)
    ensures InQueue(a + b, r) == InQueue(a, r) + InQueue(b, r)
    decreases |a|
  {
    if a == [] {
      assert a + b == b;
    } else {
      assert (a + b)[1..] == a[1..] + b;
      InQueueConcat(a[1..], b, r);
    }
  }

  lemma {:induction false} InChannelConcat(a: seq<Message>, b: seq<Message>, r: nat)
    ensures InChannel(a + b, r) == InChannel(a, r) + InChannel(b, r)
    decreases |a|
  {
    if a == [] {
      assert a + b == b;
    } else {
      assert (a + b)[1..] == a[1..] + b;
      InChannelConcat(a[1..], b, r);
    }
  }

  /** An accepted message adds its own id; a refused one closes the channel and drops what waits in it. */
  lemma EnqueueCounts(ch: Channel, m: Message, r: nat)
    ensures var next := Enqueue(ch, m);
            if next.closing then InChannel(next.queue, r) <= InChannel(ch.queue, r)
            else !ch.closing && InChannel(next.queue, r) == InChannel(ch.queue, r) + One(Releases(m, r))
  {
    hide Estimate;
    InChannelConcat(ch.queue, [m], r);
    assert [m][1..] == [];
  }

  // ----- transport steps -----

  /** The conservation equation for one id, given what the queue and the Server hold of it. */
  predicate Balanced(k: Connection, elsewhere: nat, r: nat) {
    var units := One(IoCarries(k.io, r)) + InChannel(k.channel.queue, r) + elsewhere;
    if k.channel.closing then units <= One(r in k.outstanding) else units == One(r in k.outstanding)
  }

  lemma AnswerBalances(k: Connection, elsewhere: nat, r: nat)
    requires Balanced(k, elsewhere, r) && AnswerStep(k).Moved?
    ensures AnswerStep(k).pushed == [] && Balanced(AnswerStep(k).k, elsewhere, r)
  {
    hide Enqueue;
    EnqueueCounts(k.channel, k.io.reply, r);
    CloseAbsorbs(k.channel, k.io.reply);
  }

  lemma TakeBalances(k: Connection, elsewhere: nat, r: nat)
    requires Balanced(k, elsewhere, r) && TakeStep(k).Moved?
    ensures TakeStep(k).pushed == [] && Balanced(TakeStep(k).k, elsewhere, r)
  {
    hide Estimate;
  }

  lemma ReserveBalances(k: Connection, request: U64, ask: Ask, elsewhere: nat, r: nat)
    requires Balanced(k, elsewhere, r) && ReserveStep(k, request, ask).Moved?
    ensures ReserveStep(k, request, ask).pushed == [] && Balanced(ReserveStep(k, request, ask).k, elsewhere, r)
  {
    hide InChannel;
  }

  lemma CheckLoginBalances(k: Connection, elsewhere: nat, r: nat)
    requires Balanced(k, elsewhere, r) && CheckLoginStep(k).Moved?
    ensures CheckLoginStep(k).pushed == [] && Balanced(CheckLoginStep(k).k, elsewhere, r)
  {
    hide InChannel;
  }

  lemma ReleaseIdBalances(k: Connection, elsewhere: nat, r: nat)
    requires Balanced(k, elsewhere, r) && ReleaseIdStep(k).Moved?
    ensures ReleaseIdStep(k).pushed == [] && Balanced(ReleaseIdStep(k).k, elsewhere, r)
  {
    hide InChannel;
  }

  /** Steps that move the id, the channel's queue and the outstanding set by nothing. */
  lemma SameBalance(k: Connection, next: Connection, elsewhere: nat, r: nat)
    requires Balanced(k, elsewhere, r) && next.outstanding == k.outstanding
    requires forall q :: IoCarries(next.io, q) == IoCarries(k.io, q)
    requires next.channel.queue == k.channel.queue && next.channel.closing == k.channel.closing
    ensures Balanced(next, elsewhere, r)
  {
  }

  /** What a closing step leaves alone, and the only message it pushes. */
  lemma ClosesChange(c: Id, k: Connection, act: IoAct)
    requires CloseStep(c, k, act).Moved?
    ensures var n := CloseStep(c, k, act);
            && (n.pushed == [] || n.pushed == [Gone(c)]) && n.k.outstanding == k.outstanding
            && (n.k.channel == k.channel || n.k.channel == Close(k.channel))
    ensures forall r :: !IoCarries(k.io, r) && !IoCarries(CloseStep(c, k, act).k.io, r)
  {
    hide Close;
  }

  lemma CloseBalances(c: Id, k: Connection, act: IoAct, elsewhere: nat, r: nat)
    requires Balanced(k, elsewhere, r) && CloseStep(c, k, act).Moved?
    ensures var n := CloseStep(c, k, act);
            |n.pushed| <= 1 && Balanced(n.k, elsewhere + InQueue(n.pushed, r), r)
  {
    hide CloseStep, IoCarries;
    ClosesChange(c, k, act);
    var n := CloseStep(c, k, act);
    assert [Gone(c)][1..] == [];
    assert InQueue(n.pushed, r) == 0;
  }

  /** The request is carried to the queue by the step that pushes it. */
  lemma PushBalances(c: Id, k: Connection, elsewhere: nat, r: nat)
    requires Balanced(k, elsewhere, r) && k.io.Holding?
    ensures Balanced(k.(io := Idle), elsewhere + InQueue([Asked(c, k.io.request, k.io.ask)], r), r)
  {
    hide InChannel;
    assert [Asked(c, k.io.request, k.io.ask)][1..] == [];
  }

  lemma IoBalances(encode: Encoder, c: Id, k: Connection, act: IoAct, elsewhere: nat, r: nat)
    requires IoNext(encode, c, k, act).Moved? && Balanced(k, elsewhere, r)
    ensures var n := IoNext(encode, c, k, act);
            |n.pushed| <= 1 && Balanced(n.k, elsewhere + InQueue(n.pushed, r), r)
  {
    hide ReserveStep, CheckLoginStep, AnswerStep, TakeStep, ReleaseIdStep, CloseStep, Balanced, InChannel, MarkWritten;
    var n := IoNext(encode, c, k, act);
    match act
    case Reserve(request, ask) => ReserveBalances(k, request, ask, elsewhere, r);
    case CheckLogin => CheckLoginBalances(k, elsewhere, r);
    case Push => PushBalances(c, k, elsewhere, r);
    case Answer => AnswerBalances(k, elsewhere, r);
    case Take => TakeBalances(k, elsewhere, r);
    case ReleaseId => ReleaseIdBalances(k, elsewhere, r);
    case Hold => SameBalance(k, n.k, elsewhere, r);
    case Encode => SameBalance(k, n.k, elsewhere, r);
    case Send(_) => SameBalance(k, n.k, elsewhere, r);
    case Finish =>
      WrittenKeepsQueue(k.channel, k.sending.value.sequence);
      SameBalance(k, n.k, elsewhere, r);
    case _ => CloseBalances(c, k, act, elsewhere, r);
  }

  lemma WrittenKeepsQueue(ch: Channel, sequence: nat)
    ensures var next := MarkWritten(ch, sequence); next.queue == ch.queue && next.closing == ch.closing
  {
  }

  lemma IoKeepsConserved(encode: Encoder, c: Id, k: Connection, act: IoAct, pending: seq<Control>, hand: Hand)
    requires Conserved(k, pending, hand) && IoNext(encode, c, k, act).Moved?
    ensures var n := IoNext(encode, c, k, act); Conserved(n.k, pending + n.pushed, hand)
  {
    hide IoNext, IoCarries, HandCarries, InChannel, InQueue;
    var n := IoNext(encode, c, k, act);
    forall r
      ensures if n.k.channel.closing then Units(n.k, pending + n.pushed, hand, r) <= One(r in n.k.outstanding)
              else Units(n.k, pending + n.pushed, hand, r) == One(r in n.k.outstanding)
    {
      var elsewhere := InQueue(pending, r) + One(HandCarries(hand, r));
      assert Units(k, pending, hand, r) == One(IoCarries(k.io, r)) + InChannel(k.channel.queue, r) + elsewhere;
      IoBalances(encode, c, k, act, elsewhere, r);
      InQueueConcat(pending, n.pushed, r);
    }
  }

  // ----- Server steps -----

  /** What a message from the Server thread does to the balance of its target. */
  lemma DeliverConserves(k: Connection, m: Message, pending: seq<Control>, hand: Hand, after: Hand)
    requires Conserved(k, pending, hand) && AnswersHand(after)
    requires forall r :: One(HandCarries(after, r)) + One(Releases(m, r)) == One(HandCarries(hand, r))
    ensures Conserved(k.(channel := Enqueue(k.channel, m)), pending, after)
  {
    hide Enqueue, HandCarries, Releases, InQueue, InChannel, IoCarries;
    var next := k.(channel := Enqueue(k.channel, m));
    forall r
      ensures if next.channel.closing then Units(next, pending, after, r) <= One(r in next.outstanding)
              else Units(next, pending, after, r) == One(r in next.outstanding)
    {
      assert Units(k, pending, hand, r) == Units(k, pending, hand, r);
      EnqueueCounts(k.channel, m, r);
      CloseAbsorbs(k.channel, m);
    }
  }

  /** A change of hand that carries the same ids, and of fields that carry none. */
  lemma HandConserves(k: Connection, next: Connection, pending: seq<Control>, hand: Hand, after: Hand)
    requires Conserved(k, pending, hand) && AnswersHand(after)
    requires forall r :: HandCarries(after, r) == HandCarries(hand, r)
    requires next.outstanding == k.outstanding && next.io == k.io
             && (next.channel == k.channel || next.channel == Close(k.channel))
    ensures Conserved(next, pending, after)
  {
    hide HandCarries, InQueue, IoCarries;
    forall r
      ensures if next.channel.closing then Units(next, pending, after, r) <= One(r in next.outstanding)
              else Units(next, pending, after, r) == One(r in next.outstanding)
    {
      assert Units(k, pending, hand, r) == Units(k, pending, hand, r);
    }
  }

  lemma PopConserves(k: Connection, m: Control, rest: seq<Control>)
    requires Conserved(k, [m] + rest, Free)
    ensures Conserved(k, rest, InHand(m, Got))
  {
    hide IoCarries, InChannel;
    forall r
      ensures if k.channel.closing then Units(k, rest, InHand(m, Got), r) <= One(r in k.outstanding)
              else Units(k, rest, InHand(m, Got), r) == One(r in k.outstanding)
    {
      assert Units(k, [m] + rest, Free, r) == Units(k, rest, InHand(m, Got), r);
    }
  }

  ghost predicate AllConserved(s: State) {
    forall c | c in s.connections :: Conserved(s.connections[c], Of(s.queue, c), HandOf(s, c))
  }

  /** Where a delivery lands and where the sender in hand stands afterwards. */
  lemma DeliverKeepsConserved(s: State, target: Id, m: Message, then_: Stage)
    requires AllConserved(s) && s.server.Serving? && target in s.connections
    requires !then_.Responding? && !then_.MarkingClosed? && !then_.ClosingOutbound?
    requires forall c | c in s.connections :: (forall r ::
      One(HandCarries(HandIf(s, c, then_), r)) + One(c == target && Releases(m, r))
          == One(HandCarries(HandOf(s, c), r)))
    ensures AllConserved(Deliver(s, target, m, then_))
  {
    hide Enqueue, Conserved, Releases;
    var next := Deliver(s, target, m, then_);
    assert Onward(then_) == then_ && Onward(next.server.at) == then_;
    forall c | c in next.connections ensures Conserved(next.connections[c], Of(next.queue, c), HandOf(next, c)) {
      var k := s.connections[c];
      assert Conserved(k, Of(s.queue, c), HandOf(s, c));
      assert forall r :: HandCarries(HandOf(next, c), r) == HandCarries(HandIf(s, c, then_), r);
      if c == target {
        DeliverConserves(k, m, Of(s.queue, c), HandOf(s, c), HandOf(next, c));
      } else {
        HandConserves(k, k, Of(s.queue, c), HandOf(s, c), HandOf(next, c));
      }
    }
  }

  function HandIf(s: State, c: Id, at: Stage): (r: Hand) {
    if s.server.Serving? && IsOf(s.server.m, c) then InHand(s.server.m, at) else Free
  }

  /** A Server step that delivers nothing and leaves the ids in hand as they were. */
  lemma QuietKeepsConserved(s: State, next: State)
    requires AllConserved(s) && s.server.Serving? && next.server.Serving? && next.server.m == s.server.m
             && next.queue == s.queue
    requires s.server.m.Asked? ==> Unanswered(next.server.at) == Unanswered(s.server.at)
    requires s.server.m.Asked? && Onward(next.server.at).Responding? ==>
               Releases(Onward(next.server.at).reply, s.server.m.request)
                   || Onward(next.server.at) == Onward(s.server.at)
    requires next.connections.Keys == s.connections.Keys
    requires forall c | c in s.connections ::
      var k, after := s.connections[c], next.connections[c];
      after.outstanding == k.outstanding && after.io == k.io
          && (after.channel == k.channel || after.channel == Close(k.channel))
    ensures AllConserved(next)
  {
    hide Conserved, Releases, Close, Unanswered, Onward;
    forall c | c in next.connections ensures Conserved(next.connections[c], Of(next.queue, c), HandOf(next, c)) {
      assert Conserved(s.connections[c], Of(s.queue, c), HandOf(s, c));
      ConservedAnswers(s.connections[c], Of(s.queue, c), HandOf(s, c));
      HandConserves(s.connections[c], next.connections[c], Of(s.queue, c), HandOf(s, c), HandOf(next, c));
    }
  }

  lemma ConservedAnswers(k: Connection, pending: seq<Control>, hand: Hand)
    requires Conserved(k, pending, hand)
    ensures AnswersHand(hand)
  {
  }

  lemma LoginsConserve(s: State, act: ServeAct)
    requires AllConserved(s) && ServeNext(s, act).Some? && (act.CommitLogin? || act.Register?)
    ensures AllConserved(ServeNext(s, act).value)
  {
    hide AllConserved;
    QuietKeepsConserved(s, ServeNext(s, act).value);
  }

  lemma DecisionsConserve(s: State, act: ServeAct)
    requires AllConserved(s) && ServeNext(s, act).Some? && (act.CheckClient? || act.Execute?)
    ensures AllConserved(ServeNext(s, act).value)
  {
    hide AllConserved, Operate;
    QuietKeepsConserved(s, ServeNext(s, act).value);
  }

  lemma ClosesConserve(s: State, act: ServeAct)
    requires AllConserved(s) && ServeNext(s, act).Some?
    requires act.MarkTarget? || act.CloseTarget? || act.StartUnregister? || act.Unregister?
    ensures AllConserved(ServeNext(s, act).value)
  {
    hide AllConserved, Close, Without;
    QuietKeepsConserved(s, ServeNext(s, act).value);
  }

  lemma RouteConserves(s: State, sawClosing: bool)
    requires AllConserved(s) && RouteStep(s, sawClosing).Some?
    ensures AllConserved(RouteStep(s, sawClosing).value)
  {
    hide AllConserved, Deliver;
    var next := RouteStep(s, sawClosing).value;
    var at := s.server.at;
    if at.next < |s.registry| && next != At(s, Routing(at.next + 1)) {
      var c, target, message := s.server.m.c, s.registry[at.next], s.server.m.ask.message;
      DeliverKeepsConserved(s, target, ClientAction(s.connections[c].name, message.arg, message.parameters),
          Routing(at.next + 1));
    } else {
      QuietKeepsConserved(s, next);
    }
  }

  lemma PublishConserves(s: State)
    requires AllConserved(s) && PublishStep(s).Some?
    ensures AllConserved(PublishStep(s).value)
  {
    hide AllConserved, Deliver;
    var next := PublishStep(s).value;
    var at := s.server.at;
    if at.old_ != s.project && at.next < |s.registry| && next != At(s, Publishing(at.old_, at.next + 1)) {
      DeliverKeepsConserved(s, s.registry[at.next], ServerState(at.old_, s.project), Publishing(at.old_, at.next + 1));
    } else {
      QuietKeepsConserved(s, next);
    }
  }

  lemma RespondConserves(s: State)
    requires AllConserved(s) && RespondStep(s).Some? && (s.server.m.Asked? ==> s.server.m.c in s.connections)
    ensures AllConserved(RespondStep(s).value)
  {
    hide AllConserved, Deliver, Releases;
    var next := RespondStep(s).value;
    var m, reply := s.server.m, s.server.at.reply;
    if m.Asked? {
      HandIsAnswered(s, m.c);
      assert forall r :: Releases(reply, r) <==> m.request == r by {
        ReleasesOne(reply, m.request);
      }
      DeliverKeepsConserved(s, m.c, reply, AfterResponse(m, s.server.at.old_));
    } else {
      QuietKeepsConserved(s, next);
    }
  }

  lemma ReleasesOne(m: Message, request: nat)
    requires Releases(m, request)
    ensures forall r :: Releases(m, r) <==> request == r
  {
  }

  lemma HandIsAnswered(s: State, c: Id)
    requires AllConserved(s) && c in s.connections
    ensures AnswersHand(HandOf(s, c))
  {
    assert Conserved(s.connections[c], Of(s.queue, c), HandOf(s, c));
  }

  lemma PopKeepsConserved(s: State)
    requires AllConserved(s) && ServeNext(s, Pop).Some?
    ensures AllConserved(ServeNext(s, Pop).value)
  {
    hide Conserved;
    var next := ServeNext(s, Pop).value;
    var m := s.queue[0];
    forall c | c in next.connections ensures Conserved(next.connections[c], Of(next.queue, c), HandOf(next, c)) {
      assert Conserved(s.connections[c], Of(s.queue, c), HandOf(s, c));
      if IsOf(m, c) {
        PopConserves(s.connections[c], m, Of(next.queue, c));
      } else {
        assert [] + Of(next.queue, c) == Of(next.queue, c);
      }
    }
  }

  lemma LeaveConserves(s: State)
    requires AllConserved(s) && ServeNext(s, Leave).Some?
    ensures AllConserved(ServeNext(s, Leave).value)
  {
    hide Conserved;
    var next := ServeNext(s, Leave).value;
    forall c | c in next.connections ensures Conserved(next.connections[c], Of(next.queue, c), HandOf(next, c)) {
      assert Conserved(s.connections[c], Of(s.queue, c), HandOf(s, c));
      HandConserves(s.connections[c], next.connections[c], Of(s.queue, c), HandOf(s, c), HandOf(next, c));
    }
  }

  lemma ExitConserves(s: State)
    requires AllConserved(s) && ServeNext(s, Exit).Some?
    ensures ServeNext(s, Exit).value.server.Exited?
  {
  }

  lemma ServerKeepsConserved(s: State, act: ServeAct)
    requires AllConserved(s) && LifetimeInv(s) && ServeNext(s, act).Some? && !act.Exit?
    ensures AllConserved(ServeNext(s, act).value)
  {
    hide AllConserved, Of;
    match act
    case Pop => PopKeepsConserved(s);
    case Leave => LeaveConserves(s);
    case RouteNext(sawClosing) => RouteConserves(s, sawClosing);
    case PublishNext => PublishConserves(s);
    case Respond => RespondConserves(s);
    case MarkTarget => ClosesConserve(s, act);
    case CloseTarget => ClosesConserve(s, act);
    case StartUnregister => ClosesConserve(s, act);
    case Unregister => ClosesConserve(s, act);
    case CommitLogin(_) => LoginsConserve(s, act);
    case Register => LoginsConserve(s, act);
    case _ => DecisionsConserve(s, act);
  }

  // ----- every run -----

  ghost predicate RequestInv(s: State) { LifetimeInv(s) && (!s.server.Exited? ==> AllConserved(s)) }

  lemma PeerConserves(encode: Encoder, s: State, c: Id, act: IoAct)
    requires LifetimeInv(s) && AllConserved(s) && Next(encode, s, OfPeer(c, act)).Some?
    ensures AllConserved(Next(encode, s, OfPeer(c, act)).value)
  {
    hide IoNext, Conserved, Living, Of, LifetimeInv;
    var next := Next(encode, s, OfPeer(c, act)).value;
    var r := IoNext(encode, c, s.connections[c], act);
    PushedIsOwn(encode, s, c, act);
    IoKeepsConserved(encode, c, s.connections[c], act, Of(s.queue, c), HandOf(s, c));
    forall d | d in next.connections ensures Conserved(next.connections[d], Of(next.queue, d), HandOf(next, d)) {
      OfConcat(s.queue, r.pushed, d);
      if d != c {
        OfOthers(r.pushed, c, d);
        assert Of(s.queue, d) + [] == Of(s.queue, d);
      }
    }
  }

  lemma PushedIsOwn(encode: Encoder, s: State, c: Id, act: IoAct)
    requires LifetimeInv(s) && !s.server.Exited? && c in s.connections
             && IoNext(encode, c, s.connections[c], act).Moved?
    ensures var r := IoNext(encode, c, s.connections[c], act);
            Of(r.pushed, c) == r.pushed && |r.pushed| <= 1 && forall i | 0 <= i < |r.pushed| :: IsOf(r.pushed[i], c)
  {
    hide IoNext, Living;
    IoKeepsLiving(encode, c, s.connections[c], act, Of(s.queue, c), HandOf(s, c), c in s.registry);
  }

  lemma ConnectConserves(encode: Encoder, s: State, a: Action)
    requires LifetimeInv(s) && AllConserved(s) && Next(encode, s, a).Some? && (a.Admit? || a.Connect? || a.OfConsole?)
    ensures AllConserved(Next(encode, s, a).value)
  {
    hide Conserved;
    var next := Next(encode, s, a).value;
    forall d | d in next.connections ensures Conserved(next.connections[d], Of(next.queue, d), HandOf(next, d)) {
      if a.OfConsole? {
        OfConcat(s.queue, [Console(a.op)], d);
        OfOne(Console(a.op), d);
        assert Of(s.queue, d) + [] == Of(s.queue, d);
      }
      if d !in s.connections {
        OfUnknown(s.queue, d);
        NewbornConserves();
      }
    }
  }

  lemma NewbornConserves()
    ensures Conserved(Created(), [], Free)
  {
  }

  lemma StepKeepsRequests(encode: Encoder, s: State, a: Action)
    requires RequestInv(s) && Next(encode, s, a).Some?
    ensures RequestInv(Next(encode, s, a).value)
  {
    hide LifetimeInv, AllConserved, ServeNext, IoNext;
    StepKeepsLifetime(encode, s, a);
    match a
    case OfPeer(c, act) => PeerConserves(encode, s, c, act);
    case OfServer(act) =>
      if act.Exit? {
        ExitConserves(s);
      } else {
        ServerKeepsConserved(s, act);
      }
    case _ => ConnectConserves(encode, s, a);
  }

  lemma {:induction false} RunsKeepRequests(encode: Encoder, s: State, actions: seq<Action>)
    requires RequestInv(s) && RunOf(encode, s, actions).Some?
    ensures RequestInv(RunOf(encode, s, actions).value)
    decreases |actions|
  {
    hide Next, RequestInv;
    if actions != [] {
      StepKeepsRequests(encode, s, actions[0]);
      RunsKeepRequests(encode, Next(encode, s, actions[0]).value, actions[1..]);
    }
  }

  /**
   * In every reachable state an id has at most one unit of work, and over an open channel exactly one while it is
   * outstanding.
   */
  lemma RequestConservation(encode: Encoder, gateLimit: nat, actions: seq<Action>, c: Id, r: nat)
    requires RunOf(encode, Initial(gateLimit), actions).Some?
    requires var s := RunOf(encode, Initial(gateLimit), actions).value; c in s.connections && !s.server.Exited?
    ensures var s := RunOf(encode, Initial(gateLimit), actions).value;
            var k := s.connections[c];
            var units := Units(k, Of(s.queue, c), HandOf(s, c), r);
            && units <= 1 && (units == 1 ==> r in k.outstanding)
               && (!k.channel.closing ==> (units == 1 <==> r in k.outstanding))
  {
    hide RunOf, Units;
    RunsKeepRequests(encode, Initial(gateLimit), actions);
    var s := RunOf(encode, Initial(gateLimit), actions).value;
    assert Conserved(s.connections[c], Of(s.queue, c), HandOf(s, c));
    assert Units(s.connections[c], Of(s.queue, c), HandOf(s, c), r) >= 0;
  }

  lemma IoReleases(encode: Encoder, c: Id, k: Connection, act: IoAct, r: nat)
    requires IoNext(encode, c, k, act).Moved? && r in k.outstanding && r !in IoNext(encode, c, k, act).k.outstanding
    ensures act.ReleaseId? && k.io.Dequeued? && Releases(k.io.write.message, r)
  {
    hide Enqueue, TryNext, AfterNext, Close, MarkWritten;
  }

  /** An id becomes available again only by the step that follows taking its response for writing. */
  lemma OnlyWritingReleases(encode: Encoder, s: State, a: Action, c: Id, r: nat)
    requires LifetimeInv(s) && Next(encode, s, a).Some?
    requires c in s.connections && r in s.connections[c].outstanding
    ensures var next := Next(encode, s, a).value;
            && c in next.connections
            && (r !in next.connections[c].outstanding ==>
                  a == OfPeer(c, ReleaseId) && s.connections[c].io.Dequeued?
                      && Releases(s.connections[c].io.write.message, r))
  {
    hide IoNext, ServeNext, AllLiving;
    match a
    case OfPeer(d, act) =>
      if d == c && r !in Next(encode, s, a).value.connections[c].outstanding {
        IoReleases(encode, c, s.connections[c], act, r);
      }
    case OfServer(act) => ProtocolWire.ServerStepDisturbs(s, act);
    case _ =>
  }
}
