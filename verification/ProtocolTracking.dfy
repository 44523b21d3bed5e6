/**
 * State tracking: a client that folds the state in its LOGIN response and the state actions after it
 * always arrives at the Server's current project state between two iterations of the run loop.
 */
module ProtocolTracking {
  import opened Wrappers
  import opened Sequences
  import opened Outbound
  import opened Protocol
  import opened ProtocolLifetime
  import opened ProtocolRequests

  /** The project state a client has last heard of. */
  function Heard(accepted: seq<Message>): (r: Option<ProjectState>) {
    if accepted == [] then None else HearMore(Heard(Init(accepted)), Last(accepted))
  }

  function HearMore(before: Option<ProjectState>, m: Message): (r: Option<ProjectState>) {
    match m
    case Response(_, _, _, StateOf(project), _) => Some(project)
    case ServerState(_, new_) => Some(new_)
    case _ => before
  }

  /** A state payload agrees with what was heard before, and an action starts from it. */
  predicate Fits(before: Option<ProjectState>, m: Message) {
    match m
    case Response(_, _, _, StateOf(project), _) => before == None || before == Some(project)
    case ServerState(old_, _) => before == Some(old_)
    case _ => true
  }

  predicate Coherent(accepted: seq<Message>) {
    accepted == [] || (Coherent(Init(accepted)) && Fits(Heard(Init(accepted)), Last(accepted)))
  }

  // ----- what the Server thinks each client knows -----

  predicate IsRequest(m: Control) { m.Console? || (m.Asked? && m.ask.AskServer?) }

  /** A LOGIN has been registered and its answer, which carries the state, is still to be enqueued. */
  predicate AnswerDue(s: State, c: Id) {
    && s.server.Serving? && s.server.m.Asked? && s.server.m.c == c && s.server.m.ask.AskLogin?
    && Onward(s.server.at).Responding? && Onward(s.server.at).reply.Response?
       && Onward(s.server.at).reply.payload.StateOf?
  }

  /** The state published so far to a registered connection. */
  function Seen(s: State, c: Id): (r: ProjectState) {
    if !s.server.Serving? then s.project
    else
      match Onward(s.server.at)
      case Responding(_, old_) => old_
      case Publishing(old_, next) => if next <= |s.registry| && c in s.registry[..next] then s.project else old_
      case _ => s.project
  }

  function Told(s: State, c: Id): (r: Option<ProjectState>) {
    if c !in s.registry || AnswerDue(s, c) then None else Some(Seen(s, c))
  }

  // ----- invariants -----

  ghost predicate Informed(k: Connection, told: Option<ProjectState>) {
    && Coherent(k.channel.accepted) && (!k.channel.closing ==> Heard(k.channel.accepted) == told)
    && (k.io.Answering? ==> k.io.reply.Response? && k.io.reply.payload.NoPayload?)
  }

  predicate NeedsLogin(m: Control) { m.Asked? && !m.ask.AskLogin? }

  /** Who is logged in is registered, up to the close of the channel; who is not asks for nothing but LOGIN. */
  ghost predicate Member(k: Connection, pending: seq<Control>, hand: Hand, registered: bool) {
    && (registered ==> k.committed)
    && (k.committed && !k.channel.closing ==> registered || (hand.InHand? && hand.at.Registering?))
    && (k.io.Cleared? || k.io.Holding? ==> k.io.ask.AskLogin? || k.committed)
    && (forall i | 0 <= i < |pending| :: NeedsLogin(pending[i]) ==> k.committed)
    && (hand.InHand? && NeedsLogin(hand.m) ==> k.committed)
    && (hand.InHand? && hand.at.Registering? ==> k.committed)
    && (HandGone(hand) && (hand.at.Unregistering? || hand.at.Leaving?) ==> k.channel.closing)
  }

  predicate IsRegisteredLogin(s: State, m: Control) { m.Asked? && m.ask.AskLogin? && m.c in s.registry }

  predicate StageFacts(s: State) {
    s.server.Serving? ==>
      match Onward(s.server.at)
      case Responding(reply, old_) =>
        && reply.Response? && (!IsRequest(s.server.m) ==> old_ == s.project) && !s.server.m.Gone?
        && (reply.payload.StateOf? ==> reply.payload.project == old_ == s.project)
        && (reply.payload.StateOf? ==> IsRequest(s.server.m) || IsRegisteredLogin(s, s.server.m))
      case Publishing(_, next) => next <= |s.registry| && !s.server.m.Gone?
      case Registering => s.server.at.Registering? && s.server.m.Asked? && s.server.m.ask.AskLogin?
      case Unregistering => s.server.m.Gone?
      case _ => true
  }

  ghost predicate Tracking(s: State) {
    && (s.hasProject <==> !s.project.Unloaded?) && StageFacts(s)
    && forall c | c in s.connections ::
         Informed(s.connections[c], Told(s, c))
             && Member(s.connections[c], Of(s.queue, c), HandOf(s, c), c in s.registry)
  }

  ghost predicate TrackInv(s: State) { LifetimeInv(s) && (!s.server.Exited? ==> Tracking(s)) }

  // ----- enqueues -----

  lemma HeardSnoc(accepted: seq<Message>, m: Message)
    ensures Heard(accepted + [m]) == HearMore(Heard(accepted), m)
    ensures Coherent(accepted + [m]) <==> Coherent(accepted) && Fits(Heard(accepted), m)
  {
    assert Init(accepted + [m]) == accepted;
  }

  lemma EnqueueInforms(k: Connection, m: Message, told: Option<ProjectState>, after: Option<ProjectState>)
    requires Informed(k, told) && (!k.channel.closing ==> Fits(told, m) && after == HearMore(told, m))
    ensures Informed(k.(channel := Enqueue(k.channel, m)), after)
  {
    hide Heard, Coherent, Estimate, Fits, HearMore;
    HeardSnoc(k.channel.accepted, m);
  }

  // ----- transport steps -----

  /** No transport step but an answer gets a message accepted, and its own answers carry no state. */
  lemma ChannelStays(encode: Encoder, c: Id, k: Connection, act: IoAct)
    requires IoNext(encode, c, k, act).Moved? && !act.Answer?
    ensures var next := IoNext(encode, c, k, act).k;
            && next.channel.accepted == k.channel.accepted && (k.channel.closing ==> next.channel.closing)
            && (next.io.Answering? && next.io != k.io ==> next.io.reply.Response? && next.io.reply.payload.NoPayload?)
  {
    hide CloseStep;
    match act
    case Reserve(_, _) =>
    case CheckLogin =>
    case Hold =>
    case Push =>
    case Take =>
    case ReleaseId =>
    case Encode =>
    case Send(_) =>
    case Finish =>
    case _ => ClosingStays(c, k, act);
  }

  lemma ClosingStays(c: Id, k: Connection, act: IoAct)
    requires CloseStep(c, k, act).Moved?
    ensures var next := CloseStep(c, k, act).k;
            next.channel.accepted == k.channel.accepted && (k.channel.closing ==> next.channel.closing)
                && !next.io.Answering?
  {
  }

  lemma IoInforms(encode: Encoder, c: Id, k: Connection, act: IoAct, told: Option<ProjectState>)
    requires Informed(k, told) && IoNext(encode, c, k, act).Moved?
    ensures Informed(IoNext(encode, c, k, act).k, told)
  {
    hide Heard, Coherent, Enqueue, Fits, HearMore;
    if act.Answer? {
      NoPayloadFits(told, k.io.reply);
      EnqueueInforms(k, k.io.reply, told, told);
    } else {
      ChannelStays(encode, c, k, act);
    }
  }

  lemma NoPayloadFits(told: Option<ProjectState>, m: Message)
    requires m.ClientAction? || (m.Response? && m.payload.NoPayload?)
    ensures Fits(told, m) && HearMore(told, m) == told
  {
  }

  lemma IoKeepsMember(encode: Encoder, c: Id, k: Connection, act: IoAct, pending: seq<Control>, hand: Hand,
      registered: bool)
    requires Member(k, pending, hand, registered) && IoNext(encode, c, k, act).Moved?
    ensures var r := IoNext(encode, c, k, act); Member(r.k, pending + r.pushed, hand, registered)
  {
    hide Estimate, HandGone;
    var r := IoNext(encode, c, k, act);
    var next := pending + r.pushed;
    assert forall i | 0 <= i < |pending| :: next[i] == pending[i];
  }

  lemma PeerTracks(encode: Encoder, s: State, c: Id, act: IoAct)
    requires LifetimeInv(s) && Tracking(s) && Next(encode, s, OfPeer(c, act)).Some?
    ensures Tracking(Next(encode, s, OfPeer(c, act)).value)
  {
    hide IoNext, Informed, Member, Living, Of, Onward, LifetimeInv;
    var next := Next(encode, s, OfPeer(c, act)).value;
    var r := IoNext(encode, c, s.connections[c], act);
    PushedIsOwn(encode, s, c, act);
    IoInforms(encode, c, s.connections[c], act, Told(s, c));
    IoKeepsMember(encode, c, s.connections[c], act, Of(s.queue, c), HandOf(s, c), c in s.registry);
    forall d | d in next.connections
      ensures Informed(next.connections[d], Told(next, d))
      ensures Member(next.connections[d], Of(next.queue, d), HandOf(next, d), d in next.registry)
    {
      assert Told(next, d) == Told(s, d) && HandOf(next, d) == HandOf(s, d);
      OfConcat(s.queue, r.pushed, d);
      if d != c {
        OfOthers(r.pushed, c, d);
        assert Of(s.queue, d) + [] == Of(s.queue, d);
      }
    }
  }

  // ----- Server steps -----

  lemma ConnectTracks(encode: Encoder, s: State, a: Action)
    requires LifetimeInv(s) && Tracking(s) && Next(encode, s, a).Some? && (a.Admit? || a.Connect? || a.OfConsole?)
    ensures Tracking(Next(encode, s, a).value)
  {
    hide Informed, Member, Onward, StageFacts, LifetimeInv, Of;
    assert Known(s) by {
      LifetimeKnown(s);
    }
    var next := Next(encode, s, a).value;
    assert StageFacts(next) by {
      FactsStay(s, next);
    }
    forall d | d in next.connections
      ensures Informed(next.connections[d], Told(next, d))
      ensures Member(next.connections[d], Of(next.queue, d), HandOf(next, d), d in next.registry)
    {
      if a.OfConsole? {
        OfConcat(s.queue, [Console(a.op)], d);
        OfOne(Console(a.op), d);
        assert Of(s.queue, d) + [] == Of(s.queue, d);
      }
      if d in s.connections {
        assert Told(next, d) == Told(s, d) && HandOf(next, d) == HandOf(s, d);
      } else {
        OfUnknown(s.queue, d);
        NewbornTracks();
      }
    }
  }

  lemma LifetimeKnown(s: State)
    requires LifetimeInv(s)
    ensures Known(s)
  {
  }

  lemma FactsStay(s: State, next: State)
    requires StageFacts(s) && next.server == s.server && next.registry == s.registry && next.project == s.project
    ensures StageFacts(next)
  {
    hide Onward, Releases;
  }

  lemma NewbornTracks()
    ensures Informed(Created(), None) && Member(Created(), [], Free, false)
  {
  }

  lemma PopTracks(s: State)
    requires Tracking(s) && ServeNext(s, Pop).Some?
    ensures Tracking(ServeNext(s, Pop).value)
  {
    hide Informed;
    var next := ServeNext(s, Pop).value;
    var m := s.queue[0];
    forall d | d in next.connections
      ensures Informed(next.connections[d], Told(next, d))
      ensures Member(next.connections[d], Of(next.queue, d), HandOf(next, d), d in next.registry)
    {
      assert Told(next, d) == Told(s, d);
      var pending := Of(s.queue, d);
      assert Member(s.connections[d], pending, HandOf(s, d), d in s.registry);
      if IsOf(m, d) {
        assert pending == [m] + Of(next.queue, d);
        assert pending[0] == m;
        assert forall i | 0 <= i < |Of(next.queue, d)| :: Of(next.queue, d)[i] == pending[i + 1];
      } else {
        assert [] + Of(next.queue, d) == Of(next.queue, d);
      }
    }
  }

  lemma CommitTracks(s: State, sawClosing: bool)
    requires Tracking(s) && CommitStep(s, sawClosing).Some?
    ensures Tracking(CommitStep(s, sawClosing).value)
  {
    hide Heard, Coherent, Of;
    var next := CommitStep(s, sawClosing).value;
    assert StageFacts(next) && forall d :: Told(next, d) == Told(s, d);
    hide StageFacts, Told, Releases;
    forall d | d in next.connections
      ensures Informed(next.connections[d], Told(next, d))
      ensures Member(next.connections[d], Of(next.queue, d), HandOf(next, d), d in next.registry)
    {
      assert Informed(s.connections[d], Told(s, d))
             && Member(s.connections[d], Of(s.queue, d), HandOf(s, d), d in s.registry);
    }
  }

  lemma RegisterTracks(s: State)
    requires Tracking(s) && RegisterStep(s).Some?
    ensures Tracking(RegisterStep(s).value)
  {
    hide Informed, Of;
    var next := RegisterStep(s).value;
    assert StageFacts(next) && forall d :: Told(next, d) == Told(s, d);
    hide StageFacts, Told;
    forall d | d in next.connections
      ensures Informed(next.connections[d], Told(next, d))
      ensures Member(next.connections[d], Of(next.queue, d), HandOf(next, d), d in next.registry)
    {
      assert Informed(s.connections[d], Told(s, d))
             && Member(s.connections[d], Of(s.queue, d), HandOf(s, d), d in s.registry);
    }
  }

  lemma CheckClientTracks(s: State, sawClosing: bool, closedSince: bool)
    requires Tracking(s) && CheckClientStep(s, sawClosing, closedSince).Some?
    ensures Tracking(CheckClientStep(s, sawClosing, closedSince).value)
  {
    hide Informed, Of;
    var next := CheckClientStep(s, sawClosing, closedSince).value;
    forall d | d in next.connections
      ensures Informed(next.connections[d], Told(next, d))
      ensures Member(next.connections[d], Of(next.queue, d), HandOf(next, d), d in next.registry)
    {
      assert Informed(s.connections[d], Told(s, d))
             && Member(s.connections[d], Of(s.queue, d), HandOf(s, d), d in s.registry);
      assert Told(next, d) == Told(s, d);
    }
  }

  lemma OperationsKeepProject(op: Op, project: ProjectState, hasProject: bool, succeeds: bool)
    requires hasProject <==> !project.Unloaded?
    ensures var r := Operate(op, project, hasProject, succeeds);
            && (r.hasProject <==> !r.project.Unloaded?) && (op.GetState? ==> r.project == project)
            && (!r.ok ==> r.project == project && r.hasProject == hasProject)
  {
  }

  lemma ExecuteTracks(s: State, allowed: bool, succeeds: bool, value: RuntimeValue, diagnostics: seq<Diagnostic>)
    requires Tracking(s) && ExecuteStep(s, allowed, succeeds, value, diagnostics).Some?
    ensures Tracking(ExecuteStep(s, allowed, succeeds, value, diagnostics).value)
  {
    hide Informed, Of, Operate;
    var next := ExecuteStep(s, allowed, succeeds, value, diagnostics).value;
    forall op | true
      ensures var r := Operate(op, s.project, s.hasProject, succeeds);
              (r.hasProject <==> !r.project.Unloaded?) && (op.GetState? ==> r.project == s.project)
    {
      OperationsKeepProject(op, s.project, s.hasProject, succeeds);
    }
    forall d | d in next.connections
      ensures Informed(next.connections[d], Told(next, d))
      ensures Member(next.connections[d], Of(next.queue, d), HandOf(next, d), d in next.registry)
    {
      assert Informed(s.connections[d], Told(s, d))
             && Member(s.connections[d], Of(s.queue, d), HandOf(s, d), d in s.registry);
      assert Told(next, d) == Told(s, d);
    }
  }

  /** Delivering a message that its target expects. */
  lemma DeliverTracks(s: State, target: Id, m: Message, then_: Stage)
    requires Tracking(s) && s.server.Serving? && target in s.connections
    requires then_.Routing? || then_.Publishing? || then_.Leaving?
    requires then_.Publishing? ==> then_.next <= |s.registry|
    requires HandOf(s, target).InHand? ==> !s.server.at.Registering? && !s.server.m.Gone?
    requires !s.connections[target].channel.closing ==>
               Fits(Told(s, target), m) && Told(At(s, then_), target) == HearMore(Told(s, target), m)
    requires forall d | d in s.connections && d != target :: Told(At(s, then_), d) == Told(s, d)
    requires !s.server.m.Gone? && !s.server.at.Registering?
    ensures Tracking(Deliver(s, target, m, then_))
  {
    hide Informed, Of, Enqueue, Fits, HearMore, StageFacts, Told;
    var next := Deliver(s, target, m, then_);
    DeliveryFacts(s, target, m, then_);
    CloseAbsorbs(s.connections[target].channel, m);
    forall d | d in next.connections
      ensures Informed(next.connections[d], Told(next, d))
      ensures Member(next.connections[d], Of(next.queue, d), HandOf(next, d), d in next.registry)
    {
      assert Informed(s.connections[d], Told(s, d))
             && Member(s.connections[d], Of(s.queue, d), HandOf(s, d), d in s.registry);
      DeliveryTells(s, target, m, then_, d);
      if d == target {
        EnqueueInforms(s.connections[d], m, Told(s, d), Told(next, d));
      }
    }
  }

  lemma DeliveryFacts(s: State, target: Id, m: Message, then_: Stage)
    requires s.server.Serving? && target in s.connections && (then_.Routing? || then_.Publishing? || then_.Leaving?)
    requires (then_.Publishing? ==> then_.next <= |s.registry|) && !s.server.m.Gone?
    ensures StageFacts(Deliver(s, target, m, then_)) && Onward(Deliver(s, target, m, then_).server.at) == then_
  {
    hide Enqueue;
    assert Onward(then_) == then_;
  }

  lemma DeliveryTells(s: State, target: Id, m: Message, then_: Stage, d: Id)
    requires s.server.Serving? && target in s.connections && (then_.Routing? || then_.Publishing? || then_.Leaving?)
    ensures Told(Deliver(s, target, m, then_), d) == Told(At(s, then_), d)
  {
    hide Enqueue;
    assert Onward(then_) == then_ && Onward(Deliver(s, target, m, then_).server.at) == then_;
  }

  /** A step of the stage alone, with which every client is told the same. */
  lemma StageTracks(s: State, at: Stage)
    requires Tracking(s) && s.server.Serving? && StageFacts(At(s, at)) && !at.Registering? && !s.server.at.Registering?
    requires s.server.m.Gone? ==> at.MarkingClosed? || at.ClosingOutbound?
    requires forall d | d in s.connections :: Told(At(s, at), d) == Told(s, d)
    ensures Tracking(At(s, at))
  {
    hide Informed, Of, Told;
    forall d | d in s.connections
      ensures Informed(s.connections[d], Told(At(s, at), d))
      ensures Member(s.connections[d], Of(s.queue, d), HandOf(At(s, at), d), d in s.registry)
    {
      assert Informed(s.connections[d], Told(s, d))
             && Member(s.connections[d], Of(s.queue, d), HandOf(s, d), d in s.registry);
    }
  }

  lemma RouteTracks(s: State, sawClosing: bool)
    requires Tracking(s) && RouteStep(s, sawClosing).Some?
    ensures Tracking(RouteStep(s, sawClosing).value)
  {
    hide Tracking, Deliver;
    var next := RouteStep(s, sawClosing).value;
    var at := s.server.at;
    if at.next >= |s.registry| {
      StageTracks(s, next.server.at);
    } else if next == At(s, Routing(at.next + 1)) {
      StageTracks(s, Routing(at.next + 1));
    } else {
      var c, target, message := s.server.m.c, s.registry[at.next], s.server.m.ask.message;
      DeliverTracks(s, target, ClientAction(s.connections[c].name, message.arg, message.parameters),
          Routing(at.next + 1));
    }
  }

  lemma PublishTracks(s: State)
    requires Tracking(s) && Known(s) && PublishStep(s).Some?
    ensures Tracking(PublishStep(s).value)
  {
    hide Tracking, Deliver, TargetsOk;
    var next := PublishStep(s).value;
    var at := s.server.at;
    PublishingFacts(s);
    if at.old_ == s.project || at.next >= |s.registry| {
      assert s.registry[..|s.registry|] == s.registry;
      StageTracks(s, Leaving);
    } else {
      var target := s.registry[at.next];
      RegisteredIsCommitted(s, target);
      var more := s.registry[..at.next + 1];
      assert more == s.registry[..at.next] + [target];
      DeliverTracks(s, target, ServerState(at.old_, s.project), Publishing(at.old_, at.next + 1));
    }
  }

  lemma PublishingFacts(s: State)
    requires Tracking(s) && PublishStep(s).Some?
    ensures s.server.at.next <= |s.registry| && !s.server.m.Gone?
  {
  }

  lemma RegisteredIsCommitted(s: State, c: Id)
    requires Tracking(s) && c in s.registry && c in s.connections
    ensures s.connections[c].committed
  {
    assert Member(s.connections[c], Of(s.queue, c), HandOf(s, c), c in s.registry);
  }

  lemma RespondTracks(s: State)
    requires Tracking(s) && RespondStep(s).Some?
    ensures Tracking(RespondStep(s).value)
  {
    hide Tracking, Deliver;
    RespondingFacts(s);
    var m, reply, old_ := s.server.m, s.server.at.reply, s.server.at.old_;
    var then_ := AfterResponse(m, old_);
    if m.Asked? {
      if reply.payload.StateOf? && IsRequest(m) {
        AskerIsRegistered(s);
      }
      DeliverTracks(s, m.c, reply, then_);
    } else {
      StageTracks(s, then_);
    }
  }

  lemma RespondingFacts(s: State)
    requires Tracking(s) && s.server.Serving? && s.server.at.Responding?
    ensures var reply, old_ := s.server.at.reply, s.server.at.old_;
            && reply.Response? && (!IsRequest(s.server.m) ==> old_ == s.project) && !s.server.m.Gone?
            && (reply.payload.StateOf? ==> reply.payload.project == old_ == s.project)
            && (reply.payload.StateOf? ==> IsRequest(s.server.m) || IsRegisteredLogin(s, s.server.m))
  {
  }

  /** Only a connection that is registered, or closing, can have asked for anything but LOGIN. */
  lemma AskerIsRegistered(s: State)
    requires Tracking(s) && s.server.Serving? && NeedsLogin(s.server.m) && !s.server.at.Registering?
             && s.server.m.c in s.connections
    ensures s.connections[s.server.m.c].channel.closing || s.server.m.c in s.registry
  {
    var c := s.server.m.c;
    assert Member(s.connections[c], Of(s.queue, c), HandOf(s, c), c in s.registry);
  }

  lemma ToldTheSame(s: State, next: State, d: Id)
    requires s.server.Serving? && next.server.Serving? && next.server.m == s.server.m
    requires Onward(next.server.at) == Onward(s.server.at) && next.registry == s.registry && next.project == s.project
    ensures Told(next, d) == Told(s, d)
  {
    hide Onward;
  }

  lemma ClosesTrack(s: State, act: ServeAct)
    requires Tracking(s) && CloseTargetStep(s, act).Some? && (s.server.m.Gone? ==> GoneStage(s.server.m.c, s.server.at))
    ensures Tracking(CloseTargetStep(s, act).value)
  {
    hide Informed, Member, Of, Told, StageFacts, Close;
    var next := CloseTargetStep(s, act).value;
    CloseKeepsFacts(s, act);
    forall d | d in next.connections
      ensures Informed(next.connections[d], Told(next, d))
      ensures Member(next.connections[d], Of(next.queue, d), HandOf(next, d), d in next.registry)
    {
      ToldTheSame(s, next, d);
      CloseInforms(s.connections[d], next.connections[d], Told(s, d));
      CloseKeepsMember(s, act, d);
    }
  }

  lemma CloseKeepsFacts(s: State, act: ServeAct)
    requires Tracking(s) && CloseTargetStep(s, act).Some?
    ensures var next := CloseTargetStep(s, act).value;
            StageFacts(next) && Onward(next.server.at) == Onward(s.server.at) && !next.server.at.Registering?
  {
    hide Informed, Member, Of, Close, Releases;
    var then_ := s.server.at.then_;
    assert Onward(then_) == Onward(s.server.at);
  }

  /** Closing changes no message a connection has been given. */
  lemma CloseInforms(k: Connection, next: Connection, told: Option<ProjectState>)
    requires Informed(k, told) && next.io == k.io && (next.channel == k.channel || next.channel == Close(k.channel))
    ensures Informed(next, told)
  {
    hide Heard, Coherent;
  }

  lemma CloseKeepsMember(s: State, act: ServeAct, d: Id)
    requires CloseTargetStep(s, act).Some? && d in s.connections
             && (s.server.m.Gone? ==> GoneStage(s.server.m.c, s.server.at))
    requires Member(s.connections[d], Of(s.queue, d), HandOf(s, d), d in s.registry)
    requires !CloseTargetStep(s, act).value.server.at.Registering?
    ensures var next := CloseTargetStep(s, act).value;
            Member(next.connections[d], Of(next.queue, d), HandOf(next, d), d in next.registry)
  {
    hide Of;
  }

  lemma StartUnregisterTracks(s: State)
    requires Tracking(s) && ServeNext(s, StartUnregister).Some?
    ensures Tracking(ServeNext(s, StartUnregister).value)
  {
    hide Tracking;
    assert Onward(MarkingClosed(s.server.m.c, Unregistering)) == Onward(Unregistering);
    StageTracks(s, MarkingClosed(s.server.m.c, Unregistering));
  }

  lemma UnregisterTracks(s: State)
    requires Tracking(s) && Known(s) && ServeNext(s, Unregister).Some?
    ensures Tracking(ServeNext(s, Unregister).value)
  {
    hide Heard, Coherent, Of, Without, TargetsOk;
    var next := ServeNext(s, Unregister).value;
    WithoutRemoves(s.registry, s.server.m.c);
    forall d | d in next.connections
      ensures Informed(next.connections[d], Told(next, d))
      ensures Member(next.connections[d], Of(next.queue, d), HandOf(next, d), d in next.registry)
    {
      assert Informed(s.connections[d], Told(s, d))
             && Member(s.connections[d], Of(s.queue, d), HandOf(s, d), d in s.registry);
    }
  }

  lemma LeaveTracks(s: State)
    requires Tracking(s) && ServeNext(s, Leave).Some?
    ensures Tracking(ServeNext(s, Leave).value)
  {
    hide Heard, Coherent, Of;
    var next := ServeNext(s, Leave).value;
    forall d | d in next.connections
      ensures Informed(next.connections[d], Told(next, d))
      ensures Member(next.connections[d], Of(next.queue, d), HandOf(next, d), d in next.registry)
    {
      assert Informed(s.connections[d], Told(s, d))
             && Member(s.connections[d], Of(s.queue, d), HandOf(s, d), d in s.registry);
      assert Told(next, d) == Told(s, d);
    }
  }

  lemma ServerTracks(s: State, act: ServeAct)
    requires LifetimeInv(s) && !s.server.Exited? && Tracking(s) && ServeNext(s, act).Some? && !act.Exit?
    ensures Tracking(ServeNext(s, act).value)
  {
    hide Tracking, AllLiving;
    match act
    case Pop => PopTracks(s);
    case CommitLogin(sawClosing) => CommitTracks(s, sawClosing);
    case Register => RegisterTracks(s);
    case CheckClient(sawClosing, closedSince) => CheckClientTracks(s, sawClosing, closedSince);
    case RouteNext(sawClosing) => RouteTracks(s, sawClosing);
    case Execute(allowed, succeeds, value, diagnostics) => ExecuteTracks(s, allowed, succeeds, value, diagnostics);
    case Respond => RespondTracks(s);
    case PublishNext => PublishTracks(s);
    case StartUnregister => StartUnregisterTracks(s);
    case Unregister => UnregisterTracks(s);
    case MarkTarget =>
      if s.server.m.Gone? {
        GoneInHand(s);
      }
      ClosesTrack(s, act);
    case CloseTarget =>
      if s.server.m.Gone? {
        GoneInHand(s);
      }
      ClosesTrack(s, act);
    case Leave => LeaveTracks(s);
  }

  // ----- every run -----

  lemma StepKeepsTracking(encode: Encoder, s: State, a: Action)
    requires TrackInv(s) && Next(encode, s, a).Some?
    ensures TrackInv(Next(encode, s, a).value)
  {
    hide LifetimeInv, Tracking, ServeNext, IoNext;
    StepKeepsLifetime(encode, s, a);
    match a
    case OfPeer(c, act) => PeerTracks(encode, s, c, act);
    case OfServer(act) =>
      if act.Exit? {
        ExitEnds(s);
      } else {
        ServerTracks(s, act);
      }
    case _ => ConnectTracks(encode, s, a);
  }

  lemma ExitEnds(s: State)
    requires ServeNext(s, Exit).Some?
    ensures ServeNext(s, Exit).value.server.Exited?
  {
  }

  lemma {:induction false} RunsKeepTracking(encode: Encoder, s: State, actions: seq<Action>)
    requires TrackInv(s) && RunOf(encode, s, actions).Some?
    ensures TrackInv(RunOf(encode, s, actions).value)
    decreases |actions|
  {
    hide Next, TrackInv;
    if actions != [] {
      StepKeepsTracking(encode, s, actions[0]);
      RunsKeepTracking(encode, Next(encode, s, actions[0]).value, actions[1..]);
    }
  }

  lemma InitiallyTracked(gateLimit: nat)
    ensures TrackInv(Initial(gateLimit))
  {
  }

  /**
   * Between two iterations of the run loop every registered connection whose channel is open has
   * been told exactly the current project state, and at all times every connection's messages agree
   * with the fold of those before them. A project is loaded exactly when the state is not Unloaded.
   */
  lemma StateTracking(encode: Encoder, gateLimit: nat, actions: seq<Action>)
    requires RunOf(encode, Initial(gateLimit), actions).Some?
    ensures var s := RunOf(encode, Initial(gateLimit), actions).value;
            !s.server.Exited? ==>
              && (s.hasProject <==> !s.project.Unloaded?)
              && (forall c | c in s.connections :: Coherent(s.connections[c].channel.accepted))
              && (s.server.Looping?
                 ==> forall c | c in s.registry && c in s.connections && !s.connections[c].channel.closing ::
                    Heard(s.connections[c].channel.accepted) == Some(s.project))
  {
    hide RunOf, Heard, Coherent, Member, AllLiving;
    InitiallyTracked(gateLimit);
    RunsKeepTracking(encode, Initial(gateLimit), actions);
  }

  /** In every reachable state all that waits for the Server, or is served, but a LOGIN comes from who has logged in. */
  lemma OnlyMembersAsk(encode: Encoder, gateLimit: nat, actions: seq<Action>, m: Control)
    requires RunOf(encode, Initial(gateLimit), actions).Some?
    requires m.Asked? && !m.ask.AskLogin?
    requires var s := RunOf(encode, Initial(gateLimit), actions).value;
             !s.server.Exited? && (m in s.queue || (s.server.Serving? && s.server.m == m)) && m.c in s.connections
    ensures RunOf(encode, Initial(gateLimit), actions).value.connections[m.c].committed
  {
    hide RunOf, Informed, AllLiving, StageFacts;
    InitiallyTracked(gateLimit);
    RunsKeepTracking(encode, Initial(gateLimit), actions);
    var s := RunOf(encode, Initial(gateLimit), actions).value;
    if m in s.queue {
      OfHas(s.queue, m);
    }
    var pending := Of(s.queue, m.c);
    assert m in pending ==> exists i :: 0 <= i < |pending| && pending[i] == m;
    assert Member(s.connections[m.c], pending, HandOf(s, m.c), m.c in s.registry);
  }

  lemma {:induction false} OfHas(queue: seq<Control>, m: Control)
    requires m in queue && m.Asked?
    ensures m in Of(queue, m.c)
    decreases |queue|
  {
    if queue[0] != m {
      OfHas(queue[1..], m);
    }
  }
}
