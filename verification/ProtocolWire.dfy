/**
 * Wire output: what has been sent on a connection is always whole frames, one for each accepted
 * message in the order of acceptance, followed by a part of the next frame.
 */
module ProtocolWire {
  import opened Bytes
  import opened Wrappers
  import opened Outbound
  import opened Protocol
  import Framing

  /** The frame of the message with sequence n + 1. */
  function FrameOf(encode: Encoder, accepted: seq<Message>, n: nat): (r: bytes)
    requires n < |accepted|
  {
    match TextOf(encode, Write(n + 1, accepted[n]))
    case None => []
    case Some(json) => Framing.Frame(json)
  }

  function FramesUpTo(encode: Encoder, accepted: seq<Message>, n: nat): (r: bytes)
    requires n <= |accepted|
    decreases n
  {
    if n == 0 then [] else FramesUpTo(encode, accepted, n - 1) + FrameOf(encode, accepted, n - 1)
  }

  predicate Encodable(encode: Encoder, accepted: seq<Message>, n: nat)
    requires n < |accepted|
  {
    TextOf(encode, Write(n + 1, accepted[n])).Some?
  }

  /** A message has been taken and is on its way through encoding. */
  predicate InEncoding(io: Io, write: Write) { io == Dequeued(write) || io == Encoding(write) }

  ghost predicate Sending(encode: Encoder, k: Connection)
    requires ChannelOk(k.channel)
  {
    var ch, taken := k.channel, Taken(k.channel);
    match k.sending
    case Some(write) =>
      && ch.lastWritten + 1 == taken && write == Write(taken, ch.accepted[taken - 1])
         && Encodable(encode, ch.accepted, taken - 1)
      && k.sendBuffer == FrameOf(encode, ch.accepted, taken - 1) && !k.io.Dequeued? && !k.io.Encoding?
    case None =>
      && k.sendBuffer == []
      && if k.io.Dequeued? || k.io.Encoding? then
           ch.lastWritten + 1 == taken && InEncoding(k.io, Write(taken, ch.accepted[taken - 1]))
         else
           ch.lastWritten == taken
               || (ch.lastWritten + 1 == taken && (ch.closing || k.io.Marking? || k.io.ClosingChannel?))
  }

  /** Every byte on the wire is accounted for. */
  ghost predicate WireOk(encode: Encoder, k: Connection) {
    && ChannelOk(k.channel) && k.channel.limit == OUTBOUND_BUDGET && Sending(encode, k)
       && k.sendOffset <= |k.sendBuffer|
    && (forall i | 0 <= i < k.channel.lastWritten :: Encodable(encode, k.channel.accepted, i))
    && k.wire == FramesUpTo(encode, k.channel.accepted, k.channel.lastWritten) + k.sendBuffer[..k.sendOffset]
  }

  // ----- the Server and other parts of the transport, as far as the wire can see -----

  /** The channel and the flags may change under the transport's hands, never what it is sending. */
  ghost predicate Disturbed(k: Connection, next: Connection) {
    && next.sendBuffer == k.sendBuffer && next.sendOffset == k.sendOffset && next.sending == k.sending
       && next.wire == k.wire
    && (next.channel == k.channel || next.channel == Close(k.channel)
        || exists m :: next.channel == Enqueue(k.channel, m))
  }

  lemma {:induction false} FramesFrame(encode: Encoder, accepted: seq<Message>, m: Message, n: nat)
    requires n <= |accepted|
    ensures FramesUpTo(encode, accepted + [m], n) == FramesUpTo(encode, accepted, n)
    decreases n
  {
    if n > 0 {
      FramesFrame(encode, accepted, m, n - 1);
      assert (accepted + [m])[n - 1] == accepted[n - 1];
    }
  }

  lemma AppendKeepsWire(encode: Encoder, k: Connection, m: Message, next: Connection)
    requires WireOk(encode, k) && ChannelOk(next.channel) && next.channel.limit == k.channel.limit
    requires next == k.(channel := next.channel) && next.channel.accepted == k.channel.accepted + [m]
    requires next.channel.nextSequence == k.channel.nextSequence && next.channel.lastWritten == k.channel.lastWritten
    requires next.channel.closing == k.channel.closing
    ensures WireOk(encode, next)
  {
    hide FramesUpTo, ChannelOk;
    ChannelBounds(k.channel);
    var accepted := k.channel.accepted;
    FramesFrame(encode, accepted, m, k.channel.lastWritten);
    forall i | 0 <= i < |accepted|
      ensures Encodable(encode, accepted + [m], i) == Encodable(encode, accepted, i)
      ensures FrameOf(encode, accepted + [m], i) == FrameOf(encode, accepted, i)
    {
      assert (accepted + [m])[i] == accepted[i];
    }
  }

  lemma EnqueueKeepsWire(encode: Encoder, k: Connection, m: Message)
    requires WireOk(encode, k)
    ensures WireOk(encode, k.(channel := Enqueue(k.channel, m)))
  {
    hide FramesUpTo, Estimate;
    EnqueueKeeps(k.channel, m);
    var next := k.(channel := Enqueue(k.channel, m));
    if next.channel.closing {
      assert next.channel == k.channel || next.channel == Close(k.channel);
    } else {
      AppendKeepsWire(encode, k, m, next);
    }
  }

  lemma ChannelBounds(ch: Channel)
    requires ChannelOk(ch)
    ensures ch.nextSequence >= 1 && ch.lastWritten <= Taken(ch) <= |ch.accepted|
  {
  }

  lemma DisturbedKeepsWire(encode: Encoder, k: Connection, next: Connection)
    requires WireOk(encode, k) && Disturbed(k, next) && next.io == k.io
    ensures WireOk(encode, next)
  {
    hide FramesUpTo, Enqueue, ChannelOk;
    ChannelBounds(k.channel);
    CloseKeeps(k.channel);
    if next.channel != k.channel && next.channel != Close(k.channel) {
      var m :| next.channel == Enqueue(k.channel, m);
      EnqueueKeepsWire(encode, k, m);
    }
  }

  lemma CloseKeeps(ch: Channel)
    requires ChannelOk(ch)
    ensures ChannelOk(Close(ch))
  {
  }

  // ----- transport steps -----

  lemma TakeKeepsWire(encode: Encoder, k: Connection)
    requires WireOk(encode, k) && TakeStep(k).Moved?
    ensures WireOk(encode, TakeStep(k).k)
  {
    hide FramesUpTo, ChannelOk, Estimate;
    ChannelBounds(k.channel);
    if TryNext(k.channel).Some? {
      NextKeeps(k.channel);
    }
  }

  lemma EncodeKeepsWire(encode: Encoder, k: Connection)
    requires WireOk(encode, k) && EncodeStep(encode, k).Moved?
    ensures WireOk(encode, EncodeStep(encode, k).k)
  {
    hide FramesUpTo, ChannelOk;
    ChannelBounds(k.channel);
    var next := EncodeStep(encode, k).k;
    assert k.sendBuffer[..k.sendOffset] == next.sendBuffer[..next.sendOffset];
  }

  lemma SendKeepsWire(encode: Encoder, k: Connection, count: nat)
    requires WireOk(encode, k) && SendStep(k, count).Moved?
    ensures WireOk(encode, SendStep(k, count).k)
  {
    hide FramesUpTo, ChannelOk;
    ChannelBounds(k.channel);
    var sent := FramesUpTo(encode, k.channel.accepted, k.channel.lastWritten);
    assert sent + k.sendBuffer[..k.sendOffset] + k.sendBuffer[k.sendOffset..k.sendOffset + count]
        == sent + k.sendBuffer[..k.sendOffset + count];
  }

  lemma FinishKeepsWire(encode: Encoder, k: Connection)
    requires WireOk(encode, k) && FinishStep(k).Moved?
    ensures WireOk(encode, FinishStep(k).k)
  {
    hide ChannelOk, FrameOf;
    ChannelBounds(k.channel);
    MarkKeeps(k.channel, k.sending.value.sequence);
    var next := FinishStep(k).k;
    var sent := FramesUpTo(encode, k.channel.accepted, k.channel.lastWritten);
    assert k.sendBuffer[..k.sendOffset] == k.sendBuffer;
    assert sent + k.sendBuffer + next.sendBuffer[..next.sendOffset] == sent + k.sendBuffer;
  }

  lemma MarkKeeps(ch: Channel, sequence: nat)
    requires ChannelOk(ch) && sequence <= Taken(ch)
    ensures ChannelOk(MarkWritten(ch, sequence))
  {
  }

  /** The remaining transport steps disturb the channel at most as the Server does. */
  lemma OtherIoDisturbs(encode: Encoder, c: Id, k: Connection, act: IoAct)
    requires IoNext(encode, c, k, act).Moved? && !act.Take? && !act.Encode? && !act.Send? && !act.Finish?
    ensures var next := IoNext(encode, c, k, act).k;
            && Disturbed(k, next)
            && (next.io.Dequeued? || next.io.Encoding? ==> InEncoding(k.io, next.io.write))
            && (k.io.Dequeued? || k.io.Encoding? ==> next.io.Encoding?)
            && (k.io.Marking? || k.io.ClosingChannel? ==> next.io.ClosingChannel? || next.channel.closing)
  {
    hide Enqueue, IsDuplicate;
    if act.Answer? {
      assert IoNext(encode, c, k, act).k.channel == Enqueue(k.channel, k.io.reply);
    }
  }

  lemma OtherIoKeepsWire(encode: Encoder, c: Id, k: Connection, act: IoAct)
    requires WireOk(encode, k) && IoNext(encode, c, k, act).Moved? && !act.Take? && !act.Encode? && !act.Send?
             && !act.Finish?
    ensures WireOk(encode, IoNext(encode, c, k, act).k)
  {
    hide IoNext, FramesUpTo, ChannelOk, Enqueue;
    OtherIoDisturbs(encode, c, k, act);
    var next := IoNext(encode, c, k, act).k;
    ChannelBounds(k.channel);
    DisturbedKeepsWire(encode, k, next.(io := k.io));
    ChannelBounds(next.channel);
    assert Taken(next.channel) == Taken(k.channel) && next.channel.lastWritten == k.channel.lastWritten by {
      DisturbedKeepsSequences(k, next);
    }
    DisturbedKeepsSequences(k, next);
  }

  lemma DisturbedKeepsSequences(k: Connection, next: Connection)
    requires Disturbed(k, next)
    ensures next.channel.nextSequence == k.channel.nextSequence && next.channel.lastWritten == k.channel.lastWritten
    ensures k.channel.accepted <= next.channel.accepted && (k.channel.closing ==> next.channel.closing)
  {
  }

  lemma IoKeepsWire(encode: Encoder, c: Id, k: Connection, act: IoAct)
    requires WireOk(encode, k) && IoNext(encode, c, k, act).Moved?
    ensures WireOk(encode, IoNext(encode, c, k, act).k)
  {
    hide WireOk;
    match act
    case Take => TakeKeepsWire(encode, k);
    case Encode => EncodeKeepsWire(encode, k);
    case Send(count) => SendKeepsWire(encode, k, count);
    case Finish => FinishKeepsWire(encode, k);
    case _ => OtherIoKeepsWire(encode, c, k, act);
  }

  // ----- every run -----

  ghost predicate AllWiresOk(encode: Encoder, s: State) {
    forall c | c in s.connections :: WireOk(encode, s.connections[c])
  }

  ghost predicate ServerDisturbs(s: State, next: State) {
    next.connections.Keys == s.connections.Keys
    && forall c | c in s.connections :: Disturbed(s.connections[c], next.connections[c])
         && next.connections[c].io == s.connections[c].io
            && next.connections[c].outstanding == s.connections[c].outstanding
         && next.connections[c].gateAcquired == s.connections[c].gateAcquired
  }

  lemma DeliverDisturbs(s: State, target: Id, m: Message, then_: Stage)
    requires s.server.Serving? && target in s.connections
    ensures ServerDisturbs(s, Deliver(s, target, m, then_))
  {
    hide Enqueue;
    assert Deliver(s, target, m, then_).connections[target].channel == Enqueue(s.connections[target].channel, m);
  }

  lemma OneDisturbed(s: State, next: State, c: Id, k: Connection)
    requires c in s.connections && next.connections == s.connections[c := k]
    requires Disturbed(s.connections[c], k) && k.io == s.connections[c].io
    requires k.outstanding == s.connections[c].outstanding && k.gateAcquired == s.connections[c].gateAcquired
    ensures ServerDisturbs(s, next)
  {
  }

  lemma NoneDisturbed(s: State, next: State)
    requires next.connections == s.connections
    ensures ServerDisturbs(s, next)
  {
  }

  lemma ServerStepDisturbs(s: State, act: ServeAct)
    requires ServeNext(s, act).Some?
    ensures ServerDisturbs(s, ServeNext(s, act).value)
  {
    hide Deliver, Operate, Without, Disturbed, ServerDisturbs, ServeNext, RouteStep, RespondStep, PublishStep;
    var next := ServeNext(s, act).value;
    if next.connections == s.connections {
      NoneDisturbed(s, next);
    } else if act.RouteNext? || act.Respond? || act.PublishNext? {
      DeliveriesDisturb(s, act);
    } else {
      var c, k := OneChanged(s, act);
      SmallDisturbances(s.connections[c], k.references, k.name);
      OneDisturbed(s, next, c, k);
    }
  }

  lemma OneChanged(s: State, act: ServeAct) returns (c: Id, k: Connection)
    requires ServeNext(s, act).Some? && ServeNext(s, act).value.connections != s.connections
    requires !act.RouteNext? && !act.Respond? && !act.PublishNext?
    ensures c in s.connections && ServeNext(s, act).value.connections == s.connections[c := k]
    ensures var was := s.connections[c];
            k in {was.(references := k.references), was.(committed := true, name := k.name), was.(closeStarted := true),
                  was.(channel := Close(was.channel))}
  {
    hide Operate, Without, Close;
    if act.MarkTarget? || act.CloseTarget? {
      c := s.server.at.target;
      k := CloseChanges(s, act);
    } else {
      hide CloseTargetStep;
      c := s.server.m.c;
      k := ServeNext(s, act).value.connections[c];
    }
  }

  lemma CloseChanges(s: State, act: ServeAct) returns (k: Connection)
    requires CloseTargetStep(s, act).Some?
    ensures var c := s.server.at.target;
            && c in s.connections && CloseTargetStep(s, act).value.connections == s.connections[c := k]
            && (k == s.connections[c].(closeStarted := true)
                || k == s.connections[c].(channel := Close(s.connections[c].channel)))
  {
    hide Close;
    k := CloseTargetStep(s, act).value.connections[s.server.at.target];
  }

  lemma DeliveriesDisturb(s: State, act: ServeAct)
    requires ServeNext(s, act).Some? && (act.RouteNext? || act.Respond? || act.PublishNext?)
    ensures ServerDisturbs(s, ServeNext(s, act).value)
  {
    hide Deliver, Disturbed, ServerDisturbs;
    if ServeNext(s, act).value.connections == s.connections {
      NoneDisturbed(s, ServeNext(s, act).value);
    }
    forall target: Id, m: Message, then_: Stage | s.server.Serving? && target in s.connections
      ensures ServerDisturbs(s, Deliver(s, target, m, then_))
    {
      DeliverDisturbs(s, target, m, then_);
    }
  }

  lemma SmallDisturbances(k: Connection, n: nat, name: bytes)
    ensures Disturbed(k, k) && Disturbed(k, k.(references := n)) && Disturbed(k, k.(committed := true, name := name))
    ensures Disturbed(k, k.(closeStarted := true)) && Disturbed(k, k.(channel := Close(k.channel)))
  {
  }

  lemma StepKeepsWires(encode: Encoder, s: State, a: Action)
    requires AllWiresOk(encode, s) && Next(encode, s, a).Some?
    ensures AllWiresOk(encode, Next(encode, s, a).value)
  {
    hide IoNext, ServeNext, WireOk;
    var next := Next(encode, s, a).value;
    match a
    case OfPeer(c, io) => IoKeepsWire(encode, c, s.connections[c], io);
    case OfServer(act) =>
      ServerStepDisturbs(s, act);
      forall c | c in next.connections ensures WireOk(encode, next.connections[c]) {
        DisturbedKeepsWire(encode, s.connections[c], next.connections[c]);
      }
    case Connect => CreatedWire(encode);
    case Admit =>
    case OfConsole(_) =>
  }

  lemma CreatedWire(encode: Encoder)
    ensures WireOk(encode, Created())
  {
  }

  lemma {:induction false} RunsKeepWires(encode: Encoder, s: State, actions: seq<Action>)
    requires AllWiresOk(encode, s) && RunOf(encode, s, actions).Some?
    ensures AllWiresOk(encode, RunOf(encode, s, actions).value)
    decreases |actions|
  {
    hide Next, AllWiresOk;
    if actions != [] {
      StepKeepsWires(encode, s, actions[0]);
      RunsKeepWires(encode, Next(encode, s, actions[0]).value, actions[1..]);
    }
  }

  /**
   * Whatever the interleaving, the bytes on a wire are the frames of the first accepted messages, in
   * order and numbered from one, and then a part of the frame of the next; what is queued is what was
   * accepted and not yet taken, and its bytes are within the budget.
   */
  lemma WireOutput(encode: Encoder, gateLimit: nat, actions: seq<Action>, c: Id)
    requires RunOf(encode, Initial(gateLimit), actions).Some?
    requires c in RunOf(encode, Initial(gateLimit), actions).value.connections
    ensures var k := RunOf(encode, Initial(gateLimit), actions).value.connections[c];
            var ch := k.channel;
            && ch.lastWritten <= |ch.accepted| && FramesUpTo(encode, ch.accepted, ch.lastWritten) <= k.wire
            && (k.wire == FramesUpTo(encode, ch.accepted, ch.lastWritten)
                || (ch.lastWritten < |ch.accepted| && k.wire <= FramesUpTo(encode, ch.accepted, ch.lastWritten + 1)))
            && ch.bytes == Total(ch.queue) && ch.bytes <= OUTBOUND_BUDGET
            && 1 <= ch.nextSequence <= |ch.accepted| + 1
               && (!ch.closing ==> ch.queue == ch.accepted[ch.nextSequence - 1..])
  {
    hide RunOf, FrameOf;
    RunsKeepWires(encode, Initial(gateLimit), actions);
    var k := RunOf(encode, Initial(gateLimit), actions).value.connections[c];
    assert WireOk(encode, k);
    if k.sending.Some? {
      var frame := FrameOf(encode, k.channel.accepted, k.channel.lastWritten);
      assert k.sendBuffer == frame;
      assert k.sendBuffer[..k.sendOffset] <= frame;
    }
  }

  // ----- what the other end receives -----

  predicate AllEncodable(encode: Encoder, accepted: seq<Message>, n: nat)
    requires n <= |accepted|
  {
    forall i | 0 <= i < n :: Encodable(encode, accepted, i)
  }

  function MessageText(encode: Encoder, accepted: seq<Message>, i: nat): (r: bytes)
    requires i < |accepted| && Encodable(encode, accepted, i)
    ensures Framing.Framed(r)
  {
    TextOf(encode, Write(i + 1, accepted[i])).value
  }

  /** The texts of the first accepted messages, numbered from one. */
  function PayloadsUpTo(encode: Encoder, accepted: seq<Message>, n: nat): (r: seq<bytes>)
    requires n <= |accepted| && AllEncodable(encode, accepted, n)
    ensures |r| == n && forall i | 0 <= i < n :: r[i] == MessageText(encode, accepted, i)
  {
    seq(n, i requires 0 <= i < n => MessageText(encode, accepted, i))
  }

  lemma {:induction false} FramesOfPayloads(encode: Encoder, accepted: seq<Message>, n: nat)
    requires n <= |accepted| && AllEncodable(encode, accepted, n)
    ensures FramesUpTo(encode, accepted, n) == Framing.Frames(PayloadsUpTo(encode, accepted, n))
    decreases n
  {
    hide TextOf, Framing.Frame, Framing.Frames;
    var payloads := PayloadsUpTo(encode, accepted, n);
    if n == 0 {
      Framing.NoFrames();
      assert payloads == [];
    } else {
      var before := PayloadsUpTo(encode, accepted, n - 1);
      FramesOfPayloads(encode, accepted, n - 1);
      assert Encodable(encode, accepted, n - 1) && payloads == before + [payloads[n - 1]];
      Framing.FramesSnoc(before, payloads[n - 1]);
    }
  }

  /** How many messages have been sent whole: those marked written, and one more if all of its frame is out. */
  function WholeFrames(k: Connection): (r: nat) {
    k.channel.lastWritten + if k.sending.Some? && k.sendOffset == |k.sendBuffer| then 1 else 0
  }

  /** What has been sent beyond whole frames. */
  function Started(k: Connection): (r: bytes)
    requires k.sendOffset <= |k.sendBuffer|
  {
    if k.sending.Some? && k.sendOffset == |k.sendBuffer| then [] else k.sendBuffer[..k.sendOffset]
  }

  /** A wire that is accounted for splits into whole frames and less than one more. */
  lemma WireSplits(encode: Encoder, k: Connection)
    requires WireOk(encode, k)
    ensures var accepted, n := k.channel.accepted, WholeFrames(k);
            && n <= |accepted| && k.sendOffset <= |k.sendBuffer| && AllEncodable(encode, accepted, n)
            && k.wire == FramesUpTo(encode, accepted, n) + Started(k) && Framing.Partial(Started(k))
  {
    hide ChannelOk, Framing.Partial, Framing.Frame;
    ChannelBounds(k.channel);
    var accepted, written := k.channel.accepted, k.channel.lastWritten;
    Framing.NothingIsPartial();
    if k.sending.Some? {
      assert Encodable(encode, accepted, written);
      var payload := TextOf(encode, Write(written + 1, accepted[written])).value;
      if k.sendOffset == |k.sendBuffer| {
        assert k.sendBuffer[..k.sendOffset] == k.sendBuffer;
        assert FramesUpTo(encode, accepted, written + 1) == FramesUpTo(encode, accepted, written) + k.sendBuffer;
        assert k.wire == FramesUpTo(encode, accepted, written + 1) + [];
      } else {
        Framing.PartOfFrame(payload, Started(k));
      }
    }
  }

  /**
   * End to end: in every reachable state, however the bytes sent on a connection are cut into reads,
   * a receiver has dispatched exactly the texts of the first accepted messages, each once, in order
   * and numbered from one, and holds less than one frame more.
   */
  lemma MessagesArrive(encode: Encoder, gateLimit: nat, actions: seq<Action>, c: Id, reads_: seq<bytes>)
    requires RunOf(encode, Initial(gateLimit), actions).Some?
    requires c in RunOf(encode, Initial(gateLimit), actions).value.connections
    requires Framing.Concat(reads_) == RunOf(encode, Initial(gateLimit), actions).value.connections[c].wire
    ensures var k := RunOf(encode, Initial(gateLimit), actions).value.connections[c];
            var accepted, n := k.channel.accepted, WholeFrames(k);
            var received := Framing.Feed(Framing.AcceptAll(), Framing.Parsed([], [], true), reads_);
            && k.channel.lastWritten <= n <= k.channel.lastWritten + 1 && n <= |accepted|
            && k.sendOffset <= |k.sendBuffer| && AllEncodable(encode, accepted, n)
            && received == Framing.Parsed(PayloadsUpTo(encode, accepted, n), Started(k), true)
  {
    hide RunOf, FrameOf, FramesUpTo, Framing.Frames, Framing.Partial, Framing.Feed, Framing.Parse, TextOf, ChannelOk;
    hide WholeFrames, Started;
    RunsKeepWires(encode, Initial(gateLimit), actions);
    var k := RunOf(encode, Initial(gateLimit), actions).value.connections[c];
    assert WireOk(encode, k);
    WireSplits(encode, k);
    var accepted, n := k.channel.accepted, WholeFrames(k);
    FramesOfPayloads(encode, accepted, n);
    assert k.channel.lastWritten <= n <= k.channel.lastWritten + 1 by {
      WholeFramesBounds(k);
    }
    ReceivedInReads(PayloadsUpTo(encode, accepted, n), Started(k), k.wire, reads_);
  }

  lemma WholeFramesBounds(k: Connection)
    ensures k.channel.lastWritten <= WholeFrames(k) <= k.channel.lastWritten + 1
  {
  }

  lemma ReceivedInReads(payloads: seq<bytes>, rest: bytes, stream: bytes, reads_: seq<bytes>)
    requires (forall i | 0 <= i < |payloads| :: Framing.Framed(payloads[i])) && Framing.Partial(rest)
    requires stream == Framing.Frames(payloads) + rest && Framing.Concat(reads_) == stream
    ensures Framing.Feed(Framing.AcceptAll(), Framing.Parsed([], [], true), reads_)
            == Framing.Parsed(payloads, rest, true)
  {
    hide Framing.Frames, Framing.Partial, Framing.Feed, Framing.Parse;
    Framing.ParseExactly(Framing.AcceptAll(), stream, payloads, rest);
    Framing.ChunkIndependence(Framing.AcceptAll(), reads_, reads_);
  }
}
