/**
 * The connection protocol with the encoder the program has: what arrives at a client, what the client
 * reads, and what it then knows of the project state.
 */
module ProtocolTexts {
  import opened Bytes
  import opened Wrappers
  import opened Outbound
  import opened Protocol
  import opened ProtocolWire
  import opened OutboundFields
  import opened OutboundTheorems
  import opened OutboundReading
  import opened ProtocolTracking
  import opened Sequences
  import Framing
  import JsonReading
  import JsonRoundTrip
  import OutboundWriting

  /** The encoder refuses a text that is too long for a frame. */
  function Encoded(w: Write): (r: Option<Json>) {
    SpellsSomething(w);
    if |Spelling(w)| > Framing.MAX_FRAME then None else Some(Spelling(w))
  }

  lemma SpellsSomething(w: Write)
    ensures Spelling(w) != []
  {
    OutboundWriting.WholeRuns(w);
  }

  /** A text is that of a message, and a client that can read it takes it for that message. */
  ghost predicate Reads(text: bytes, w: Write) {
    && text == Spelling(w)
    && (JsonReading.Read(text).Good? <==> TextsAreUtf8(w.message))
    && Receive(text) == if TextsAreUtf8(w.message) then Some(Shown(w)) else None
  }

  /** What has been handed to a client that got a stream in these reads. */
  function TextsIn(reads_: seq<bytes>): (r: seq<bytes>) {
    Framing.Feed(Framing.AcceptAll(), Framing.Parsed([], [], true), reads_).payloads
  }

  /**
   * In every reachable state, however what was sent to a client is cut into reads: the client has
   * been handed the texts of the first accepted messages, in order and numbered from one. It can read
   * such a text exactly when the strings of the message are valid UTF-8, and then takes it for that
   * message, with its number.
   */
  lemma ClientReads(gateLimit: nat, actions: seq<Action>, c: Id, reads_: seq<bytes>)
    requires RunOf(Encoded, Initial(gateLimit), actions).Some?
    requires c in RunOf(Encoded, Initial(gateLimit), actions).value.connections
    requires Framing.Concat(reads_) == RunOf(Encoded, Initial(gateLimit), actions).value.connections[c].wire
    ensures var k := RunOf(Encoded, Initial(gateLimit), actions).value.connections[c];
            var accepted, texts := k.channel.accepted, TextsIn(reads_);
            && k.channel.lastWritten <= |texts| <= k.channel.lastWritten + 1 && |texts| <= |accepted|
            && forall i | 0 <= i < |texts| :: Reads(texts[i], Write(i + 1, accepted[i]))
  {
    hide RunOf, Framing.Feed, Framing.Concat, JsonReading.Read, Receive, Shown;
    hide TextsAreUtf8, Spelling, WholeFrames, Started, Encoded, AllEncodable, TextOf;
    MessagesArrive(Encoded, gateLimit, actions, c, reads_);
    var accepted := RunOf(Encoded, Initial(gateLimit), actions).value.connections[c].channel.accepted;
    var n := WholeFrames(RunOf(Encoded, Initial(gateLimit), actions).value.connections[c]);
    forall i | 0 <= i < n ensures Reads(PayloadsUpTo(Encoded, accepted, n)[i], Write(i + 1, accepted[i])) {
      TextIsSpelling(accepted, n, i);
      MessageReads(Write(i + 1, accepted[i]));
      MessageUnderstood(Write(i + 1, accepted[i]));
    }
  }

  lemma TextIsSpelling(accepted: seq<Message>, n: nat, i: nat)
    requires n <= |accepted| && AllEncodable(Encoded, accepted, n) && i < n
    ensures PayloadsUpTo(Encoded, accepted, n)[i] == Spelling(Write(i + 1, accepted[i]))
  {
    hide Spelling;
    assert Encodable(Encoded, accepted, i);
  }

  // ----- what the client knows of the state -----

  /** The state a client has last read of, text by text. */
  function Known(texts: seq<bytes>): (r: Option<ProjectState>) {
    if texts == [] then None
    else
      match Receive(Last(texts))
      case Some(Write(_, Response(_, _, _, StateOf(project), _))) => Some(project)
      case Some(Write(_, ServerState(_, new_))) => Some(new_)
      case _ => Known(Init(texts))
  }

  /** The messages a client can read. */
  function Readable(messages: seq<Message>): (r: seq<Message>) {
    if messages == [] then []
    else Readable(Init(messages)) + if TextsAreUtf8(Last(messages)) then [Last(messages)] else []
  }

  lemma {:induction false} KnownIsHeard(texts: seq<bytes>, messages: seq<Message>)
    requires |texts| == |messages| && forall i | 0 <= i < |texts| :: Reads(texts[i], Write(i + 1, messages[i]))
    ensures Known(texts) == Heard(Readable(messages))
    decreases |texts|
  {
    hide Receive, TextsAreUtf8, Spelling, Counted, JsonReading.Read, ShownList;
    if texts != [] {
      var last := |texts| - 1;
      assert Reads(texts[last], Write(last + 1, messages[last]));
      KnownIsHeard(Init(texts), Init(messages));
      HeardSnoc(Readable(Init(messages)), Last(messages));
      assert Readable(Init(messages)) + [] == Readable(Init(messages));
    }
  }

  lemma {:induction false} AllReadable(messages: seq<Message>)
    requires forall i | 0 <= i < |messages| :: TextsAreUtf8(messages[i])
    ensures Readable(messages) == messages
    decreases |messages|
  {
    hide TextsAreUtf8;
    if messages != [] {
      var before, last := Init(messages), Last(messages);
      assert forall i | 0 <= i < |before| :: before[i] == messages[i];
      AllReadable(before);
      assert TextsAreUtf8(last) && Readable(messages) == before + [last];
    }
  }

  /**
   * In every reachable state a client that follows the texts it has been handed knows exactly the
   * state that the readable ones among the messages behind them tell.
   */
  lemma ClientFollows(gateLimit: nat, actions: seq<Action>, c: Id, reads_: seq<bytes>)
    requires RunOf(Encoded, Initial(gateLimit), actions).Some?
    requires c in RunOf(Encoded, Initial(gateLimit), actions).value.connections
    requires Framing.Concat(reads_) == RunOf(Encoded, Initial(gateLimit), actions).value.connections[c].wire
    ensures var accepted := RunOf(Encoded, Initial(gateLimit), actions).value.connections[c].channel.accepted;
            |TextsIn(reads_)| <= |accepted| && Known(TextsIn(reads_)) == Heard(Readable(accepted[..|TextsIn(reads_)|]))
  {
    hide RunOf, Framing.Concat, TextsIn, Reads, Known, Heard, Readable;
    ClientReads(gateLimit, actions, c, reads_);
    var accepted := RunOf(Encoded, Initial(gateLimit), actions).value.connections[c].channel.accepted;
    KnownIsHeard(TextsIn(reads_), accepted[..|TextsIn(reads_)|]);
  }

  /**
   * Between two iterations of the run loop a registered client with an open channel that has been
   * handed all that was accepted for it, and could read it, knows the current project state.
   */
  lemma ClientKnows(gateLimit: nat, actions: seq<Action>, c: Id, reads_: seq<bytes>)
    requires RunOf(Encoded, Initial(gateLimit), actions).Some?
    requires var s := RunOf(Encoded, Initial(gateLimit), actions).value;
             && s.server.Looping? && c in s.registry && c in s.connections && !s.connections[c].channel.closing
             && Framing.Concat(reads_) == s.connections[c].wire
             && |TextsIn(reads_)| == |s.connections[c].channel.accepted|
             && forall i | 0 <= i < |s.connections[c].channel.accepted| ::
                  TextsAreUtf8(s.connections[c].channel.accepted[i])
    ensures Known(TextsIn(reads_)) == Some(RunOf(Encoded, Initial(gateLimit), actions).value.project)
  {
    hide RunOf, Framing.Concat, TextsIn, Known, Heard, Readable, TextsAreUtf8, Coherent;
    ClientFollows(gateLimit, actions, c, reads_);
    StateTracking(Encoded, gateLimit, actions);
    var accepted := RunOf(Encoded, Initial(gateLimit), actions).value.connections[c].channel.accepted;
    assert accepted[..|accepted|] == accepted;
    AllReadable(accepted);
  }
}
