/** Messages to a client, and the bounded channel they wait in, as values. */
module Outbound {
  import opened Bytes
  import opened Wrappers
  import opened Sequences

  datatype ProjectState = Unloaded | Loaded | Run | Freeze

  type U32 = n: nat | n < 0x1_0000_0000
  type U64 = n: nat | n < 0x1_0000_0000_0000_0000

  /** A value read from the running Project. */
  datatype RuntimeValue = RuntimeValue(kind: byte, size: byte, bits: U64)

  /** What a response carries beside its status. */
  datatype Payload = NoPayload | StateOf(project: ProjectState) | ValueOf(value: RuntimeValue)

  datatype Severity = Note | Warning | Error | Fatal

  /** Where in a file, when there is one; line zero stands for no position. */
  datatype Location = Location(hasFile: bool, line: U32, column: U32)

  datatype Diagnostic =
    Diagnostic(id: U32, severity: Severity, message: bytes, detail: bytes, location: Location)

  datatype Message =
    | Response(request: U64, release: bool, ok: bool, payload: Payload, diagnostics: seq<Diagnostic>)
    | ServerState(old_: ProjectState, new_: ProjectState)
    | ClientAction(from: bytes, arg: bytes, parameters: bytes)

  function DiagnosticBytes(diagnostics: seq<Diagnostic>): (r: nat) {
    if diagnostics == [] then 0
    else |diagnostics[0].detail| + |diagnostics[0].message| + 64 + DiagnosticBytes(diagnostics[1..])
  }

  function Estimate(m: Message): (r: nat) {
    match m
    case Response(_, _, _, _, diagnostics) => 96 + DiagnosticBytes(diagnostics)
    case ServerState(_, _) => 64
    case ClientAction(from, arg, parameters) => 64 + |from| + |arg| + |parameters|
  }

  datatype Write = Write(sequence: nat, message: Message)

  /** The channel, with everything it ever accepted. */
  datatype Channel =
    Channel(limit: nat, queue: seq<Message>, bytes: int, closing: bool, nextSequence: nat, lastWritten: nat,
        accepted: seq<Message>)

  function Fresh(limit: nat): (r: Channel) { Channel(limit, [], 0, false, 1, 0, []) }

  function Total(queue: seq<Message>): (r: nat) {
    if queue == [] then 0 else Estimate(queue[0]) + Total(queue[1..])
  }

  function Enqueue(ch: Channel, m: Message): (r: Channel) {
    if ch.closing then ch
    else if Estimate(m) > ch.limit || ch.bytes > ch.limit - Estimate(m) then Close(ch)
    else ch.(bytes := ch.bytes + Estimate(m), queue := ch.queue + [m], accepted := ch.accepted + [m])
  }

  function Close(ch: Channel): (r: Channel) { ch.(closing := true, queue := [], bytes := 0) }

  function TryNext(ch: Channel): (r: Option<Write>) {
    if ch.closing || ch.queue == [] then None else Some(Write(ch.nextSequence, ch.queue[0]))
  }

  function AfterNext(ch: Channel): (r: Channel)
    requires ch.queue != []
  {
    ch.(nextSequence := ch.nextSequence + 1, queue := ch.queue[1..], bytes := ch.bytes - Estimate(ch.queue[0]))
  }

  function MarkWritten(ch: Channel, sequence: nat): (r: Channel) {
    if sequence > ch.lastWritten then ch.(lastWritten := sequence) else ch
  }

  /** How many messages have been taken for writing. */
  function Taken(ch: Channel): (r: nat)
    requires ch.nextSequence >= 1
  {
    ch.nextSequence - 1
  }

  /**
   * Queued bytes are the sum of the queued estimates and within the limit; sequences are given to
   * the accepted messages in the order of their acceptance; nothing waits in a closed channel.
   */
  ghost predicate ChannelOk(ch: Channel) {
    && ch.bytes == Total(ch.queue) && ch.bytes <= ch.limit
    && 1 <= ch.nextSequence && Taken(ch) <= |ch.accepted| && ch.lastWritten <= Taken(ch)
    && (if ch.closing then ch.queue == [] else ch.queue == ch.accepted[Taken(ch)..])
  }

  lemma {:induction false} TotalConcat(a: seq<Message>, b: seq<Message>)
    ensures Total(a + b) == Total(a) + Total(b)
    decreases |a|
  {
    hide Estimate;
    if a == [] {
      assert a + b == b;
    } else {
      assert (a + b)[1..] == a[1..] + b;
      TotalConcat(a[1..], b);
    }
  }

  lemma EnqueueKeeps(ch: Channel, m: Message)
    requires ChannelOk(ch)
    ensures ChannelOk(Enqueue(ch, m))
  {
    hide Estimate;
    TotalConcat(ch.queue, [m]);
    assert Total([m]) == Estimate(m) by {
      assert [m][1..] == [];
    }
    if !ch.closing {
      assert ch.queue + [m] == (ch.accepted + [m])[Taken(ch)..];
    }
  }

  lemma NextKeeps(ch: Channel)
    requires ChannelOk(ch) && TryNext(ch).Some?
    ensures ChannelOk(AfterNext(ch))
    ensures TryNext(ch).value == Write(Taken(ch) + 1, ch.accepted[Taken(ch)])
  {
    assert ch.queue[1..] == ch.accepted[Taken(ch) + 1..];
  }

  /** Closing is absorbing: nothing more gets into a closed channel. */
  lemma CloseAbsorbs(ch: Channel, m: Message)
    ensures ch.closing ==> Enqueue(ch, m) == ch
  {
  }

  // ----- what waits in a channel -----

  /** The bytes of the strings a message holds. */
  function StringBytes(m: Message): (r: nat) {
    match m
    case Response(_, _, _, _, diagnostics) => DiagnosticStrings(diagnostics)
    case ServerState(_, _) => 0
    case ClientAction(from, arg, parameters) => |from + arg + parameters|
  }

  function DiagnosticStrings(diagnostics: seq<Diagnostic>): (r: nat) {
    if diagnostics == [] then 0
    else DiagnosticStrings(Init(diagnostics)) + |Last(diagnostics).message + Last(diagnostics).detail|
  }

  /** How many parts of a fixed size a message has: itself, and its diagnostics. */
  function Parts(m: Message): (r: nat) { if m.Response? then 1 + |m.diagnostics| else 1 }

  lemma {:induction false} DiagnosticBytesAre(diagnostics: seq<Diagnostic>)
    ensures DiagnosticBytes(diagnostics) == 64 * |diagnostics| + DiagnosticStrings(diagnostics)
    decreases |diagnostics|
  {
    if diagnostics != [] {
      var before, last := Init(diagnostics), Last(diagnostics);
      DiagnosticBytesAre(before);
      DiagnosticBytesSnoc(before, last);
      assert diagnostics == before + [last];
    }
  }

  lemma {:induction false} DiagnosticBytesSnoc(before: seq<Diagnostic>, last: Diagnostic)
    ensures DiagnosticBytes(before + [last])
         == DiagnosticBytes(before) + 64 + |last.message| + |last.detail|
    decreases |before|
  {
    if before == [] {
      assert [last][1..] == [] && before + [last] == [last];
    } else {
      assert (before + [last])[1..] == before[1..] + [last];
      DiagnosticBytesSnoc(before[1..], last);
    }
  }

  /** A message counts with its strings, 64 bytes for each part and 32 more for a response. */
  lemma EstimateIs(m: Message)
    ensures Estimate(m) == StringBytes(m) + 64 * Parts(m) + if m.Response? then 32 else 0
  {
    if m.Response? {
      DiagnosticBytesAre(m.diagnostics);
    }
  }

  function AllStringBytes(queue: seq<Message>): (r: nat) {
    if queue == [] then 0 else StringBytes(queue[0]) + AllStringBytes(queue[1..])
  }

  lemma {:induction false} TotalHolds(queue: seq<Message>)
    ensures AllStringBytes(queue) + 64 * |queue| <= Total(queue)
    decreases |queue|
  {
    hide Estimate, StringBytes;
    if queue != [] {
      EstimateIs(queue[0]);
      TotalHolds(queue[1..]);
    }
  }

  /** The strings waiting in a channel and 64 bytes for each message never exceed its limit. */
  lemma WaitingIsBounded(ch: Channel)
    requires ChannelOk(ch)
    ensures AllStringBytes(ch.queue) + 64 * |ch.queue| <= ch.limit
  {
    TotalHolds(ch.queue);
  }
}

/** The channel object; each method body is one locked section. */
module OutboundChannel {
  import opened Wrappers
  import opened Outbound

  class ChannelObject {
    const limit: nat
    var queue: seq<Message>
    var bytes: int
    var isClosing: bool
    var nextSequence: nat
    var lastWritten: nat
    ghost var accepted: seq<Message>

    ghost function Value(): (r: Channel)
      reads this
    {
      Channel(limit, queue, bytes, isClosing, nextSequence, lastWritten, accepted)
    }

    ghost predicate Valid()
      reads this
    {
      ChannelOk(Value())
    }

    constructor (limit: nat)
      ensures Valid() && Value() == Fresh(limit)
    {
      this.limit := limit;
      queue, bytes, isClosing, nextSequence, lastWritten, accepted := [], 0, false, 1, 0, [];
    }

    method EnqueueMessage(m: Message) returns (ok: bool)
      requires Valid()
      modifies this
      ensures Valid() && Value() == Enqueue(old(Value()), m)
      ensures ok <==> accepted == old(accepted) + [m]
      ensures ok <==> !isClosing
    {
      EnqueueKeeps(Value(), m);
      if isClosing {
        return false;
      }
      if Estimate(m) > limit || bytes > limit - Estimate(m) {
        isClosing := true;
        queue := [];
        bytes := 0;
        return false;
      }
      bytes := bytes + Estimate(m);
      queue := queue + [m];
      accepted := accepted + [m];
      return true;
    }

    method TryNextMessage() returns (output: Option<Write>)
      requires Valid()
      modifies this
      ensures Valid() && output == TryNext(old(Value()))
      ensures Value() == if output.Some? then AfterNext(old(Value())) else old(Value())
      ensures output.Some? ==> output.value == Write(old(nextSequence), old(accepted[nextSequence - 1]))
      ensures bytes >= 0
    {
      if isClosing || |queue| == 0 {
        return None;
      }
      NextKeeps(Value());
      output := Some(Write(nextSequence, queue[0]));
      nextSequence := nextSequence + 1;
      bytes := bytes - Estimate(queue[0]);
      queue := queue[1..];
    }

    method MarkWritten(sequence: nat)
      modifies this`lastWritten
      ensures Value() == Outbound.MarkWritten(old(Value()), sequence)
      ensures old(Valid()) && sequence < nextSequence ==> Valid()
    {
      if sequence > lastWritten {
        lastWritten := sequence;
      }
    }

    method Close() returns (first: bool)
      requires Valid()
      modifies this
      ensures Valid() && isClosing && first == !old(isClosing)
      ensures Value() == Outbound.Close(old(Value()))
    {
      if isClosing {
        return false;
      }
      isClosing := true;
      queue := [];
      bytes := 0;
      return true;
    }
  }
}
