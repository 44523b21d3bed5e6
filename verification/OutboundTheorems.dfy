/**
 * The texts of messages: one is read exactly when the strings of its message are valid UTF-8, and
 * the reader then reports the fields of that message and nothing else. Messages that show the same
 * are written the same.
 */
module OutboundTheorems {
  import opened Bytes
  import opened Wrappers
  import opened Outbound
  import opened JsonReading
  import opened JsonWriting
  import opened JsonRoundTrip
  import opened OutboundFields
  import opened OutboundWriting
  import BaseN
  import JsonUtf8
  import OutboundEncoder
  import Utf8

  // ----- strings -----

  predicate ListIsUtf8(diagnostics: seq<Diagnostic>) {
    forall i | 0 <= i < |diagnostics| ::
      Utf8.Walks(diagnostics[i].message, 0) && Utf8.Walks(diagnostics[i].detail, 0)
  }

  predicate TextsAreUtf8(m: Message) {
    match m
    case Response(_, _, _, _, diagnostics) => ListIsUtf8(diagnostics)
    case ServerState(_, _) => true
    case ClientAction(from, arg, _) => Utf8.Walks(from, 0) && Utf8.Walks(arg, 0)
  }

  predicate AllWritable(calls: seq<Call>) { forall k | 0 <= k < |calls| :: Writable(calls[k]) }

  lemma WritableConcat(a: seq<Call>, b: seq<Call>)
    ensures AllWritable(a + b) <==> AllWritable(a) && AllWritable(b)
  {
    hide Writable;
    var s := a + b;
    if AllWritable(s) {
      forall k | 0 <= k < |a| ensures Writable(a[k]) {
        assert Writable(s[k]);
      }
      forall k | 0 <= k < |b| ensures Writable(b[k]) {
        assert Writable(s[|a| + k]);
      }
    }
  }

  lemma WritableWord(word: Word)
    ensures Utf8.Walks(word, 0)
  {
    assert forall i | 0 <= i < |word| :: PlainByte(word[i]);
    JsonUtf8.AsciiIsValid(word);
  }

  lemma WritableMember(key: Word, call: Call)
    ensures AllWritable([PutKey(key), call]) <==> Writable(call)
  {
    hide Utf8.Walks;
    WritableWord(key);
    var calls := [PutKey(key), call];
    assert Writable(calls[0]) && calls[1] == call;
  }

  lemma WritableOptional(key: Word, text: bytes)
    ensures AllWritable(OptionalCalls(key, text)) <==> Utf8.Walks(text, 0)
  {
    WritableMember(key, PutString(text));
  }

  lemma WritableObject(key: Word, call: Call, rest: seq<Call>)
    ensures AllWritable(ObjectCalls(key, call, rest)) <==> Writable(call) && AllWritable(rest)
  {
    hide AllWritable;
    WritableMember(key, call);
    WritableBare(BeginObject);
    WritableBare(EndObject);
    WritableConcat(rest, [EndObject]);
    WritableConcat([PutKey(key), call], rest + [EndObject]);
    WritableConcat([BeginObject], [PutKey(key), call] + (rest + [EndObject]));
  }

  lemma WritableBare(call: Call)
    ensures AllWritable([call]) <==> Writable(call)
  {
    assert [call][0] == call;
  }

  lemma WritableDiagnostic(d: Diagnostic)
    ensures AllWritable(DiagnosticCalls(d)) <==> Utf8.Walks(d.message, 0) && Utf8.Walks(d.detail, 0)
  {
    hide AllWritable, Utf8.Walks, ObjectCalls, OptionalCalls;
    var message, detail, at :=
      OptionalCalls(MESSAGE, d.message), OptionalCalls(DETAIL, d.detail), PositionCalls(d.location);
    WritableObject(ID, PutInteger(d.id), DiagnosticRest(d));
    WritableWord(SeverityName(d.severity));
    WritableMember(SEVERITY, PutString(SeverityName(d.severity)));
    WritableOptional(MESSAGE, d.message);
    WritableOptional(DETAIL, d.detail);
    WritablePosition(d.location);
    WritableConcat(detail, at);
    WritableConcat(message, detail + at);
    WritableConcat([PutKey(SEVERITY), PutString(SeverityName(d.severity))], message + (detail + at));
  }

  lemma WritablePosition(at: Location)
    ensures AllWritable(PositionCalls(at))
  {
    WritableMember(LINE, PutInteger(at.line));
    WritableMember(COLUMN, PutInteger(at.column));
    WritableConcat([PutKey(LINE), PutInteger(at.line)], [PutKey(COLUMN), PutInteger(at.column)]);
  }

  lemma {:induction false} WritableList(diagnostics: seq<Diagnostic>)
    ensures AllWritable(ListCalls(diagnostics)) <==> ListIsUtf8(diagnostics)
    decreases |diagnostics|
  {
    hide Utf8.Walks, DiagnosticCalls;
    if diagnostics != [] {
      var d, rest := diagnostics[0], diagnostics[1..];
      WritableDiagnostic(d);
      WritableList(rest);
      WritableConcat(DiagnosticCalls(d), ListCalls(rest));
      hide AllWritable;
      assert diagnostics == [d] + rest;
      assert ListIsUtf8(diagnostics)
        <==> Utf8.Walks(d.message, 0) && Utf8.Walks(d.detail, 0) && ListIsUtf8(rest);
    }
  }

  lemma WritableDiagnostics(diagnostics: seq<Diagnostic>)
    ensures AllWritable(DiagnosticsCalls(diagnostics)) <==> ListIsUtf8(diagnostics)
  {
    hide Utf8.Walks, ListCalls;
    if diagnostics != [] {
      WritableMember(DIAGNOSTICS, BeginArray);
      WritableList(diagnostics);
      WritableBare(EndArray);
      WritableConcat(ListCalls(diagnostics), [EndArray]);
      WritableConcat([PutKey(DIAGNOSTICS), BeginArray], ListCalls(diagnostics) + [EndArray]);
    }
  }

  lemma WritablePayload(payload: Payload)
    ensures AllWritable(PayloadCalls(payload))
  {
    hide ObjectCalls, Utf8.Walks;
    WritableWord(PAYLOAD);
    WritableBare(PutKey(PAYLOAD));
    match payload
    case NoPayload =>
    case StateOf(project) =>
      WritableWord(StateName(project));
      WritableObject(STATE, PutString(StateName(project)), []);
      WritableConcat([PutKey(PAYLOAD)], ObjectCalls(STATE, PutString(StateName(project)), []));
    case ValueOf(v) =>
      var size, bits := [PutKey(SIZE), PutInteger(v.size)], [PutKey(BITS), PutInteger(v.bits)];
      WritableMember(SIZE, PutInteger(v.size));
      WritableMember(BITS, PutInteger(v.bits));
      WritableConcat(size, bits);
      WritableObject(TYPE, PutInteger(v.kind), size + bits);
      WritableConcat([PutKey(PAYLOAD)], ObjectCalls(TYPE, PutInteger(v.kind), size + bits));
  }

  lemma WritableBody(m: Message)
    ensures AllWritable(BodyCalls(m)) <==> TextsAreUtf8(m)
  {
    hide AllWritable, Utf8.Walks, PayloadCalls, DiagnosticsCalls, StateName, BaseN.Encoded;
    match m
    case Response(request, _, ok, payload, diagnostics) =>
      var fields := PayloadCalls(payload) + DiagnosticsCalls(diagnostics);
      WritableMember(REQUEST_ID, PutInteger(request));
      WritableMember(STATUS, PutBoolean(ok));
      WritablePayload(payload);
      WritableDiagnostics(diagnostics);
      WritableConcat(PayloadCalls(payload), DiagnosticsCalls(diagnostics));
      WritableConcat([PutKey(STATUS), PutBoolean(ok)], fields);
      WritableConcat([PutKey(REQUEST_ID), PutInteger(request)], [PutKey(STATUS), PutBoolean(ok)] + fields);
    case ServerState(old_, new_) =>
      WritableString(ACTION, SERVER_STATE);
      WritableString(OLD, StateName(old_));
      WritableString(NEW, StateName(new_));
      var states := [PutKey(OLD), PutString(StateName(old_))] + [PutKey(NEW), PutString(StateName(new_))];
      WritableConcat([PutKey(OLD), PutString(StateName(old_))], [PutKey(NEW), PutString(StateName(new_))]);
      WritableConcat([PutKey(ACTION), PutString(SERVER_STATE)], states);
    case ClientAction(from, arg, parameters) =>
      var encoded := BaseN.Encoded(BaseN.Standard, parameters);
      OutboundEncoder.EncodedIsPlain(parameters);
      WritableString(ACTION, CLIENT);
      WritableMember(FROM, PutString(from));
      WritableMember(ARG, PutString(arg));
      WritableString(PARAMETERS, encoded);
      var last := [PutKey(ARG), PutString(arg)] + [PutKey(PARAMETERS), PutString(encoded)];
      WritableConcat([PutKey(ARG), PutString(arg)], [PutKey(PARAMETERS), PutString(encoded)]);
      WritableConcat([PutKey(FROM), PutString(from)], last);
      WritableConcat([PutKey(ACTION), PutString(CLIENT)], [PutKey(FROM), PutString(from)] + last);
  }

  lemma WritableString(key: Word, text: Word)
    ensures AllWritable([PutKey(key), PutString(text)])
  {
    WritableWord(text);
    WritableMember(key, PutString(text));
  }

  // ----- reading -----

  /**
   * The text of a message is a JSON document exactly when its strings are valid UTF-8, and a reader
   * then reports the fields of the message and its sequence number.
   */
  lemma MessageReads(w: Write)
    ensures Read(Spelling(w)).Good? <==> TextsAreUtf8(w.message)
    ensures TextsAreUtf8(w.message) ==> Unlocated(Read(Spelling(w)).value) == EventsOf(CallsOf(w))
  {
    hide Read, RunFrom, MaxStack, TextsAreUtf8, BodyCalls, ObjectCalls, Unlocated, EventsOf, Writable;
    WholeRuns(w);
    WritableBody(w.message);
    WritableObject(SEQUENCE, PutInteger(Counted(w.sequence)), BodyCalls(w.message));
    WritableNumber(Counted(w.sequence));
    JsonUtf8.ReadsExactly(CallsOf(w));
    if TextsAreUtf8(w.message) {
      RoundTrip(CallsOf(w));
    }
  }

  lemma WritableNumber(n: Integral)
    ensures Writable(PutInteger(n))
  {
  }

  // ----- messages that show the same -----

  /** A location without a position is not shown. */
  function ShownDiagnostic(d: Diagnostic): (r: Diagnostic) {
    if d.location.hasFile && d.location.line > 0 then d else d.(location := Location(false, 0, 0))
  }

  function ShownList(diagnostics: seq<Diagnostic>): (r: seq<Diagnostic>) {
    if diagnostics == [] then [] else [ShownDiagnostic(diagnostics[0])] + ShownList(diagnostics[1..])
  }

  /** What a client gets to know of a message; whether it releases an id is the connection's own affair. */
  function Shown(w: Write): (r: Write) {
    var m := if w.message.Response? then w.message.(release := true, diagnostics := ShownList(w.message.diagnostics))
      else w.message;
    Write(w.sequence % 0x1_0000_0000_0000_0000, m)
  }

  // ----- what shows the same is written the same -----

  lemma {:induction false} ListOfShown(diagnostics: seq<Diagnostic>)
    ensures ListCalls(ShownList(diagnostics)) == ListCalls(diagnostics)
    ensures ShownList(diagnostics) == [] <==> diagnostics == []
    decreases |diagnostics|
  {
    hide Ascii;
    if diagnostics != [] {
      var shown := ShownList(diagnostics);
      assert shown[1..] == ShownList(diagnostics[1..]);
      ListOfShown(diagnostics[1..]);
      assert DiagnosticCalls(ShownDiagnostic(diagnostics[0])) == DiagnosticCalls(diagnostics[0]);
    }
  }

  lemma CallsOfShown(w: Write)
    ensures CallsOf(Shown(w)) == CallsOf(w)
  {
    hide Ascii, ListCalls, ShownList, PayloadCalls, StateName, BaseN.Encoded, ObjectCalls;
    if w.message.Response? {
      ListOfShown(w.message.diagnostics);
    }
  }
}
