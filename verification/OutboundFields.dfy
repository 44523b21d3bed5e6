/** What a message to a client says, as calls of the JSON writer. */
module OutboundFields {
  import opened Bytes
  import opened Outbound
  import opened JsonGrammar
  import opened JsonWriting
  import BaseN

  // ----- names -----

  predicate PlainChar(c: char) { ' ' <= c <= '~' && c != '"' && c != '\\' }

  predicate PlainByte(b: byte) { 0x20 <= b < 0x7F && b != QUOTE && b != BACKSLASH }

  /** A text that stands in a string as it is. */
  predicate AllPlain(s: bytes) { forall i | 0 <= i < |s| :: PlainByte(s[i]) }

  type Word = s: bytes | AllPlain(s) witness []

  function Ascii(s: string): (r: Word)
    requires forall i | 0 <= i < |s| :: PlainChar(s[i])
    ensures |r| == |s|
  {
    var r: bytes := seq(|s|, i requires 0 <= i < |s| && PlainChar(s[i]) => s[i] as int);
    assert forall i | 0 <= i < |s| :: r[i] == s[i] as int;
    r
  }

  const SEQUENCE: Word := Ascii("sequence")
  const REQUEST_ID: Word := Ascii("request_id")
  const STATUS: Word := Ascii("status")
  const PAYLOAD: Word := Ascii("payload")
  const STATE: Word := Ascii("state")
  const TYPE: Word := Ascii("type")
  const SIZE: Word := Ascii("size")
  const BITS: Word := Ascii("bits")
  const DIAGNOSTICS: Word := Ascii("diagnostics")
  const ID: Word := Ascii("id")
  const SEVERITY: Word := Ascii("severity")
  const MESSAGE: Word := Ascii("message")
  const DETAIL: Word := Ascii("detail")
  const LINE: Word := Ascii("line")
  const COLUMN: Word := Ascii("column")
  const ACTION: Word := Ascii("action")
  const SERVER_STATE: Word := Ascii("SERVER_STATE")
  const OLD: Word := Ascii("old")
  const NEW: Word := Ascii("new")
  const CLIENT: Word := Ascii("CLIENT")
  const FROM: Word := Ascii("from")
  const ARG: Word := Ascii("arg")
  const PARAMETERS: Word := Ascii("parameters")

  function StateName(state: ProjectState): (r: Word) {
    match state
    case Unloaded => Ascii("UNLOADED")
    case Loaded => Ascii("LOADED")
    case Run => Ascii("RUN")
    case Freeze => Ascii("FREEZE")
  }

  function SeverityName(severity: Severity): (r: Word) {
    match severity
    case Note => Ascii("note")
    case Warning => Ascii("warning")
    case Error => Ascii("error")
    case Fatal => Ascii("fatal error")
  }

  // ----- fields -----

  /** An object, by its first member and the others. */
  function ObjectCalls(key: bytes, call: Call, rest: seq<Call>): (r: seq<Call>) {
    [BeginObject] + ([PutKey(key), call] + (rest + [EndObject]))
  }

  function OptionalCalls(key: bytes, text: bytes): (r: seq<Call>) {
    if text == [] then [] else [PutKey(key), PutString(text)]
  }

  predicate HasPosition(at: Location) { at.hasFile && at.line != 0 }

  function PositionCalls(at: Location): (r: seq<Call>) {
    if HasPosition(at) then [PutKey(LINE), PutInteger(at.line)] + [PutKey(COLUMN), PutInteger(at.column)] else []
  }

  /** What a diagnostic says beside its number. */
  function DiagnosticRest(d: Diagnostic): (r: seq<Call>) {
    [PutKey(SEVERITY), PutString(SeverityName(d.severity))]
    + (OptionalCalls(MESSAGE, d.message) + (OptionalCalls(DETAIL, d.detail) + PositionCalls(d.location)))
  }

  function DiagnosticCalls(d: Diagnostic): (r: seq<Call>) { ObjectCalls(ID, PutInteger(d.id), DiagnosticRest(d)) }

  function ListCalls(diagnostics: seq<Diagnostic>): (r: seq<Call>) {
    if diagnostics == [] then [] else DiagnosticCalls(diagnostics[0]) + ListCalls(diagnostics[1..])
  }

  function DiagnosticsCalls(diagnostics: seq<Diagnostic>): (r: seq<Call>) {
    if diagnostics == [] then [] else [PutKey(DIAGNOSTICS), BeginArray] + (ListCalls(diagnostics) + [EndArray])
  }

  function PayloadCalls(payload: Payload): (r: seq<Call>) {
    match payload
    case NoPayload => []
    case StateOf(project) => [PutKey(PAYLOAD)] + ObjectCalls(STATE, PutString(StateName(project)), [])
    case ValueOf(v) =>
      var rest := [PutKey(SIZE), PutInteger(v.size)] + [PutKey(BITS), PutInteger(v.bits)];
      [PutKey(PAYLOAD)] + ObjectCalls(TYPE, PutInteger(v.kind), rest)
  }

  function BodyCalls(m: Message): (r: seq<Call>) {
    match m
    case Response(request, _, ok, payload, diagnostics) =>
      [PutKey(REQUEST_ID), PutInteger(request)]
      + ([PutKey(STATUS), PutBoolean(ok)] + (PayloadCalls(payload) + DiagnosticsCalls(diagnostics)))
    case ServerState(old_, new_) =>
      [PutKey(ACTION), PutString(SERVER_STATE)]
      + ([PutKey(OLD), PutString(StateName(old_))] + [PutKey(NEW), PutString(StateName(new_))])
    case ClientAction(from, arg, parameters) =>
      [PutKey(ACTION), PutString(CLIENT)]
      + ([PutKey(FROM), PutString(from)]
      + ([PutKey(ARG), PutString(arg)] + [PutKey(PARAMETERS), PutString(BaseN.Encoded(BaseN.Standard, parameters))]))
  }

  /** The number of a message, as a counter of 64 bits shows it. */
  function Counted(sequence: nat): (r: U64) { sequence % 0x1_0000_0000_0000_0000 }

  function CallsOf(w: Write): (r: seq<Call>) {
    ObjectCalls(SEQUENCE, PutInteger(Counted(w.sequence)), BodyCalls(w.message))
  }

  /** The text the writer leaves for a message. */
  function Spelling(w: Write): (r: bytes) { RunFrom(CLEARED, CallsOf(w)).output }

  // ----- what the writer does at a run of members -----

  const BETWEEN: Frame := Frame(ObjectFrame, true, true)

  /** The writer stands behind a member of an object. */
  predicate Ready(st: State) { st.valid && st.rootWritten && st.stack != [] && Top(st) == BETWEEN }

  /** What calls write behind a member. */
  function Fragment(calls: seq<Call>): (r: bytes) { RunFrom(State([], [BETWEEN], true, true), calls).output }

  /** The calls write a text and leave the writer's frames as they were. */
  predicate Does(st: State, calls: seq<Call>, text: bytes, depth: nat) {
    RunFrom(st, calls) == Emit(st, text) && MaxStack(st, calls) <= |st.stack| + depth
  }

  /** Behind any member the calls write just that, and leave the writer behind a member. */
  ghost predicate Fits(calls: seq<Call>, depth: nat) {
    forall st | Ready(st) :: Does(st, calls, Fragment(calls), depth)
  }

  function Label(key: bytes): (r: bytes) { [COMMA] + (EscapedString(key) + [COLON]) }

  predicate IsScalar(call: Call) { call.PutNull? || call.PutBoolean? || call.PutInteger? || call.PutString? }

  function ScalarText(call: Call): (r: bytes)
    requires IsScalar(call)
  {
    match call
    case PutNull => NULL
    case PutBoolean(b) => if b then TRUE else FALSE
    case PutInteger(n) => Decimal(n)
    case PutString(text) => EscapedString(text)
  }

  /** An object written out, with its first member and the text of the others. */
  function ObjectText(key: bytes, first: Call, more: bytes): (r: bytes)
    requires IsScalar(first)
  {
    [OPEN_BRACE] + (EscapedString(key) + ([COLON] + (ScalarText(first) + (more + [CLOSE_BRACE]))))
  }
}
