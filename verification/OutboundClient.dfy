/**
 * A client of the protocol: it finds the members of an object by their names, wherever they stand in
 * it, and makes of them the message it was sent. It knows nothing of how the engine writes messages.
 */
module OutboundClient {
  import opened Bytes
  import opened Wrappers
  import opened Outbound
  import opened JsonEvents
  import opened JsonNumbers
  import BaseN

  type Events = seq<Event>

  // ----- finding members -----

  /** What follows once so many open containers have been closed. */
  function Past(events: Events, open: nat): (r: Events)
    ensures |r| <= |events|
    decreases |events|
  {
    if open == 0 || events == [] then events
    else
      match events[0]
      case ObjectBegin => Past(events[1..], open + 1)
      case ArrayBegin => Past(events[1..], open + 1)
      case ObjectEnd => Past(events[1..], open - 1)
      case ArrayEnd => Past(events[1..], open - 1)
      case _ => Past(events[1..], open)
  }

  /** What follows a value. */
  function PastValue(events: Events): (r: Events)
    ensures events != [] ==> |r| < |events|
  {
    if events == [] then []
    else if events[0].ObjectBegin? || events[0].ArrayBegin? then Past(events[1..], 1)
    else events[1..]
  }

  predicate IsText(text: bytes, s: string) { |text| == |s| && forall i | 0 <= i < |s| :: text[i] == s[i] as int }

  /** The value of the member of that name, and all that follows it, in an object from one of its members on. */
  function Member(events: Events, name: string): (r: Events)
    ensures |r| <= |events|
    decreases |events|
  {
    if events == [] || !events[0].Key? then []
    else if IsText(events[0].text, name) then events[1..]
    else Member(PastValue(events[1..]), name)
  }

  // ----- reading values -----

  function ReadText(events: Events): (r: Option<bytes>) {
    if events != [] && events[0].Value? && events[0].v.Str? then Some(events[0].v.text) else None
  }

  function ReadNumber(events: Events): (r: Option<int>) {
    if events != [] && events[0].Value? && events[0].v.Integer? then Some(IntegerValue(events[0].v.token)) else None
  }

  function ReadTruth(events: Events): (r: Option<bool>) {
    if events != [] && events[0].Value? && events[0].v.Boolean? then Some(events[0].v.b) else None
  }

  /** The members of an object that is a value. */
  function Inside(events: Events): (r: Events)
    ensures |r| <= |events|
  {
    if events != [] && events[0].ObjectBegin? then events[1..] else []
  }

  function ReadState(events: Events): (r: Option<ProjectState>) {
    match ReadText(events)
    case None => None
    case Some(t) =>
      if IsText(t, "UNLOADED") then Some(Unloaded)
      else if IsText(t, "LOADED") then Some(Loaded)
      else if IsText(t, "RUN") then Some(Run)
      else if IsText(t, "FREEZE") then Some(Freeze)
      else None
  }

  function ReadSeverity(events: Events): (r: Option<Severity>) {
    match ReadText(events)
    case None => None
    case Some(t) =>
      if IsText(t, "note") then Some(Note)
      else if IsText(t, "warning") then Some(Warning)
      else if IsText(t, "error") then Some(Error)
      else if IsText(t, "fatal error") then Some(Fatal)
      else None
  }

  predicate IsU32(n: Option<int>) { n.Some? && 0 <= n.value < 0x1_0000_0000 }

  predicate IsU64(n: Option<int>) { n.Some? && 0 <= n.value < 0x1_0000_0000_0000_0000 }

  predicate IsByte(n: Option<int>) { n.Some? && 0 <= n.value < 0x100 }

  function ReadPayload(events: Events): (r: Option<Payload>) {
    if events == [] then Some(NoPayload)
    else
      var members := Inside(events);
      if Member(members, "state") != [] then
        match ReadState(Member(members, "state"))
        case None => None
        case Some(project) => Some(StateOf(project))
      else
        var kind, size, bits :=
          ReadNumber(Member(members, "type")), ReadNumber(Member(members, "size")), ReadNumber(Member(members, "bits"));
        if IsByte(kind) && IsByte(size) && IsU64(bits) then
          Some(ValueOf(RuntimeValue(kind.value, size.value, bits.value)))
        else None
  }

  /** A text that may be missing. */
  function ReadOptional(events: Events): (r: bytes) { if ReadText(events).Some? then ReadText(events).value else [] }

  function ReadDiagnostic(members: Events): (r: Option<Diagnostic>) {
    var id, severity := ReadNumber(Member(members, "id")), ReadSeverity(Member(members, "severity"));
    var message, detail := ReadOptional(Member(members, "message")), ReadOptional(Member(members, "detail"));
    var line, column := ReadNumber(Member(members, "line")), ReadNumber(Member(members, "column"));
    if !IsU32(id) || severity.None? then None
    else if IsU32(line) && IsU32(column) then
      Some(Diagnostic(id.value, severity.value, message, detail, Outbound.Location(true, line.value, column.value)))
    else Some(Diagnostic(id.value, severity.value, message, detail, Outbound.Location(false, 0, 0)))
  }

  /** The objects of an array, from one of its elements on. */
  function ReadElements(events: Events): (r: Option<seq<Diagnostic>>)
    decreases |events|
  {
    if events == [] then None
    else if events[0].ArrayEnd? then Some([])
    else
      match (ReadDiagnostic(Inside(events)), ReadElements(PastValue(events)))
      case (Some(first), Some(rest)) => Some([first] + rest)
      case _ => None
  }

  function ReadDiagnostics(events: Events): (r: Option<seq<Diagnostic>>) {
    if events == [] then Some([]) else if events[0].ArrayBegin? then ReadElements(events[1..]) else None
  }

  function ReadResponse(members: Events): (r: Option<Message>) {
    var request, ok := ReadNumber(Member(members, "request_id")), ReadTruth(Member(members, "status"));
    var payload := ReadPayload(Member(members, "payload"));
    var diagnostics := ReadDiagnostics(Member(members, "diagnostics"));
    if IsU64(request) && ok.Some? && payload.Some? && diagnostics.Some? then
      Some(Response(request.value, true, ok.value, payload.value, diagnostics.value))
    else None
  }

  function ReadAction(members: Events): (r: Option<Message>) {
    var action := ReadText(Member(members, "action"));
    if action.None? then None
    else if IsText(action.value, "SERVER_STATE") then
      match (ReadState(Member(members, "old")), ReadState(Member(members, "new")))
      case (Some(old_), Some(new_)) => Some(ServerState(old_, new_))
      case _ => None
    else if IsText(action.value, "CLIENT") then
      var from, arg, parameters :=
        ReadText(Member(members, "from")), ReadText(Member(members, "arg")), ReadText(Member(members, "parameters"));
      if from.None? || arg.None? || parameters.None? then None
      else
        match BaseN.Decoded(BaseN.Standard, parameters.value)
        case None => None
        case Some(data) => Some(ClientAction(from.value, arg.value, data))
    else None
  }

  /** The message a client takes a document for; a response tells it nothing of its release. */
  function Understood(events: Events): (r: Option<Write>) {
    var members := Inside(events);
    var sequence := ReadNumber(Member(members, "sequence"));
    var m := if Member(members, "request_id") != [] then ReadResponse(members) else ReadAction(members);
    if IsU64(sequence) && m.Some? then Some(Write(sequence.value, m.value)) else None
  }
}
