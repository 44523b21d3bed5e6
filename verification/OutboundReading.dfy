/** A client understands every message it can read as the message that was sent. */
module OutboundReading {
  import opened Bytes
  import opened Wrappers
  import opened Outbound
  import opened JsonEvents
  import opened JsonWriting
  import opened JsonRoundTrip
  import opened OutboundFields
  import opened OutboundTheorems
  import opened OutboundClient
  import BaseN
  import JsonNumbers
  import JsonReading

  // ----- events of calls -----

  lemma {:induction false} EventsConcat(a: seq<Call>, b: seq<Call>)
    ensures EventsOf(a + b) == EventsOf(a) + EventsOf(b)
    decreases |a|
  {
    hide EventOf;
    if a == [] {
      assert a + b == b;
    } else {
      assert (a + b)[1..] == a[1..] + b;
      EventsConcat(a[1..], b);
    }
  }

  lemma OneEvent(call: Call)
    ensures EventsOf([call]) == [EventOf(call)]
  {
    hide EventOf;
    assert [call][1..] == [];
  }

  lemma MemberEvents(key: bytes, call: Call)
    ensures EventsOf([PutKey(key), call]) == [Key(key), EventOf(call)]
  {
    hide EventOf;
    assert [PutKey(key)] + [call] == [PutKey(key), call];
    EventsConcat([PutKey(key)], [call]);
    OneEvent(PutKey(key));
    OneEvent(call);
    assert EventOf(PutKey(key)) == Key(key) by {
      KeyEvent(key);
    }
  }

  lemma KeyEvent(key: bytes)
    ensures EventOf(PutKey(key)) == Key(key)
  {
  }

  lemma ObjectEvents(key: bytes, call: Call, rest: seq<Call>)
    ensures EventsOf(ObjectCalls(key, call, rest))
         == [ObjectBegin] + ([Key(key), EventOf(call)] + (EventsOf(rest) + [ObjectEnd]))
  {
    hide EventsOf;
    EventsConcat([BeginObject], [PutKey(key), call] + (rest + [EndObject]));
    EventsConcat([PutKey(key), call], rest + [EndObject]);
    EventsConcat(rest, [EndObject]);
    OneEvent(BeginObject);
    OneEvent(EndObject);
    MemberEvents(key, call);
  }

  // ----- what stands between brackets is passed over -----

  /** Events that close all they open. */
  ghost predicate Even(a: Events) { forall x: Events, n: nat | n > 0 :: Past(a + x, n) == Past(x, n) }

  lemma EvenAt(a: Events, x: Events, n: nat)
    requires Even(a) && n > 0
    ensures Past(a + x, n) == Past(x, n)
  {
  }

  lemma EvenConcat(a: Events, b: Events)
    requires Even(a) && Even(b)
    ensures Even(a + b)
  {
    hide Past, Even;
    forall x: Events, n: nat | n > 0 ensures Past((a + b) + x, n) == Past(x, n) {
      assert (a + b) + x == a + (b + x);
      EvenAt(a, b + x, n);
      EvenAt(b, x, n);
    }
    EvenIs(a + b);
  }

  lemma EvenIs(a: Events)
    requires forall x: Events, n: nat | n > 0 :: Past(a + x, n) == Past(x, n)
    ensures Even(a)
  {
  }

  predicate IsFlat(e: Event) { e.Key? || e.Value? || e.Location? }

  lemma {:induction false} FlatIsEven(a: Events)
    requires forall i | 0 <= i < |a| :: IsFlat(a[i])
    ensures Even(a)
    decreases |a|
  {
    if a == [] {
      assert forall x: Events :: a + x == x;
    } else {
      FlatIsEven(a[1..]);
      forall x: Events, n: nat | n > 0 ensures Past(a + x, n) == Past(x, n) {
        assert IsFlat(a[0]) && (a + x)[1..] == a[1..] + x;
        EvenAt(a[1..], x, n);
      }
    }
  }

  lemma PastEnclosed(begin: Event, a: Events, end: Event, x: Events, n: nat)
    requires (begin == ObjectBegin && end == ObjectEnd) || (begin == ArrayBegin && end == ArrayEnd)
    requires Even(a)
    ensures var c := [begin] + (a + [end]); (c + x)[0] == begin && Past((c + x)[1..], n + 1) == Past(x, n)
  {
    var c := [begin] + (a + [end]);
    assert (c + x)[1..] == a + ([end] + x) && ([end] + x)[1..] == x;
    EvenAt(a, [end] + x, n + 1);
  }

  lemma Enclosed(begin: Event, a: Events, end: Event, x: Events)
    requires (begin == ObjectBegin && end == ObjectEnd) || (begin == ArrayBegin && end == ArrayEnd)
    requires Even(a)
    ensures PastValue(([begin] + (a + [end])) + x) == x && Even([begin] + (a + [end]))
  {
    var c := [begin] + (a + [end]);
    PastEnclosed(begin, a, end, x, 0);
    forall y: Events, n: nat | n > 0 ensures Past(c + y, n) == Past(y, n) {
      PastEnclosed(begin, a, end, y, n);
    }
  }

  // ----- members by their names -----

  lemma Here(key: bytes, name: string, x: Events)
    requires IsText(key, name)
    ensures Member([Key(key)] + x, name) == x
  {
    assert ([Key(key)] + x)[1..] == x;
  }

  lemma NextScalar(key: bytes, own: string, v: Scalar, x: Events, name: string)
    requires IsText(key, own) && own != name
    ensures Member([Key(key), Value(v)] + x, name) == Member(x, name)
  {
    var s := [Key(key), Value(v)] + x;
    assert s[1..] == [Value(v)] + x && s[1..][1..] == x;
    assert !IsText(key, name) by {
      NotBoth(key, own, name);
    }
  }

  lemma OneText(text: bytes, a: string, b: string)
    requires IsText(text, a) && IsText(text, b)
    ensures a == b
  {
    assert forall i | 0 <= i < |a| :: a[i] as int == text[i] == b[i] as int;
  }

  lemma NotBoth(key: bytes, own: string, name: string)
    requires IsText(key, own) && own != name
    ensures !IsText(key, name)
  {
    if IsText(key, name) {
      OneText(key, own, name);
    }
  }

  lemma NextContainer(key: bytes, own: string, c: Events, x: Events, name: string)
    requires IsText(key, own) && own != name && PastValue(c + x) == x
    ensures Member([Key(key)] + c + x, name) == Member(x, name)
  {
    var s := [Key(key)] + c + x;
    assert s[1..] == c + x;
    assert !IsText(key, name) by {
      NotBoth(key, own, name);
    }
  }

  lemma NoMore(x: Events, name: string)
    requires x == [] || !x[0].Key?
    ensures Member(x, name) == []
  {
  }

  // ----- names -----

  lemma AsciiIsText(s: string)
    requires forall i | 0 <= i < |s| :: PlainChar(s[i])
    ensures IsText(Ascii(s), s)
  {
  }

  lemma MemberNames()
    ensures IsText(SEQUENCE, "sequence") && IsText(REQUEST_ID, "request_id") && IsText(STATUS, "status")
    ensures IsText(PAYLOAD, "payload") && IsText(STATE, "state") && IsText(TYPE, "type") && IsText(SIZE, "size")
    ensures IsText(BITS, "bits") && IsText(DIAGNOSTICS, "diagnostics") && IsText(ACTION, "action")
    ensures IsText(OLD, "old") && IsText(NEW, "new") && IsText(FROM, "from") && IsText(ARG, "arg")
    ensures IsText(PARAMETERS, "parameters") && IsText(SERVER_STATE, "SERVER_STATE") && IsText(CLIENT, "CLIENT")
  {
    hide IsText, Ascii;
    AsciiIsText("sequence");
    AsciiIsText("request_id");
    AsciiIsText("status");
    AsciiIsText("payload");
    AsciiIsText("state");
    AsciiIsText("type");
    AsciiIsText("size");
    AsciiIsText("bits");
    AsciiIsText("diagnostics");
    AsciiIsText("action");
    AsciiIsText("old");
    AsciiIsText("new");
    AsciiIsText("from");
    AsciiIsText("arg");
    AsciiIsText("parameters");
    AsciiIsText("SERVER_STATE");
    AsciiIsText("CLIENT");
  }

  lemma DiagnosticNames()
    ensures IsText(ID, "id") && IsText(SEVERITY, "severity") && IsText(MESSAGE, "message")
    ensures IsText(DETAIL, "detail") && IsText(LINE, "line") && IsText(COLUMN, "column")
  {
    hide IsText, Ascii;
    AsciiIsText("id");
    AsciiIsText("severity");
    AsciiIsText("message");
    AsciiIsText("detail");
    AsciiIsText("line");
    AsciiIsText("column");
  }

  // ----- values -----

  lemma ReadsNumber(n: Integral, x: Events)
    ensures EventOf(PutInteger(n)).Value? && ReadNumber([EventOf(PutInteger(n))] + x) == Some(n)
  {
    JsonNumbers.DecimalMeans(n);
  }

  lemma ReadsText(text: bytes, x: Events)
    ensures EventOf(PutString(text)).Value? && ReadText([EventOf(PutString(text))] + x) == Some(text)
  {
  }

  lemma ReadsTruth(b: bool, x: Events)
    ensures EventOf(PutBoolean(b)).Value? && ReadTruth([EventOf(PutBoolean(b))] + x) == Some(b)
  {
  }

  lemma ReadsState(project: ProjectState, x: Events)
    ensures ReadState([EventOf(PutString(StateName(project)))] + x) == Some(project)
  {
    hide Ascii, IsText;
    AsciiIsText("UNLOADED");
    AsciiIsText("LOADED");
    AsciiIsText("RUN");
    AsciiIsText("FREEZE");
    var name := StateName(project);
    assert "LOADED"[0] != "FREEZE"[0];
    match project
    case Unloaded =>
    case Loaded => NotBoth(name, "LOADED", "UNLOADED");
    case Run => NotBoth(name, "RUN", "UNLOADED"); NotBoth(name, "RUN", "LOADED");
    case Freeze =>
      NotBoth(name, "FREEZE", "UNLOADED");
      NotBoth(name, "FREEZE", "LOADED");
      NotBoth(name, "FREEZE", "RUN");
  }

  lemma ReadsSeverity(severity: Severity, x: Events)
    ensures ReadSeverity([EventOf(PutString(SeverityName(severity)))] + x) == Some(severity)
  {
    hide Ascii, IsText;
    AsciiIsText("note");
    AsciiIsText("warning");
    AsciiIsText("error");
    AsciiIsText("fatal error");
    var name := SeverityName(severity);
    match severity
    case Note =>
    case Warning => NotBoth(name, "warning", "note");
    case Error => NotBoth(name, "error", "note"); NotBoth(name, "error", "warning");
    case Fatal =>
      NotBoth(name, "fatal error", "note");
      NotBoth(name, "fatal error", "warning");
      NotBoth(name, "fatal error", "error");
  }

  /** A member with a scalar: it is found by its own name, and passed over under any other. */
  lemma Found(key: bytes, own: string, call: Call, x: Events)
    requires IsText(key, own) && EventOf(call).Value?
    ensures Member([Key(key), EventOf(call)] + x, own) == [EventOf(call)] + x
  {
    hide EventOf, Member;
    assert [Key(key), EventOf(call)] + x == [Key(key)] + ([EventOf(call)] + x);
    Here(key, own, [EventOf(call)] + x);
  }

  lemma PassedOver(key: bytes, own: string, call: Call, x: Events, name: string)
    requires IsText(key, own) && EventOf(call).Value? && own != name
    ensures Member([Key(key), EventOf(call)] + x, name) == Member(x, name)
  {
    hide EventOf, Member;
    NextScalar(key, own, EventOf(call).v, x, name);
  }

  // ----- diagnostics -----

  lemma OptionalMember(key: bytes, own: string, text: bytes, x: Events, name: string)
    requires IsText(key, own) && Member(x, own) == []
    ensures var e := EventsOf(OptionalCalls(key, text)) + x;
            if own == name then ReadOptional(Member(e, name)) == text else Member(e, name) == Member(x, name)
  {
    hide Member, EventsOf, EventOf;
    if text == [] {
      NoEvents();
      assert [] + x == x;
    } else {
      MemberEvents(key, PutString(text));
      ReadsText(text, x);
      if own == name {
        Found(key, own, PutString(text), x);
      } else {
        PassedOver(key, own, PutString(text), x, name);
      }
    }
  }

  lemma NoEvents()
    ensures EventsOf([]) == []
  {
  }

  lemma PositionEvents(at: Outbound.Location)
    ensures EventsOf(PositionCalls(at)) == if HasPosition(at) then
              [Key(LINE), EventOf(PutInteger(at.line))] + [Key(COLUMN), EventOf(PutInteger(at.column))] else []
  {
    hide EventOf, Ascii;
    if HasPosition(at) {
      MemberEvents(LINE, PutInteger(at.line));
      MemberEvents(COLUMN, PutInteger(at.column));
      EventsConcat([PutKey(LINE), PutInteger(at.line)], [PutKey(COLUMN), PutInteger(at.column)]);
    }
  }

  lemma PositionMembers(at: Outbound.Location, x: Events, name: string)
    requires forall n :: Member(x, n) == []
    ensures var e := EventsOf(PositionCalls(at)) + x;
            && (name != "line" && name != "column" ==> Member(e, name) == [])
            && ReadNumber(Member(e, "line")) == (if HasPosition(at) then Some(at.line) else None)
            && ReadNumber(Member(e, "column")) == (if HasPosition(at) then Some(at.column) else None)
  {
    hide Member, EventsOf, EventOf, IsText, Ascii;
    DiagnosticNames();
    PositionEvents(at);
    if HasPosition(at) {
      var column := [Key(COLUMN), EventOf(PutInteger(at.column))] + x;
      assert EventsOf(PositionCalls(at)) + x == [Key(LINE), EventOf(PutInteger(at.line))] + column;
      ReadsNumber(at.line, column);
      ReadsNumber(at.column, x);
      Found(LINE, "line", PutInteger(at.line), column);
      PassedOver(LINE, "line", PutInteger(at.line), column, "column");
      Found(COLUMN, "column", PutInteger(at.column), x);
      if name != "line" && name != "column" {
        PassedOver(LINE, "line", PutInteger(at.line), column, name);
        PassedOver(COLUMN, "column", PutInteger(at.column), x, name);
      }
    } else {
      assert [] + x == x;
    }
  }

  lemma RestEvents(d: Diagnostic)
    ensures EventsOf(DiagnosticRest(d))
         == [Key(SEVERITY), EventOf(PutString(SeverityName(d.severity)))]
            + (EventsOf(OptionalCalls(MESSAGE, d.message))
            + (EventsOf(OptionalCalls(DETAIL, d.detail)) + EventsOf(PositionCalls(d.location))))
  {
    hide EventsOf, EventOf, Ascii, SeverityName, OptionalCalls, PositionCalls;
    var message, detail, at :=
      OptionalCalls(MESSAGE, d.message), OptionalCalls(DETAIL, d.detail), PositionCalls(d.location);
    EventsConcat(detail, at);
    EventsConcat(message, detail + at);
    EventsConcat([PutKey(SEVERITY), PutString(SeverityName(d.severity))], message + (detail + at));
    MemberEvents(SEVERITY, PutString(SeverityName(d.severity)));
  }

  lemma OptionalIsEven(key: bytes, text: bytes)
    ensures Even(EventsOf(OptionalCalls(key, text)))
  {
    hide Even, EventsOf;
    NoEvents();
    MemberEvents(key, PutString(text));
    FlatIsEven(EventsOf(OptionalCalls(key, text)));
  }

  lemma MemberIsEven(key: bytes, call: Call)
    requires EventOf(call).Value?
    ensures Even([Key(key), EventOf(call)])
  {
    hide Even, EventOf;
    FlatIsEven([Key(key), EventOf(call)]);
  }

  lemma RestIsEven(d: Diagnostic)
    ensures Even(EventsOf(DiagnosticRest(d)))
  {
    hide Even, EventsOf, Ascii, SeverityName, OptionalCalls;
    RestEvents(d);
    var message, detail, at := EventsOf(OptionalCalls(MESSAGE, d.message)), EventsOf(OptionalCalls(DETAIL, d.detail)),
      EventsOf(PositionCalls(d.location));
    MemberIsEven(SEVERITY, PutString(SeverityName(d.severity)));
    OptionalIsEven(MESSAGE, d.message);
    OptionalIsEven(DETAIL, d.detail);
    PositionEvents(d.location);
    FlatIsEven(at);
    EvenConcat(detail, at);
    EvenConcat(message, detail + at);
    EvenConcat([Key(SEVERITY), EventOf(PutString(SeverityName(d.severity)))], message + (detail + at));
  }

  /** An object is passed over, and what is inside it is its members. */
  lemma ObjectPassed(key: bytes, call: Call, rest: seq<Call>, x: Events)
    requires EventOf(call).Value? && Even(EventsOf(rest))
    ensures var e := EventsOf(ObjectCalls(key, call, rest));
            && PastValue(e + x) == x && Even(e) && (e + x)[0] == ObjectBegin
            && Inside(e + x) == [Key(key), EventOf(call)] + (EventsOf(rest) + ([ObjectEnd] + x))
  {
    hide Even, EventsOf, EventOf, Past, PastValue;
    ObjectEvents(key, call, rest);
    var member, more := [Key(key), EventOf(call)], EventsOf(rest);
    MemberIsEven(key, call);
    EvenConcat(member, more);
    Enclosed(ObjectBegin, member + more, ObjectEnd, x);
    assert [ObjectBegin] + ((member + more) + [ObjectEnd]) == [ObjectBegin] + (member + (more + [ObjectEnd]));
    var e := EventsOf(ObjectCalls(key, call, rest));
    assert (e + x)[1..] == member + (more + ([ObjectEnd] + x));
  }

  lemma ReadsDiagnostic(d: Diagnostic, x: Events)
    ensures ReadDiagnostic(Inside(EventsOf(DiagnosticCalls(d)) + x)) == Some(ShownDiagnostic(d))
  {
    hide Member, EventsOf, EventOf, IsText, Ascii, SeverityName, Inside, ReadOptional;
    DiagnosticNames();
    RestIsEven(d);
    ReadsNumber(d.id, []);
    ObjectPassed(ID, PutInteger(d.id), DiagnosticRest(d), x);
    RestEvents(d);
    var end := [ObjectEnd] + x;
    forall n ensures Member(end, n) == [] {
      NoMore(end, n);
    }
    var at := EventsOf(PositionCalls(d.location)) + end;
    var detail := EventsOf(OptionalCalls(DETAIL, d.detail)) + at;
    var message := EventsOf(OptionalCalls(MESSAGE, d.message)) + detail;
    var severity := [Key(SEVERITY), EventOf(PutString(SeverityName(d.severity)))] + message;
    var members := [Key(ID), EventOf(PutInteger(d.id))] + severity;
    assert EventsOf(DiagnosticRest(d)) + end == severity;
    PositionMembers(d.location, end, "detail");
    PositionMembers(d.location, end, "message");
    OptionalMember(DETAIL, "detail", d.detail, at, "message");
    ReadsNumber(d.id, severity);
    Found(ID, "id", PutInteger(d.id), severity);
    DiagnosticMembers(d, members, severity, message, detail, at);
    ReadsSeverity(d.severity, message);
  }

  /** Each member of a diagnostic is found where it stands. */
  lemma DiagnosticMembers(d: Diagnostic, members: Events, severity: Events, message: Events, detail: Events, at: Events)
    requires members == [Key(ID), EventOf(PutInteger(d.id))] + severity
    requires severity == [Key(SEVERITY), EventOf(PutString(SeverityName(d.severity)))] + message
    requires message == EventsOf(OptionalCalls(MESSAGE, d.message)) + detail && Member(detail, "message") == []
    requires detail == EventsOf(OptionalCalls(DETAIL, d.detail)) + at && Member(at, "detail") == []
    ensures Member(members, "severity") == [EventOf(PutString(SeverityName(d.severity)))] + message
    ensures ReadOptional(Member(members, "message")) == d.message && ReadOptional(Member(members, "detail")) == d.detail
    ensures Member(members, "line") == Member(at, "line") && Member(members, "column") == Member(at, "column")
  {
    hide Member, EventsOf, EventOf, IsText, Ascii, SeverityName, ReadOptional;
    DiagnosticNames();
    ReadsNumber(d.id, []);
    ReadsText(SeverityName(d.severity), []);
    var name := PutString(SeverityName(d.severity));
    PassedOver(ID, "id", PutInteger(d.id), severity, "severity");
    Found(SEVERITY, "severity", name, message);
    PassedOver(ID, "id", PutInteger(d.id), severity, "message");
    PassedOver(SEVERITY, "severity", name, message, "message");
    OptionalMember(MESSAGE, "message", d.message, detail, "message");
    PassedOver(ID, "id", PutInteger(d.id), severity, "detail");
    PassedOver(SEVERITY, "severity", name, message, "detail");
    OptionalMember(MESSAGE, "message", d.message, detail, "detail");
    OptionalMember(DETAIL, "detail", d.detail, at, "detail");
    PassedOver(ID, "id", PutInteger(d.id), severity, "line");
    PassedOver(SEVERITY, "severity", name, message, "line");
    OptionalMember(MESSAGE, "message", d.message, detail, "line");
    OptionalMember(DETAIL, "detail", d.detail, at, "line");
    PassedOver(ID, "id", PutInteger(d.id), severity, "column");
    PassedOver(SEVERITY, "severity", name, message, "column");
    assert "detail"[0] != "column"[0];
    OptionalMember(MESSAGE, "message", d.message, detail, "column");
    OptionalMember(DETAIL, "detail", d.detail, at, "column");
  }

  lemma {:induction false} ReadsElements(diagnostics: seq<Diagnostic>, x: Events)
    ensures ReadElements(EventsOf(ListCalls(diagnostics)) + ([ArrayEnd] + x)) == Some(ShownList(diagnostics))
    ensures Even(EventsOf(ListCalls(diagnostics)))
    decreases |diagnostics|
  {
    hide EventsOf, EventOf, DiagnosticCalls, Even, ReadDiagnostic, ShownDiagnostic, Inside, PastValue;
    var end := [ArrayEnd] + x;
    if diagnostics == [] {
      NoEvents();
      FlatIsEven([]);
      assert [] + end == end;
    } else {
      var d, rest := diagnostics[0], diagnostics[1..];
      var more := EventsOf(ListCalls(rest)) + end;
      EventsConcat(DiagnosticCalls(d), ListCalls(rest));
      assert EventsOf(ListCalls(diagnostics)) + end == EventsOf(DiagnosticCalls(d)) + more;
      DiagnosticPassed(d, more);
      ReadsDiagnostic(d, more);
      ReadsElements(rest, x);
      EvenConcat(EventsOf(DiagnosticCalls(d)), EventsOf(ListCalls(rest)));
    }
  }

  lemma DiagnosticPassed(d: Diagnostic, x: Events)
    ensures var e := EventsOf(DiagnosticCalls(d)); PastValue(e + x) == x && Even(e) && (e + x)[0] == ObjectBegin
  {
    hide EventsOf, PastValue, Even, Ascii, DiagnosticRest;
    RestIsEven(d);
    ObjectPassed(ID, PutInteger(d.id), DiagnosticRest(d), x);
  }

  lemma DiagnosticsMember(diagnostics: seq<Diagnostic>, x: Events, name: string)
    requires forall n :: Member(x, n) == []
    ensures var e := EventsOf(DiagnosticsCalls(diagnostics)) + x;
            && ReadDiagnostics(Member(e, "diagnostics")) == Some(ShownList(diagnostics))
            && (Member(e, "diagnostics") == [] <==> diagnostics == [])
            && (name != "diagnostics" ==> Member(e, name) == [])
  {
    hide Member, EventsOf, EventOf, IsText, Ascii, ListCalls, ReadElements, Even, ShownList, PastValue;
    if diagnostics == [] {
      NoEvents();
      assert [] + x == x;
      NothingShown();
    } else {
      MemberNames();
      var list := EventsOf(ListCalls(diagnostics));
      var whole := [ArrayBegin] + (list + [ArrayEnd]);
      EventsConcat([PutKey(DIAGNOSTICS), BeginArray], ListCalls(diagnostics) + [EndArray]);
      EventsConcat(ListCalls(diagnostics), [EndArray]);
      MemberEvents(DIAGNOSTICS, BeginArray);
      OneEvent(EndArray);
      assert EventOf(BeginArray) == ArrayBegin && EventOf(EndArray) == ArrayEnd by {
        ArrayEvents();
      }
      var e := EventsOf(DiagnosticsCalls(diagnostics)) + x;
      assert e == [Key(DIAGNOSTICS)] + whole + x == [Key(DIAGNOSTICS)] + (whole + x);
      ReadsElements(diagnostics, x);
      Here(DIAGNOSTICS, "diagnostics", whole + x);
      assert (whole + x)[1..] == list + ([ArrayEnd] + x);
      Enclosed(ArrayBegin, list, ArrayEnd, x);
      if name != "diagnostics" {
        NextContainer(DIAGNOSTICS, "diagnostics", whole, x, name);
      }
    }
  }

  lemma ArrayEvents()
    ensures EventOf(BeginArray) == ArrayBegin && EventOf(EndArray) == ArrayEnd
  {
  }

  lemma NothingShown()
    ensures ShownList([]) == []
  {
  }

  // ----- payloads -----

  /** The state, or the value, that a payload object has inside. */
  lemma ReadsStatePayload(project: ProjectState, x: Events)
    ensures ReadPayload(EventsOf(ObjectCalls(STATE, PutString(StateName(project)), [])) + x) == Some(StateOf(project))
  {
    hide Member, EventsOf, EventOf, IsText, Ascii, StateName, Even, Inside, ReadState, PastValue;
    MemberNames();
    ReadsText(StateName(project), []);
    NoEvents();
    FlatIsEven([]);
    ObjectPassed(STATE, PutString(StateName(project)), [], x);
    var end := [] + ([ObjectEnd] + x);
    Found(STATE, "state", PutString(StateName(project)), end);
    ReadsState(project, end);
  }

  lemma ReadsValuePayload(v: RuntimeValue, x: Events)
    ensures var rest := [PutKey(SIZE), PutInteger(v.size)] + [PutKey(BITS), PutInteger(v.bits)];
            && ReadPayload(EventsOf(ObjectCalls(TYPE, PutInteger(v.kind), rest)) + x) == Some(ValueOf(v))
            && Even(EventsOf(rest))
  {
    hide Member, EventsOf, EventOf, IsText, Ascii, Even, Inside, PastValue;
    MemberNames();
    var size, bits := PutInteger(v.size), PutInteger(v.bits);
    var rest := [PutKey(SIZE), size] + [PutKey(BITS), bits];
    EventsConcat([PutKey(SIZE), size], [PutKey(BITS), bits]);
    MemberEvents(SIZE, size);
    MemberEvents(BITS, bits);
    var end := [ObjectEnd] + x;
    var third := [Key(BITS), EventOf(bits)] + end;
    var second := [Key(SIZE), EventOf(size)] + third;
    ReadsNumber(v.kind, second);
    ReadsNumber(v.size, third);
    ReadsNumber(v.bits, end);
    FlatIsEven(EventsOf(rest));
    ObjectPassed(TYPE, PutInteger(v.kind), rest, x);
    assert EventsOf(rest) + end == second;
    PassedOver(TYPE, "type", PutInteger(v.kind), second, "state");
    PassedOver(SIZE, "size", size, third, "state");
    PassedOver(BITS, "bits", bits, end, "state");
    NoMore(end, "state");
    Found(TYPE, "type", PutInteger(v.kind), second);
    assert "type"[0] != "size"[0] && "type"[0] != "bits"[0] && "size"[0] != "bits"[0];
    PassedOver(TYPE, "type", PutInteger(v.kind), second, "size");
    Found(SIZE, "size", size, third);
    PassedOver(TYPE, "type", PutInteger(v.kind), second, "bits");
    PassedOver(SIZE, "size", size, third, "bits");
    Found(BITS, "bits", bits, end);
  }

  lemma PayloadMember(payload: Payload, x: Events, name: string)
    requires Member(x, "payload") == []
    ensures var e := EventsOf(PayloadCalls(payload)) + x;
            && ReadPayload(Member(e, "payload")) == Some(payload)
            && (Member(e, "payload") == [] <==> payload.NoPayload?)
            && (name != "payload" ==> Member(e, name) == Member(x, name))
  {
    hide Member, EventsOf, EventOf, IsText, Ascii, ObjectCalls, StateName, ReadPayload, Even, PastValue, Inside;
    MemberNames();
    match payload
    case NoPayload =>
      NoEvents();
      assert [] + x == x;
      NoPayloadRead();
    case StateOf(project) =>
      var inner := ObjectCalls(STATE, PutString(StateName(project)), []);
      NoEvents();
      FlatIsEven([]);
      ReadsText(StateName(project), []);
      ObjectPassed(STATE, PutString(StateName(project)), [], x);
      ReadsStatePayload(project, x);
      ObjectMember(inner, x, name);
    case ValueOf(v) =>
      var rest := [PutKey(SIZE), PutInteger(v.size)] + [PutKey(BITS), PutInteger(v.bits)];
      var inner := ObjectCalls(TYPE, PutInteger(v.kind), rest);
      ReadsNumber(v.kind, []);
      ReadsValuePayload(v, x);
      ObjectPassed(TYPE, PutInteger(v.kind), rest, x);
      ObjectMember(inner, x, name);
  }

  lemma NoPayloadRead()
    ensures ReadPayload([]) == Some(NoPayload)
  {
  }

  lemma ObjectMember(inner: seq<Call>, x: Events, name: string)
    requires PastValue(EventsOf(inner) + x) == x
    ensures var e := EventsOf([PutKey(PAYLOAD)] + inner) + x;
            && Member(e, "payload") == EventsOf(inner) + x
            && (name != "payload" ==> Member(e, name) == Member(x, name))
  {
    hide Member, EventsOf, EventOf, IsText, Ascii, PastValue;
    MemberNames();
    EventsConcat([PutKey(PAYLOAD)], inner);
    OneEvent(PutKey(PAYLOAD));
    KeyEvent(PAYLOAD);
    assert EventsOf([PutKey(PAYLOAD)] + inner) + x == [Key(PAYLOAD)] + EventsOf(inner) + x
        == [Key(PAYLOAD)] + (EventsOf(inner) + x);
    Here(PAYLOAD, "payload", EventsOf(inner) + x);
    if name != "payload" {
      NextContainer(PAYLOAD, "payload", EventsOf(inner), x, name);
    }
  }

  // ----- messages -----

  /** The members of the object that a message is. */
  function MembersOf(w: Write): (r: Events) {
    [Key(SEQUENCE), EventOf(PutInteger(Counted(w.sequence)))] + (EventsOf(BodyCalls(w.message)) + [ObjectEnd])
  }

  lemma MessageInside(w: Write)
    ensures Inside(EventsOf(CallsOf(w))) == MembersOf(w)
  {
    hide EventsOf, EventOf, Ascii, BodyCalls;
    ObjectEvents(SEQUENCE, PutInteger(Counted(w.sequence)), BodyCalls(w.message));
    var e := EventsOf(CallsOf(w));
    assert e[1..] == MembersOf(w);
  }

  lemma ReadsResponse(w: Write)
    requires w.message.Response?
    ensures ReadResponse(MembersOf(w)) == Some(Shown(w).message) && Member(MembersOf(w), "request_id") != []
    ensures Member(MembersOf(w), "payload") == [] <==> w.message.payload.NoPayload?
    ensures Member(MembersOf(w), "diagnostics") == [] <==> w.message.diagnostics == []
  {
    hide Member, EventsOf, EventOf, IsText, Ascii, PayloadCalls, DiagnosticsCalls;
    hide ReadPayload, ReadDiagnostics, ShownList;
    MemberNames();
    var Response(request, _, ok, payload, diagnostics) := w.message;
    var n := PutInteger(Counted(w.sequence));
    var id, status := PutInteger(request), PutBoolean(ok);
    var p, d := PayloadCalls(payload), DiagnosticsCalls(diagnostics);
    EventsConcat(p, d);
    EventsConcat([PutKey(STATUS), status], p + d);
    EventsConcat([PutKey(REQUEST_ID), id], [PutKey(STATUS), status] + (p + d));
    MemberEvents(REQUEST_ID, id);
    MemberEvents(STATUS, status);
    var end := EventsOf(d) + [ObjectEnd];
    var third := EventsOf(p) + end;
    var second := [Key(STATUS), EventOf(status)] + third;
    var first := [Key(REQUEST_ID), EventOf(id)] + second;
    assert EventsOf(BodyCalls(w.message)) + [ObjectEnd] == first;
    forall name ensures Member([ObjectEnd], name) == [] {
      NoMore([ObjectEnd], name);
    }
    DiagnosticsMember(diagnostics, [ObjectEnd], "payload");
    PayloadMember(payload, end, "diagnostics");
    ReadsNumber(Counted(w.sequence), first);
    ReadsNumber(request, second);
    ReadsTruth(ok, third);
    PassedOver(SEQUENCE, "sequence", n, first, "request_id");
    Found(REQUEST_ID, "request_id", id, second);
    PassedOver(SEQUENCE, "sequence", n, first, "status");
    PassedOver(REQUEST_ID, "request_id", id, second, "status");
    Found(STATUS, "status", status, third);
    PassedOver(SEQUENCE, "sequence", n, first, "payload");
    PassedOver(REQUEST_ID, "request_id", id, second, "payload");
    PassedOver(STATUS, "status", status, third, "payload");
    PassedOver(SEQUENCE, "sequence", n, first, "diagnostics");
    PassedOver(REQUEST_ID, "request_id", id, second, "diagnostics");
    PassedOver(STATUS, "status", status, third, "diagnostics");
  }

  lemma ReadsServerState(w: Write)
    requires w.message.ServerState?
    ensures ReadAction(MembersOf(w)) == Some(w.message) && Member(MembersOf(w), "request_id") == []
  {
    hide Member, EventsOf, EventOf, IsText, Ascii, StateName, ReadState;
    MemberNames();
    var n := PutInteger(Counted(w.sequence));
    var action, old_, new_ :=
      PutString(SERVER_STATE), PutString(StateName(w.message.old_)), PutString(StateName(w.message.new_));
    EventsConcat([PutKey(OLD), old_], [PutKey(NEW), new_]);
    EventsConcat([PutKey(ACTION), action], [PutKey(OLD), old_] + [PutKey(NEW), new_]);
    MemberEvents(ACTION, action);
    MemberEvents(OLD, old_);
    MemberEvents(NEW, new_);
    var third := [Key(NEW), EventOf(new_)] + [ObjectEnd];
    var second := [Key(OLD), EventOf(old_)] + third;
    var first := [Key(ACTION), EventOf(action)] + second;
    assert EventsOf(BodyCalls(w.message)) + [ObjectEnd] == first;
    ReadsNumber(Counted(w.sequence), first);
    ReadsText(SERVER_STATE, second);
    ReadsText(StateName(w.message.old_), third);
    ReadsText(StateName(w.message.new_), [ObjectEnd]);
    ReadsState(w.message.old_, third);
    ReadsState(w.message.new_, [ObjectEnd]);
    PassedOver(SEQUENCE, "sequence", n, first, "request_id");
    PassedOver(ACTION, "action", action, second, "request_id");
    PassedOver(OLD, "old", old_, third, "request_id");
    PassedOver(NEW, "new", new_, [ObjectEnd], "request_id");
    NoMore([ObjectEnd], "request_id");
    PassedOver(SEQUENCE, "sequence", n, first, "action");
    Found(ACTION, "action", action, second);
    PassedOver(SEQUENCE, "sequence", n, first, "old");
    PassedOver(ACTION, "action", action, second, "old");
    Found(OLD, "old", old_, third);
    PassedOver(SEQUENCE, "sequence", n, first, "new");
    PassedOver(ACTION, "action", action, second, "new");
    assert "old"[0] != "new"[0];
    PassedOver(OLD, "old", old_, third, "new");
    Found(NEW, "new", new_, [ObjectEnd]);
  }

  lemma ReadsClientAction(w: Write)
    requires w.message.ClientAction?
    ensures ReadAction(MembersOf(w)) == Some(w.message) && Member(MembersOf(w), "request_id") == []
  {
    hide Member, EventsOf, EventOf, IsText, Ascii, BaseN.Encoded, BaseN.Decoded;
    MemberNames();
    var n := PutInteger(Counted(w.sequence));
    var encoded := BaseN.Encoded(BaseN.Standard, w.message.parameters);
    var action, from, arg, parameters :=
      PutString(CLIENT), PutString(w.message.from), PutString(w.message.arg), PutString(encoded);
    EventsConcat([PutKey(ARG), arg], [PutKey(PARAMETERS), parameters]);
    EventsConcat([PutKey(FROM), from], [PutKey(ARG), arg] + [PutKey(PARAMETERS), parameters]);
    EventsConcat([PutKey(ACTION), action],
        [PutKey(FROM), from] + ([PutKey(ARG), arg] + [PutKey(PARAMETERS), parameters]));
    MemberEvents(ACTION, action);
    MemberEvents(FROM, from);
    MemberEvents(ARG, arg);
    MemberEvents(PARAMETERS, parameters);
    var fourth := [Key(PARAMETERS), EventOf(parameters)] + [ObjectEnd];
    var third := [Key(ARG), EventOf(arg)] + fourth;
    var second := [Key(FROM), EventOf(from)] + third;
    var first := [Key(ACTION), EventOf(action)] + second;
    assert EventsOf(BodyCalls(w.message)) + [ObjectEnd] == first;
    ReadsNumber(Counted(w.sequence), first);
    ReadsText(CLIENT, second);
    ReadsText(w.message.from, third);
    ReadsText(w.message.arg, fourth);
    ReadsText(encoded, [ObjectEnd]);
    BaseN.DecodeUndoesEncode(BaseN.Standard, w.message.parameters);
    NotBoth(CLIENT, "CLIENT", "SERVER_STATE");
    PassedOver(SEQUENCE, "sequence", n, first, "request_id");
    PassedOver(ACTION, "action", action, second, "request_id");
    PassedOver(FROM, "from", from, third, "request_id");
    PassedOver(ARG, "arg", arg, fourth, "request_id");
    assert "parameters"[0] != "request_id"[0];
    PassedOver(PARAMETERS, "parameters", parameters, [ObjectEnd], "request_id");
    NoMore([ObjectEnd], "request_id");
    PassedOver(SEQUENCE, "sequence", n, first, "action");
    Found(ACTION, "action", action, second);
    PassedOver(SEQUENCE, "sequence", n, first, "from");
    PassedOver(ACTION, "action", action, second, "from");
    Found(FROM, "from", from, third);
    PassedOver(SEQUENCE, "sequence", n, first, "arg");
    PassedOver(ACTION, "action", action, second, "arg");
    PassedOver(FROM, "from", from, third, "arg");
    Found(ARG, "arg", arg, fourth);
    PassedOver(SEQUENCE, "sequence", n, first, "parameters");
    PassedOver(ACTION, "action", action, second, "parameters");
    PassedOver(FROM, "from", from, third, "parameters");
    PassedOver(ARG, "arg", arg, fourth, "parameters");
    Found(PARAMETERS, "parameters", parameters, [ObjectEnd]);
  }

  /** A response has a member for a payload, or for diagnostics, exactly when it has some. */
  lemma ResponseOmits(w: Write)
    requires w.message.Response?
    ensures var members := Inside(EventsOf(CallsOf(w)));
            && (Member(members, "payload") == [] <==> w.message.payload.NoPayload?)
            && (Member(members, "diagnostics") == [] <==> w.message.diagnostics == [])
  {
    hide Member, EventsOf, CallsOf, Inside;
    MessageInside(w);
    ReadsResponse(w);
  }

  /** A client takes the fields of a message for just that message. */
  lemma FieldsUnderstood(w: Write)
    ensures Understood(EventsOf(CallsOf(w))) == Some(Shown(w))
  {
    hide Member, EventsOf, EventOf, IsText, Ascii, CallsOf, BodyCalls, ReadResponse, ReadAction, Inside, ShownList;
    MemberNames();
    MessageInside(w);
    var n := PutInteger(Counted(w.sequence));
    var body := EventsOf(BodyCalls(w.message)) + [ObjectEnd];
    ReadsNumber(Counted(w.sequence), body);
    Found(SEQUENCE, "sequence", n, body);
    match w.message
    case Response(_, _, _, _, _) => ReadsResponse(w);
    case ServerState(_, _) => ReadsServerState(w);
    case ClientAction(_, _, _) => ReadsClientAction(w);
  }

  /** What a client makes of a text, if it can read it. */
  function Receive(text: bytes): (r: Option<Write>) {
    match JsonReading.Read(text)
    case Bad(_) => None
    case Good(_, events) => Understood(Unlocated(events))
  }

  /**
   * A client gets back every message whose strings are valid UTF-8: its number, and all of its fields
   * but those that are not shown. Of any other message it gets nothing.
   */
  lemma MessageUnderstood(w: Write)
    ensures Receive(Spelling(w)) == if TextsAreUtf8(w.message) then Some(Shown(w)) else None
  {
    hide JsonReading.Read, Unlocated, Understood, EventsOf, CallsOf, TextsAreUtf8, Shown, Spelling;
    MessageReads(w);
    FieldsUnderstood(w);
  }

  /** A text that can be read is the text of one message only, as far as messages show. */
  lemma TextsShow(v: Write, w: Write)
    requires TextsAreUtf8(v.message)
    ensures Spelling(v) == Spelling(w) <==> Shown(v) == Shown(w)
  {
    hide Receive, CallsOf, TextsAreUtf8, Shown, Spelling;
    MessageUnderstood(v);
    MessageUnderstood(w);
    SpellingOfShown(v);
    SpellingOfShown(w);
  }

  lemma SpellingOfShown(w: Write)
    ensures Spelling(Shown(w)) == Spelling(w)
  {
    hide CallsOf, Shown, RunFrom;
    CallsOfShown(w);
  }
}
