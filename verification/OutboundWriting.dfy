/** The writer at the calls of a message: what it writes for each, and that it is complete after them. */
module OutboundWriting {
  import opened Bytes
  import opened Outbound
  import opened JsonGrammar
  import opened JsonWriting
  import opened OutboundFields
  import JsonRoundTrip

  lemma TwoCalls(st: State, a: Call, b: Call)
    ensures RunFrom(st, [a, b]) == Step(Step(st, a).st, b).st
    ensures MaxStack(st, [a, b]) == Max(|st.stack|, Max(|Step(st, a).st.stack|, |Step(Step(st, a).st, b).st.stack|))
  {
    hide Step;
    assert [a, b][1..] == [b];
    JsonRoundTrip.RunOne(Step(st, a).st, [b]);
  }

  // ----- states -----

  function Push(st: State, frame: Frame): (r: State) { st.(stack := st.stack + [frame]) }

  lemma PushFacts(st: State, frame: Frame, other: Frame, text: bytes)
    ensures var r := Push(st, frame);
            && r.stack != [] && |r.stack| == |st.stack| + 1 && Top(r) == frame
            && r.valid == st.valid && r.rootWritten == st.rootWritten
            && SetTop(r, other) == Push(st, other) && Emit(r, text) == Push(Emit(st, text), frame)
  {
    assert Push(st, frame).stack[..|st.stack|] + [other] == st.stack + [other];
  }

  lemma EmitTwice(st: State, a: bytes, b: bytes)
    ensures Emit(Emit(st, a), b) == Emit(st, a + b)
    ensures Emit(st, []) == st
  {
    assert st.output + a + b == st.output + (a + b);
  }

  lemma EmitFacts(st: State, text: bytes)
    ensures var r := Emit(st, text);
            r.stack == st.stack && r.valid == st.valid && r.rootWritten == st.rootWritten && (Ready(st) ==> Ready(r))
  {
  }

  /** The writer is at the place of a key; its content tells whether a comma is due. */
  predicate AtKey(st: State) {
    st.valid && st.rootWritten && st.stack != [] && Top(st).kind.ObjectFrame? && Top(st).expectKey
  }

  function Separated(some: bool, text: bytes): (r: bytes) { (if some then [COMMA] else []) + text }

  lemma KeyStep(st: State, key: bytes)
    requires AtKey(st)
    ensures var named := SetTop(Emit(st, Separated(Top(st).hasContent, EscapedString(key) + [COLON])),
                                Top(st).(expectKey := false));
            Step(st, PutKey(key)).st == named && BeginValue(named) == Stepped(named, true)
  {
    hide EscapedString;
    var comma: bytes := if Top(st).hasContent then [COMMA] else [];
    assert comma + EscapedString(key) + [COLON] == Separated(Top(st).hasContent, EscapedString(key) + [COLON]);
  }

  lemma ScalarStep(st: State, call: Call)
    requires BeginValue(st) == Stepped(st, true) && IsScalar(call)
    ensures Step(st, call).st == FinishValue(Emit(st, ScalarText(call)))
  {
    hide BeginValue, FinishValue, EscapedString, Decimal;
  }

  /** A value in an object, behind its key. */
  lemma ValueEnds(st: State, key: bytes, text: bytes)
    requires AtKey(st)
    ensures FinishValue(Emit(SetTop(Emit(st, key), Top(st).(expectKey := false)), text))
         == SetTop(Emit(st, key + text), BETWEEN)
  {
    var frames := st.stack[..|st.stack| - 1];
    assert (frames + [Top(st).(expectKey := false)])[..|st.stack| - 1] == frames;
    assert st.output + key + text == st.output + (key + text);
  }

  lemma SetTopFacts(st: State, frame: Frame)
    requires st.stack != []
    ensures |SetTop(st, frame).stack| == |st.stack| && (frame == Top(st) ==> SetTop(st, frame) == st)
    ensures SetTop(st, frame).rootWritten == st.rootWritten && SetTop(st, frame).valid == st.valid
  {
  }

  /** A member written where one may stand, first or not. */
  lemma MemberRuns(st: State, key: bytes, call: Call)
    requires AtKey(st) && IsScalar(call)
    ensures var text := Separated(Top(st).hasContent, EscapedString(key) + [COLON]) + ScalarText(call);
            RunFrom(st, [PutKey(key), call]) == SetTop(Emit(st, text), BETWEEN)
    ensures MaxStack(st, [PutKey(key), call]) == |st.stack|
  {
    hide EscapedString, ScalarText, Separated, Step, BeginValue, FinishValue, SetTop, RunFrom, MaxStack;
    var before := Separated(Top(st).hasContent, EscapedString(key) + [COLON]);
    var frame := Top(st).(expectKey := false);
    TwoCalls(st, PutKey(key), call);
    KeyStep(st, key);
    ScalarStep(SetTop(Emit(st, before), frame), call);
    ValueEnds(st, before, ScalarText(call));
    EmitFacts(st, before);
    SetTopFacts(Emit(st, before), frame);
    SetTopFacts(Emit(st, before + ScalarText(call)), BETWEEN);
  }

  lemma MemberFits(key: bytes, call: Call, depth: nat)
    requires IsScalar(call)
    ensures Fits([PutKey(key), call], depth) && Fragment([PutKey(key), call]) == Label(key) + ScalarText(call)
  {
    hide Fits, Does, Fragment;
    var text := Label(key) + ScalarText(call);
    forall st | Ready(st) ensures Does(st, [PutKey(key), call], text, depth) {
      FurtherMember(st, key, call, depth);
    }
    FitsIs([PutKey(key), call], text, depth);
  }

  lemma FurtherMember(st: State, key: bytes, call: Call, depth: nat)
    requires Ready(st) && IsScalar(call)
    ensures Does(st, [PutKey(key), call], Label(key) + ScalarText(call), depth)
  {
    hide EscapedString, ScalarText, RunFrom, MaxStack, SetTop;
    var text := Label(key) + ScalarText(call);
    assert Separated(true, EscapedString(key) + [COLON]) == Label(key);
    MemberRuns(st, key, call);
    SetTopFacts(Emit(st, text), BETWEEN);
  }

  lemma NothingFits(depth: nat)
    ensures Fits([], depth) && Fragment([]) == []
  {
    assert forall st: State :: Emit(st, []) == st;
  }

  lemma FitsAt(calls: seq<Call>, depth: nat, st: State)
    requires Fits(calls, depth) && Ready(st)
    ensures Does(st, calls, Fragment(calls), depth)
  {
    hide Does;
  }

  lemma FitsIs(calls: seq<Call>, text: bytes, depth: nat)
    requires forall st | Ready(st) :: Does(st, calls, text, depth)
    ensures Fits(calls, depth) && Fragment(calls) == text
  {
    hide RunFrom, MaxStack;
    var st := State([], [BETWEEN], true, true);
    assert Ready(st) && [] + text == text;
    assert Does(st, calls, text, depth);
    hide Does;
  }

  lemma DoesBoth(st: State, a: seq<Call>, b: seq<Call>, s: bytes, t: bytes, depth: nat)
    requires Does(st, a, s, depth) && Does(Emit(st, s), b, t, depth)
    ensures Does(st, a + b, s + t, depth)
  {
    hide RunFrom, MaxStack;
    JsonRoundTrip.RunConcat(st, a, b);
    assert st.output + s + t == st.output + (s + t);
  }

  lemma FitsConcat(a: seq<Call>, b: seq<Call>, depth: nat)
    requires Fits(a, depth) && Fits(b, depth)
    ensures Fits(a + b, depth) && Fragment(a + b) == Fragment(a) + Fragment(b)
  {
    hide Fits, Does, Fragment;
    var text := Fragment(a) + Fragment(b);
    forall st | Ready(st) ensures Does(st, a + b, text, depth) {
      FitsAt(a, depth, st);
      FitsAt(b, depth, Emit(st, Fragment(a)));
      DoesBoth(st, a, b, Fragment(a), Fragment(b), depth);
    }
    FitsIs(a + b, text, depth);
  }

  lemma FitsDeeper(calls: seq<Call>, depth: nat, more: nat)
    requires Fits(calls, depth) && depth <= more
    ensures Fits(calls, more)
  {
    hide RunFrom, MaxStack, Fragment;
  }

  lemma OpenStep(st: State, list: bool)
    requires BeginValue(st).ok
    ensures var frame := if list then Frame(ArrayFrame, false, false) else Frame(ObjectFrame, false, true);
            Step(st, if list then BeginArray else BeginObject).st
            == Push(Emit(BeginValue(st).st, [if list then OPEN_BRACKET else OPEN_BRACE]), frame)
  {
    hide BeginValue;
  }

  lemma CloseStep(st: State, frame: Frame)
    requires frame.kind.ObjectFrame? ==> frame.expectKey
    ensures var list := frame.kind.ArrayFrame?;
            Step(Push(st, frame), if list then EndArray else EndObject).st
            == FinishValue(Emit(st, [if list then CLOSE_BRACKET else CLOSE_BRACE]))
  {
    hide FinishValue;
    assert (st.stack + [frame])[..|st.stack|] == st.stack;
  }

  /** Members behind the first. */
  lemma RestRuns(st: State, rest: seq<Call>, depth: nat)
    requires st.valid && st.rootWritten && Fits(rest, depth)
    ensures RunFrom(Push(st, BETWEEN), rest) == Push(Emit(st, Fragment(rest)), BETWEEN)
    ensures MaxStack(Push(st, BETWEEN), rest) <= |st.stack| + 1 + depth
  {
    hide RunFrom, MaxStack, Fragment, Fits, Emit, SetTop, Push;
    PushFacts(st, BETWEEN, BETWEEN, Fragment(rest));
    FitsAt(rest, depth, Push(st, BETWEEN));
  }

  /** An object written where a value may stand. */
  lemma ObjectRuns(st: State, key: bytes, call: Call, rest: seq<Call>, depth: nat)
    requires BeginValue(st).ok && (st.stack != [] ==> st.rootWritten) && IsScalar(call) && Fits(rest, depth)
    ensures RunFrom(st, ObjectCalls(key, call, rest))
         == FinishValue(Emit(BeginValue(st).st, ObjectText(key, call, Fragment(rest))))
    ensures MaxStack(st, ObjectCalls(key, call, rest)) <= |st.stack| + 1 + depth
  {
    hide RunFrom, MaxStack, Fragment, ScalarText, EscapedString, Fits;
    hide Step, FinishValue, Emit, SetTop, Push, BeginValue;
    var begun, first := BeginValue(st).st, Separated(false, EscapedString(key) + [COLON]) + ScalarText(call);
    var open, member, more := Emit(begun, [OPEN_BRACE]), [PutKey(key), call], Fragment(rest);
    var fresh_ := Frame(ObjectFrame, false, true);
    BegunFacts(st);
    JsonRoundTrip.RunOne(st, [BeginObject]);
    JsonRoundTrip.RunConcat(st, [BeginObject], member + (rest + [EndObject]));
    OpenStep(st, false);
    EmitFacts(begun, [OPEN_BRACE]);
    PushFacts(open, fresh_, BETWEEN, first);
    MemberRuns(Push(open, fresh_), key, call);
    JsonRoundTrip.RunConcat(Push(open, fresh_), member, rest + [EndObject]);
    EmitFacts(open, first);
    PushFacts(Emit(open, first), fresh_, BETWEEN, more);
    RestRuns(Emit(open, first), rest, depth);
    JsonRoundTrip.RunConcat(Push(Emit(open, first), BETWEEN), rest, [EndObject]);
    EmitFacts(Emit(open, first), more);
    PushFacts(Emit(Emit(open, first), more), BETWEEN, BETWEEN, more);
    JsonRoundTrip.RunOne(Push(Emit(Emit(open, first), more), BETWEEN), [EndObject]);
    CloseStep(Emit(Emit(open, first), more), BETWEEN);
    EmitFour(begun, [OPEN_BRACE], first, more, [CLOSE_BRACE]);
    assert [OPEN_BRACE] + (first + (more + [CLOSE_BRACE])) == ObjectText(key, call, more);
    FinishFacts(Emit(begun, ObjectText(key, call, more)));
    EmitFacts(begun, ObjectText(key, call, more));
  }

  lemma EmitFour(st: State, a: bytes, b: bytes, c: bytes, d: bytes)
    ensures Emit(Emit(Emit(Emit(st, a), b), c), d) == Emit(st, a + (b + (c + d)))
  {
    hide Emit;
    EmitTwice(Emit(Emit(st, a), b), c, d);
    EmitTwice(Emit(st, a), b, c + d);
    EmitTwice(st, a, b + (c + d));
  }

  lemma BegunFacts(st: State)
    requires BeginValue(st).ok && (st.stack != [] ==> st.rootWritten)
    ensures BeginValue(st).st.stack == st.stack && BeginValue(st).st.valid && BeginValue(st).st.rootWritten
  {
  }

  lemma FinishFacts(st: State)
    ensures |FinishValue(st).stack| == |st.stack|
  {
  }

  /** A member whose value is an object. */
  lemma ObjectFits(name: bytes, key: bytes, call: Call, rest: seq<Call>, depth: nat)
    requires IsScalar(call) && Fits(rest, depth)
    ensures Fits([PutKey(name)] + ObjectCalls(key, call, rest), depth + 1)
    ensures Fragment([PutKey(name)] + ObjectCalls(key, call, rest))
         == Label(name) + ObjectText(key, call, Fragment(rest))
  {
    hide Fragment, Fits, Does, ObjectText, ObjectCalls, Label;
    var calls := [PutKey(name)] + ObjectCalls(key, call, rest);
    var text := Label(name) + ObjectText(key, call, Fragment(rest));
    forall st | Ready(st) ensures Does(st, calls, text, depth + 1) {
      FurtherObject(st, name, key, call, rest, depth);
    }
    FitsIs(calls, text, depth + 1);
  }

  lemma FurtherObject(st: State, name: bytes, key: bytes, call: Call, rest: seq<Call>, depth: nat)
    requires Ready(st) && IsScalar(call) && Fits(rest, depth)
    ensures Does(st, [PutKey(name)] + ObjectCalls(key, call, rest),
                 Label(name) + ObjectText(key, call, Fragment(rest)), depth + 1)
  {
    hide RunFrom, MaxStack, Fragment, Fits, ObjectText, ObjectCalls, Step, BeginValue, FinishValue, SetTop, Emit;
    var text := ObjectText(key, call, Fragment(rest));
    var named := Named(st, name);
    JsonRoundTrip.RunOne(st, [PutKey(name)]);
    JsonRoundTrip.RunConcat(st, [PutKey(name)], ObjectCalls(key, call, rest));
    NamedRuns(st, name, text);
    ObjectRuns(named, key, call, rest, depth);
  }

  /** The writer behind the key of a further member. */
  function Named(st: State, name: bytes): (r: State)
    requires Ready(st)
  {
    SetTop(Emit(st, Label(name)), Frame(ObjectFrame, true, false))
  }

  lemma NamedRuns(st: State, name: bytes, text: bytes)
    requires Ready(st)
    ensures var named := Named(st, name);
            && Step(st, PutKey(name)).st == named && BeginValue(named) == Stepped(named, true)
            && |named.stack| == |st.stack| && named.rootWritten && named.valid
            && FinishValue(Emit(named, text)) == Emit(st, Label(name) + text)
  {
    hide EscapedString, SetTop, Step, FinishValue, BeginValue;
    assert Separated(true, EscapedString(name) + [COLON]) == Label(name);
    KeyStep(st, name);
    ValueEnds(st, Label(name), text);
    SetTopFacts(Emit(st, Label(name)), Frame(ObjectFrame, true, false));
    SetTopFacts(Emit(st, Label(name) + text), BETWEEN);
  }

  // ----- diagnostics -----

  lemma OptionalFits(key: bytes, text: bytes, depth: nat)
    ensures Fits(OptionalCalls(key, text), depth)
    ensures Fragment(OptionalCalls(key, text)) == if text == [] then [] else Label(key) + EscapedString(text)
  {
    hide Fits, Fragment;
    NothingFits(depth);
    MemberFits(key, PutString(text), depth);
  }

  lemma PositionFits(at: Location, depth: nat)
    ensures Fits(PositionCalls(at), depth)
    ensures Fragment(PositionCalls(at))
         == if HasPosition(at) then (Label(LINE) + Decimal(at.line)) + (Label(COLUMN) + Decimal(at.column)) else []
  {
    hide Fits, Fragment;
    NothingFits(depth);
    MemberFits(LINE, PutInteger(at.line), depth);
    MemberFits(COLUMN, PutInteger(at.column), depth);
    FitsConcat([PutKey(LINE), PutInteger(at.line)], [PutKey(COLUMN), PutInteger(at.column)], depth);
  }

  lemma RestFits(d: Diagnostic)
    ensures Fits(DiagnosticRest(d), 0)
    ensures Fragment(DiagnosticRest(d))
         == (Label(SEVERITY) + EscapedString(SeverityName(d.severity)))
            + (Fragment(OptionalCalls(MESSAGE, d.message))
            + (Fragment(OptionalCalls(DETAIL, d.detail)) + Fragment(PositionCalls(d.location))))
  {
    hide Fits, Fragment, OptionalCalls, PositionCalls;
    var message, detail, at :=
      OptionalCalls(MESSAGE, d.message), OptionalCalls(DETAIL, d.detail), PositionCalls(d.location);
    MemberFits(SEVERITY, PutString(SeverityName(d.severity)), 0);
    OptionalFits(MESSAGE, d.message, 0);
    OptionalFits(DETAIL, d.detail, 0);
    PositionFits(d.location, 0);
    FitsConcat(detail, at, 0);
    FitsConcat(message, detail + at, 0);
    FitsConcat([PutKey(SEVERITY), PutString(SeverityName(d.severity))], message + (detail + at), 0);
  }

  /** The writer in an array, before its first element or behind one. */
  function InList(st: State, some: bool): (r: State) { Push(st, Frame(ArrayFrame, some, false)) }

  function ElementText(d: Diagnostic): (r: bytes) { ObjectText(ID, PutInteger(d.id), Fragment(DiagnosticRest(d))) }

  function ListText(diagnostics: seq<Diagnostic>, some: bool): (r: bytes) {
    if diagnostics == [] then []
    else Separated(some, ElementText(diagnostics[0])) + ListText(diagnostics[1..], true)
  }

  lemma ElementPlace(st: State, some: bool, text: bytes)
    requires st.valid && st.rootWritten
    ensures var begun := InList(Emit(st, if some then [COMMA] else []), some);
            && BeginValue(InList(st, some)) == Stepped(begun, true)
            && FinishValue(Emit(begun, text)) == InList(Emit(st, Separated(some, text)), true)
  {
    var comma: bytes := if some then [COMMA] else [];
    PushFacts(st, Frame(ArrayFrame, some, false), Frame(ArrayFrame, true, false), comma);
    PushFacts(Emit(st, comma), Frame(ArrayFrame, some, false), Frame(ArrayFrame, true, false), text);
    EmitTwice(st, comma, text);
    hide Push;
    PushFacts(Emit(Emit(st, comma), text), Frame(ArrayFrame, some, false), Frame(ArrayFrame, true, false), text);
  }

  lemma ElementRuns(st: State, some: bool, d: Diagnostic)
    requires st.valid && st.rootWritten
    ensures RunFrom(InList(st, some), DiagnosticCalls(d)) == InList(Emit(st, Separated(some, ElementText(d))), true)
    ensures MaxStack(InList(st, some), DiagnosticCalls(d)) <= |st.stack| + 2
  {
    hide RunFrom, MaxStack, Fragment, ObjectText, ObjectCalls, DiagnosticRest, Fits;
    hide BeginValue, FinishValue, Emit, Push;
    RestFits(d);
    ElementPlace(st, some, ElementText(d));
    PushFacts(st, Frame(ArrayFrame, some, false), BETWEEN, []);
    ObjectRuns(InList(st, some), ID, PutInteger(d.id), DiagnosticRest(d), 0);
  }

  lemma {:induction false} ListRuns(st: State, some: bool, diagnostics: seq<Diagnostic>)
    requires st.valid && st.rootWritten
    ensures RunFrom(InList(st, some), ListCalls(diagnostics))
         == InList(Emit(st, ListText(diagnostics, some)), some || diagnostics != [])
    ensures MaxStack(InList(st, some), ListCalls(diagnostics)) <= |st.stack| + 2
    decreases |diagnostics|
  {
    hide DiagnosticCalls, ElementText, Emit, Push, RunFrom, MaxStack;
    PushFacts(st, Frame(ArrayFrame, some, false), BETWEEN, []);
    if diagnostics == [] {
      JsonRoundTrip.NoCalls(InList(st, some), []);
      EmitTwice(st, [], []);
    } else {
      var d, rest := diagnostics[0], diagnostics[1..];
      var text := Separated(some, ElementText(d));
      ElementRuns(st, some, d);
      JsonRoundTrip.RunConcat(InList(st, some), DiagnosticCalls(d), ListCalls(rest));
      EmitFacts(st, text);
      ListRuns(Emit(st, text), true, rest);
      EmitTwice(st, text, ListText(rest, true));
    }
  }

  lemma DiagnosticsFits(diagnostics: seq<Diagnostic>)
    ensures Fits(DiagnosticsCalls(diagnostics), 2)
    ensures Fragment(DiagnosticsCalls(diagnostics))
         == if diagnostics == [] then []
            else Label(DIAGNOSTICS) + ([OPEN_BRACKET] + (ListText(diagnostics, false) + [CLOSE_BRACKET]))
  {
    hide Fits, Does, Fragment, ListCalls, ListText, Label;
    if diagnostics == [] {
      NothingFits(2);
    } else {
      var calls := DiagnosticsCalls(diagnostics);
      var text := Label(DIAGNOSTICS) + ([OPEN_BRACKET] + (ListText(diagnostics, false) + [CLOSE_BRACKET]));
      forall st | Ready(st) ensures Does(st, calls, text, 2) {
        ArrayRuns(st, diagnostics);
      }
      FitsIs(calls, text, 2);
    }
  }

  lemma ArrayRuns(st: State, diagnostics: seq<Diagnostic>)
    requires Ready(st) && diagnostics != []
    ensures var text := Label(DIAGNOSTICS) + ([OPEN_BRACKET] + (ListText(diagnostics, false) + [CLOSE_BRACKET]));
            Does(st, DiagnosticsCalls(diagnostics), text, 2)
  {
    hide RunFrom, MaxStack, ListCalls, ListText, Label, Step, Emit, Push, SetTop, BeginValue, FinishValue;
    var named, list := Named(st, DIAGNOSTICS), ListText(diagnostics, false);
    var open := Emit(named, [OPEN_BRACKET]);
    var head, calls := [PutKey(DIAGNOSTICS), BeginArray], ListCalls(diagnostics);
    TwoCalls(st, PutKey(DIAGNOSTICS), BeginArray);
    NamedRuns(st, DIAGNOSTICS, [OPEN_BRACKET] + (list + [CLOSE_BRACKET]));
    OpenStep(named, true);
    EmitFacts(named, [OPEN_BRACKET]);
    PushFacts(open, Frame(ArrayFrame, false, false), BETWEEN, list);
    JsonRoundTrip.RunConcat(st, head, calls + [EndArray]);
    ListRuns(open, false, diagnostics);
    JsonRoundTrip.RunConcat(InList(open, false), calls, [EndArray]);
    EmitFacts(open, list);
    PushFacts(Emit(open, list), Frame(ArrayFrame, true, false), BETWEEN, list);
    JsonRoundTrip.RunOne(InList(Emit(open, list), true), [EndArray]);
    CloseStep(Emit(open, list), Frame(ArrayFrame, true, false));
    EmitTwice(open, list, [CLOSE_BRACKET]);
    EmitTwice(named, [OPEN_BRACKET], list + [CLOSE_BRACKET]);
    FinishFacts(Emit(named, [OPEN_BRACKET] + (list + [CLOSE_BRACKET])));
    EmitFacts(named, [OPEN_BRACKET] + (list + [CLOSE_BRACKET]));
  }

  // ----- messages -----

  lemma PayloadFits(payload: Payload)
    ensures Fits(PayloadCalls(payload), 1)
    ensures Fragment(PayloadCalls(payload))
         == match payload
            case NoPayload => []
            case StateOf(project) => Label(PAYLOAD) + ObjectText(STATE, PutString(StateName(project)), [])
            case ValueOf(v) =>
              var rest := (Label(SIZE) + Decimal(v.size)) + (Label(BITS) + Decimal(v.bits));
              Label(PAYLOAD) + ObjectText(TYPE, PutInteger(v.kind), rest)
  {
    hide Fits, Fragment, ObjectCalls, ObjectText, Label, Decimal;
    match payload
    case NoPayload => NothingFits(1);
    case StateOf(project) =>
      NothingFits(0);
      ObjectFits(PAYLOAD, STATE, PutString(StateName(project)), [], 0);
    case ValueOf(v) =>
      var size, bits := [PutKey(SIZE), PutInteger(v.size)], [PutKey(BITS), PutInteger(v.bits)];
      MemberFits(SIZE, PutInteger(v.size), 0);
      MemberFits(BITS, PutInteger(v.bits), 0);
      FitsConcat(size, bits, 0);
      ObjectFits(PAYLOAD, TYPE, PutInteger(v.kind), size + bits, 0);
  }

  lemma ThreeFit(a: seq<Call>, b: seq<Call>, c: seq<Call>, depth: nat)
    requires Fits(a, depth) && Fits(b, depth) && Fits(c, depth)
    ensures Fits(a + (b + c), depth) && Fragment(a + (b + c)) == Fragment(a) + (Fragment(b) + Fragment(c))
  {
    hide Fits, Fragment;
    FitsConcat(b, c, depth);
    FitsConcat(a, b + c, depth);
  }

  lemma ResponseFits(m: Message)
    requires m.Response?
    ensures Fits(BodyCalls(m), 2)
    ensures Fragment(BodyCalls(m))
         == (Label(REQUEST_ID) + Decimal(m.request))
            + ((Label(STATUS) + (if m.ok then TRUE else FALSE))
            + (Fragment(PayloadCalls(m.payload)) + Fragment(DiagnosticsCalls(m.diagnostics))))
  {
    hide Fits, Fragment, PayloadCalls, DiagnosticsCalls, Label, Decimal;
    MemberFits(REQUEST_ID, PutInteger(m.request), 2);
    MemberFits(STATUS, PutBoolean(m.ok), 2);
    PayloadFits(m.payload);
    FitsDeeper(PayloadCalls(m.payload), 1, 2);
    DiagnosticsFits(m.diagnostics);
    FitsConcat(PayloadCalls(m.payload), DiagnosticsCalls(m.diagnostics), 2);
    ThreeFit([PutKey(REQUEST_ID), PutInteger(m.request)], [PutKey(STATUS), PutBoolean(m.ok)],
        PayloadCalls(m.payload) + DiagnosticsCalls(m.diagnostics), 2);
  }

  lemma ActionFits(m: Message)
    requires !m.Response?
    ensures Fits(BodyCalls(m), 2)
    ensures Fragment(BodyCalls(m))
         == match m
            case ServerState(old_, new_) =>
              (Label(ACTION) + EscapedString(SERVER_STATE))
              + ((Label(OLD) + EscapedString(StateName(old_))) + (Label(NEW) + EscapedString(StateName(new_))))
            case ClientAction(from, arg, parameters) =>
              (Label(ACTION) + EscapedString(CLIENT))
              + ((Label(FROM) + EscapedString(from))
              + ((Label(ARG) + EscapedString(arg))
              + (Label(PARAMETERS) + EscapedString(BaseN.Encoded(BaseN.Standard, parameters)))))
  {
    hide Fits, Fragment, Label, EscapedString, BaseN.Encoded;
    match m
    case ServerState(old_, new_) =>
      MemberFits(ACTION, PutString(SERVER_STATE), 2);
      MemberFits(OLD, PutString(StateName(old_)), 2);
      MemberFits(NEW, PutString(StateName(new_)), 2);
      ThreeFit([PutKey(ACTION), PutString(SERVER_STATE)], [PutKey(OLD), PutString(StateName(old_))],
          [PutKey(NEW), PutString(StateName(new_))], 2);
    case ClientAction(from, arg, parameters) =>
      var encoded := BaseN.Encoded(BaseN.Standard, parameters);
      MemberFits(ACTION, PutString(CLIENT), 2);
      MemberFits(FROM, PutString(from), 2);
      MemberFits(ARG, PutString(arg), 2);
      MemberFits(PARAMETERS, PutString(encoded), 2);
      FitsConcat([PutKey(ARG), PutString(arg)], [PutKey(PARAMETERS), PutString(encoded)], 2);
      ThreeFit([PutKey(ACTION), PutString(CLIENT)], [PutKey(FROM), PutString(from)],
          [PutKey(ARG), PutString(arg)] + [PutKey(PARAMETERS), PutString(encoded)], 2);
  }

  /** The calls of a message complete the writer. */
  lemma WholeRuns(w: Write)
    ensures Spelling(w) == ObjectText(SEQUENCE, PutInteger(Counted(w.sequence)), Fragment(BodyCalls(w.message)))
    ensures Complete(RunFrom(CLEARED, CallsOf(w))) && MaxStack(CLEARED, CallsOf(w)) <= 3
  {
    hide Fits, Fragment, BodyCalls, ObjectCalls, ObjectText, RunFrom, MaxStack;
    if w.message.Response? {
      ResponseFits(w.message);
    } else {
      ActionFits(w.message);
    }
    ObjectRuns(CLEARED, SEQUENCE, PutInteger(Counted(w.sequence)), BodyCalls(w.message), 2);
  }
}
