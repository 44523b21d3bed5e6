/** The encoder: what it appends, piece by piece, is what the writer writes for the message. */
module OutboundEncoder {
  import opened Bytes
  import opened Outbound
  import opened JsonGrammar
  import opened JsonWriting
  import opened OutboundFields
  import opened OutboundWriting
  import BaseN
  import Framing

  lemma {:induction false} PlainEscapes(s: bytes)
    requires AllPlain(s)
    ensures EscapeBytes(s) == s
    decreases |s|
  {
    if s != [] {
      assert PlainByte(s[0]);
      assert forall i | 0 <= i < |s| - 1 :: PlainByte(s[1..][i]) by {
        assert forall i | 0 <= i < |s| - 1 :: s[1..][i] == s[i + 1];
      }
      PlainEscapes(s[1..]);
    }
  }

  /** A name in quotes, as the program has it in its literals. */
  function Quoted(name: Word): (r: bytes) { [QUOTE] + (name + [QUOTE]) }

  lemma QuotedIsEscaped(name: Word)
    ensures Quoted(name) == EscapedString(name)
  {
    PlainEscapes(name);
  }

  /** The literal in front of a further member. */
  function Literal(name: Word): (r: bytes)
    ensures r == Label(name)
  {
    QuotedIsEscaped(name);
    [COMMA] + (Quoted(name) + [COLON])
  }

  method AppendEscaped(value: bytes, output: bytes) returns (result: bytes)
    ensures result == output + EscapedString(value)
  {
    hide EscapeByte;
    result := output + [QUOTE];
    ghost var done: bytes := [];
    assert value[0..] == value;
    for i := 0 to |value|
      invariant result == output + ([QUOTE] + done)
      invariant done + EscapeBytes(value[i..]) == EscapeBytes(value)
    {
      EscapeNext(done, value, i);
      done := done + EscapeByte(value[i]);
      result := AppendEscape(value[i], result);
    }
    assert done == EscapeBytes(value);
    result := result + [QUOTE];
  }

  method AppendEscape(b: byte, output: bytes) returns (result: bytes)
    ensures result == output + EscapeByte(b)
  {
    if b == 0x22 {
      result := output + [BACKSLASH, QUOTE];
    } else if b == 0x5C {
      result := output + [BACKSLASH, BACKSLASH];
    } else if b == 0x08 {
      result := output + [BACKSLASH, 0x62];
    } else if b == 0x0C {
      result := output + [BACKSLASH, 0x66];
    } else if b == 0x0A {
      result := output + [BACKSLASH, 0x6E];
    } else if b == 0x0D {
      result := output + [BACKSLASH, 0x72];
    } else if b == 0x09 {
      result := output + [BACKSLASH, 0x74];
    } else if b < 0x20 {
      result := output + [BACKSLASH, LETTER_U, ZERO, ZERO];
      result := result + [HexUpper(b / 16)];
      result := result + [HexUpper(b % 16)];
    } else {
      result := output + [b];
    }
  }

  /** The conversion goes through a buffer of 32 characters, and is left out when that is too short. */
  method AppendInteger(value: Integral, output: bytes) returns (result: bytes)
    ensures result == output + Decimal(value)
  {
    hide Decimal;
    var converted := Decimal(value);
    DecimalFits(value);
    result := output;
    if |converted| <= 32 {
      result := result + converted;
    }
  }

  // ----- texts put together -----

  lemma Chain4(o: bytes, a: bytes, b: bytes, c: bytes, d: bytes)
    ensures o + a + b + c + d == o + (a + (b + (c + d)))
  {
  }

  lemma Chain6(o: bytes, a: bytes, b: bytes, c: bytes, d: bytes, e: bytes, f: bytes)
    ensures o + a + b + c + d + e + f == o + (a + (b + (c + (d + (e + f)))))
  {
    Chain4(o + a + b, c, d, e, f);
    Chain4(o, a, b, c + (d + (e + f)), []);
  }

  lemma ChainRest(o: bytes, a: bytes, b: bytes, c: bytes, d: bytes, e: bytes)
    ensures o + a + b + c + d + e == o + ((a + b) + (c + (d + e)))
  {
    Chain4(o + (a + b), c, d, e, []);
    Chain4(o, a, b, [], []);
    Chain4(o, a + b, c + (d + e), [], []);
  }

  lemma ChainPairs(o: bytes, a: bytes, b: bytes, c: bytes, d: bytes, e: bytes, f: bytes)
    ensures o + a + b + c + d + e + f == o + ((a + b) + ((c + d) + (e + f)))
  {
    Chain4(o + (a + b), c, d, e, f);
    Chain4(o, a + b, c + d, e + f, []);
  }

  method AppendOptional(name: Word, text: bytes, output: bytes) returns (result: bytes)
    ensures result == output + Fragment(OptionalCalls(name, text))
  {
    hide Fragment;
    OptionalFits(name, text, 0);
    result := output;
    if |text| != 0 {
      result := result + Literal(name);
      result := AppendEscaped(text, result);
    }
  }

  method AppendPosition(at: Location, output: bytes) returns (result: bytes)
    ensures result == output + Fragment(PositionCalls(at))
  {
    hide Ascii, Literal, Fragment, Decimal, Label;
    PositionFits(at, 0);
    result := output;
    if HasPosition(at) {
      result := result + Literal(LINE);
      result := AppendInteger(at.line, result);
      result := result + Literal(COLUMN);
      result := AppendInteger(at.column, result);
      Chain4(output, Label(LINE), Decimal(at.line), Label(COLUMN), Decimal(at.column));
    }
  }

  method AppendDiagnostic(d: Diagnostic, output: bytes) returns (result: bytes)
    ensures result == output + ElementText(d)
  {
    hide Ascii, Quoted, Literal, StateName, SeverityName, Fragment, EscapedString, Decimal, Label;
    hide OptionalCalls, PositionCalls;
    QuotedIsEscaped(ID);
    RestFits(d);
    result := output + [OPEN_BRACE] + Quoted(ID) + [COLON];
    result := AppendInteger(d.id, result);
    ghost var begun := result;
    result := result + Literal(SEVERITY);
    result := AppendEscaped(SeverityName(d.severity), result);
    result := AppendOptional(MESSAGE, d.message, result);
    result := AppendOptional(DETAIL, d.detail, result);
    result := AppendPosition(d.location, result);
    assert result == begun + Fragment(DiagnosticRest(d)) by {
      var message, detail, at := Fragment(OptionalCalls(MESSAGE, d.message)),
        Fragment(OptionalCalls(DETAIL, d.detail)), Fragment(PositionCalls(d.location));
      ChainRest(begun, Label(SEVERITY), EscapedString(SeverityName(d.severity)), message, detail, at);
    }
    result := result + [CLOSE_BRACE];
    Chain6(output, [OPEN_BRACE], EscapedString(ID), [COLON], Decimal(d.id), Fragment(DiagnosticRest(d)), [CLOSE_BRACE]);
  }

  lemma {:induction false} ListGrows(diagnostics: seq<Diagnostic>, i: nat, some: bool)
    requires i < |diagnostics|
    ensures ListText(diagnostics[..i + 1], some)
         == ListText(diagnostics[..i], some) + Separated(some || i > 0, ElementText(diagnostics[i]))
    decreases i
  {
    hide ElementText;
    var more := diagnostics[..i + 1];
    if i == 0 {
      assert more[1..] == [];
    } else {
      assert more[1..] == diagnostics[1..][..i] && diagnostics[..i][1..] == diagnostics[1..][..i - 1];
      ListGrows(diagnostics[1..], i - 1, true);
    }
  }

  /** The loop over the records. */
  method AppendRecords(diagnostics: seq<Diagnostic>, output: bytes) returns (result: bytes)
    ensures result == output + ListText(diagnostics, false)
  {
    hide ElementText, ListText;
    result := output;
    var first := true;
    NoList(diagnostics, output);
    for i := 0 to |diagnostics|
      invariant first <==> i == 0
      invariant result == output + ListText(diagnostics[..i], false)
    {
      ListGrowsBehind(output, diagnostics, i);
      if !first {
        result := result + [COMMA];
      }
      first := false;
      result := AppendDiagnostic(diagnostics[i], result);
    }
    assert diagnostics[..|diagnostics|] == diagnostics;
  }

  method AppendDiagnostics(diagnostics: seq<Diagnostic>, output: bytes) returns (result: bytes)
    ensures result == output + Fragment(DiagnosticsCalls(diagnostics))
  {
    hide Ascii, Quoted, Literal, Fragment, ListText, Label, DiagnosticsCalls;
    DiagnosticsFits(diagnostics);
    result := output;
    if |diagnostics| == 0 {
      return;
    }
    result := result + Literal(DIAGNOSTICS) + [OPEN_BRACKET];
    result := AppendRecords(diagnostics, result);
    result := result + [CLOSE_BRACKET];
    Chain4(output, Label(DIAGNOSTICS), [OPEN_BRACKET], ListText(diagnostics, false), [CLOSE_BRACKET]);
  }

  lemma ListGrowsBehind(before: bytes, diagnostics: seq<Diagnostic>, i: nat)
    requires i < |diagnostics|
    ensures var old_ := before + ListText(diagnostics[..i], false);
            before + ListText(diagnostics[..i + 1], false)
            == (if i > 0 then old_ + [COMMA] else old_) + ElementText(diagnostics[i])
  {
    hide ListText, ElementText;
    ListGrows(diagnostics, i, false);
  }

  lemma NoList(diagnostics: seq<Diagnostic>, before: bytes)
    ensures before + ListText(diagnostics[..0], false) == before
  {
  }

  /** The common beginning of all messages. */
  method AppendSequence(sequence: nat, output: bytes) returns (result: bytes)
    ensures result == output + Opening(sequence)
  {
    hide Ascii, Quoted, EscapedString, Decimal;
    QuotedIsEscaped(SEQUENCE);
    result := output + [OPEN_BRACE] + Quoted(SEQUENCE) + [COLON];
    result := AppendInteger(Counted(sequence), result);
  }

  /** What all messages begin with. */
  function Opening(sequence: nat): (r: bytes) {
    [OPEN_BRACE] + (EscapedString(SEQUENCE) + ([COLON] + Decimal(Counted(sequence))))
  }

  lemma WholeText(w: Write, output: bytes, begun: bytes, members: bytes)
    requires begun == output + Opening(w.sequence) && members == begun + Fragment(BodyCalls(w.message))
    ensures members + [CLOSE_BRACE] == output + Spelling(w)
  {
    hide Fragment, EscapedString, Decimal, Spelling, BodyCalls;
    WholeRuns(w);
    var open, more := Opening(w.sequence), Fragment(BodyCalls(w.message));
    assert Spelling(w) == open + (more + [CLOSE_BRACE]);
    Chain4(output, open, more, [CLOSE_BRACE], []);
  }

  /** A member whose value is an object, put together. */
  lemma ChainObject(o: bytes, name: bytes, key: bytes, first: Call, more: bytes)
    requires IsScalar(first)
    ensures o + Label(name) + [OPEN_BRACE] + EscapedString(key) + [COLON] + ScalarText(first) + more + [CLOSE_BRACE]
         == o + (Label(name) + ObjectText(key, first, more))
  {
    hide Label, EscapedString, ScalarText;
    var text, begun := ScalarText(first), o + Label(name) + [OPEN_BRACE] + EscapedString(key) + [COLON];
    Chain4(begun, text, more, [CLOSE_BRACE], []);
    Chain6(o, Label(name), [OPEN_BRACE], EscapedString(key), [COLON], text, more + [CLOSE_BRACE]);
  }

  function SizeAndBits(value: RuntimeValue): (r: bytes) {
    (Label(SIZE) + Decimal(value.size)) + (Label(BITS) + Decimal(value.bits))
  }

  method AppendSizeAndBits(value: RuntimeValue, output: bytes) returns (result: bytes)
    ensures result == output + SizeAndBits(value)
  {
    hide Ascii, Literal, Decimal, Label;
    result := output + Literal(SIZE);
    result := AppendInteger(value.size, result);
    result := result + Literal(BITS);
    result := AppendInteger(value.bits, result);
    ChainRest(output, Label(SIZE), Decimal(value.size), Label(BITS), Decimal(value.bits), []);
    assert Label(BITS) + (Decimal(value.bits) + []) == Label(BITS) + Decimal(value.bits) && result + [] == result;
  }

  method AppendPayload(payload: Payload, output: bytes) returns (result: bytes)
    ensures result == output + Fragment(PayloadCalls(payload))
  {
    hide Ascii, Quoted, Literal, StateName, Fragment, EscapedString, Decimal, Label, PayloadCalls, ObjectText;
    PayloadFits(payload);
    result := output;
    match payload {
      case NoPayload =>
      case StateOf(project) =>
        QuotedIsEscaped(STATE);
        result := result + Literal(PAYLOAD) + [OPEN_BRACE] + Quoted(STATE) + [COLON];
        result := AppendEscaped(StateName(project), result);
        ChainObject(output, PAYLOAD, STATE, PutString(StateName(project)), []);
        assert result + [] == result;
        result := result + [CLOSE_BRACE];
      case ValueOf(value) =>
        QuotedIsEscaped(TYPE);
        result := result + Literal(PAYLOAD) + [OPEN_BRACE] + Quoted(TYPE) + [COLON];
        result := AppendInteger(value.kind, result);
        result := AppendSizeAndBits(value, result);
        ChainObject(output, PAYLOAD, TYPE, PutInteger(value.kind), SizeAndBits(value));
        result := result + [CLOSE_BRACE];
    }
  }

  method AppendResponse(sequence: nat, response: Message, output: bytes) returns (result: bytes)
    requires response.Response?
    ensures result == output + Spelling(Write(sequence, response))
  {
    hide Ascii, Quoted, Literal, StateName, SeverityName, Fragment, EscapedString, Decimal, Label;
    hide Spelling, BodyCalls, Opening, PayloadCalls, DiagnosticsCalls;
    ResponseFits(response);
    result := AppendSequence(sequence, output);
    ghost var begun := result;
    result := result + Literal(REQUEST_ID);
    result := AppendInteger(response.request, result);
    result := result + Literal(STATUS);
    result := result + (if response.ok then TRUE else FALSE);
    result := AppendPayload(response.payload, result);
    result := AppendDiagnostics(response.diagnostics, result);
    ChainAction(begun, Label(REQUEST_ID), Decimal(response.request), Label(STATUS), if response.ok then TRUE else FALSE,
        Fragment(PayloadCalls(response.payload)), Fragment(DiagnosticsCalls(response.diagnostics)), []);
    assert result + [] == result;
    WholeText(Write(sequence, response), output, begun, result);
    result := result + [CLOSE_BRACE];
  }

  method AppendServerState(sequence: nat, action: Message, output: bytes) returns (result: bytes)
    requires action.ServerState?
    ensures result == output + Spelling(Write(sequence, action))
  {
    hide Ascii, Quoted, Literal, StateName, SeverityName, Fragment, EscapedString, Decimal, Label;
    hide Spelling, BodyCalls, Opening;
    ActionFits(action);
    QuotedIsEscaped(SERVER_STATE);
    result := AppendSequence(sequence, output);
    ghost var begun := result;
    result := result + Literal(ACTION) + Quoted(SERVER_STATE) + Literal(OLD);
    result := AppendEscaped(StateName(action.old_), result);
    result := result + Literal(NEW);
    result := AppendEscaped(StateName(action.new_), result);
    ChainPairs(begun, Label(ACTION), EscapedString(SERVER_STATE), Label(OLD), EscapedString(StateName(action.old_)),
        Label(NEW), EscapedString(StateName(action.new_)));
    WholeText(Write(sequence, action), output, begun, result);
    result := result + [CLOSE_BRACE];
  }

  lemma ChainAction(o: bytes, a: bytes, b: bytes, c: bytes, d: bytes, e: bytes, f: bytes, p: bytes)
    ensures o + a + b + c + d + e + f + p == o + ((a + b) + ((c + d) + ((e + f) + p)))
  {
    ChainPairs(o, a, b, c, d, e, f);
    var x, y, z := a + b, c + d, e + f;
    assert (o + (x + (y + z))) + p == o + (x + (y + (z + p)));
  }

  method AppendParameters(parameters: bytes, output: bytes) returns (result: bytes)
    ensures result == output + (Label(PARAMETERS) + EscapedString(BaseN.Encoded(BaseN.Standard, parameters)))
  {
    hide Ascii, Quoted, Literal, EscapedString, Label, BaseN.Encoded;
    ghost var encoded := BaseN.Encoded(BaseN.Standard, parameters);
    EncodedIsPlain(parameters);
    QuotedIsEscaped(encoded);
    result := output + Literal(PARAMETERS) + [QUOTE];
    result := BaseN.AppendBase64(parameters, result);
    result := result + [QUOTE];
    InQuotes(output + Label(PARAMETERS), encoded);
  }

  lemma InQuotes(o: bytes, name: Word)
    ensures o + [QUOTE] + name + [QUOTE] == o + Quoted(name)
  {
  }

  method AppendClientAction(sequence: nat, action: Message, output: bytes) returns (result: bytes)
    requires action.ClientAction?
    ensures result == output + Spelling(Write(sequence, action))
  {
    hide Ascii, Quoted, Literal, StateName, SeverityName, Fragment, EscapedString, Decimal, Label;
    hide Spelling, BodyCalls, Opening, BaseN.Encoded;
    ActionFits(action);
    QuotedIsEscaped(CLIENT);
    result := AppendSequence(sequence, output);
    ghost var begun := result;
    result := result + Literal(ACTION) + Quoted(CLIENT) + Literal(FROM);
    result := AppendEscaped(action.from, result);
    result := result + Literal(ARG);
    result := AppendEscaped(action.arg, result);
    result := AppendParameters(action.parameters, result);
    ChainAction(begun, Label(ACTION), EscapedString(CLIENT), Label(FROM), EscapedString(action.from), Label(ARG),
        EscapedString(action.arg),
        Label(PARAMETERS) + EscapedString(BaseN.Encoded(BaseN.Standard, action.parameters)));
    WholeText(Write(sequence, action), output, begun, result);
    result := result + [CLOSE_BRACE];
  }

  lemma {:induction false} EncodedIsPlain(data: bytes)
    ensures AllPlain(BaseN.Encoded(BaseN.Standard, data))
    decreases |data|
  {
    if |data| >= 3 {
      EncodedIsPlain(data[3..]);
    }
  }

  /** The text is handed on unless it is too long for a frame. */
  method EncodeJsonOutbound(w: Write) returns (ok: bool, output: bytes)
    ensures output == Spelling(w) && (ok <==> |Spelling(w)| <= Framing.MAX_FRAME)
  {
    hide Spelling;
    output := [];
    match w.message {
      case Response(_, _, _, _, _) => output := AppendResponse(w.sequence, w.message, output);
      case ServerState(_, _) => output := AppendServerState(w.sequence, w.message, output);
      case ClientAction(_, _, _) => output := AppendClientAction(w.sequence, w.message, output);
    }
    ok := |output| <= Framing.MAX_FRAME;
  }
}
