/**
 * The calls of server_engine/json/json_writer.hpp and what each does to the writer: a pure step
 * function over the writer's fields. JsonWriter is proved to take these steps.
 */
module JsonWriting {
  import opened Bytes
  import opened JsonGrammar

  /** Any integer type the writer is instantiated with: up to 64 bits, signed or not. */
  type Integral = n: int | -0x8000_0000_0000_0000 <= n < 0x1_0000_0000_0000_0000

  datatype Kind = ObjectFrame | ArrayFrame

  datatype Frame = Frame(kind: Kind, hasContent: bool, expectKey: bool)

  datatype State = State(output: bytes, stack: seq<Frame>, rootWritten: bool, valid: bool)

  const CLEARED := State([], [], false, true)

  datatype Call =
    | BeginObject
    | EndObject
    | BeginArray
    | EndArray
    | PutKey(text: bytes)
    | PutNull
    | PutBoolean(b: bool)
    | PutInteger(n: Integral)
    | PutString(text: bytes)

  datatype Stepped = Stepped(st: State, ok: bool)

  predicate Complete(st: State) { st.valid && st.rootWritten && st.stack == [] }

  // ----- texts -----

  function HexUpper(d: nat): (r: byte)
    requires d < 16
  {
    if d < 10 then 0x30 + d else 0x41 + (d - 10)
  }

  function EscapeByte(b: byte): (r: bytes) {
    if b == QUOTE then [BACKSLASH, QUOTE]
    else if b == BACKSLASH then [BACKSLASH, BACKSLASH]
    else if b == 0x08 then [BACKSLASH, 0x62]
    else if b == 0x0C then [BACKSLASH, 0x66]
    else if b == 0x0A then [BACKSLASH, 0x6E]
    else if b == 0x0D then [BACKSLASH, 0x72]
    else if b == 0x09 then [BACKSLASH, 0x74]
    else if b < 0x20 then [BACKSLASH, LETTER_U, ZERO, ZERO, HexUpper(b / 16), HexUpper(b % 16)]
    else [b]
  }

  function EscapeBytes(text: bytes): (r: bytes) {
    if text == [] then [] else EscapeByte(text[0]) + EscapeBytes(text[1..])
  }

  lemma EscapeNext(done: bytes, text: bytes, i: nat)
    requires i < |text|
    ensures done + EscapeBytes(text[i..]) == (done + EscapeByte(text[i])) + EscapeBytes(text[i + 1..])
  {
    hide EscapeByte;
    assert text[i..][1..] == text[i + 1..];
  }

  function EscapedString(text: bytes): (r: bytes) { [QUOTE] + (EscapeBytes(text) + [QUOTE]) }

  function DecimalDigits(n: nat): (s: bytes)
    ensures s != []
  {
    if n < 10 then [0x30 + n] else DecimalDigits(n / 10) + [0x30 + n % 10]
  }

  function Decimal(n: int): (r: bytes) {
    if n < 0 then [MINUS] + DecimalDigits(-n) else DecimalDigits(n)
  }

  // ----- steps -----

  function Invalidate(st: State): (r: Stepped) { Stepped(st.(valid := false), false) }

  function Top(st: State): (r: Frame)
    requires st.stack != []
  {
    st.stack[|st.stack| - 1]
  }

  function SetTop(st: State, frame: Frame): (r: State)
    requires st.stack != []
  {
    st.(stack := st.stack[..|st.stack| - 1] + [frame])
  }

  function Emit(st: State, text: bytes): (r: State) { st.(output := st.output + text) }

  function BeginValue(st: State): (r: Stepped) {
    if !st.valid then Stepped(st, false)
    else if st.stack == [] then
      if st.rootWritten then Invalidate(st) else Stepped(st.(rootWritten := true), true)
    else if Top(st).kind.ObjectFrame? then
      if Top(st).expectKey then Invalidate(st) else Stepped(st, true)
    else Stepped(if Top(st).hasContent then Emit(st, [COMMA]) else st, true)
  }

  function FinishValue(st: State): (r: State) {
    if st.stack == [] then st
    else SetTop(st, Frame(Top(st).kind, true, Top(st).kind.ObjectFrame? || Top(st).expectKey))
  }

  function Primitive(st: State, text: bytes): (r: Stepped) {
    var b := BeginValue(st);
    if !b.ok then b else Stepped(FinishValue(Emit(b.st, text)), true)
  }

  function Open(st: State, bracket: byte, frame: Frame): (r: Stepped) {
    var b := BeginValue(st);
    if !b.ok then b else Stepped(Emit(b.st, [bracket]).(stack := b.st.stack + [frame]), true)
  }

  function Close(st: State, bracket: byte): (r: State)
    requires st.stack != []
  {
    FinishValue(Emit(st, [bracket]).(stack := st.stack[..|st.stack| - 1]))
  }

  function Step(st: State, call: Call): (r: Stepped) {
    match call
    case BeginObject => Open(st, OPEN_BRACE, Frame(ObjectFrame, false, true))
    case EndObject =>
      if st.stack == [] || !Top(st).kind.ObjectFrame? || !Top(st).expectKey then Invalidate(st)
      else Stepped(Close(st, CLOSE_BRACE), true)
    case BeginArray => Open(st, OPEN_BRACKET, Frame(ArrayFrame, false, false))
    case EndArray =>
      if st.stack == [] || !Top(st).kind.ArrayFrame? then Invalidate(st) else Stepped(Close(st, CLOSE_BRACKET), true)
    case PutKey(text) =>
      if st.stack == [] || !Top(st).kind.ObjectFrame? || !Top(st).expectKey then Invalidate(st)
      else
        var comma: bytes := if Top(st).hasContent then [COMMA] else [];
        Stepped(SetTop(Emit(st, comma + EscapedString(text) + [COLON]), Top(st).(expectKey := false)), true)
    case PutNull => Primitive(st, NULL)
    case PutBoolean(b) => Primitive(st, if b then TRUE else FALSE)
    case PutInteger(n) => Primitive(st, Decimal(n))
    case PutString(text) => Primitive(st, EscapedString(text))
  }

  function RunFrom(st: State, calls: seq<Call>): (r: State)
    decreases |calls|
  {
    if calls == [] then st else RunFrom(Step(st, calls[0]).st, calls[1..])
  }

  /** The deepest nesting reached along a run. */
  function MaxStack(st: State, calls: seq<Call>): (r: nat)
    decreases |calls|
  {
    if calls == [] then |st.stack| else Max(|st.stack|, MaxStack(Step(st, calls[0]).st, calls[1..]))
  }

  // ----- the integer conversion never runs out of its 32-character buffer -----

  function Pow10(k: nat): (r: nat) { if k == 0 then 1 else 10 * Pow10(k - 1) }

  lemma {:induction false} DigitsBound(n: nat, k: nat)
    requires 1 <= k && n < Pow10(k)
    ensures |DecimalDigits(n)| <= k
    decreases k
  {
    if n >= 10 {
      DigitsBound(n / 10, k - 1);
    }
  }

  lemma DecimalFits(n: Integral)
    ensures |Decimal(n)| <= 21
  {
    assert Pow10(10) == 10_000_000_000;
    assert Pow10(15) == 1_000_000_000_000_000;
    assert Pow10(20) == 100_000_000_000_000_000_000;
    DigitsBound(if n < 0 then -n else n, 20);
  }
}

/** The writer object. */
module JsonWriter {
  import opened Bytes
  import opened JsonGrammar
  import opened JsonWriting

  class Writer {
    var output: bytes
    var stack: seq<Frame>
    var rootWritten: bool
    var validState: bool

    function Current(): (r: State)
      reads this
    {
      State(output, stack, rootWritten, validState)
    }

    /** The call took its step and answered as the step does. */
    twostate predicate Took(call: Call, ok: bool)
      reads this
    {
      Stepped(Current(), ok) == Step(old(Current()), call)
    }

    constructor ()
      ensures Current() == CLEARED
    {
      output, stack, rootWritten, validState := [], [], false, true;
    }

    method Clear()
      modifies this
      ensures Current() == CLEARED
    {
      output, stack, rootWritten, validState := [], [], false, true;
    }

    method IsComplete() returns (complete: bool)
      ensures complete == Complete(Current())
    {
      return validState && rootWritten && |stack| == 0;
    }

    method Invalidate() returns (ok: bool)
      modifies this`validState
      ensures !ok && !validState
    {
      validState := false;
      return false;
    }

    method BeginValue() returns (ok: bool)
      modifies this
      ensures Stepped(Current(), ok) == JsonWriting.BeginValue(old(Current()))
    {
      if !validState {
        return false;
      }
      if |stack| == 0 {
        if rootWritten {
          ok := Invalidate();
          return;
        }
        rootWritten := true;
        return true;
      }
      var frame := stack[|stack| - 1];
      if frame.kind == ObjectFrame {
        if frame.expectKey {
          ok := Invalidate();
          return;
        }
        return true;
      }
      if frame.hasContent {
        output := output + [COMMA];
      }
      return true;
    }

    method FinishValue()
      modifies this`stack
      ensures Current() == JsonWriting.FinishValue(old(Current()))
    {
      if |stack| == 0 {
        return;
      }
      var last := |stack| - 1;
      var frame := stack[last].(hasContent := true);
      if frame.kind == ObjectFrame {
        frame := frame.(expectKey := true);
      }
      stack := stack[..last] + [frame];
    }

    method BeginObject() returns (ok: bool)
      modifies this
      ensures Took(Call.BeginObject, ok)
    {
      ok := BeginValue();
      if !ok {
        return;
      }
      output := output + [OPEN_BRACE];
      stack := stack + [Frame(ObjectFrame, false, true)];
    }

    method EndObject() returns (ok: bool)
      modifies this
      ensures Took(Call.EndObject, ok)
    {
      if |stack| == 0 || stack[|stack| - 1].kind != ObjectFrame || !stack[|stack| - 1].expectKey {
        ok := Invalidate();
        return;
      }
      output := output + [CLOSE_BRACE];
      stack := stack[..|stack| - 1];
      FinishValue();
      return true;
    }

    method BeginArray() returns (ok: bool)
      modifies this
      ensures Took(Call.BeginArray, ok)
    {
      ok := BeginValue();
      if !ok {
        return;
      }
      output := output + [OPEN_BRACKET];
      stack := stack + [Frame(ArrayFrame, false, false)];
    }

    method EndArray() returns (ok: bool)
      modifies this
      ensures Took(Call.EndArray, ok)
    {
      if |stack| == 0 || stack[|stack| - 1].kind != ArrayFrame {
        ok := Invalidate();
        return;
      }
      output := output + [CLOSE_BRACKET];
      stack := stack[..|stack| - 1];
      FinishValue();
      return true;
    }

    method Key(value: bytes) returns (ok: bool)
      modifies this
      ensures Took(PutKey(value), ok)
    {
      if |stack| == 0 {
        ok := Invalidate();
        return;
      }
      var last := |stack| - 1;
      var frame := stack[last];
      if frame.kind != ObjectFrame || !frame.expectKey {
        ok := Invalidate();
        return;
      }
      ghost var start := output;
      if frame.hasContent {
        output := output + [COMMA];
      }
      WriteEscapedString(value);
      output := output + [COLON];
      stack := stack[..last] + [frame.(expectKey := false)];
      var comma: bytes := if frame.hasContent then [COMMA] else [];
      assert output == start + (comma + EscapedString(value) + [COLON]);
      return true;
    }

    method Primitive(value: bytes) returns (ok: bool)
      modifies this
      ensures Stepped(Current(), ok) == JsonWriting.Primitive(old(Current()), value)
    {
      ok := BeginValue();
      if !ok {
        return;
      }
      output := output + value;
      FinishValue();
    }

    method Null() returns (ok: bool)
      modifies this
      ensures Took(PutNull, ok)
    {
      ok := Primitive(NULL);
    }

    method Boolean(value: bool) returns (ok: bool)
      modifies this
      ensures Took(PutBoolean(value), ok)
    {
      ok := Primitive(if value then TRUE else FALSE);
    }

    method Number(value: Integral) returns (ok: bool)
      modifies this
      ensures Took(PutInteger(value), ok)
    {
      ok := BeginValue();
      if !ok {
        return;
      }
      output := output + Decimal(value);
      FinishValue();
      return true;
    }

    method String(value: bytes) returns (ok: bool)
      modifies this
      ensures Took(PutString(value), ok)
    {
      ok := BeginValue();
      if !ok {
        return;
      }
      WriteEscapedString(value);
      FinishValue();
    }

    /** The escaping loop of server_engine/json/json_escape.hpp. */
    method WriteEscapedString(text: bytes)
      modifies this`output
      ensures output == old(output) + EscapedString(text)
    {
      hide EscapeByte;
      output := output + [QUOTE];
      var i := 0;
      ghost var done: bytes := [];
      assert text[0..] == text;
      while i < |text|
        invariant 0 <= i <= |text|
        invariant output == old(output) + ([QUOTE] + done)
        invariant done + EscapeBytes(text[i..]) == EscapeBytes(text)
      {
        EscapeNext(done, text, i);
        done := done + EscapeByte(text[i]);
        WriteEscape(text[i]);
        i := i + 1;
      }
      assert done == EscapeBytes(text);
      output := output + [QUOTE];
    }

    method WriteEscape(b: byte)
      modifies this`output
      ensures output == old(output) + EscapeByte(b)
    {
      if b == 0x22 {
        output := output + [BACKSLASH, QUOTE];
      } else if b == 0x5C {
        output := output + [BACKSLASH, BACKSLASH];
      } else if b == 0x08 {
        output := output + [BACKSLASH, 0x62];
      } else if b == 0x0C {
        output := output + [BACKSLASH, 0x66];
      } else if b == 0x0A {
        output := output + [BACKSLASH, 0x6E];
      } else if b == 0x0D {
        output := output + [BACKSLASH, 0x72];
      } else if b == 0x09 {
        output := output + [BACKSLASH, 0x74];
      } else if b < 0x20 {
        output := output + [BACKSLASH, LETTER_U, ZERO, ZERO, HexUpper(b / 16), HexUpper(b % 16)];
      } else {
        output := output + [b];
      }
    }
  }
}
