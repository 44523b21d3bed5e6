/**
 * The streaming parser of server_engine/json/json_parser.cpp: an object that advances a position
 * through a text, keeps the string being decoded in scratch, remembers its first fault and calls
 * a handler. The handler is modelled by the log of its callbacks.
 */
module JsonParser {
  import opened Bytes
  import opened Wrappers
  import opened JsonEvents
  import opened JsonGrammar
  import opened JsonReading
  import Utf8

  class Parser {
    const text: bytes
    var position: nat
    var scratch: bytes
    var result: Option<Fault>
    var events: Events

    predicate Ready()
      reads this
    {
      position <= |text| && result.None?
    }

    /** A step that emits nothing: it moved to where the outcome says or recorded its fault. */
    twostate predicate Moved<T>(ok: bool, outcome: Outcome<T>)
      reads this
    {
      && events == old(events)
      && ok == outcome.Good?
      && (ok ==> Ready() && position == outcome.pos)
      && (!ok ==> result == Some(outcome.fault))
    }

    /** A step whose callbacks are the outcome's events, when it succeeds. */
    twostate predicate Reported(ok: bool, outcome: Outcome<Events>)
      reads this
    {
      && ok == outcome.Good?
      && (ok ==> Ready() && position == outcome.pos && events == old(events) + outcome.value)
      && (!ok ==> result == Some(outcome.fault) && old(events) <= events)
    }

    constructor (text: bytes)
      ensures this.text == text && position == 0 && Ready() && events == [] && scratch == []
    {
      this.text := text;
      position := 0;
      scratch := [];
      result := None;
      events := [];
    }

    method Run()
      requires Ready() && position == 0 && events == []
      modifies this
      ensures match Read(text)
              case Good(_, reported) => result.None? && events == reported
              case Bad(fault) => result == Some(fault)
    {
      SkipBom();
      var ok := SkipTrivia();
      if !ok {
        return;
      }
      if position >= |text| {
        ok := Fail(UnexpectedEnd, position, 0);
        return;
      }
      ok := ParseValue(0);
      if !ok {
        return;
      }
      ok := SkipTrivia();
      if !ok {
        return;
      }
      if position != |text| {
        ok := Fail(UnexpectedToken, position, 1);
      }
    }

    method SkipBom()
      requires Ready() && position == 0
      modifies this`position
      ensures position == Start(text)
    {
      if |text| >= 3 && text[0] == 0xEF && text[1] == 0xBB && text[2] == 0xBF {
        assert Occurs(text, 0, BOM);
        position := 3;
      } else if Occurs(text, 0, BOM) {
        OccursAt(text, 0, BOM, 0);
        OccursAt(text, 0, BOM, 1);
        OccursAt(text, 0, BOM, 2);
      }
    }

    method SkipTrivia() returns (ok: bool)
      requires Ready()
      modifies this`position, this`result
      ensures Moved(ok, JsonReading.SkipTrivia(text, old(position)))
    {
      hide InText;
      while position < |text|
        invariant Ready()
        invariant JsonReading.SkipTrivia(text, position) == JsonReading.SkipTrivia(text, old(position))
      {
        if IsSpace(text[position]) {
          position := position + 1;
          continue;
        }
        if text[position] != SLASH || position + 1 >= |text| {
          return true;
        }
        var next := text[position + 1];
        if next == SLASH {
          ghost var from := position;
          position := position + 2;
          while position < |text| && text[position] != 0x0D && text[position] != 0x0A
            invariant Ready() && LineEnd(text, position) == LineEnd(text, from + 2)
          {
            position := position + 1;
          }
          continue;
        }
        if next == STAR {
          var begin := position;
          position := position + 2;
          var closed := false;
          while position + 1 < |text|
            invariant Ready() && BlockEnd(text, position) == BlockEnd(text, begin + 2) && !closed
          {
            if text[position] == STAR && text[position + 1] == SLASH {
              position := position + 2;
              closed := true;
              break;
            }
            position := position + 1;
          }
          if !closed {
            ok := Fail(UnterminatedComment, begin, |text| - begin);
            return;
          }
          continue;
        }
        return true;
      }
      return true;
    }

    method ParseValue(depth: nat) returns (ok: bool)
      requires Ready()
      modifies this
      ensures Reported(ok, ReadValue(text, old(position), depth))
      decreases |text| - position, 2
    {
      ok := SkipTrivia();
      if !ok {
        return;
      }
      if position >= |text| {
        ok := Fail(UnexpectedEnd, position, 0);
        return;
      }
      var b := text[position];
      if b == OPEN_BRACE {
        ok := ParseObject(depth);
      } else if b == OPEN_BRACKET {
        ok := ParseArray(depth);
      } else if b == QUOTE {
        ok := ParseStringValue();
      } else if b == 0x74 {
        ok := ParseLiteral(TRUE, Boolean(true));
      } else if b == 0x66 {
        ok := ParseLiteral(FALSE, Boolean(false));
      } else if b == 0x6E {
        ok := ParseLiteral(NULL, Null);
      } else if b == MINUS || IsDigit(b) {
        ok := ParseNumber();
      } else {
        ok := Fail(UnexpectedToken, position, 1);
      }
    }

    method ParseObject(depth: nat) returns (ok: bool)
      requires Ready() && position < |text| && text[position] == OPEN_BRACE
      modifies this
      ensures Reported(ok, ReadObject(text, old(position), depth))
      decreases |text| - position, 1
    {
      hide ReadMembers, InText;
      if depth >= MAX_DEPTH {
        ok := Fail(NestingTooDeep, position, 1);
        return;
      }
      var begin := position;
      position := position + 1;
      events := events + [Location(begin, 1), ObjectBegin];
      ok := SkipTrivia();
      if !ok {
        return;
      }
      var closed := Consume(CLOSE_BRACE);
      if !closed {
        ok := ParseMembers(depth);
        if !ok {
          return;
        }
      }
      events := events + [ObjectEnd];
      return true;
    }

    /** The member loop, up to and with the closing bracket. */
    method ParseMembers(depth: nat) returns (ok: bool)
      requires Ready()
      modifies this
      ensures Reported(ok, ReadMembers(text, old(position), depth))
      decreases |text| - position, 4
    {
      hide ReadMember;
      ghost var from, log := position, events;
      assert events[|log|..] == [];
      PrependNothing(ReadMembers(text, from, depth));
      while true
        invariant Ready() && from <= position && log <= events
        invariant ReadMembers(text, from, depth) == Prepend(events[|log|..], ReadMembers(text, position, depth))
        decreases |text| - position
      {
        ghost var before := events;
        ok := ParseMember(depth);
        if !ok {
          return;
        }
        assert events[|log|..] == before[|log|..] + events[|before|..];
        var closed := Consume(CLOSE_BRACE);
        if closed {
          return true;
        }
        var more := Consume(COMMA);
        if !more {
          ok := Fail(UnexpectedToken, position, if position < |text| then 1 else 0);
          return;
        }
        PrependTwice(before[|log|..], events[|before|..], ReadMembers(text, position, depth));
      }
    }

    method ParseMember(depth: nat) returns (ok: bool)
      requires Ready()
      modifies this
      ensures Reported(ok, ReadMember(text, old(position), depth))
      decreases |text| - position, 3
    {
      hide JsonReading.SkipTrivia, ReadKey, ReadValue, InText;
      ok := ParseKey();
      if !ok {
        return;
      }
      ok := ParseValue(depth + 1);
      if !ok {
        return;
      }
      ok := SkipTrivia();
    }

    /** One key and its colon: the first half of an iteration of the member loop. */
    method ParseKey() returns (ok: bool)
      requires Ready()
      modifies this
      ensures Reported(ok, ReadKey(text, old(position)))
    {
      hide JsonReading.SkipTrivia, StringRest, InText;
      ok := SkipTrivia();
      if !ok {
        return;
      }
      if position >= |text| {
        ok := Fail(UnexpectedEnd, position, 0);
        return;
      }
      if text[position] != QUOTE {
        ok := Fail(UnexpectedToken, position, 1);
        return;
      }
      var keyBegin := position;
      ok := ParseDecodedString();
      if !ok {
        return;
      }
      events := events + [Location(keyBegin, position - keyBegin), Key(scratch)];
      ok := SkipTrivia();
      if !ok {
        return;
      }
      ok := Consume(COLON);
      if !ok {
        ok := Fail(UnexpectedToken, position, if position < |text| then 1 else 0);
      }
    }

    method ParseArray(depth: nat) returns (ok: bool)
      requires Ready() && position < |text| && text[position] == OPEN_BRACKET
      modifies this
      ensures Reported(ok, ReadArray(text, old(position), depth))
      decreases |text| - position, 1
    {
      hide ReadElements, InText;
      if depth >= MAX_DEPTH {
        ok := Fail(NestingTooDeep, position, 1);
        return;
      }
      var begin := position;
      position := position + 1;
      events := events + [Location(begin, 1), ArrayBegin];
      ok := SkipTrivia();
      if !ok {
        return;
      }
      var closed := Consume(CLOSE_BRACKET);
      if !closed {
        ok := ParseElements(depth);
        if !ok {
          return;
        }
      }
      events := events + [ArrayEnd];
      return true;
    }

    /** The element loop, up to and with the closing bracket. */
    method ParseElements(depth: nat) returns (ok: bool)
      requires Ready()
      modifies this
      ensures Reported(ok, ReadElements(text, old(position), depth))
      decreases |text| - position, 4
    {
      hide ReadElement;
      ghost var from, log := position, events;
      assert events[|log|..] == [];
      PrependNothing(ReadElements(text, from, depth));
      while true
        invariant Ready() && from <= position && log <= events
        invariant ReadElements(text, from, depth) == Prepend(events[|log|..], ReadElements(text, position, depth))
        decreases |text| - position
      {
        ghost var before := events;
        ok := ParseElement(depth);
        if !ok {
          return;
        }
        assert events[|log|..] == before[|log|..] + events[|before|..];
        var closed := Consume(CLOSE_BRACKET);
        if closed {
          return true;
        }
        var more := Consume(COMMA);
        if !more {
          ok := Fail(UnexpectedToken, position, if position < |text| then 1 else 0);
          return;
        }
        PrependTwice(before[|log|..], events[|before|..], ReadElements(text, position, depth));
      }
    }

    method ParseElement(depth: nat) returns (ok: bool)
      requires Ready()
      modifies this
      ensures Reported(ok, ReadElement(text, old(position), depth))
      decreases |text| - position, 3
    {
      ok := ParseValue(depth + 1);
      if !ok {
        return;
      }
      ok := SkipTrivia();
    }

    method ParseStringValue() returns (ok: bool)
      requires Ready() && position < |text| && text[position] == QUOTE
      modifies this
      ensures Reported(ok, ReadString(text, old(position)))
    {
      var begin := position;
      ok := ParseDecodedString();
      if !ok {
        return;
      }
      events := events + [Location(begin, position - begin), Value(Str(scratch))];
    }

    method ParseDecodedString() returns (ok: bool)
      requires Ready() && position < |text| && text[position] == QUOTE
      modifies this`position, this`scratch, this`result
      ensures Moved(ok, StringRest(text, old(position) + 1))
      ensures ok ==> scratch == StringRest(text, old(position) + 1).value
    {
      hide Escape, Utf8.DecodeOne, StringRest, Prepend;
      ok := Consume(QUOTE);
      scratch := [];
      ghost var from := position;
      PrependNothing(StringRest(text, from));
      while position < |text|
        invariant Ready() && from <= position
        invariant StringRest(text, from) == Prepend(scratch, StringRest(text, position))
      {
        var b := text[position];
        ghost var at, decodedBefore := position, scratch;
        StringGoesOn(text, from, scratch, at);
        if b == QUOTE {
          position := position + 1;
          return true;
        }
        if b < 0x20 {
          ok := Fail(InvalidString, position, 1);
          return;
        }
        if b == BACKSLASH {
          ok := ParseEscape();
          if !ok {
            return;
          }
          assert scratch == decodedBefore + StringPiece(text, at).value;
          continue;
        }
        if b <= 0x7F {
          scratch := scratch + [b];
          position := position + 1;
          continue;
        }
        var decoded := Utf8.DecodeOneByLoop(text, position);
        if decoded.status != Utf8.Ok {
          ok := Fail(InvalidUtf8, position, Max(decoded.length, 1));
          return;
        }
        scratch := scratch + text[position..position + decoded.length];
        position := position + decoded.length;
      }
      StringGoesOn(text, from, scratch, position);
      ok := Fail(UnexpectedEnd, position, 0);
    }

    /** The branch of the string loop taken at a backslash. */
    method ParseEscape() returns (ok: bool)
      requires Ready() && position < |text| && text[position] == BACKSLASH
      modifies this`position, this`scratch, this`result
      ensures Moved(ok, Escape(text, old(position)))
      ensures ok ==> scratch == old(scratch) + Escape(text, old(position)).value
    {
      var escapeOffset := position;
      position := position + 1;
      if position >= |text| {
        ok := Fail(UnexpectedEnd, position, 0);
        return;
      }
      var escape := text[position];
      position := position + 1;
      if escape == LETTER_U {
        ok := ParseUnicodeEscape(escapeOffset);
        return;
      }
      var named := Unescape(escape);
      if named.None? {
        ok := Fail(InvalidEscape, escapeOffset, 2);
        return;
      }
      scratch := scratch + [named.value];
      return true;
    }

    method ParseUnicodeEscape(escapeOffset: nat) returns (ok: bool)
      requires Ready() && escapeOffset < position
      modifies this`position, this`scratch, this`result
      ensures Moved(ok, UnicodeEscape(text, escapeOffset, old(position)))
      ensures ok ==> scratch == old(scratch) + UnicodeEscape(text, escapeOffset, old(position)).value
    {
      hide Hex4, InText, Utf8.Encode;
      var first: nat;
      ok, first := ParseHex4();
      if !ok {
        return;
      }
      var codepoint := first;
      if Utf8.IsHighSurrogate(first) {
        if position + 2 > |text| || text[position] != BACKSLASH || text[position + 1] != LETTER_U {
          ok := Fail(InvalidUnicode, escapeOffset, position - escapeOffset);
          return;
        }
        position := position + 2;
        var second: nat;
        ok, second := ParseHex4();
        if !ok {
          return;
        }
        if !Utf8.IsLowSurrogate(second) {
          ok := Fail(InvalidUnicode, escapeOffset, position - escapeOffset);
          return;
        }
        codepoint := 0x10000 + (first - 0xD800) * 0x400 + (second - 0xDC00);
      } else if Utf8.IsLowSurrogate(first) {
        ok := Fail(InvalidUnicode, escapeOffset, position - escapeOffset);
        return;
      }
      scratch := scratch + Utf8.Encode(codepoint);
    }

    method ParseHex4() returns (ok: bool, output: nat)
      requires Ready()
      modifies this`position, this`result
      ensures Moved(ok, Hex4(text, old(position)))
      ensures ok ==> output == Hex4(text, old(position)).value
    {
      output := 0;
      if position + 4 > |text| {
        ok := Fail(UnexpectedEnd, position, |text| - position);
        return;
      }
      var i := 0;
      while i < 4
        invariant 0 <= i <= 4 && Ready() && position + (4 - i) <= |text|
        invariant HexRun(text, position, 4 - i, output) == Hex4(text, old(position))
      {
        var digit := HexValue(text[position]);
        if digit < 0 {
          ok := Fail(InvalidUnicode, position, 1);
          return;
        }
        position := position + 1;
        output := output * 16 + digit;
        i := i + 1;
      }
      ok := true;
    }

    method ParseNumber() returns (ok: bool)
      requires Ready() && position < |text|
      modifies this
      ensures Reported(ok, ReadNumber(text, old(position)))
    {
      hide Whole, Fraction, ExponentPart, InText;
      var begin := position;
      var minus := Consume(MINUS);
      if minus && position >= |text| {
        ok := Fail(InvalidNumber, begin, position - begin);
        return;
      }
      ok := ParseWhole(begin);
      if !ok {
        return;
      }
      var plain, bare: bool;
      ok, plain := ParseFraction(begin);
      if !ok {
        return;
      }
      ok, bare := ParseExponent(begin);
      if !ok {
        return;
      }
      var integer := plain && bare;
      var token := text[begin..position];
      events := events + [Location(begin, |token|), Value(if integer then Integer(token) else Number(token))];
      return true;
    }

    method ParseWhole(begin: nat) returns (ok: bool)
      requires Ready() && begin <= position && begin < |text|
      modifies this`position, this`result
      ensures Moved(ok, Whole(text, begin, old(position)))
    {
      var zero := Consume(ZERO);
      if zero {
        if position < |text| && IsDigit(text[position]) {
          ok := Fail(InvalidNumber, begin, position - begin + 1);
          return;
        }
      } else {
        if position >= |text| || !IsDigit(text[position]) {
          ok := Fail(InvalidNumber, begin, Max(position - begin, 1));
          return;
        }
        SkipDigits();
      }
      return true;
    }

    method ParseFraction(begin: nat) returns (ok: bool, integer: bool)
      requires Ready() && begin <= position && begin < |text|
      modifies this`position, this`result
      ensures Moved(ok, Fraction(text, begin, old(position)))
      ensures ok ==> integer == Fraction(text, begin, old(position)).value
    {
      integer := true;
      ok := true;
      var dot := Consume(DOT);
      if dot {
        integer := false;
        if position >= |text| || !IsDigit(text[position]) {
          ok := Fail(InvalidNumber, begin, position - begin);
          return;
        }
        SkipDigits();
      }
    }

    method ParseExponent(begin: nat) returns (ok: bool, integer: bool)
      requires Ready() && begin <= position && begin < |text|
      modifies this`position, this`result
      ensures Moved(ok, ExponentPart(text, begin, old(position)))
      ensures ok ==> integer == ExponentPart(text, begin, old(position)).value
    {
      integer := true;
      ok := true;
      if position < |text| && IsExponentMark(text[position]) {
        integer := false;
        position := position + 1;
        if position < |text| && (text[position] == PLUS || text[position] == MINUS) {
          position := position + 1;
        }
        if position >= |text| || !IsDigit(text[position]) {
          ok := Fail(InvalidNumber, begin, position - begin);
          return;
        }
        SkipDigits();
      }
    }

    /** The digit loop that follows each digit test of a number. */
    method SkipDigits()
      requires Ready() && DigitAt(text, position)
      modifies this`position
      ensures position == DigitsEnd(text, old(position)) == DigitsEnd(text, old(position) + 1)
    {
      while position < |text| && IsDigit(text[position])
        invariant Ready() && DigitsEnd(text, position) == DigitsEnd(text, old(position))
      {
        position := position + 1;
      }
    }

    method ParseLiteral(literal: bytes, value: Scalar) returns (ok: bool)
      requires Ready() && position < |text| && literal != []
      modifies this
      ensures Reported(ok, ReadLiteral(text, old(position), literal, value))
    {
      var begin := position;
      if !(position + |literal| <= |text| && text[position..position + |literal|] == literal) {
        ok := Fail(UnexpectedToken, position, 1);
        return;
      }
      position := position + |literal|;
      events := events + [Location(begin, |literal|), Value(value)];
      return true;
    }

    method Consume(value: byte) returns (found: bool)
      requires Ready()
      modifies this`position
      ensures found == ByteAt(text, old(position), value)
      ensures position == if found then old(position) + 1 else old(position)
      ensures Ready()
    {
      if position < |text| && text[position] == value {
        position := position + 1;
        return true;
      }
      return false;
    }

    /** Keeps the first fault. */
    method Fail(code: ErrorCode, offset: nat, length: nat) returns (ok: bool)
      modifies this`result
      ensures !ok
      ensures result == if old(result).None? then Some(Fault(code, offset, length)) else old(result)
    {
      if result.None? {
        result := Some(Fault(code, offset, length));
      }
      return false;
    }
  }

  /** parse_json: the fault, or none, and the callbacks made. */
  method ParseJson(text: bytes) returns (result: Option<Fault>, events: Events)
    ensures match Read(text)
            case Good(_, reported) => result.None? && events == reported
            case Bad(fault) => result == Some(fault)
  {
    var parser := new Parser(text);
    parser.Run();
    return parser.result, parser.events;
  }
}
