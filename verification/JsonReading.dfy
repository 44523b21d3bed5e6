/**
 * The outcome of reading one JSON text, step for step in the order in which
 * server_engine/json/json_parser.cpp looks at the bytes: which construct is tried, where a
 * failure is reported, and how long the reported range is. JsonParser is proved to compute
 * these functions and JsonTheorems relates them to the grammar.
 */
module JsonReading {
  import opened Bytes
  import opened Wrappers
  import opened JsonEvents
  import opened JsonGrammar
  import Utf8

  const MAX_DEPTH: nat := 64

  datatype ErrorCode =
    | UnexpectedEnd
    | UnexpectedToken
    | InvalidString
    | InvalidEscape
    | InvalidUnicode
    | InvalidUtf8
    | InvalidNumber
    | UnterminatedComment
    | NestingTooDeep

  datatype Fault = Fault(code: ErrorCode, offset: nat, length: nat)

  datatype Outcome<+T> = Good(pos: nat, value: T) | Bad(fault: Fault)

  /** A reported range lies in the text, and is empty only at its end. */
  predicate InText(text: bytes, f: Fault) {
    f.offset + f.length <= |text| && (f.length == 0 ==> f.offset == |text|)
  }

  predicate ByteAt(text: bytes, pos: nat, b: byte) { pos < |text| && text[pos] == b }

  /** The length reported for a token that is wrong or missing. */
  function OneOrEnd(text: bytes, pos: nat): (r: nat) { if pos < |text| then 1 else 0 }

  // ----- trivia -----

  function LineEnd(text: bytes, pos: nat): (r: nat)
    requires pos <= |text|
    ensures pos <= r <= |text|
    decreases |text| - pos
  {
    if pos < |text| && !IsLineBreak(text[pos]) then LineEnd(text, pos + 1) else pos
  }

  /** The position after the first comment close, if there is one. */
  function BlockEnd(text: bytes, pos: nat): (r: Option<nat>)
    requires pos <= |text|
    ensures r.Some? ==> pos < r.value <= |text|
    decreases |text| - pos
  {
    if pos + 1 >= |text| then None
    else if text[pos] == STAR && text[pos + 1] == SLASH then Some(pos + 2)
    else BlockEnd(text, pos + 1)
  }

  function SkipTrivia(text: bytes, pos: nat): (r: Outcome<()>)
    requires pos <= |text|
    ensures r.Good? ==> pos <= r.pos <= |text|
    ensures r.Bad? ==> InText(text, r.fault)
    decreases |text| - pos
  {
    if pos < |text| && IsSpace(text[pos]) then SkipTrivia(text, pos + 1)
    else if ByteAt(text, pos, SLASH) && ByteAt(text, pos + 1, SLASH) then SkipTrivia(text, LineEnd(text, pos + 2))
    else if ByteAt(text, pos, SLASH) && ByteAt(text, pos + 1, STAR) then
      var close := BlockEnd(text, pos + 2);
      if close.None? then Bad(Fault(UnterminatedComment, pos, |text| - pos)) else SkipTrivia(text, close.value)
    else Good(pos, ())
  }

  // ----- strings -----

  function HexRun(text: bytes, pos: nat, left: nat, acc: nat): (r: Outcome<nat>)
    requires pos + left <= |text|
    ensures r.Good? ==> r.pos == pos + left
    ensures r.Bad? ==> InText(text, r.fault)
    decreases left
  {
    if left == 0 then Good(pos, acc)
    else if HexValue(text[pos]) < 0 then Bad(Fault(InvalidUnicode, pos, 1))
    else HexRun(text, pos + 1, left - 1, acc * 16 + HexValue(text[pos]))
  }

  function Hex4(text: bytes, pos: nat): (r: Outcome<nat>)
    requires pos <= |text|
    ensures r.Good? ==> r.pos == pos + 4 <= |text|
    ensures r.Bad? ==> InText(text, r.fault)
  {
    if pos + 4 > |text| then Bad(Fault(UnexpectedEnd, pos, |text| - pos)) else HexRun(text, pos, 4, 0)
  }

  function UnicodeEscape(text: bytes, escape: nat, pos: nat): (r: Outcome<bytes>)
    requires escape < pos <= |text|
    ensures r.Good? ==> pos < r.pos <= |text|
    ensures r.Bad? ==> InText(text, r.fault)
  {
    match Hex4(text, pos)
    case Bad(f) => Bad(f)
    case Good(p, first) =>
      if Utf8.IsHighSurrogate(first) then
        if !(ByteAt(text, p, BACKSLASH) && ByteAt(text, p + 1, LETTER_U))
            then Bad(Fault(InvalidUnicode, escape, p - escape))
        else
          match Hex4(text, p + 2)
          case Bad(f) => Bad(f)
          case Good(q, second) =>
            if !Utf8.IsLowSurrogate(second) then Bad(Fault(InvalidUnicode, escape, q - escape))
            else Good(q, Utf8.Encode(PairValue(first, second)))
      else if Utf8.IsLowSurrogate(first) then Bad(Fault(InvalidUnicode, escape, p - escape))
      else Good(p, Utf8.Encode(first))
  }

  function Escape(text: bytes, pos: nat): (r: Outcome<bytes>)
    requires pos < |text|
    ensures r.Good? ==> pos < r.pos <= |text|
    ensures r.Bad? ==> InText(text, r.fault)
  {
    if pos + 1 >= |text| then Bad(Fault(UnexpectedEnd, pos + 1, 0))
    else if text[pos + 1] == LETTER_U then UnicodeEscape(text, pos, pos + 2)
    else if Unescape(text[pos + 1]).Some? then Good(pos + 2, [Unescape(text[pos + 1]).value])
    else Bad(Fault(InvalidEscape, pos, 2))
  }

  /** One element of a string; the closing quote is not one. */
  function StringPiece(text: bytes, pos: nat): (r: Outcome<bytes>)
    requires pos < |text|
    ensures r.Good? ==> pos < r.pos <= |text|
    ensures r.Bad? ==> InText(text, r.fault)
  {
    var b := text[pos];
    if b < 0x20 then Bad(Fault(InvalidString, pos, 1))
    else if b == BACKSLASH then Escape(text, pos)
    else if b <= 0x7F then Good(pos + 1, [b])
    else
      var d := Utf8.DecodeOne(text, pos);
      if !d.status.Ok? then Bad(Fault(InvalidUtf8, pos, Max(d.length, 1)))
      else Good(pos + d.length, text[pos..pos + d.length])
  }

  function Prepend<T>(head: seq<T>, tail: Outcome<seq<T>>): (r: Outcome<seq<T>>) {
    if tail.Good? then Good(tail.pos, head + tail.value) else tail
  }

  lemma PrependNothing<T>(tail: Outcome<seq<T>>)
    ensures Prepend([], tail) == tail
  {
    if tail.Good? {
      assert [] + tail.value == tail.value;
    }
  }

  lemma PrependTwice<T>(a: seq<T>, b: seq<T>, tail: Outcome<seq<T>>)
    ensures Prepend(a, Prepend(b, tail)) == Prepend(a + b, tail)
  {
    if tail.Good? {
      assert a + (b + tail.value) == (a + b) + tail.value;
    }
  }

  /** The rest of a string, after its opening quote and up to its closing one. */
  function StringRest(text: bytes, pos: nat): (r: Outcome<bytes>)
    requires pos <= |text|
    ensures r.Good? ==> pos < r.pos <= |text|
    ensures r.Bad? ==> InText(text, r.fault)
    decreases |text| - pos
  {
    if pos >= |text| then Bad(Fault(UnexpectedEnd, pos, 0))
    else if text[pos] == QUOTE then Good(pos + 1, [])
    else
      match StringPiece(text, pos)
      case Bad(f) => Bad(f)
      case Good(p, decoded) => Prepend(decoded, StringRest(text, p))
  }

  /** A string decoded up to some position: it ends there, goes on with one more piece, or fails with it. */
  lemma StringGoesOn(text: bytes, from: nat, decoded: bytes, at: nat)
    requires from <= at <= |text| && StringRest(text, from) == Prepend(decoded, StringRest(text, at))
    ensures at == |text| ==> StringRest(text, from) == Bad(Fault(UnexpectedEnd, at, 0))
    ensures at < |text| && text[at] == QUOTE ==> StringRest(text, from) == Good(at + 1, decoded)
    ensures at < |text| && text[at] != QUOTE ==>
              match StringPiece(text, at)
              case Bad(f) => StringRest(text, from) == Bad(f)
              case Good(p, more) => StringRest(text, from) == Prepend(decoded + more, StringRest(text, p))
  {
    hide StringPiece;
    if at < |text| && text[at] != QUOTE && StringPiece(text, at).Good? {
      PrependTwice(decoded, StringPiece(text, at).value, StringRest(text, StringPiece(text, at).pos));
    } else {
      assert decoded + [] == decoded;
    }
  }

  // ----- numbers -----

  function DigitsEnd(text: bytes, pos: nat): (r: nat)
    requires pos <= |text|
    ensures pos <= r <= |text|
    decreases |text| - pos
  {
    if pos < |text| && IsDigit(text[pos]) then DigitsEnd(text, pos + 1) else pos
  }

  predicate DigitAt(text: bytes, pos: nat) { pos < |text| && IsDigit(text[pos]) }

  /** The integer part, its sign already read. */
  function Whole(text: bytes, begin: nat, pos: nat): (r: Outcome<()>)
    requires begin <= pos <= |text| && begin < |text|
    ensures r.Good? ==> pos < r.pos <= |text|
    ensures r.Bad? ==> InText(text, r.fault)
  {
    if ByteAt(text, pos, ZERO) then
      if DigitAt(text, pos + 1) then Bad(Fault(InvalidNumber, begin, pos + 1 - begin + 1)) else Good(pos + 1, ())
    else if !DigitAt(text, pos) then Bad(Fault(InvalidNumber, begin, Max(pos - begin, 1)))
    else Good(DigitsEnd(text, pos + 1), ())
  }

  /** The fraction, if a dot stands here; the value says whether the number is still an integer. */
  function Fraction(text: bytes, begin: nat, pos: nat): (r: Outcome<bool>)
    requires begin <= pos <= |text| && begin < |text|
    ensures r.Good? ==> pos <= r.pos <= |text|
    ensures r.Bad? ==> InText(text, r.fault)
  {
    if !ByteAt(text, pos, DOT) then Good(pos, true)
    else if !DigitAt(text, pos + 1) then Bad(Fault(InvalidNumber, begin, pos + 1 - begin))
    else Good(DigitsEnd(text, pos + 1), false)
  }

  function AfterSign(text: bytes, pos: nat): (r: nat)
    requires pos <= |text|
    ensures pos <= r <= |text|
  {
    if ByteAt(text, pos, PLUS) || ByteAt(text, pos, MINUS) then pos + 1 else pos
  }

  function ExponentPart(text: bytes, begin: nat, pos: nat): (r: Outcome<bool>)
    requires begin <= pos <= |text| && begin < |text|
    ensures r.Good? ==> pos <= r.pos <= |text|
    ensures r.Bad? ==> InText(text, r.fault)
  {
    if !(pos < |text| && IsExponentMark(text[pos])) then Good(pos, true)
    else
      var p := AfterSign(text, pos + 1);
      if !DigitAt(text, p) then Bad(Fault(InvalidNumber, begin, p - begin)) else Good(DigitsEnd(text, p), false)
  }

  function NumberToken(text: bytes, begin: nat): (r: Outcome<bool>)
    requires begin < |text|
    ensures r.Good? ==> begin < r.pos <= |text|
    ensures r.Bad? ==> InText(text, r.fault)
  {
    var p := if text[begin] == MINUS then begin + 1 else begin;
    if p >= |text| then Bad(Fault(InvalidNumber, begin, p - begin))
    else
      match Whole(text, begin, p)
      case Bad(f) => Bad(f)
      case Good(q, _) =>
        match Fraction(text, begin, q)
        case Bad(f) => Bad(f)
        case Good(s, plain) =>
          match ExponentPart(text, begin, s)
          case Bad(f) => Bad(f)
          case Good(e, bare) => Good(e, plain && bare)
  }

  // ----- values -----

  type Events = seq<Event>

  function ReadString(text: bytes, pos: nat): (r: Outcome<Events>)
    requires ByteAt(text, pos, QUOTE)
    ensures r.Good? ==> pos < r.pos <= |text|
    ensures r.Bad? ==> InText(text, r.fault)
  {
    match StringRest(text, pos + 1)
    case Bad(f) => Bad(f)
    case Good(p, decoded) => Good(p, [Location(pos, p - pos), Value(Str(decoded))])
  }

  function ReadNumber(text: bytes, pos: nat): (r: Outcome<Events>)
    requires pos < |text|
    ensures r.Good? ==> pos < r.pos <= |text|
    ensures r.Bad? ==> InText(text, r.fault)
  {
    match NumberToken(text, pos)
    case Bad(f) => Bad(f)
    case Good(p, integer) =>
      var token := text[pos..p];
      Good(p, [Location(pos, p - pos), Value(if integer then Integer(token) else Number(token))])
  }

  function ReadLiteral(text: bytes, pos: nat, literal: bytes, value: Scalar): (r: Outcome<Events>)
    requires literal != [] && pos < |text|
    ensures r.Good? ==> pos < r.pos <= |text|
    ensures r.Bad? ==> InText(text, r.fault)
  {
    if Occurs(text, pos, literal) then Good(pos + |literal|, [Location(pos, |literal|), Value(value)])
    else Bad(Fault(UnexpectedToken, pos, 1))
  }

  function ReadValue(text: bytes, pos: nat, depth: nat): (r: Outcome<Events>)
    requires pos <= |text|
    ensures r.Good? ==> pos < r.pos <= |text|
    ensures r.Bad? ==> InText(text, r.fault)
    decreases |text| - pos, 2
  {
    match SkipTrivia(text, pos)
    case Bad(f) => Bad(f)
    case Good(p, _) =>
      if p >= |text| then Bad(Fault(UnexpectedEnd, p, 0))
      else if text[p] == OPEN_BRACE then ReadObject(text, p, depth)
      else if text[p] == OPEN_BRACKET then ReadArray(text, p, depth)
      else ReadScalar(text, p)
  }

  function ReadScalar(text: bytes, p: nat): (r: Outcome<Events>)
    requires p < |text|
    ensures r.Good? ==> p < r.pos <= |text|
    ensures r.Bad? ==> InText(text, r.fault)
  {
    if text[p] == QUOTE then ReadString(text, p)
    else if text[p] == TRUE[0] then ReadLiteral(text, p, TRUE, Boolean(true))
    else if text[p] == FALSE[0] then ReadLiteral(text, p, FALSE, Boolean(false))
    else if text[p] == NULL[0] then ReadLiteral(text, p, NULL, Null)
    else if text[p] == MINUS || IsDigit(text[p]) then ReadNumber(text, p)
    else Bad(Fault(UnexpectedToken, p, 1))
  }

  function ReadObject(text: bytes, pos: nat, depth: nat): (r: Outcome<Events>)
    requires pos < |text|
    ensures r.Good? ==> pos < r.pos <= |text|
    ensures r.Bad? ==> InText(text, r.fault)
    decreases |text| - pos, 1
  {
    if depth >= MAX_DEPTH then Bad(Fault(NestingTooDeep, pos, 1))
    else
      match SkipTrivia(text, pos + 1)
      case Bad(f) => Bad(f)
      case Good(p, _) =>
        if ByteAt(text, p, CLOSE_BRACE) then Good(p + 1, [Location(pos, 1), ObjectBegin, ObjectEnd])
        else
          match ReadMembers(text, p, depth)
          case Bad(f) => Bad(f)
          case Good(q, events) => Good(q, [Location(pos, 1), ObjectBegin] + events + [ObjectEnd])
  }

  /** A key and its colon; the position returned is where the value may start. */
  function ReadKey(text: bytes, pos: nat): (r: Outcome<Events>)
    requires pos <= |text|
    ensures r.Good? ==> pos < r.pos <= |text|
    ensures r.Bad? ==> InText(text, r.fault)
  {
    match SkipTrivia(text, pos)
    case Bad(f) => Bad(f)
    case Good(k, _) =>
      if k >= |text| then Bad(Fault(UnexpectedEnd, k, 0))
      else if text[k] != QUOTE then Bad(Fault(UnexpectedToken, k, 1))
      else
        match StringRest(text, k + 1)
        case Bad(f) => Bad(f)
        case Good(s, key) =>
          match SkipTrivia(text, s)
          case Bad(f) => Bad(f)
          case Good(c, _) =>
            if !ByteAt(text, c, COLON) then Bad(Fault(UnexpectedToken, c, OneOrEnd(text, c)))
            else Good(c + 1, [Location(k, s - k), Key(key)])
  }

  /** A member and the trivia behind it. */
  function ReadMember(text: bytes, pos: nat, depth: nat): (r: Outcome<Events>)
    requires pos <= |text|
    ensures r.Good? ==> pos < r.pos <= |text|
    ensures r.Bad? ==> InText(text, r.fault)
    decreases |text| - pos, 3
  {
    match ReadKey(text, pos)
    case Bad(f) => Bad(f)
    case Good(c, key) =>
      match ReadValue(text, c, depth + 1)
      case Bad(f) => Bad(f)
      case Good(v, events) =>
        match SkipTrivia(text, v)
        case Bad(f) => Bad(f)
        case Good(e, _) => Good(e, key + events)
  }

  function ReadMembers(text: bytes, pos: nat, depth: nat): (r: Outcome<Events>)
    requires pos <= |text|
    ensures r.Good? ==> pos < r.pos <= |text|
    ensures r.Bad? ==> InText(text, r.fault)
    decreases |text| - pos, 4
  {
    match ReadMember(text, pos, depth)
    case Bad(f) => Bad(f)
    case Good(e, events) =>
      if ByteAt(text, e, CLOSE_BRACE) then Good(e + 1, events)
      else if ByteAt(text, e, COMMA) then Prepend(events, ReadMembers(text, e + 1, depth))
      else Bad(Fault(UnexpectedToken, e, OneOrEnd(text, e)))
  }

  function ReadArray(text: bytes, pos: nat, depth: nat): (r: Outcome<Events>)
    requires pos < |text|
    ensures r.Good? ==> pos < r.pos <= |text|
    ensures r.Bad? ==> InText(text, r.fault)
    decreases |text| - pos, 1
  {
    if depth >= MAX_DEPTH then Bad(Fault(NestingTooDeep, pos, 1))
    else
      match SkipTrivia(text, pos + 1)
      case Bad(f) => Bad(f)
      case Good(p, _) =>
        if ByteAt(text, p, CLOSE_BRACKET) then Good(p + 1, [Location(pos, 1), ArrayBegin, ArrayEnd])
        else
          match ReadElements(text, p, depth)
          case Bad(f) => Bad(f)
          case Good(q, events) => Good(q, [Location(pos, 1), ArrayBegin] + events + [ArrayEnd])
  }

  /** An array element and the trivia behind it. */
  function ReadElement(text: bytes, pos: nat, depth: nat): (r: Outcome<Events>)
    requires pos <= |text|
    ensures r.Good? ==> pos < r.pos <= |text|
    ensures r.Bad? ==> InText(text, r.fault)
    decreases |text| - pos, 3
  {
    match ReadValue(text, pos, depth + 1)
    case Bad(f) => Bad(f)
    case Good(v, events) =>
      match SkipTrivia(text, v)
      case Bad(f) => Bad(f)
      case Good(e, _) => Good(e, events)
  }

  function ReadElements(text: bytes, pos: nat, depth: nat): (r: Outcome<Events>)
    requires pos <= |text|
    ensures r.Good? ==> pos < r.pos <= |text|
    ensures r.Bad? ==> InText(text, r.fault)
    decreases |text| - pos, 4
  {
    match ReadElement(text, pos, depth)
    case Bad(f) => Bad(f)
    case Good(e, events) =>
      if ByteAt(text, e, CLOSE_BRACKET) then Good(e + 1, events)
      else if ByteAt(text, e, COMMA) then Prepend(events, ReadElements(text, e + 1, depth))
      else Bad(Fault(UnexpectedToken, e, OneOrEnd(text, e)))
  }

  // ----- documents -----

  function Start(text: bytes): (r: nat)
    ensures r <= |text|
  {
    if Occurs(text, 0, BOM) then 3 else 0
  }

  function Read(text: bytes): (r: Outcome<Events>)
    ensures r.Bad? ==> InText(text, r.fault)
  {
    match SkipTrivia(text, Start(text))
    case Bad(f) => Bad(f)
    case Good(p, _) =>
      if p >= |text| then Bad(Fault(UnexpectedEnd, p, 0))
      else
        match ReadValue(text, p, 0)
        case Bad(f) => Bad(f)
        case Good(q, events) =>
          match SkipTrivia(text, q)
          case Bad(f) => Bad(f)
          case Good(e, _) => if e != |text| then Bad(Fault(UnexpectedToken, e, 1)) else Good(e, events)
  }
}
