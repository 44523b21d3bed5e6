/** What a JSON reader reports, in the order it reports it. */
module JsonEvents {
  import opened Bytes

  datatype Scalar =
    | Str(text: bytes)
    | Integer(token: bytes)
    | Number(token: bytes)
    | Boolean(b: bool)
    | Null

  datatype Event =
    | Location(offset: nat, length: nat)
    | ObjectBegin
    | ObjectEnd
    | ArrayBegin
    | ArrayEnd
    | Key(text: bytes)
    | Value(v: Scalar)
}

/**
 * The grammar of sections 2 to 7 of RFC 8259, extended with line and block comments wherever
 * white space may stand and with an optional leading byte order mark. A document is a concrete
 * syntax tree that keeps every byte of its text: the tree says what the text means, and nothing
 * in this module mentions a parsing procedure.
 */
module JsonGrammar {
  import opened Bytes
  import opened Wrappers
  import opened JsonEvents
  import Utf8

  const QUOTE: byte := 0x22
  const BACKSLASH: byte := 0x5C
  const SLASH: byte := 0x2F
  const STAR: byte := 0x2A
  const COMMA: byte := 0x2C
  const COLON: byte := 0x3A
  const OPEN_BRACKET: byte := 0x5B
  const CLOSE_BRACKET: byte := 0x5D
  const OPEN_BRACE: byte := 0x7B
  const CLOSE_BRACE: byte := 0x7D
  const MINUS: byte := 0x2D
  const PLUS: byte := 0x2B
  const DOT: byte := 0x2E
  const ZERO: byte := 0x30
  const LETTER_U: byte := 0x75

  const BOM: bytes := [0xEF, 0xBB, 0xBF]
  const TRUE: bytes := [0x74, 0x72, 0x75, 0x65]
  const FALSE: bytes := [0x66, 0x61, 0x6C, 0x73, 0x65]
  const NULL: bytes := [0x6E, 0x75, 0x6C, 0x6C]

  predicate IsSpace(b: byte) { b == 0x20 || b == 0x09 || b == 0x0D || b == 0x0A }

  predicate IsLineBreak(b: byte) { b == 0x0D || b == 0x0A }

  predicate IsDigit(b: byte) { 0x30 <= b <= 0x39 }

  predicate IsExponentMark(b: byte) { b == 0x65 || b == 0x45 }

  predicate AllDigits(s: bytes) { forall k | 0 <= k < |s| :: IsDigit(s[k]) }

  // ----- white space and comments -----

  datatype TriviaItem =
    | Space(b: byte)
    | Line(body: bytes, eol: byte)
    | Block(body: bytes)

  type Trivia = seq<TriviaItem>

  predicate HasClose(s: bytes) { exists k :: 0 <= k < |s| - 1 && s[k] == STAR && s[k + 1] == SLASH }

  predicate NoLineBreak(s: bytes) { forall k | 0 <= k < |s| :: !IsLineBreak(s[k]) }

  predicate ItemOk(i: TriviaItem) {
    match i
    case Space(b) => IsSpace(b)
    case Line(body, eol) => NoLineBreak(body) && IsLineBreak(eol)
    case Block(body) => !HasClose(body)
  }

  function ItemText(i: TriviaItem): (s: bytes)
    ensures s != []
  {
    match i
    case Space(b) => [b]
    case Line(body, eol) => [SLASH, SLASH] + body + [eol]
    case Block(body) => [SLASH, STAR] + body + [STAR, SLASH]
  }

  predicate TriviaOk(t: Trivia) { forall k | 0 <= k < |t| :: ItemOk(t[k]) }

  function TriviaText(t: Trivia): (r: bytes) {
    if t == [] then [] else ItemText(t[0]) + TriviaText(t[1..])
  }

  // ----- strings -----

  /** One element of a string: a raw character, a two-character escape, \uXXXX, or a pair of them. */
  datatype Piece =
    | Plain(c: nat)
    | Short(letter: byte)
    | Unit(digits: bytes)
    | Pair(high: bytes, low: bytes)

  function HexValue(b: byte): (r: int) {
    if 0x30 <= b <= 0x39 then b - 0x30
    else if 0x61 <= b <= 0x66 then b - 0x61 + 10
    else if 0x41 <= b <= 0x46 then b - 0x41 + 10
    else -1
  }

  predicate IsHex4(s: bytes) {
    |s| == 4 && HexValue(s[0]) >= 0 && HexValue(s[1]) >= 0 && HexValue(s[2]) >= 0 && HexValue(s[3]) >= 0
  }

  function Hex4Value(s: bytes): (r: nat)
    requires IsHex4(s)
  {
    ((HexValue(s[0]) * 16 + HexValue(s[1])) * 16 + HexValue(s[2])) * 16 + HexValue(s[3])
  }

  /** The character named by the letter after a backslash, if any. */
  function Unescape(letter: byte): (r: Option<byte>) {
    if letter == QUOTE || letter == BACKSLASH || letter == SLASH then Some(letter)
    else if letter == 0x62 then Some(0x08)
    else if letter == 0x66 then Some(0x0C)
    else if letter == 0x6E then Some(0x0A)
    else if letter == 0x72 then Some(0x0D)
    else if letter == 0x74 then Some(0x09)
    else None
  }

  predicate PieceOk(p: Piece) {
    match p
    case Plain(c) => Utf8.IsScalar(c) && c >= 0x20 && c != QUOTE && c != BACKSLASH
    case Short(letter) => Unescape(letter).Some?
    case Unit(digits) => IsHex4(digits) && Utf8.IsScalar(Hex4Value(digits))
    case Pair(high, low) =>
      IsHex4(high) && IsHex4(low) && Utf8.IsHighSurrogate(Hex4Value(high)) && Utf8.IsLowSurrogate(Hex4Value(low))
  }

  function PieceText(p: Piece): (r: bytes) {
    match p
    case Plain(c) => Utf8.Encode(c)
    case Short(letter) => [BACKSLASH, letter]
    case Unit(digits) => [BACKSLASH, LETTER_U] + digits
    case Pair(high, low) => [BACKSLASH, LETTER_U] + high + [BACKSLASH, LETTER_U] + low
  }

  function PairValue(high: nat, low: nat): (r: nat)
    requires Utf8.IsHighSurrogate(high) && Utf8.IsLowSurrogate(low)
  {
    0x10000 + (high - 0xD800) * 0x400 + (low - 0xDC00)
  }

  function PieceValue(p: Piece): (r: bytes)
    requires PieceOk(p)
  {
    match p
    case Plain(c) => Utf8.Encode(c)
    case Short(letter) => [Unescape(letter).value]
    case Unit(digits) => Utf8.Encode(Hex4Value(digits))
    case Pair(high, low) => Utf8.Encode(PairValue(Hex4Value(high), Hex4Value(low)))
  }

  predicate PiecesOk(ps: seq<Piece>) { forall k | 0 <= k < |ps| :: PieceOk(ps[k]) }

  function PiecesText(ps: seq<Piece>): (r: bytes) {
    if ps == [] then [] else PieceText(ps[0]) + PiecesText(ps[1..])
  }

  function PiecesValue(ps: seq<Piece>): (r: bytes)
    requires PiecesOk(ps)
  {
    if ps == [] then [] else PieceValue(ps[0]) + PiecesValue(ps[1..])
  }

  function QuotedText(ps: seq<Piece>): (r: bytes) { [QUOTE] + (PiecesText(ps) + [QUOTE]) }

  // ----- numbers -----

  datatype Exponent = Exponent(mark: byte, sign: Option<byte>, digits: bytes)

  datatype Numeral = Numeral(minus: bool, whole: bytes, fraction: Option<bytes>, exponent: Option<Exponent>)

  predicate NumeralOk(n: Numeral) {
    && n.whole != [] && AllDigits(n.whole) && (n.whole[0] == ZERO ==> |n.whole| == 1)
    && (n.fraction.Some? ==> n.fraction.value != [] && AllDigits(n.fraction.value))
    && (n.exponent.Some? ==>
          var e := n.exponent.value;
          && IsExponentMark(e.mark) && e.digits != [] && AllDigits(e.digits)
          && (e.sign.Some? ==> e.sign.value == PLUS || e.sign.value == MINUS))
  }

  function SignText(n: Numeral): (r: bytes) { if n.minus then [MINUS] else [] }

  function FractionText(n: Numeral): (r: bytes) {
    if n.fraction.Some? then [DOT] + n.fraction.value else []
  }

  function ExponentText(n: Numeral): (r: bytes) {
    if n.exponent.None? then []
    else
      var e := n.exponent.value;
      [e.mark] + ((if e.sign.Some? then [e.sign.value] else []) + e.digits)
  }

  function NumeralText(n: Numeral): (r: bytes) {
    SignText(n) + (n.whole + (FractionText(n) + ExponentText(n)))
  }

  function NumeralScalar(n: Numeral): (r: Scalar) {
    if n.fraction.None? && n.exponent.None? then Integer(NumeralText(n)) else Number(NumeralText(n))
  }

  // ----- values -----

  datatype Tree =
    | Quoted(pieces: seq<Piece>)
    | Figure(n: Numeral)
    | True
    | False
    | Nothing
    | EmptyArray(inner: Trivia)
    | Array(elements: Elements)
    | EmptyObject(inner: Trivia)
    | Object(members: Members)

  /** A non-empty list of values, each with the trivia before and after it. */
  datatype Elements = Elements(before: Trivia, v: Tree, after: Trivia, rest: Option<Elements>)

  /** A non-empty list of members: key, trivia, colon, trivia, value, trivia. */
  datatype Members =
    Members(before: Trivia, key: seq<Piece>, mid: Trivia, lead: Trivia, v: Tree, after: Trivia, rest: Option<Members>)

  predicate TreeOk(t: Tree) {
    match t
    case Quoted(pieces) => PiecesOk(pieces)
    case Figure(n) => NumeralOk(n)
    case True => true
    case False => true
    case Nothing => true
    case EmptyArray(inner) => TriviaOk(inner)
    case Array(elements) => ElementsOk(elements)
    case EmptyObject(inner) => TriviaOk(inner)
    case Object(members) => MembersOk(members)
  }

  predicate ElementsOk(e: Elements) {
    TriviaOk(e.before) && TreeOk(e.v) && TriviaOk(e.after) && (e.rest.Some? ==> ElementsOk(e.rest.value))
  }

  predicate MembersOk(m: Members) {
    && TriviaOk(m.before) && PiecesOk(m.key) && TriviaOk(m.mid) && TriviaOk(m.lead) && TreeOk(m.v) && TriviaOk(m.after)
    && (m.rest.Some? ==> MembersOk(m.rest.value))
  }

  function TreeText(t: Tree): (r: bytes) {
    match t
    case Quoted(pieces) => QuotedText(pieces)
    case Figure(n) => NumeralText(n)
    case True => TRUE
    case False => FALSE
    case Nothing => NULL
    case EmptyArray(inner) => [OPEN_BRACKET] + (TriviaText(inner) + [CLOSE_BRACKET])
    case Array(elements) => [OPEN_BRACKET] + (ElementsText(elements) + [CLOSE_BRACKET])
    case EmptyObject(inner) => [OPEN_BRACE] + (TriviaText(inner) + [CLOSE_BRACE])
    case Object(members) => [OPEN_BRACE] + (MembersText(members) + [CLOSE_BRACE])
  }

  function ElementsText(e: Elements): (r: bytes) {
    TriviaText(e.before) + (TreeText(e.v) + (TriviaText(e.after) +
      if e.rest.Some? then [COMMA] + ElementsText(e.rest.value) else []))
  }

  function MembersText(m: Members): (r: bytes) {
    TriviaText(m.before) + (QuotedText(m.key) + (TriviaText(m.mid) + ([COLON] + (TriviaText(m.lead) +
      (TreeText(m.v) + (TriviaText(m.after) +
      if m.rest.Some? then [COMMA] + MembersText(m.rest.value) else []))))))
  }

  /** What stands behind the first value of a list and its trivia. */
  function ElementsTail(e: Elements): (r: bytes) { if e.rest.Some? then [COMMA] + ElementsText(e.rest.value) else [] }

  function MembersTail(m: Members): (r: bytes) { if m.rest.Some? then [COMMA] + MembersText(m.rest.value) else [] }

  /** Nested containers. */
  function Depth(t: Tree): (r: nat) {
    match t
    case Array(elements) => 1 + ElementsDepth(elements)
    case Object(members) => 1 + MembersDepth(members)
    case EmptyArray(_) => 1
    case EmptyObject(_) => 1
    case _ => 0
  }

  function Max(a: nat, b: nat): (r: nat) { if a < b then b else a }

  function ElementsDepth(e: Elements): (r: nat) {
    Max(Depth(e.v), if e.rest.Some? then ElementsDepth(e.rest.value) else 0)
  }

  function MembersDepth(m: Members): (r: nat) {
    Max(Depth(m.v), if m.rest.Some? then MembersDepth(m.rest.value) else 0)
  }

  // ----- what a reader must report for a value whose text starts at a given offset -----

  function Flatten(t: Tree, at: nat): (r: seq<Event>)
    requires TreeOk(t)
  {
    match t
    case Quoted(pieces) => [Location(at, |QuotedText(pieces)|), Value(Str(PiecesValue(pieces)))]
    case Figure(n) => [Location(at, |NumeralText(n)|), Value(NumeralScalar(n))]
    case True => [Location(at, 4), Value(Boolean(true))]
    case False => [Location(at, 5), Value(Boolean(false))]
    case Nothing => [Location(at, 4), Value(Null)]
    case EmptyArray(_) => [Location(at, 1), ArrayBegin, ArrayEnd]
    case Array(elements) => [Location(at, 1), ArrayBegin] + FlattenElements(elements, at + 1) + [ArrayEnd]
    case EmptyObject(_) => [Location(at, 1), ObjectBegin, ObjectEnd]
    case Object(members) => [Location(at, 1), ObjectBegin] + FlattenMembers(members, at + 1) + [ObjectEnd]
  }

  function ElementsNext(e: Elements, at: nat): (r: nat) {
    at + |TriviaText(e.before)| + |TreeText(e.v)| + |TriviaText(e.after)| + 1
  }

  function FlattenElements(e: Elements, at: nat): (r: seq<Event>)
    requires ElementsOk(e)
  {
    Flatten(e.v, at + |TriviaText(e.before)|) +
    if e.rest.Some? then FlattenElements(e.rest.value, ElementsNext(e, at)) else []
  }

  function MemberKeyAt(m: Members, at: nat): (r: nat) { at + |TriviaText(m.before)| }

  function MemberValueAt(m: Members, at: nat): (r: nat) {
    MemberKeyAt(m, at) + |QuotedText(m.key)| + |TriviaText(m.mid)| + 1 + |TriviaText(m.lead)|
  }

  function MembersNext(m: Members, at: nat): (r: nat) {
    MemberValueAt(m, at) + |TreeText(m.v)| + |TriviaText(m.after)| + 1
  }

  function FlattenMembers(m: Members, at: nat): (r: seq<Event>)
    requires MembersOk(m)
  {
    [Location(MemberKeyAt(m, at), |QuotedText(m.key)|), Key(PiecesValue(m.key))] +
    (Flatten(m.v, MemberValueAt(m, at)) +
    if m.rest.Some? then FlattenMembers(m.rest.value, MembersNext(m, at)) else [])
  }

  // ----- documents -----

  /** A whole text; a last line comment needs no line break after it. */
  datatype Document = Document(bom: bool, before: Trivia, v: Tree, after: Trivia, trailer: Option<bytes>)

  predicate DocumentOk(d: Document) {
    TriviaOk(d.before) && TreeOk(d.v) && TriviaOk(d.after) && (d.trailer.Some? ==> NoLineBreak(d.trailer.value))
  }

  function TrailerText(t: Option<bytes>): (r: bytes) {
    if t.Some? then [SLASH, SLASH] + t.value else []
  }

  function DocumentStart(d: Document): (r: nat) { if d.bom then 3 else 0 }

  function DocumentText(d: Document): (r: bytes) {
    (if d.bom then BOM else []) +
    (TriviaText(d.before) + (TreeText(d.v) + (TriviaText(d.after) + TrailerText(d.trailer))))
  }

  function DocumentEvents(d: Document): (r: seq<Event>)
    requires DocumentOk(d)
  {
    Flatten(d.v, DocumentStart(d) + |TriviaText(d.before)|)
  }
}
