/** Every text of the grammar is read, and reported as the flattening of its tree. */
module JsonCompleteness {
  import opened Bytes
  import opened Wrappers
  import opened Sequences
  import opened JsonEvents
  import opened JsonGrammar
  import opened JsonReading
  import Utf8

  // ----- trivia -----

  /** No white space or comment can start here. */
  predicate Solid(text: bytes, pos: nat) {
    pos <= |text| && (pos < |text| ==> !IsSpace(text[pos]) && text[pos] != SLASH)
  }

  lemma {:induction false} LineEndIs(text: bytes, pos: nat, end: nat)
    requires pos <= end <= |text| && NoLineBreak(text[pos..end])
    requires end < |text| ==> IsLineBreak(text[end])
    ensures LineEnd(text, pos) == end
    decreases end - pos
  {
    if pos < end {
      assert text[pos..end][0] == text[pos];
      assert text[pos + 1..end] == text[pos..end][1..];
      LineEndIs(text, pos + 1, end);
    }
  }

  lemma {:induction false} BlockEndIs(text: bytes, pos: nat, end: nat)
    requires pos <= end && end + 1 < |text| && text[end] == STAR && text[end + 1] == SLASH
    requires !HasClose(text[pos..end])
    ensures BlockEnd(text, pos) == Some(end + 2)
    decreases end - pos
  {
    if pos < end {
      var s := text[pos..end];
      assert !(text[pos] == STAR && text[pos + 1] == SLASH) by {
        if pos + 1 < end {
          assert s[0] == text[pos] && s[1] == text[pos + 1];
        }
      }
      var rest := text[pos + 1..end];
      forall k | 0 <= k < |rest| - 1 ensures !(rest[k] == STAR && rest[k + 1] == SLASH) {
        assert rest[k] == s[k + 1] && rest[k + 1] == s[k + 2];
      }
      BlockEndIs(text, pos + 1, end);
    }
  }

  /** Two bytes, a body and an end, where they stand. */
  lemma CommentParts(text: bytes, pos: nat, a: byte, b: byte, body: bytes, end: bytes)
    requires Occurs(text, pos, [a, b] + (body + end)) && end != []
    ensures ByteAt(text, pos, a) && ByteAt(text, pos + 1, b)
    ensures pos + 2 + |body| + |end| <= |text| && text[pos + 2..pos + 2 + |body|] == body
    ensures Occurs(text, pos + 2 + |body|, end)
  {
    hide Occurs;
    OccursConcat(text, pos, [a, b], body + end);
    OccursConcat(text, pos + 2, body, end);
    OccursAt(text, pos, [a, b], 0);
    OccursAt(text, pos, [a, b], 1);
    OccursAt(text, pos + 2 + |body|, end, |end| - 1);
    SliceOccurs(text, pos + 2, body);
  }

  lemma LineSkips(text: bytes, pos: nat, body: bytes, eol: byte)
    requires NoLineBreak(body) && IsLineBreak(eol) && Occurs(text, pos, ItemText(Line(body, eol)))
    ensures pos + 3 + |body| <= |text| && SkipTrivia(text, pos) == SkipTrivia(text, pos + 3 + |body|)
  {
    hide Occurs, NoLineBreak, LineEnd, BlockEnd;
    var end := pos + 2 + |body|;
    Associates([SLASH, SLASH], body, [eol]);
    CommentParts(text, pos, SLASH, SLASH, body, [eol]);
    OccursAt(text, end, [eol], 0);
    LineEndIs(text, pos + 2, end);
    assert SkipTrivia(text, pos) == SkipTrivia(text, end);
  }

  lemma BlockSkips(text: bytes, pos: nat, body: bytes)
    requires !HasClose(body) && Occurs(text, pos, ItemText(Block(body)))
    ensures pos + 4 + |body| <= |text| && SkipTrivia(text, pos) == SkipTrivia(text, pos + 4 + |body|)
  {
    hide Occurs, HasClose, LineEnd, BlockEnd;
    var end := pos + 2 + |body|;
    Associates([SLASH, STAR], body, [STAR, SLASH]);
    CommentParts(text, pos, SLASH, STAR, body, [STAR, SLASH]);
    OccursAt(text, end, [STAR, SLASH], 0);
    OccursAt(text, end, [STAR, SLASH], 1);
    BlockEndIs(text, pos + 2, end);
  }

  lemma ItemSkips(text: bytes, pos: nat, i: TriviaItem)
    requires ItemOk(i) && Occurs(text, pos, ItemText(i))
    ensures SkipTrivia(text, pos) == SkipTrivia(text, pos + |ItemText(i)|)
  {
    hide Occurs, HasClose, NoLineBreak;
    match i
    case Space(b) => OccursAt(text, pos, [b], 0);
    case Line(body, eol) => LineSkips(text, pos, body, eol);
    case Block(body) => BlockSkips(text, pos, body);
  }

  lemma {:induction false} TriviaSkips(text: bytes, pos: nat, t: Trivia)
    requires TriviaOk(t) && Occurs(text, pos, TriviaText(t))
    ensures SkipTrivia(text, pos) == SkipTrivia(text, pos + |TriviaText(t)|)
    decreases |t|
  {
    hide Occurs, SkipTrivia, ItemText, ItemOk;
    if t != [] {
      OccursConcat(text, pos, ItemText(t[0]), TriviaText(t[1..]));
      ItemSkips(text, pos, t[0]);
      TriviaSkips(text, pos + |ItemText(t[0])|, t[1..]);
    }
  }

  lemma TriviaThenSolid(text: bytes, pos: nat, t: Trivia)
    requires TriviaOk(t) && Occurs(text, pos, TriviaText(t)) && Solid(text, pos + |TriviaText(t)|)
    ensures SkipTrivia(text, pos) == Good(pos + |TriviaText(t)|, ())
  {
    hide Occurs;
    TriviaSkips(text, pos, t);
  }

  // ----- strings -----

  lemma Hex4Reads(text: bytes, pos: nat, digits: bytes)
    requires IsHex4(digits) && Occurs(text, pos, digits)
    ensures Hex4(text, pos) == Good(pos + 4, Hex4Value(digits))
  {
    forall k | 0 <= k < 4 ensures text[pos + k] == digits[k] {
      OccursAt(text, pos, digits, k);
    }
    var v0 := HexValue(digits[0]);
    var v1 := v0 * 16 + HexValue(digits[1]);
    var v2 := v1 * 16 + HexValue(digits[2]);
    assert HexRun(text, pos + 2, 2, v1) == Good(pos + 4, v2 * 16 + HexValue(digits[3])) by {
      assert HexRun(text, pos + 3, 1, v2) == HexRun(text, pos + 4, 0, v2 * 16 + HexValue(digits[3]));
    }
    assert HexRun(text, pos + 1, 3, v0) == HexRun(text, pos + 2, 2, v1);
  }

  lemma PlainReads(text: bytes, pos: nat, c: nat)
    requires PieceOk(Plain(c)) && Occurs(text, pos, Utf8.Encode(c))
    ensures pos < |text| && text[pos] != QUOTE
    ensures StringPiece(text, pos) == Good(pos + |Utf8.Encode(c)|, Utf8.Encode(c))
  {
    hide Occurs, Utf8.DecodeOne;
    OccursAt(text, pos, Utf8.Encode(c), 0);
    if c > 0x7F {
      Utf8.DecodeUndoesEncode(text, pos, c);
      SliceOccurs(text, pos, Utf8.Encode(c));
    }
  }

  lemma EscapeStarts(text: bytes, pos: nat, letter: byte, rest: bytes)
    requires Occurs(text, pos, [BACKSLASH, letter] + rest)
    ensures pos + 1 < |text| && text[pos] == BACKSLASH && text[pos + 1] == letter && Occurs(text, pos + 2, rest)
  {
    hide Occurs;
    OccursConcat(text, pos, [BACKSLASH, letter], rest);
    OccursAt(text, pos, [BACKSLASH, letter], 0);
    OccursAt(text, pos, [BACKSLASH, letter], 1);
  }

  lemma UnitReads(text: bytes, pos: nat, digits: bytes)
    requires PieceOk(Unit(digits)) && Occurs(text, pos, [BACKSLASH, LETTER_U] + digits)
    ensures pos < |text| && text[pos] == BACKSLASH
    ensures StringPiece(text, pos) == Good(pos + 6, Utf8.Encode(Hex4Value(digits)))
  {
    hide Occurs, Utf8.Encode, Hex4, Hex4Value;
    EscapeStarts(text, pos, LETTER_U, digits);
    Hex4Reads(text, pos + 2, digits);
  }

  lemma PairReads(text: bytes, pos: nat, high: bytes, low: bytes)
    requires PieceOk(Pair(high, low)) && Occurs(text, pos, [BACKSLASH, LETTER_U] + high + [BACKSLASH, LETTER_U] + low)
    ensures pos < |text| && text[pos] == BACKSLASH
    ensures StringPiece(text, pos) == Good(pos + 12, Utf8.Encode(PairValue(Hex4Value(high), Hex4Value(low))))
  {
    hide Occurs, Utf8.Encode, Hex4, Hex4Value, PairValue;
    assert [BACKSLASH, LETTER_U] + high + [BACKSLASH, LETTER_U] + low
           == [BACKSLASH, LETTER_U] + (high + ([BACKSLASH, LETTER_U] + low));
    EscapeStarts(text, pos, LETTER_U, high + ([BACKSLASH, LETTER_U] + low));
    OccursConcat(text, pos + 2, high, [BACKSLASH, LETTER_U] + low);
    EscapeStarts(text, pos + 6, LETTER_U, low);
    Hex4Reads(text, pos + 2, high);
    Hex4Reads(text, pos + 8, low);
  }

  lemma PieceReads(text: bytes, pos: nat, p: Piece)
    requires PieceOk(p) && Occurs(text, pos, PieceText(p))
    ensures pos < |text| && text[pos] != QUOTE
    ensures StringPiece(text, pos) == Good(pos + |PieceText(p)|, PieceValue(p))
  {
    hide Occurs, StringPiece, Utf8.Encode;
    match p
    case Plain(c) =>
      PlainReads(text, pos, c);
    case Short(letter) =>
      ShortReads(text, pos, letter);
    case Unit(digits) =>
      UnitReads(text, pos, digits);
    case Pair(high, low) =>
      PairReads(text, pos, high, low);
  }

  lemma ShortReads(text: bytes, pos: nat, letter: byte)
    requires Unescape(letter).Some? && Occurs(text, pos, [BACKSLASH, letter])
    ensures pos < |text| && text[pos] == BACKSLASH
    ensures StringPiece(text, pos) == Good(pos + 2, [Unescape(letter).value])
  {
    hide Occurs;
    OccursAt(text, pos, [BACKSLASH, letter], 0);
    OccursAt(text, pos, [BACKSLASH, letter], 1);
  }

  lemma {:induction false} StringReads(text: bytes, pos: nat, ps: seq<Piece>)
    requires PiecesOk(ps) && Occurs(text, pos, PiecesText(ps)) && ByteAt(text, pos + |PiecesText(ps)|, QUOTE)
    ensures StringRest(text, pos) == Good(pos + |PiecesText(ps)| + 1, PiecesValue(ps))
    decreases |ps|
  {
    hide Occurs, StringPiece, PieceText, PieceOk, PieceValue;
    if ps != [] {
      OccursConcat(text, pos, PieceText(ps[0]), PiecesText(ps[1..]));
      PieceReads(text, pos, ps[0]);
      StringReads(text, pos + |PieceText(ps[0])|, ps[1..]);
    }
  }

  lemma QuotedReads(text: bytes, pos: nat, ps: seq<Piece>)
    requires PiecesOk(ps) && Occurs(text, pos, QuotedText(ps))
    ensures ByteAt(text, pos, QUOTE)
    ensures StringRest(text, pos + 1) == Good(pos + |QuotedText(ps)|, PiecesValue(ps))
  {
    hide Occurs;
    OccursConcat(text, pos, [QUOTE], PiecesText(ps) + [QUOTE]);
    OccursConcat(text, pos + 1, PiecesText(ps), [QUOTE]);
    OccursAt(text, pos, [QUOTE], 0);
    OccursAt(text, pos + 1 + |PiecesText(ps)|, [QUOTE], 0);
    StringReads(text, pos + 1, ps);
  }

  // ----- numbers -----

  /** No byte that could continue a number stands here. */
  predicate NumberStops(text: bytes, pos: nat) {
    pos <= |text| && (pos < |text| ==> !IsDigit(text[pos]) && text[pos] != DOT && !IsExponentMark(text[pos]))
  }

  lemma {:induction false} DigitsEndIs(text: bytes, pos: nat, digits: bytes)
    requires AllDigits(digits) && Occurs(text, pos, digits) && !DigitAt(text, pos + |digits|)
    ensures DigitsEnd(text, pos) == pos + |digits|
    decreases |digits|
  {
    hide Occurs;
    if digits != [] {
      OccursAt(text, pos, digits, 0);
      assert digits == [digits[0]] + digits[1..];
      OccursConcat(text, pos, [digits[0]], digits[1..]);
      DigitsEndIs(text, pos + 1, digits[1..]);
    }
  }

  lemma WholeReads(text: bytes, begin: nat, pos: nat, whole: bytes)
    requires begin <= pos && begin < |text| && whole != [] && AllDigits(whole) && (whole[0] == ZERO ==> |whole| == 1)
    requires Occurs(text, pos, whole) && !DigitAt(text, pos + |whole|)
    ensures Whole(text, begin, pos) == Good(pos + |whole|, ())
  {
    hide Occurs;
    OccursAt(text, pos, whole, 0);
    DigitsEndIs(text, pos, whole);
  }

  lemma FractionReads(text: bytes, begin: nat, pos: nat, n: Numeral)
    requires begin <= pos && begin < |text| && NumeralOk(n) && Occurs(text, pos, FractionText(n))
    requires var end := pos + |FractionText(n)|; !DigitAt(text, end) && !ByteAt(text, end, DOT)
    ensures Fraction(text, begin, pos) == Good(pos + |FractionText(n)|, n.fraction.None?)
  {
    hide Occurs;
    if n.fraction.Some? {
      var digits := n.fraction.value;
      OccursConcat(text, pos, [DOT], digits);
      OccursAt(text, pos, [DOT], 0);
      OccursAt(text, pos + 1, digits, 0);
      DigitsEndIs(text, pos + 1, digits);
    }
  }

  /** The three parts of an exponent, where they stand. */
  lemma ExponentParts(text: bytes, pos: nat, e: Exponent, sign: bytes)
    requires sign == (if e.sign.Some? then [e.sign.value] else []) && e.digits != []
    requires Occurs(text, pos, [e.mark] + (sign + e.digits))
    ensures pos + 1 + |sign| + |e.digits| <= |text| && text[pos] == e.mark
    ensures e.sign.Some? ==> text[pos + 1] == e.sign.value
    ensures Occurs(text, pos + 1 + |sign|, e.digits) && text[pos + 1 + |sign|] == e.digits[0]
  {
    hide Occurs;
    OccursConcat(text, pos, [e.mark], sign + e.digits);
    OccursConcat(text, pos + 1, sign, e.digits);
    OccursAt(text, pos, [e.mark], 0);
    OccursAt(text, pos + 1 + |sign|, e.digits, 0);
    OccursAt(text, pos + 1 + |sign|, e.digits, |e.digits| - 1);
    if e.sign.Some? {
      OccursAt(text, pos + 1, sign, 0);
    }
  }

  lemma ExponentReads(text: bytes, begin: nat, pos: nat, n: Numeral)
    requires begin <= pos && begin < |text| && NumeralOk(n) && Occurs(text, pos, ExponentText(n))
    requires NumberStops(text, pos + |ExponentText(n)|)
    ensures ExponentPart(text, begin, pos) == Good(pos + |ExponentText(n)|, n.exponent.None?)
  {
    hide Occurs, DigitsEnd;
    if n.exponent.Some? {
      var e := n.exponent.value;
      var sign := if e.sign.Some? then [e.sign.value] else [];
      ExponentParts(text, pos, e, sign);
      DigitsEndIs(text, pos + 1 + |sign|, e.digits);
      assert AfterSign(text, pos + 1) == pos + 1 + |sign|;
    }
  }

  /** In front of an exponent, or of what follows the number, neither a digit nor a dot stands. */
  lemma ExponentStarts(text: bytes, pos: nat, n: Numeral)
    requires NumeralOk(n) && Occurs(text, pos, ExponentText(n)) && NumberStops(text, pos + |ExponentText(n)|)
    ensures !DigitAt(text, pos) && !ByteAt(text, pos, DOT)
  {
    hide Occurs;
    if n.exponent.Some? {
      OccursAt(text, pos, ExponentText(n), 0);
    }
  }

  lemma FractionStarts(text: bytes, pos: nat, n: Numeral)
    requires Occurs(text, pos, FractionText(n)) && !DigitAt(text, pos + |FractionText(n)|)
    ensures !DigitAt(text, pos)
  {
    hide Occurs;
    if n.fraction.Some? {
      OccursAt(text, pos, FractionText(n), 0);
    }
  }

  /** Sign, whole part, fraction and exponent, where they stand. */
  lemma NumeralParts(text: bytes, pos: nat, n: Numeral)
    requires NumeralOk(n) && Occurs(text, pos, NumeralText(n))
    ensures var p := pos + |SignText(n)|;
            && Occurs(text, pos, SignText(n)) && Occurs(text, p, n.whole)
            && Occurs(text, p + |n.whole|, FractionText(n))
            && Occurs(text, p + |n.whole| + |FractionText(n)|, ExponentText(n))
    ensures |NumeralText(n)| == |SignText(n)| + |n.whole| + |FractionText(n)| + |ExponentText(n)|
  {
    hide Occurs, SignText, FractionText, ExponentText, AllDigits;
    var p := pos + |SignText(n)|;
    OccursConcat(text, pos, SignText(n), n.whole + (FractionText(n) + ExponentText(n)));
    OccursConcat(text, p, n.whole, FractionText(n) + ExponentText(n));
    OccursConcat(text, p + |n.whole|, FractionText(n), ExponentText(n));
  }

  /** The first bytes of a numeral: a minus or not, and a digit. */
  lemma SignReads(text: bytes, pos: nat, n: Numeral)
    requires NumeralOk(n) && Occurs(text, pos, SignText(n)) && Occurs(text, pos + |SignText(n)|, n.whole)
    ensures var p := pos + |SignText(n)|;
            pos <= p < |text| && IsDigit(text[p]) && p == if text[pos] == MINUS then pos + 1 else pos
  {
    hide Occurs;
    OccursAt(text, pos + |SignText(n)|, n.whole, 0);
    if n.minus {
      OccursAt(text, pos, SignText(n), 0);
    }
  }

  lemma NumeralReads(text: bytes, pos: nat, n: Numeral)
    requires NumeralOk(n) && Occurs(text, pos, NumeralText(n)) && NumberStops(text, pos + |NumeralText(n)|)
    ensures pos < |text| && (text[pos] == MINUS || IsDigit(text[pos]))
    ensures NumberToken(text, pos) == Good(pos + |NumeralText(n)|, n.fraction.None? && n.exponent.None?)
  {
    hide Occurs, SignText, FractionText, ExponentText, NumeralText, AllDigits, NumberStops, DigitAt, ByteAt;
    hide Whole, Fraction, ExponentPart;
    NumeralParts(text, pos, n);
    SignReads(text, pos, n);
    var p := pos + |SignText(n)|;
    var q := p + |n.whole|;
    var s := q + |FractionText(n)|;
    ExponentStarts(text, s, n);
    FractionStarts(text, q, n);
    WholeReads(text, pos, p, n.whole);
    FractionReads(text, pos, q, n);
    ExponentReads(text, pos, s, n);
  }

  // ----- values -----

  lemma TreeStartsSolid(t: Tree)
    requires TreeOk(t)
    ensures var s := TreeText(t); s != [] && !IsSpace(s[0]) && s[0] != SLASH
  {
    match t
    case Figure(n) =>
      var s := NumeralText(n);
      if n.minus {
        assert s[0] == MINUS;
      } else {
        assert s[0] == n.whole[0];
      }
    case _ =>
  }

  /** After a value come trivia and then a separator, a closing bracket or the end. */
  predicate Closes(text: bytes, pos: nat) {
    pos == |text|
        || (pos < |text|
           && (text[pos] == COMMA || text[pos] == CLOSE_BRACKET || text[pos] == CLOSE_BRACE || text[pos] == SLASH))
  }

  lemma StopsBeforeTrivia(text: bytes, pos: nat, t: Trivia)
    requires TriviaOk(t) && Occurs(text, pos, TriviaText(t)) && Closes(text, pos + |TriviaText(t)|)
    ensures NumberStops(text, pos)
  {
    hide Occurs;
    if t != [] {
      OccursConcat(text, pos, ItemText(t[0]), TriviaText(t[1..]));
      OccursAt(text, pos, ItemText(t[0]), 0);
    }
  }

  lemma {:induction false} ScalarReads(text: bytes, p: nat, t: Tree)
    requires TreeOk(t) && Depth(t) == 0 && Occurs(text, p, TreeText(t)) && NumberStops(text, p + |TreeText(t)|)
    ensures p < |text| && text[p] != OPEN_BRACE && text[p] != OPEN_BRACKET
    ensures ReadScalar(text, p) == Good(p + |TreeText(t)|, Flatten(t, p))
  {
    hide Occurs, StringRest, NumberToken, PiecesText, NumeralText, PiecesValue, NumberStops, NumeralOk, PiecesOk;
    match t
    case Quoted(pieces) =>
      QuotedReads(text, p, pieces);
    case Figure(n) =>
      NumeralReads(text, p, n);
      SliceOccurs(text, p, NumeralText(n));
    case True => OccursAt(text, p, TRUE, 0);
    case False => OccursAt(text, p, FALSE, 0);
    case Nothing => OccursAt(text, p, NULL, 0);
  }

  lemma {:induction false} ValueReads(text: bytes, pos: nat, p: nat, depth: nat, t: Tree)
    requires TreeOk(t) && Depth(t) + depth <= MAX_DEPTH
    requires pos <= |text| && SkipTrivia(text, pos) == Good(p, ())
    requires Occurs(text, p, TreeText(t)) && NumberStops(text, p + |TreeText(t)|)
    ensures ReadValue(text, pos, depth) == Good(p + |TreeText(t)|, Flatten(t, p))
    decreases t, 1
  {
    hide Occurs;
    if t.Array? || t.Object? || t.EmptyArray? || t.EmptyObject? {
      ContainerReads(text, p, depth, t);
    } else {
      ScalarReads(text, p, t);
    }
  }

  lemma {:induction false} ContainerReads(text: bytes, p: nat, depth: nat, t: Tree)
    requires TreeOk(t) && Depth(t) + depth <= MAX_DEPTH && Occurs(text, p, TreeText(t))
    requires t.Array? || t.Object? || t.EmptyArray? || t.EmptyObject?
    ensures p < |text|
    ensures text[p] == if t.Array? || t.EmptyArray? then OPEN_BRACKET else OPEN_BRACE
    ensures (if t.Array? || t.EmptyArray? then ReadArray(text, p, depth) else ReadObject(text, p, depth))
         == Good(p + |TreeText(t)|, Flatten(t, p))
    decreases t, 0
  {
    hide Occurs, SkipTrivia, TriviaText, TriviaOk, ElementsText, MembersText, ReadElements, ReadMembers;
    hide FlattenElements, FlattenMembers;
    match t
    case EmptyArray(inner) =>
      OccursAt(text, p, TreeText(t), 0);
      EmptyReads(text, p, inner, OPEN_BRACKET, CLOSE_BRACKET);
    case EmptyObject(inner) =>
      OccursAt(text, p, TreeText(t), 0);
      EmptyReads(text, p, inner, OPEN_BRACE, CLOSE_BRACE);
    case Array(e) =>
      ArrayReads(text, p, depth, e);
    case Object(m) =>
      ObjectReads(text, p, depth, m);
  }

  lemma {:induction false} ArrayReads(text: bytes, p: nat, depth: nat, e: Elements)
    requires ElementsOk(e) && 1 + ElementsDepth(e) + depth <= MAX_DEPTH
    requires Occurs(text, p, [OPEN_BRACKET] + (ElementsText(e) + [CLOSE_BRACKET]))
    ensures ByteAt(text, p, OPEN_BRACKET)
    ensures ReadArray(text, p, depth)
            == Good(p + |ElementsText(e)| + 2, [Location(p, 1), ArrayBegin] + FlattenElements(e, p + 1) + [ArrayEnd])
    decreases e, 2
  {
    hide Occurs, SkipTrivia, TriviaText, TriviaOk, ElementsText, ReadElements, FlattenElements, TreeText, TreeOk;
    OccursConcat(text, p, [OPEN_BRACKET], ElementsText(e) + [CLOSE_BRACKET]);
    OccursConcat(text, p + 1, ElementsText(e), [CLOSE_BRACKET]);
    OccursAt(text, p, [OPEN_BRACKET], 0);
    OccursAt(text, p + 1 + |ElementsText(e)|, [CLOSE_BRACKET], 0);
    ElementsParts(text, p + 1, e);
    var q := p + 1 + |TriviaText(e.before)|;
    TreeStartsSolid(e.v);
    OccursAt(text, q, TreeText(e.v), 0);
    TreeStartsOpen(e.v);
    ElementsRead(text, q, p + 1, depth, e);
  }

  lemma {:induction false} ObjectReads(text: bytes, p: nat, depth: nat, m: Members)
    requires MembersOk(m) && 1 + MembersDepth(m) + depth <= MAX_DEPTH
    requires Occurs(text, p, [OPEN_BRACE] + (MembersText(m) + [CLOSE_BRACE]))
    ensures ByteAt(text, p, OPEN_BRACE)
    ensures ReadObject(text, p, depth)
            == Good(p + |MembersText(m)| + 2, [Location(p, 1), ObjectBegin] + FlattenMembers(m, p + 1) + [ObjectEnd])
    decreases m, 2
  {
    hide Occurs, SkipTrivia, TriviaText, TriviaOk, MembersText, ReadMembers, FlattenMembers, TreeText, TreeOk;
    OccursConcat(text, p, [OPEN_BRACE], MembersText(m) + [CLOSE_BRACE]);
    OccursConcat(text, p + 1, MembersText(m), [CLOSE_BRACE]);
    OccursAt(text, p, [OPEN_BRACE], 0);
    OccursAt(text, p + 1 + |MembersText(m)|, [CLOSE_BRACE], 0);
    MembersParts(text, p + 1, m);
    OccursAt(text, MemberKeyAt(m, p + 1), QuotedText(m.key), 0);
    MembersRead(text, MemberKeyAt(m, p + 1), p + 1, depth, m);
  }

  lemma TreeStartsOpen(t: Tree)
    requires TreeOk(t)
    ensures TreeText(t) != [] && TreeText(t)[0] != CLOSE_BRACKET
  {
    match t
    case Figure(n) => assert NumeralText(n)[0] == if n.minus then MINUS else n.whole[0];
    case _ =>
  }

  lemma EmptyReads(text: bytes, p: nat, inner: Trivia, open: byte, close: byte)
    requires TriviaOk(inner) && Occurs(text, p, [open] + (TriviaText(inner) + [close])) && !IsSpace(close)
             && close != SLASH
    ensures p + 1 <= |text| && SkipTrivia(text, p + 1) == Good(p + 1 + |TriviaText(inner)|, ())
    ensures ByteAt(text, p + 1 + |TriviaText(inner)|, close)
  {
    hide Occurs, TriviaText, TriviaOk, SkipTrivia;
    OccursConcat(text, p, [open], TriviaText(inner) + [close]);
    OccursConcat(text, p + 1, TriviaText(inner), [close]);
    OccursAt(text, p + 1 + |TriviaText(inner)|, [close], 0);
    TriviaThenSolid(text, p + 1, inner);
  }

  /** Trivia in front of something solid: skipped from where they start, and nothing left to skip after. */
  lemma TriviaBefore(text: bytes, at: nat, t: Trivia, s: bytes)
    requires TriviaOk(t) && Occurs(text, at, TriviaText(t)) && Occurs(text, at + |TriviaText(t)|, s)
    requires s != [] && !IsSpace(s[0]) && s[0] != SLASH
    ensures var p := at + |TriviaText(t)|;
            p < |text| && SkipTrivia(text, at) == Good(p, ()) && SkipTrivia(text, p) == Good(p, ())
  {
    hide Occurs;
    OccursAt(text, at + |TriviaText(t)|, s, 0);
    TriviaThenSolid(text, at, t);
  }

  /** Where the parts of a list of elements stand. */
  lemma ElementsParts(text: bytes, at: nat, e: Elements)
    requires ElementsOk(e) && Occurs(text, at, ElementsText(e))
    ensures var p := at + |TriviaText(e.before)|; var q := p + |TreeText(e.v)|; var s := q + |TriviaText(e.after)|;
            && Occurs(text, p, TreeText(e.v)) && Occurs(text, q, TriviaText(e.after))
               && Occurs(text, s, ElementsTail(e))
            && p < |text| && SkipTrivia(text, at) == Good(p, ()) && SkipTrivia(text, p) == Good(p, ())
            && s + |ElementsTail(e)| == at + |ElementsText(e)|
            && (e.rest.Some? ==> ByteAt(text, s, COMMA) && Occurs(text, s + 1, ElementsText(e.rest.value)))
  {
    hide Occurs, SkipTrivia, TreeText, TriviaText, TreeOk, TriviaOk;
    var p := at + |TriviaText(e.before)|;
    var q := p + |TreeText(e.v)|;
    OccursConcat(text, at, TriviaText(e.before), TreeText(e.v) + (TriviaText(e.after) + ElementsTail(e)));
    OccursConcat(text, p, TreeText(e.v), TriviaText(e.after) + ElementsTail(e));
    OccursConcat(text, q, TriviaText(e.after), ElementsTail(e));
    TreeStartsSolid(e.v);
    TriviaBefore(text, at, e.before, TreeText(e.v));
    if e.rest.Some? {
      var s := q + |TriviaText(e.after)|;
      OccursConcat(text, s, [COMMA], ElementsText(e.rest.value));
      OccursAt(text, s, [COMMA], 0);
    }
  }

  /** One element, up to the separator or bracket behind it. */
  lemma {:induction false} ElementReads(text: bytes, pos: nat, at: nat, depth: nat, e: Elements)
    requires ElementsOk(e) && ElementsDepth(e) + depth + 1 <= MAX_DEPTH
    requires Occurs(text, at, ElementsText(e)) && ByteAt(text, at + |ElementsText(e)|, CLOSE_BRACKET)
    requires pos <= |text| && SkipTrivia(text, pos) == Good(at + |TriviaText(e.before)|, ())
    ensures var p := at + |TriviaText(e.before)|; var s := p + |TreeText(e.v)| + |TriviaText(e.after)|;
            ReadElement(text, pos, depth) == Good(s, Flatten(e.v, p))
    decreases e, 0
  {
    hide Occurs, SkipTrivia, TreeText, TriviaText, TreeOk, TriviaOk, ReadValue, Flatten, Depth, ElementsText;
    hide NumberStops;
    ElementsParts(text, at, e);
    var p := at + |TriviaText(e.before)|;
    var q := p + |TreeText(e.v)|;
    StopsBeforeTrivia(text, q, e.after);
    ValueReads(text, pos, p, depth + 1, e.v);
    TriviaThenSolid(text, q, e.after);
  }

  lemma ReadElementsLast(text: bytes, pos: nat, depth: nat, s: nat, events: Events)
    requires pos <= |text| && ReadElement(text, pos, depth) == Good(s, events) && ByteAt(text, s, CLOSE_BRACKET)
    ensures ReadElements(text, pos, depth) == Good(s + 1, events)
  {
    hide ReadElement;
  }

  lemma ReadElementsMore(text: bytes, pos: nat, depth: nat, s: nat, events: Events, end: nat, more: Events)
    requires pos <= |text| && ReadElement(text, pos, depth) == Good(s, events) && ByteAt(text, s, COMMA)
    requires ReadElements(text, s + 1, depth) == Good(end, more)
    ensures ReadElements(text, pos, depth) == Good(end, events + more)
  {
    hide ReadElement;
  }

  lemma {:induction false} ElementsRead(text: bytes, pos: nat, at: nat, depth: nat, e: Elements)
    requires ElementsOk(e) && ElementsDepth(e) + depth + 1 <= MAX_DEPTH
    requires Occurs(text, at, ElementsText(e)) && ByteAt(text, at + |ElementsText(e)|, CLOSE_BRACKET)
    requires pos <= |text| && SkipTrivia(text, pos) == Good(at + |TriviaText(e.before)|, ())
    ensures ReadElements(text, pos, depth) == Good(at + |ElementsText(e)| + 1, FlattenElements(e, at))
    decreases e, 1
  {
    hide Occurs, SkipTrivia, TreeText, TriviaText, TreeOk, TriviaOk, ReadElement, ReadElements, Flatten, Depth;
    hide ElementsText;
    ElementsParts(text, at, e);
    ElementReads(text, pos, at, depth, e);
    var p := at + |TriviaText(e.before)|;
    var s := p + |TreeText(e.v)| + |TriviaText(e.after)|;
    var events := Flatten(e.v, p);
    if e.rest.Some? {
      var rest := e.rest.value;
      ElementsParts(text, s + 1, rest);
      ElementsRead(text, s + 1, s + 1, depth, rest);
      ReadElementsMore(text, pos, depth, s, events, s + 1 + |ElementsText(rest)| + 1, FlattenElements(rest, s + 1));
    } else {
      NothingAdded(events);
      ReadElementsLast(text, pos, depth, s, events);
    }
  }

  /** Where the parts of a list of members stand: up to the colon, and from there on. */
  lemma MembersParts(text: bytes, at: nat, m: Members)
    requires MembersOk(m) && Occurs(text, at, MembersText(m))
    ensures var k := MemberKeyAt(m, at); var c := k + |QuotedText(m.key)| + |TriviaText(m.mid)|;
            && Occurs(text, k, QuotedText(m.key)) && Occurs(text, k + |QuotedText(m.key)|, TriviaText(m.mid))
            && k < |text| && SkipTrivia(text, at) == Good(k, ()) && SkipTrivia(text, k) == Good(k, ())
            && ByteAt(text, c, COLON)
            && Occurs(text, c + 1, TriviaText(m.lead) + (TreeText(m.v) + (TriviaText(m.after) + MembersTail(m))))
            && MemberValueAt(m, at) == c + 1 + |TriviaText(m.lead)|
  {
    hide Occurs, SkipTrivia, TreeText, TriviaText, TreeOk, TriviaOk, PiecesOk, PiecesText;
    var k := MemberKeyAt(m, at);
    var s := k + |QuotedText(m.key)|;
    var c := s + |TriviaText(m.mid)|;
    var rest := TriviaText(m.lead) + (TreeText(m.v) + (TriviaText(m.after) + MembersTail(m)));
    OccursConcat(text, at, TriviaText(m.before), QuotedText(m.key) + (TriviaText(m.mid) + ([COLON] + rest)));
    OccursConcat(text, k, QuotedText(m.key), TriviaText(m.mid) + ([COLON] + rest));
    OccursConcat(text, s, TriviaText(m.mid), [COLON] + rest);
    OccursConcat(text, c, [COLON], rest);
    OccursAt(text, c, [COLON], 0);
    TriviaBefore(text, at, m.before, QuotedText(m.key));
  }

  lemma MemberValueParts(text: bytes, from: nat, m: Members)
    requires MembersOk(m)
    requires Occurs(text, from, TriviaText(m.lead) + (TreeText(m.v) + (TriviaText(m.after) + MembersTail(m))))
    ensures var p := from + |TriviaText(m.lead)|; var q := p + |TreeText(m.v)|; var s := q + |TriviaText(m.after)|;
            && Occurs(text, p, TreeText(m.v)) && Occurs(text, q, TriviaText(m.after)) && Occurs(text, s, MembersTail(m))
            && SkipTrivia(text, from) == Good(p, ())
            && (m.rest.Some? ==> ByteAt(text, s, COMMA) && Occurs(text, s + 1, MembersText(m.rest.value)))
  {
    hide Occurs, SkipTrivia, TreeText, TriviaText, TreeOk, TriviaOk, QuotedText, PiecesOk, MemberValueAt;
    var p := from + |TriviaText(m.lead)|;
    var q := p + |TreeText(m.v)|;
    OccursConcat(text, from, TriviaText(m.lead), TreeText(m.v) + (TriviaText(m.after) + MembersTail(m)));
    OccursConcat(text, p, TreeText(m.v), TriviaText(m.after) + MembersTail(m));
    OccursConcat(text, q, TriviaText(m.after), MembersTail(m));
    TreeStartsSolid(m.v);
    TriviaBefore(text, from, m.lead, TreeText(m.v));
    if m.rest.Some? {
      var s := q + |TriviaText(m.after)|;
      OccursConcat(text, s, [COMMA], MembersText(m.rest.value));
      OccursAt(text, s, [COMMA], 0);
    }
  }

  lemma KeyReads(text: bytes, pos: nat, at: nat, m: Members)
    requires MembersOk(m) && Occurs(text, at, MembersText(m))
    requires pos <= |text| && SkipTrivia(text, pos) == Good(MemberKeyAt(m, at), ())
    ensures var k := MemberKeyAt(m, at);
            ReadKey(text, pos) == Good(k + |QuotedText(m.key)| + |TriviaText(m.mid)| + 1,
                                       [Location(k, |QuotedText(m.key)|), Key(PiecesValue(m.key))])
  {
    hide Occurs, SkipTrivia, TreeText, TriviaText, TreeOk, TriviaOk, StringRest, PiecesText, PiecesOk, MembersText;
    MembersParts(text, at, m);
    var k := MemberKeyAt(m, at);
    QuotedReads(text, k, m.key);
    TriviaThenSolid(text, k + |QuotedText(m.key)|, m.mid);
  }

  /** One member, up to the separator or bracket behind it. */
  lemma {:induction false} MemberReads(text: bytes, pos: nat, at: nat, depth: nat, m: Members)
    requires MembersOk(m) && MembersDepth(m) + depth + 1 <= MAX_DEPTH
    requires Occurs(text, at, MembersText(m)) && ByteAt(text, at + |MembersText(m)|, CLOSE_BRACE)
    requires pos <= |text| && SkipTrivia(text, pos) == Good(MemberKeyAt(m, at), ())
    ensures var p := MemberValueAt(m, at); var s := p + |TreeText(m.v)| + |TriviaText(m.after)|;
            && ReadMember(text, pos, depth)
            == Good(s, [Location(MemberKeyAt(m, at), |QuotedText(m.key)|), Key(PiecesValue(m.key))] + Flatten(m.v, p))
            && (m.rest.Some? ==> ByteAt(text, s, COMMA) && Occurs(text, s + 1, MembersText(m.rest.value)))
            && s + |MembersTail(m)| == at + |MembersText(m)|
    decreases m, 0
  {
    hide Occurs, SkipTrivia, TreeText, TriviaText, TreeOk, TriviaOk, ReadValue, ReadKey, Flatten, Depth, QuotedText;
    hide PiecesOk, PiecesValue, NumberStops;
    MembersParts(text, at, m);
    KeyReads(text, pos, at, m);
    var from := ReadKey(text, pos).pos;
    MemberValueParts(text, from, m);
    var p := MemberValueAt(m, at);
    var q := p + |TreeText(m.v)|;
    StopsBeforeTrivia(text, q, m.after);
    ValueReads(text, from, p, depth + 1, m.v);
    TriviaThenSolid(text, q, m.after);
  }

  lemma ReadMembersLast(text: bytes, pos: nat, depth: nat, s: nat, events: Events)
    requires pos <= |text| && ReadMember(text, pos, depth) == Good(s, events) && ByteAt(text, s, CLOSE_BRACE)
    ensures ReadMembers(text, pos, depth) == Good(s + 1, events)
  {
    hide ReadMember;
  }

  lemma ReadMembersMore(text: bytes, pos: nat, depth: nat, s: nat, events: Events, end: nat, more: Events)
    requires pos <= |text| && ReadMember(text, pos, depth) == Good(s, events) && ByteAt(text, s, COMMA)
    requires ReadMembers(text, s + 1, depth) == Good(end, more)
    ensures ReadMembers(text, pos, depth) == Good(end, events + more)
  {
    hide ReadMember;
  }

  /** The events of a list of members, those of the first in front. */
  lemma FlattenFirst(m: Members, at: nat)
    requires MembersOk(m)
    ensures var key := [Location(MemberKeyAt(m, at), |QuotedText(m.key)|), Key(PiecesValue(m.key))];
            FlattenMembers(m, at) == (key + Flatten(m.v, MemberValueAt(m, at)))
              + if m.rest.Some? then FlattenMembers(m.rest.value, MembersNext(m, at)) else []
  {
    hide Flatten, TreeOk, TriviaOk, PiecesOk, PiecesValue, QuotedText, TriviaText, TreeText;
    var key := [Location(MemberKeyAt(m, at), |QuotedText(m.key)|), Key(PiecesValue(m.key))];
    var rest := if m.rest.Some? then FlattenMembers(m.rest.value, MembersNext(m, at)) else [];
    Associates(key, Flatten(m.v, MemberValueAt(m, at)), rest);
  }

  lemma {:induction false} MembersRead(text: bytes, pos: nat, at: nat, depth: nat, m: Members)
    requires MembersOk(m) && MembersDepth(m) + depth + 1 <= MAX_DEPTH
    requires Occurs(text, at, MembersText(m)) && ByteAt(text, at + |MembersText(m)|, CLOSE_BRACE)
    requires pos <= |text| && SkipTrivia(text, pos) == Good(MemberKeyAt(m, at), ())
    ensures ReadMembers(text, pos, depth) == Good(at + |MembersText(m)| + 1, FlattenMembers(m, at))
    decreases m, 1
  {
    hide Occurs, SkipTrivia, TreeText, TriviaText, TreeOk, TriviaOk, ReadMember, ReadMembers, Flatten, FlattenMembers;
    hide Depth;
    hide QuotedText, PiecesOk, PiecesValue, MembersText;
    MemberReads(text, pos, at, depth, m);
    FlattenFirst(m, at);
    var p := MemberValueAt(m, at);
    var s := p + |TreeText(m.v)| + |TriviaText(m.after)|;
    var events := [Location(MemberKeyAt(m, at), |QuotedText(m.key)|), Key(PiecesValue(m.key))] + Flatten(m.v, p);
    if m.rest.Some? {
      var rest := m.rest.value;
      MembersParts(text, s + 1, rest);
      MembersRead(text, s + 1, s + 1, depth, rest);
      ReadMembersMore(text, pos, depth, s, events, s + 1 + |MembersText(rest)| + 1, FlattenMembers(rest, s + 1));
    } else {
      NothingAdded(events);
      ReadMembersLast(text, pos, depth, s, events);
    }
  }

  // ----- documents -----

  lemma DocumentParts(text: bytes, d: Document)
    requires DocumentOk(d) && DocumentText(d) == text
    ensures var from := DocumentStart(d); var p := from + |TriviaText(d.before)|;
            var q := p + |TreeText(d.v)|; var s := q + |TriviaText(d.after)|;
            && Occurs(text, from, TriviaText(d.before)) && Occurs(text, p, TreeText(d.v))
            && Occurs(text, q, TriviaText(d.after)) && Occurs(text, s, TrailerText(d.trailer))
            && s + |TrailerText(d.trailer)| == |text|
  {
    hide Occurs, TriviaText, TreeText, TrailerText, TreeOk, TriviaOk;
    var from := DocumentStart(d);
    var p := from + |TriviaText(d.before)|;
    var q := p + |TreeText(d.v)|;
    OccursSlice(text, 0, |text|);
    assert text[0..|text|] == text;
    var bom := if d.bom then BOM else [];
    OccursConcat(text, 0, bom, TriviaText(d.before) + (TreeText(d.v) + (TriviaText(d.after) + TrailerText(d.trailer))));
    OccursConcat(text, from, TriviaText(d.before), TreeText(d.v) + (TriviaText(d.after) + TrailerText(d.trailer)));
    OccursConcat(text, p, TreeText(d.v), TriviaText(d.after) + TrailerText(d.trailer));
    OccursConcat(text, q, TriviaText(d.after), TrailerText(d.trailer));
  }

  lemma DocumentReads(text: bytes, d: Document)
    requires DocumentOk(d) && Depth(d.v) <= MAX_DEPTH && DocumentText(d) == text
    ensures Read(text) == Good(|text|, DocumentEvents(d))
  {
    hide Occurs, TriviaText, TreeText, TreeOk, TriviaOk, SkipTrivia, ReadValue, Flatten, Depth, NumberStops, Start;
    hide DocumentText;
    var from := DocumentStart(d);
    var p := from + |TriviaText(d.before)|;
    var q := p + |TreeText(d.v)|;
    var s := q + |TriviaText(d.after)|;
    DocumentParts(text, d);
    StartIs(text, d);
    TreeStartsSolid(d.v);
    TriviaBefore(text, from, d.before, TreeText(d.v));
    if d.trailer.Some? {
      OccursAt(text, s, TrailerText(d.trailer), 0);
      TrailerSkips(text, s, d.trailer.value);
    } else {
      EndStops(text);
    }
    StopsBeforeTrivia(text, q, d.after);
    ValueReads(text, p, p, 0, d.v);
    TriviaSkips(text, q, d.after);
  }

  lemma EndStops(text: bytes)
    ensures SkipTrivia(text, |text|) == Good(|text|, ())
  {
  }

  lemma TrailerSkips(text: bytes, s: nat, body: bytes)
    requires NoLineBreak(body) && Occurs(text, s, [SLASH, SLASH] + body) && s + 2 + |body| == |text|
    ensures SkipTrivia(text, s) == Good(|text|, ())
  {
    hide Occurs;
    OccursAt(text, s, [SLASH, SLASH] + body, 0);
    OccursAt(text, s, [SLASH, SLASH] + body, 1);
    OccursConcat(text, s, [SLASH, SLASH], body);
    SliceOccurs(text, s + 2, body);
    LineEndIs(text, s + 2, |text|);
  }

  lemma StartIs(text: bytes, d: Document)
    requires DocumentOk(d) && DocumentText(d) == text
    ensures Start(text) == DocumentStart(d)
  {
    hide Occurs, TriviaText, TreeText, TrailerText, TreeOk, TriviaOk;
    var rest := TriviaText(d.before) + (TreeText(d.v) + (TriviaText(d.after) + TrailerText(d.trailer)));
    if d.bom {
      OccursSlice(text, 0, 3);
      assert text[0..3] == BOM;
    } else {
      assert text == rest;
      NotBom(d.before, d.v);
      assert text[0] == (TriviaText(d.before) + TreeText(d.v))[0];
      if Occurs(text, 0, BOM) {
        OccursAt(text, 0, BOM, 0);
      }
    }
  }

  lemma NotBom(t: Trivia, v: Tree)
    requires TriviaOk(t) && TreeOk(v)
    ensures var s := TriviaText(t) + TreeText(v); s != [] && s[0] < 0xEF
  {
    if t == [] {
      match v
      case Figure(n) => assert NumeralText(n)[0] == if n.minus then MINUS else n.whole[0];
      case _ =>
    } else {
      assert (TriviaText(t) + TreeText(v))[0] == ItemText(t[0])[0];
    }
  }
}
