/** Whatever is read successfully is a text of the grammar, and the report is its flattening. */
module JsonSoundness {
  import opened Bytes
  import opened Wrappers
  import opened Sequences
  import opened JsonEvents
  import opened JsonGrammar
  import opened JsonReading
  import Utf8

  // ----- trivia -----

  lemma {:induction false} LineEndMeans(text: bytes, pos: nat)
    requires pos <= |text|
    ensures var e := LineEnd(text, pos); NoLineBreak(text[pos..e]) && (e < |text| ==> IsLineBreak(text[e]))
    decreases |text| - pos
  {
    if pos < |text| && !IsLineBreak(text[pos]) {
      LineEndMeans(text, pos + 1);
      var e := LineEnd(text, pos);
      assert text[pos..e] == [text[pos]] + text[pos + 1..e];
    }
  }

  lemma NoEarlierClose(b: byte, t: bytes, next: byte)
    requires !HasClose(t) && !(b == STAR && next == SLASH) && (t != [] ==> t[0] == next)
    ensures !HasClose([b] + t)
  {
    var s := [b] + t;
    forall k | 0 <= k < |s| - 1 ensures !(s[k] == STAR && s[k + 1] == SLASH) {
      if k > 0 {
        assert s[k] == t[k - 1] && s[k + 1] == t[k - 1 + 1];
      }
    }
  }

  lemma {:induction false} BlockEndMeans(text: bytes, pos: nat)
    requires pos <= |text| && BlockEnd(text, pos).Some?
    ensures var e := BlockEnd(text, pos).value;
            pos + 2 <= e && text[e - 2] == STAR && text[e - 1] == SLASH && !HasClose(text[pos..e - 2])
    decreases |text| - pos
  {
    if !(text[pos] == STAR && text[pos + 1] == SLASH) {
      BlockEndMeans(text, pos + 1);
      var e := BlockEnd(text, pos).value;
      NoEarlierClose(text[pos], text[pos + 1..e - 2], text[pos + 1]);
      assert text[pos..e - 2] == [text[pos]] + text[pos + 1..e - 2];
    }
  }

  lemma TriviaPrepends(text: bytes, pos: nat, i: TriviaItem, rest: Trivia) returns (t: Trivia)
    requires ItemOk(i) && TriviaOk(rest)
    requires Occurs(text, pos, ItemText(i)) && Occurs(text, pos + |ItemText(i)|, TriviaText(rest))
    ensures TriviaOk(t) && Occurs(text, pos, TriviaText(t)) && |TriviaText(t)| == |ItemText(i)| + |TriviaText(rest)|
  {
    hide Occurs, ItemText, ItemOk;
    t := [i] + rest;
    assert t[1..] == rest;
    OccursConcat(text, pos, ItemText(i), TriviaText(rest));
  }

  lemma LineItem(text: bytes, pos: nat, end: nat) returns (i: TriviaItem)
    requires ByteAt(text, pos, SLASH) && ByteAt(text, pos + 1, SLASH) && pos + 2 <= |text|
    requires end == LineEnd(text, pos + 2) && end < |text|
    ensures ItemOk(i) && Occurs(text, pos, ItemText(i)) && pos + |ItemText(i)| == end + 1
  {
    LineEndMeans(text, pos + 2);
    i := Line(text[pos + 2..end], text[end]);
    assert text[pos..end + 1] == [SLASH, SLASH] + text[pos + 2..end] + [text[end]];
    OccursSlice(text, pos, end + 1);
  }

  lemma BlockItem(text: bytes, pos: nat, close: nat) returns (i: TriviaItem)
    requires ByteAt(text, pos, SLASH) && ByteAt(text, pos + 1, STAR)
    requires BlockEnd(text, pos + 2) == Some(close)
    ensures ItemOk(i) && Occurs(text, pos, ItemText(i)) && pos + |ItemText(i)| == close
  {
    BlockEndMeans(text, pos + 2);
    i := Block(text[pos + 2..close - 2]);
    assert text[pos..close] == [SLASH, STAR] + text[pos + 2..close - 2] + [STAR, SLASH];
    OccursSlice(text, pos, close);
  }

  predicate EndsInTrailer(text: bytes, pos: nat, trailer: bytes) {
    NoLineBreak(trailer) && Occurs(text, pos, [SLASH, SLASH] + trailer) && pos + 2 + |trailer| == |text|
  }

  predicate LineAt(text: bytes, pos: nat) { ByteAt(text, pos, SLASH) && ByteAt(text, pos + 1, SLASH) }

  predicate BlockAt(text: bytes, pos: nat) { ByteAt(text, pos, SLASH) && ByteAt(text, pos + 1, STAR) }

  /** One item is skipped at a time, whichever it is. */
  lemma ItemSound(text: bytes, pos: nat) returns (i: TriviaItem)
    requires pos < |text| && SkipTrivia(text, pos).Good?
    requires IsSpace(text[pos]) || BlockAt(text, pos) || (LineAt(text, pos) && LineEnd(text, pos + 2) < |text|)
    ensures ItemOk(i) && Occurs(text, pos, ItemText(i)) && pos + |ItemText(i)| <= |text|
    ensures SkipTrivia(text, pos) == SkipTrivia(text, pos + |ItemText(i)|)
  {
    hide Occurs;
    if IsSpace(text[pos]) {
      i := Space(text[pos]);
      OneByte(text, pos);
    } else if LineAt(text, pos) {
      var end := LineEnd(text, pos + 2);
      i := LineItem(text, pos, end);
      LineEndMeans(text, pos + 2);
      assert SkipTrivia(text, end) == SkipTrivia(text, end + 1);
    } else {
      i := BlockItem(text, pos, BlockEnd(text, pos + 2).value);
    }
  }

  lemma StopSound(text: bytes, pos: nat)
    requires pos <= |text| && !(pos < |text| && IsSpace(text[pos])) && !BlockAt(text, pos) && !LineAt(text, pos)
    ensures SkipTrivia(text, pos) == Good(pos, ()) && Occurs(text, pos, [])
  {
  }

  /** What was skipped is trivia, except that a line comment may run into the end of the text. */
  lemma {:induction false} TriviaSound(text: bytes, pos: nat) returns (t: Trivia, trailer: Option<bytes>)
    requires pos <= |text| && SkipTrivia(text, pos).Good?
    ensures TriviaOk(t) && Occurs(text, pos, TriviaText(t))
    ensures trailer.None? ==> SkipTrivia(text, pos).pos == pos + |TriviaText(t)|
    ensures trailer.Some?
            ==> SkipTrivia(text, pos).pos == |text| && EndsInTrailer(text, pos + |TriviaText(t)|, trailer.value)
    decreases |text| - pos
  {
    hide Occurs, EndsInTrailer, ItemOk, SkipTrivia, ItemText;
    if LineAt(text, pos) && LineEnd(text, pos + 2) == |text| {
      t, trailer := [], Some(text[pos + 2..]);
      LastLine(text, pos);
    } else if pos < |text| && (IsSpace(text[pos]) || BlockAt(text, pos) || LineAt(text, pos)) {
      var i := ItemSound(text, pos);
      var rest: Trivia;
      rest, trailer := TriviaSound(text, pos + |ItemText(i)|);
      t := TriviaPrepends(text, pos, i, rest);
    } else {
      t, trailer := [], None;
      StopSound(text, pos);
    }
  }

  lemma OneByte(text: bytes, pos: nat)
    requires pos < |text| && IsSpace(text[pos])
    ensures var i := Space(text[pos]); ItemOk(i) && Occurs(text, pos, ItemText(i)) && |ItemText(i)| == 1
  {
  }

  lemma LastLine(text: bytes, pos: nat)
    requires ByteAt(text, pos, SLASH) && ByteAt(text, pos + 1, SLASH) && LineEnd(text, pos + 2) == |text|
    ensures SkipTrivia(text, pos) == Good(|text|, ()) && Occurs(text, pos, [])
            && EndsInTrailer(text, pos, text[pos + 2..])
  {
    LineEndMeans(text, pos + 2);
    assert text[pos + 2..|text|] == text[pos + 2..];
    assert text[pos..|text|] == [SLASH, SLASH] + text[pos + 2..];
    OccursSlice(text, pos, |text|);
  }

  /** In front of a byte that is there, all that was skipped is trivia. */
  lemma TriviaSoundBefore(text: bytes, pos: nat) returns (t: Trivia)
    requires pos <= |text| && SkipTrivia(text, pos).Good? && SkipTrivia(text, pos).pos < |text|
    ensures TriviaOk(t) && Occurs(text, pos, TriviaText(t)) && SkipTrivia(text, pos).pos == pos + |TriviaText(t)|
  {
    var trailer;
    t, trailer := TriviaSound(text, pos);
  }

  // ----- strings -----

  lemma Hex4Means(text: bytes, pos: nat)
    requires pos <= |text| && Hex4(text, pos).Good?
    ensures var digits := text[pos..pos + 4]; IsHex4(digits) && Hex4Value(digits) == Hex4(text, pos).value
  {
    var v0 := HexValue(text[pos]);
    assert HexRun(text, pos, 4, 0) == HexRun(text, pos + 1, 3, v0);
    var v1 := v0 * 16 + HexValue(text[pos + 1]);
    assert HexRun(text, pos + 1, 3, v0) == HexRun(text, pos + 2, 2, v1);
    var v2 := v1 * 16 + HexValue(text[pos + 2]);
    assert HexRun(text, pos + 2, 2, v1) == HexRun(text, pos + 3, 1, v2);
    assert HexRun(text, pos + 3, 1, v2) == HexRun(text, pos + 4, 0, v2 * 16 + HexValue(text[pos + 3]));
  }

  /** A piece that the reader took: well formed, in place, and worth what was decoded. */
  ghost predicate Took(text: bytes, pos: nat, p: Piece, r: Outcome<bytes>) {
    PieceOk(p) && Occurs(text, pos, PieceText(p)) && r == Good(pos + |PieceText(p)|, PieceValue(p))
  }

  lemma PlainSound(text: bytes, pos: nat) returns (p: Piece)
    requires pos < |text| && text[pos] != QUOTE && text[pos] != BACKSLASH && StringPiece(text, pos).Good?
    ensures Took(text, pos, p, StringPiece(text, pos))
  {
    hide Utf8.DecodeOne;
    var b := text[pos];
    if b <= 0x7F {
      p := Plain(b);
      assert PieceText(p) == [b];
    } else {
      Utf8.DecodeAcceptsOnlyEncodings(text, pos);
      var c := Utf8.DecodeOne(text, pos).codepoint;
      p := Plain(c);
      SliceOccurs(text, pos, Utf8.Encode(c));
      OccursAt(text, pos, Utf8.Encode(c), 0);
    }
  }

  lemma UnicodeSound(text: bytes, pos: nat) returns (p: Piece)
    requires pos + 1 < |text| && text[pos] == BACKSLASH && text[pos + 1] == LETTER_U && StringPiece(text, pos).Good?
    ensures Took(text, pos, p, StringPiece(text, pos))
  {
    hide Hex4, Hex4Value, Utf8.Encode, IsHex4, PairValue;
    Hex4Means(text, pos + 2);
    var digits := text[pos + 2..pos + 6];
    var first := Hex4(text, pos + 2).value;
    Hex4Bound(digits);
    if Utf8.IsHighSurrogate(first) {
      Hex4Means(text, pos + 8);
      var low := text[pos + 8..pos + 12];
      p := Pair(digits, low);
      Hex4Bound(low);
      assert text[pos..pos + 12] == [BACKSLASH, LETTER_U] + digits + [BACKSLASH, LETTER_U] + low;
      OccursSlice(text, pos, pos + 12);
    } else {
      p := Unit(digits);
      assert text[pos..pos + 6] == [BACKSLASH, LETTER_U] + digits;
      OccursSlice(text, pos, pos + 6);
    }
  }

  lemma Hex4Bound(s: bytes)
    requires IsHex4(s)
    ensures |s| == 4 && Hex4Value(s) <= 0xFFFF
  {
  }

  lemma PieceSound(text: bytes, pos: nat) returns (p: Piece)
    requires pos < |text| && text[pos] != QUOTE && StringPiece(text, pos).Good?
    ensures Took(text, pos, p, StringPiece(text, pos))
  {
    hide UnicodeEscape, Utf8.DecodeOne;
    if text[pos] != BACKSLASH {
      p := PlainSound(text, pos);
    } else if text[pos + 1] == LETTER_U {
      p := UnicodeSound(text, pos);
    } else {
      p := Short(text[pos + 1]);
      assert text[pos..pos + 2] == [BACKSLASH, text[pos + 1]];
      OccursSlice(text, pos, pos + 2);
    }
  }

  lemma {:induction false} StringSound(text: bytes, pos: nat) returns (ps: seq<Piece>)
    requires pos <= |text| && StringRest(text, pos).Good?
    ensures PiecesOk(ps) && Occurs(text, pos, PiecesText(ps) + [QUOTE])
    ensures StringRest(text, pos) == Good(pos + |PiecesText(ps)| + 1, PiecesValue(ps))
    decreases |text| - pos
  {
    hide Occurs, StringPiece, PieceOk, PieceText, PieceValue;
    if text[pos] == QUOTE {
      ps := [];
      OneQuote(text, pos);
      assert PiecesText(ps) + [QUOTE] == [QUOTE];
    } else {
      var p := PieceSound(text, pos);
      var rest := StringSound(text, pos + |PieceText(p)|);
      ps := [p] + rest;
      assert ps[1..] == rest;
      OccursConcat(text, pos, PieceText(p), PiecesText(rest) + [QUOTE]);
      assert PiecesText(ps) + [QUOTE] == PieceText(p) + (PiecesText(rest) + [QUOTE]);
    }
  }

  lemma OneQuote(text: bytes, pos: nat)
    requires ByteAt(text, pos, QUOTE)
    ensures Occurs(text, pos, [QUOTE])
  {
  }

  lemma QuotedSound(text: bytes, pos: nat) returns (ps: seq<Piece>)
    requires ByteAt(text, pos, QUOTE) && StringRest(text, pos + 1).Good?
    ensures PiecesOk(ps) && Occurs(text, pos, QuotedText(ps))
    ensures StringRest(text, pos + 1) == Good(pos + |QuotedText(ps)|, PiecesValue(ps))
  {
    hide Occurs, StringRest;
    ps := StringSound(text, pos + 1);
    OneQuote(text, pos);
    OccursConcat(text, pos, [QUOTE], PiecesText(ps) + [QUOTE]);
  }

  // ----- numbers -----

  lemma {:induction false} DigitsEndMeans(text: bytes, pos: nat)
    requires pos <= |text|
    ensures AllDigits(text[pos..DigitsEnd(text, pos)])
    decreases |text| - pos
  {
    if DigitAt(text, pos) {
      DigitsEndMeans(text, pos + 1);
      assert text[pos..DigitsEnd(text, pos)] == [text[pos]] + text[pos + 1..DigitsEnd(text, pos)];
    }
  }

  lemma DigitsFrom(text: bytes, pos: nat) returns (digits: bytes)
    requires DigitAt(text, pos)
    ensures digits != [] && AllDigits(digits) && digits[0] == text[pos]
    ensures Occurs(text, pos, digits) && DigitsEnd(text, pos) == pos + |digits|
    ensures DigitsEnd(text, pos + 1) == DigitsEnd(text, pos)
  {
    digits := text[pos..DigitsEnd(text, pos)];
    DigitsEndMeans(text, pos);
    OccursSlice(text, pos, DigitsEnd(text, pos));
  }

  lemma WholeSound(text: bytes, begin: nat, pos: nat) returns (whole: bytes)
    requires begin <= pos <= |text| && begin < |text| && Whole(text, begin, pos).Good?
    ensures whole != [] && AllDigits(whole) && (whole[0] == ZERO ==> |whole| == 1)
    ensures Occurs(text, pos, whole) && Whole(text, begin, pos).pos == pos + |whole|
  {
    if ByteAt(text, pos, ZERO) {
      whole := [ZERO];
    } else {
      whole := DigitsFrom(text, pos);
    }
  }

  lemma FractionSound(text: bytes, begin: nat, pos: nat) returns (fraction: Option<bytes>)
    requires begin <= pos <= |text| && begin < |text| && Fraction(text, begin, pos).Good?
    ensures fraction.Some? ==> fraction.value != [] && AllDigits(fraction.value)
    ensures var s := if fraction.Some? then [DOT] + fraction.value else [];
            Occurs(text, pos, s) && Fraction(text, begin, pos) == Good(pos + |s|, fraction.None?)
  {
    if ByteAt(text, pos, DOT) {
      var digits := DigitsFrom(text, pos + 1);
      OccursConcat(text, pos, [DOT], digits);
      fraction := Some(digits);
    } else {
      fraction := None;
    }
  }

  lemma ExponentSound(text: bytes, begin: nat, pos: nat) returns (n: Numeral)
    requires begin <= pos <= |text| && begin < |text| && ExponentPart(text, begin, pos).Good?
    ensures n == Numeral(false, [ZERO], None, n.exponent) && NumeralOk(n)
    ensures Occurs(text, pos, ExponentText(n))
            && ExponentPart(text, begin, pos) == Good(pos + |ExponentText(n)|, n.exponent.None?)
  {
    if pos < |text| && IsExponentMark(text[pos]) {
      var p := AfterSign(text, pos + 1);
      var digits := DigitsFrom(text, p);
      var signed := p == pos + 2;
      var sign := if signed then [text[pos + 1]] else [];
      assert Occurs(text, pos + 1, sign);
      assert Occurs(text, pos, [text[pos]]);
      hide Occurs, DigitsEnd;
      OccursConcat(text, pos + 1, sign, digits);
      OccursConcat(text, pos, [text[pos]], sign + digits);
      n := Numeral(false, [ZERO], None,
          Some(Exponent(text[pos], if signed then Some(text[pos + 1]) else None, digits)));
    } else {
      n := Numeral(false, [ZERO], None, None);
    }
  }

  /** The parts of a number token, read one after the other. */
  lemma TokenSteps(text: bytes, pos: nat, p: nat)
    requires pos < |text| && NumberToken(text, pos).Good? && p == if text[pos] == MINUS then pos + 1 else pos
    ensures p < |text| && Whole(text, pos, p).Good?
    ensures var q := Whole(text, pos, p).pos;
            && Fraction(text, pos, q).Good?
            && ExponentPart(text, pos, Fraction(text, pos, q).pos).Good?
    ensures var fraction := Fraction(text, pos, Whole(text, pos, p).pos);
            var exponent := ExponentPart(text, pos, fraction.pos);
            NumberToken(text, pos) == Good(exponent.pos, fraction.value && exponent.value)
  {
    hide Whole, Fraction, ExponentPart;
  }

  /** A numeral put together from a sign and the parts behind it; the exponent is that of another. */
  lemma NumeralPlaced(text: bytes, pos: nat, n: Numeral, e: Numeral)
    requires n.whole != [] && AllDigits(n.whole) && (n.whole[0] == ZERO ==> |n.whole| == 1)
    requires n.fraction.Some? ==> n.fraction.value != [] && AllDigits(n.fraction.value)
    requires n.exponent == e.exponent && NumeralOk(e) && pos < |text| && n.minus == (text[pos] == MINUS)
    requires var p := if n.minus then pos + 1 else pos;
             && Occurs(text, p, n.whole) && Occurs(text, p + |n.whole|, FractionText(n))
             && Occurs(text, p + |n.whole| + |FractionText(n)|, ExponentText(e))
    ensures NumeralOk(n) && Occurs(text, pos, NumeralText(n))
    ensures |NumeralText(n)| == (if n.minus then 1 else 0) + |n.whole| + |FractionText(n)| + |ExponentText(e)|
  {
    hide Occurs, AllDigits, ExponentText, FractionText;
    SameExponent(n, e);
    SignOccurs(text, pos, n);
    OccursFour(text, pos, SignText(n), n.whole, FractionText(n), ExponentText(n));
  }

  /** The numeral whose parts have been read one behind the other. */
  lemma PartsSound(text: bytes, pos: nat, p: nat) returns (n: Numeral)
    requires pos < |text| && p < |text| && p == (if text[pos] == MINUS then pos + 1 else pos)
    requires Whole(text, pos, p).Good? && Fraction(text, pos, Whole(text, pos, p).pos).Good?
    requires ExponentPart(text, pos, Fraction(text, pos, Whole(text, pos, p).pos).pos).Good?
    ensures NumeralOk(n) && Occurs(text, pos, NumeralText(n))
    ensures var fraction := Fraction(text, pos, Whole(text, pos, p).pos);
            var exponent := ExponentPart(text, pos, fraction.pos);
            && pos + |NumeralText(n)| == exponent.pos && fraction.value == n.fraction.None?
               && exponent.value == n.exponent.None?
  {
    hide Occurs, Whole, Fraction, ExponentPart, AllDigits, ExponentText, NumeralText, NumeralOk;
    var whole := WholeSound(text, pos, p);
    var fraction := FractionSound(text, pos, p + |whole|);
    var e := ExponentSound(text, pos, Fraction(text, pos, p + |whole|).pos);
    n := Numeral(text[pos] == MINUS, whole, fraction, e.exponent);
    NumeralPlaced(text, pos, n, e);
  }

  lemma NumeralSound(text: bytes, pos: nat) returns (n: Numeral)
    requires pos < |text| && NumberToken(text, pos).Good?
    ensures NumeralOk(n) && Occurs(text, pos, NumeralText(n))
    ensures NumberToken(text, pos) == Good(pos + |NumeralText(n)|, n.fraction.None? && n.exponent.None?)
  {
    hide Occurs, Whole, Fraction, ExponentPart, NumberToken, NumeralText, NumeralOk;
    var p := if text[pos] == MINUS then pos + 1 else pos;
    TokenSteps(text, pos, p);
    n := PartsSound(text, pos, p);
  }

  lemma SameExponent(n: Numeral, e: Numeral)
    requires n.exponent == e.exponent
    ensures ExponentText(n) == ExponentText(e)
  {
  }

  lemma SignOccurs(text: bytes, pos: nat, n: Numeral)
    requires pos < |text| && n.minus == (text[pos] == MINUS)
    ensures Occurs(text, pos, SignText(n))
  {
  }

  // ----- values -----

  /** A value that the reader took: where it stands, what it reports and how deep it nests. */
  ghost predicate Found(text: bytes, p: nat, depth: nat, t: Tree, r: Outcome<Events>) {
    && TreeOk(t) && Occurs(text, p, TreeText(t)) && Depth(t) + depth <= MAX_DEPTH
    && r == Good(p + |TreeText(t)|, Flatten(t, p))
  }

  lemma LiteralSound(text: bytes, p: nat, literal: bytes, value: Scalar, t: Tree)
    requires literal != [] && p < |text| && ReadLiteral(text, p, literal, value).Good?
    requires (literal == TRUE && value == Boolean(true) && t == True)
          || (literal == FALSE && value == Boolean(false) && t == False)
          || (literal == NULL && value == Null && t == Nothing)
    ensures Found(text, p, MAX_DEPTH, t, ReadLiteral(text, p, literal, value))
  {
    hide Occurs;
  }

  lemma NumberSound(text: bytes, p: nat) returns (t: Tree)
    requires p < |text| && ReadNumber(text, p).Good?
    ensures Found(text, p, MAX_DEPTH, t, ReadNumber(text, p))
  {
    hide Occurs, NumberToken, NumeralText, NumeralOk;
    var n := NumeralSound(text, p);
    SliceOccurs(text, p, NumeralText(n));
    t := Figure(n);
  }

  lemma StringValueSound(text: bytes, p: nat) returns (t: Tree)
    requires ByteAt(text, p, QUOTE) && ReadString(text, p).Good?
    ensures Found(text, p, MAX_DEPTH, t, ReadString(text, p))
  {
    hide Occurs, StringRest, QuotedText, PiecesOk, PiecesValue;
    var ps := QuotedSound(text, p);
    t := Quoted(ps);
  }

  lemma ScalarSound(text: bytes, p: nat) returns (t: Tree)
    requires p < |text| && ReadScalar(text, p).Good?
    ensures Found(text, p, MAX_DEPTH, t, ReadScalar(text, p)) && Depth(t) == 0
  {
    hide Occurs, ReadString, ReadLiteral, ReadNumber, Found;
    if text[p] == QUOTE {
      t := StringValueSound(text, p);
    } else if text[p] == TRUE[0] {
      t := True;
      LiteralSound(text, p, TRUE, Boolean(true), t);
    } else if text[p] == FALSE[0] {
      t := False;
      LiteralSound(text, p, FALSE, Boolean(false), t);
    } else if text[p] == NULL[0] {
      t := Nothing;
      LiteralSound(text, p, NULL, Null, t);
    } else {
      t := NumberSound(text, p);
    }
    FoundDepth(text, p, t, ReadScalar(text, p));
  }

  lemma FoundDepth(text: bytes, p: nat, t: Tree, r: Outcome<Events>)
    requires Found(text, p, MAX_DEPTH, t, r)
    ensures Depth(t) == 0
  {
    hide Occurs;
  }

  lemma {:induction false} ValueSound(text: bytes, pos: nat, depth: nat) returns (before: Trivia, t: Tree)
    requires pos <= |text| && depth <= MAX_DEPTH && ReadValue(text, pos, depth).Good?
    ensures TriviaOk(before) && Occurs(text, pos, TriviaText(before))
    ensures Found(text, pos + |TriviaText(before)|, depth, t, ReadValue(text, pos, depth))
    decreases |text| - pos, 2
  {
    hide Occurs, SkipTrivia, ReadScalar, ReadObject, ReadArray, TriviaText, TriviaOk, TreeText, Flatten, TreeOk;
    before := TriviaSoundBefore(text, pos);
    var p := SkipTrivia(text, pos).pos;
    if text[p] == OPEN_BRACE {
      t := ObjectSound(text, p, depth);
    } else if text[p] == OPEN_BRACKET {
      t := ArraySound(text, p, depth);
    } else {
      t := ScalarSound(text, p);
    }
  }

  lemma Wrapped(text: bytes, p: nat, open: byte, inner: bytes, close: byte)
    requires ByteAt(text, p, open) && Occurs(text, p + 1, inner) && ByteAt(text, p + 1 + |inner|, close)
    ensures Occurs(text, p, [open] + (inner + [close]))
  {
    hide Occurs;
    ByteOccurs(text, p, open);
    ByteOccurs(text, p + 1 + |inner|, close);
    OccursConcat(text, p + 1, inner, [close]);
    OccursConcat(text, p, [open], inner + [close]);
  }

  lemma {:induction false} ArraySound(text: bytes, p: nat, depth: nat) returns (t: Tree)
    requires ByteAt(text, p, OPEN_BRACKET) && ReadArray(text, p, depth).Good?
    ensures Found(text, p, depth, t, ReadArray(text, p, depth))
    decreases |text| - p, 1
  {
    hide Occurs, SkipTrivia, ReadElements, TriviaText, TriviaOk, ElementsText, ElementsOk, ElementsDepth;
    hide FlattenElements;
    var before := TriviaSoundBefore(text, p + 1);
    var q := SkipTrivia(text, p + 1).pos;
    if ByteAt(text, q, CLOSE_BRACKET) {
      t := EmptyArray(before);
      Wrapped(text, p, OPEN_BRACKET, TriviaText(before), CLOSE_BRACKET);
    } else {
      var e := ElementsSound(text, q, p + 1, before, depth);
      t := Array(e);
      Wrapped(text, p, OPEN_BRACKET, ElementsText(e), CLOSE_BRACKET);
    }
  }

  lemma {:induction false} TriviaConcat(s: Trivia, t: Trivia)
    ensures TriviaText(s + t) == TriviaText(s) + TriviaText(t)
    decreases |s|
  {
    hide ItemText;
    if s == [] {
      assert s + t == t;
    } else {
      assert (s + t)[1..] == s[1..] + t;
      TriviaConcat(s[1..], t);
    }
  }

  lemma TriviaJoin(text: bytes, at: nat, s: Trivia, t: Trivia) returns (joined: Trivia)
    requires TriviaOk(s) && TriviaOk(t) && Occurs(text, at, TriviaText(s))
             && Occurs(text, at + |TriviaText(s)|, TriviaText(t))
    ensures TriviaOk(joined) && Occurs(text, at, TriviaText(joined))
            && |TriviaText(joined)| == |TriviaText(s)| + |TriviaText(t)|
  {
    hide Occurs, ItemOk;
    joined := s + t;
    TriviaConcat(s, t);
    OccursConcat(text, at, TriviaText(s), TriviaText(t));
  }

  lemma TailOccurs(text: bytes, s: nat, more: bytes)
    requires ByteAt(text, s, COMMA) && Occurs(text, s + 1, more)
    ensures Occurs(text, s, [COMMA] + more)
  {
    hide Occurs;
    ByteOccurs(text, s, COMMA);
    OccursConcat(text, s, [COMMA], more);
  }

  /** The text from `at` to `end` is a value with its surrounding trivia. */
  predicate ValueStands(text: bytes, at: nat, before: Trivia, v: Tree, after: Trivia, end: nat) {
    var p := at + |TriviaText(before)|;
    var q := p + |TreeText(v)|;
    && Occurs(text, at, TriviaText(before)) && Occurs(text, p, TreeText(v)) && Occurs(text, q, TriviaText(after))
    && end == q + |TriviaText(after)|
  }

  /** The text from `at` to `colon` is a key with its surrounding trivia, and a colon follows. */
  predicate KeyStands(text: bytes, at: nat, before: Trivia, key: seq<Piece>, mid: Trivia, colon: nat) {
    var k := at + |TriviaText(before)|;
    var s := k + |QuotedText(key)|;
    && Occurs(text, at, TriviaText(before)) && Occurs(text, k, QuotedText(key)) && Occurs(text, s, TriviaText(mid))
    && colon == s + |TriviaText(mid)| && ByteAt(text, colon, COLON)
  }

  lemma ElementsPlaced(text: bytes, at: nat, e: Elements, end: nat)
    requires ValueStands(text, at, e.before, e.v, e.after, end) && Occurs(text, end, ElementsTail(e))
    ensures Occurs(text, at, ElementsText(e))
    ensures at + |ElementsText(e)|
            == at + |TriviaText(e.before)| + |TreeText(e.v)| + |TriviaText(e.after)| + |ElementsTail(e)|
  {
    hide Occurs, TriviaText, TreeText;
    var p := at + |TriviaText(e.before)|;
    var q := p + |TreeText(e.v)|;
    OccursConcat(text, q, TriviaText(e.after), ElementsTail(e));
    OccursConcat(text, p, TreeText(e.v), TriviaText(e.after) + ElementsTail(e));
    OccursConcat(text, at, TriviaText(e.before), TreeText(e.v) + (TriviaText(e.after) + ElementsTail(e)));
  }

  /** One element, with the trivia that were skipped before the loop began. */
  lemma {:induction false} ElementSound(text: bytes, pos: nat, at: nat, skipped: Trivia, depth: nat)
    returns (before: Trivia, v: Tree, after: Trivia)
    requires pos <= |text| && depth < MAX_DEPTH && ReadElement(text, pos, depth).Good?
             && ReadElement(text, pos, depth).pos < |text|
    requires TriviaOk(skipped) && Occurs(text, at, TriviaText(skipped)) && pos == at + |TriviaText(skipped)|
    ensures TriviaOk(before) && TreeOk(v) && TriviaOk(after) && Depth(v) + depth + 1 <= MAX_DEPTH
    ensures ValueStands(text, at, before, v, after, ReadElement(text, pos, depth).pos)
    ensures ReadElement(text, pos, depth).value == Flatten(v, at + |TriviaText(before)|)
    decreases |text| - pos, 3
  {
    hide Occurs, SkipTrivia, ReadValue, TriviaOk, TriviaText, TreeText, TreeOk, Flatten, Depth;
    before, v := ValueSound(text, pos, depth + 1);
    before := TriviaJoin(text, at, skipped, before);
    after := TriviaSoundBefore(text, ReadValue(text, pos, depth + 1).pos);
  }

  lemma {:induction false} ElementsSound(text: bytes, pos: nat, at: nat, skipped: Trivia, depth: nat)
      returns (e: Elements)
    requires pos <= |text| && depth < MAX_DEPTH && ReadElements(text, pos, depth).Good?
    requires TriviaOk(skipped) && Occurs(text, at, TriviaText(skipped)) && pos == at + |TriviaText(skipped)|
    ensures ElementsOk(e) && Occurs(text, at, ElementsText(e)) && ElementsDepth(e) + depth + 1 <= MAX_DEPTH
    ensures ReadElements(text, pos, depth) == Good(at + |ElementsText(e)| + 1, FlattenElements(e, at))
    ensures ByteAt(text, at + |ElementsText(e)|, CLOSE_BRACKET)
    decreases |text| - pos, 4
  {
    hide Occurs, SkipTrivia, ReadElement, TriviaOk, TriviaText, TreeText, TreeOk, Flatten, Depth, ElementsText;
    var before, v, after := ElementSound(text, pos, at, skipped, depth);
    var s := ReadElement(text, pos, depth).pos;
    if ByteAt(text, s, COMMA) {
      NothingText(text, s + 1);
      var more := ElementsSound(text, s + 1, s + 1, [], depth);
      TailOccurs(text, s, ElementsText(more));
      e := Elements(before, v, after, Some(more));
    } else {
      NothingText(text, s);
      e := Elements(before, v, after, None);
    }
    ElementsPlaced(text, at, e, s);
    if e.rest.None? {
      assert FlattenElements(e, at) == Flatten(v, at + |TriviaText(before)|);
    }
  }

  lemma NothingText(text: bytes, pos: nat)
    requires pos <= |text|
    ensures TriviaOk([]) && TriviaText([]) == [] && Occurs(text, pos, [])
  {
  }

  lemma {:induction false} ObjectSound(text: bytes, p: nat, depth: nat) returns (t: Tree)
    requires ByteAt(text, p, OPEN_BRACE) && ReadObject(text, p, depth).Good?
    ensures Found(text, p, depth, t, ReadObject(text, p, depth))
    decreases |text| - p, 1
  {
    hide Occurs, SkipTrivia, ReadMembers, TriviaText, TriviaOk, MembersText, MembersOk, MembersDepth, FlattenMembers;
    var before := TriviaSoundBefore(text, p + 1);
    var q := SkipTrivia(text, p + 1).pos;
    if ByteAt(text, q, CLOSE_BRACE) {
      t := EmptyObject(before);
      Wrapped(text, p, OPEN_BRACE, TriviaText(before), CLOSE_BRACE);
    } else {
      var m := MembersSound(text, q, p + 1, before, depth);
      t := Object(m);
      Wrapped(text, p, OPEN_BRACE, MembersText(m), CLOSE_BRACE);
    }
  }

  lemma KeySound(text: bytes, pos: nat, at: nat, skipped: Trivia)
      returns (before: Trivia, key: seq<Piece>, mid: Trivia, colon: nat)
    requires pos <= |text| && ReadKey(text, pos).Good?
    requires TriviaOk(skipped) && Occurs(text, at, TriviaText(skipped)) && pos == at + |TriviaText(skipped)|
    ensures TriviaOk(before) && PiecesOk(key) && TriviaOk(mid)
    ensures KeyStands(text, at, before, key, mid, colon)
    ensures ReadKey(text, pos)
            == Good(colon + 1, [Location(at + |TriviaText(before)|, |QuotedText(key)|), Key(PiecesValue(key))])
  {
    hide Occurs, SkipTrivia, StringRest, TriviaText, TriviaOk, QuotedText, PiecesOk, PiecesValue;
    before := TriviaSoundBefore(text, pos);
    var k := SkipTrivia(text, pos).pos;
    key := QuotedSound(text, k);
    mid := TriviaSoundBefore(text, StringRest(text, k + 1).pos);
    before := TriviaJoin(text, at, skipped, before);
    colon := at + |TriviaText(before)| + |QuotedText(key)| + |TriviaText(mid)|;
  }

  lemma ByteOccurs(text: bytes, pos: nat, b: byte)
    requires ByteAt(text, pos, b)
    ensures Occurs(text, pos, [b])
  {
  }

  lemma MembersPlaced(text: bytes, at: nat, m: Members, colon: nat, end: nat)
    requires KeyStands(text, at, m.before, m.key, m.mid, colon)
    requires ValueStands(text, colon + 1, m.lead, m.v, m.after, end) && Occurs(text, end, MembersTail(m))
    ensures Occurs(text, at, MembersText(m))
    ensures at + |MembersText(m)| == MemberValueAt(m, at) + |TreeText(m.v)| + |TriviaText(m.after)| + |MembersTail(m)|
  {
    var k := MemberKeyAt(m, at);
    var s := k + |QuotedText(m.key)|;
    var c := s + |TriviaText(m.mid)|;
    var p := MemberValueAt(m, at);
    var q := p + |TreeText(m.v)|;
    hide Occurs, TriviaText, TreeText, QuotedText;
    ByteOccurs(text, c, COLON);
    var rest := TriviaText(m.lead) + (TreeText(m.v) + (TriviaText(m.after) + MembersTail(m)));
    OccursConcat(text, q, TriviaText(m.after), MembersTail(m));
    OccursConcat(text, p, TreeText(m.v), TriviaText(m.after) + MembersTail(m));
    OccursConcat(text, c + 1, TriviaText(m.lead), TreeText(m.v) + (TriviaText(m.after) + MembersTail(m)));
    OccursConcat(text, c, [COLON], rest);
    OccursConcat(text, s, TriviaText(m.mid), [COLON] + rest);
    OccursConcat(text, k, QuotedText(m.key), TriviaText(m.mid) + ([COLON] + rest));
    OccursConcat(text, at, TriviaText(m.before), QuotedText(m.key) + (TriviaText(m.mid) + ([COLON] + rest)));
  }

  /** One member, without what follows it; it is a list of its own. */
  lemma {:induction false} MemberSound(text: bytes, pos: nat, at: nat, skipped: Trivia, depth: nat) returns (m: Members)
    requires pos <= |text| && depth < MAX_DEPTH && ReadMember(text, pos, depth).Good?
             && ReadMember(text, pos, depth).pos < |text|
    requires TriviaOk(skipped) && Occurs(text, at, TriviaText(skipped)) && pos == at + |TriviaText(skipped)|
    ensures MembersOk(m) && m.rest.None? && Depth(m.v) + depth + 1 <= MAX_DEPTH
    ensures Occurs(text, at, MembersText(m))
    ensures ReadMember(text, pos, depth) == Good(at + |MembersText(m)|, FlattenMembers(m, at))
    decreases |text| - pos, 3
  {
    hide Occurs, SkipTrivia, ReadValue, ReadKey, TriviaOk, TriviaText, TreeText, TreeOk, Flatten, Depth, QuotedText;
    hide PiecesOk, PiecesValue, MembersText;
    var before, key, mid, colon := KeySound(text, pos, at, skipped);
    var c := colon + 1;
    var lead, v := ValueSound(text, c, depth + 1);
    var after := TriviaSoundBefore(text, ReadValue(text, c, depth + 1).pos);
    m := Members(before, key, mid, lead, v, after, None);
    assert MembersTail(m) == [];
    assert MemberValueAt(m, at) == c + |TriviaText(lead)|;
    NothingText(text, ReadMember(text, pos, depth).pos);
    MembersPlaced(text, at, m, colon, ReadMember(text, pos, depth).pos);
    var events := Flatten(v, MemberValueAt(m, at));
    assert events + [] == events;
  }

  lemma {:induction false} MembersSound(text: bytes, pos: nat, at: nat, skipped: Trivia, depth: nat)
      returns (m: Members)
    requires pos <= |text| && depth < MAX_DEPTH && ReadMembers(text, pos, depth).Good?
    requires TriviaOk(skipped) && Occurs(text, at, TriviaText(skipped)) && pos == at + |TriviaText(skipped)|
    ensures MembersOk(m) && Occurs(text, at, MembersText(m)) && MembersDepth(m) + depth + 1 <= MAX_DEPTH
    ensures ReadMembers(text, pos, depth) == Good(at + |MembersText(m)| + 1, FlattenMembers(m, at))
    ensures ByteAt(text, at + |MembersText(m)|, CLOSE_BRACE)
    decreases |text| - pos, 4
  {
    hide Occurs, SkipTrivia, ReadMember, TriviaOk, TriviaText, MembersText, FlattenMembers, Depth;
    m := MemberSound(text, pos, at, skipped, depth);
    var s := ReadMember(text, pos, depth).pos;
    if ByteAt(text, s, COMMA) {
      NothingText(text, s + 1);
      var more := MembersSound(text, s + 1, s + 1, [], depth);
      m := MembersFollowed(text, at, m, more);
    }
  }

  /** A list of one member, and the same list with more members behind it. */
  lemma FollowedText(first: Members, more: Members)
    requires first.rest.None?
    ensures MembersText(first.(rest := Some(more))) == MembersText(first) + ([COMMA] + MembersText(more))
  {
    hide TriviaText, TreeText, QuotedText;
    var nothing: bytes, tail := [], [COMMA] + MembersText(more);
    var a, b, c := TriviaText(first.before), QuotedText(first.key), TriviaText(first.mid);
    var d, e, f := TriviaText(first.lead), TreeText(first.v), TriviaText(first.after);
    NothingAdded(f);
    NothingAdded(tail);
    MemberRegroups(a, b, c, d, e, f, tail);
  }

  lemma MemberRegroups(a: bytes, b: bytes, c: bytes, d: bytes, e: bytes, f: bytes, tail: bytes)
    ensures (a + (b + (c + ([COLON] + (d + (e + f)))))) + tail == a + (b + (c + ([COLON] + (d + (e + (f + tail))))))
  {
    Associates(e, f, tail);
    Associates(d, e + f, tail);
    Associates([COLON], d + (e + f), tail);
    Associates(c, [COLON] + (d + (e + f)), tail);
    Associates(b, c + ([COLON] + (d + (e + f))), tail);
    Associates(a, b + (c + ([COLON] + (d + (e + f)))), tail);
  }

  lemma FollowedEvents(first: Members, more: Members, at: nat)
    requires MembersOk(first) && first.rest.None? && MembersOk(more)
    ensures var m, next := first.(rest := Some(more)), at + |MembersText(first)| + 1;
            MembersOk(m) && FlattenMembers(m, at) == FlattenMembers(first, at) + FlattenMembers(more, next)
  {
    hide TriviaText, TreeText, QuotedText, TriviaOk, TreeOk, PiecesOk, PiecesValue, Flatten;
    var key := [Location(MemberKeyAt(first, at), |QuotedText(first.key)|), Key(PiecesValue(first.key))];
    var events := Flatten(first.v, MemberValueAt(first, at));
    NothingAdded(events);
    Associates(key, events, FlattenMembers(more, at + |MembersText(first)| + 1));
  }

  lemma MembersFollowed(text: bytes, at: nat, first: Members, more: Members) returns (m: Members)
    requires MembersOk(first) && first.rest.None? && MembersOk(more)
    requires Occurs(text, at, MembersText(first)) && ByteAt(text, at + |MembersText(first)|, COMMA)
    requires Occurs(text, at + |MembersText(first)| + 1, MembersText(more))
    ensures m == first.(rest := Some(more)) && MembersOk(m) && Occurs(text, at, MembersText(m))
    ensures |MembersText(m)| == |MembersText(first)| + 1 + |MembersText(more)|
    ensures FlattenMembers(m, at) == FlattenMembers(first, at) + FlattenMembers(more, at + |MembersText(first)| + 1)
  {
    hide Occurs, MembersText, MembersOk, FlattenMembers;
    m := first.(rest := Some(more));
    FollowedText(first, more);
    FollowedEvents(first, more, at);
    TailOccurs(text, at + |MembersText(first)|, MembersText(more));
    OccursConcat(text, at, MembersText(first), [COMMA] + MembersText(more));
  }

  // ----- documents -----

  lemma DocumentSound(text: bytes) returns (d: Document)
    requires Read(text).Good?
    ensures DocumentOk(d) && Depth(d.v) <= MAX_DEPTH && DocumentText(d) == text
    ensures Read(text) == Good(|text|, DocumentEvents(d))
  {
    hide Occurs, SkipTrivia, ReadValue, TriviaOk, TriviaText, TreeText, TreeOk, Flatten, Depth;
    var from := Start(text);
    var lead := TriviaSoundBefore(text, from);
    var p := SkipTrivia(text, from).pos;
    var before, v := ValueSound(text, p, 0);
    before := TriviaJoin(text, from, lead, before);
    var after, trailer := TriviaSound(text, ReadValue(text, p, 0).pos);
    d := Document(Occurs(text, 0, BOM), before, v, after, trailer);
    var s := ReadValue(text, p, 0).pos + |TriviaText(after)|;
    TrailerPlaced(text, s, trailer);
    DocumentPlaced(text, d, s);
  }

  lemma TrailerPlaced(text: bytes, s: nat, trailer: Option<bytes>)
    requires trailer.None? ==> s == |text|
    requires trailer.Some? ==> EndsInTrailer(text, s, trailer.value)
    ensures Occurs(text, s, TrailerText(trailer)) && s + |TrailerText(trailer)| == |text|
    ensures trailer.Some? ==> NoLineBreak(trailer.value)
  {
  }

  lemma DocumentPlaced(text: bytes, d: Document, end: nat)
    requires d.bom == Occurs(text, 0, BOM) && ValueStands(text, DocumentStart(d), d.before, d.v, d.after, end)
    requires Occurs(text, end, TrailerText(d.trailer)) && end + |TrailerText(d.trailer)| == |text|
    ensures DocumentText(d) == text
  {
    hide Occurs, TriviaText, TreeText, TrailerText;
    var from := DocumentStart(d);
    var rest := TriviaText(d.before) + (TreeText(d.v) + (TriviaText(d.after) + TrailerText(d.trailer)));
    OccursFour(text, from, TriviaText(d.before), TreeText(d.v), TriviaText(d.after), TrailerText(d.trailer));
    BomPlaced(text, d.bom, rest);
  }

  lemma BomPlaced(text: bytes, bom: bool, rest: bytes)
    requires bom == Occurs(text, 0, BOM)
    requires Occurs(text, if bom then 3 else 0, rest) && (if bom then 3 else 0) + |rest| == |text|
    ensures (if bom then BOM else []) + rest == text
  {
    hide Occurs;
    if bom {
      OccursConcat(text, 0, BOM, rest);
      OccursWhole(text, BOM + rest);
    } else {
      OccursWhole(text, rest);
      assert [] + rest == rest;
    }
  }
}
