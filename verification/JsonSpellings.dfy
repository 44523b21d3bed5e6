/**
 * The ways to write a character in a JSON string, from the side of who writes it: as it is, by the
 * letter that names it, or by its number in hexadecimal digits, as one code unit of UTF-16 or two
 * (section 7 of RFC 8259). A reader gets the character back whichever way was taken, and what it
 * takes for a string was written in one of them.
 */
module JsonSpellings {
  import opened Bytes
  import opened Wrappers
  import opened JsonEvents
  import opened JsonGrammar
  import opened JsonReading
  import JsonTheorems
  import JsonRoundTrip
  import Utf8

  // ----- spelling -----

  function HexDigit(d: nat, upper: bool): (r: byte)
    requires d < 16
  {
    var digits := if upper then "0123456789ABCDEF" else "0123456789abcdef";
    assert digits[d] <= 'f';
    digits[d] as int
  }

  /** Which of four digits are written with a capital letter. */
  datatype Casing = Casing(first: bool, second: bool, third: bool, fourth: bool)

  function Hex(n: nat, k: Casing): (r: bytes)
    requires n < 0x1_0000
  {
    [HexDigit(n / 0x1000, k.first), HexDigit(n / 0x100 % 16, k.second), HexDigit(n / 16 % 16, k.third),
     HexDigit(n % 16, k.fourth)]
  }

  function Unit16(n: nat, k: Casing): (r: bytes)
    requires n < 0x1_0000
  {
    ['\\' as int, 'u' as int] + Hex(n, k)
  }

  /** The letters that name characters, and the characters they name. */
  const LETTERS: string := "\"\\/bfnrt"
  const NAMED: seq<nat> := [0x22, 0x5C, 0x2F, 0x08, 0x0C, 0x0A, 0x0D, 0x09]

  datatype Way = AsIs | ByLetter(which: nat) | ByNumber(first: Casing, second: Casing)

  predicate Fits(c: nat, way: Way) {
    && Utf8.IsScalar(c)
    && (way.AsIs? ==> c >= 0x20 && c != '"' as int && c != '\\' as int)
    && (way.ByLetter? ==> way.which < |NAMED| && c == NAMED[way.which])
  }

  function Spelled(c: nat, way: Way): (r: bytes)
    requires Fits(c, way)
  {
    match way
    case AsIs => Utf8.Encode(c)
    case ByLetter(which) => LetterIsAscii(which); ['\\' as int, LETTERS[which] as int]
    case ByNumber(first, second) =>
      if c < 0x1_0000 then Unit16(c, first)
      else Unit16(0xD800 + (c - 0x1_0000) / 0x400, first) + Unit16(0xDC00 + (c - 0x1_0000) % 0x400, second)
  }

  lemma LetterIsAscii(which: nat)
    requires which < |NAMED|
    ensures |LETTERS| == |NAMED| && LETTERS[which] < 128 as char
  {
  }

  predicate AllFit(cs: seq<nat>, ways: seq<Way>) {
    |cs| == |ways| && forall i | 0 <= i < |cs| :: Fits(cs[i], ways[i])
  }

  function AllSpelled(cs: seq<nat>, ways: seq<Way>): (r: bytes)
    requires AllFit(cs, ways)
  {
    if cs == [] then [] else Spelled(cs[0], ways[0]) + AllSpelled(cs[1..], ways[1..])
  }

  // ----- what is spelled is read -----

  lemma HexDigitReads(d: nat, upper: bool)
    requires d < 16
    ensures HexValue(HexDigit(d, upper)) == d
  {
  }

  lemma HexReads(n: nat, k: Casing)
    requires n < 0x1_0000
    ensures IsHex4(Hex(n, k)) && Hex4Value(Hex(n, k)) == n
  {
    hide HexValue, HexDigit;
    HexDigitReads(n / 0x1000, k.first);
    HexDigitReads(n / 0x100 % 16, k.second);
    HexDigitReads(n / 16 % 16, k.third);
    HexDigitReads(n % 16, k.fourth);
    FourDigits(n);
  }

  lemma FourDigits(n: nat)
    requires n < 0x1_0000
    ensures ((n / 0x1000 * 16 + n / 0x100 % 16) * 16 + n / 16 % 16) * 16 + n % 16 == n
  {
    assert n / 0x1000 == n / 0x100 / 16 && n / 0x100 == n / 16 / 16;
  }

  lemma Surrogates(c: nat)
    requires 0x1_0000 <= c <= 0x10_FFFF
    ensures var high, low := 0xD800 + (c - 0x1_0000) / 0x400, 0xDC00 + (c - 0x1_0000) % 0x400;
            Utf8.IsHighSurrogate(high) && Utf8.IsLowSurrogate(low) && PairValue(high, low) == c
  {
  }

  function PieceFor(c: nat, way: Way): (r: Piece)
    requires Fits(c, way)
  {
    match way
    case AsIs => Plain(c)
    case ByLetter(which) => LetterIsAscii(which); Short(LETTERS[which] as int)
    case ByNumber(first, second) =>
      if c < 0x1_0000 then Unit(Hex(c, first))
      else Pair(Hex(0xD800 + (c - 0x1_0000) / 0x400, first), Hex(0xDC00 + (c - 0x1_0000) % 0x400, second))
  }

  lemma PieceMeans(c: nat, way: Way)
    requires Fits(c, way)
    ensures var p := PieceFor(c, way); PieceOk(p) && PieceText(p) == Spelled(c, way) && PieceValue(p) == Utf8.Encode(c)
  {
    hide Hex, Utf8.Encode, HexValue, Hex4Value, IsHex4;
    match way
    case AsIs =>
    case ByLetter(which) => LetterMeans(which);
    case ByNumber(first, second) =>
      if c < 0x1_0000 {
        HexReads(c, first);
      } else {
        Surrogates(c);
        HexReads(0xD800 + (c - 0x1_0000) / 0x400, first);
        HexReads(0xDC00 + (c - 0x1_0000) % 0x400, second);
        assert PieceText(PieceFor(c, way)) == Spelled(c, way);
      }
  }

  lemma LetterMeans(which: nat)
    requires which < |NAMED|
    ensures |LETTERS| == |NAMED| && LETTERS[which] < 128 as char
    ensures Unescape(LETTERS[which] as int) == Some(NAMED[which]) && Utf8.Encode(NAMED[which]) == [NAMED[which]]
  {
  }

  lemma {:induction false} PiecesMean(cs: seq<nat>, ways: seq<Way>) returns (ps: seq<Piece>)
    requires AllFit(cs, ways)
    ensures PiecesOk(ps) && PiecesText(ps) == AllSpelled(cs, ways) && PiecesValue(ps) == Utf8.EncodeAll(cs)
    decreases |cs|
  {
    hide PieceOk, PieceText, PieceValue, Utf8.Encode, Spelled, Fits, PieceFor;
    ps := [];
    if cs != [] {
      PieceMeans(cs[0], ways[0]);
      var rest := PiecesMean(cs[1..], ways[1..]);
      ps := [PieceFor(cs[0], ways[0])] + rest;
      assert ps[1..] == rest;
    }
  }

  function InQuotes(inner: bytes): (r: bytes) { ['"' as int] + (inner + ['"' as int]) }

  /** However the characters of a string are written, a text in quotes is read as those characters. */
  lemma SpelledReads(cs: seq<nat>, ways: seq<Way>)
    requires AllFit(cs, ways)
    ensures var text := InQuotes(AllSpelled(cs, ways));
            Read(text) == Good(|text|, [Location(0, |text|), Value(Str(Utf8.EncodeAll(cs)))])
  {
    hide Read, AllSpelled, Utf8.EncodeAll, PiecesText, PiecesValue;
    var ps := PiecesMean(cs, ways);
    var d := JsonRoundTrip.Bare(Quoted(ps));
    JsonRoundTrip.BareSpells(Quoted(ps));
    JsonTheorems.ParserCorrect(DocumentText(d));
    assert JsonTheorems.IsDocument(d, DocumentText(d));
    NothingBefore();
  }

  lemma NothingBefore()
    ensures |TriviaText([])| == 0
  {
  }

  // ----- what is read was spelled -----

  lemma HexDigitIs(b: byte) returns (upper: bool)
    requires HexValue(b) >= 0
    ensures HexValue(b) < 16 && HexDigit(HexValue(b), upper) == b
  {
    upper := b < 0x61;
  }

  lemma HexIs(s: bytes) returns (k: Casing)
    requires IsHex4(s)
    ensures Hex4Value(s) < 0x1_0000 && Hex(Hex4Value(s), k) == s
  {
    hide HexValue, HexDigit;
    var first := HexDigitIs(s[0]);
    var second := HexDigitIs(s[1]);
    var third := HexDigitIs(s[2]);
    var fourth := HexDigitIs(s[3]);
    k := Casing(first, second, third, fourth);
    DigitsOfFour(HexValue(s[0]), HexValue(s[1]), HexValue(s[2]), HexValue(s[3]));
  }

  lemma DigitsOfFour(a: nat, b: nat, c: nat, d: nat)
    requires a < 16 && b < 16 && c < 16 && d < 16
    ensures var n := ((a * 16 + b) * 16 + c) * 16 + d;
            n < 0x1_0000 && n / 0x1000 == a && n / 0x100 % 16 == b && n / 16 % 16 == c && n % 16 == d
  {
    var n := ((a * 16 + b) * 16 + c) * 16 + d;
    assert n / 16 == (a * 16 + b) * 16 + c && n / 0x100 == a * 16 + b && n / 0x1000 == a;
  }

  lemma PieceIsSpelled(p: Piece) returns (c: nat, way: Way)
    requires PieceOk(p)
    ensures Fits(c, way) && PieceText(p) == Spelled(c, way) && PieceValue(p) == Utf8.Encode(c)
  {
    hide Utf8.Encode, HexValue, Hex4Value, IsHex4, Hex;
    match p
    case Plain(d) => c, way := d, AsIs;
    case Short(letter) =>
      var which := LetterIs(letter);
      LetterMeans(which);
      c, way := NAMED[which], ByLetter(which);
    case Unit(digits) =>
      var k := HexIs(digits);
      c, way := Hex4Value(digits), ByNumber(k, k);
    case Pair(high, low) =>
      var k := HexIs(high);
      var l := HexIs(low);
      c, way := PairValue(Hex4Value(high), Hex4Value(low)), ByNumber(k, l);
      PairIs(Hex4Value(high), Hex4Value(low));
      assert PieceText(p) == Spelled(c, way);
  }

  lemma PairIs(high: nat, low: nat)
    requires Utf8.IsHighSurrogate(high) && Utf8.IsLowSurrogate(low)
    ensures var c := PairValue(high, low);
            0x1_0000 <= c <= 0x10_FFFF && high == 0xD800 + (c - 0x1_0000) / 0x400
            && low == 0xDC00 + (c - 0x1_0000) % 0x400
  {
  }

  lemma LetterIs(letter: byte) returns (which: nat)
    requires Unescape(letter).Some?
    ensures which < |NAMED| == |LETTERS| && LETTERS[which] < 128 as char && LETTERS[which] as int == letter
    ensures Unescape(letter).value == NAMED[which]
  {
    which := if letter == 0x22 then 0 else if letter == 0x5C then 1 else if letter == 0x2F then 2
      else if letter == 0x62 then 3 else if letter == 0x66 then 4 else if letter == 0x6E then 5
      else if letter == 0x72 then 6 else 7;
  }

  /** Every string of the grammar is written in these ways. */
  lemma {:induction false} StringIsSpelled(ps: seq<Piece>) returns (cs: seq<nat>, ways: seq<Way>)
    requires PiecesOk(ps)
    ensures AllFit(cs, ways) && PiecesText(ps) == AllSpelled(cs, ways) && PiecesValue(ps) == Utf8.EncodeAll(cs)
    decreases |ps|
  {
    hide PieceOk, PieceText, PieceValue, Utf8.Encode, Spelled, Fits;
    cs, ways := [], [];
    if ps != [] {
      var c, way := PieceIsSpelled(ps[0]);
      var ds, more := StringIsSpelled(ps[1..]);
      cs, ways := [c] + ds, [way] + more;
      assert cs[1..] == ds && ways[1..] == more;
    }
  }

  /** A text is a string in quotes, its characters written in these ways. */
  predicate IsSpelling(text: bytes, v: bytes, cs: seq<nat>, ways: seq<Way>) {
    AllFit(cs, ways) && text == InQuotes(AllSpelled(cs, ways)) && v == Utf8.EncodeAll(cs)
  }

  predicate ReadsAs(text: bytes, v: bytes) { Read(text) == Good(|text|, [Location(0, |text|), Value(Str(v))]) }

  /** A text is read as one string, and as no more, exactly when it is a spelling of it in quotes. */
  lemma StringReadsExactly(text: bytes, v: bytes)
    ensures ReadsAs(text, v) <==> exists cs, ways :: IsSpelling(text, v, cs, ways)
  {
    hide ReadsAs, IsSpelling;
    if ReadsAs(text, v) {
      var cs, ways := SpellingOf(text, v);
    }
    forall cs, ways | IsSpelling(text, v, cs, ways) ensures ReadsAs(text, v) {
      SpellingReads(text, v, cs, ways);
    }
  }

  lemma SpellingReads(text: bytes, v: bytes, cs: seq<nat>, ways: seq<Way>)
    requires IsSpelling(text, v, cs, ways)
    ensures ReadsAs(text, v)
  {
    hide Read, AllSpelled, Utf8.EncodeAll, AllFit;
    SpelledReads(cs, ways);
  }

  lemma SpellingOf(text: bytes, v: bytes) returns (cs: seq<nat>, ways: seq<Way>)
    requires ReadsAs(text, v)
    ensures IsSpelling(text, v, cs, ways)
  {
    hide Read, AllSpelled, Utf8.EncodeAll, AllFit, JsonTheorems.IsDocument;
    JsonTheorems.ParserCorrect(text);
    var d :| JsonTheorems.IsDocument(d, text);
    var ps := OnlyString(d, text, v);
    cs, ways := StringIsSpelled(ps);
  }

  lemma OnlyString(d: Document, text: bytes, v: bytes) returns (ps: seq<Piece>)
    requires JsonTheorems.IsDocument(d, text) && DocumentEvents(d) == [Location(0, |text|), Value(Str(v))]
    ensures PiecesOk(ps) && text == InQuotes(PiecesText(ps)) && v == PiecesValue(ps)
  {
    hide PiecesText, PiecesValue, NumeralText, TriviaText;
    var at := DocumentStart(d) + |TriviaText(d.before)|;
    assert DocumentEvents(d)[0] == Location(0, |text|) && DocumentEvents(d)[1] == Value(Str(v));
    assert d.v.Quoted?;
    ps := d.v.pieces;
    assert at == 0 && |QuotedText(ps)| == |text|;
  }

  // ----- characters of the grammar -----

  predicate Among(b: byte, s: string) { exists i | 0 <= i < |s| :: s[i] as int == b }

  /** White space, line breaks, digits and exponent marks are these characters. */
  lemma GrammarCharacters(b: byte)
    ensures IsSpace(b) <==> Among(b, " \t\r\n")
    ensures IsLineBreak(b) <==> Among(b, "\r\n")
    ensures IsDigit(b) <==> Among(b, "0123456789")
    ensures IsExponentMark(b) <==> Among(b, "eE")
  {
    var spaces, breaks, digits, marks := " \t\r\n", "\r\n", "0123456789", "eE";
    assert IsSpace(b) ==> Among(b, spaces) by {
      assert spaces[0] as int == 0x20 && spaces[1] as int == 0x09;
      assert spaces[2] as int == 0x0D && spaces[3] as int == 0x0A;
    }
    assert IsLineBreak(b) ==> Among(b, breaks) by {
      assert breaks[0] as int == 0x0D && breaks[1] as int == 0x0A;
    }
    assert IsDigit(b) ==> Among(b, digits) by {
      if IsDigit(b) {
        assert digits[b - 0x30] as int == b;
      }
    }
    assert IsExponentMark(b) ==> Among(b, marks) by {
      assert marks[0] as int == 0x65 && marks[1] as int == 0x45;
    }
  }
}
