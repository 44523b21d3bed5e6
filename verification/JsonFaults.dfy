/** What stands in a text where the parser reports a fault, by the kind of fault. */
module JsonFaults {
  import opened Bytes
  import opened Wrappers
  import opened JsonGrammar
  import opened JsonReading
  import Spellings = JsonSpellings
  import Utf8

  /** How many brackets are opened in a text, strings and comments included. */
  function Brackets(s: bytes): (r: nat) {
    if s == [] then 0
    else Brackets(s[..|s| - 1]) + if s[|s| - 1] == '{' as int || s[|s| - 1] == '[' as int then 1 else 0
  }

  predicate HexDigit(b: byte) { Spellings.Among(b, "0123456789abcdefABCDEF") }

  predicate UnitAt(text: bytes, pos: nat) {
    && pos + 6 <= |text| && text[pos] == '\\' as int && text[pos + 1] == 'u' as int
    && forall i | pos + 2 <= i < pos + 6 :: HexDigit(text[i])
  }

  /** A backslash, a u and four digits that stand for half of a pair, alone or with another unit that does not fit. */
  predicate Unpaired(text: bytes, f: Fault) {
    && UnitAt(text, f.offset) && (f.length == 6 || (f.length == 12 && UnitAt(text, f.offset + 6)))
    && IsHex4(text[f.offset + 2..f.offset + 6])
    && var first := Hex4Value(text[f.offset + 2..f.offset + 6]);
       if f.length == 6 then 0xD800 <= first < 0xE000
       else
         && IsHex4(text[f.offset + 8..f.offset + 12]) && 0xD800 <= first < 0xDC00
         && !(0xDC00 <= Hex4Value(text[f.offset + 8..f.offset + 12]) < 0xE000)
  }

  /** No number of the grammar that stands there is as long as what is reported. */
  ghost predicate NoNumber(text: bytes, f: Fault) {
    && f.length > 0 && f.offset < |text| && Spellings.Among(text[f.offset], "-0123456789")
    && forall n: Numeral | NumeralOk(n) && Occurs(text, f.offset, NumeralText(n)) :: |NumeralText(n)| < f.length
  }

  /** What is reported is there. */
  ghost predicate Means(text: bytes, f: Fault) {
    InText(text, f) &&
    match f.code
    case UnexpectedEnd => f.offset + f.length == |text|
    case UnexpectedToken => f.length <= 1 && (f.length == 1 ==> !Spellings.Among(text[f.offset], " \t\r\n"))
    case InvalidString => f.length == 1 && text[f.offset] < 0x20
    case InvalidEscape =>
      f.length == 2 && text[f.offset] == '\\' as int && !Spellings.Among(text[f.offset + 1], "\"\\/bfnrtu")
    case InvalidUnicode => (f.length == 1 && !HexDigit(text[f.offset])) || Unpaired(text, f)
    case InvalidUtf8 =>
      f.length > 0 && text[f.offset] > 0x7F && forall c | Utf8.IsScalar(c) :: !Occurs(text, f.offset, Utf8.Encode(c))
    case InvalidNumber => NoNumber(text, f)
    case UnterminatedComment =>
      && f.length >= 2 && text[f.offset] == '/' as int && text[f.offset + 1] == '*' as int
      && f.offset + f.length == |text| && forall i | f.offset + 2 <= i < |text| - 1 ::
           !(text[i] == '*' as int && text[i + 1] == '/' as int)
    case NestingTooDeep =>
      f.length == 1 && Spellings.Among(text[f.offset], "{[") && Brackets(text[..f.offset]) >= 64
  }

  // ----- characters -----

  lemma SpaceIs(b: byte)
    ensures IsSpace(b) <==> Spellings.Among(b, " \t\r\n")
  {
    Spellings.GrammarCharacters(b);
  }

  lemma HexIs(b: byte)
    ensures HexValue(b) >= 0 <==> HexDigit(b)
  {
    var s := "0123456789abcdefABCDEF";
    if HexValue(b) >= 0 {
      var i := if b < 0x3A then b - 0x30 else if b < 0x47 then b - 0x41 + 16 else b - 0x61 + 10;
      assert s[i] as int == b;
    }
  }

  lemma EscapeIs(b: byte)
    ensures Unescape(b).Some? || b == LETTER_U <==> Spellings.Among(b, "\"\\/bfnrtu")
  {
    var s := "\"\\/bfnrtu";
    assert s[0] as int == 0x22 && s[1] as int == 0x5C && s[2] as int == 0x2F && s[3] as int == 0x62;
    assert s[4] as int == 0x66 && s[5] as int == 0x6E && s[6] as int == 0x72 && s[7] as int == 0x74;
    assert s[8] as int == 0x75;
  }

  lemma NumberStart(b: byte)
    ensures b == MINUS || IsDigit(b) ==> Spellings.Among(b, "-0123456789")
  {
    var s := "-0123456789";
    assert s[0] as int == 0x2D;
    if IsDigit(b) {
      assert s[b - 0x30 + 1] as int == b;
    }
  }

  lemma BracketIs(b: byte)
    ensures b == OPEN_BRACE || b == OPEN_BRACKET <==> Spellings.Among(b, "{[")
  {
    var s := "{[";
    assert s[0] as int == 0x7B && s[1] as int == 0x5B;
  }

  // ----- trivia -----

  lemma {:induction false} NoBlockEnd(text: bytes, pos: nat)
    requires pos <= |text| && BlockEnd(text, pos).None?
    ensures forall i | pos <= i < |text| - 1 :: !(text[i] == STAR && text[i + 1] == SLASH)
    decreases |text| - pos
  {
    if pos + 1 < |text| {
      NoBlockEnd(text, pos + 1);
    }
  }

  lemma {:induction false} TriviaFaults(text: bytes, pos: nat)
    requires pos <= |text|
    ensures match SkipTrivia(text, pos)
            case Bad(f) => Means(text, f)
            case Good(p, _) => p < |text| ==> !IsSpace(text[p])
    decreases |text| - pos
  {
    hide LineEnd, BlockEnd;
    if pos < |text| && IsSpace(text[pos]) {
      TriviaFaults(text, pos + 1);
    } else if ByteAt(text, pos, SLASH) && ByteAt(text, pos + 1, SLASH) {
      TriviaFaults(text, LineEnd(text, pos + 2));
    } else if ByteAt(text, pos, SLASH) && ByteAt(text, pos + 1, STAR) {
      if BlockEnd(text, pos + 2).Some? {
        TriviaFaults(text, BlockEnd(text, pos + 2).value);
      } else {
        NoBlockEnd(text, pos + 2);
      }
    }
  }

  lemma TokenFault(text: bytes, p: nat)
    requires p <= |text| && (p < |text| ==> !IsSpace(text[p]))
    ensures Means(text, Fault(UnexpectedToken, p, OneOrEnd(text, p)))
  {
    if p < |text| {
      SpaceIs(text[p]);
    }
  }

  // ----- strings -----

  lemma {:induction false} HexRunFaults(text: bytes, pos: nat, left: nat, acc: nat)
    requires pos + left <= |text|
    ensures HexRun(text, pos, left, acc).Bad? ==> Means(text, HexRun(text, pos, left, acc).fault)
    ensures HexRun(text, pos, left, acc).Good? ==> forall i | pos <= i < pos + left :: HexValue(text[i]) >= 0
    decreases left
  {
    hide HexValue;
    if left > 0 {
      HexIs(text[pos]);
      if HexValue(text[pos]) >= 0 {
        HexRunFaults(text, pos + 1, left - 1, acc * 16 + HexValue(text[pos]));
      }
    }
  }

  lemma Hex4Faults(text: bytes, pos: nat)
    requires pos <= |text|
    ensures match Hex4(text, pos)
            case Bad(f) => Means(text, f)
            case Good(_, value) =>
              && IsHex4(text[pos..pos + 4]) && value == Hex4Value(text[pos..pos + 4])
              && forall i | pos <= i < pos + 4 :: HexDigit(text[i])
  {
    hide HexDigit;
    if pos + 4 <= |text| {
      HexRunFaults(text, pos, 4, 0);
      var s := text[pos..pos + 4];
      if Hex4(text, pos).Good? {
        assert forall i | 0 <= i < 4 :: s[i] == text[pos + i] && HexValue(s[i]) >= 0;
        FourRuns(text, pos);
        forall i | pos <= i < pos + 4 ensures HexDigit(text[i]) {
          HexIs(text[i]);
        }
      }
    }
  }

  lemma FourRuns(text: bytes, pos: nat)
    requires pos + 4 <= |text| && forall i | pos <= i < pos + 4 :: HexValue(text[i]) >= 0
    ensures HexRun(text, pos, 4, 0)
         == Good(pos + 4, ((HexValue(text[pos]) * 16 + HexValue(text[pos + 1])) * 16 + HexValue(text[pos + 2])) * 16
                          + HexValue(text[pos + 3]))
  {
    hide HexValue;
    var a := HexValue(text[pos]);
    var b := a * 16 + HexValue(text[pos + 1]);
    var c := b * 16 + HexValue(text[pos + 2]);
    assert HexRun(text, pos + 4, 0, c * 16 + HexValue(text[pos + 3])).Good?;
    assert HexRun(text, pos + 3, 1, c) == HexRun(text, pos + 4, 0, c * 16 + HexValue(text[pos + 3]));
    assert HexRun(text, pos + 2, 2, b) == HexRun(text, pos + 3, 1, c);
    assert HexRun(text, pos + 1, 3, a) == HexRun(text, pos + 2, 2, b);
  }

  lemma EscapeFaults(text: bytes, pos: nat)
    requires pos < |text| && text[pos] == BACKSLASH
    ensures Escape(text, pos).Bad? ==> Means(text, Escape(text, pos).fault)
  {
    hide Unescape, Hex4, HexDigit, Hex4Value, IsHex4;
    if pos + 1 < |text| {
      EscapeIs(text[pos + 1]);
      if text[pos + 1] == LETTER_U {
        Hex4Faults(text, pos + 2);
        var first := Hex4(text, pos + 2);
        if first.Good? && ByteAt(text, pos + 6, BACKSLASH) && ByteAt(text, pos + 7, LETTER_U) {
          Hex4Faults(text, pos + 8);
          assert Hex4(text, pos + 8).Good? ==> UnitAt(text, pos + 6);
        }
        assert first.Good? ==> UnitAt(text, pos);
      }
    }
  }

  lemma PieceFaults(text: bytes, pos: nat)
    requires pos < |text|
    ensures StringPiece(text, pos).Bad? ==> Means(text, StringPiece(text, pos).fault)
  {
    hide Escape, Utf8.DecodeOne, Utf8.Encode;
    if text[pos] >= 0x20 {
      if text[pos] == BACKSLASH {
        EscapeFaults(text, pos);
      } else if text[pos] > 0x7F && !Utf8.DecodeOne(text, pos).status.Ok? {
        forall c | Utf8.IsScalar(c) ensures !Occurs(text, pos, Utf8.Encode(c)) {
          if Occurs(text, pos, Utf8.Encode(c)) {
            Utf8.DecodeUndoesEncode(text, pos, c);
          }
        }
      }
    }
  }

  lemma {:induction false} StringFaults(text: bytes, pos: nat)
    requires pos <= |text|
    ensures StringRest(text, pos).Bad? ==> Means(text, StringRest(text, pos).fault)
    decreases |text| - pos
  {
    hide StringPiece;
    if pos < |text| && text[pos] != QUOTE {
      PieceFaults(text, pos);
      if StringPiece(text, pos).Good? {
        StringFaults(text, StringPiece(text, pos).pos);
      }
    }
  }

  // ----- numbers -----

  lemma {:induction false} DigitsTo(text: bytes, pos: nat)
    requires pos <= |text|
    ensures forall i | pos <= i < DigitsEnd(text, pos) :: IsDigit(text[i])
    decreases |text| - pos
  {
    if pos < |text| && IsDigit(text[pos]) {
      DigitsTo(text, pos + 1);
    }
  }

  /** Where the parts of a number end that stands in a text, and what stands there. */
  ghost predicate Parts(text: bytes, begin: nat, n: Numeral, whole: nat, fraction: nat, end: nat) {
    var first := begin + |SignText(n)|;
    && first < whole <= fraction <= end <= |text| && end == begin + |NumeralText(n)|
    && (n.minus <==> text[begin] == MINUS)
    && (forall i | first <= i < whole :: IsDigit(text[i])) && (text[first] == ZERO ==> whole == first + 1)
    && (n.fraction.None? ==> fraction == whole)
    && (n.fraction.Some? ==> fraction > whole + 1 && text[whole] == DOT)
    && (n.fraction.Some? ==> forall i | whole < i < fraction :: IsDigit(text[i]))
    && (n.exponent.None? ==> end == fraction)
    && (n.exponent.Some? ==> end > fraction && IsExponentMark(text[fraction]))
    && (n.exponent.Some? ==> DigitAt(text, AfterSign(text, fraction + 1)))
  }

  lemma NumeralParts(text: bytes, begin: nat, n: Numeral) returns (whole: nat, fraction: nat, end: nat)
    requires NumeralOk(n) && Occurs(text, begin, NumeralText(n))
    ensures Parts(text, begin, n, whole, fraction, end)
  {
    hide Occurs, AfterSign;
    var first := begin + |SignText(n)|;
    SliceOccurs(text, begin, NumeralText(n));
    whole := first + |n.whole|;
    fraction := whole + |FractionText(n)|;
    end := fraction + |ExponentText(n)|;
    OccursConcat(text, begin, SignText(n), n.whole + (FractionText(n) + ExponentText(n)));
    OccursConcat(text, first, n.whole, FractionText(n) + ExponentText(n));
    OccursConcat(text, whole, FractionText(n), ExponentText(n));
    WholeStands(text, first, n);
    if n.fraction.Some? {
      FractionStands(text, whole, n);
    }
    if n.exponent.Some? {
      ExponentStands(text, fraction, n);
    }
    if n.minus {
      OccursAt(text, begin, SignText(n), 0);
    }
  }

  lemma WholeStands(text: bytes, first: nat, n: Numeral)
    requires NumeralOk(n) && Occurs(text, first, n.whole)
    ensures forall i | first <= i < first + |n.whole| :: IsDigit(text[i])
    ensures text[first] == ZERO ==> |n.whole| == 1
  {
    OccursAt(text, first, n.whole, 0);
    forall i | first <= i < first + |n.whole| ensures IsDigit(text[i]) {
      OccursAt(text, first, n.whole, i - first);
    }
  }

  lemma FractionStands(text: bytes, whole: nat, n: Numeral)
    requires NumeralOk(n) && n.fraction.Some? && Occurs(text, whole, FractionText(n))
    ensures |FractionText(n)| > 1 && text[whole] == DOT
    ensures forall i | whole < i < whole + |FractionText(n)| :: IsDigit(text[i])
  {
    OccursAt(text, whole, FractionText(n), 0);
    forall i | whole < i < whole + |FractionText(n)| ensures IsDigit(text[i]) {
      OccursAt(text, whole, FractionText(n), i - whole);
      assert FractionText(n)[i - whole] == n.fraction.value[i - whole - 1];
    }
  }

  lemma ExponentStands(text: bytes, fraction: nat, n: Numeral)
    requires NumeralOk(n) && n.exponent.Some? && Occurs(text, fraction, ExponentText(n))
    ensures |ExponentText(n)| > 1 && IsExponentMark(text[fraction]) && fraction + 1 < |text|
    ensures DigitAt(text, AfterSign(text, fraction + 1))
  {
    var e := n.exponent.value;
    var t := ExponentText(n);
    OccursAt(text, fraction, t, 0);
    OccursAt(text, fraction, t, 1);
    if e.sign.Some? {
      assert t[1] == e.sign.value && t[2] == e.digits[0];
      OccursAt(text, fraction, t, 2);
    } else {
      assert t[1] == e.digits[0];
    }
  }

  /** The integer part as it is read: digits, a leading zero alone. */
  lemma WholeRead(text: bytes, begin: nat, p: nat)
    requires begin <= p <= |text| && begin < |text| && Whole(text, begin, p).Good?
    ensures var q := Whole(text, begin, p).pos;
            p < q && (forall i | p <= i < q :: IsDigit(text[i])) && (text[p] == ZERO ==> q == p + 1)
  {
    if text[p] != ZERO {
      DigitsTo(text, p + 1);
    }
  }

  lemma FractionRead(text: bytes, begin: nat, q: nat)
    requires begin <= q <= |text| && begin < |text| && Fraction(text, begin, q).Good?
    ensures var s := Fraction(text, begin, q).pos;
            if ByteAt(text, q, DOT) then s > q + 1 && forall i | q < i < s :: IsDigit(text[i]) else s == q
  {
    if ByteAt(text, q, DOT) {
      DigitsTo(text, q + 1);
      assert DigitsEnd(text, q + 1) > q + 1;
    }
  }

  lemma NumberFaults(text: bytes, begin: nat)
    requires begin < |text| && (text[begin] == MINUS || IsDigit(text[begin]))
    ensures NumberToken(text, begin).Bad? ==> Means(text, NumberToken(text, begin).fault)
  {
    hide Parts, NumeralOk, NumeralText, DigitsEnd;
    NumberStart(text[begin]);
    if NumberToken(text, begin).Bad? {
      var f := NumberToken(text, begin).fault;
      forall n: Numeral | NumeralOk(n) && Occurs(text, begin, NumeralText(n)) ensures |NumeralText(n)| < f.length {
        var whole, fraction, end := NumeralParts(text, begin, n);
        PartsEndBefore(text, begin, n, whole, fraction, end);
      }
    }
  }

  /** A number that stands where reading fails ends before what is reported does. */
  lemma PartsEndBefore(text: bytes, begin: nat, n: Numeral, whole: nat, fraction: nat, end: nat)
    requires begin < |text| && NumberToken(text, begin).Bad? && Parts(text, begin, n, whole, fraction, end)
    ensures |NumeralText(n)| < NumberToken(text, begin).fault.length
  {
    hide NumeralText, DigitsEnd, Whole, Fraction, ExponentPart;
    var p := if text[begin] == MINUS then begin + 1 else begin;
    assert p == begin + |SignText(n)| && p < |text|;
    WholeEndsBefore(text, begin, n, whole, fraction, end, p);
    if Whole(text, begin, p).Good? {
      var q := Whole(text, begin, p).pos;
      WholeRead(text, begin, p);
      FractionEndsBefore(text, begin, n, whole, fraction, end, q);
      if Fraction(text, begin, q).Good? {
        FractionRead(text, begin, q);
        ExponentEndsBefore(text, begin, n, whole, fraction, end, q);
      }
    }
  }

  lemma WholeEndsBefore(text: bytes, begin: nat, n: Numeral, whole: nat, fraction: nat, end: nat, p: nat)
    requires begin < |text| && Parts(text, begin, n, whole, fraction, end) && p == begin + |SignText(n)|
    ensures p <= |text| && (Whole(text, begin, p).Bad? ==> |NumeralText(n)| < Whole(text, begin, p).fault.length)
  {
    hide NumeralText, DigitsEnd;
  }

  lemma FractionEndsBefore(text: bytes, begin: nat, n: Numeral, whole: nat, fraction: nat, end: nat, q: nat)
    requires begin < |text| && Parts(text, begin, n, whole, fraction, end)
    requires var p := begin + |SignText(n)|;
             p < q <= |text| && (forall i | p <= i < q :: IsDigit(text[i])) && (text[p] == ZERO ==> q == p + 1)
    ensures Fraction(text, begin, q).Bad? ==> |NumeralText(n)| < Fraction(text, begin, q).fault.length
  {
    hide NumeralText, DigitsEnd;
  }

  lemma ExponentEndsBefore(text: bytes, begin: nat, n: Numeral, whole: nat, fraction: nat, end: nat, q: nat)
    requires begin < |text| && Parts(text, begin, n, whole, fraction, end)
    requires var p := begin + |SignText(n)|;
             p < q <= |text| && (forall i | p <= i < q :: IsDigit(text[i])) && (text[p] == ZERO ==> q == p + 1)
    requires Fraction(text, begin, q).Good?
    requires var s := Fraction(text, begin, q).pos;
             if ByteAt(text, q, DOT) then s > q + 1 && forall i | q < i < s :: IsDigit(text[i]) else s == q
    ensures var e := ExponentPart(text, begin, Fraction(text, begin, q).pos);
            e.Bad? ==> |NumeralText(n)| < e.fault.length
  {
    hide NumeralText, DigitsEnd, Fraction;
    var s := Fraction(text, begin, q).pos;
    assert end > s && ExponentPart(text, begin, s).Bad? ==> whole == q;
  }

  // ----- values -----

  lemma {:induction false} BracketsGrow(text: bytes, a: nat, b: nat)
    requires a <= b <= |text|
    ensures Brackets(text[..a]) <= Brackets(text[..b])
    decreases b
  {
    if a < b {
      assert text[..b][..b - 1] == text[..b - 1];
      BracketsGrow(text, a, b - 1);
    }
  }

  lemma BracketCounts(text: bytes, a: nat, b: nat)
    requires a < b <= |text| && (text[a] == OPEN_BRACE || text[a] == OPEN_BRACKET)
    ensures Brackets(text[..a]) < Brackets(text[..b])
  {
    assert text[..a + 1][..a] == text[..a];
    BracketsGrow(text, a + 1, b);
  }

  lemma ScalarFaults(text: bytes, p: nat)
    requires p < |text| && !IsSpace(text[p])
    ensures ReadScalar(text, p).Bad? ==> Means(text, ReadScalar(text, p).fault)
  {
    hide StringRest, NumberToken, Means;
    TokenFault(text, p);
    if text[p] == QUOTE {
      StringFaults(text, p + 1);
    } else if text[p] == MINUS || IsDigit(text[p]) {
      NumberFaults(text, p);
    }
  }

  lemma EndFault(text: bytes)
    ensures Means(text, Fault(UnexpectedEnd, |text|, 0))
  {
  }

  lemma DeepFault(text: bytes, p: nat)
    requires p < |text| && (text[p] == OPEN_BRACE || text[p] == OPEN_BRACKET) && Brackets(text[..p]) >= MAX_DEPTH
    ensures Means(text, Fault(NestingTooDeep, p, 1))
  {
    BracketIs(text[p]);
  }

  /** A failure is where it is said to be, in a text of which so many containers are open here. */
  lemma {:induction false} ValueFaults(text: bytes, pos: nat, depth: nat)
    requires pos <= |text| && Brackets(text[..pos]) >= depth
    ensures ReadValue(text, pos, depth).Bad? ==> Means(text, ReadValue(text, pos, depth).fault)
    decreases |text| - pos, 2
  {
    hide SkipTrivia, ReadScalar, ReadObject, ReadArray, Means, Brackets;
    TriviaFaults(text, pos);
    EndFault(text);
    if SkipTrivia(text, pos).Good? {
      var p := SkipTrivia(text, pos).pos;
      BracketsGrow(text, pos, p);
      if p < |text| {
        ScalarFaults(text, p);
        if text[p] == OPEN_BRACE {
          ObjectFaults(text, p, depth);
        } else if text[p] == OPEN_BRACKET {
          ArrayFaults(text, p, depth);
        }
      }
    }
  }

  lemma {:induction false} ObjectFaults(text: bytes, pos: nat, depth: nat)
    requires pos < |text| && text[pos] == OPEN_BRACE && Brackets(text[..pos]) >= depth
    ensures ReadObject(text, pos, depth).Bad? ==> Means(text, ReadObject(text, pos, depth).fault)
    decreases |text| - pos, 1
  {
    hide SkipTrivia, ReadMembers, Means, Brackets;
    if depth >= MAX_DEPTH {
      DeepFault(text, pos);
    } else {
      TriviaFaults(text, pos + 1);
      if SkipTrivia(text, pos + 1).Good? {
        var p := SkipTrivia(text, pos + 1).pos;
        BracketCounts(text, pos, p);
        MembersFaults(text, p, depth);
      }
    }
  }

  lemma KeyFaults(text: bytes, pos: nat)
    requires pos <= |text|
    ensures ReadKey(text, pos).Bad? ==> Means(text, ReadKey(text, pos).fault)
  {
    hide SkipTrivia, StringRest, Means;
    TriviaFaults(text, pos);
    EndFault(text);
    if SkipTrivia(text, pos).Good? {
      var k := SkipTrivia(text, pos).pos;
      if k < |text| {
        TokenFault(text, k);
        StringFaults(text, k + 1);
        if StringRest(text, k + 1).Good? {
          TriviaFaults(text, StringRest(text, k + 1).pos);
          if SkipTrivia(text, StringRest(text, k + 1).pos).Good? {
            TokenFault(text, SkipTrivia(text, StringRest(text, k + 1).pos).pos);
          }
        }
      }
    }
  }

  lemma {:induction false} MemberFaults(text: bytes, pos: nat, depth: nat)
    requires pos <= |text| && Brackets(text[..pos]) > depth
    ensures match ReadMember(text, pos, depth)
            case Bad(f) => Means(text, f)
            case Good(e, _) => e < |text| ==> !IsSpace(text[e])
    decreases |text| - pos, 3
  {
    hide SkipTrivia, ReadKey, ReadValue, Means, Brackets;
    KeyFaults(text, pos);
    if ReadKey(text, pos).Good? {
      var c := ReadKey(text, pos).pos;
      BracketsGrow(text, pos, c);
      ValueFaults(text, c, depth + 1);
      if ReadValue(text, c, depth + 1).Good? {
        TriviaFaults(text, ReadValue(text, c, depth + 1).pos);
      }
    }
  }

  lemma {:induction false} MembersFaults(text: bytes, pos: nat, depth: nat)
    requires pos <= |text| && Brackets(text[..pos]) > depth
    ensures ReadMembers(text, pos, depth).Bad? ==> Means(text, ReadMembers(text, pos, depth).fault)
    decreases |text| - pos, 4
  {
    hide ReadMember, Means, Brackets;
    MemberFaults(text, pos, depth);
    if ReadMember(text, pos, depth).Good? {
      var e := ReadMember(text, pos, depth).pos;
      TokenFault(text, e);
      if ByteAt(text, e, COMMA) {
        BracketsGrow(text, pos, e + 1);
        MembersFaults(text, e + 1, depth);
      }
    }
  }

  lemma {:induction false} ArrayFaults(text: bytes, pos: nat, depth: nat)
    requires pos < |text| && text[pos] == OPEN_BRACKET && Brackets(text[..pos]) >= depth
    ensures ReadArray(text, pos, depth).Bad? ==> Means(text, ReadArray(text, pos, depth).fault)
    decreases |text| - pos, 1
  {
    hide SkipTrivia, ReadElements, Means, Brackets;
    if depth >= MAX_DEPTH {
      DeepFault(text, pos);
    } else {
      TriviaFaults(text, pos + 1);
      if SkipTrivia(text, pos + 1).Good? {
        var p := SkipTrivia(text, pos + 1).pos;
        BracketCounts(text, pos, p);
        ElementsFaults(text, p, depth);
      }
    }
  }

  lemma {:induction false} ElementFaults(text: bytes, pos: nat, depth: nat)
    requires pos <= |text| && Brackets(text[..pos]) > depth
    ensures match ReadElement(text, pos, depth)
            case Bad(f) => Means(text, f)
            case Good(e, _) => e < |text| ==> !IsSpace(text[e])
    decreases |text| - pos, 3
  {
    hide SkipTrivia, ReadValue, Means, Brackets;
    ValueFaults(text, pos, depth + 1);
    if ReadValue(text, pos, depth + 1).Good? {
      TriviaFaults(text, ReadValue(text, pos, depth + 1).pos);
    }
  }

  lemma {:induction false} ElementsFaults(text: bytes, pos: nat, depth: nat)
    requires pos <= |text| && Brackets(text[..pos]) > depth
    ensures ReadElements(text, pos, depth).Bad? ==> Means(text, ReadElements(text, pos, depth).fault)
    decreases |text| - pos, 4
  {
    hide ReadElement, Means, Brackets;
    ElementFaults(text, pos, depth);
    if ReadElement(text, pos, depth).Good? {
      var e := ReadElement(text, pos, depth).pos;
      TokenFault(text, e);
      if ByteAt(text, e, COMMA) {
        BracketsGrow(text, pos, e + 1);
        ElementsFaults(text, e + 1, depth);
      }
    }
  }

  /** Whatever fault is reported for a text, what it says is true of the range it gives. */
  lemma FaultsAreTrue(text: bytes)
    ensures Read(text).Bad? ==> Means(text, Read(text).fault)
  {
    hide SkipTrivia, ReadValue, Means, Start;
    TriviaFaults(text, Start(text));
    EndFault(text);
    if SkipTrivia(text, Start(text)).Good? {
      var p := SkipTrivia(text, Start(text)).pos;
      ValueFaults(text, p, 0);
      if p < |text| && ReadValue(text, p, 0).Good? {
        var q := ReadValue(text, p, 0).pos;
        TriviaFaults(text, q);
        if SkipTrivia(text, q).Good? {
          TokenFault(text, SkipTrivia(text, q).pos);
        }
      }
    }
  }
}
