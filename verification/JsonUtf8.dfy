/**
 * What the writer leaves is read back exactly when every key and string given to it is valid UTF-8.
 * Outside of strings the writer never writes a slash, so a document with that text has no comments,
 * and everything else in a document is valid UTF-8.
 */
module JsonUtf8 {
  import opened Bytes
  import opened Wrappers
  import opened JsonGrammar
  import opened JsonReading
  import opened JsonWriting
  import opened JsonRoundTrip
  import JsonTheorems
  import Utf8

  // ----- valid texts, put together and taken apart -----

  predicate Valid(s: bytes) { Utf8.Walks(s, 0) }

  lemma {:induction false} EncodeAllConcat(a: seq<nat>, b: seq<nat>)
    ensures Utf8.EncodeAll(a + b) == Utf8.EncodeAll(a) + Utf8.EncodeAll(b)
    decreases |a|
  {
    hide Utf8.Encode;
    if a == [] {
      assert a + b == b;
    } else {
      assert (a + b)[1..] == a[1..] + b;
      EncodeAllConcat(a[1..], b);
    }
  }

  lemma ScalarsOf(s: bytes) returns (cs: seq<nat>)
    requires Valid(s)
    ensures Utf8.Scalars(cs) && s == Utf8.EncodeAll(cs)
  {
    cs := Utf8.WalkYieldsScalars(s, 0);
    assert s[0..] == s;
  }

  lemma ValidConcat(a: bytes, b: bytes)
    requires Valid(a) && Valid(b)
    ensures Valid(a + b)
  {
    hide Utf8.EncodeAll, Utf8.Walks;
    var cs := ScalarsOf(a);
    var ds := ScalarsOf(b);
    EncodeAllConcat(cs, ds);
    assert Utf8.Scalars(cs + ds);
    Utf8.WalksExactlyEncodings(a + b);
  }

  predicate Ascii(s: bytes) { forall i | 0 <= i < |s| :: s[i] < 0x80 }

  lemma OneScalar(c: nat)
    requires Utf8.IsScalar(c)
    ensures Valid(Utf8.Encode(c))
  {
    hide Utf8.Encode, Utf8.Walks, Utf8.IsScalar;
    assert [c][1..] == [] && Utf8.EncodeAll([c]) == Utf8.Encode(c) + [] == Utf8.Encode(c);
    assert Utf8.Scalars([c]);
    Utf8.WalksExactlyEncodings(Utf8.Encode(c));
  }

  lemma {:induction false} AsciiIsValid(s: bytes)
    requires Ascii(s)
    ensures Valid(s)
    decreases |s|
  {
    hide Utf8.Walks;
    Utf8.WalksStep(s, 0);
    if s != [] {
      OneScalar(s[0]);
      assert Utf8.Encode(s[0]) == [s[0]] && s == [s[0]] + s[1..];
      AsciiIsValid(s[1..]);
      ValidConcat([s[0]], s[1..]);
    }
  }

  lemma {:induction false} SplitScalars(cs: seq<nat>, a: bytes, x: byte, b: bytes)
    requires Utf8.Scalars(cs) && x < 0x80 && Utf8.EncodeAll(cs) == a + ([x] + b)
    ensures Valid(a) && Valid(b)
    decreases |cs|
  {
    hide Utf8.Walks;
    var whole := a + ([x] + b);
    assert whole != [] && cs != [];
    var e, rest := Utf8.Encode(cs[0]), Utf8.EncodeAll(cs[1..]);
    EncodeStarts(cs[0]);
    Utf8.WalksStep(a, 0);
    hide Utf8.Encode;
    if a == [] {
      assert whole == e + rest && e[0] == whole[0] == x;
      assert e == [x] && b == whole[1..] == rest;
      assert Utf8.Scalars(cs[1..]);
      Utf8.WalksExactlyEncodings(b);
    } else {
      FirstStaysLeft(e, rest, a, x, b);
      SplitScalars(cs[1..], a[|e|..], x, b);
      OneScalar(cs[0]);
      ValidConcat(e, a[|e|..]);
    }
  }

  /** An ASCII byte that does not come first is behind the whole first character. */
  lemma FirstStaysLeft(e: bytes, rest: bytes, a: bytes, x: byte, b: bytes)
    requires e + rest == a + ([x] + b) && x < 0x80 && a != [] && forall i | 1 <= i < |e| :: e[i] >= 0x80
    ensures |e| <= |a| && a == e + a[|e|..] && rest == a[|e|..] + ([x] + b)
  {
    var whole := a + ([x] + b);
    assert whole == e + rest && whole[|e|..] == rest;
    assert forall i | 0 <= i < |e| :: whole[i] == e[i];
    assert whole[|a|] == x && whole[..|a|] == a;
  }

  lemma EncodeStarts(c: nat)
    requires Utf8.IsScalar(c)
    ensures var e := Utf8.Encode(c);
            e != [] && (e[0] < 0x80 ==> |e| == 1) && forall i | 1 <= i < |e| :: e[i] >= 0x80
  {
  }

  /** Both sides of an ASCII byte in a valid text are valid. */
  lemma SplitAtAscii(a: bytes, x: byte, b: bytes)
    requires x < 0x80 && Valid(a + ([x] + b))
    ensures Valid(a) && Valid(b)
  {
    var cs := ScalarsOf(a + ([x] + b));
    SplitScalars(cs, a, x, b);
  }

  lemma {:induction false} AfterAscii(a: bytes, b: bytes)
    requires Ascii(a) && Valid(a + b)
    ensures Valid(b)
    decreases |a|
  {
    hide Utf8.Walks;
    if a == [] {
      assert a + b == b;
    } else {
      assert a + b == [] + ([a[0]] + (a[1..] + b));
      SplitAtAscii([], a[0], a[1..] + b);
      AfterAscii(a[1..], b);
    }
  }

  lemma EscapeIsAscii(b: byte)
    requires b < 0x80
    ensures Ascii(EscapeByte(b)) && EscapeByte(b) != []
  {
  }

  /** A string whose escaped form is valid is valid. */
  lemma {:induction false} UnescapedIsValid(text: bytes)
    requires Valid(EscapeBytes(text))
    ensures Valid(text)
    decreases |text|
  {
    hide Utf8.Walks, EscapeByte;
    if i :| 0 <= i < |text| && text[i] < 0x80 {
      var a, b, e := text[..i], text[i + 1..], EscapeByte(text[i]);
      assert text == a + ([text[i]] + b) && ([text[i]] + b)[1..] == b;
      EscapeConcat(a, [text[i]] + b);
      EscapeIsAscii(text[i]);
      assert EscapeBytes(text) == EscapeBytes(a) + ([e[0]] + (e[1..] + EscapeBytes(b)));
      SplitAtAscii(EscapeBytes(a), e[0], e[1..] + EscapeBytes(b));
      AfterAscii(e[1..], EscapeBytes(b));
      UnescapedIsValid(a);
      UnescapedIsValid(b);
      AsciiIsValid([text[i]]);
      ValidConcat([text[i]], b);
      ValidConcat(a, [text[i]] + b);
    } else {
      EscapeLeavesHighBytes(text);
    }
  }

  // ----- which bytes of a text stand in strings -----

  /** Where a reader is that knows of strings only; a slash outside of them may begin a comment. */
  datatype Place = Outside | Inside | Escaped | Slashed

  function Moved(at: Place, b: byte): (r: Place) {
    match at
    case Outside => if b == QUOTE then Inside else if b == SLASH then Slashed else Outside
    case Inside => if b == QUOTE then Outside else if b == BACKSLASH then Escaped else Inside
    case Escaped => Inside
    case Slashed => Slashed
  }

  function Scan(at: Place, s: bytes): (r: Place)
    decreases |s|
  {
    if s == [] then at else Scan(Moved(at, s[0]), s[1..])
  }

  lemma {:induction false} ScanConcat(at: Place, a: bytes, b: bytes)
    ensures Scan(at, a + b) == Scan(Scan(at, a), b)
    decreases |a|
  {
    hide Moved;
    if a == [] {
      assert a + b == b;
    } else {
      assert (a + b)[1..] == a[1..] + b;
      ScanConcat(Moved(at, a[0]), a[1..], b);
    }
  }

  /** Bytes that end no string and begin no escape. */
  predicate Quiet(s: bytes) { forall i | 0 <= i < |s| :: s[i] != QUOTE && s[i] != BACKSLASH }

  lemma {:induction false} QuietScan(s: bytes)
    requires Quiet(s)
    ensures Scan(Inside, s) == Inside
    ensures (forall i | 0 <= i < |s| :: s[i] != SLASH) ==> Scan(Outside, s) == Outside
    ensures Scan(Slashed, s) == Slashed
    decreases |s|
  {
    if s != [] {
      QuietScan(s[1..]);
    }
  }

  lemma {:induction false} SlashedStays(s: bytes)
    ensures Scan(Slashed, s) == Slashed
    decreases |s|
  {
    if s != [] {
      SlashedStays(s[1..]);
    }
  }

  // ----- the writer writes no slash outside of strings -----

  lemma ShortScan(letter: byte)
    ensures Scan(Inside, [BACKSLASH, letter]) == Inside
  {
    var s: bytes := [letter];
    assert [BACKSLASH, letter][1..] == s && s[1..] == [];
    assert Scan(Escaped, s) == Scan(Inside, []) == Inside;
  }

  lemma EscapeScan(b: byte)
    ensures Scan(Inside, EscapeByte(b)) == Inside
  {
    var e := EscapeByte(b);
    if e == [b] {
      assert e[1..] == [];
    } else if |e| == 2 {
      ShortScan(e[1]);
    } else {
      var hex := e[2..];
      assert Quiet(hex);
      QuietScan(hex);
      assert e[1..][1..] == hex;
    }
  }

  lemma {:induction false} EscapedScan(text: bytes)
    ensures Scan(Inside, EscapeBytes(text)) == Inside
    decreases |text|
  {
    hide EscapeByte;
    if text != [] {
      EscapeScan(text[0]);
      EscapedScan(text[1..]);
      ScanConcat(Inside, EscapeByte(text[0]), EscapeBytes(text[1..]));
    }
  }

  lemma QuoteScan(inner: bytes)
    requires Scan(Inside, inner) == Inside
    ensures Scan(Outside, [QUOTE] + (inner + [QUOTE])) == Outside
  {
    ScanConcat(Outside, [QUOTE], inner + [QUOTE]);
    ScanConcat(Inside, inner, [QUOTE]);
    assert [QUOTE][1..] == [];
  }

  lemma {:induction false} DigitsOnly(n: nat)
    ensures AllDigits(DecimalDigits(n))
    decreases n
  {
    if n >= 10 {
      DigitsOnly(n / 10);
    }
  }

  lemma DecimalScan(n: int)
    ensures Scan(Outside, Decimal(n)) == Outside
  {
    DigitsOnly(if n < 0 then -n else n);
    QuietScan(Decimal(n));
  }

  /** What a call writes where the writer is. */
  lemma StepScans(st: State, call: Call)
    requires Scan(Outside, st.output) == Outside
    ensures Scan(Outside, Step(st, call).st.output) == Outside
  {
    hide EscapedString, Decimal, Scan;
    match call
    case BeginObject => BeginScans(st); ByteScans(BeginValue(st).st.output, OPEN_BRACE);
    case BeginArray => BeginScans(st); ByteScans(BeginValue(st).st.output, OPEN_BRACKET);
    case EndObject => ByteScans(st.output, CLOSE_BRACE);
    case EndArray => ByteScans(st.output, CLOSE_BRACKET);
    case PutKey(text) =>
      var comma: bytes := if st.stack != [] && Top(st).hasContent then [COMMA] else [];
      ByteScans(st.output, COMMA);
      assert st.output + (comma + EscapedString(text) + [COLON]) == (st.output + comma + EscapedString(text)) + [COLON];
      StringScans(text);
      assert st.output + [] == st.output;
      ScanConcat(Outside, st.output + comma, EscapedString(text));
      ByteScans(st.output + comma + EscapedString(text), COLON);
    case PutNull => PrimitiveScans(st, NULL);
    case PutBoolean(b) => PrimitiveScans(st, if b then TRUE else FALSE);
    case PutInteger(n) => DecimalScan(n); PrimitiveScans(st, Decimal(n));
    case PutString(text) => StringScans(text); PrimitiveScans(st, EscapedString(text));
  }

  lemma StringScans(text: bytes)
    ensures Scan(Outside, EscapedString(text)) == Outside
  {
    EscapedScan(text);
    QuoteScan(EscapeBytes(text));
  }

  lemma ByteScans(output: bytes, b: byte)
    requires b != QUOTE && b != SLASH && Scan(Outside, output) == Outside
    ensures Scan(Outside, output + [b]) == Outside
  {
    ScanConcat(Outside, output, [b]);
    assert [b][1..] == [];
  }

  lemma BeginScans(st: State)
    requires Scan(Outside, st.output) == Outside
    ensures Scan(Outside, BeginValue(st).st.output) == Outside
  {
    hide Scan;
    ByteScans(st.output, COMMA);
  }

  lemma PrimitiveScans(st: State, text: bytes)
    requires Scan(Outside, st.output) == Outside
    requires Scan(Outside, text) == Outside || text == NULL || text == TRUE || text == FALSE
    ensures Scan(Outside, Primitive(st, text).st.output) == Outside
  {
    assert Scan(Outside, text) == Outside by {
      if text == NULL || text == TRUE || text == FALSE {
        QuietScan(text);
      }
    }
    hide Scan;
    BeginScans(st);
    ScanConcat(Outside, BeginValue(st).st.output, text);
  }

  lemma {:induction false} OutputScans(st: State, calls: seq<Call>)
    requires Scan(Outside, st.output) == Outside
    ensures Scan(Outside, RunFrom(st, calls).output) == Outside
    decreases |calls|
  {
    hide Scan, Step;
    if calls != [] {
      StepScans(st, calls[0]);
      OutputScans(Step(st, calls[0]).st, calls[1..]);
    }
  }

  // ----- a document is valid unless it has comments -----

  /** Either a slash stands outside of the strings of a text, or the text is valid and its strings are closed. */
  predicate Scanned(s: bytes) { Scan(Outside, s) == Slashed || (Scan(Outside, s) == Outside && Valid(s)) }

  lemma ScannedConcat(a: bytes, b: bytes)
    requires Scanned(a) && Scanned(b)
    ensures Scanned(a + b)
  {
    hide Valid, Scan;
    ScanConcat(Outside, a, b);
    if Scan(Outside, a) == Slashed {
      SlashedStays(b);
    } else if Scan(Outside, b) == Outside {
      ValidConcat(a, b);
    }
  }

  lemma QuietScanned(s: bytes)
    requires Ascii(s) && Quiet(s) && forall i | 0 <= i < |s| :: s[i] != SLASH
    ensures Scanned(s)
  {
    hide Valid;
    QuietScan(s);
    AsciiIsValid(s);
  }

  lemma CommentScanned(s: bytes)
    requires s != [] && s[0] == SLASH
    ensures Scanned(s)
  {
    SlashedStays(s[1..]);
  }

  lemma {:induction false} TriviaScanned(t: Trivia)
    requires TriviaOk(t)
    ensures Scanned(TriviaText(t))
    decreases |t|
  {
    hide Scanned;
    if t == [] {
      QuietScanned([]);
    } else {
      assert ItemOk(t[0]);
      if t[0].Space? {
        QuietScanned(ItemText(t[0]));
      } else {
        CommentScanned(ItemText(t[0]));
      }
      TriviaScanned(t[1..]);
      ScannedConcat(ItemText(t[0]), TriviaText(t[1..]));
    }
  }

  lemma HexIsQuiet(s: bytes)
    requires IsHex4(s)
    ensures Ascii(s) && Quiet(s)
  {
  }

  lemma UnitScans(digits: bytes)
    requires IsHex4(digits)
    ensures Scan(Inside, [BACKSLASH, LETTER_U] + digits) == Inside && Valid([BACKSLASH, LETTER_U] + digits)
  {
    hide Valid;
    HexIsQuiet(digits);
    var e := [BACKSLASH, LETTER_U] + digits;
    assert e[1..][1..] == digits;
    QuietScan(digits);
    AsciiIsValid(e);
  }

  lemma PieceScans(p: Piece)
    requires PieceOk(p)
    ensures Scan(Inside, PieceText(p)) == Inside && Valid(PieceText(p))
  {
    hide Valid;
    match p
    case Plain(c) =>
      EncodeIsQuiet(c);
      QuietScan(Utf8.Encode(c));
      OneScalar(c);
    case Short(letter) =>
      ShortScan(letter);
      AsciiIsValid([BACKSLASH, letter]);
    case Unit(digits) => UnitScans(digits);
    case Pair(high, low) =>
      UnitScans(high);
      UnitScans(low);
      var a, b := [BACKSLASH, LETTER_U] + high, [BACKSLASH, LETTER_U] + low;
      assert PieceText(p) == a + b;
      ScanConcat(Inside, a, b);
      ValidConcat(a, b);
  }

  lemma EncodeIsQuiet(c: nat)
    requires Utf8.IsScalar(c) && c != QUOTE && c != BACKSLASH
    ensures Quiet(Utf8.Encode(c))
  {
    EncodeStarts(c);
  }

  lemma {:induction false} PiecesScan(ps: seq<Piece>)
    requires PiecesOk(ps)
    ensures Scan(Inside, PiecesText(ps)) == Inside && Valid(PiecesText(ps))
    decreases |ps|
  {
    hide Valid, PieceText, PieceOk;
    if ps == [] {
      AsciiIsValid([]);
    } else {
      PieceScans(ps[0]);
      PiecesScan(ps[1..]);
      ScanConcat(Inside, PieceText(ps[0]), PiecesText(ps[1..]));
      ValidConcat(PieceText(ps[0]), PiecesText(ps[1..]));
    }
  }

  lemma QuotedScanned(ps: seq<Piece>)
    requires PiecesOk(ps)
    ensures Scanned(QuotedText(ps))
  {
    hide Valid, PiecesText;
    PiecesScan(ps);
    QuoteScan(PiecesText(ps));
    AsciiIsValid([QUOTE]);
    ValidConcat(PiecesText(ps), [QUOTE]);
    ValidConcat([QUOTE], PiecesText(ps) + [QUOTE]);
  }

  lemma NumeralScanned(n: Numeral)
    requires NumeralOk(n)
    ensures Scanned(NumeralText(n))
  {
    hide Scanned;
    QuietScanned(SignText(n));
    QuietScanned(n.whole);
    QuietScanned(FractionText(n));
    QuietScanned(ExponentText(n));
    ScannedConcat(FractionText(n), ExponentText(n));
    ScannedConcat(n.whole, FractionText(n) + ExponentText(n));
    ScannedConcat(SignText(n), n.whole + (FractionText(n) + ExponentText(n)));
  }

  lemma BracketsScanned(open: byte, inner: bytes, close: byte)
    requires open in [OPEN_BRACKET, OPEN_BRACE] && close in [CLOSE_BRACKET, CLOSE_BRACE] && Scanned(inner)
    ensures Scanned([open] + (inner + [close]))
  {
    hide Scanned;
    QuietScanned([open]);
    QuietScanned([close]);
    ScannedConcat(inner, [close]);
    ScannedConcat([open], inner + [close]);
  }

  lemma {:induction false} TreeScanned(t: Tree)
    requires TreeOk(t)
    ensures Scanned(TreeText(t))
    decreases t, 1
  {
    hide Scanned, ElementsText, MembersText, TriviaText, QuotedText, NumeralText;
    match t
    case Quoted(pieces) => QuotedScanned(pieces);
    case Figure(n) => NumeralScanned(n);
    case True => QuietScanned(TRUE);
    case False => QuietScanned(FALSE);
    case Nothing => QuietScanned(NULL);
    case EmptyArray(inner) => TriviaScanned(inner); BracketsScanned(OPEN_BRACKET, TriviaText(inner), CLOSE_BRACKET);
    case EmptyObject(inner) => TriviaScanned(inner); BracketsScanned(OPEN_BRACE, TriviaText(inner), CLOSE_BRACE);
    case Array(e) => ElementsScanned(e); BracketsScanned(OPEN_BRACKET, ElementsText(e), CLOSE_BRACKET);
    case Object(m) => MembersScanned(m); BracketsScanned(OPEN_BRACE, MembersText(m), CLOSE_BRACE);
  }

  lemma {:induction false} ElementsScanned(e: Elements)
    requires ElementsOk(e)
    ensures Scanned(ElementsText(e))
    decreases e, 0
  {
    hide Scanned, TreeText, TriviaText;
    var tail := ElementsTail(e);
    QuietScanned([]);
    QuietScanned([COMMA]);
    if e.rest.Some? {
      ElementsScanned(e.rest.value);
      ScannedConcat([COMMA], ElementsText(e.rest.value));
    }
    TriviaScanned(e.before);
    TreeScanned(e.v);
    TriviaScanned(e.after);
    ScannedConcat(TriviaText(e.after), tail);
    ScannedConcat(TreeText(e.v), TriviaText(e.after) + tail);
    ScannedConcat(TriviaText(e.before), TreeText(e.v) + (TriviaText(e.after) + tail));
  }

  lemma {:induction false} MembersScanned(m: Members)
    requires MembersOk(m)
    ensures Scanned(MembersText(m))
    decreases m, 0
  {
    hide Scanned, TreeText, TriviaText, QuotedText;
    var tail := MembersTail(m);
    QuietScanned([]);
    QuietScanned([COMMA]);
    QuietScanned([COLON]);
    if m.rest.Some? {
      MembersScanned(m.rest.value);
      ScannedConcat([COMMA], MembersText(m.rest.value));
    }
    TriviaScanned(m.before);
    QuotedScanned(m.key);
    TriviaScanned(m.mid);
    TriviaScanned(m.lead);
    TreeScanned(m.v);
    TriviaScanned(m.after);
    var value := TriviaText(m.lead) + (TreeText(m.v) + (TriviaText(m.after) + tail));
    ScannedConcat(TriviaText(m.after), tail);
    ScannedConcat(TreeText(m.v), TriviaText(m.after) + tail);
    ScannedConcat(TriviaText(m.lead), TreeText(m.v) + (TriviaText(m.after) + tail));
    ScannedConcat([COLON], value);
    ScannedConcat(TriviaText(m.mid), [COLON] + value);
    ScannedConcat(QuotedText(m.key), TriviaText(m.mid) + ([COLON] + value));
    ScannedConcat(TriviaText(m.before), QuotedText(m.key) + (TriviaText(m.mid) + ([COLON] + value)));
  }

  lemma DocumentScanned(d: Document)
    requires DocumentOk(d)
    ensures Scanned(DocumentText(d))
  {
    hide Scanned, TreeText, TriviaText;
    var mark: bytes := if d.bom then BOM else [];
    TriviaScanned(d.before);
    TreeScanned(d.v);
    TriviaScanned(d.after);
    TrailerScanned(d.trailer);
    MarkScanned(mark);
    ScannedConcat(TriviaText(d.after), TrailerText(d.trailer));
    ScannedConcat(TreeText(d.v), TriviaText(d.after) + TrailerText(d.trailer));
    ScannedConcat(TriviaText(d.before), TreeText(d.v) + (TriviaText(d.after) + TrailerText(d.trailer)));
    ScannedConcat(mark, TriviaText(d.before) + (TreeText(d.v) + (TriviaText(d.after) + TrailerText(d.trailer))));
  }

  lemma TrailerScanned(t: Option<bytes>)
    ensures Scanned(TrailerText(t))
  {
    if t.Some? {
      CommentScanned(TrailerText(t));
    } else {
      QuietScanned([]);
    }
  }

  lemma MarkScanned(mark: bytes)
    requires mark == BOM || mark == []
    ensures Scanned(mark)
  {
    hide Utf8.Walks;
    if mark == BOM {
      QuietScan(BOM);
      assert Utf8.Encode(0xFEFF) == BOM;
      OneScalar(0xFEFF);
    } else {
      QuietScanned([]);
    }
  }

  // ----- every string written is in the output -----

  /** What was there stays, with the string of a call that was taken behind it. */
  lemma StepWrites(st: State, call: Call) returns (before: bytes, after: bytes)
    requires Step(st, call).st.valid
    ensures call.PutKey? || call.PutString?
            ==> Step(st, call).st.output == before + (EscapedString(call.text) + after)
  {
    hide EscapedString;
    before, after := [], [];
    if call.PutKey? {
      before := if Top(st).hasContent then st.output + [COMMA] else st.output;
      after := [COLON];
    } else if call.PutString? {
      before := BeginValue(st).st.output;
    }
  }

  lemma StepGrows(st: State, call: Call)
    ensures st.output <= Step(st, call).st.output
    ensures !st.valid ==> !Step(st, call).st.valid
  {
    hide EscapedString, Decimal;
  }

  lemma {:induction false} RunGrows(st: State, calls: seq<Call>)
    ensures st.output <= RunFrom(st, calls).output && (!st.valid ==> !RunFrom(st, calls).valid)
    decreases |calls|
  {
    hide Step;
    if calls != [] {
      StepGrows(st, calls[0]);
      RunGrows(Step(st, calls[0]).st, calls[1..]);
    }
  }

  lemma StringIsValid(before: bytes, text: bytes, after: bytes)
    requires Valid(before + (EscapedString(text) + after))
    ensures Valid(text)
  {
    hide Valid, EscapeBytes;
    var e := EscapeBytes(text);
    assert before + (EscapedString(text) + after) == before + ([QUOTE] + (e + ([QUOTE] + after)));
    SplitAtAscii(before, QUOTE, e + ([QUOTE] + after));
    SplitAtAscii(e, QUOTE, after);
    UnescapedIsValid(text);
  }

  lemma {:induction false} StringsAreValid(st: State, calls: seq<Call>)
    requires RunFrom(st, calls).valid && Valid(RunFrom(st, calls).output)
    ensures forall k | 0 <= k < |calls| :: Writable(calls[k])
    decreases |calls|
  {
    hide Step, Utf8.Walks, EscapedString;
    if calls != [] {
      var call, next, whole := calls[0], Step(st, calls[0]).st, RunFrom(st, calls).output;
      RunGrows(next, calls[1..]);
      var before, after := StepWrites(st, call);
      if call.PutKey? || call.PutString? {
        var rest := whole[|next.output|..];
        assert whole == next.output + rest == before + (EscapedString(call.text) + (after + rest));
        StringIsValid(before, call.text, after + rest);
      }
      StringsAreValid(next, calls[1..]);
    }
  }

  /** The text of a complete run of calls is read back if and only if its keys and strings are valid UTF-8. */
  lemma ReadsExactly(calls: seq<Call>)
    requires Complete(RunFrom(CLEARED, calls)) && MaxStack(CLEARED, calls) <= MAX_DEPTH
    ensures Read(RunFrom(CLEARED, calls).output).Good? <==> forall k | 0 <= k < |calls| :: Writable(calls[k])
  {
    hide RunFrom, MaxStack, Writable, Scan, Read, Utf8.Walks, DocumentOk, DocumentText;
    var text := RunFrom(CLEARED, calls).output;
    if forall k | 0 <= k < |calls| :: Writable(calls[k]) {
      RoundTrip(calls);
    }
    if Read(text).Good? {
      JsonTheorems.ParserCorrect(text);
      var d :| JsonTheorems.IsDocument(d, text);
      DocumentScanned(d);
      NothingScans();
      OutputScans(CLEARED, calls);
      StringsAreValid(CLEARED, calls);
    }
  }

  lemma NothingScans()
    ensures Scan(Outside, []) == Outside
  {
  }
}
