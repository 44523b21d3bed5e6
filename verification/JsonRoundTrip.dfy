/**
 * A run of writer calls is complete exactly when the calls spell one JSON value, and then the
 * parser accepts the text written and reports exactly those calls.
 */
module JsonRoundTrip {
  import opened Bytes
  import opened Wrappers
  import opened Sequences
  import opened JsonEvents
  import opened JsonGrammar
  import opened JsonReading
  import opened JsonWriting
  import JsonTheorems
  import Utf8

  // ----- reports without positions -----

  function Unlocated(events: Events): (r: Events) {
    if events == [] then []
    else (if events[0].Location? then [] else [events[0]]) + Unlocated(events[1..])
  }

  lemma {:induction false} UnlocatedConcat(a: Events, b: Events)
    ensures Unlocated(a + b) == Unlocated(a) + Unlocated(b)
    decreases |a|
  {
    if a == [] {
      assert a + b == b;
    } else {
      assert (a + b)[1..] == a[1..] + b;
      UnlocatedConcat(a[1..], b);
    }
  }

  function EventOf(call: Call): (r: Event) {
    match call
    case BeginObject => ObjectBegin
    case EndObject => ObjectEnd
    case BeginArray => ArrayBegin
    case EndArray => ArrayEnd
    case PutKey(text) => Key(text)
    case PutNull => Value(Null)
    case PutBoolean(b) => Value(Boolean(b))
    case PutInteger(n) => Value(Integer(Decimal(n)))
    case PutString(text) => Value(Str(text))
  }

  function EventsOf(calls: seq<Call>): (r: Events) {
    if calls == [] then [] else [EventOf(calls[0])] + EventsOf(calls[1..])
  }

  /** What a value means, whatever trivia surround its parts. */
  function Meaning(t: Tree): (r: Events)
    requires TreeOk(t)
  {
    match t
    case Quoted(pieces) => [Value(Str(PiecesValue(pieces)))]
    case Figure(n) => [Value(NumeralScalar(n))]
    case True => [Value(Boolean(true))]
    case False => [Value(Boolean(false))]
    case Nothing => [Value(Null)]
    case EmptyArray(_) => [ArrayBegin, ArrayEnd]
    case Array(elements) => [ArrayBegin] + ElementsMeaning(elements) + [ArrayEnd]
    case EmptyObject(_) => [ObjectBegin, ObjectEnd]
    case Object(members) => [ObjectBegin] + MembersMeaning(members) + [ObjectEnd]
  }

  function ElementsMeaning(e: Elements): (r: Events)
    requires ElementsOk(e)
  {
    Meaning(e.v) + if e.rest.Some? then ElementsMeaning(e.rest.value) else []
  }

  function MembersMeaning(m: Members): (r: Events)
    requires MembersOk(m)
  {
    [Key(PiecesValue(m.key))] + (Meaning(m.v) + if m.rest.Some? then MembersMeaning(m.rest.value) else [])
  }

  lemma UnlocatedOne(e: Event)
    requires !e.Location?
    ensures Unlocated([e]) == [e]
  {
    assert [e][1..] == [];
  }

  lemma UnlocatedTwo(at: nat, length: nat, e: Event)
    requires !e.Location?
    ensures Unlocated([Location(at, length), e]) == [e]
  {
    UnlocatedOne(e);
    assert [Location(at, length), e][1..] == [e];
  }

  lemma UnlocatedContainer(at: nat, begin: Event, inner: Events, end: Event)
    requires !begin.Location? && !end.Location?
    ensures Unlocated([Location(at, 1), begin] + inner + [end]) == [begin] + Unlocated(inner) + [end]
  {
    hide Unlocated;
    UnlocatedConcat([Location(at, 1), begin] + inner, [end]);
    UnlocatedConcat([Location(at, 1), begin], inner);
    UnlocatedTwo(at, 1, begin);
    UnlocatedOne(end);
  }

  lemma UnlocatedEmpty(at: nat, begin: Event, end: Event)
    requires !begin.Location? && !end.Location?
    ensures Unlocated([Location(at, 1), begin, end]) == [begin, end]
  {
    UnlocatedContainer(at, begin, [], end);
    assert [Location(at, 1), begin] + [] + [end] == [Location(at, 1), begin, end];
  }

  lemma {:induction false} MeaningIsUnlocated(t: Tree, at: nat)
    requires TreeOk(t)
    ensures Unlocated(Flatten(t, at)) == Meaning(t)
    decreases t, 1
  {
    hide Unlocated, PiecesValue, FlattenElements, FlattenMembers, ElementsMeaning, MembersMeaning;
    match t
    case Array(e) =>
      UnlocatedContainer(at, ArrayBegin, FlattenElements(e, at + 1), ArrayEnd);
      ElementsMeaningIsUnlocated(e, at + 1);
    case Object(m) =>
      UnlocatedContainer(at, ObjectBegin, FlattenMembers(m, at + 1), ObjectEnd);
      MembersMeaningIsUnlocated(m, at + 1);
    case EmptyArray(_) => UnlocatedEmpty(at, ArrayBegin, ArrayEnd);
    case EmptyObject(_) => UnlocatedEmpty(at, ObjectBegin, ObjectEnd);
    case Quoted(pieces) => UnlocatedTwo(at, |QuotedText(pieces)|, Value(Str(PiecesValue(pieces))));
    case Figure(n) => UnlocatedTwo(at, |NumeralText(n)|, Value(NumeralScalar(n)));
    case True => UnlocatedTwo(at, 4, Value(Boolean(true)));
    case False => UnlocatedTwo(at, 5, Value(Boolean(false)));
    case Nothing => UnlocatedTwo(at, 4, Value(Null));
  }

  lemma {:induction false} ElementsMeaningIsUnlocated(e: Elements, at: nat)
    requires ElementsOk(e)
    ensures Unlocated(FlattenElements(e, at)) == ElementsMeaning(e)
    decreases e, 0
  {
    hide Flatten, Meaning, TreeText, TriviaText;
    var p := at + |TriviaText(e.before)|;
    MeaningIsUnlocated(e.v, p);
    UnlocatedConcat(Flatten(e.v, p), if e.rest.Some? then FlattenElements(e.rest.value, ElementsNext(e, at)) else []);
    if e.rest.Some? {
      ElementsMeaningIsUnlocated(e.rest.value, ElementsNext(e, at));
    }
  }

  lemma {:induction false} MembersMeaningIsUnlocated(m: Members, at: nat)
    requires MembersOk(m)
    ensures Unlocated(FlattenMembers(m, at)) == MembersMeaning(m)
    decreases m, 0
  {
    hide Flatten, Meaning, TreeText, TriviaText, QuotedText, PiecesValue;
    var p := MemberValueAt(m, at);
    var key: Events := [Location(MemberKeyAt(m, at), |QuotedText(m.key)|), Key(PiecesValue(m.key))];
    var tail := if m.rest.Some? then FlattenMembers(m.rest.value, MembersNext(m, at)) else [];
    MeaningIsUnlocated(m.v, p);
    UnlocatedConcat(key, Flatten(m.v, p) + tail);
    UnlocatedConcat(Flatten(m.v, p), tail);
    UnlocatedTwo(MemberKeyAt(m, at), |QuotedText(m.key)|, Key(PiecesValue(m.key)));
    if m.rest.Some? {
      MembersMeaningIsUnlocated(m.rest.value, MembersNext(m, at));
    }
  }

  // ----- strings and integers as the writer spells them -----

  function PieceOf(c: nat): (r: Piece)
    requires Utf8.IsScalar(c)
  {
    if c == QUOTE || c == BACKSLASH then Short(c)
    else if c == 0x08 then Short(0x62)
    else if c == 0x0C then Short(0x66)
    else if c == 0x0A then Short(0x6E)
    else if c == 0x0D then Short(0x72)
    else if c == 0x09 then Short(0x74)
    else if c < 0x20 then Unit([ZERO, ZERO, HexUpper(c / 16), HexUpper(c % 16)])
    else Plain(c)
  }

  lemma PieceOfScalar(c: nat)
    requires Utf8.IsScalar(c)
    ensures var p := PieceOf(c);
            PieceOk(p) && PieceText(p) == EscapeBytes(Utf8.Encode(c)) && PieceValue(p) == Utf8.Encode(c)
  {
    var e := Utf8.Encode(c);
    if c <= 0x7F {
      assert e[1..] == [];
      assert EscapeBytes(e) == EscapeByte(c) + [];
      if c < 0x20 && PieceOf(c).Unit? {
        ControlEscape(c);
      }
    } else {
      forall k | 0 <= k < |e| ensures e[k] > 0x7F {
      }
      EscapeLeavesHighBytes(e);
    }
  }

  lemma ControlEscape(c: nat)
    requires c < 0x20
    ensures var d := [ZERO, ZERO, HexUpper(c / 16), HexUpper(c % 16)]; IsHex4(d) && Hex4Value(d) == c
    ensures [BACKSLASH, LETTER_U] + [ZERO, ZERO, HexUpper(c / 16), HexUpper(c % 16)]
         == [BACKSLASH, LETTER_U, ZERO, ZERO, HexUpper(c / 16), HexUpper(c % 16)]
  {
    forall d: nat | d < 16 ensures HexValue(HexUpper(d)) == d {
    }
  }

  lemma {:induction false} EscapeLeavesHighBytes(s: bytes)
    requires forall k | 0 <= k < |s| :: s[k] > 0x7F
    ensures EscapeBytes(s) == s
    decreases |s|
  {
    if s != [] {
      EscapeLeavesHighBytes(s[1..]);
    }
  }

  lemma {:induction false} EscapeConcat(a: bytes, b: bytes)
    ensures EscapeBytes(a + b) == EscapeBytes(a) + EscapeBytes(b)
    decreases |a|
  {
    hide EscapeByte;
    if a == [] {
      assert a + b == b;
    } else {
      assert (a + b)[1..] == a[1..] + b;
      EscapeConcat(a[1..], b);
    }
  }

  lemma {:induction false} PiecesOfScalars(cs: seq<nat>) returns (ps: seq<Piece>)
    requires Utf8.Scalars(cs)
    ensures PiecesOk(ps) && PiecesText(ps) == EscapeBytes(Utf8.EncodeAll(cs)) && PiecesValue(ps) == Utf8.EncodeAll(cs)
    decreases |cs|
  {
    hide PieceOk, PieceText, PieceValue, PieceOf, EscapeByte, Utf8.Encode;
    if cs == [] {
      ps := [];
    } else {
      PieceOfScalar(cs[0]);
      var rest := PiecesOfScalars(cs[1..]);
      ps := [PieceOf(cs[0])] + rest;
      assert ps[1..] == rest;
      EscapeConcat(Utf8.Encode(cs[0]), Utf8.EncodeAll(cs[1..]));
    }
  }

  /** Escaping a valid UTF-8 string spells that string. */
  lemma EscapedStringSpells(text: bytes) returns (ps: seq<Piece>)
    requires Utf8.Walks(text, 0)
    ensures PiecesOk(ps) && QuotedText(ps) == EscapedString(text) && PiecesValue(ps) == text
  {
    var cs := Utf8.WalkYieldsScalars(text, 0);
    assert text[0..] == text;
    ps := PiecesOfScalars(cs);
  }

  lemma {:induction false} DigitsAreNumeral(n: nat)
    ensures var s := DecimalDigits(n); AllDigits(s) && (s[0] == ZERO ==> |s| == 1)
    ensures n > 0 ==> DecimalDigits(n)[0] != ZERO
  {
    if n >= 10 {
      DigitsAreNumeral(n / 10);
    }
  }

  function NumeralOf(n: int): (r: Numeral) { Numeral(n < 0, DecimalDigits(if n < 0 then -n else n), None, None) }

  lemma DecimalSpells(n: int)
    ensures NumeralOk(NumeralOf(n)) && NumeralText(NumeralOf(n)) == Decimal(n)
    ensures NumeralScalar(NumeralOf(n)) == Integer(Decimal(n))
  {
    var m: nat := if n < 0 then -n else n;
    DigitsAreNumeral(m);
    var digits := DecimalDigits(m);
    var nothing: bytes := [];
    assert nothing + nothing == nothing;
    assert digits + nothing == digits && nothing + digits == digits;
  }

  // ----- values under construction -----

  /** A container that has been opened and not yet closed, with what it holds so far. */
  datatype Opened =
    | InArray(done: Option<Elements>)
    | InObject(held: Option<Members>, pending: Option<seq<Piece>>)

  function FrameOf(o: Opened): (r: Frame) {
    match o
    case InArray(done) => Frame(ArrayFrame, done.Some?, false)
    case InObject(held, pending) => Frame(ObjectFrame, held.Some?, pending.None?)
  }

  predicate OpenedOk(o: Opened) {
    match o
    case InArray(done) => done.Some? ==> ElementsOk(done.value)
    case InObject(held, pending) =>
      (held.Some? ==> MembersOk(held.value)) && (pending.Some? ==> PiecesOk(pending.value))
  }

  predicate Awaits(o: Opened) { o.InObject? ==> o.pending.Some? }

  function OpenedDepth(o: Opened): (r: nat) {
    match o
    case InArray(done) => if done.Some? then ElementsDepth(done.value) else 0
    case InObject(held, _) => if held.Some? then MembersDepth(held.value) else 0
  }

  /** The text of an opened container; inside tells whether a next value has begun in it. */
  function OpenedText(o: Opened, inside: bool): (r: bytes) {
    match o
    case InArray(done) =>
      [OPEN_BRACKET] + if done.None? then [] else ElementsText(done.value) + if inside then [COMMA] else []
    case InObject(held, pending) =>
      [OPEN_BRACE] + ((if held.None? then [] else MembersText(held.value)) +
      if pending.None? then [] else (if held.None? then [] else [COMMA]) + (QuotedText(pending.value) + [COLON]))
  }

  function OpenedMeaning(o: Opened): (r: Events)
    requires OpenedOk(o)
  {
    match o
    case InArray(done) => [ArrayBegin] + if done.None? then [] else ElementsMeaning(done.value)
    case InObject(held, pending) =>
      [ObjectBegin] + ((if held.None? then [] else MembersMeaning(held.value)) +
      if pending.None? then [] else [Key(PiecesValue(pending.value))])
  }

  /** A value at the end of a list. */
  function SnocElement(e: Elements, v: Tree): (r: Elements) {
    e.(rest := Some(if e.rest.None? then Elements([], v, [], None) else SnocElement(e.rest.value, v)))
  }

  function SnocMember(m: Members, key: seq<Piece>, v: Tree): (r: Members) {
    m.(rest := Some(if m.rest.None? then Members([], key, [], [], v, [], None) else SnocMember(m.rest.value, key, v)))
  }

  lemma OneElement(v: Tree)
    requires TreeOk(v)
    ensures var e := Elements([], v, [], None);
            ElementsOk(e) && ElementsText(e) == TreeText(v) && ElementsMeaning(e) == Meaning(v)
                && ElementsDepth(e) == Depth(v)
  {
    hide TreeText, Meaning, Depth, TreeOk;
    var s := TreeText(v);
    var nothing: bytes := [];
    assert nothing + (s + (nothing + nothing)) == s;
    assert Meaning(v) + [] == Meaning(v);
  }

  lemma OneMemberText(key: seq<Piece>, v: Tree)
    ensures MembersText(Members([], key, [], [], v, [], None)) == QuotedText(key) + ([COLON] + TreeText(v))
  {
    hide TreeText, QuotedText;
    var s := TreeText(v);
    var nothing: bytes := [];
    assert s + (nothing + nothing) == s && nothing + s == s;
    assert nothing + ([COLON] + s) == [COLON] + s;
    assert nothing + (QuotedText(key) + ([COLON] + s)) == QuotedText(key) + ([COLON] + s);
  }

  lemma OneMemberMeans(key: seq<Piece>, v: Tree)
    requires PiecesOk(key) && TreeOk(v)
    ensures var m := Members([], key, [], [], v, [], None);
            MembersOk(m) && MembersMeaning(m) == [Key(PiecesValue(key))] + Meaning(v) && MembersDepth(m) == Depth(v)
  {
    hide Meaning, Depth, TreeOk, PiecesOk, PiecesValue;
    var nothing: Events := [];
    assert Meaning(v) + nothing == Meaning(v);
  }

  lemma {:induction false} SnocElementSpells(e: Elements, v: Tree)
    requires ElementsOk(e) && TreeOk(v)
    ensures var r := SnocElement(e, v);
            && ElementsOk(r) && ElementsText(r) == ElementsText(e) + ([COMMA] + TreeText(v))
            && ElementsMeaning(r) == ElementsMeaning(e) + Meaning(v)
               && ElementsDepth(r) == Max(ElementsDepth(e), Depth(v))
    decreases e
  {
    hide TreeText, Meaning, Depth, TreeOk, TriviaText, TriviaOk;
    if e.rest.None? {
      OneElement(v);
    } else {
      SnocElementSpells(e.rest.value, v);
    }
    var a, b, c := TriviaText(e.before), TreeText(e.v), TriviaText(e.after);
    var tail: bytes := if e.rest.Some? then [COMMA] + ElementsText(e.rest.value) else [];
    var more := [COMMA] + TreeText(v);
    assert (a + (b + (c + tail))) + more == a + (b + (c + (tail + more)));
    if e.rest.Some? {
      assert tail + more == [COMMA] + (ElementsText(e.rest.value) + more);
      assert (Meaning(e.v) + ElementsMeaning(e.rest.value)) + Meaning(v)
             == Meaning(e.v) + (ElementsMeaning(e.rest.value) + Meaning(v));
    } else {
      assert tail + more == more;
      assert Meaning(e.v) + [] == Meaning(e.v);
    }
  }

  lemma {:induction false} SnocMemberText(m: Members, key: seq<Piece>, v: Tree)
    ensures MembersText(SnocMember(m, key, v))
            == MembersText(m) + ([COMMA] + (QuotedText(key) + ([COLON] + TreeText(v))))
    decreases m
  {
    hide TreeText, TriviaText, QuotedText;
    var more := [COMMA] + (QuotedText(key) + ([COLON] + TreeText(v)));
    var tail: bytes := if m.rest.Some? then [COMMA] + MembersText(m.rest.value) else [];
    if m.rest.None? {
      OneMemberText(key, v);
      assert tail + more == more;
    } else {
      SnocMemberText(m.rest.value, key, v);
      assert tail + more == [COMMA] + (MembersText(m.rest.value) + more);
    }
    Regroup(TriviaText(m.before), QuotedText(m.key), TriviaText(m.mid), TriviaText(m.lead), TreeText(m.v),
        TriviaText(m.after), tail, more);
  }

  lemma {:induction false} SnocMemberMeans(m: Members, key: seq<Piece>, v: Tree)
    requires MembersOk(m) && PiecesOk(key) && TreeOk(v)
    ensures var r := SnocMember(m, key, v);
            && MembersOk(r) && MembersDepth(r) == Max(MembersDepth(m), Depth(v))
            && MembersMeaning(r) == MembersMeaning(m) + ([Key(PiecesValue(key))] + Meaning(v))
    decreases m
  {
    hide Meaning, Depth, TreeOk, TriviaOk, PiecesOk, PiecesValue;
    var tail, more := if m.rest.Some? then MembersMeaning(m.rest.value) else [], [Key(PiecesValue(key))] + Meaning(v);
    RegroupMeaning([Key(PiecesValue(m.key))], Meaning(m.v), tail, more);
    var one := Members([], key, [], [], v, [], None);
    if m.rest.None? {
      OneMemberMeans(key, v);
      assert SnocMember(m, key, v) == m.(rest := Some(one));
    } else {
      SnocMemberMeans(m.rest.value, key, v);
      assert SnocMember(m, key, v) == m.(rest := Some(SnocMember(m.rest.value, key, v)));
    }
  }

  lemma RegroupMeaning(key: Events, v: Events, tail: Events, more: Events)
    ensures (key + (v + tail)) + more == key + (v + (tail + more))
    ensures tail == [] ==> tail + more == more
  {
    assert (v + tail) + more == v + (tail + more);
  }

  lemma Regroup(a: bytes, b: bytes, c: bytes, d: bytes, e: bytes, f: bytes, tail: bytes, more: bytes)
    ensures (a + (b + (c + ([COLON] + (d + (e + (f + tail))))))) + more
            == a + (b + (c + ([COLON] + (d + (e + (f + (tail + more)))))))
  {
    var s0 := f + tail;
    var s1 := e + s0;
    var s2 := d + s1;
    var s3 := [COLON] + s2;
    var s4 := c + s3;
    var s5 := b + s4;
    assert s0 + more == f + (tail + more);
    assert s1 + more == e + (s0 + more);
    assert s2 + more == d + (s1 + more);
    assert s3 + more == [COLON] + (s2 + more);
    assert s4 + more == c + (s3 + more);
    assert s5 + more == b + (s4 + more);
    assert (a + s5) + more == a + (s5 + more);
  }

  /** The container with a finished value put into it. */
  function Attach(o: Opened, v: Tree): (r: Opened)
    requires Awaits(o)
  {
    match o
    case InArray(done) => InArray(Some(if done.None? then Elements([], v, [], None) else SnocElement(done.value, v)))
    case InObject(held, pending) =>
      InObject(Some(if held.None? then Members([], pending.value, [], [], v, [], None)
                    else SnocMember(held.value, pending.value, v)), None)
  }

  lemma AttachArrayText(done: Option<Elements>, v: Tree)
    requires OpenedOk(InArray(done)) && TreeOk(v)
    ensures OpenedText(Attach(InArray(done), v), false) == OpenedText(InArray(done), true) + TreeText(v)
  {
    hide TreeText, TreeOk, ElementsText, ElementsOk, ElementsMeaning, Meaning, Depth, ElementsDepth, OpenedOk;
    var open, t := [OPEN_BRACKET], TreeText(v);
    if done.None? {
      OneElement(v);
      NothingAdded(open);
      NothingAdded(t);
    } else {
      var s := ElementsText(done.value);
      var more := s + ([COMMA] + t);
      ArrayIsOk(done);
      SnocElementSpells(done.value, v);
      NothingAdded(more);
      Associates(s, [COMMA], t);
      Associates(open, s + [COMMA], t);
    }
  }

  lemma ArrayIsOk(done: Option<Elements>)
    requires OpenedOk(InArray(done)) && done.Some?
    ensures ElementsOk(done.value)
  {
  }

  lemma AttachArrayMeans(done: Option<Elements>, v: Tree)
    requires OpenedOk(InArray(done)) && TreeOk(v)
    ensures var o := InArray(done); var r := Attach(o, v);
            OpenedOk(r) && OpenedMeaning(r) == OpenedMeaning(o) + Meaning(v)
                && OpenedDepth(r) == Max(OpenedDepth(o), Depth(v))
  {
    hide TreeText, Meaning, Depth, TreeOk, ElementsText, ElementsOk, ElementsMeaning, ElementsDepth;
    var begin := [ArrayBegin];
    if done.None? {
      OneElement(v);
      NothingAdded(begin);
    } else {
      SnocElementSpells(done.value, v);
      Associates(begin, ElementsMeaning(done.value), Meaning(v));
    }
  }

  lemma AttachObjectText(held: Option<Members>, key: seq<Piece>, v: Tree)
    ensures var o := InObject(held, Some(key)); OpenedText(Attach(o, v), false) == OpenedText(o, true) + TreeText(v)
  {
    hide TreeText, QuotedText, MembersText;
    var nothing: bytes := [];
    var q := QuotedText(key);
    if held.None? {
      OneMemberText(key, v);
      assert [OPEN_BRACE] + (nothing + (nothing + (q + [COLON]))) + TreeText(v)
             == [OPEN_BRACE] + ((q + ([COLON] + TreeText(v))) + nothing);
    } else {
      var s := MembersText(held.value);
      SnocMemberText(held.value, key, v);
      assert [OPEN_BRACE] + (s + ([COMMA] + (q + [COLON]))) + TreeText(v)
          == [OPEN_BRACE] + ((s + ([COMMA] + (q + ([COLON] + TreeText(v))))) + nothing);
    }
  }

  lemma AttachObjectMeans(held: Option<Members>, key: seq<Piece>, v: Tree)
    requires OpenedOk(InObject(held, Some(key))) && TreeOk(v)
    ensures var o := InObject(held, Some(key)); var r := Attach(o, v);
            OpenedOk(r) && OpenedMeaning(r) == OpenedMeaning(o) + Meaning(v)
                && OpenedDepth(r) == Max(OpenedDepth(o), Depth(v))
  {
    hide Meaning, Depth, TreeOk, PiecesOk, PiecesValue, MembersMeaning, MembersOk, MembersDepth;
    var silent: Events := [];
    var k: Events := [Key(PiecesValue(key))];
    if held.None? {
      OneMemberMeans(key, v);
      assert [ObjectBegin] + (silent + k) + Meaning(v) == [ObjectBegin] + ((k + Meaning(v)) + silent);
    } else {
      var meant := MembersMeaning(held.value);
      SnocMemberMeans(held.value, key, v);
      assert [ObjectBegin] + (meant + k) + Meaning(v) == [ObjectBegin] + ((meant + (k + Meaning(v))) + silent);
    }
  }

  lemma AttachSpells(o: Opened, v: Tree)
    requires OpenedOk(o) && Awaits(o) && TreeOk(v)
    ensures var r := Attach(o, v);
            && OpenedOk(r) && OpenedText(r, false) == OpenedText(o, true) + TreeText(v)
            && OpenedMeaning(r) == OpenedMeaning(o) + Meaning(v) && OpenedDepth(r) == Max(OpenedDepth(o), Depth(v))
  {
    hide TreeText, Meaning, Depth, TreeOk, OpenedText, OpenedMeaning, OpenedDepth;
    match o
    case InArray(done) =>
      AttachArrayText(done, v);
      AttachArrayMeans(done, v);
    case InObject(held, pending) =>
      AttachObjectText(held, pending.value, v);
      AttachObjectMeans(held, pending.value, v);
  }

  /** The value an opened container becomes when it is closed. */
  function Closed(o: Opened): (r: Tree) {
    match o
    case InArray(done) => if done.None? then EmptyArray([]) else Array(done.value)
    case InObject(held, _) => if held.None? then EmptyObject([]) else Object(held.value)
  }

  lemma ClosedSpells(o: Opened)
    requires OpenedOk(o) && (o.InObject? ==> o.pending.None?)
    ensures var v := Closed(o);
            && TreeOk(v) && TreeText(v) == OpenedText(o, false) + [if o.InArray? then CLOSE_BRACKET else CLOSE_BRACE]
            && Meaning(v) == OpenedMeaning(o) + [if o.InArray? then ArrayEnd else ObjectEnd]
            && Depth(v) == OpenedDepth(o) + 1
  {
    hide ElementsText, MembersText, ElementsMeaning, MembersMeaning, ElementsDepth, MembersDepth, ElementsOk, MembersOk;
    var nothing: bytes := [];
    var silent: Events := [];
    match o
    case InArray(done) =>
      if done.None? {
        assert [OPEN_BRACKET] + nothing + [CLOSE_BRACKET] == [OPEN_BRACKET] + (nothing + [CLOSE_BRACKET]);
        assert [ArrayBegin] + silent + [ArrayEnd] == [ArrayBegin, ArrayEnd];
      } else {
        var s := ElementsText(done.value);
        assert s + nothing == s;
        assert [OPEN_BRACKET] + s + [CLOSE_BRACKET] == [OPEN_BRACKET] + (s + [CLOSE_BRACKET]);
      }
    case InObject(held, _) =>
      if held.None? {
        assert [OPEN_BRACE] + (nothing + nothing) + [CLOSE_BRACE] == [OPEN_BRACE] + (nothing + [CLOSE_BRACE]);
        assert [ObjectBegin] + (silent + silent) + [ObjectEnd] == [ObjectBegin, ObjectEnd];
      } else {
        var s, meant := MembersText(held.value), MembersMeaning(held.value);
        assert s + nothing == s && meant + silent == meant;
        assert [OPEN_BRACE] + s + [CLOSE_BRACE] == [OPEN_BRACE] + (s + [CLOSE_BRACE]);
      }
  }

  // ----- the whole stack -----

  /** The text of containers in each of which a value has begun. */
  function OuterText(os: seq<Opened>): (r: bytes) {
    if os == [] then [] else OuterText(Init(os)) + OpenedText(Last(os), true)
  }

  function StackText(os: seq<Opened>): (r: bytes) {
    if os == [] then [] else OuterText(Init(os)) + OpenedText(Last(os), false)
  }

  function StackMeaning(os: seq<Opened>): (r: Events)
    requires forall i | 0 <= i < |os| :: OpenedOk(os[i])
  {
    if os == [] then [] else StackMeaning(Init(os)) + OpenedMeaning(Last(os))
  }

  /** Every container but the innermost is waiting for the value inside it. */
  ghost predicate StackOk(os: seq<Opened>) {
    (forall i | 0 <= i < |os| :: OpenedOk(os[i])) && (forall i | 0 <= i < |os| - 1 :: Awaits(os[i]))
  }

  /** What a writer in this state has written: unfinished containers, or one finished value, or nothing yet. */
  datatype Draft = Draft(os: seq<Opened>, root: Option<Tree>)

  ghost predicate DraftOk(d: Draft) {
    StackOk(d.os) && (d.root.Some? ==> d.os == [] && TreeOk(d.root.value))
  }

  function DraftText(d: Draft): (r: bytes) { if d.root.Some? then TreeText(d.root.value) else StackText(d.os) }

  function DraftMeaning(d: Draft): (r: Events)
    requires DraftOk(d)
  {
    if d.root.Some? then Meaning(d.root.value) else StackMeaning(d.os)
  }

  ghost predicate DraftShallow(d: Draft) {
    && (forall i | 0 <= i < |d.os| :: OpenedDepth(d.os[i]) + i + 1 <= MAX_DEPTH)
    && (d.root.Some? ==> Depth(d.root.value) <= MAX_DEPTH)
  }

  /** The writer's fields say exactly what has been drafted, as long as no call was out of order. */
  ghost predicate Tracks(st: State, d: Draft, events: Events) {
    st.valid ==>
      && DraftOk(d) && DraftText(d) == st.output && DraftMeaning(d) == events
      && |st.stack| == |d.os| && (forall i | 0 <= i < |d.os| :: st.stack[i] == FrameOf(d.os[i]))
      && (st.rootWritten <==> d.os != [] || d.root.Some?)
  }

  /** A finished value goes into the innermost container, or becomes the root. */
  function Place(os: seq<Opened>, v: Tree): (r: Draft)
    requires os != [] ==> Awaits(Last(os))
  {
    if os == [] then Draft([], Some(v)) else Draft(Init(os) + [Attach(Last(os), v)], None)
  }

  lemma PlaceSpells(os: seq<Opened>, v: Tree)
    requires StackOk(os) && TreeOk(v) && (os != [] ==> Awaits(Last(os)))
    ensures var d := Place(os, v);
            DraftOk(d) && DraftText(d) == OuterText(os) + TreeText(v)
                && DraftMeaning(d) == StackMeaning(os) + Meaning(v)
  {
    hide TreeText, Meaning, TreeOk, OpenedText, OpenedMeaning, OpenedOk, Attach;
    var d := Place(os, v);
    if os == [] {
      assert OuterText(os) + TreeText(v) == TreeText(v);
      assert StackMeaning(os) + Meaning(v) == Meaning(v);
    } else {
      AttachSpells(Last(os), v);
      assert Init(d.os) == Init(os) && Last(d.os) == Attach(Last(os), v);
      var outer, o := OuterText(Init(os)), Last(os);
      assert outer + (OpenedText(o, true) + TreeText(v)) == (outer + OpenedText(o, true)) + TreeText(v);
      var meant := StackMeaning(Init(os));
      assert meant + (OpenedMeaning(o) + Meaning(v)) == (meant + OpenedMeaning(o)) + Meaning(v);
    }
  }

  lemma PlaceShallow(os: seq<Opened>, v: Tree)
    requires StackOk(os) && TreeOk(v) && (os != [] ==> Awaits(Last(os)))
    requires DraftShallow(Draft(os, None)) && Depth(v) + |os| <= MAX_DEPTH
    ensures DraftShallow(Place(os, v))
  {
    if os != [] {
      AttachSpells(Last(os), v);
    }
  }

  // ----- one call -----

  lemma BeginTracks(st: State, d: Draft, events: Events)
    requires st.valid && Tracks(st, d, events)
    ensures var b := BeginValue(st);
            if b.ok then
              && d.root.None? && (d.os != [] ==> Awaits(Last(d.os)))
              && b.st == State(OuterText(d.os), st.stack, true, true) && DraftMeaning(d) == StackMeaning(d.os)
            else !b.st.valid
  {
    hide TreeText, Meaning, TreeOk, ElementsText, MembersText, OpenedMeaning, OpenedOk;
    if d.os != [] && BeginValue(st).ok {
      var o := Last(d.os);
      assert Top(st) == FrameOf(o);
      if o.InArray? && o.done.Some? {
        var outer, s := OuterText(Init(d.os)), ElementsText(o.done.value);
        var nothing: bytes := [];
        assert (outer + ([OPEN_BRACKET] + (s + nothing))) + [COMMA] == outer + ([OPEN_BRACKET] + (s + [COMMA]));
      }
    }
  }

  /** Finishing a value whose text has just been written places it. */
  lemma FinishTracks(os: seq<Opened>, stack: seq<Frame>, v: Tree)
    requires StackOk(os) && TreeOk(v) && (os != [] ==> Awaits(Last(os)))
    requires |stack| == |os| && forall i | 0 <= i < |os| :: stack[i] == FrameOf(os[i])
    ensures var st := State(OuterText(os) + TreeText(v), stack, true, true);
            Tracks(FinishValue(st), Place(os, v), StackMeaning(os) + Meaning(v))
  {
    hide TreeText, Meaning, TreeOk, OpenedText, OpenedMeaning, OpenedOk, OuterText, StackText, StackMeaning;
    PlaceSpells(os, v);
  }

  lemma PrimitiveTracks(st: State, d: Draft, events: Events, v: Tree) returns (next: Draft)
    requires st.valid && Tracks(st, d, events) && TreeOk(v)
    requires DraftShallow(d) && |st.stack| <= MAX_DEPTH && Depth(v) == 0
    ensures Tracks(Primitive(st, TreeText(v)).st, next, events + Meaning(v)) && DraftShallow(next)
  {
    hide TreeText, Meaning, TreeOk, Depth, OpenedText, OpenedMeaning, OpenedOk, OuterText, StackText, StackMeaning;
    hide StackOk, OpenedDepth;
    BeginTracks(st, d, events);
    next := d;
    if BeginValue(st).ok {
      FinishTracks(d.os, st.stack, v);
      PlaceShallow(d.os, v);
      next := Place(d.os, v);
    }
  }

  lemma OpenedEmpty(o: Opened)
    requires o == InArray(None) || o == InObject(None, None)
    ensures OpenedOk(o) && OpenedText(o, false) == [if o.InArray? then OPEN_BRACKET else OPEN_BRACE]
    ensures OpenedMeaning(o) == [if o.InArray? then ArrayBegin else ObjectBegin] && OpenedDepth(o) == 0
  {
    var nothing: bytes := [];
    var silent: Events := [];
    assert [OPEN_BRACE] + (nothing + nothing) == [OPEN_BRACE] && [ObjectBegin] + (silent + silent) == [ObjectBegin];
  }

  lemma PushIsOk(os: seq<Opened>, o: Opened)
    requires StackOk(os) && OpenedOk(o) && (os != [] ==> Awaits(Last(os)))
    ensures StackOk(os + [o])
  {
    hide OpenedOk, Awaits;
    var more := os + [o];
    forall i | 0 <= i < |more| ensures OpenedOk(more[i]) && (i < |os| ==> Awaits(more[i])) {
      if i < |os| {
        assert more[i] == os[i];
      }
    }
  }

  lemma PushSpells(os: seq<Opened>, o: Opened)
    requires StackOk(os) && OpenedOk(o) && (os != [] ==> Awaits(Last(os)))
    ensures StackOk(os + [o]) && StackText(os + [o]) == OuterText(os) + OpenedText(o, false)
    ensures StackMeaning(os + [o]) == StackMeaning(os) + OpenedMeaning(o)
  {
    hide OpenedOk, OpenedText, OpenedMeaning, OuterText, Init, Last;
    Snoc(os, o);
    assert StackOk(os + [o]) by {
      PushIsOk(os, o);
    }
  }

  lemma OpenTracks(st: State, d: Draft, events: Events, o: Opened) returns (next: Draft)
    requires st.valid && Tracks(st, d, events) && (o == InArray(None) || o == InObject(None, None))
    requires DraftShallow(d) && |st.stack| < MAX_DEPTH
    ensures var bracket := if o.InArray? then OPEN_BRACKET else OPEN_BRACE;
            Tracks(Open(st, bracket, FrameOf(o)).st, next, events + [if o.InArray? then ArrayBegin else ObjectBegin])
    ensures DraftShallow(next)
  {
    hide TreeText, Meaning, TreeOk, OpenedOk, OpenedText, OpenedMeaning, OpenedDepth, OuterText, StackText;
    hide StackMeaning, StackOk;
    BeginTracks(st, d, events);
    next := d;
    if BeginValue(st).ok {
      OpenedEmpty(o);
      PushSpells(d.os, o);
      next := Draft(d.os + [o], None);
    }
  }

  lemma CloseTracks(st: State, d: Draft, events: Events) returns (next: Draft)
    requires st.valid && Tracks(st, d, events) && st.stack != [] && (Top(st).kind.ObjectFrame? ==> Top(st).expectKey)
    requires DraftShallow(d)
    ensures var list := Top(st).kind.ArrayFrame?;
            Tracks(Close(st, if list then CLOSE_BRACKET else CLOSE_BRACE), next,
                events + [if list then ArrayEnd else ObjectEnd])
    ensures DraftShallow(next)
  {
    hide TreeText, Meaning, TreeOk, Depth, OpenedText, OpenedMeaning, OpenedOk, OpenedDepth, Closed;
    var o, os := Last(d.os), Init(d.os);
    assert Top(st) == FrameOf(o);
    var v := Closed(o);
    ClosedSpells(o);
    assert OuterText(os) + TreeText(v) == st.output + [if o.InArray? then CLOSE_BRACKET else CLOSE_BRACE];
    assert StackMeaning(os) + Meaning(v) == events + [if o.InArray? then ArrayEnd else ObjectEnd];
    FinishTracks(os, Init(st.stack), v);
    PlaceShallow(os, v);
    next := Place(os, v);
  }

  /** What is written inside the innermost container is written at the end of the whole draft. */
  lemma InnermostGrows(os: seq<Opened>, o: Opened, grown: Opened, text: bytes, event: Event)
    requires StackOk(os + [o]) && OpenedOk(o) && OpenedOk(grown)
    requires OpenedText(grown, false) == OpenedText(o, false) + text
             && OpenedMeaning(grown) == OpenedMeaning(o) + [event]
    ensures StackOk(os + [grown]) && StackText(os + [grown]) == StackText(os + [o]) + text
    ensures StackMeaning(os + [grown]) == StackMeaning(os + [o]) + [event]
  {
    hide OpenedOk, OpenedText, OpenedMeaning, Awaits, OuterText;
    assert Init(os + [o]) == os && Init(os + [grown]) == os;
    forall i | 0 <= i < |os| ensures OpenedOk(os[i]) && Awaits(os[i]) {
      assert os[i] == (os + [o])[i];
    }
    assert OpenedOk((os + [o])[|os|]);
    assert OuterText(os) + (OpenedText(o, false) + text) == (OuterText(os) + OpenedText(o, false)) + text;
    assert StackMeaning(os) + (OpenedMeaning(o) + [event]) == (StackMeaning(os) + OpenedMeaning(o)) + [event];
  }

  lemma KeyTracks(st: State, d: Draft, events: Events, text: bytes) returns (next: Draft)
    requires st.valid && Tracks(st, d, events) && st.stack != [] && Top(st).kind.ObjectFrame? && Top(st).expectKey
    requires DraftShallow(d) && Utf8.Walks(text, 0)
    ensures Tracks(Step(st, PutKey(text)).st, next, events + [Key(text)]) && DraftShallow(next)
  {
    hide TreeText, Meaning, TreeOk, QuotedText, EscapedString, PiecesOk, PiecesValue, Utf8.Walks, MembersText;
    hide MembersMeaning;
    hide StackText, StackMeaning, OpenedText, OpenedMeaning, StackOk, OpenedOk;
    var o, os := Last(d.os), Init(d.os);
    assert d.os == os + [o] && Top(st) == FrameOf(o);
    assert OpenedOk(o) by {
      LastIsOk(d.os);
    }
    var ps := EscapedStringSpells(text);
    var renamed := InObject(o.held, Some(ps));
    next := Draft(os + [renamed], None);
    KeyOpens(o.held, ps);
    var comma: bytes := if o.held.Some? then [COMMA] else [];
    InnermostGrows(os, o, renamed, comma + QuotedText(ps) + [COLON], Key(text));
    assert st.output + (comma + EscapedString(text) + [COLON]) == Step(st, PutKey(text)).st.output;
  }

  lemma LastIsOk(os: seq<Opened>)
    requires StackOk(os) && os != []
    ensures OpenedOk(Last(os))
  {
  }

  lemma KeyOpens(held: Option<Members>, ps: seq<Piece>)
    requires OpenedOk(InObject(held, None)) && PiecesOk(ps)
    ensures var before, after := InObject(held, None), InObject(held, Some(ps));
            var comma: bytes := if held.Some? then [COMMA] else [];
            && OpenedText(after, false) == OpenedText(before, false) + (comma + QuotedText(ps) + [COLON])
            && OpenedMeaning(after) == OpenedMeaning(before) + [Key(PiecesValue(ps))] && OpenedOk(after)
  {
    hide QuotedText, PiecesOk, PiecesValue, MembersText, MembersMeaning, MembersOk;
    var nothing: bytes := [];
    var silent: Events := [];
    var q := QuotedText(ps);
    var s := if held.None? then nothing else MembersText(held.value);
    var meant := if held.None? then silent else MembersMeaning(held.value);
    var comma: bytes := if held.Some? then [COMMA] else [];
    assert [OPEN_BRACE] + (s + (comma + (q + [COLON]))) == [OPEN_BRACE] + (s + nothing) + (comma + q + [COLON]);
    assert [ObjectBegin] + (meant + [Key(PiecesValue(ps))])
           == [ObjectBegin] + (meant + silent) + [Key(PiecesValue(ps))];
  }

  predicate Writable(call: Call) {
    match call
    case PutKey(text) => Utf8.Walks(text, 0)
    case PutString(text) => Utf8.Walks(text, 0)
    case _ => true
  }

  /** One call extends the draft, or makes the writer invalid. */
  lemma StepTracks(st: State, d: Draft, events: Events, call: Call) returns (next: Draft)
    requires Tracks(st, d, events) && Writable(call)
    requires st.valid ==> DraftShallow(d)
    requires |st.stack| <= MAX_DEPTH && |Step(st, call).st.stack| <= MAX_DEPTH
    ensures var after := Step(st, call).st;
            Tracks(after, next, events + [EventOf(call)]) && (after.valid ==> DraftShallow(next))
  {
    hide Tracks, DraftShallow, Utf8.Walks, EscapedString, Decimal;
    next := d;
    if !st.valid {
      assert !Step(st, call).st.valid;
      InvalidTracks(Step(st, call).st, next, events + [EventOf(call)]);
      return;
    }
    if !Step(st, call).st.valid {
      InvalidTracks(Step(st, call).st, next, events + [EventOf(call)]);
      return;
    }
    match call
    case BeginObject => next := OpenTracks(st, d, events, InObject(None, None));
    case BeginArray => next := OpenTracks(st, d, events, InArray(None));
    case EndObject => next := CloseTracks(st, d, events);
    case EndArray => next := CloseTracks(st, d, events);
    case PutKey(text) => next := KeyTracks(st, d, events, text);
    case PutNull => next := PrimitiveTracks(st, d, events, Nothing);
    case PutBoolean(b) => next := PrimitiveTracks(st, d, events, if b then True else False);
    case PutInteger(n) =>
      DecimalSpells(n);
      next := PrimitiveTracks(st, d, events, Figure(NumeralOf(n)));
    case PutString(text) =>
      var ps := EscapedStringSpells(text);
      next := PrimitiveTracks(st, d, events, Quoted(ps));
  }

  lemma InvalidTracks(st: State, d: Draft, events: Events)
    requires !st.valid
    ensures Tracks(st, d, events)
  {
  }

  // ----- whole runs -----

  lemma {:induction false} RunTracks(st: State, d: Draft, events: Events, calls: seq<Call>) returns (end: Draft)
    requires Tracks(st, d, events) && (st.valid ==> DraftShallow(d)) && MaxStack(st, calls) <= MAX_DEPTH
    requires forall k | 0 <= k < |calls| :: Writable(calls[k])
    ensures var after := RunFrom(st, calls);
            Tracks(after, end, events + EventsOf(calls)) && (after.valid ==> DraftShallow(end))
    decreases |calls|
  {
    hide Tracks, DraftShallow, Step, Writable, EventOf;
    if calls == [] {
      assert events + EventsOf(calls) == events;
      end := d;
    } else {
      var next := StepTracks(st, d, events, calls[0]);
      end := RunTracks(Step(st, calls[0]).st, next, events + [EventOf(calls[0])], calls[1..]);
      assert events + [EventOf(calls[0])] + EventsOf(calls[1..]) == events + EventsOf(calls);
    }
  }

  lemma NothingDrafted()
    ensures Tracks(CLEARED, Draft([], None), []) && DraftShallow(Draft([], None))
  {
  }

  // ----- every well formed run of calls completes -----

  lemma {:induction false} EventsOfAt(calls: seq<Call>)
    ensures |EventsOf(calls)| == |calls| && forall k | 0 <= k < |calls| :: EventsOf(calls)[k] == EventOf(calls[k])
    decreases |calls|
  {
    hide EventOf;
    if calls != [] {
      EventsOfAt(calls[1..]);
    }
  }

  lemma SplitCalls(calls: seq<Call>, x: Events, y: Events) returns (a: seq<Call>, b: seq<Call>)
    requires EventsOf(calls) == x + y
    ensures calls == a + b && EventsOf(a) == x && EventsOf(b) == y && |a| == |x|
  {
    hide EventOf, EventsOf;
    EventsOfAt(calls);
    a, b := calls[..|x|], calls[|x|..];
    EventsOfAt(a);
    EventsOfAt(b);
    assert forall k | 0 <= k < |x| :: (x + y)[k] == x[k];
    assert forall k | 0 <= k < |y| :: (x + y)[|x| + k] == y[k];
  }

  lemma {:induction false} RunConcat(st: State, a: seq<Call>, b: seq<Call>)
    ensures RunFrom(st, a + b) == RunFrom(RunFrom(st, a), b)
    ensures MaxStack(st, a + b) == Max(MaxStack(st, a), MaxStack(RunFrom(st, a), b))
    decreases |a|
  {
    hide Step;
    if a == [] {
      assert a + b == b;
    } else {
      assert (a + b)[1..] == a[1..] + b;
      RunConcat(Step(st, a[0]).st, a[1..], b);
    }
  }

  lemma RunOne(st: State, calls: seq<Call>)
    requires |calls| == 1
    ensures RunFrom(st, calls) == Step(st, calls[0]).st
            && MaxStack(st, calls) == Max(|st.stack|, |Step(st, calls[0]).st.stack|)
  {
    hide Step;
    assert calls[1..] == [];
  }

  /** A value was written where one was due: the frames below are untouched, and the innermost one has seen it. */
  ghost predicate Wrote(st: State, calls: seq<Call>, depth: nat) {
    var end := RunFrom(st, calls);
    && end.valid && end.rootWritten && end.stack == FinishValue(st).stack && MaxStack(st, calls) == |st.stack| + depth
  }

  lemma ScalarRuns(st: State, calls: seq<Call>, v: Scalar)
    requires BeginValue(st).ok && (st.stack != [] ==> st.rootWritten) && EventsOf(calls) == [Value(v)]
    ensures Wrote(st, calls, 0)
  {
    hide EscapedString, Decimal, EventsOf, RunFrom, MaxStack;
    EventsOfAt(calls);
    RunOne(st, calls);
  }

  /** The innermost container of st was given content, and can be closed again. */
  ghost predicate Filled(st: State, calls: seq<Call>, list: bool, depth: nat) {
    var end := RunFrom(st, calls);
    && end.valid && end.rootWritten && st.stack != [] && end.stack != [] && Init(end.stack) == Init(st.stack)
    && CanClose(end, list) && MaxStack(st, calls) == |st.stack| + depth
  }

  predicate CanClose(st: State, list: bool) {
    st.stack != [] && if list then Top(st).kind.ArrayFrame? else Top(st).kind.ObjectFrame? && Top(st).expectKey
  }

  function Begin(list: bool): (r: Event) { if list then ArrayBegin else ObjectBegin }

  function End(list: bool): (r: Event) { if list then ArrayEnd else ObjectEnd }

  lemma OpenRuns(st: State, open: seq<Call>, list: bool)
    requires BeginValue(st).ok && (st.stack != [] ==> st.rootWritten) && EventsOf(open) == [Begin(list)]
    ensures var inner := RunFrom(st, open);
            && inner.valid && inner.rootWritten && inner.stack != [] && Init(inner.stack) == st.stack
               && CanClose(inner, list)
            && MaxStack(st, open) == |st.stack| + 1
  {
    EventsOfAt(open);
    RunOne(st, open);
  }

  lemma CloseRuns(st: State, close: seq<Call>, list: bool)
    requires st.valid && st.rootWritten && CanClose(st, list) && EventsOf(close) == [End(list)]
    ensures var end := RunFrom(st, close);
            && end.valid && end.rootWritten && end.stack == FinishValue(st.(stack := Init(st.stack))).stack
            && MaxStack(st, close) == |st.stack|
  {
    EventsOfAt(close);
    RunOne(st, close);
  }

  /** Opening a container, filling it and closing it writes one value. */
  lemma ContainerRuns(st: State, open: seq<Call>, fill: seq<Call>, close: seq<Call>, list: bool, depth: nat)
    requires BeginValue(st).ok && (st.stack != [] ==> st.rootWritten)
    requires EventsOf(open) == [Begin(list)] && EventsOf(close) == [End(list)]
    requires Filled(RunFrom(st, open), fill, list, depth)
    ensures Wrote(st, open + fill + close, depth + 1)
  {
    hide RunFrom, MaxStack, EventsOf, BeginValue, CanClose, Begin, End;
    OpenRuns(st, open, list);
    var inner := RunFrom(st, open);
    var end := RunFrom(inner, fill);
    CloseRuns(end, close, list);
    RunConcat(st, open + fill, close);
    RunConcat(st, open, fill);
  }

  lemma SplitContainer(st: State, calls: seq<Call>, inner: Events, list: bool)
    returns (open: seq<Call>, fill: seq<Call>, close: seq<Call>)
    requires EventsOf(calls) == [Begin(list)] + inner + [End(list)]
    ensures calls == open + fill + close
    ensures EventsOf(open) == [Begin(list)] && EventsOf(fill) == inner && EventsOf(close) == [End(list)]
  {
    hide EventsOf, Begin, End;
    var start: seq<Call>;
    start, close := SplitCalls(calls, [Begin(list)] + inner, [End(list)]);
    open, fill := SplitCalls(start, [Begin(list)], inner);
  }

  lemma {:induction false} ValueRuns(st: State, calls: seq<Call>, v: Tree)
    requires TreeOk(v) && EventsOf(calls) == Meaning(v) && BeginValue(st).ok && (st.stack != [] ==> st.rootWritten)
    ensures Wrote(st, calls, Depth(v))
    decreases v, 1
  {
    hide EventsOf, ElementsMeaning, MembersMeaning, ElementsDepth, MembersDepth, PiecesValue, NumeralScalar,
        BeginValue, Wrote,
      Filled, CanClose, RunFrom, MaxStack, TriviaOk, PiecesOk, NumeralOk, ElementsOk, MembersOk;
    match v
    case Quoted(pieces) => ScalarRuns(st, calls, Str(PiecesValue(pieces)));
    case Figure(n) => ScalarRuns(st, calls, NumeralScalar(n));
    case True => ScalarRuns(st, calls, Boolean(true));
    case False => ScalarRuns(st, calls, Boolean(false));
    case Nothing => ScalarRuns(st, calls, Null);
    case EmptyArray(_) => EmptyRuns(st, calls, true);
    case EmptyObject(_) => EmptyRuns(st, calls, false);
    case Array(elements) =>
      var open, fill, close := SplitContainer(st, calls, ElementsMeaning(elements), true);
      OpenRuns(st, open, true);
      ElementsRun(RunFrom(st, open), fill, elements);
      ContainerRuns(st, open, fill, close, true, ElementsDepth(elements));
    case Object(members) =>
      var open, fill, close := SplitContainer(st, calls, MembersMeaning(members), false);
      OpenRuns(st, open, false);
      MembersRun(RunFrom(st, open), fill, members);
      ContainerRuns(st, open, fill, close, false, MembersDepth(members));
  }

  lemma EmptyRuns(st: State, calls: seq<Call>, list: bool)
    requires BeginValue(st).ok && (st.stack != [] ==> st.rootWritten) && EventsOf(calls) == [Begin(list), End(list)]
    ensures Wrote(st, calls, 1)
  {
    hide EventsOf, BeginValue, Wrote, Begin, End, CanClose;
    assert [Begin(list), End(list)] == [Begin(list)] + [] + [End(list)];
    var open, fill, close := SplitContainer(st, calls, [], list);
    OpenRuns(st, open, list);
    EventsOfAt(fill);
    ContainerRuns(st, open, fill, close, list, 0);
  }

  lemma {:induction false} ElementsRun(st: State, calls: seq<Call>, e: Elements)
    requires ElementsOk(e) && EventsOf(calls) == ElementsMeaning(e) && st.valid && st.rootWritten && CanClose(st, true)
    ensures Filled(st, calls, true, ElementsDepth(e))
    decreases e, 0
  {
    hide EventsOf, Meaning, Depth, TreeOk, TriviaOk, RunFrom, MaxStack;
    var rest: Events := if e.rest.Some? then ElementsMeaning(e.rest.value) else [];
    var a, b := SplitCalls(calls, Meaning(e.v), rest);
    ValueRuns(st, a, e.v);
    RunConcat(st, a, b);
    var next := RunFrom(st, a);
    if e.rest.Some? {
      ElementsRun(next, b, e.rest.value);
    } else {
      NoCalls(next, b);
    }
  }

  lemma NoCalls(st: State, calls: seq<Call>)
    requires EventsOf(calls) == []
    ensures calls == [] && RunFrom(st, calls) == st && MaxStack(st, calls) == |st.stack|
  {
  }

  lemma {:induction false} MembersRun(st: State, calls: seq<Call>, m: Members)
    requires MembersOk(m) && EventsOf(calls) == MembersMeaning(m) && st.valid && st.rootWritten && CanClose(st, false)
    ensures Filled(st, calls, false, MembersDepth(m))
    decreases m, 0
  {
    hide EventsOf, Meaning, Depth, TreeOk, TriviaOk, PiecesOk, PiecesValue, RunFrom, MaxStack;
    var rest: Events := if m.rest.Some? then MembersMeaning(m.rest.value) else [];
    var key, more := SplitCalls(calls, [Key(PiecesValue(m.key))], Meaning(m.v) + rest);
    var a, b := SplitCalls(more, Meaning(m.v), rest);
    KeyRuns(st, key, PiecesValue(m.key));
    var keyed := RunFrom(st, key);
    ValueRuns(keyed, a, m.v);
    RunConcat(st, key, more);
    RunConcat(keyed, a, b);
    var next := RunFrom(keyed, a);
    if m.rest.Some? {
      MembersRun(next, b, m.rest.value);
    } else {
      NoCalls(next, b);
    }
  }

  lemma KeyRuns(st: State, calls: seq<Call>, text: bytes)
    requires EventsOf(calls) == [Key(text)]
    requires st.valid && st.rootWritten && st.stack != [] && Top(st).kind.ObjectFrame? && Top(st).expectKey
    ensures var end := RunFrom(st, calls);
            && end.valid && end.rootWritten && end.stack == Init(st.stack) + [Top(st).(expectKey := false)]
            && MaxStack(st, calls) == |st.stack|
  {
    EventsOfAt(calls);
    RunOne(st, calls);
  }

  /** The document with nothing around its value. */
  function Bare(v: Tree): (r: Document) { Document(false, [], v, [], None) }

  lemma BareSpells(v: Tree)
    requires TreeOk(v)
    ensures DocumentOk(Bare(v)) && DocumentText(Bare(v)) == TreeText(v)
            && Unlocated(DocumentEvents(Bare(v))) == Meaning(v)
  {
    hide TreeText, Meaning, TreeOk, Flatten, Unlocated;
    var s := TreeText(v);
    var nothing: bytes := [];
    assert nothing + (nothing + (s + (nothing + nothing))) == s;
    MeaningIsUnlocated(v, 0);
  }

  /**
   * Whatever calls led to a complete writer, the text it holds is accepted by the parser, which
   * reports exactly those calls: same structure, keys, strings and integer tokens, in that order.
   */
  lemma RoundTrip(calls: seq<Call>)
    requires Complete(RunFrom(CLEARED, calls)) && MaxStack(CLEARED, calls) <= MAX_DEPTH
    requires forall k | 0 <= k < |calls| :: Writable(calls[k])
    ensures var read := Read(RunFrom(CLEARED, calls).output); read.Good? && Unlocated(read.value) == EventsOf(calls)
  {
    hide TreeText, Meaning, Unlocated, Flatten, Read;
    NothingDrafted();
    var d := RunTracks(CLEARED, Draft([], None), [], calls);
    assert d.os == [] && d.root.Some?;
    var v := d.root.value;
    BareSpells(v);
    JsonTheorems.ParserCorrect(TreeText(v));
    assert JsonTheorems.IsDocument(Bare(v), TreeText(v));
    assert [] + EventsOf(calls) == EventsOf(calls);
  }

  ghost predicate Spells(v: Tree, calls: seq<Call>) {
    TreeOk(v) && Depth(v) <= MAX_DEPTH && Meaning(v) == EventsOf(calls)
  }

  /** A run of calls is complete, and nested no deeper than the parser allows, exactly when it spells one such value. */
  lemma CompleteExactly(calls: seq<Call>)
    requires forall k | 0 <= k < |calls| :: Writable(calls[k])
    ensures Complete(RunFrom(CLEARED, calls)) && MaxStack(CLEARED, calls) <= MAX_DEPTH <==> exists v :: Spells(v, calls)
  {
    hide TreeOk, Meaning, Depth, EventsOf, RunFrom, MaxStack;
    if Complete(RunFrom(CLEARED, calls)) && MaxStack(CLEARED, calls) <= MAX_DEPTH {
      NothingDrafted();
      var d := RunTracks(CLEARED, Draft([], None), [], calls);
      assert [] + EventsOf(calls) == EventsOf(calls);
      assert Spells(d.root.value, calls);
    }
    forall v | Spells(v, calls) ensures Complete(RunFrom(CLEARED, calls)) && MaxStack(CLEARED, calls) <= MAX_DEPTH {
      ValueRuns(CLEARED, calls, v);
    }
  }
}
